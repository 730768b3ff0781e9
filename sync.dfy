/**
 * The two synchronisation shapes the tasks share, with their embassy and
 * heapless semantics reduced to one sequential program:
 *
 * - `Fifo<T>`: a bounded first-in first-out queue. It stands for the sample
 *   queue `heapless::spsc::Queue<Sample, N>` (whose usable capacity is a
 *   parameter here, since heapless 0.8 keeps one slot free) and for the
 *   embassy `Channel`s that carry samples and commands (capacity 8).
 *   `Enqueue` is `enqueue` / `try_send`, `Dequeue` is `dequeue` / `try_receive`.
 * - `Signal`: embassy's `Signal<_, ()>` as a flag: `signal` raises it and a
 *   completed `wait` takes it down again.
 */
module Sync {
  import opened Common

  /** The queue after offering `x` to it: appended when there is room, dropped otherwise. */
  function Offer<T>(items: seq<T>, capacity: nat, x: T): (r: seq<T>)
    ensures |items| < capacity ==> r == items + [x]
    ensures |items| >= capacity ==> r == items
  {
    if |items| < capacity then items + [x] else items
  }

  /** The queue after offering every element of `xs` in turn. */
  function OfferAll<T>(items: seq<T>, capacity: nat, xs: seq<T>): seq<T>
    decreases |xs|
  {
    if xs == [] then items else OfferAll(Offer(items, capacity, xs[0]), capacity, xs[1..])
  }

  /**
   * Offering never disturbs what is already queued: the old entries stay at
   * the front, in order, and whatever is added is a prefix of the offers.
   */
  lemma {:induction false} OfferAllKeepsEntries<T>(items: seq<T>, capacity: nat, xs: seq<T>)
    requires |items| <= capacity
    ensures var r := OfferAll(items, capacity, xs);
      |r| == Min(capacity, |items| + |xs|) &&
      r == items + xs[..|r| - |items|]
    decreases |xs|
  {
    if xs != [] {
      var next := Offer(items, capacity, xs[0]);
      OfferAllKeepsEntries(next, capacity, xs[1..]);
      var r := OfferAll(items, capacity, xs);
      if |items| < capacity {
        assert next == items + [xs[0]];
        assert r == next + xs[1..][..|r| - |next|];
        assert xs[..|r| - |items|] == [xs[0]] + xs[1..][..|r| - |next|];
      } else {
        assert next == items;
        OfferAllFull(items, capacity, xs[1..]);
      }
    }
  }

  /** Offering a batch and then one more is offering the longer batch. */
  lemma {:induction false} OfferAllSnoc<T>(items: seq<T>, capacity: nat, xs: seq<T>, x: T)
    ensures OfferAll(items, capacity, xs + [x]) == Offer(OfferAll(items, capacity, xs), capacity, x)
    decreases |xs|
  {
    if xs == [] {
      assert [x][1..] == [];
    } else {
      assert (xs + [x])[0] == xs[0];
      assert (xs + [x])[1..] == xs[1..] + [x];
      OfferAllSnoc(Offer(items, capacity, xs[0]), capacity, xs[1..], x);
    }
  }

  lemma {:induction false} OfferAllFull<T>(items: seq<T>, capacity: nat, xs: seq<T>)
    requires |items| >= capacity
    ensures OfferAll(items, capacity, xs) == items
    decreases |xs|
  {
    if xs != [] {
      OfferAllFull(Offer(items, capacity, xs[0]), capacity, xs[1..]);
    }
  }

  /**
   * An empty queue of capacity C takes the first C offers and refuses every
   * later one: the (C+1)-th enqueue fails and the newest samples are the ones lost.
   */
  lemma FillEmpty<T>(capacity: nat, xs: seq<T>)
    ensures OfferAll([], capacity, xs) == xs[..Min(capacity, |xs|)]
  {
    OfferAllKeepsEntries([], capacity, xs);
  }

  class Fifo<T> {
    var items: seq<T>
    const capacity: nat

    ghost predicate Valid()
      reads this
    {
      |items| <= capacity
    }

    constructor (capacity: nat)
      ensures Valid() && items == [] && this.capacity == capacity
    {
      items := [];
      this.capacity := capacity;
    }

    /** True when an `Enqueue` would be refused. */
    function IsFull(): (full: bool)
      reads this
      ensures full <==> |items| >= capacity
    {
      |items| >= capacity
    }

    /** Adds `x` at the back; refused (and `x` dropped) when the queue is full. */
    method Enqueue(x: T) returns (accepted: bool)
      requires Valid()
      modifies this
      ensures Valid()
      ensures accepted <==> |old(items)| < capacity
      ensures items == Offer(old(items), capacity, x)
    {
      accepted := |items| < capacity;
      if accepted {
        items := items + [x];
      }
    }

    /** Removes and returns the front element; `None` (nothing removed) when empty. */
    method Dequeue() returns (r: Option<T>)
      requires Valid()
      modifies this
      ensures Valid()
      ensures old(items) == [] ==> r == None && items == []
      ensures old(items) != [] ==> r == Some(old(items)[0]) && items == old(items)[1..]
    {
      if items == [] {
        r := None;
      } else {
        r := Some(items[0]);
        items := items[1..];
      }
    }
  }

  class Signal {
    var raised: bool

    constructor ()
      ensures !raised
    {
      raised := false;
    }

    /** `signal(())` */
    method Raise()
      modifies this
      ensures raised
    {
      raised := true;
    }

    /**
     * A `wait()` given the chance to complete: it completes (and takes the
     * signal down) exactly when the signal is raised; otherwise it is still
     * waiting and nothing changes.
     */
    method TryWait() returns (woken: bool)
      modifies this
      ensures woken == old(raised)
      ensures !raised
    {
      woken := raised;
      raised := false;
    }
  }
}
