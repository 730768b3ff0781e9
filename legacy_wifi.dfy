/**
 * The Wi-Fi task of the first firmware generation: an endless loop that
 * checks the link, announces it with `UP` while it is there, and otherwise
 * reconnects with a doubling backoff capped at 30 s.
 *
 * The controller is an input: each pass of the loop brings the answer of
 * `is_connected()` (`None` for an error) and, for a pass that has to
 * connect, whether `connect_async` succeeds. The task records the sleeps it
 * asks for, in seconds.
 */
module LegacyWifi {
  import opened Common
  import Sync
  import Mqtt

  /** The sleep while the link is up, in seconds. */
  const CONNECTED_SLEEP_SECS: nat := 5

  /** What one pass of the loop meets. */
  datatype Pass = Pass(isConnected: Option<bool>, connectOk: bool)

  /** `is_connected().ok().unwrap_or_default()`: an error counts as not connected. */
  predicate Connected(p: Pass) {
    p.isConnected.UnwrapOr(false)
  }

  /** The pass ends with the link up: either it was up, or the connect succeeded. */
  predicate LinkUp(p: Pass) {
    Connected(p) || p.connectOk
  }

  /** The sleeps one pass asks for, entered with backoff `b`: 5 s while up, none after a successful connect, `b` after a failed one. */
  function PassSleep(b: nat, p: Pass): seq<nat> {
    if Connected(p) then [CONNECTED_SLEEP_SECS] else if p.connectOk then [] else [b]
  }

  /** The backoff after `passes`, entered with backoff `b`. */
  function BackoffAfterPasses(b: nat, passes: seq<Pass>): nat
    decreases |passes|
  {
    if |passes| == 0 then b
    else if LinkUp(passes[|passes| - 1]) then 1
    else Mqtt.NextBackoff(BackoffAfterPasses(b, passes[..|passes| - 1]))
  }

  /** The sleeps of `passes`, in order, entered with backoff `b`. */
  function PassSleeps(b: nat, passes: seq<Pass>): seq<nat>
    decreases |passes|
  {
    if |passes| == 0 then []
    else PassSleeps(b, passes[..|passes| - 1]) +
         PassSleep(BackoffAfterPasses(b, passes[..|passes| - 1]), passes[|passes| - 1])
  }

  /** Some pass of `passes` ends with the link up. */
  predicate AnyUp(passes: seq<Pass>) {
    exists j :: 0 <= j < |passes| && LinkUp(passes[j])
  }

  /**
   * A run of failed passes, none with the link up, sleeps exactly the
   * backoffs of that many consecutive failures and leaves the backoff where
   * they leave it.
   */
  lemma {:induction false} AllFailures(b: nat, passes: seq<Pass>)
    requires forall j :: 0 <= j < |passes| ==> !LinkUp(passes[j])
    ensures PassSleeps(b, passes) == Mqtt.Backoffs(b, |passes|)
    ensures BackoffAfterPasses(b, passes) == Mqtt.BackoffAfter(b, |passes|)
    decreases |passes|
  {
    if |passes| > 0 {
      var n := |passes| - 1;
      AllFailures(b, passes[..n]);
      Mqtt.BackoffsSnoc(b, n);
    }
  }

  /**
   * After the last pass with the link up, the backoff restarts from 1: with
   * `m` failed passes since, it is min(2^m, 30), so the next failure sleeps
   * 1, 2, 4, 8, 16, 30, 30, ... seconds.
   */
  lemma {:induction false} ResetThenFailures(b: nat, passes: seq<Pass>, k: nat)
    requires k < |passes| && LinkUp(passes[k])
    requires forall j :: k < j < |passes| ==> !LinkUp(passes[j])
    ensures BackoffAfterPasses(b, passes) == Mqtt.BackoffAfter(1, |passes| - k - 1)
    ensures BackoffAfterPasses(b, passes) == Min(Pow2(|passes| - k - 1), Mqtt.MAX_BACKOFF)
    decreases |passes|
  {
    var n := |passes| - 1;
    if n > k {
      ResetThenFailures(b, passes[..n], k);
      Mqtt.BackoffsSnoc(1, n - k - 1);
    }
    Mqtt.BackoffsFromReset(n - k);
  }

  /** The task's state: the backoff, the `UP` signal it raises, and the sleeps it has asked for. */
  class Task {
    var backoff: nat
    const up: Sync.Signal
    /** The sleeps the task has asked for, in seconds. */
    var sleeps: seq<nat>

    ghost predicate Valid()
      reads this
    {
      1 <= backoff <= Mqtt.MAX_BACKOFF
    }

    /** The state entering the loop, after the controller setup: backoff 1. */
    constructor (up: Sync.Signal)
      ensures Valid()
      ensures backoff == 1 && sleeps == [] && this.up == up
    {
      this.up := up;
      backoff := 1;
      sleeps := [];
    }

    /**
     * One pass of the loop. With the link up it raises `UP`, resets the
     * backoff and sleeps 5 s. Otherwise it connects: success raises `UP`
     * and resets the backoff; failure sleeps the backoff and doubles it,
     * capped at 30.
     */
    method Step(p: Pass)
      requires Valid()
      modifies this, up
      ensures Valid()
      ensures LinkUp(p) ==> up.raised && backoff == 1
      ensures !LinkUp(p) ==> up.raised == old(up.raised) && backoff == Mqtt.NextBackoff(old(backoff))
      ensures sleeps == old(sleeps) + PassSleep(old(backoff), p)
    {
      if p.isConnected.UnwrapOr(false) {
        up.Raise();
        backoff := 1;
        sleeps := sleeps + [CONNECTED_SLEEP_SECS];
        return;
      }
      if p.connectOk {
        up.Raise();
        backoff := 1;
      } else {
        sleeps := sleeps + [backoff];
        Mqtt.NextBackoffInRange(backoff);
        backoff := Mqtt.NextBackoff(backoff);
      }
    }

    /**
     * The loop over a run of passes: the backoff and the sleeps are those
     * the passes determine, and `UP` is raised exactly when it already was
     * or some pass ended with the link up.
     */
    method Run(passes: seq<Pass>)
      requires Valid()
      modifies this, up
      ensures Valid()
      ensures backoff == BackoffAfterPasses(old(backoff), passes)
      ensures sleeps == old(sleeps) + PassSleeps(old(backoff), passes)
      ensures up.raised <==> old(up.raised) || AnyUp(passes)
    {
      ghost var b0 := backoff;
      ghost var sleeps0 := sleeps;
      ghost var up0 := up.raised;
      var i := 0;
      while i < |passes|
        invariant 0 <= i <= |passes|
        invariant Valid()
        invariant backoff == BackoffAfterPasses(b0, passes[..i])
        invariant sleeps == sleeps0 + PassSleeps(b0, passes[..i])
        invariant up.raised <==> up0 || AnyUp(passes[..i])
      {
        Step(passes[i]);
        assert passes[..i + 1][..i] == passes[..i];
        assert passes[..i + 1][i] == passes[i];
        i := i + 1;
      }
      assert passes[..i] == passes;
    }
  }
}
