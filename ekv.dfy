/**
 * The `ekv` key-value engine, as the firmware uses it: a database on flash
 * that either holds a valid image (then `mount` succeeds) or does not (then it
 * must be formatted); reads look a key up in the committed records; a write
 * transaction stages writes and deletions, which must come in strictly
 * ascending key order, and `commit` applies them all at once.
 *
 * What the flash does is an input: every engine operation takes a `healthy`
 * flag, and an unhealthy operation fails with a flash error (ekv's `Flash` and
 * `Corrupted` variants folded into one).
 */
module Ekv {
  import opened Common

  type Bytes = seq<byte>
  type Records = map<Bytes, Bytes>

  /** `ekv::ReadError` */
  datatype ReadError = KeyNotFound | BufferTooSmall | ReadFault

  /** `ekv::WriteError` */
  datatype WriteError = NotSorted | WriteFault

  /** Strict lexicographic order on keys, the order ekv sorts records in. */
  predicate Below(a: Bytes, b: Bytes)
    decreases |a|
  {
    if a == [] then b != []
    else b != [] && (a[0] < b[0] || (a[0] == b[0] && Below(a[1..], b[1..])))
  }

  /** Two keys that agree up to position `i` and differ there are ordered by that byte. */
  lemma {:induction false} BelowAt(a: Bytes, b: Bytes, i: nat)
    requires i < |a| && i < |b| && a[..i] == b[..i] && a[i] < b[i]
    ensures Below(a, b)
    decreases i
  {
    if i > 0 {
      assert a[0] == a[..i][0] == b[..i][0] == b[0];
      assert a[1..][..i - 1] == a[..i][1..] == b[..i][1..] == b[1..][..i - 1];
      BelowAt(a[1..], b[1..], i - 1);
    }
  }

  lemma {:induction false} BelowIrreflexive(a: Bytes)
    ensures !Below(a, a)
    decreases |a|
  {
    if a != [] {
      BelowIrreflexive(a[1..]);
    }
  }

  lemma {:induction false} BelowTransitive(a: Bytes, b: Bytes, c: Bytes)
    requires Below(a, b) && Below(b, c)
    ensures Below(a, c)
    decreases |a|
  {
    if a != [] && a[0] == b[0] && b[0] == c[0] {
      BelowTransitive(a[1..], b[1..], c[1..]);
    }
  }

  /**
   * What a read of `key` into a buffer of `cap` bytes yields: the stored value
   * when it is there and fits, and otherwise the reason it is not delivered.
   */
  function Lookup(records: Records, key: Bytes, cap: nat, healthy: bool): (r: Result<Bytes, ReadError>)
    ensures r.Ok? <==> healthy && key in records && |records[key]| <= cap
    ensures r.Ok? ==> r.value == records[key]
    ensures r == Err(KeyNotFound) <==> healthy && key !in records
    ensures r == Err(BufferTooSmall) <==> healthy && key in records && |records[key]| > cap
  {
    if !healthy then Err(ReadFault)
    else if key !in records then Err(KeyNotFound)
    else if |records[key]| > cap then Err(BufferTooSmall)
    else Ok(records[key])
  }

  /** A staged operation of a write transaction. */
  datatype Op = Put(key: Bytes, value: Bytes) | Remove(key: Bytes)

  /** The records after a transaction's operations are committed, in order. */
  function Apply(records: Records, ops: seq<Op>): Records
    decreases |ops|
  {
    if ops == [] then records
    else
      var op := ops[|ops| - 1];
      var before := Apply(records, ops[..|ops| - 1]);
      match op
      case Put(k, v) => before[k := v]
      case Remove(k) => before - {k}
  }

  /** True when the keys of `ops` are strictly ascending. */
  predicate Ascending(ops: seq<Op>) {
    forall i, j :: 0 <= i < j < |ops| ==> Below(ops[i].key, ops[j].key)
  }

  /** Whether a transaction holding `ops` takes `key` next. */
  predicate Accepts(ops: seq<Op>, key: Bytes) {
    ops == [] || Below(ops[|ops| - 1].key, key)
  }

  /**
   * Staging `op` on a transaction holding `ops`: the outcome and the staged
   * operations after it. Out-of-order keys are refused before the flash is
   * touched; a refused operation stages nothing.
   */
  function Stage(ops: seq<Op>, op: Op, healthy: bool): (r: (Result<(), WriteError>, seq<Op>))
    ensures r.0.Ok? <==> Accepts(ops, op.key) && healthy
    ensures r.0 == Err(NotSorted) <==> !Accepts(ops, op.key)
    ensures r.0 == Err(WriteFault) <==> Accepts(ops, op.key) && !healthy
    ensures r.1 == if r.0.Ok? then ops + [op] else ops
  {
    if !Accepts(ops, op.key) then (Err(NotSorted), ops)
    else if !healthy then (Err(WriteFault), ops)
    else (Ok(()), ops + [op])
  }

  /** Committing one more write updates that one key. */
  lemma ApplyPut(records: Records, ops: seq<Op>, k: Bytes, v: Bytes)
    ensures Apply(records, ops + [Put(k, v)]) == Apply(records, ops)[k := v]
  {
    assert (ops + [Put(k, v)])[..|ops|] == ops;
  }

  /** Committing one more deletion removes that one key. */
  lemma ApplyRemove(records: Records, ops: seq<Op>, k: Bytes)
    ensures Apply(records, ops + [Remove(k)]) == Apply(records, ops) - {k}
  {
    assert (ops + [Remove(k)])[..|ops|] == ops;
  }

  /** Appending an accepted key keeps the staged keys ascending. */
  lemma AcceptsKeepsAscending(ops: seq<Op>, op: Op)
    requires Ascending(ops) && Accepts(ops, op.key)
    ensures Ascending(ops + [op])
  {
    var all := ops + [op];
    forall i, j | 0 <= i < j < |all|
      ensures Below(all[i].key, all[j].key)
    {
      if j == |ops| && i < |ops| - 1 {
        BelowTransitive(ops[i].key, ops[|ops| - 1].key, op.key);
      }
    }
  }

  /**
   * Committing writes to distinct keys: each written key ends up holding its
   * value, every key not mentioned keeps its old value.
   */
  lemma {:induction false} ApplyPuts(records: Records, ops: seq<Op>, k: Bytes)
    requires forall i :: 0 <= i < |ops| ==> ops[i].Put?
    ensures (exists i :: 0 <= i < |ops| && ops[i].key == k) ==> k in Apply(records, ops)
    ensures (forall i :: 0 <= i < |ops| ==> ops[i].key != k) ==>
      (k in Apply(records, ops) <==> k in records) &&
      (k in records ==> Apply(records, ops)[k] == records[k])
    decreases |ops|
  {
    if ops != [] {
      var init := ops[..|ops| - 1];
      assert forall i :: 0 <= i < |init| ==> init[i] == ops[i];
      ApplyPuts(records, init, k);
      if exists i :: 0 <= i < |ops| && ops[i].key == k {
        var i :| 0 <= i < |ops| && ops[i].key == k;
        if i < |init| {
          assert init[i].key == k;
        }
      }
    }
  }

  /** Under ascending keys, the last `Put` of a key is the one that stays. */
  lemma {:induction false} ApplyPutValue(records: Records, ops: seq<Op>, i: nat)
    requires Ascending(ops) && i < |ops| && ops[i].Put?
    requires forall j :: 0 <= j < |ops| ==> ops[j].Put?
    ensures ops[i].key in Apply(records, ops) && Apply(records, ops)[ops[i].key] == ops[i].value
    decreases |ops|
  {
    var init := ops[..|ops| - 1];
    assert forall j :: 0 <= j < |init| ==> init[j] == ops[j];
    if i < |ops| - 1 {
      assert Ascending(init);
      ApplyPutValue(records, init, i);
      assert Below(ops[i].key, ops[|ops| - 1].key);
      BelowIrreflexive(ops[i].key);
    }
  }

  class Database {
    /** The flash holds a valid database image. */
    var formatted: bool
    /** Its committed records. */
    var records: Records
    var mounted: bool

    /** The engine over whatever the flash holds at boot. */
    constructor (formatted: bool, records: Records)
      ensures this.formatted == formatted && this.records == records && !mounted
    {
      this.formatted := formatted;
      this.records := records;
      mounted := false;
    }

    /**
     * `mount`: succeeds exactly when the flash holds a valid image and
     * reading it hits no flash error (`healthy`).
     */
    method Mount(healthy: bool) returns (ok: bool)
      modifies this
      ensures ok == (formatted && healthy)
      ensures mounted == (old(mounted) || ok)
      ensures formatted == old(formatted) && records == old(records)
    {
      ok := formatted && healthy;
      if ok {
        mounted := true;
      }
    }

    /** `format`: an empty database, mounted; a failure leaves nothing usable. */
    method Format(healthy: bool) returns (ok: bool)
      modifies this
      ensures ok == healthy
      ensures ok ==> formatted && mounted && records == map[]
      ensures !ok ==> !formatted && !mounted && records == old(records)
    {
      ok := healthy;
      if ok {
        formatted, mounted, records := true, true, map[];
      } else {
        formatted, mounted := false, false;
      }
    }

    /**
     * `read`: on success the value fills the front of `buf` and its length is
     * returned; the rest of `buf`, and all of it on failure, is left alone.
     */
    method Read(key: Bytes, buf: array<byte>, healthy: bool) returns (r: Result<nat, ReadError>)
      requires mounted
      modifies buf
      ensures Lookup(records, key, buf.Length, healthy).Ok? ==>
        var v := Lookup(records, key, buf.Length, healthy).value;
        r == Ok(|v|) && buf[..|v|] == v && buf[|v|..] == old(buf[|v|..])
      ensures Lookup(records, key, buf.Length, healthy).Err? ==>
        r == Err(Lookup(records, key, buf.Length, healthy).error) && buf[..] == old(buf[..])
    {
      var found := Lookup(records, key, buf.Length, healthy);
      if found.Err? {
        return Err(found.error);
      }
      var v := found.value;
      var i := 0;
      while i < |v|
        invariant 0 <= i <= |v| <= buf.Length
        invariant buf[..i] == v[..i]
        invariant buf[i..] == old(buf[i..])
      {
        buf[i] := v[i];
        i := i + 1;
        assert buf[..i] == buf[..i - 1] + [v[i - 1]];
        assert v[..i] == v[..i - 1] + [v[i - 1]];
      }
      assert v[..|v|] == v;
      r := Ok(|v|);
    }
  }

  class WriteTx {
    const db: Database
    /** The writes and deletions staged so far, in the order they were made. */
    var ops: seq<Op>

    ghost predicate Valid()
      reads this
    {
      Ascending(ops)
    }

    /** `db.write_transaction()` */
    constructor (db: Database)
      ensures this.db == db && ops == [] && Valid()
    {
      this.db := db;
      ops := [];
    }

    /**
     * Stages a write. A key not above the last staged key is refused with
     * `NotSorted` (checked before the flash is touched); a flash failure
     * refuses it too; either way nothing is staged.
     */
    method Write(key: Bytes, value: Bytes, healthy: bool) returns (r: Result<(), WriteError>)
      requires Valid()
      modifies this
      ensures Valid()
      ensures (r, ops) == Stage(old(ops), Put(key, value), healthy)
    {
      if !Accepts(ops, key) {
        return Err(NotSorted);
      }
      if !healthy {
        return Err(WriteFault);
      }
      AcceptsKeepsAscending(ops, Put(key, value));
      ops := ops + [Put(key, value)];
      r := Ok(());
    }

    /** Stages a deletion, under the same rules as `Write`. */
    method Delete(key: Bytes, healthy: bool) returns (r: Result<(), WriteError>)
      requires Valid()
      modifies this
      ensures Valid()
      ensures (r, ops) == Stage(old(ops), Remove(key), healthy)
    {
      if !Accepts(ops, key) {
        return Err(NotSorted);
      }
      if !healthy {
        return Err(WriteFault);
      }
      AcceptsKeepsAscending(ops, Remove(key));
      ops := ops + [Remove(key)];
      r := Ok(());
    }

    /** `commit`: all staged operations take effect together, or none does. */
    method Commit(healthy: bool) returns (ok: bool)
      modifies db
      ensures ok == healthy
      ensures ok ==> db.records == Apply(old(db.records), ops)
      ensures !ok ==> db.records == old(db.records)
      ensures db.formatted == old(db.formatted) && db.mounted == old(db.mounted)
    {
      ok := healthy;
      if ok {
        db.records := Apply(db.records, ops);
      }
    }
  }
}
