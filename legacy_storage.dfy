/**
 * The sample store of the first firmware generation: samples are written to
 * the key-value database under 4-byte keys handed out by a counter kept in
 * the database itself, under the key `_next_id_`.
 *
 * The database engine is the `Ekv` model. Which engine call fails is an
 * input, `fault`: the steps of one routine are numbered from 0, and step
 * `i` fails exactly when `fault == Some(i)`. The postcard encoding is a
 * parameter too: `encode` gives a sample's bytes, `decode` reads a buffer
 * back as `Option<Sample>` (`None` for bytes postcard refuses).
 */
module LegacyStorage {
  import opened Common
  import Utf8
  import Ekv
  import KvStorage
  import Config
  import LegacySensors

  /** The buffer a sample is serialised into and read back from. */
  const SAMPLE_SIZE: nat := 256

  /** `KEY_ID`, the key of the counter. */
  const KEY_ID: Ekv.Bytes := Config.Ascii("_next_id_")

  /** `DbError`, without the engine's and postcard's payloads. */
  datatype DbError =
    | ReadError(read: Ekv.ReadError)
    | WriteError(write: Ekv.WriteError)
    | CommitError
    | SerializationError

  // ----- Keys -----

  /** `Key::next`: `self.0 + 1`, which wraps at `u32::MAX` in the release build. */
  function Next(k: KvStorage.Key): (n: KvStorage.Key)
    ensures k.id < U32_MAX ==> n.id == k.id + 1
    ensures k.id == U32_MAX ==> n.id == 0
  {
    KvStorage.Key(Wrap32(k.id + 1))
  }

  /** `Key::as_bytes`: the little-endian bytes of the key, from which `From<[u8; 4]>` gives the key back. */
  function AsBytes(k: KvStorage.Key): (b: Ekv.Bytes)
    ensures |b| == 4 && KvStorage.KeyFrom(b) == k
  {
    KvStorage.KeyRoundTrip(k);
    KvStorage.ToLeBytes(k.id)
  }

  /** The two conversions of `Key` and `as_bytes` are little-endian and inverse to each other. */
  lemma KeyBytesInverse(k: KvStorage.Key, b: Ekv.Bytes)
    requires |b| == 4
    ensures KvStorage.KeyFrom(KvStorage.KeyInto(k)) == k
    ensures KvStorage.KeyInto(KvStorage.KeyFrom(b)) == b
    ensures AsBytes(k) == KvStorage.KeyInto(k)
    ensures AsBytes(KvStorage.KeyFrom(b)) == b
  {
    KvStorage.KeyRoundTrip(k);
    KvStorage.BytesRoundTrip(b);
  }

  /** A sample key is never the counter's key: the one has 4 bytes, the other 9. */
  lemma SampleKeyIsNotCounter(k: KvStorage.Key)
    ensures AsBytes(k) != KEY_ID
  {
    assert |KEY_ID| == 9;
  }

  // ----- The routines, on the database's records -----

  /** The counter a stored value holds: the value read into a zeroed 4-byte buffer. */
  function Counter(v: Ekv.Bytes): KvStorage.Key
    requires |v| <= 4
  {
    KvStorage.KeyFrom(v + Zeros(4 - |v|))
  }

  /**
   * `next_key`: read the counter (step 0), write the counter plus one
   * (step 1), commit (step 2), and return the counter as read. A missing
   * counter is a read error like any other.
   */
  function NextKeySpec(records: Ekv.Records, fault: Option<nat>): (r: (Result<KvStorage.Key, DbError>, Ekv.Records))
    ensures r.0.Ok? <==>
      Healthy(fault, 0) && Healthy(fault, 1) && Healthy(fault, 2) && KEY_ID in records && |records[KEY_ID]| <= 4
    ensures r.0.Ok? ==>
      r.0.value == Counter(records[KEY_ID]) && r.1 == records[KEY_ID := AsBytes(Next(r.0.value))]
    ensures r.0.Err? ==> r.1 == records
    ensures Healthy(fault, 0) && KEY_ID !in records ==> r.0 == Err(ReadError(Ekv.KeyNotFound))
  {
    match Ekv.Lookup(records, KEY_ID, 4, Healthy(fault, 0))
    case Err(e) => (Err(ReadError(e)), records)
    case Ok(v) =>
      var id := Counter(v);
      if !Healthy(fault, 1) then (Err(WriteError(Ekv.WriteFault)), records)
      else if !Healthy(fault, 2) then (Err(CommitError), records)
      else (Ok(id), records[KEY_ID := AsBytes(Next(id))])
  }

  /**
   * `store`: take a key from `next_key` (steps 0 to 2), serialise the
   * sample into 256 bytes, write it under the key (step 3) and commit
   * (step 4). The counter's commit stands even when a later step fails.
   */
  function StoreSpec(records: Ekv.Records, value: LegacySensors.Sample, encode: LegacySensors.Sample -> Ekv.Bytes,
                     fault: Option<nat>): (r: (Result<KvStorage.Key, DbError>, Ekv.Records))
    ensures NextKeySpec(records, fault).0.Err? ==> r == NextKeySpec(records, fault)
    ensures r.0.Ok? <==>
      NextKeySpec(records, fault).0.Ok? && |encode(value)| <= SAMPLE_SIZE && Healthy(fault, 3) && Healthy(fault, 4)
    ensures r.0.Ok? ==>
      r.0 == NextKeySpec(records, fault).0 &&
      r.1 == NextKeySpec(records, fault).1[AsBytes(r.0.value) := encode(value)]
    ensures r.0.Err? ==> r.1 == NextKeySpec(records, fault).1
  {
    var (k, counted) := NextKeySpec(records, fault);
    if k.Err? then (Err(k.error), counted)
    else if |encode(value)| > SAMPLE_SIZE then (Err(SerializationError), counted)
    else if !Healthy(fault, 3) then (Err(WriteError(Ekv.WriteFault)), counted)
    else if !Healthy(fault, 4) then (Err(CommitError), counted)
    else (Ok(k.value), counted[AsBytes(k.value) := encode(value)])
  }

  /**
   * `get`: read the key's value into a zeroed 256-byte buffer and decode
   * the whole buffer. Every read error is passed on, a missing key among
   * them; bytes postcard refuses are a serialisation error.
   */
  function GetSpec(records: Ekv.Records, key: KvStorage.Key, decode: Ekv.Bytes -> Option<Option<LegacySensors.Sample>>,
                   healthy: bool): (r: Result<Option<LegacySensors.Sample>, DbError>)
    ensures Ekv.Lookup(records, AsBytes(key), SAMPLE_SIZE, healthy).Err? <==> r.Err? && r.error.ReadError?
    ensures var found := Ekv.Lookup(records, AsBytes(key), SAMPLE_SIZE, healthy);
      found.Ok? ==>
        var d := decode(found.value + Zeros(SAMPLE_SIZE - |found.value|));
        r == if d.Some? then Ok(d.value) else Err(SerializationError)
  {
    match Ekv.Lookup(records, AsBytes(key), SAMPLE_SIZE, healthy)
    case Err(e) => Err(ReadError(e))
    case Ok(v) =>
      match decode(v + Zeros(SAMPLE_SIZE - |v|))
      case None => Err(SerializationError)
      case Some(x) => Ok(x)
  }

  /** `drop`: delete the key (step 0) and commit (step 1). */
  function DropSpec(records: Ekv.Records, key: KvStorage.Key, fault: Option<nat>): (r: (Result<(), DbError>, Ekv.Records))
    ensures r.0.Ok? <==> Healthy(fault, 0) && Healthy(fault, 1)
    ensures r.0.Ok? ==> r.1 == records - {AsBytes(key)}
    ensures r.0.Err? ==> r.1 == records
    ensures r.0.Err? ==> r.0.error == if Healthy(fault, 0) then CommitError else WriteError(Ekv.WriteFault)
  {
    if !Healthy(fault, 0) then (Err(WriteError(Ekv.WriteFault)), records)
    else if !Healthy(fault, 1) then (Err(CommitError), records)
    else (Ok(()), records - {AsBytes(key)})
  }

  // ----- What the routines promise together -----

  /** `Key::next` wraps: the largest key is followed by key 0. */
  lemma NextWraps()
    ensures Next(KvStorage.Key(U32_MAX)) == KvStorage.Key(0)
  {
  }

  /**
   * A freshly formatted database holds no counter, so `store` fails with a
   * missing-key read error before it writes anything.
   */
  lemma FreshDatabaseRefusesStore(value: LegacySensors.Sample, encode: LegacySensors.Sample -> Ekv.Bytes,
                                  fault: Option<nat>)
    requires Healthy(fault, 0)
    ensures StoreSpec(map[], value, encode, fault) == (Err(ReadError(Ekv.KeyNotFound)), map[])
  {
  }

  /** After a successful `next_key` the counter reads one more than the key it returned. */
  lemma CounterAdvances(records: Ekv.Records, fault: Option<nat>)
    requires NextKeySpec(records, fault).0.Ok?
    ensures var (k, after) := NextKeySpec(records, fault);
      KEY_ID in after && |after[KEY_ID]| == 4 && Counter(after[KEY_ID]) == Next(k.value)
  {
    var (k, after) := NextKeySpec(records, fault);
    assert after[KEY_ID] + Zeros(0) == after[KEY_ID];
  }

  /**
   * Successive stores take successive keys: when two stores in a row both
   * succeed, the second key is the first plus one, so the keys strictly
   * increase until the counter wraps at `u32::MAX`.
   */
  lemma SuccessiveStoresIncrease(records: Ekv.Records, v1: LegacySensors.Sample, v2: LegacySensors.Sample,
                                 encode: LegacySensors.Sample -> Ekv.Bytes, f1: Option<nat>, f2: Option<nat>)
    requires StoreSpec(records, v1, encode, f1).0.Ok?
    requires StoreSpec(StoreSpec(records, v1, encode, f1).1, v2, encode, f2).0.Ok?
    ensures var k1 := StoreSpec(records, v1, encode, f1).0.value;
      var k2 := StoreSpec(StoreSpec(records, v1, encode, f1).1, v2, encode, f2).0.value;
      k2 == Next(k1) && (k1.id < U32_MAX ==> k1.id < k2.id)
  {
    var (k1, after1) := StoreSpec(records, v1, encode, f1);
    CounterAdvances(records, f1);
    SampleKeyIsNotCounter(k1.value);
    assert after1[KEY_ID] == NextKeySpec(records, f1).1[KEY_ID];
  }

  /**
   * A stored sample reads back: `get` of the key `store` returned yields the
   * decoding of the serialised bytes padded with zeros to 256, and the
   * counter has moved on.
   */
  lemma StoreThenGet(records: Ekv.Records, value: LegacySensors.Sample, encode: LegacySensors.Sample -> Ekv.Bytes,
                     fault: Option<nat>, decode: Ekv.Bytes -> Option<Option<LegacySensors.Sample>>)
    requires StoreSpec(records, value, encode, fault).0.Ok?
    ensures var (k, after) := StoreSpec(records, value, encode, fault);
      var d := decode(encode(value) + Zeros(SAMPLE_SIZE - |encode(value)|));
      GetSpec(after, k.value, decode, true) == (if d.Some? then Ok(d.value) else Err(SerializationError)) &&
      KEY_ID in after && Counter(after[KEY_ID]) == Next(k.value)
  {
    var (k, after) := StoreSpec(records, value, encode, fault);
    CounterAdvances(records, fault);
    SampleKeyIsNotCounter(k.value);
    assert after[KEY_ID] == NextKeySpec(records, fault).1[KEY_ID];
  }

  /** `drop` removes exactly its key: every other record, the counter among them, stays as it was. */
  lemma DropRemovesExactly(records: Ekv.Records, key: KvStorage.Key, fault: Option<nat>, other: Ekv.Bytes)
    requires DropSpec(records, key, fault).0.Ok?
    requires other != AsBytes(key)
    ensures AsBytes(key) !in DropSpec(records, key, fault).1
    ensures other in DropSpec(records, key, fault).1 <==> other in records
    ensures other in records ==> DropSpec(records, key, fault).1[other] == records[other]
    ensures KEY_ID in records ==> DropSpec(records, key, fault).1[KEY_ID] == records[KEY_ID]
  {
    SampleKeyIsNotCounter(key);
  }

  // ----- The proxy over the database -----

  /** `DbProxy`: the database the routines run on. */
  class DbProxy {
    const db: Ekv.Database

    /** `DbProxy::new`, over a database just created on the flash. */
    constructor (db: Ekv.Database)
      ensures this.db == db
    {
      this.db := db;
    }

    /** `next_key`, on the database. */
    method NextKey(fault: Option<nat>) returns (r: Result<KvStorage.Key, DbError>)
      requires db.mounted
      modifies db
      ensures db.mounted
      ensures (r, db.records) == NextKeySpec(old(db.records), fault)
    {
      var records := db.records;
      var buf := new byte[4](_ => 0);
      var read := db.Read(KEY_ID, buf, Healthy(fault, 0));
      if read.Err? {
        return Err(ReadError(read.error));
      }
      var v := Ekv.Lookup(records, KEY_ID, 4, Healthy(fault, 0)).value;
      assert buf[..] == buf[..|v|] + buf[|v|..];
      assert buf[..] == v + Zeros(4 - |v|);
      var id := KvStorage.KeyFrom(buf[..]);
      var put := WriteAndCommit(KEY_ID, AsBytes(Next(id)), Healthy(fault, 1), Healthy(fault, 2));
      if put.Err? {
        return Err(put.error);
      }
      r := Ok(id);
    }

    /** `store`, on the database. */
    method Store(value: LegacySensors.Sample, encode: LegacySensors.Sample -> Ekv.Bytes, fault: Option<nat>)
      returns (r: Result<KvStorage.Key, DbError>)
      requires db.mounted
      modifies db
      ensures db.mounted
      ensures (r, db.records) == StoreSpec(old(db.records), value, encode, fault)
    {
      var key := NextKey(fault);
      if key.Err? {
        return Err(key.error);
      }
      var data := encode(value);
      if |data| > SAMPLE_SIZE {
        return Err(SerializationError);
      }
      var put := WriteAndCommit(AsBytes(key.value), data, Healthy(fault, 3), Healthy(fault, 4));
      if put.Err? {
        return Err(put.error);
      }
      r := Ok(key.value);
    }

    /**
     * One write transaction of `next_key` or `store`: `data` under `key`,
     * then the commit. A refused write or commit leaves the records as they were.
     */
    method WriteAndCommit(key: Ekv.Bytes, data: Ekv.Bytes, writeOk: bool, commitOk: bool) returns (r: Result<(), DbError>)
      requires db.mounted
      modifies db
      ensures db.mounted
      ensures r.Ok? <==> writeOk && commitOk
      ensures r.Ok? ==> db.records == old(db.records)[key := data]
      ensures r.Err? ==> db.records == old(db.records)
      ensures r.Err? ==> r.error == if writeOk then CommitError else WriteError(Ekv.WriteFault)
    {
      var records := db.records;
      var tx := new Ekv.WriteTx(db);
      var w := tx.Write(key, data, writeOk);
      if w.Err? {
        return Err(WriteError(w.error));
      }
      Ekv.ApplyPut(records, [], key, data);
      var committed := tx.Commit(commitOk);
      if !committed {
        return Err(CommitError);
      }
      r := Ok(());
    }

    /** `get`, on the database: a read transaction, so nothing changes. */
    method Get(key: KvStorage.Key, decode: Ekv.Bytes -> Option<Option<LegacySensors.Sample>>, healthy: bool)
      returns (r: Result<Option<LegacySensors.Sample>, DbError>)
      requires db.mounted
      ensures r == GetSpec(db.records, key, decode, healthy)
    {
      var buf := new byte[SAMPLE_SIZE](_ => 0);
      var read := db.Read(AsBytes(key), buf, healthy);
      if read.Err? {
        return Err(ReadError(read.error));
      }
      var v := Ekv.Lookup(db.records, AsBytes(key), SAMPLE_SIZE, healthy).value;
      assert buf[..] == buf[..|v|] + buf[|v|..];
      assert buf[..] == v + Zeros(SAMPLE_SIZE - |v|);
      var decoded := decode(buf[..]);
      if decoded.None? {
        return Err(SerializationError);
      }
      r := Ok(decoded.value);
    }

    /** `drop`, on the database. */
    method Drop(key: KvStorage.Key, fault: Option<nat>) returns (r: Result<(), DbError>)
      requires db.mounted
      modifies db
      ensures db.mounted
      ensures (r, db.records) == DropSpec(old(db.records), key, fault)
    {
      var records := db.records;
      var tx := new Ekv.WriteTx(db);
      var d := tx.Delete(AsBytes(key), Healthy(fault, 0));
      if d.Err? {
        return Err(WriteError(d.error));
      }
      Ekv.ApplyRemove(records, [], AsBytes(key));
      var committed := tx.Commit(Healthy(fault, 1));
      if !committed {
        return Err(CommitError);
      }
      r := Ok(());
    }
  }

  /**
   * `init`: mount the proxy's database and format it whenever mounting
   * fails, a flash error included. A database that mounts keeps its
   * records; a fresh format leaves it empty, and so without a counter.
   */
  method Init(proxy: DbProxy, mountHealthy: bool, formatHealthy: bool) returns (ok: bool)
    modifies proxy.db
    ensures ok <==> (old(proxy.db.formatted) && mountHealthy) || formatHealthy
    ensures ok ==> proxy.db.mounted
    ensures old(proxy.db.formatted) && mountHealthy ==> proxy.db.records == old(proxy.db.records)
    ensures !(old(proxy.db.formatted) && mountHealthy) && formatHealthy ==> proxy.db.records == map[]
  {
    var r := KvStorage.Init(proxy.db, mountHealthy, formatHealthy);
    ok := r.Ok?;
  }
}
