/**
 * Typed access to the settings database: the flash adapter's address
 * arithmetic, the little-endian `Key`, and the bool and string codecs on top
 * of the ekv engine.
 *
 * Keys are `&str`s, which every operation passes to the engine as
 * `key.as_bytes()`; the operations here take those bytes. `usize` is 32 bits wide on the
 * target, so the adapter's address sums wrap modulo 2^32 like the `u32`s they
 * are cast to.
 */
module KvStorage {
  import opened Common
  import Utf8
  import Ekv

  // ----- Flash adapter -----

  /** ekv's build-time geometry: `PAGE_SIZE` and `MAX_PAGE_COUNT`. */
  datatype Geometry = Geometry(pageSize: nat, pageCount: nat)

  /** `EspFlash`: the region of the chip's flash, from `flash_start`, that ekv owns. */
  datatype EspFlash = EspFlash(flashStart: u32, geometry: Geometry)

  /** The calls the adapter makes on the chip's flash driver. */
  datatype FlashCall =
    | EraseRange(from: u32, to: u32)
    | ReadAt(addr: u32, len: nat)
    | WriteAt(addr: u32, data: Ekv.Bytes)

  /** `page_addr` */
  function PageAddr(f: EspFlash, page: nat): u32 {
    Wrap32(f.flashStart + page * f.geometry.pageSize)
  }

  function EraseCall(f: EspFlash, page: nat): FlashCall {
    EraseRange(PageAddr(f, page), Wrap32(PageAddr(f, page) + f.geometry.pageSize))
  }

  function ReadCall(f: EspFlash, page: nat, offset: nat, len: nat): FlashCall {
    ReadAt(Wrap32(PageAddr(f, page) + offset), len)
  }

  function WriteCall(f: EspFlash, page: nat, offset: nat, data: Ekv.Bytes): FlashCall {
    WriteAt(Wrap32(PageAddr(f, page) + offset), data)
  }

  /** The whole region, up to the end of its last page, lies below 2^32. */
  predicate Fits(f: EspFlash) {
    f.flashStart + f.geometry.pageCount * f.geometry.pageSize < U32_LIMIT
  }

  /** The end of page `p` is no further than the end of the region. */
  lemma PageEndBound(start: nat, p: nat, count: nat, size: nat)
    requires p < count
    ensures start + p * size + size <= start + count * size
  {
    assert (p + 1) * size <= count * size;
  }

  lemma NoWrap(base: nat, delta: nat)
    requires base + delta < U32_LIMIT
    ensures Wrap32(base + delta) == base + delta
  {
  }

  /**
   * Inside a region that fits, nothing wraps: page `p` starts at
   * `flash_start + p * PAGE_SIZE` and its erase covers exactly
   * `[start, start + PAGE_SIZE)`.
   */
  lemma EraseCoversPage(f: EspFlash, page: nat)
    requires Fits(f) && page < f.geometry.pageCount
    ensures var start := f.flashStart + page * f.geometry.pageSize;
      PageAddr(f, page) == start && EraseCall(f, page).EraseRange? &&
      EraseCall(f, page).from == start && EraseCall(f, page).to == start + f.geometry.pageSize
  {
    var ps := f.geometry.pageSize;
    PageEndBound(f.flashStart, page, f.geometry.pageCount, ps);
    var m := page * ps;
    NoWrap(f.flashStart, m);
    NoWrap(f.flashStart + m, ps);
  }

  /** A read or write of `len` bytes at `offset` within a page stays inside that page's erase range. */
  lemma AccessWithinPage(f: EspFlash, page: nat, offset: nat, len: nat, data: Ekv.Bytes)
    requires Fits(f) && page < f.geometry.pageCount
    requires offset + len <= f.geometry.pageSize && |data| == len
    ensures var e := EraseCall(f, page);
      var addr := f.flashStart + page * f.geometry.pageSize + offset;
      ReadCall(f, page, offset, len).addr == addr &&
      WriteCall(f, page, offset, data).addr == addr &&
      e.from <= addr && addr + len <= e.to
  {
    EraseCoversPage(f, page);
    var ps := f.geometry.pageSize;
    PageEndBound(f.flashStart, page, f.geometry.pageCount, ps);
    NoWrap(f.flashStart + page * ps, offset);
  }

  /** Distinct pages have disjoint erase ranges, in page order. */
  lemma PagesDisjoint(f: EspFlash, p: nat, q: nat)
    requires Fits(f) && p < q < f.geometry.pageCount
    ensures EraseCall(f, p).to <= EraseCall(f, q).from
  {
    EraseCoversPage(f, p);
    EraseCoversPage(f, q);
    PageEndBound(0, p, q, f.geometry.pageSize);
  }

  // ----- Key -----

  datatype Key = Key(id: u32)

  /** `u32::from_le_bytes` */
  function FromLeBytes(b: Ekv.Bytes): u32
    requires |b| == 4
  {
    b[0] as int + 256 * b[1] as int + 65536 * b[2] as int + 16777216 * b[3] as int
  }

  /** `u32::to_le_bytes` */
  function ToLeBytes(x: u32): (b: Ekv.Bytes)
    ensures |b| == 4
  {
    [(x % 256) as byte, ((x / 256) % 256) as byte, ((x / 65536) % 256) as byte, (x / 16777216) as byte]
  }

  /** `Key::from([u8; 4])` */
  function KeyFrom(b: Ekv.Bytes): Key
    requires |b| == 4
  {
    Key(FromLeBytes(b))
  }

  /** `Key::into() -> [u8; 4]` */
  function KeyInto(k: Key): (b: Ekv.Bytes)
    ensures |b| == 4
  {
    ToLeBytes(k.id)
  }

  /** The two conversions are inverse: from a key to bytes and back ... */
  lemma KeyRoundTrip(k: Key)
    ensures KeyFrom(KeyInto(k)) == k
  {
    var x := k.id;
    var q0 := x / 256;
    var q1 := q0 / 256;
    assert x == x % 256 + 256 * q0;
    assert q0 == q0 % 256 + 256 * q1;
    assert q1 == q1 % 256 + 256 * (q1 / 256);
    assert x / 65536 == q1;
    assert x / 16777216 == q1 / 256;
  }

  /** ... and from four bytes to a key and back. */
  lemma BytesRoundTrip(b: Ekv.Bytes)
    requires |b| == 4
    ensures KeyInto(KeyFrom(b)) == b
  {
    var x := FromLeBytes(b);
    assert x % 256 == b[0] as int;
    assert (x / 256) % 256 == b[1] as int;
    assert (x / 65536) % 256 == b[2] as int;
    assert x / 16777216 == b[3] as int;
  }

  // ----- Typed access -----

  /** `kv_storage::DbError`; postcard's error is not needed by this core. */
  datatype DbError =
    | ReadError(read: Ekv.ReadError)
    | WriteError(write: Ekv.WriteError)
    | CommitError
    | SerializationError
    | FormatError
    | StrFromUtf8Error
    | StringCapacityError


  /**
   * `read_from_db`: a found value is delivered into `buf` and its length
   * returned, a missing key is `Ok(None)`, and every other engine error is
   * passed on.
   */
  method ReadFromDb(db: Ekv.Database, key: Ekv.Bytes, buf: array<byte>, healthy: bool)
    returns (r: Result<Option<nat>, DbError>)
    requires db.mounted
    modifies buf
    ensures match Ekv.Lookup(db.records, key, buf.Length, healthy)
      case Ok(v) => r == Ok(Some(|v|)) && buf[..|v|] == v && buf[|v|..] == old(buf[|v|..])
      case Err(e) =>
        buf[..] == old(buf[..]) &&
        r == if e == Ekv.KeyNotFound then Ok(None) else Err(ReadError(e))
  {
    var read := db.Read(key, buf, healthy);
    match read
    case Ok(n) => r := Ok(Some(n));
    case Err(e) => r := if e.KeyNotFound? then Ok(None) else Err(ReadError(e));
  }

  /** The stored form of a bool: one byte, 1 for true and 0 for false. */
  function EncodeBool(value: bool): (v: Ekv.Bytes)
    ensures |v| == 1 && (v[0] != 0 <==> value)
  {
    if value then [1] else [0]
  }

  /** A value read into a zeroed one-byte buffer is true when its byte is non-zero. */
  function DecodeBool(v: Ekv.Bytes): bool {
    |v| >= 1 && v[0] != 0
  }

  /** What `read_bool` yields from the committed records. */
  function BoolSetting(records: Ekv.Records, key: Ekv.Bytes, healthy: bool): Result<Option<bool>, DbError> {
    match Ekv.Lookup(records, key, 1, healthy)
    case Ok(v) => Ok(Some(DecodeBool(v)))
    case Err(e) => if e.KeyNotFound? then Ok(None) else Err(ReadError(e))
  }

  /** What `read_string::<N>` yields from the committed records, for `N = cap`. */
  function StringSetting(records: Ekv.Records, key: Ekv.Bytes, cap: nat, healthy: bool): Result<Option<string>, DbError> {
    match Ekv.Lookup(records, key, cap, healthy)
    case Ok(v) =>
      (match Utf8.Decode(v)
       case None => Err(StrFromUtf8Error)
       case Some(s) => if |Utf8.Encode(s)| > cap then Err(StringCapacityError) else Ok(Some(s)))
    case Err(e) => if e.KeyNotFound? then Ok(None) else Err(ReadError(e))
  }

  /** `read_bool` */
  method ReadBool(db: Ekv.Database, key: Ekv.Bytes, healthy: bool) returns (r: Result<Option<bool>, DbError>)
    requires db.mounted
    ensures r == BoolSetting(db.records, key, healthy)
  {
    var buf := new byte[1](_ => 0);
    var found := ReadFromDb(db, key, buf, healthy);
    match found
    case Err(e) => r := Err(e);
    case Ok(None) => r := Ok(None);
    case Ok(Some(_)) => r := Ok(Some(buf[0] != 0));
  }

  /** `read_string::<N>` with `N = cap` */
  method ReadString(db: Ekv.Database, key: Ekv.Bytes, cap: nat, healthy: bool) returns (r: Result<Option<string>, DbError>)
    requires db.mounted
    ensures r == StringSetting(db.records, key, cap, healthy)
  {
    var buf := new byte[cap](_ => 0);
    var found := ReadFromDb(db, key, buf, healthy);
    match found
    case Err(e) => r := Err(e);
    case Ok(None) => r := Ok(None);
    case Ok(Some(len)) =>
      match Utf8.Decode(buf[..len])
      case None => r := Err(StrFromUtf8Error);
      case Some(s) =>
        if |Utf8.Encode(s)| > cap {
          r := Err(StringCapacityError);
        } else {
          r := Ok(Some(s));
        }
  }

  /** What a typed write reports for the engine's outcome. */
  function WriteOutcome(res: Result<(), Ekv.WriteError>): Result<(), DbError> {
    if res.Ok? then Ok(()) else Err(WriteError(res.error))
  }

  /**
   * `write_bool`: stages the one-byte encoding under `key`. A key out of order
   * is `NotSorted`; otherwise the write is staged exactly when the flash is
   * healthy, and fails with the flash error when it is not.
   */
  method WriteBool(tx: Ekv.WriteTx, key: Ekv.Bytes, value: bool, healthy: bool) returns (r: Result<(), DbError>)
    requires tx.Valid()
    modifies tx
    ensures tx.Valid()
    ensures !Ekv.Accepts(old(tx.ops), key) ==> r == Err(WriteError(Ekv.NotSorted)) && tx.ops == old(tx.ops)
    ensures Ekv.Accepts(old(tx.ops), key) && healthy ==>
      r == Ok(()) && tx.ops == old(tx.ops) + [Ekv.Put(key, EncodeBool(value))]
    ensures Ekv.Accepts(old(tx.ops), key) && !healthy ==>
      r == Err(WriteError(Ekv.WriteFault)) && tx.ops == old(tx.ops)
  {
    var written := tx.Write(key, EncodeBool(value), healthy);
    r := WriteOutcome(written);
  }

  /** `write_string`: stages the string's UTF-8 bytes, exactly, under the rules of `WriteBool`. */
  method WriteString(tx: Ekv.WriteTx, key: Ekv.Bytes, value: string, healthy: bool) returns (r: Result<(), DbError>)
    requires tx.Valid()
    modifies tx
    ensures tx.Valid()
    ensures !Ekv.Accepts(old(tx.ops), key) ==> r == Err(WriteError(Ekv.NotSorted)) && tx.ops == old(tx.ops)
    ensures Ekv.Accepts(old(tx.ops), key) && healthy ==>
      r == Ok(()) && tx.ops == old(tx.ops) + [Ekv.Put(key, Utf8.Encode(value))]
    ensures Ekv.Accepts(old(tx.ops), key) && !healthy ==>
      r == Err(WriteError(Ekv.WriteFault)) && tx.ops == old(tx.ops)
  {
    var written := tx.Write(key, Utf8.Encode(value), healthy);
    r := WriteOutcome(written);
  }

  /** A stored bool reads back as itself. */
  lemma BoolRoundTrip(records: Ekv.Records, key: Ekv.Bytes, value: bool)
    ensures BoolSetting(records[key := EncodeBool(value)], key, true) == Ok(Some(value))
  {
  }

  /** A stored string that fits the reader's capacity reads back as itself. */
  lemma StringRoundTrip(records: Ekv.Records, key: Ekv.Bytes, value: string, cap: nat)
    requires |Utf8.Encode(value)| <= cap
    ensures StringSetting(records[key := Utf8.Encode(value)], key, cap, true) == Ok(Some(value))
  {
    StringReadBack(records[key := Utf8.Encode(value)], key, value, cap);
  }

  /** Records holding the encoding of a string that fits read back as that string. */
  lemma StringReadBack(records: Ekv.Records, key: Ekv.Bytes, value: string, cap: nat)
    requires key in records && records[key] == Utf8.Encode(value) && |Utf8.Encode(value)| <= cap
    ensures StringSetting(records, key, cap, true) == Ok(Some(value))
  {
    Utf8.DecodeEncode(value);
  }

  /** A stored string longer than the reader's capacity is refused by the engine, not by the codec. */
  lemma StringTooLong(records: Ekv.Records, key: Ekv.Bytes, value: string, cap: nat)
    requires |Utf8.Encode(value)| > cap
    ensures StringSetting(records[key := Utf8.Encode(value)], key, cap, true) ==
      Err(ReadError(Ekv.BufferTooSmall))
  {
  }

  /**
   * `StringCapacityError` never happens: the engine delivers at most `N`
   * bytes, and a string decoded from them re-encodes to exactly those bytes.
   * Whatever the records hold, `read_string` ends in its value, `None`, a
   * read error or `StrFromUtf8Error`.
   */
  lemma StringCapacityUnreachable(records: Ekv.Records, key: Ekv.Bytes, cap: nat, healthy: bool)
    ensures StringSetting(records, key, cap, healthy) != Err(StringCapacityError)
  {
    var found := Ekv.Lookup(records, key, cap, healthy);
    if found.Ok? && Utf8.Decode(found.value).Some? {
      Utf8.DecodedLength(found.value);
    }
  }

  /** Ill-formed UTF-8 under a key reads as `StrFromUtf8Error` whenever it fits the buffer. */
  lemma IllFormedString(records: Ekv.Records, key: Ekv.Bytes, cap: nat)
    requires key in records && |records[key]| <= cap
    requires Utf8.Decode(records[key]).None?
    ensures StringSetting(records, key, cap, true) == Err(StrFromUtf8Error)
  {
  }

  /**
   * `init`: mount, and format whenever mounting fails, whatever the reason.
   * A database that mounts keeps its records; a failed format is reported as
   * `FormatError`. A flash error while mounting a valid image is answered
   * with a format too, so it erases every stored record.
   */
  method Init(db: Ekv.Database, mountHealthy: bool, formatHealthy: bool) returns (r: Result<(), DbError>)
    modifies db
    ensures old(db.formatted) && mountHealthy ==> r == Ok(()) && db.mounted && db.records == old(db.records)
    ensures !(old(db.formatted) && mountHealthy) && formatHealthy ==> r == Ok(()) && db.mounted && db.records == map[]
    ensures !(old(db.formatted) && mountHealthy) && !formatHealthy ==> r == Err(FormatError) && !db.mounted
  {
    var mounted := db.Mount(mountHealthy);
    if !mounted {
      var formatted := db.Format(formatHealthy);
      if !formatted {
        return Err(FormatError);
      }
    }
    r := Ok(());
  }
}
