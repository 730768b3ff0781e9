/**
 * The time base: a wall clock kept as an offset from device uptime, and the
 * SNTP exchange that sets it (section 7.3 of RFC 5905 for the packet layout).
 *
 * Uptime (`Instant::now().as_secs()`, a `u64`) is an input in seconds; the
 * source narrows it with `as u32`, written here as `Wrap32`. The UDP socket is
 * an input too: whether bind and send succeed, and what datagram arrives.
 */
module NetTime {
  import opened Common

  /** `base + uptime_now - uptime_base` in wrapping `u32` arithmetic. */
  function WallClock(base: u32, uptimeBase: u32, uptimeNow: u32): u32 {
    Wrap32(Wrap32(base + uptimeNow) - uptimeBase)
  }

  /** Without wrap-around the clock reads the synchronised time plus the seconds since. */
  lemma WallClockExact(base: u32, uptimeBase: u32, uptimeNow: u32)
    requires uptimeBase <= uptimeNow
    requires base + (uptimeNow - uptimeBase) < U32_LIMIT
    ensures WallClock(base, uptimeBase, uptimeNow) == base + (uptimeNow - uptimeBase)
  {
    if base + uptimeNow >= U32_LIMIT {
      assert Wrap32(base + uptimeNow) == base + uptimeNow - U32_LIMIT;
    }
  }

  /** The clock ticks with uptime: d more seconds of uptime read as d more seconds, modulo 2^32. */
  lemma WallClockAdvances(base: u32, uptimeBase: u32, uptimeNow: u32, d: nat)
    requires uptimeNow + d < U32_LIMIT
    ensures WallClock(base, uptimeBase, uptimeNow + d) == Wrap32(WallClock(base, uptimeBase, uptimeNow) + d)
  {
    var a := base + uptimeNow - uptimeBase;
    calc {
      WallClock(base, uptimeBase, uptimeNow + d);
      Wrap32(Wrap32(base + uptimeNow + d) - uptimeBase);
      { Wrap32OfSum(base + uptimeNow + d, -(uptimeBase as int)); }
      Wrap32(a + d);
      { Wrap32OfSum(a, d); }
      Wrap32(Wrap32(a) + d);
      { Wrap32OfSum(base + uptimeNow, -(uptimeBase as int)); }
      Wrap32(WallClock(base, uptimeBase, uptimeNow) + d);
    }
  }

  class TimeState {
    var unixAtSync: u32
    var uptimeAtSync: u32

    constructor ()
      ensures unixAtSync == 0 && uptimeAtSync == 0
    {
      unixAtSync, uptimeAtSync := 0, 0;
    }

    /** `set(unix)` at the given uptime. */
    method Set(unix: u32, uptimeSecs: nat)
      modifies this
      ensures unixAtSync == unix && uptimeAtSync == Wrap32(uptimeSecs)
    {
      unixAtSync := unix;
      uptimeAtSync := Wrap32(uptimeSecs);
    }

    /** `now()`: no wall-clock time until a non-zero time has been set. */
    function Now(uptimeSecs: nat): (r: Option<u32>)
      reads this
      ensures r.None? <==> unixAtSync == 0
      ensures r.Some? ==> r.value == WallClock(unixAtSync, uptimeAtSync, Wrap32(uptimeSecs))
    {
      if unixAtSync == 0 then None
      else Some(WallClock(unixAtSync, uptimeAtSync, Wrap32(uptimeSecs)))
    }

    /** `now_or_uptime()`: the wall clock when known, the uptime otherwise. */
    function NowOrUptime(uptimeSecs: nat): (t: u32)
      reads this
      ensures unixAtSync != 0 ==> Some(t) == Now(uptimeSecs)
      ensures unixAtSync == 0 ==> t == Wrap32(uptimeSecs)
    {
      match Now(uptimeSecs)
      case Some(t) => t
      case None => Wrap32(uptimeSecs)
    }
  }

  /** After `set(unix)` at uptime u0, `now()` at a later uptime u reads unix + (u - u0). */
  lemma NowAfterSet(unix: u32, u0: nat, u: nat)
    requires unix != 0
    requires u0 <= u < U32_LIMIT
    requires unix + (u - u0) < U32_LIMIT
    ensures WallClock(unix, Wrap32(u0), Wrap32(u)) == unix + (u - u0)
  {
    WallClockExact(unix, u0, u);
  }

  const NTP_PACKET_SIZE: nat := 48
  const NTP_UNIX_OFFSET: int := 2_208_988_800
  /** LI = 3 (clock unsynchronised), VN = 4, Mode = 3 (client). */
  const NTP_CLIENT_HEADER: byte := 0xE3

  /** The first byte's fields, as section 7.3 of RFC 5905 lays them out. */
  function LeapIndicator(b: byte): int { b as int / 64 }
  function Version(b: byte): int { (b as int / 8) % 8 }
  function Mode(b: byte): int { b as int % 8 }

  /** The request `sync_time` sends: 48 zero bytes but the header byte. */
  method BuildRequest() returns (packet: array<byte>)
    ensures fresh(packet)
    ensures packet.Length == NTP_PACKET_SIZE
    ensures LeapIndicator(packet[0]) == 3 && Version(packet[0]) == 4 && Mode(packet[0]) == 3
    ensures forall i :: 1 <= i < packet.Length ==> packet[i] == 0
  {
    packet := new byte[NTP_PACKET_SIZE](_ => 0);
    packet[0] := NTP_CLIENT_HEADER;
  }

  /** `u32::from_be_bytes` */
  function FromBeBytes(b0: byte, b1: byte, b2: byte, b3: byte): u32 {
    ((b0 as int * 256 + b1 as int) * 256 + b2 as int) * 256 + b3 as int
  }

  /** `u32::to_be_bytes` */
  function ToBeBytes(x: u32): seq<byte> {
    [(x / 16777216) as byte, (x / 65536 % 256) as byte, (x / 256 % 256) as byte, (x % 256) as byte]
  }

  lemma {:induction false} BeBytesRoundTrip(x: u32)
    ensures var b := ToBeBytes(x); FromBeBytes(b[0], b[1], b[2], b[3]) == x
  {
    var q1 := x / 256;
    var q2 := q1 / 256;
    var q3 := q2 / 256;
    assert x == q1 * 256 + x % 256;
    assert q1 == q2 * 256 + q1 % 256;
    assert q2 == q3 * 256 + q2 % 256;
    assert x / 65536 == q2;
    assert x / 16777216 == q3;
  }

  lemma {:induction false} BeBytesRoundTripBack(b0: byte, b1: byte, b2: byte, b3: byte)
    ensures ToBeBytes(FromBeBytes(b0, b1, b2, b3)) == [b0, b1, b2, b3]
  {
    var x := FromBeBytes(b0, b1, b2, b3);
    var hi2 := b0 as int * 256 + b1 as int;
    var hi3 := hi2 * 256 + b2 as int;
    assert x == hi3 * 256 + b3 as int;
    assert x / 256 == hi3 && x % 256 == b3 as int;
    assert hi3 / 256 == hi2 && hi3 % 256 == b2 as int;
    assert hi2 / 256 == b0 as int && hi2 % 256 == b1 as int;
    assert x / 65536 == hi2;
    assert x / 16777216 == b0 as int;
  }

  /**
   * The transmit timestamp's seconds (bytes 40..43, big-endian) turned into
   * Unix seconds. The `u32` subtraction wraps below the offset, which is
   * what NTP era 1 (from 2036) needs.
   */
  function UnixSeconds(response: seq<byte>): (secs: u32)
    requires |response| >= NTP_PACKET_SIZE
  {
    Wrap32(FromBeBytes(response[40], response[41], response[42], response[43]) - NTP_UNIX_OFFSET)
  }

  /** A response built around a transmit time decodes to that time. */
  lemma UnixSecondsRoundTrip(before: seq<byte>, unix: u32, after: seq<byte>)
    requires |before| == 40 && |after| >= 4
    requires unix + NTP_UNIX_OFFSET < U32_LIMIT
    ensures UnixSeconds(before + ToBeBytes(unix + NTP_UNIX_OFFSET) + after) == unix
  {
    var r := before + ToBeBytes(unix + NTP_UNIX_OFFSET) + after;
    BeBytesRoundTrip(unix + NTP_UNIX_OFFSET);
    assert r[40..44] == ToBeBytes(unix + NTP_UNIX_OFFSET);
  }

  datatype NtpError = Bind | Send | Recv | Other

  /** What the socket does when asked to receive. */
  datatype Reception = Received(datagram: seq<byte>) | RecvFailed

  /**
   * `sync_time`, given the socket's behaviour. Also returns the request it
   * put on the wire (empty when bind failed). The 48-byte receive buffer
   * cannot hold a longer datagram, so the environment never delivers one.
   */
  method SyncTime(bindOk: bool, sendOk: bool, reception: Reception)
    returns (r: Result<u32, NtpError>, sent: seq<byte>)
    requires reception.Received? ==> |reception.datagram| <= NTP_PACKET_SIZE
    ensures !bindOk ==> r == Err(Bind) && sent == []
    ensures bindOk ==> |sent| == NTP_PACKET_SIZE && sent[0] == NTP_CLIENT_HEADER
                       && forall i :: 1 <= i < |sent| ==> sent[i] == 0
    ensures bindOk && !sendOk ==> r == Err(Send)
    ensures bindOk && sendOk && reception.RecvFailed? ==> r == Err(Recv)
    ensures bindOk && sendOk && reception.Received? ==>
      if |reception.datagram| < NTP_PACKET_SIZE then r == Err(Other)
      else r == Ok(UnixSeconds(reception.datagram))
  {
    sent := [];
    if !bindOk {
      return Err(Bind), sent;
    }
    var packet := BuildRequest();
    sent := packet[..];
    if !sendOk {
      return Err(Send), sent;
    }
    if reception.RecvFailed? {
      return Err(Recv), sent;
    }
    var recvBuf := new byte[NTP_PACKET_SIZE](_ => 0);
    var size := |reception.datagram|;
    var i := 0;
    while i < size
      invariant 0 <= i <= size
      invariant forall j :: 0 <= j < i ==> recvBuf[j] == reception.datagram[j]
    {
      recvBuf[i] := reception.datagram[i];
      i := i + 1;
    }
    if size < NTP_PACKET_SIZE {
      return Err(Other), sent;
    }
    assert recvBuf[..] == reception.datagram;
    var secs := FromBeBytes(recvBuf[40], recvBuf[41], recvBuf[42], recvBuf[43]);
    r := Ok(Wrap32(secs - NTP_UNIX_OFFSET));
  }

  /** One pass of `sync_task`'s loop: the exchange and the uptime when it completes. */
  datatype SyncRound = SyncRound(bindOk: bool, sendOk: bool, reception: Reception, uptimeSecs: nat)

  predicate WellFormedRound(round: SyncRound) {
    round.reception.Received? ==> |round.reception.datagram| <= NTP_PACKET_SIZE
  }

  /** What `sync_time` yields for a round (the function `SyncTime` is proved against). */
  function RoundResult(round: SyncRound): Result<u32, NtpError>
    requires WellFormedRound(round)
  {
    if !round.bindOk then Err(Bind)
    else if !round.sendOk then Err(Send)
    else match round.reception
      case RecvFailed => Err(Recv)
      case Received(d) => if |d| < NTP_PACKET_SIZE then Err(Other) else Ok(UnixSeconds(d))
  }

  /** The index of the last round that synchronised, if any. */
  function LastSync(rounds: seq<SyncRound>): (k: Option<nat>)
    requires forall i :: 0 <= i < |rounds| ==> WellFormedRound(rounds[i])
    ensures k.Some? ==>
      k.value < |rounds| && RoundResult(rounds[k.value]).Ok? &&
      forall j :: k.value < j < |rounds| ==> RoundResult(rounds[j]).Err?
    ensures k.None? ==> forall j :: 0 <= j < |rounds| ==> RoundResult(rounds[j]).Err?
    decreases |rounds|
  {
    if rounds == [] then None
    else if RoundResult(rounds[|rounds| - 1]).Ok? then Some(|rounds| - 1)
    else LastSync(rounds[..|rounds| - 1])
  }

  /**
   * `sync_task` over a finite run of its endless loop (network-up waits and
   * the six-hour sleep are the gaps between rounds): the clock holds the result
   * of the last successful round; failed rounds leave it as it was.
   */
  method SyncTask(state: TimeState, rounds: seq<SyncRound>)
    requires forall i :: 0 <= i < |rounds| ==> WellFormedRound(rounds[i])
    modifies state
    ensures LastSync(rounds).None? ==>
      state.unixAtSync == old(state.unixAtSync) && state.uptimeAtSync == old(state.uptimeAtSync)
    ensures LastSync(rounds).Some? ==>
      var k := LastSync(rounds).value;
      state.unixAtSync == RoundResult(rounds[k]).value && state.uptimeAtSync == Wrap32(rounds[k].uptimeSecs)
  {
    var i := 0;
    while i < |rounds|
      invariant 0 <= i <= |rounds|
      invariant LastSync(rounds[..i]).None? ==>
        state.unixAtSync == old(state.unixAtSync) && state.uptimeAtSync == old(state.uptimeAtSync)
      invariant LastSync(rounds[..i]).Some? ==>
        var k := LastSync(rounds[..i]).value;
        state.unixAtSync == RoundResult(rounds[k]).value && state.uptimeAtSync == Wrap32(rounds[k].uptimeSecs)
    {
      var round := rounds[i];
      var r, _ := SyncTime(round.bindOk, round.sendOk, round.reception);
      assert r == RoundResult(round);
      if r.Ok? {
        state.Set(r.value, round.uptimeSecs);
      }
      assert rounds[..i + 1][..i] == rounds[..i];
      i := i + 1;
    }
    assert rounds[..|rounds|] == rounds;
  }
}
