/**
 * The MQTT session logic that does not depend on the client object: the
 * reconnect backoff, the command topic, the client's events and errors, what
 * the session does with one poll result, the wait for the connection
 * acknowledgement, and the JSON payload of a sample.
 *
 * The MQTT client library is a black box: it is a source of `Event`s and
 * `ClientError`s, given as inputs. Times are inputs in milliseconds. The
 * body of a command message is parsed by `Command::try_from`, which is not
 * part of this model; the parse is a parameter, `parse`, a partial function
 * from messages to commands.
 */
module Mqtt {
  import opened Common
  import Utf8
  import Fmt
  import Sensors

  const PUBLISH_QUEUE_SIZE: nat := 8
  const SUBSCRIBE_QUEUE_SIZE: nat := 8
  const PUBLISH_BURST: nat := 4
  const IO_POLL_TIMEOUT_MS: nat := 6_000
  const CONNECT_TIMEOUT_MS: nat := 10_000
  const COMMANDS_TOPIC_BASE: string := "sensors/command"

  // ----- Reconnect backoff -----

  /** The largest backoff, in seconds. */
  const MAX_BACKOFF: nat := 30

  /** `(backoff * 2).min(30)` */
  function NextBackoff(backoff: nat): nat {
    Min(backoff * 2, MAX_BACKOFF)
  }

  /** Doubling with a cap keeps the backoff within 1..30 s. */
  lemma NextBackoffInRange(backoff: nat)
    requires 1 <= backoff <= MAX_BACKOFF
    ensures 1 <= NextBackoff(backoff) <= MAX_BACKOFF
    ensures backoff < MAX_BACKOFF ==> NextBackoff(backoff) > backoff
    ensures backoff == MAX_BACKOFF ==> NextBackoff(backoff) == MAX_BACKOFF
  {
  }

  /** The sleeps of `n` consecutive failures, the first with backoff `b`. */
  function Backoffs(b: nat, n: nat): (r: seq<nat>)
    ensures |r| == n
    decreases n
  {
    if n == 0 then [] else [b] + Backoffs(NextBackoff(b), n - 1)
  }

  /** The backoff after `n` consecutive failures that started at `b`. */
  function BackoffAfter(b: nat, n: nat): nat
    decreases n
  {
    if n == 0 then b else BackoffAfter(NextBackoff(b), n - 1)
  }

  /** One more failure: the sleeps grow by the current backoff, which then doubles. */
  lemma {:induction false} BackoffsSnoc(b: nat, n: nat)
    ensures Backoffs(b, n + 1) == Backoffs(b, n) + [BackoffAfter(b, n)]
    ensures BackoffAfter(b, n + 1) == NextBackoff(BackoffAfter(b, n))
    decreases n
  {
    if n > 0 {
      BackoffsSnoc(NextBackoff(b), n - 1);
    }
  }

  lemma {:induction false} DoubleCapped(n: nat)
    ensures NextBackoff(Min(Pow2(n), MAX_BACKOFF)) == Min(Pow2(n + 1), MAX_BACKOFF)
  {
    assert Pow2(n + 1) == 2 * Pow2(n);
  }

  /**
   * From the reset value 1, the k-th backoff (counting from 0) is
   * min(2^k, 30): failure number k+1 sleeps 1, 2, 4, 8, 16, 30, 30, ... seconds.
   */
  lemma {:induction false} BackoffsFromReset(n: nat)
    ensures forall k :: 0 <= k < n ==> Backoffs(1, n)[k] == Min(Pow2(k), MAX_BACKOFF)
    ensures BackoffAfter(1, n) == Min(Pow2(n), MAX_BACKOFF)
    decreases n
  {
    if n > 0 {
      BackoffsFromReset(n - 1);
      BackoffsSnoc(1, n - 1);
      DoubleCapped(n - 1);
    }
  }

  /** From the reset value 1, five failures are enough to reach the cap: the backoff stays at 30 s from then on. */
  lemma CapReached(n: nat)
    requires 5 <= n
    ensures BackoffAfter(1, n) == MAX_BACKOFF
  {
    BackoffsFromReset(n);
    assert Pow2(5) == 32;
    Pow2Monotone(5, n);
  }

  /** Every sleep of a run of failures that starts within 1..30 s is within 1..30 s. */
  lemma {:induction false} BackoffsInRange(b: nat, n: nat)
    requires 1 <= b <= MAX_BACKOFF
    ensures forall k :: 0 <= k < n ==> 1 <= Backoffs(b, n)[k] <= MAX_BACKOFF
    ensures 1 <= BackoffAfter(b, n) <= MAX_BACKOFF
    decreases n
  {
    if n > 0 {
      BackoffsInRange(NextBackoff(b), n - 1);
    }
  }

  // ----- The command topic -----

  /** `command_topic`: `"{COMMANDS_TOPIC_BASE}/{client_id}"`. */
  function CommandTopic(clientId: string): (t: string)
    ensures |t| == |COMMANDS_TOPIC_BASE| + 1 + |clientId|
    ensures t[|COMMANDS_TOPIC_BASE| + 1..] == clientId
  {
    COMMANDS_TOPIC_BASE + "/" + clientId
  }

  /** Distinct clients listen on distinct topics. */
  lemma CommandTopicInjective(a: string, b: string)
    ensures CommandTopic(a) == CommandTopic(b) <==> a == b
  {
    if CommandTopic(a) == CommandTopic(b) {
      assert a == CommandTopic(a)[|COMMANDS_TOPIC_BASE| + 1..];
    }
  }

  /** The match on `topic.as_bytes() == cmd_topic.as_bytes()`. */
  predicate TopicMatches(topic: string, clientId: string) {
    Utf8.Encode(topic) == Utf8.Encode(CommandTopic(clientId))
  }

  /** Two strings have the same bytes exactly when they are the same string. */
  lemma TopicMatchesIff(topic: string, clientId: string)
    ensures TopicMatches(topic, clientId) <==> topic == CommandTopic(clientId)
  {
    Utf8.DecodeEncode(topic);
    Utf8.DecodeEncode(CommandTopic(clientId));
  }

  // ----- Events -----

  datatype Message = Message(topic: string, payload: seq<byte>)

  /** `mqtt_client::Event` */
  datatype Event =
    | Connected
    | Received(msg: Message)
    | Subscribed
    | SubscribeFailed
    | Unsubscribed
    | Published
    | Disconnected

  /** `mqtt_client::Error`, reduced to the two variants the session names and the rest. */
  datatype ClientError = TimedOut | TransportError | OtherError

  /** `Command`: the one command the execution loop knows. */
  datatype Command = RebootToReconfigure

  type PollResult = Result<Option<Event>, ClientError>

  /** How the race in `poll_io_with_timeout` ends: the client's `poll_io` first, or the 6 s timer. */
  datatype PollRace = IoDone(result: PollResult) | TimerFired

  /** `poll_io_with_timeout`: a timer win is "no event", never an error. */
  function PollWithTimeout(race: PollRace): (r: PollResult)
    ensures race.TimerFired? ==> r == Ok(None)
    ensures r.Err? ==> race == IoDone(r)
    ensures race.IoDone? ==> r == race.result
  {
    match race
    case IoDone(result) => result
    case TimerFired => Ok(None)
  }

  // ----- handle_poll_result -----

  /** The verdict of `handle_poll_result`: stay connected or not. */
  function KeepsConnection(poll: PollResult): (keep: bool)
    ensures !keep <==> poll.Err? || poll == Ok(Some(Disconnected))
  {
    match poll
    case Ok(Some(event)) =>
      (match event
       case Connected => true
       case Received(_) => true
       case Subscribed => true
       case SubscribeFailed => true
       case Unsubscribed => true
       case Published => true
       case Disconnected => false)
    case Ok(None) => true
    case Err(_) => false
  }

  /** The command a poll result hands to the command channel, if any. */
  function RoutedCommand(clientId: string, poll: PollResult, parse: Message -> Option<Command>): Option<Command> {
    match poll
    case Ok(Some(Received(msg))) => if TopicMatches(msg.topic, clientId) then parse(msg) else None
    case _ => None
  }

  /**
   * A command is routed exactly when a message arrived on this client's
   * command topic and its payload parses to that command.
   */
  lemma RoutedCommandIff(clientId: string, poll: PollResult, parse: Message -> Option<Command>, c: Command)
    ensures RoutedCommand(clientId, poll, parse) == Some(c) <==>
      poll.Ok? && poll.value.Some? && poll.value.value.Received? &&
      poll.value.value.msg.topic == CommandTopic(clientId) && parse(poll.value.value.msg) == Some(c)
  {
    if poll.Ok? && poll.value.Some? && poll.value.value.Received? {
      TopicMatchesIff(poll.value.value.msg.topic, clientId);
    }
  }

  /** Routing a command never ends the session: every received message keeps the connection. */
  lemma RoutingKeepsConnection(clientId: string, poll: PollResult, parse: Message -> Option<Command>)
    ensures RoutedCommand(clientId, poll, parse).Some? ==> KeepsConnection(poll)
  {
  }

  // ----- wait_for_connect -----

  /** One pass of the wait loop: the time at its deadline check, and how its poll ended. */
  datatype WaitStep = WaitStep(nowMs: nat, race: PollRace)

  /** The outcome of the wait so far: decided, or still polling when the input ends. */
  datatype WaitOutcome = Done(result: Result<(), ClientError>) | StillWaiting

  /**
   * What one pass decides: the deadline check first, then the poll; a poll
   * error is returned as it is (the `?`), `Connected` is success,
   * `Disconnected` is a transport error, and everything else loops.
   */
  function StepDecision(step: WaitStep, deadline: nat): (d: Option<Result<(), ClientError>>)
    ensures d == Some(Ok(())) <==> step.nowMs < deadline && PollWithTimeout(step.race) == Ok(Some(Connected))
    ensures step.nowMs >= deadline ==> d == Some(Err(TimedOut))
    ensures step.nowMs < deadline && PollWithTimeout(step.race) == Ok(Some(Disconnected)) ==>
      d == Some(Err(TransportError))
    ensures step.nowMs < deadline && PollWithTimeout(step.race).Err? ==>
      d == Some(Err(PollWithTimeout(step.race).error))
    ensures d.None? <==>
      (step.nowMs < deadline && PollWithTimeout(step.race).Ok? &&
       PollWithTimeout(step.race) != Ok(Some(Connected)) && PollWithTimeout(step.race) != Ok(Some(Disconnected)))
  {
    if step.nowMs >= deadline then Some(Err(TimedOut))
    else
      match PollWithTimeout(step.race)
      case Err(e) => Some(Err(e))
      case Ok(Some(Connected)) => Some(Ok(()))
      case Ok(Some(Disconnected)) => Some(Err(TransportError))
      case Ok(_) => None
  }

  /** The outcome of the wait over the passes `steps`, against `deadline`. */
  function WaitFor(steps: seq<WaitStep>, deadline: nat): WaitOutcome
    decreases |steps|
  {
    if steps == [] then StillWaiting
    else match StepDecision(steps[0], deadline)
      case Some(d) => Done(d)
      case None => WaitFor(steps[1..], deadline)
  }

  /** The wait ends with whatever the first deciding pass decides; it is still waiting only when no pass decides. */
  lemma {:induction false} WaitForFirstDecision(steps: seq<WaitStep>, deadline: nat, d: Result<(), ClientError>)
    ensures WaitFor(steps, deadline) == Done(d) <==>
      exists i :: 0 <= i < |steps| && StepDecision(steps[i], deadline) == Some(d) &&
        forall j :: 0 <= j < i ==> StepDecision(steps[j], deadline).None?
    ensures WaitFor(steps, deadline) == StillWaiting <==>
      forall j :: 0 <= j < |steps| ==> StepDecision(steps[j], deadline).None?
    decreases |steps|
  {
    if steps != [] {
      var tail := steps[1..];
      WaitForFirstDecision(tail, deadline, d);
      if StepDecision(steps[0], deadline).None? {
        if WaitFor(tail, deadline) == Done(d) {
          var i :| 0 <= i < |tail| && StepDecision(tail[i], deadline) == Some(d) &&
            forall j :: 0 <= j < i ==> StepDecision(tail[j], deadline).None?;
          assert steps[i + 1] == tail[i];
          forall j | 0 <= j < i + 1
            ensures StepDecision(steps[j], deadline).None?
          {
            if j > 0 {
              assert steps[j] == tail[j - 1];
            }
          }
        }
        if exists i :: 0 <= i < |steps| && StepDecision(steps[i], deadline) == Some(d) &&
             forall j :: 0 <= j < i ==> StepDecision(steps[j], deadline).None? {
          var i :| 0 <= i < |steps| && StepDecision(steps[i], deadline) == Some(d) &&
            forall j :: 0 <= j < i ==> StepDecision(steps[j], deadline).None?;
          assert i > 0;
          assert tail[i - 1] == steps[i];
          forall j | 0 <= j < i - 1
            ensures StepDecision(tail[j], deadline).None?
          {
            assert tail[j] == steps[j + 1];
          }
        }
        if forall j :: 0 <= j < |tail| ==> StepDecision(tail[j], deadline).None? {
          forall j | 0 <= j < |steps|
            ensures StepDecision(steps[j], deadline).None?
          {
            if j > 0 {
              assert steps[j] == tail[j - 1];
            }
          }
        }
        if forall j :: 0 <= j < |steps| ==> StepDecision(steps[j], deadline).None? {
          forall j | 0 <= j < |tail|
            ensures StepDecision(tail[j], deadline).None?
          {
            assert tail[j] == steps[j + 1];
          }
        }
      }
    }
  }

  /**
   * The wait succeeds exactly when some pass before the deadline sees
   * `Connected` and no earlier pass decided otherwise.
   */
  lemma ConnectedIff(steps: seq<WaitStep>, deadline: nat)
    ensures WaitFor(steps, deadline) == Done(Ok(())) <==>
      exists i :: 0 <= i < |steps| && steps[i].nowMs < deadline &&
        PollWithTimeout(steps[i].race) == Ok(Some(Connected)) &&
        forall j :: 0 <= j < i ==> StepDecision(steps[j], deadline).None?
  {
    WaitForFirstDecision(steps, deadline, Ok(()));
  }

  /** A pass that starts at or after the deadline ends the wait, so the wait cannot outlast it. */
  lemma DeadlineEndsWait(steps: seq<WaitStep>, deadline: nat, k: nat)
    requires k < |steps| && steps[k].nowMs >= deadline
    ensures WaitFor(steps, deadline).Done?
  {
    WaitForFirstDecision(steps, deadline, Ok(()));
  }

  /** `wait_for_connect`, as a loop over the passes; the deadline is 10 s after the start. */
  method WaitForConnect(startMs: nat, steps: seq<WaitStep>) returns (r: WaitOutcome)
    ensures r == WaitFor(steps, startMs + CONNECT_TIMEOUT_MS)
  {
    var deadline := startMs + CONNECT_TIMEOUT_MS;
    var i := 0;
    while i < |steps|
      invariant 0 <= i <= |steps|
      invariant WaitFor(steps, deadline) == WaitFor(steps[i..], deadline)
    {
      var step := steps[i];
      if step.nowMs >= deadline {
        return Done(Err(TimedOut));
      }
      var poll := PollWithTimeout(step.race);
      if poll.Err? {
        return Done(Err(poll.error));
      }
      if poll.value == Some(Connected) {
        return Done(Ok(()));
      }
      if poll.value == Some(Disconnected) {
        return Done(Err(TransportError));
      }
      assert steps[i..][1..] == steps[i + 1..];
      i := i + 1;
    }
    return StillWaiting;
  }

  // ----- build_payload -----

  /** `String<256>` */
  const PAYLOAD_CAP: nat := 256

  /** A JSON member: name and the text of its value. */
  type Member = (string, string)

  /** A member of the sample's JSON that is written only when the field is present. */
  function Optional(name: string, v: Option<real>, show: real -> string): seq<Member> {
    if v.Some? then [(name, show(v.value))] else []
  }

  /**
   * The members `build_payload` writes, in its order: the timestamp, then each
   * present field under the name the builder gives it. The BME680 names
   * (`temp_bme680`, `press_bme680`, `hum_bme680`) are written from the
   * sample's `temperature`, `pressure` and `humidity`; `gas_ohm` and
   * `aiq_score` are never written. `show` is `Display` for `f32`.
   */
  function Members(s: Sensors.Sample, show: real -> string): seq<Member> {
    [("ts", Fmt.Decimal(s.timestamp))]
      + Optional("temp_bme680", s.temperature, show)
      + Optional("press_bme680", s.pressure, show)
      + Optional("hum_bme680", s.humidity, show)
      + Optional("lux_bh1750", s.luxBh1750, show)
      + Optional("lux_veml7700", s.luxVeml7700, show)
      + Optional("temp_bmp390", s.tempBmp390, show)
      + Optional("press_bmp390", s.pressBmp390, show)
      + Optional("hum_sht40", s.humSht40, show)
      + Optional("temp_sht40", s.tempSht40, show)
  }

  /**
   * The pieces of the `write!` of a member: the format's literal text (the
   * opening brace or a comma, then the quoted name and a colon) and the value.
   */
  function MemberPieces(first: bool, m: Member): seq<string> {
    [Separator(first) + MemberName(m), m.1]
  }

  /** What precedes a member: the object's opening brace for the first, a comma for the others. */
  function Separator(first: bool): string {
    if first then "{" else ","
  }

  /** A member's quoted name and colon. */
  function MemberName(m: Member): string {
    "\"" + m.0 + "\":"
  }

  /** The buffer after the `write!`s of `ms`, in order, into an empty `String<256>`. */
  function Render(ms: seq<Member>): (r: string)
    ensures |r| <= PAYLOAD_CAP
    decreases |ms|
  {
    if ms == [] then ""
    else
      var before := Render(ms[..|ms| - 1]);
      Fmt.WriteAppends(before, PAYLOAD_CAP, MemberPieces(|ms| == 1, ms[|ms| - 1]));
      Fmt.Write(before, PAYLOAD_CAP, MemberPieces(|ms| == 1, ms[|ms| - 1]))
  }

  /** The payload of a sample: its members, then the closing brace. */
  function Payload(s: Sensors.Sample, show: real -> string): string {
    Fmt.Write(Render(Members(s, show)), PAYLOAD_CAP, ["}"])
  }

  /** `build_payload`: the ten `write!`s into a `String<256>`, each one's failure ignored. */
  method BuildPayload(s: Sensors.Sample, show: real -> string) returns (payload: string)
    ensures payload == Payload(s, show)
  {
    ghost var ms: seq<Member> := [("ts", Fmt.Decimal(s.timestamp))];
    payload := Fmt.Write("", PAYLOAD_CAP, ["{\"ts\":", Fmt.Decimal(s.timestamp)]);
    assert ms[..0] == [];
    assert Separator(true) + MemberName(("ts", Fmt.Decimal(s.timestamp))) == "{\"ts\":";
    assert payload == Render(ms);
    payload := WriteOptional(payload, ms, "temp_bme680", s.temperature, show);
    ms := ms + Optional("temp_bme680", s.temperature, show);
    payload := WriteOptional(payload, ms, "press_bme680", s.pressure, show);
    ms := ms + Optional("press_bme680", s.pressure, show);
    payload := WriteOptional(payload, ms, "hum_bme680", s.humidity, show);
    ms := ms + Optional("hum_bme680", s.humidity, show);
    payload := WriteOptional(payload, ms, "lux_bh1750", s.luxBh1750, show);
    ms := ms + Optional("lux_bh1750", s.luxBh1750, show);
    payload := WriteOptional(payload, ms, "lux_veml7700", s.luxVeml7700, show);
    ms := ms + Optional("lux_veml7700", s.luxVeml7700, show);
    payload := WriteOptional(payload, ms, "temp_bmp390", s.tempBmp390, show);
    ms := ms + Optional("temp_bmp390", s.tempBmp390, show);
    payload := WriteOptional(payload, ms, "press_bmp390", s.pressBmp390, show);
    ms := ms + Optional("press_bmp390", s.pressBmp390, show);
    payload := WriteOptional(payload, ms, "hum_sht40", s.humSht40, show);
    ms := ms + Optional("hum_sht40", s.humSht40, show);
    payload := WriteOptional(payload, ms, "temp_sht40", s.tempSht40, show);
    ms := ms + Optional("temp_sht40", s.tempSht40, show);
    assert ms == Members(s, show);
    payload := Fmt.Write(payload, PAYLOAD_CAP, ["}"]);
  }

  /** `value.inspect(|v| write!(payload, ",\"name\":{}", v).ok())` */
  method WriteOptional(payload: string, ghost ms: seq<Member>, name: string, v: Option<real>, show: real -> string)
    returns (r: string)
    requires ms != [] && payload == Render(ms)
    ensures r == Render(ms + Optional(name, v, show))
  {
    r := payload;
    if v.Some? {
      r := Fmt.Write(payload, PAYLOAD_CAP, [",\"" + name + "\":", show(v.value)]);
      var ms' := ms + [(name, show(v.value))];
      assert ms'[..|ms'| - 1] == ms;
      assert ",\"" + name + "\":" == Separator(false) + MemberName((name, show(v.value))) by {
        assert ",\"" == "," + "\"";
        AppendAssoc(",", "\"" + name, "\":");
        AppendAssoc(",", "\"", name);
      }
    } else {
      assert ms + [] == ms;
    }
  }

  // ----- The payload is the JSON object of the members -----

  function MemberText(m: Member): string {
    MemberName(m) + m.1
  }

  /** The members separated by commas. */
  function JoinMembers(ms: seq<Member>): string
    decreases |ms|
  {
    if ms == [] then ""
    else if |ms| == 1 then MemberText(ms[0])
    else JoinMembers(ms[..|ms| - 1]) + "," + MemberText(ms[|ms| - 1])
  }

  /** A JSON object (section 4 of RFC 8259) with the given members, in order. */
  function JsonObject(ms: seq<Member>): string {
    "{" + JoinMembers(ms) + "}"
  }

  /** A member's `write!` that fits appends the separator and the member's text. */
  lemma WriteMember(before: string, first: bool, m: Member)
    requires |before| + 1 + |MemberText(m)| <= PAYLOAD_CAP
    ensures Fmt.Write(before, PAYLOAD_CAP, MemberPieces(first, m)) ==
      before + Separator(first) + MemberText(m)
  {
    var pieces := MemberPieces(first, m);
    assert Fmt.Concat(pieces) == pieces[0] + pieces[1] by {
      assert Fmt.Concat(pieces[1..][1..]) == "";
    }
    Fmt.WriteAppends(before, PAYLOAD_CAP, pieces);
    AppendAssoc(Separator(first), MemberName(m), m.1);
    AppendAssoc(before, Separator(first), MemberText(m));
  }

  /** Members whose text fits the buffer are written in full: the buffer holds the object without its closing brace. */
  lemma {:induction false} RenderFits(ms: seq<Member>)
    requires ms != []
    requires |JoinMembers(ms)| + 1 <= PAYLOAD_CAP
    ensures Render(ms) == "{" + JoinMembers(ms)
    decreases |ms|
  {
    var last := ms[|ms| - 1];
    var init := ms[..|ms| - 1];
    if |ms| == 1 {
      assert init == [];
      WriteMember("", true, last);
    } else {
      assert JoinMembers(ms) == JoinMembers(init) + "," + MemberText(last);
      RenderFits(init);
      WriteMember(Render(init), false, last);
    }
  }

  /** With room for all of it, the payload is exactly the JSON object of the present fields. */
  lemma PayloadIsJson(s: Sensors.Sample, show: real -> string)
    requires |JsonObject(Members(s, show))| <= PAYLOAD_CAP
    ensures Payload(s, show) == JsonObject(Members(s, show))
  {
    var ms := Members(s, show);
    RenderFits(ms);
    Fmt.WriteAppends(Render(ms), PAYLOAD_CAP, ["}"]);
    assert Fmt.Concat(["}"]) == "}" by {
      assert Fmt.Concat(["}"][1..]) == "";
    }
  }

  /** A number below 10^(k+1) prints in at most k+1 digits. */
  lemma {:induction false} DecimalLength(n: nat, k: nat)
    requires n < Power10(k + 1)
    ensures |Fmt.Decimal(n)| <= k + 1
    decreases k
  {
    if n >= 10 && k > 0 {
      DecimalLength(n / 10, k - 1);
    }
  }

  function Power10(k: nat): nat
    decreases k
  {
    if k == 0 then 1 else 10 * Power10(k - 1)
  }

  /**
   * Whatever the fields, the payload never exceeds 256 characters and starts with
   * the timestamp member: `{"ts":` and the decimal timestamp always fit.
   */
  lemma PayloadStartsWithTimestamp(s: Sensors.Sample, show: real -> string)
    ensures |Payload(s, show)| <= PAYLOAD_CAP
    ensures var head := "{\"ts\":" + Fmt.Decimal(s.timestamp);
      |head| <= |Payload(s, show)| && Payload(s, show)[..|head|] == head
  {
    assert Power10(10) == 10_000_000_000;
    DecimalLength(s.timestamp, 9);
    var ms := Members(s, show);
    var head := "{\"ts\":" + Fmt.Decimal(s.timestamp);
    RenderPrefix(ms);
    assert Render(ms[..1]) == head by {
      var pieces := MemberPieces(true, ms[0]);
      assert ms[..1][..0] == [];
      assert Fmt.Concat(pieces) == pieces[0] + pieces[1] by {
        assert Fmt.Concat(pieces[1..][1..]) == "";
      }
      Fmt.WriteAppends("", PAYLOAD_CAP, pieces);
    }
    Fmt.WriteAppends(Render(ms), PAYLOAD_CAP, ["}"]);
  }

  /** Rendering only appends: the first member's text stays at the front. */
  lemma {:induction false} RenderPrefix(ms: seq<Member>)
    requires ms != []
    ensures |Render(ms[..1])| <= |Render(ms)| && Render(ms)[..|Render(ms[..1])|] == Render(ms[..1])
    decreases |ms|
  {
    if |ms| > 1 {
      var init := ms[..|ms| - 1];
      assert init[..1] == ms[..1];
      RenderPrefix(init);
      Fmt.WriteAppends(Render(init), PAYLOAD_CAP, MemberPieces(false, ms[|ms| - 1]));
    } else {
      assert ms[..1] == ms;
    }
  }

  /** The payload never depends on the gas resistance or the air-quality score. */
  lemma PayloadOmitsGasAndScore(s: Sensors.Sample, show: real -> string, gas: Option<u32>, score: Option<u32>)
    ensures Payload(s.(gasOhm := gas, aiqScore := score), show) == Payload(s, show)
  {
    assert Members(s.(gasOhm := gas, aiqScore := score), show) == Members(s, show);
  }
}
