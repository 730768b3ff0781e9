/**
 * The tasks of the MQTT side of the node: the publisher that drains the
 * sensor queue into the publish channel, the session loop that connects to
 * the broker (with capped exponential backoff), publishes samples in bursts
 * and routes received commands, and the command executor.
 *
 * The MQTT client library is a black box: each call it makes is an input
 * (whether it accepted a publish, what a poll returned, whether its timers
 * failed), and the client is represented by the publishes it accepted.
 */
module MqttLoop {
  import opened Common
  import Utf8
  import Sync
  import Ekv
  import KvStorage
  import Config
  import Sensors
  import Mqtt

  // ----- Publishing one sample -----

  datatype QoS = AtMostOnce | AtLeastOnce

  datatype PublishMsg = PublishMsg(qos: QoS, retain: bool, topic: string, payload: seq<byte>)

  /** The message `publish_sample` schedules for a sample: QoS 1, not retained, the JSON payload. */
  function MessageFor(topic: string, s: Sensors.Sample, show: real -> string): PublishMsg {
    PublishMsg(AtLeastOnce, false, topic, Utf8.Encode(Mqtt.Payload(s, show)))
  }

  /** The messages for several samples, in order. */
  function MessagesFor(topic: string, samples: seq<Sensors.Sample>, show: real -> string): (r: seq<PublishMsg>)
    ensures |r| == |samples|
    ensures forall i :: 0 <= i < |samples| ==> r[i] == MessageFor(topic, samples[i], show)
  {
    seq(|samples|, i requires 0 <= i < |samples| => MessageFor(topic, samples[i], show))
  }

  lemma MessagesForAppend(topic: string, a: seq<Sensors.Sample>, b: seq<Sensors.Sample>, show: real -> string)
    ensures MessagesFor(topic, a + b, show) == MessagesFor(topic, a, show) + MessagesFor(topic, b, show)
  {
  }

  /** Publishing sample `k + 1` of a burst extends the outbox by its message. */
  lemma OutboxGrows(topic: string, o0: seq<PublishMsg>, c0: seq<Sensors.Sample>, k: nat, show: real -> string)
    requires k + 1 < |c0|
    ensures o0 + MessagesFor(topic, c0[..k + 1], show) + MessagesFor(topic, c0[k + 1..][..1], show) ==
      o0 + MessagesFor(topic, c0[..k + 2], show)
  {
    MessagesForAppend(topic, c0[..k + 1], c0[k + 1..][..1], show);
    assert c0[..k + 1] + c0[k + 1..][..1] == c0[..k + 2];
    AppendAssoc(o0, MessagesFor(topic, c0[..k + 1], show), MessagesFor(topic, c0[k + 1..][..1], show));
  }

  /** The MQTT client as the session sees it: the publishes it has accepted. */
  class Client {
    var outbox: seq<PublishMsg>

    constructor ()
      ensures outbox == []
    {
      outbox := [];
    }

    /** `schedule_publish`; whether the client accepts is decided outside the model. */
    method SchedulePublish(msg: PublishMsg, accepted: bool) returns (ok: bool)
      modifies this
      ensures ok == accepted
      ensures outbox == if accepted then old(outbox) + [msg] else old(outbox)
    {
      ok := accepted;
      if accepted {
        outbox := outbox + [msg];
      }
    }
  }

  /**
   * `publish_sample`: schedule the sample's message; when the client refuses
   * it, put the sample back on the sensor queue (dropped if that is full) and
   * report failure.
   */
  method PublishSample(client: Client, topic: string, sample: Sensors.Sample, show: real -> string,
                       queue: Sync.Fifo<Sensors.Sample>, accepted: bool) returns (ok: bool)
    requires queue.Valid()
    modifies client, queue
    ensures queue.Valid()
    ensures ok == accepted
    ensures client.outbox == if accepted then old(client.outbox) + MessagesFor(topic, [sample], show) else old(client.outbox)
    ensures queue.items == if accepted then old(queue.items) else Sync.Offer(old(queue.items), queue.capacity, sample)
  {
    var payload := Mqtt.BuildPayload(sample, show);
    var msg := PublishMsg(AtLeastOnce, false, topic, Utf8.Encode(payload));
    ok := client.SchedulePublish(msg, accepted);
    assert [msg] == MessagesFor(topic, [sample], show);
    if !ok {
      var _ := queue.Enqueue(sample);
    }
  }

  // ----- Handling one poll -----

  /** The command queue after a poll: a routed command is offered to it, anything else leaves it alone. */
  function AfterPoll(items: seq<Mqtt.Command>, capacity: nat, clientId: string, poll: Mqtt.PollResult,
                     parse: Mqtt.Message -> Option<Mqtt.Command>): seq<Mqtt.Command> {
    match Mqtt.RoutedCommand(clientId, poll, parse)
    case Some(c) => Sync.Offer(items, capacity, c)
    case None => items
  }

  /**
   * `handle_poll_result`: keep the session unless the poll failed or reported
   * a disconnect; a message on this client's command topic whose payload
   * parses is sent to the command queue (dropped when it is full).
   */
  method HandlePollResult(clientId: string, poll: Mqtt.PollResult, parse: Mqtt.Message -> Option<Mqtt.Command>,
                          commands: Sync.Fifo<Mqtt.Command>) returns (keep: bool)
    requires commands.Valid()
    modifies commands
    ensures commands.Valid()
    ensures keep == Mqtt.KeepsConnection(poll)
    ensures commands.items == AfterPoll(old(commands.items), commands.capacity, clientId, poll, parse)
  {
    match poll
    case Ok(Some(event)) =>
      match event {
        case Received(msg) =>
          if Utf8.Encode(msg.topic) == Utf8.Encode(Mqtt.CommandTopic(clientId)) {
            var command := parse(msg);
            if command.Some? {
              var _ := commands.Enqueue(command.value);
            }
          }
          keep := true;
        case Disconnected =>
          keep := false;
        case _ =>
          keep := true;
      }
    case Ok(None) =>
      keep := true;
    case Err(_) =>
      keep := false;
  }

  // ----- A burst of publishes -----

  /** How many samples a burst takes from a channel holding `available`: the one received plus up to `PUBLISH_BURST`. */
  function BurstLength(available: nat): (n: nat)
    ensures n <= available && n <= 1 + Mqtt.PUBLISH_BURST
    ensures available > 0 ==> n >= 1
    ensures n < 1 + Mqtt.PUBLISH_BURST ==> n == available
  {
    Min(1 + Mqtt.PUBLISH_BURST, available)
  }

  /** The burst stops at a refused publish: `faultAt` is the index (within the burst) of the refused one, if any. */
  predicate BurstFails(faultAt: Option<nat>, available: nat) {
    faultAt.Some? && faultAt.value < BurstLength(available)
  }

  /** How many samples the burst publishes. */
  function BurstSent(faultAt: Option<nat>, available: nat): (n: nat)
    ensures n <= BurstLength(available)
    ensures BurstFails(faultAt, available) ==> n < available
  {
    if BurstFails(faultAt, available) then faultAt.value else BurstLength(available)
  }

  /** The samples a burst publishes, in channel order. */
  function Published(channel: seq<Sensors.Sample>, faultAt: Option<nat>): seq<Sensors.Sample> {
    channel[..BurstSent(faultAt, |channel|)]
  }

  /** The sample a failed burst hands back to the sensor queue. */
  function Requeued(channel: seq<Sensors.Sample>, faultAt: Option<nat>): (r: Option<Sensors.Sample>)
    ensures r.Some? <==> BurstFails(faultAt, |channel|)
  {
    if BurstFails(faultAt, |channel|) then Some(channel[BurstSent(faultAt, |channel|)]) else None
  }

  /** What a burst leaves in the channel. */
  function LeftInChannel(channel: seq<Sensors.Sample>, faultAt: Option<nat>): seq<Sensors.Sample> {
    if BurstFails(faultAt, |channel|) then channel[BurstSent(faultAt, |channel|) + 1..]
    else channel[BurstSent(faultAt, |channel|)..]
  }

  /** The sensor queue after a burst. */
  function QueueAfterBurst(queue: seq<Sensors.Sample>, capacity: nat, channel: seq<Sensors.Sample>,
                           faultAt: Option<nat>): seq<Sensors.Sample> {
    match Requeued(channel, faultAt)
    case Some(s) => Sync.Offer(queue, capacity, s)
    case None => queue
  }

  function OptionSeq<T>(o: Option<T>): seq<T> {
    if o.Some? then [o.value] else []
  }

  /**
   * A burst splits the channel without losing or reordering a sample: what it
   * publishes, the sample it hands back and what it leaves are the channel.
   * It publishes at most `1 + PUBLISH_BURST`, and when nothing is refused it
   * stops early only because the channel ran empty.
   */
  lemma BurstPartition(channel: seq<Sensors.Sample>, faultAt: Option<nat>)
    ensures Published(channel, faultAt) + OptionSeq(Requeued(channel, faultAt)) + LeftInChannel(channel, faultAt) == channel
    ensures |Published(channel, faultAt)| <= 1 + Mqtt.PUBLISH_BURST
    ensures !BurstFails(faultAt, |channel|) && |Published(channel, faultAt)| < 1 + Mqtt.PUBLISH_BURST ==>
      LeftInChannel(channel, faultAt) == []
  {
    var n := BurstSent(faultAt, |channel|);
    if BurstFails(faultAt, |channel|) {
      assert channel == channel[..n] + [channel[n]] + channel[n + 1..];
    } else {
      assert channel == channel[..n] + channel[n..];
    }
  }

  /** A burst whose publish number `k` is refused: `k` samples go out and the next is handed back. */
  lemma BurstRefused(channel: seq<Sensors.Sample>, faultAt: Option<nat>, k: nat)
    requires faultAt == Some(k) && k < |channel| && k <= Mqtt.PUBLISH_BURST
    ensures BurstFails(faultAt, |channel|)
    ensures Published(channel, faultAt) == channel[..k]
    ensures Requeued(channel, faultAt) == Some(channel[k])
    ensures LeftInChannel(channel, faultAt) == channel[k + 1..]
  {
  }

  /** A burst with no refusal among its first `k + 1` publishes that ends there, by an empty channel or by the burst limit. */
  lemma BurstCompleted(channel: seq<Sensors.Sample>, faultAt: Option<nat>, k: nat)
    requires k < |channel| && k <= Mqtt.PUBLISH_BURST
    requires k + 1 == |channel| || k == Mqtt.PUBLISH_BURST
    requires faultAt.None? || faultAt.value > k
    ensures !BurstFails(faultAt, |channel|)
    ensures Published(channel, faultAt) == channel[..k + 1]
    ensures Requeued(channel, faultAt) == None
    ensures LeftInChannel(channel, faultAt) == channel[k + 1..]
  {
  }

  /**
   * What the world decides in one pass of the connected loop: whether
   * `poll_timers` succeeds; which publish of a burst the client refuses, if
   * a burst runs; and how `poll_io_with_timeout` completes, or `None` when it
   * has not completed before the next sample reaches the channel. Which arm
   * of the `select` wins is not an input: the receive is polled first, so a
   * sample waiting in the channel always wins, and the poll decides a pass
   * only while the channel is empty.
   */
  datatype Tick = Tick(timersOk: bool, faultAt: Option<nat>, poll: Option<Mqtt.PollRace>)

  // ----- Connecting -----

  datatype Attempt = Attempt(tcpOk: bool, connectScheduled: bool, startMs: nat,
                             wait: seq<Mqtt.WaitStep>, ticks: seq<Tick>)

  datatype Phase = HandshakeFailed | HandshakeWaiting | HandshakeDone

  /** How the handshake of an attempt ends: TCP connect, `schedule_connect`, then `wait_for_connect`. */
  function Handshake(a: Attempt): Phase {
    if !a.tcpOk || !a.connectScheduled then HandshakeFailed
    else match Mqtt.WaitFor(a.wait, a.startMs + Mqtt.CONNECT_TIMEOUT_MS)
      case StillWaiting => HandshakeWaiting
      case Done(r) => if r.Ok? then HandshakeDone else HandshakeFailed
  }

  /** An attempt connects exactly when TCP and scheduling succeed and the broker's `Connected` arrives before the deadline. */
  lemma HandshakeDoneIff(a: Attempt)
    ensures Handshake(a) == HandshakeDone <==>
      a.tcpOk && a.connectScheduled &&
      exists k :: 0 <= k < |a.wait| && Mqtt.StepDecision(a.wait[k], a.startMs + Mqtt.CONNECT_TIMEOUT_MS) == Some(Ok(())) &&
        forall j :: 0 <= j < k ==> Mqtt.StepDecision(a.wait[j], a.startMs + Mqtt.CONNECT_TIMEOUT_MS).None?
  {
    var deadline := a.startMs + Mqtt.CONNECT_TIMEOUT_MS;
    Mqtt.WaitForFirstDecision(a.wait, deadline, Ok(()));
    if a.tcpOk && a.connectScheduled {
      var w := Mqtt.WaitFor(a.wait, deadline);
      if w.Done? && w.result.Ok? {
        match w.result.value { case () => }
      }
    }
  }

  datatype Outcome =
    | Retried       // the handshake failed; the loop slept the backoff and doubled it
    | Connecting    // the handshake has not finished within the inputs
    | Ended         // connected, then the session broke and `DOWN` was raised
    | Live          // connected and still connected after the inputs

  // ----- The connected loop, as values -----

  /** What the connected loop changes: the client's outbox, the publish channel, the sensor queue and the command queue. */
  datatype Conn = Conn(outbox: seq<PublishMsg>, channel: seq<Sensors.Sample>, queue: seq<Sensors.Sample>,
                       commands: seq<Mqtt.Command>)

  /** What the connected loop works with and never changes. */
  datatype Ctx = Ctx(clientId: string, topic: string, parse: Mqtt.Message -> Option<Mqtt.Command>,
                     show: real -> string, queueCap: nat, commandsCap: nat)

  /**
   * One pass of the `'connected` loop on values: whether the session stays,
   * and the state it leaves. A timer error breaks and changes nothing; a
   * sample waiting in the channel wins the select and runs the burst; on an
   * empty channel a completed poll keeps the session by `KeepsConnection`
   * and offers the routed command, and a poll still pending changes nothing.
   */
  function TickEffect(cx: Ctx, st: Conn, t: Tick): (bool, Conn) {
    if !t.timersOk then (false, st)
    else if st.channel != [] then
      (!BurstFails(t.faultAt, |st.channel|),
       st.(outbox := st.outbox + MessagesFor(cx.topic, Published(st.channel, t.faultAt), cx.show),
           channel := LeftInChannel(st.channel, t.faultAt),
           queue := QueueAfterBurst(st.queue, cx.queueCap, st.channel, t.faultAt)))
    else match t.poll
      case Some(race) =>
        var poll := Mqtt.PollWithTimeout(race);
        (Mqtt.KeepsConnection(poll),
         st.(commands := AfterPoll(st.commands, cx.commandsCap, cx.clientId, poll, cx.parse)))
      case None => (true, st)
  }

  /** Where the connected loop over `ticks` stops: at the first tick that breaks the session, or after all of them. */
  function StopAt(cx: Ctx, st: Conn, ticks: seq<Tick>): (k: nat)
    ensures k <= |ticks|
    decreases |ticks|
  {
    if ticks == [] then 0
    else
      var (stay, next) := TickEffect(cx, st, ticks[0]);
      if stay then 1 + StopAt(cx, next, ticks[1..]) else 0
  }

  /** The state the connected loop over `ticks` leaves. */
  function AfterTicks(cx: Ctx, st: Conn, ticks: seq<Tick>): Conn
    decreases |ticks|
  {
    if ticks == [] then st
    else
      var (stay, next) := TickEffect(cx, st, ticks[0]);
      if stay then AfterTicks(cx, next, ticks[1..]) else next
  }

  /** The state before tick `j`: the ticks before it applied in turn. */
  function Before(cx: Ctx, st: Conn, ticks: seq<Tick>, j: nat): Conn
    requires j <= |ticks|
    decreases j
  {
    if j == 0 then st else Before(cx, TickEffect(cx, st, ticks[0]).1, ticks[1..], j - 1)
  }

  /**
   * The connected loop stops at the first tick that breaks the session:
   * every tick before it kept the session, the tick it stops at broke it,
   * and what the loop leaves is what that tick left, or, when no tick broke
   * the session, the state after all of them.
   */
  lemma {:induction false} StopsAtFirstBreak(cx: Ctx, st: Conn, ticks: seq<Tick>)
    ensures forall j :: 0 <= j < StopAt(cx, st, ticks) ==> TickEffect(cx, Before(cx, st, ticks, j), ticks[j]).0
    ensures var k := StopAt(cx, st, ticks);
      k < |ticks| ==>
        !TickEffect(cx, Before(cx, st, ticks, k), ticks[k]).0 &&
        AfterTicks(cx, st, ticks) == TickEffect(cx, Before(cx, st, ticks, k), ticks[k]).1
    ensures StopAt(cx, st, ticks) == |ticks| ==> AfterTicks(cx, st, ticks) == Before(cx, st, ticks, |ticks|)
    decreases |ticks|
  {
    if ticks != [] {
      var (stay, next) := TickEffect(cx, st, ticks[0]);
      if stay {
        StopsAtFirstBreak(cx, next, ticks[1..]);
        forall j | 1 <= j <= |ticks|
          ensures Before(cx, st, ticks, j) == Before(cx, next, ticks[1..], j - 1)
          ensures j < |ticks| ==> ticks[j] == ticks[1..][j - 1]
        {
        }
      }
    }
  }

  /** A sample waiting in the channel always wins the select: a poll is handled, and the commands change, only on an empty channel. */
  lemma PollOnlyOnEmptyChannel(cx: Ctx, st: Conn, t: Tick)
    requires t.timersOk && st.channel != []
    ensures TickEffect(cx, st, t).1.commands == st.commands
    ensures TickEffect(cx, st, t).1.outbox == st.outbox + MessagesFor(cx.topic, Published(st.channel, t.faultAt), cx.show)
  {
  }

  // ----- The outer loop, as values -----

  /** The outcome of attempt `a` entered with connected-loop state `st`. */
  function OutcomeOf(cx: Ctx, st: Conn, a: Attempt): Outcome {
    match Handshake(a)
    case HandshakeFailed => Retried
    case HandshakeWaiting => Connecting
    case HandshakeDone => if StopAt(cx, st, a.ticks) < |a.ticks| then Ended else Live
  }

  /** The connected-loop state after attempt `a`: only a completed handshake runs the loop. */
  function ConnAfter(cx: Ctx, st: Conn, a: Attempt): Conn {
    if Handshake(a) == HandshakeDone then AfterTicks(cx, st, a.ticks) else st
  }

  /** The state before attempt `j` of `attempts`, the earlier attempts run in turn. */
  function StateAt(cx: Ctx, st: Conn, attempts: seq<Attempt>, j: nat): Conn
    requires j <= |attempts|
    decreases j
  {
    if j == 0 then st else ConnAfter(cx, StateAt(cx, st, attempts, j - 1), attempts[j - 1])
  }

  /** The outcome of attempt `j` of `attempts`. */
  function OutcomeAt(cx: Ctx, st: Conn, attempts: seq<Attempt>, j: nat): Outcome
    requires j < |attempts|
  {
    OutcomeOf(cx, StateAt(cx, st, attempts, j), attempts[j])
  }

  /** `mqtt_loop` goes on to another attempt after a failed handshake and after a session that broke. */
  predicate GoesOn(o: Outcome) {
    o == Retried || o == Ended
  }

  /** The backoff after `attempts`, entered with `b`: a failure doubles it up to 30, a connect resets it to 1. */
  function BackoffAfterAttempts(b: nat, attempts: seq<Attempt>): nat
    decreases |attempts|
  {
    if attempts == [] then b
    else
      var before := BackoffAfterAttempts(b, attempts[..|attempts| - 1]);
      match Handshake(attempts[|attempts| - 1])
      case HandshakeFailed => Mqtt.NextBackoff(before)
      case HandshakeWaiting => before
      case HandshakeDone => 1
  }

  /** The sleeps of `attempts`, entered with `b`: each failed handshake sleeps the backoff it meets. */
  function AttemptSleeps(b: nat, attempts: seq<Attempt>): seq<nat>
    decreases |attempts|
  {
    if attempts == [] then []
    else
      var n := |attempts| - 1;
      AttemptSleeps(b, attempts[..n]) +
      (if Handshake(attempts[n]) == HandshakeFailed then [BackoffAfterAttempts(b, attempts[..n])] else [])
  }

  /** Some attempt of `attempts` completes its handshake. */
  predicate AnyConnect(attempts: seq<Attempt>) {
    exists j :: 0 <= j < |attempts| && Handshake(attempts[j]) == HandshakeDone
  }

  /** One more attempt extends the run's state, backoff, sleeps and connects by that attempt's. */
  lemma AttemptsSnoc(cx: Ctx, st: Conn, b: nat, attempts: seq<Attempt>, i: nat)
    requires i < |attempts|
    ensures StateAt(cx, st, attempts, i + 1) == ConnAfter(cx, StateAt(cx, st, attempts, i), attempts[i])
    ensures BackoffAfterAttempts(b, attempts[..i + 1]) ==
      match Handshake(attempts[i])
      case HandshakeFailed => Mqtt.NextBackoff(BackoffAfterAttempts(b, attempts[..i]))
      case HandshakeWaiting => BackoffAfterAttempts(b, attempts[..i])
      case HandshakeDone => 1
    ensures AttemptSleeps(b, attempts[..i + 1]) == AttemptSleeps(b, attempts[..i]) +
      (if Handshake(attempts[i]) == HandshakeFailed then [BackoffAfterAttempts(b, attempts[..i])] else [])
    ensures AnyConnect(attempts[..i + 1]) <==> AnyConnect(attempts[..i]) || Handshake(attempts[i]) == HandshakeDone
    ensures SomeEnded(cx, st, attempts, i + 1) <==>
      SomeEnded(cx, st, attempts, i) || OutcomeAt(cx, st, attempts, i) == Ended
  {
    assert attempts[..i + 1][..i] == attempts[..i];
    assert attempts[..i + 1][i] == attempts[i];
    if AnyConnect(attempts[..i]) {
      var j :| 0 <= j < i && Handshake(attempts[..i][j]) == HandshakeDone;
      assert attempts[..i + 1][j] == attempts[..i][j];
    }
    if AnyConnect(attempts[..i + 1]) {
      var j :| 0 <= j < i + 1 && Handshake(attempts[..i + 1][j]) == HandshakeDone;
      if j < i {
        assert attempts[..i][j] == attempts[..i + 1][j];
      }
    }
  }

  /** Some session among the first `n` attempts broke. */
  predicate SomeEnded(cx: Ctx, st: Conn, attempts: seq<Attempt>, n: nat)
    requires n <= |attempts|
  {
    exists j :: 0 <= j < n && OutcomeAt(cx, st, attempts, j) == Ended
  }

  /** A run of failed handshakes sleeps the doubling backoff sequence and leaves the backoff where it leaves it. */
  lemma {:induction false} AllAttemptsFail(b: nat, attempts: seq<Attempt>)
    requires forall j :: 0 <= j < |attempts| ==> Handshake(attempts[j]) == HandshakeFailed
    ensures AttemptSleeps(b, attempts) == Mqtt.Backoffs(b, |attempts|)
    ensures BackoffAfterAttempts(b, attempts) == Mqtt.BackoffAfter(b, |attempts|)
    decreases |attempts|
  {
    if attempts != [] {
      var n := |attempts| - 1;
      AllAttemptsFail(b, attempts[..n]);
      Mqtt.BackoffsSnoc(b, n);
    }
  }

  /** A run in which every handshake fails never stops early, and its backoff and sleeps are those of that many failures. */
  lemma AllFailedRunsThrough(cx: Ctx, st: Conn, b: nat, attempts: seq<Attempt>, done: nat)
    requires done <= |attempts|
    requires forall i :: 0 <= i < |attempts| ==> Handshake(attempts[i]) == HandshakeFailed
    requires done < |attempts| ==> 0 < done && !GoesOn(OutcomeAt(cx, st, attempts, done - 1))
    ensures done == |attempts|
    ensures AttemptSleeps(b, attempts[..done]) == Mqtt.Backoffs(b, |attempts|)
    ensures BackoffAfterAttempts(b, attempts[..done]) == Mqtt.BackoffAfter(b, |attempts|)
  {
    assert attempts[..|attempts|] == attempts;
    AllAttemptsFail(b, attempts);
  }

  /**
   * After the last connected session the backoff starts again from 1: with
   * `m` failed handshakes since, those sleep 1, 2, 4, ... capped at 30, and
   * the backoff is min(2^m, 30).
   */
  lemma {:induction false} ResetThenFailedAttempts(b: nat, attempts: seq<Attempt>, k: nat)
    requires k < |attempts| && Handshake(attempts[k]) == HandshakeDone
    requires forall j :: k < j < |attempts| ==> Handshake(attempts[j]) == HandshakeFailed
    ensures BackoffAfterAttempts(b, attempts) == Mqtt.BackoffAfter(1, |attempts| - k - 1)
    ensures BackoffAfterAttempts(b, attempts) == Min(Pow2(|attempts| - k - 1), Mqtt.MAX_BACKOFF)
    ensures AttemptSleeps(b, attempts) == AttemptSleeps(b, attempts[..k + 1]) + Mqtt.Backoffs(1, |attempts| - k - 1)
    decreases |attempts|
  {
    var n := |attempts| - 1;
    if n > k {
      assert attempts[..n][..k + 1] == attempts[..k + 1];
      ResetThenFailedAttempts(b, attempts[..n], k);
      Mqtt.BackoffsSnoc(1, n - k - 1);
    } else {
      assert attempts[..k + 1] == attempts;
    }
    Mqtt.BackoffsFromReset(n - k);
  }

  /** The body of `mqtt_loop`: connects with backoff and runs connected sessions. */
  class Session {
    var backoff: nat
    /** The backoff sleeps, in seconds, in the order they were taken. */
    var sleeps: seq<nat>
    const ready: Sync.Signal
    const down: Sync.Signal
    const channel: Sync.Fifo<Sensors.Sample>
    const queue: Sync.Fifo<Sensors.Sample>
    const commands: Sync.Fifo<Mqtt.Command>
    const client: Client
    const clientId: string
    const topic: string
    const parse: Mqtt.Message -> Option<Mqtt.Command>
    const show: real -> string

    ghost predicate Valid()
      reads this, channel, queue, commands
    {
      1 <= backoff <= Mqtt.MAX_BACKOFF &&
      channel.Valid() && queue.Valid() && commands.Valid() &&
      channel != queue && ready != down
    }

    /** The state the connected loop changes, as a value. */
    function Snap(): Conn
      reads client, channel, queue, commands
    {
      Conn(client.outbox, channel.items, queue.items, commands.items)
    }

    /** What the connected loop works with, as a value. */
    function Cx(): Ctx {
      Ctx(clientId, topic, parse, show, queue.capacity, commands.capacity)
    }

    constructor (ready: Sync.Signal, down: Sync.Signal, channel: Sync.Fifo<Sensors.Sample>,
                 queue: Sync.Fifo<Sensors.Sample>, commands: Sync.Fifo<Mqtt.Command>, client: Client,
                 clientId: string, topic: string, parse: Mqtt.Message -> Option<Mqtt.Command>, show: real -> string)
      requires channel.Valid() && queue.Valid() && commands.Valid() && channel != queue && ready != down
      ensures Valid()
      ensures backoff == 1 && sleeps == []
      ensures this.ready == ready && this.down == down && this.channel == channel && this.queue == queue
      ensures this.commands == commands && this.client == client && this.clientId == clientId
      ensures this.topic == topic && this.parse == parse && this.show == show
    {
      backoff := 1;
      sleeps := [];
      this.ready := ready;
      this.down := down;
      this.channel := channel;
      this.queue := queue;
      this.commands := commands;
      this.client := client;
      this.clientId := clientId;
      this.topic := topic;
      this.parse := parse;
      this.show := show;
    }

    /**
     * Take the next sample from the channel, if there is one, and publish it;
     * `accepted` is whether the client takes the publish.
     */
    method PublishNext(accepted: bool) returns (sent: Option<bool>)
      requires Valid()
      modifies client, channel, queue
      ensures Valid()
      ensures old(channel.items) == [] ==>
        sent == None && channel.items == [] && queue.items == old(queue.items) && client.outbox == old(client.outbox)
      ensures old(channel.items) != [] ==>
        sent == Some(accepted) && channel.items == old(channel.items)[1..] &&
        client.outbox == (if accepted then old(client.outbox) + MessagesFor(topic, old(channel.items)[..1], show)
                          else old(client.outbox)) &&
        queue.items == (if accepted then old(queue.items)
                        else Sync.Offer(old(queue.items), queue.capacity, old(channel.items)[0]))
    {
      var next := channel.Dequeue();
      if next.None? {
        return None;
      }
      assert old(channel.items)[..1] == [next.value];
      var ok := PublishSample(client, topic, next.value, show, queue, accepted);
      sent := Some(ok);
    }

    /**
     * The receive arm of the connected loop: publish the received sample and
     * then up to `PUBLISH_BURST` more while the channel has them, stopping at
     * the first refused publish (whose sample goes back to the sensor queue).
     */
    method PublishBurst(faultAt: Option<nat>) returns (ok: bool)
      requires Valid() && channel.items != []
      modifies client, channel, queue
      ensures Valid()
      ensures ok == !BurstFails(faultAt, |old(channel.items)|)
      ensures client.outbox == old(client.outbox) + MessagesFor(topic, Published(old(channel.items), faultAt), show)
      ensures channel.items == LeftInChannel(old(channel.items), faultAt)
      ensures queue.items == QueueAfterBurst(old(queue.items), queue.capacity, old(channel.items), faultAt)
    {
      ghost var c0 := channel.items;
      var first := PublishNext(Healthy(faultAt, 0));
      if first == Some(false) {
        BurstRefused(c0, faultAt, 0);
        assert c0[..0] == [];
        return false;
      }
      ok := PublishMore(c0, old(client.outbox), faultAt);
    }

    /** The `for _ in 0..PUBLISH_BURST` loop of `try_receive`s after the first publish went out. */
    method PublishMore(ghost c0: seq<Sensors.Sample>, ghost o0: seq<PublishMsg>, faultAt: Option<nat>) returns (ok: bool)
      requires Valid() && c0 != [] && faultAt != Some(0)
      requires channel.items == c0[1..] && client.outbox == o0 + MessagesFor(topic, c0[..1], show)
      modifies client, channel, queue
      ensures Valid()
      ensures ok == !BurstFails(faultAt, |c0|)
      ensures client.outbox == o0 + MessagesFor(topic, Published(c0, faultAt), show)
      ensures channel.items == LeftInChannel(c0, faultAt)
      ensures queue.items == QueueAfterBurst(old(queue.items), queue.capacity, c0, faultAt)
    {
      var k := 0;
      while k < Mqtt.PUBLISH_BURST
        invariant Valid()
        invariant 0 <= k <= Mqtt.PUBLISH_BURST && k + 1 <= |c0|
        invariant channel.items == c0[k + 1..]
        invariant client.outbox == o0 + MessagesFor(topic, c0[..k + 1], show)
        invariant queue.items == old(queue.items)
        invariant faultAt.None? || faultAt.value > k
      {
        var sent := BurstStep(c0, o0, k, Healthy(faultAt, k + 1));
        if sent.None? {
          BurstCompleted(c0, faultAt, k);
          return true;
        }
        if sent == Some(false) {
          BurstRefused(c0, faultAt, k + 1);
          return false;
        }
        k := k + 1;
      }
      BurstCompleted(c0, faultAt, k);
      ok := true;
    }

    /** One `try_receive` of the burst, after `k + 1` samples of `c0` went out. */
    method BurstStep(ghost c0: seq<Sensors.Sample>, ghost o0: seq<PublishMsg>, k: nat, accepted: bool)
      returns (sent: Option<bool>)
      requires Valid() && k + 1 <= |c0|
      requires channel.items == c0[k + 1..] && client.outbox == o0 + MessagesFor(topic, c0[..k + 1], show)
      modifies client, channel, queue
      ensures Valid()
      ensures k + 1 == |c0| ==>
        sent == None && channel.items == [] && client.outbox == old(client.outbox) && queue.items == old(queue.items)
      ensures k + 1 < |c0| ==> sent == Some(accepted) && channel.items == c0[k + 2..]
      ensures k + 1 < |c0| && accepted ==>
        client.outbox == o0 + MessagesFor(topic, c0[..k + 2], show) && queue.items == old(queue.items)
      ensures k + 1 < |c0| && !accepted ==>
        client.outbox == old(client.outbox) && queue.items == Sync.Offer(old(queue.items), queue.capacity, c0[k + 1])
    {
      sent := PublishNext(accepted);
      if sent == Some(true) {
        OutboxGrows(topic, o0, c0, k, show);
      }
    }

    /** One pass of the `'connected` loop; `stay` is false when the session breaks, and then `DOWN` is raised. */
    method ConnectedTick(t: Tick) returns (stay: bool)
      requires Valid()
      modifies client, channel, queue, commands, down
      ensures Valid()
      ensures stay ==> down.raised == old(down.raised)
      ensures !stay ==> down.raised
      ensures !t.timersOk ==>
        !stay && channel.items == old(channel.items) && queue.items == old(queue.items) &&
        commands.items == old(commands.items) && client.outbox == old(client.outbox)
      ensures t.timersOk && old(channel.items) != [] ==>
        var c0 := old(channel.items);
        stay == !BurstFails(t.faultAt, |c0|) &&
        client.outbox == old(client.outbox) + MessagesFor(topic, Published(c0, t.faultAt), show) &&
        channel.items == LeftInChannel(c0, t.faultAt) &&
        queue.items == QueueAfterBurst(old(queue.items), queue.capacity, c0, t.faultAt) &&
        commands.items == old(commands.items)
      ensures t.timersOk && old(channel.items) == [] && t.poll.Some? ==>
        var poll := Mqtt.PollWithTimeout(t.poll.value);
        stay == Mqtt.KeepsConnection(poll) &&
        commands.items == AfterPoll(old(commands.items), commands.capacity, clientId, poll, parse) &&
        channel.items == [] && queue.items == old(queue.items) && client.outbox == old(client.outbox)
      ensures t.timersOk && old(channel.items) == [] && t.poll.None? ==>
        stay && channel.items == [] && queue.items == old(queue.items) &&
        commands.items == old(commands.items) && client.outbox == old(client.outbox)
      ensures (stay, Snap()) == TickEffect(Cx(), old(Snap()), t)
    {
      if !t.timersOk {
        down.Raise();
        return false;
      }
      if channel.items != [] {
        // The receive arm is polled first, and a waiting sample completes it at once.
        stay := PublishBurst(t.faultAt);
      } else if t.poll.Some? {
        var poll := Mqtt.PollWithTimeout(t.poll.value);
        stay := HandlePollResult(clientId, poll, parse, commands);
      } else {
        // The poll is still pending when the next sample arrives: nothing happens.
        return true;
      }
      if !stay {
        down.Raise();
      }
    }

    /**
     * The `'connected` loop over a run of ticks: it stops at the first tick
     * that breaks the session and returns its index, or `|ticks|` when no
     * tick broke it. The outbox and the queues are what the ticks up to the
     * stop leave, and `DOWN` is raised exactly when the loop stopped.
     */
    method Connected(ticks: seq<Tick>) returns (stop: nat)
      requires Valid()
      modifies client, channel, queue, commands, down
      ensures Valid()
      ensures stop == StopAt(Cx(), old(Snap()), ticks)
      ensures Snap() == AfterTicks(Cx(), old(Snap()), ticks)
      ensures stop < |ticks| ==> down.raised
      ensures stop == |ticks| ==> down.raised == old(down.raised)
    {
      ghost var st0 := Snap();
      stop := 0;
      while stop < |ticks|
        invariant Valid()
        invariant stop <= |ticks|
        invariant StopAt(Cx(), st0, ticks) == stop + StopAt(Cx(), Snap(), ticks[stop..])
        invariant AfterTicks(Cx(), st0, ticks) == AfterTicks(Cx(), Snap(), ticks[stop..])
        invariant down.raised == old(down.raised)
      {
        assert ticks[stop..][0] == ticks[stop] && ticks[stop..][1..] == ticks[stop + 1..];
        var stay := ConnectedTick(ticks[stop]);
        if !stay {
          return;
        }
        stop := stop + 1;
      }
    }

    /** Sleep the current backoff, then double it up to `MAX_BACKOFF` (the three retry branches of `mqtt_loop`). */
    method BackOff()
      requires Valid()
      modifies this
      ensures Valid()
      ensures sleeps == old(sleeps) + [old(backoff)]
      ensures backoff == Mqtt.NextBackoff(old(backoff))
    {
      sleeps := sleeps + [backoff];
      Mqtt.NextBackoffInRange(backoff);
      backoff := Mqtt.NextBackoff(backoff);
    }

    /**
     * One iteration of `mqtt_loop`, after Wi-Fi is up: a failed handshake
     * backs off; a successful one raises `READY`, resets the backoff to 1
     * and runs the connected loop.
     */
    method RunAttempt(a: Attempt) returns (o: Outcome)
      requires Valid()
      modifies this, ready, down, client, channel, queue, commands
      ensures Valid()
      ensures o == Retried <==> Handshake(a) == HandshakeFailed
      ensures o == Connecting <==> Handshake(a) == HandshakeWaiting
      ensures Handshake(a) == HandshakeFailed ==>
        sleeps == old(sleeps) + [old(backoff)] && backoff == Mqtt.NextBackoff(old(backoff)) &&
        ready.raised == old(ready.raised) && down.raised == old(down.raised)
      ensures Handshake(a) == HandshakeWaiting ==>
        sleeps == old(sleeps) && backoff == old(backoff) &&
        ready.raised == old(ready.raised) && down.raised == old(down.raised)
      ensures o == OutcomeOf(Cx(), old(Snap()), a) && Snap() == ConnAfter(Cx(), old(Snap()), a)
      ensures Handshake(a) != HandshakeDone ==> Snap() == old(Snap())
      ensures Handshake(a) == HandshakeDone ==>
        ready.raised && backoff == 1 && sleeps == old(sleeps) &&
        Snap() == AfterTicks(Cx(), old(Snap()), a.ticks) &&
        (o == Ended <==> StopAt(Cx(), old(Snap()), a.ticks) < |a.ticks|) &&
        (o == Ended ==> down.raised) && (o == Live ==> down.raised == old(down.raised))
    {
      if !a.tcpOk || !a.connectScheduled {
        BackOff();
        return Retried;
      }
      var w := Mqtt.WaitForConnect(a.startMs, a.wait);
      if w.StillWaiting? {
        return Connecting;
      }
      if w.result.Err? {
        BackOff();
        return Retried;
      }
      ready.Raise();
      backoff := 1;
      var stop := Connected(a.ticks);
      o := if stop < |a.ticks| then Ended else Live;
    }

    /**
     * The session after the first `n` attempts of a run entered with
     * connected-loop state `st0`, backoff `b0`, sleeps `s0` and signals `r0`
     * and `d0`.
     */
    ghost predicate RanAttempts(st0: Conn, b0: nat, s0: seq<nat>, r0: bool, d0: bool, attempts: seq<Attempt>, n: nat)
      reads this, ready, down, client, channel, queue, commands
      requires n <= |attempts|
    {
      Snap() == StateAt(Cx(), st0, attempts, n) &&
      backoff == BackoffAfterAttempts(b0, attempts[..n]) &&
      sleeps == s0 + AttemptSleeps(b0, attempts[..n]) &&
      (ready.raised <==> r0 || AnyConnect(attempts[..n])) &&
      (down.raised <==> d0 || SomeEnded(Cx(), st0, attempts, n))
    }

    /** One turn of `mqtt_loop`: attempt `i` extends the run by its outcome. */
    method RunStep(attempts: seq<Attempt>, i: nat, ghost st0: Conn, ghost b0: nat, ghost s0: seq<nat>,
                   ghost r0: bool, ghost d0: bool) returns (o: Outcome)
      requires Valid() && i < |attempts|
      requires RanAttempts(st0, b0, s0, r0, d0, attempts, i)
      modifies this, ready, down, client, channel, queue, commands
      ensures Valid()
      ensures RanAttempts(st0, b0, s0, r0, d0, attempts, i + 1)
      ensures o == OutcomeAt(Cx(), st0, attempts, i)
    {
      o := RunAttempt(attempts[i]);
      AttemptsSnoc(Cx(), st0, b0, attempts, i);
    }

    /**
     * `mqtt_loop` over a run of attempts, each after `wifi::UP`. It goes on
     * after every failed handshake and every session that broke, and stops
     * after the first attempt still connecting or still connected, or at the
     * end of the inputs. The backoff, the sleeps and `READY` are those of the
     * handshakes it made, `DOWN` is raised exactly when some session broke,
     * and the outbox and queues are what its sessions left.
     */
    method Run(attempts: seq<Attempt>) returns (done: nat)
      requires Valid()
      modifies this, ready, down, client, channel, queue, commands
      ensures Valid()
      ensures done <= |attempts|
      ensures forall j :: 0 <= j && j + 1 < done ==> GoesOn(OutcomeAt(Cx(), old(Snap()), attempts, j))
      ensures done < |attempts| ==> 0 < done && !GoesOn(OutcomeAt(Cx(), old(Snap()), attempts, done - 1))
      ensures Snap() == StateAt(Cx(), old(Snap()), attempts, done)
      ensures backoff == BackoffAfterAttempts(old(backoff), attempts[..done])
      ensures sleeps == old(sleeps) + AttemptSleeps(old(backoff), attempts[..done])
      ensures ready.raised <==> old(ready.raised) || AnyConnect(attempts[..done])
      ensures down.raised <==> old(down.raised) || SomeEnded(Cx(), old(Snap()), attempts, done)
      ensures (forall i :: 0 <= i < |attempts| ==> Handshake(attempts[i]) == HandshakeFailed) ==>
        done == |attempts| &&
        sleeps == old(sleeps) + Mqtt.Backoffs(old(backoff), |attempts|) &&
        backoff == Mqtt.BackoffAfter(old(backoff), |attempts|)
    {
      ghost var b0 := backoff;
      ghost var s0 := sleeps;
      ghost var st0 := Snap();
      ghost var r0 := ready.raised;
      ghost var d0 := down.raised;
      done := 0;
      var stopped := false;
      while done < |attempts| && !stopped
        invariant Valid()
        invariant done <= |attempts|
        invariant stopped ==> 0 < done
        invariant forall j :: 0 <= j && j + 1 < done ==> GoesOn(OutcomeAt(Cx(), st0, attempts, j))
        invariant 0 < done ==> (stopped <==> !GoesOn(OutcomeAt(Cx(), st0, attempts, done - 1)))
        invariant RanAttempts(st0, b0, s0, r0, d0, attempts, done)
      {
        var o := RunStep(attempts, done, st0, b0, s0, r0, d0);
        stopped := !GoesOn(o);
        done := done + 1;
      }
      if forall i :: 0 <= i < |attempts| ==> Handshake(attempts[i]) == HandshakeFailed {
        AllFailedRunsThrough(Cx(), st0, b0, attempts, done);
      }
    }
  }

  /**
   * After a connected session, a run of failed handshakes sleeps 1, 2, 4, …
   * seconds, capped at 30: the backoff loop from its reset value.
   */
  lemma FailuresAfterReset(n: nat, k: nat)
    requires k < n
    ensures Mqtt.Backoffs(1, n)[k] == Min(Pow2(k), Mqtt.MAX_BACKOFF)
  {
    Mqtt.BackoffsFromReset(n);
  }

  // ----- The publisher -----

  /**
   * `publisher_loop`: after `HAS_DATA`, move every sample from the sensor
   * queue to the publish channel, waiting for room when the channel is full.
   */
  class Publisher {
    /** A sample taken from the sensor queue that waits for room in the full channel. */
    var held: Option<Sensors.Sample>
    const queue: Sync.Fifo<Sensors.Sample>
    const channel: Sync.Fifo<Sensors.Sample>
    const hasData: Sync.Signal

    ghost predicate Valid()
      reads this, queue, channel
    {
      queue.Valid() && channel.Valid() && queue != channel
    }

    constructor (queue: Sync.Fifo<Sensors.Sample>, channel: Sync.Fifo<Sensors.Sample>, hasData: Sync.Signal)
      requires queue.Valid() && channel.Valid() && queue != channel
      ensures Valid() && held == None
      ensures this.queue == queue && this.channel == channel && this.hasData == hasData
    {
      held := None;
      this.queue := queue;
      this.channel := channel;
      this.hasData := hasData;
    }

    /** The samples between sensor task and session, oldest first: the channel, the held sample, the sensor queue. */
    function InFlight(): seq<Sensors.Sample>
      reads this, queue, channel
    {
      channel.items + OptionSeq(held) + queue.items
    }

    /** The publisher cannot move: it waits for `HAS_DATA`, or for room to send its held sample. */
    function Blocked(): (b: bool)
      reads this, channel, hasData
      ensures b <==> (held.None? && !hasData.raised) || (held.Some? && |channel.items| >= channel.capacity)
    {
      if held.None? then !hasData.raised else channel.IsFull()
    }

    /**
     * Let the publisher run until it blocks. No sample is lost, duplicated or
     * reordered, the channel only grows at its back, and afterwards either
     * the sensor queue is drained or the channel is full with one sample held.
     */
    method Wake()
      requires Valid()
      modifies this, queue, channel, hasData
      ensures Valid()
      ensures InFlight() == old(InFlight())
      ensures old(channel.items) <= channel.items
      ensures old(Blocked()) ==>
        held == old(held) && channel.items == old(channel.items) &&
        queue.items == old(queue.items) && hasData.raised == old(hasData.raised)
      ensures !old(Blocked()) ==>
        (held.None? && queue.items == []) || (held.Some? && |channel.items| >= channel.capacity)
      ensures old(held).None? ==> !hasData.raised
      ensures old(held).Some? ==> hasData.raised == old(hasData.raised)
    {
      if held.Some? {
        if channel.IsFull() {
          return;
        }
        var _ := channel.Enqueue(held.value);
        held := None;
      } else {
        var woken := hasData.TryWait();
        if !woken {
          return;
        }
      }
      Drain();
    }

    /** The `while let` loop: dequeue and send until the queue is empty or the channel is full. */
    method Drain()
      requires Valid() && held.None?
      modifies this, queue, channel
      ensures Valid()
      ensures InFlight() == old(InFlight())
      ensures old(channel.items) <= channel.items
      ensures (held.None? && queue.items == []) || (held.Some? && |channel.items| >= channel.capacity)
    {
      while queue.items != []
        invariant Valid() && held.None?
        invariant InFlight() == old(InFlight())
        invariant old(channel.items) <= channel.items
        decreases |queue.items|
      {
        ghost var q := queue.items;
        ghost var c := channel.items;
        var s := queue.Dequeue();
        if channel.IsFull() {
          held := s;
          assert c + [q[0]] + q[1..] == c + q;
          return;
        }
        var _ := channel.Enqueue(s.value);
        assert (c + [q[0]]) + q[1..] == c + q;
      }
    }
  }

  // ----- Executing commands -----

  /**
   * One turn of `command_execution_loop`: take the next command, if any; a
   * reboot request runs `set_reboot`, whose failure is only logged.
   */
  method ExecuteNext(commands: Sync.Fifo<Mqtt.Command>, db: Ekv.Database, fault: Option<nat>)
    returns (r: Option<Config.RebootOutcome>)
    requires commands.Valid() && db.mounted
    modifies commands, db
    ensures commands.Valid() && db.mounted
    ensures old(commands.items) == [] ==> r == None && commands.items == [] && db.records == old(db.records)
    ensures old(commands.items) != [] ==> commands.items == old(commands.items)[1..] && r.Some?
    ensures r == Some(Config.Reset) ==>
      db.records == old(db.records)[Config.SYSTEM_REBOOT_TO_RECONFIGURE := KvStorage.EncodeBool(true)]
    ensures r.Some? && r.value.Failed? ==> db.records == old(db.records)
  {
    var c := commands.Dequeue();
    if c.None? {
      return None;
    }
    match c.value
    case RebootToReconfigure =>
      var o := Config.SetReboot(db, fault);
      r := Some(o);
  }
}
