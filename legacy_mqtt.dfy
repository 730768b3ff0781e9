/**
 * The MQTT task of the first firmware generation: for every new sample it
 * waits for `HAS_DATA` and then for the Wi-Fi `UP` signal, opens a TCP
 * connection and an MQTT session, publishes at most one queued sample as
 * a fixed six-field JSON line, and disconnects. Failures back off with the
 * doubling, 30 s capped backoff.
 *
 * The network and the MQTT client are inputs: an `Attempt` says whether the
 * TCP connect, the broker connect and the publish succeed. The task
 * records what it does, in order, as a log of actions.
 */
module LegacyMqtt {
  import opened Common
  import Utf8
  import Sync
  import Fmt
  import Mqtt
  import MqttLoop
  import LegacySensors

  /** The topic every sample is published on. */
  const TOPIC: string := "sensors/living_room/esp-01/all"

  // ----- The payload -----

  /** The `write_str` pieces of the payload's single `write!`; `show` is `Display` for `f32`. */
  function Pieces(s: LegacySensors.Sample, show: real -> string): seq<string> {
    ["{ \"temperature\": ", show(s.temperature),
     ", \"pressure\": ", show(s.pressure),
     ", \"humidity\": ", show(s.humidity),
     ", \"gas_ohm\": ", Fmt.Decimal(s.gasOhm),
     ", \"lux\": ", show(s.lux),
     ", \"aiq_score\": ", Fmt.Decimal(s.aiqScore),
     " }"]
  }

  /** The full text of the payload's `write!`: the JSON line with all six fields, in this fixed order. */
  function JsonLine(s: LegacySensors.Sample, show: real -> string): string {
    Fmt.Concat(Pieces(s, show))
  }

  /** The payload: the `write!` into an empty `String<256>`, its error ignored. */
  function Payload(s: LegacySensors.Sample, show: real -> string): string {
    Fmt.Write("", Mqtt.PAYLOAD_CAP, Pieces(s, show))
  }

  /**
   * The payload is the sample's JSON line cut to at most 256 characters; when the
   * line fits, it is the whole line, with all six fields in order.
   */
  lemma PayloadIsJsonLine(s: LegacySensors.Sample, show: real -> string)
    ensures |Payload(s, show)| <= Mqtt.PAYLOAD_CAP
    ensures |Payload(s, show)| <= |JsonLine(s, show)| &&
      Payload(s, show) == JsonLine(s, show)[..|Payload(s, show)|]
    ensures |JsonLine(s, show)| <= Mqtt.PAYLOAD_CAP ==> Payload(s, show) == JsonLine(s, show)
  {
    Fmt.WriteAppends("", Mqtt.PAYLOAD_CAP, Pieces(s, show));
    Fmt.WriteIsPrefix("", Mqtt.PAYLOAD_CAP, Pieces(s, show));
    assert "" + JsonLine(s, show) == JsonLine(s, show);
  }

  /** The publication of a sample: QoS 1, retained, on `TOPIC`. */
  function MessageOf(s: LegacySensors.Sample, show: real -> string): MqttLoop.PublishMsg {
    MqttLoop.PublishMsg(MqttLoop.AtLeastOnce, true, TOPIC, Utf8.Encode(Payload(s, show)))
  }

  // ----- Sessions -----

  /** What the task does that the world can see. */
  datatype Action = Slept(secs: nat) | Published(msg: MqttLoop.PublishMsg) | Disconnected

  /** What one connection attempt meets: the TCP connect, the broker connect and the publish. */
  datatype Attempt = Attempt(tcpOk: bool, connectOk: bool, publishOk: bool)

  predicate Connects(a: Attempt) {
    a.tcpOk && a.connectOk
  }

  /** Some attempt of `attempts` reaches the broker. */
  predicate AnyConnects(attempts: seq<Attempt>) {
    exists j :: 0 <= j < |attempts| && Connects(attempts[j])
  }

  /** Some attempt of `attempts` is refused by the broker. */
  predicate AnyRefused(attempts: seq<Attempt>) {
    exists j :: 0 <= j < |attempts| && attempts[j].tcpOk && !attempts[j].connectOk
  }

  /** The front of the queue, if any. */
  function Head(items: seq<LegacySensors.Sample>): Option<LegacySensors.Sample> {
    if items == [] then None else Some(items[0])
  }

  /**
   * The actions of one attempt, entered with backoff `b` and the queue's
   * front `head`: a failure sleeps the backoff; a session publishes the
   * front sample when there is one and the client delivers it, then
   * disconnects.
   */
  function AttemptLog(b: nat, a: Attempt, head: Option<LegacySensors.Sample>, show: real -> string): seq<Action> {
    if !Connects(a) then [Slept(b)]
    else Delivered(head, a.publishOk, show) + [Disconnected]
  }

  /** The publication of the front sample, when there is one and the client delivers it. */
  function Delivered(head: Option<LegacySensors.Sample>, publishOk: bool, show: real -> string): (r: seq<Action>)
    ensures |r| == if head.Some? && publishOk then 1 else 0
    ensures |r| == 1 ==> r[0] == Published(MessageOf(head.value, show))
  {
    var n := if head.Some? && publishOk then 1 else 0;
    seq(n, i requires 0 <= i < n => Published(MessageOf(head.value, show)))
  }

  /** The sleep actions of a run of backoffs. */
  function SleepActions(secs: seq<nat>): (r: seq<Action>)
    ensures |r| == |secs|
    ensures forall i :: 0 <= i < |secs| ==> r[i] == Slept(secs[i])
  {
    seq(|secs|, i requires 0 <= i < |secs| => Slept(secs[i]))
  }

  /**
   * An attempt that reaches the broker publishes at most one sample, the
   * front of the queue, and always ends with a disconnect; it sleeps
   * nothing. One that does not reach the broker only sleeps the backoff.
   */
  lemma AttemptShape(b: nat, a: Attempt, head: Option<LegacySensors.Sample>, show: real -> string)
    ensures var log := AttemptLog(b, a, head, show);
      Connects(a) ==>
        1 <= |log| <= 2 && log[|log| - 1] == Disconnected &&
        (forall i :: 0 <= i < |log| ==> !log[i].Slept?) &&
        (forall i :: 0 <= i < |log| && log[i].Published? ==>
           head.Some? && log[i].msg == MessageOf(head.value, show) && i == 0)
    ensures var log := AttemptLog(b, a, head, show);
      !Connects(a) ==> log == [Slept(b)]
  {
  }

  /** The task's state. */
  class Session {
    var backoff: nat
    /** The `HAS_DATA` wait has completed and the task now waits for `UP`. */
    var gotData: bool
    /** What the task has done, in order. */
    var log: seq<Action>
    const hasData: Sync.Signal
    const up: Sync.Signal
    const ready: Sync.Signal
    const down: Sync.Signal
    const queue: Sync.Fifo<LegacySensors.Sample>
    const show: real -> string

    ghost predicate Valid()
      reads this, queue
    {
      1 <= backoff <= Mqtt.MAX_BACKOFF && queue.Valid() &&
      hasData != up && hasData != ready && hasData != down &&
      up != ready && up != down && ready != down
    }

    /** The state entering the loop: backoff 1, nothing done yet. */
    constructor (hasData: Sync.Signal, up: Sync.Signal, ready: Sync.Signal, down: Sync.Signal,
                 queue: Sync.Fifo<LegacySensors.Sample>, show: real -> string)
      requires queue.Valid()
      requires hasData != up && hasData != ready && hasData != down
      requires up != ready && up != down && ready != down
      ensures Valid()
      ensures backoff == 1 && !gotData && log == []
      ensures this.hasData == hasData && this.up == up && this.ready == ready && this.down == down
      ensures this.queue == queue && this.show == show
    {
      this.hasData := hasData;
      this.up := up;
      this.ready := ready;
      this.down := down;
      this.queue := queue;
      this.show := show;
      backoff := 1;
      gotData := false;
      log := [];
    }

    /**
     * The two waits at the top of the loop, given the chance to complete:
     * first `HAS_DATA` (unless that wait has already completed), then `UP`.
     * The attempt may start exactly when both have completed; a wait that
     * completes takes its signal down.
     */
    method Wait() returns (start: bool)
      requires Valid()
      modifies this, hasData, up
      ensures Valid()
      ensures start <==> (old(gotData) || old(hasData.raised)) && old(up.raised)
      ensures gotData <==> (old(gotData) || old(hasData.raised)) && !old(up.raised)
      ensures hasData.raised <==> old(hasData.raised) && old(gotData)
      ensures up.raised <==> old(up.raised) && !(old(gotData) || old(hasData.raised))
      ensures backoff == old(backoff) && log == old(log)
    {
      if !gotData {
        var woken := hasData.TryWait();
        if !woken {
          return false;
        }
        gotData := true;
      }
      var woken := up.TryWait();
      if !woken {
        return false;
      }
      gotData := false;
      return true;
    }

    /**
     * One connection attempt. A TCP failure sleeps the backoff and doubles
     * it, without `DOWN`. A broker refusal raises `DOWN`, sleeps and
     * doubles. A session raises `READY`, resets the backoff, takes the
     * front sample off the queue (lost whether or not its publish is
     * delivered), publishes it and disconnects.
     */
    method RunAttempt(a: Attempt)
      requires Valid()
      modifies this, queue, ready, down
      ensures Valid()
      ensures log == old(log) + AttemptLog(old(backoff), a, Head(old(queue.items)), show)
      ensures queue.items == if Connects(a) && old(queue.items) != [] then old(queue.items)[1..] else old(queue.items)
      ensures backoff == if Connects(a) then 1 else Mqtt.NextBackoff(old(backoff))
      ensures ready.raised <==> old(ready.raised) || Connects(a)
      ensures down.raised <==> old(down.raised) || (a.tcpOk && !a.connectOk)
      ensures gotData == old(gotData)
    {
      if !a.tcpOk {
        BackOff();
        return;
      }
      if !a.connectOk {
        down.Raise();
        BackOff();
        return;
      }
      ready.Raise();
      backoff := 1;
      var sample := queue.Dequeue();
      if sample.Some? {
        var payload := Fmt.Write("", Mqtt.PAYLOAD_CAP, Pieces(sample.value, show));
        if a.publishOk {
          log := log + [Published(MqttLoop.PublishMsg(MqttLoop.AtLeastOnce, true, TOPIC, Utf8.Encode(payload)))];
        }
      }
      log := log + [Disconnected];
    }

    /** Sleep the backoff, then double it, capped at 30 s. */
    method BackOff()
      requires Valid()
      modifies this
      ensures Valid()
      ensures log == old(log) + [Slept(old(backoff))] && backoff == Mqtt.NextBackoff(old(backoff))
      ensures gotData == old(gotData)
    {
      log := log + [Slept(backoff)];
      Mqtt.NextBackoffInRange(backoff);
      backoff := Mqtt.NextBackoff(backoff);
    }

    /**
     * A run of attempts, each entered once its waits have completed. `READY`
     * ends up raised exactly when it was or some attempt reached the broker,
     * and `DOWN` exactly when it was or some broker refused. When no attempt
     * reaches the broker, the task has slept the backoffs of that many
     * consecutive failures, 1, 2, 4, ... capped at 30 s, and the queue is
     * untouched.
     */
    method Run(attempts: seq<Attempt>)
      requires Valid()
      modifies this, queue, ready, down
      ensures Valid()
      ensures ready.raised <==> old(ready.raised) || AnyConnects(attempts)
      ensures down.raised <==> old(down.raised) || AnyRefused(attempts)
      ensures !AnyConnects(attempts) ==>
        log == old(log) + SleepActions(Mqtt.Backoffs(old(backoff), |attempts|)) &&
        backoff == Mqtt.BackoffAfter(old(backoff), |attempts|) &&
        queue.items == old(queue.items)
    {
      ghost var b0 := backoff;
      ghost var log0 := log;
      ghost var items0 := queue.items;
      ghost var ready0 := ready.raised;
      ghost var down0 := down.raised;
      var i := 0;
      while i < |attempts|
        invariant 0 <= i <= |attempts|
        invariant Valid()
        invariant ready.raised <==> ready0 || AnyConnects(attempts[..i])
        invariant down.raised <==> down0 || AnyRefused(attempts[..i])
        invariant !AnyConnects(attempts[..i]) ==>
          log == log0 + SleepActions(Mqtt.Backoffs(b0, i)) &&
          backoff == Mqtt.BackoffAfter(b0, i) && queue.items == items0
      {
        RunAttempt(attempts[i]);
        assert attempts[..i + 1][..i] == attempts[..i];
        assert attempts[..i + 1][i] == attempts[i];
        if !AnyConnects(attempts[..i + 1]) {
          assert !AnyConnects(attempts[..i]) && !Connects(attempts[i]);
          Mqtt.BackoffsSnoc(b0, i);
          assert SleepActions(Mqtt.Backoffs(b0, i + 1)) == SleepActions(Mqtt.Backoffs(b0, i)) + [Slept(Mqtt.BackoffAfter(b0, i))];
        }
        i := i + 1;
      }
      assert attempts[..i] == attempts;
    }
  }
}
