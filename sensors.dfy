/**
 * The acquisition task: which sensors are on the I2C bus, how one cycle's
 * readings become a `Sample`, and the loop that skips the warm-up cycles,
 * queues a sample, raises `HAS_DATA` and sleeps out the rest of the minute.
 *
 * The drivers are inputs. What the bus answers while probing is a `Bus`
 * value; what a present sensor returns in one cycle is a `Readings`
 * value, `None` standing for a failed read. The `f32` readings are reals,
 * and they are carried, never computed with, except in the air-quality score.
 * Time is an input too: each cycle brings the uptime at its timestamp and how
 * long its measurements took, and the task records the sleeps it asks for.
 */
module Sensors {
  import opened Common
  import Sync
  import NetTime
  import AirQuality

  // ----- Samples -----

  /** `Sample` (its single-variant `version` tag is left out). */
  datatype Sample = Sample(
    timestamp: u32,
    temperature: Option<real>,
    pressure: Option<real>,
    humidity: Option<real>,
    humSht40: Option<real>,
    tempSht40: Option<real>,
    pressBmp390: Option<real>,
    tempBmp390: Option<real>,
    gasOhm: Option<u32>,
    luxVeml7700: Option<real>,
    luxBh1750: Option<real>,
    aiqScore: Option<u32>)

  /** What `get_sensor_data` yields: humidity %, pressure hPa, temperature °C, gas resistance Ω. */
  datatype Bme680Data = Bme680Data(humidity: real, pressure: real, temperature: real, gasOhm: u32)

  /** An SHT40 measurement, in milli-percent and milli-degrees as the driver hands it over. */
  datatype Sht40Data = Sht40Data(humidityMilliPercent: int, temperatureMilliCelsius: int)

  /** A BMP390 measurement, already in °C and hPa. */
  datatype Bmp390Data = Bmp390Data(temperature: real, pressure: real)

  /** One cycle's readings; `None` is a sensor that is absent or whose read failed. */
  datatype Readings = Readings(
    veml7700: Option<real>,
    bme680: Option<Bme680Data>,
    bh1750: Option<real>,
    sht40: Option<Sht40Data>,
    bmp390: Option<Bmp390Data>)

  /**
   * The sample of one cycle, field by field: the BME680 fields (with the
   * air-quality score computed from its humidity and gas resistance), the
   * SHT40 fields scaled from milli-units, the BMP390 fields and the two lux
   * values, each from its own reading only.
   */
  function SampleOf(timestamp: u32, r: Readings): Sample {
    Sample(
      timestamp,
      if r.bme680.Some? then Some(r.bme680.value.temperature) else None,
      if r.bme680.Some? then Some(r.bme680.value.pressure) else None,
      if r.bme680.Some? then Some(r.bme680.value.humidity) else None,
      if r.sht40.Some? then Some(r.sht40.value.humidityMilliPercent as real / 1000.0) else None,
      if r.sht40.Some? then Some(r.sht40.value.temperatureMilliCelsius as real / 1000.0) else None,
      if r.bmp390.Some? then Some(r.bmp390.value.pressure) else None,
      if r.bmp390.Some? then Some(r.bmp390.value.temperature) else None,
      if r.bme680.Some? then Some(r.bme680.value.gasOhm) else None,
      r.veml7700,
      r.bh1750,
      if r.bme680.Some? then Some(AirQuality.Calculate(r.bme680.value.humidity, r.bme680.value.gasOhm).0) else None)
  }

  /**
   * The sample assembly in the task loop: a default sample with the
   * timestamp and the lux values, then the fields of each sensor that has data.
   */
  method Assemble(timestamp: u32, r: Readings) returns (sample: Sample)
    ensures sample == SampleOf(timestamp, r)
  {
    sample := Sample(timestamp, None, None, None, None, None, None, None, None, r.veml7700, r.bh1750, None);
    if r.bme680.Some? {
      var data := r.bme680.value;
      var (aiqScore, _) := AirQuality.Calculate(data.humidity, data.gasOhm);
      sample := sample.(humidity := Some(data.humidity), pressure := Some(data.pressure),
                        temperature := Some(data.temperature), aiqScore := Some(aiqScore),
                        gasOhm := Some(data.gasOhm));
    }
    if r.sht40.Some? {
      var data := r.sht40.value;
      sample := sample.(humSht40 := Some(data.humidityMilliPercent as real / 1000.0),
                        tempSht40 := Some(data.temperatureMilliCelsius as real / 1000.0));
    }
    if r.bmp390.Some? {
      var data := r.bmp390.value;
      sample := sample.(tempBmp390 := Some(data.temperature), pressBmp390 := Some(data.pressure));
    }
  }

  /**
   * The five BME680 fields come together: with BME680 data they are all
   * present, humidity, pressure, temperature and gas as read and the score
   * as `calculate` gives it; without, all five are absent.
   */
  lemma Bme680AllOrNothing(timestamp: u32, r: Readings)
    ensures var s := SampleOf(timestamp, r);
      r.bme680.Some? <==>
        (s.humidity.Some? && s.pressure.Some? && s.temperature.Some? && s.gasOhm.Some? && s.aiqScore.Some?)
    ensures var s := SampleOf(timestamp, r);
      r.bme680.None? <==>
        (s.humidity.None? && s.pressure.None? && s.temperature.None? && s.gasOhm.None? && s.aiqScore.None?)
    ensures var s := SampleOf(timestamp, r);
      r.bme680.Some? ==>
        s.humidity == Some(r.bme680.value.humidity) && s.gasOhm == Some(r.bme680.value.gasOhm) &&
        s.aiqScore == Some(AirQuality.Calculate(r.bme680.value.humidity, r.bme680.value.gasOhm).0) &&
        AirQuality.AiqFromScore(s.aiqScore.value) == AirQuality.Calculate(r.bme680.value.humidity, r.bme680.value.gasOhm).1
  {
  }

  /**
   * A failed read of one sensor blanks that sensor's fields and nothing else:
   * the sample without that reading is the full sample with just those fields cleared.
   */
  lemma OneSensorFails(timestamp: u32, r: Readings)
    ensures SampleOf(timestamp, r.(bme680 := None)) ==
      SampleOf(timestamp, r).(temperature := None, pressure := None, humidity := None,
                              gasOhm := None, aiqScore := None)
    ensures SampleOf(timestamp, r.(sht40 := None)) ==
      SampleOf(timestamp, r).(humSht40 := None, tempSht40 := None)
    ensures SampleOf(timestamp, r.(bmp390 := None)) ==
      SampleOf(timestamp, r).(pressBmp390 := None, tempBmp390 := None)
    ensures SampleOf(timestamp, r.(veml7700 := None)) == SampleOf(timestamp, r).(luxVeml7700 := None)
    ensures SampleOf(timestamp, r.(bh1750 := None)) == SampleOf(timestamp, r).(luxBh1750 := None)
  {
  }

  // ----- Probing the bus -----

  datatype Bmp390Address = Up | Down

  /** The SHT40 addresses in the order they are tried. */
  const SHT40_ADDRESSES: seq<int> := [0x44, 0x45, 0x46]
  /** The BMP390 addresses in the order they are tried. */
  const BMP390_ADDRESSES: seq<Bmp390Address> := [Up, Down]
  const VEML7700_ADDRESS: int := 0x10
  const BME680_ADDRESS: int := 0x76
  const BH1750_ADDRESS: int := 0x23

  /**
   * How the bus answers during start-up: the addresses that answer the
   * `check_i2c_address` scan, the SHT40 addresses whose serial number can be
   * read, the BMP390 addresses where the driver initialises, and whether the
   * VEML7700 and BME680 set-up sequences succeed.
   */
  datatype Bus = Bus(
    answering: set<int>,
    sht40Serial: set<int>,
    bmp390Init: set<Bmp390Address>,
    veml7700SetUp: bool,
    bme680SetUp: bool)

  /** The sensors the task found, and where. */
  datatype Presence = Presence(
    veml7700: bool,
    sht40: Option<int>,
    bme680: bool,
    bh1750: bool,
    bmp390: Option<Bmp390Address>)

  /** The first of `candidates` that is in `ok`. */
  function FirstOf<A>(candidates: seq<A>, ok: set<A>): Option<A>
    decreases |candidates|
  {
    if candidates == [] then None
    else if candidates[0] in ok then Some(candidates[0])
    else FirstOf(candidates[1..], ok)
  }

  /** `FirstOf` picks an answering candidate that no earlier candidate beats, and fails only when none answers. */
  lemma {:induction false} FirstOfSpec<A>(candidates: seq<A>, ok: set<A>)
    ensures FirstOf(candidates, ok).None? <==> forall i :: 0 <= i < |candidates| ==> candidates[i] !in ok
    ensures FirstOf(candidates, ok).Some? ==>
      exists i :: 0 <= i < |candidates| && candidates[i] == FirstOf(candidates, ok).value && candidates[i] in ok &&
        forall j :: 0 <= j < i ==> candidates[j] !in ok
    decreases |candidates|
  {
    if candidates != [] && candidates[0] !in ok {
      FirstOfSpec(candidates[1..], ok);
      var tail := candidates[1..];
      if FirstOf(tail, ok).Some? {
        var i :| 0 <= i < |tail| && tail[i] == FirstOf(tail, ok).value && tail[i] in ok &&
          forall j :: 0 <= j < i ==> tail[j] !in ok;
        assert candidates[i + 1] == tail[i];
        assert forall j :: 0 <= j < i + 1 ==> candidates[j] !in ok by {
          forall j | 0 <= j < i + 1 ensures candidates[j] !in ok {
            if j > 0 {
              assert candidates[j] == tail[j - 1];
            }
          }
        }
      } else {
        assert forall i :: 0 <= i < |candidates| ==> candidates[i] !in ok by {
          forall i | 0 <= i < |candidates| ensures candidates[i] !in ok {
            if i > 0 {
              assert candidates[i] == tail[i - 1];
            }
          }
        }
      }
    }
  }

  /** `create_sht40`: tries 0x44, 0x45 and 0x46 in turn and keeps the first whose serial number reads. */
  method CreateSht40(bus: Bus) returns (r: Option<int>)
    ensures r == FirstOf(SHT40_ADDRESSES, bus.sht40Serial)
  {
    var i := 0;
    while i < |SHT40_ADDRESSES|
      invariant 0 <= i <= |SHT40_ADDRESSES|
      invariant FirstOf(SHT40_ADDRESSES, bus.sht40Serial) == FirstOf(SHT40_ADDRESSES[i..], bus.sht40Serial)
    {
      if SHT40_ADDRESSES[i] in bus.sht40Serial {
        return Some(SHT40_ADDRESSES[i]);
      }
      assert SHT40_ADDRESSES[i..][1..] == SHT40_ADDRESSES[i + 1..];
      i := i + 1;
    }
    return None;
  }

  /** `create_bmp390`: tries `Up`, then `Down`, and keeps the first where the driver initialises. */
  method CreateBmp390(bus: Bus) returns (r: Option<Bmp390Address>)
    ensures r == FirstOf(BMP390_ADDRESSES, bus.bmp390Init)
  {
    var i := 0;
    while i < |BMP390_ADDRESSES|
      invariant 0 <= i <= |BMP390_ADDRESSES|
      invariant FirstOf(BMP390_ADDRESSES, bus.bmp390Init) == FirstOf(BMP390_ADDRESSES[i..], bus.bmp390Init)
    {
      if BMP390_ADDRESSES[i] in bus.bmp390Init {
        return Some(BMP390_ADDRESSES[i]);
      }
      assert BMP390_ADDRESSES[i..][1..] == BMP390_ADDRESSES[i + 1..];
      i := i + 1;
    }
    return None;
  }

  /** The probe order decides: an earlier address that answers always wins over a later one. */
  lemma ProbeOrder(bus: Bus)
    ensures 0x44 in bus.sht40Serial ==> FirstOf(SHT40_ADDRESSES, bus.sht40Serial) == Some(0x44)
    ensures 0x44 !in bus.sht40Serial && 0x45 in bus.sht40Serial ==>
      FirstOf(SHT40_ADDRESSES, bus.sht40Serial) == Some(0x45)
    ensures 0x44 !in bus.sht40Serial && 0x45 !in bus.sht40Serial && 0x46 in bus.sht40Serial ==>
      FirstOf(SHT40_ADDRESSES, bus.sht40Serial) == Some(0x46)
    ensures FirstOf(SHT40_ADDRESSES, bus.sht40Serial).None? <==>
      0x44 !in bus.sht40Serial && 0x45 !in bus.sht40Serial && 0x46 !in bus.sht40Serial
    ensures Up in bus.bmp390Init ==> FirstOf(BMP390_ADDRESSES, bus.bmp390Init) == Some(Up)
    ensures Up !in bus.bmp390Init ==>
      FirstOf(BMP390_ADDRESSES, bus.bmp390Init) == (if Down in bus.bmp390Init then Some(Down) else None)
  {
    assert SHT40_ADDRESSES[1..] == [0x45, 0x46];
    assert SHT40_ADDRESSES[1..][1..] == [0x46];
    assert BMP390_ADDRESSES[1..] == [Down];
  }

  /**
   * The start-up probes, once, before the loop: the VEML7700, BME680 and
   * BH1750 must answer the scan at their address (and the first two must
   * then set up), the SHT40 and BMP390 are found by their own probe loops.
   */
  method Probe(bus: Bus) returns (p: Presence)
    ensures p.veml7700 <==> VEML7700_ADDRESS in bus.answering && bus.veml7700SetUp
    ensures p.sht40 == FirstOf(SHT40_ADDRESSES, bus.sht40Serial)
    ensures p.bme680 <==> BME680_ADDRESS in bus.answering && bus.bme680SetUp
    ensures p.bh1750 <==> BH1750_ADDRESS in bus.answering
    ensures p.bmp390 == FirstOf(BMP390_ADDRESSES, bus.bmp390Init)
  {
    var veml := VEML7700_ADDRESS in bus.answering && bus.veml7700SetUp;
    var sht40 := CreateSht40(bus);
    var bme680 := BME680_ADDRESS in bus.answering && bus.bme680SetUp;
    var bh1750 := BH1750_ADDRESS in bus.answering;
    var bmp390 := CreateBmp390(bus);
    p := Presence(veml, sht40, bme680, bh1750, bmp390);
  }

  /** A cycle's readings as the loop sees them: a sensor that was not found yields nothing. */
  function Effective(p: Presence, raw: Readings): (r: Readings)
    ensures !p.bme680 ==> r.bme680.None?
    ensures !p.veml7700 ==> r.veml7700.None?
    ensures !p.bh1750 ==> r.bh1750.None?
    ensures p.sht40.None? ==> r.sht40.None?
    ensures p.bmp390.None? ==> r.bmp390.None?
    ensures p == Presence(true, p.sht40, true, true, p.bmp390) && p.sht40.Some? && p.bmp390.Some? ==> r == raw
  {
    Readings(
      if p.veml7700 then raw.veml7700 else None,
      if p.bme680 then raw.bme680 else None,
      if p.bh1750 then raw.bh1750 else None,
      if p.sht40.Some? then raw.sht40 else None,
      if p.bmp390.Some? then raw.bmp390 else None)
  }

  // ----- The task loop -----

  /** Warm-up cycles before the first sample is queued. */
  const WARM_UP_CYCLES: nat := 10
  /** The sleep of a warm-up cycle, in milliseconds. */
  const WARM_UP_SLEEP_MS: nat := 3_000
  /** The measurement period, in milliseconds. */
  const PERIOD_MS: nat := 60_000

  /**
   * One pass of the loop as the environment presents it: what the sensors
   * return, the uptime (seconds) at the timestamp, and how long the pass
   * took before its sleep (milliseconds).
   */
  datatype Cycle = Cycle(raw: Readings, uptimeSecs: nat, elapsedMs: nat)

  /**
   * Every cycle after the `skip` warm-up cycles finishes within the period,
   * so the subtraction of its delay does not underflow. A warm-up cycle sleeps
   * a fixed 3 s and may take any time.
   */
  predicate InPeriod(skip: nat, cycles: seq<Cycle>) {
    forall i :: skip <= i < |cycles| ==> cycles[i].elapsedMs <= PERIOD_MS
  }

  /** The sleeps of `cycles` entered with `skip` warm-up cycles still to go. */
  function Sleeps(skip: nat, cycles: seq<Cycle>): (r: seq<nat>)
    requires InPeriod(skip, cycles)
    ensures |r| == |cycles|
    ensures forall i :: 0 <= i < |cycles| ==>
      r[i] == if i < skip then WARM_UP_SLEEP_MS else PERIOD_MS - cycles[i].elapsedMs
  {
    seq(|cycles|, i requires 0 <= i < |cycles| =>
      if i < skip then WARM_UP_SLEEP_MS else PERIOD_MS - cycles[i].elapsedMs)
  }

  /** The samples `cycles` produce, entered with `skip` warm-up cycles to go: one per cycle after the warm-up. */
  function Produced(skip: nat, cycles: seq<Cycle>, p: Presence, clock: NetTime.TimeState): (r: seq<Sample>)
    reads clock
    ensures |r| == if skip <= |cycles| then |cycles| - skip else 0
    decreases |cycles|
  {
    if |cycles| <= skip then []
    else
      var last := cycles[|cycles| - 1];
      Produced(skip, cycles[..|cycles| - 1], p, clock) +
      [SampleOf(clock.NowOrUptime(last.uptimeSecs), Effective(p, last.raw))]
  }

  /** The `j`-th sample produced is the sample of cycle `skip + j`. */
  lemma {:induction false} ProducedAt(skip: nat, cycles: seq<Cycle>, p: Presence, clock: NetTime.TimeState, j: nat)
    requires j < |Produced(skip, cycles, p, clock)|
    ensures Produced(skip, cycles, p, clock)[j] ==
      SampleOf(clock.NowOrUptime(cycles[skip + j].uptimeSecs), Effective(p, cycles[skip + j].raw))
    decreases |cycles|
  {
    var n := |cycles| - 1;
    if skip + j < n {
      ProducedAt(skip, cycles[..n], p, clock, j);
    }
  }

  /** The warm-up: a task that starts with its full skip count queues nothing in its first ten cycles, and sleeps 3 s in each. */
  lemma WarmUp(cycles: seq<Cycle>, p: Presence, clock: NetTime.TimeState)
    requires |cycles| <= WARM_UP_CYCLES
    ensures Produced(WARM_UP_CYCLES, cycles, p, clock) == []
    ensures forall i :: 0 <= i < |cycles| ==> Sleeps(WARM_UP_CYCLES, cycles)[i] == WARM_UP_SLEEP_MS
  {
  }

  /** After the warm-up, every cycle produces exactly one sample and sleeps out the rest of its minute. */
  lemma AfterWarmUp(cycles: seq<Cycle>, p: Presence, clock: NetTime.TimeState, k: nat)
    requires InPeriod(WARM_UP_CYCLES, cycles) && WARM_UP_CYCLES <= k < |cycles|
    ensures Produced(WARM_UP_CYCLES, cycles, p, clock)[k - WARM_UP_CYCLES] ==
      SampleOf(clock.NowOrUptime(cycles[k].uptimeSecs), Effective(p, cycles[k].raw))
    ensures Sleeps(WARM_UP_CYCLES, cycles)[k] + cycles[k].elapsedMs == PERIOD_MS
  {
    ProducedAt(WARM_UP_CYCLES, cycles, p, clock, k - WARM_UP_CYCLES);
  }

  lemma SleepsSnoc(skip: nat, cycles: seq<Cycle>, c: Cycle)
    requires InPeriod(skip, cycles + [c])
    ensures InPeriod(skip, cycles)
    ensures Sleeps(skip, cycles + [c]) ==
      Sleeps(skip, cycles) + [if |cycles| < skip then WARM_UP_SLEEP_MS else PERIOD_MS - c.elapsedMs]
  {
    assert forall i :: 0 <= i < |cycles| ==> cycles[i] == (cycles + [c])[i];
  }

  lemma ProducedSnoc(skip: nat, cycles: seq<Cycle>, c: Cycle, p: Presence, clock: NetTime.TimeState)
    ensures Produced(skip, cycles + [c], p, clock) ==
      if |cycles| < skip then Produced(skip, cycles, p, clock)
      else Produced(skip, cycles, p, clock) + [SampleOf(clock.NowOrUptime(c.uptimeSecs), Effective(p, c.raw))]
  {
    assert (cycles + [c])[..|cycles|] == cycles;
  }

  /** The run's sleeps and samples grow by those of cycle `i`. */
  lemma PrefixSnoc(skip: nat, cycles: seq<Cycle>, i: nat, p: Presence, clock: NetTime.TimeState)
    requires InPeriod(skip, cycles) && i < |cycles|
    ensures InPeriod(skip, cycles[..i]) && InPeriod(skip, cycles[..i + 1])
    ensures Sleeps(skip, cycles[..i + 1]) ==
      Sleeps(skip, cycles[..i]) + [if i < skip then WARM_UP_SLEEP_MS else PERIOD_MS - cycles[i].elapsedMs]
    ensures Produced(skip, cycles[..i + 1], p, clock) ==
      if i < skip then Produced(skip, cycles[..i], p, clock)
      else Produced(skip, cycles[..i], p, clock) + [SampleOf(clock.NowOrUptime(cycles[i].uptimeSecs), Effective(p, cycles[i].raw))]
  {
    assert cycles[..i + 1] == cycles[..i] + [cycles[i]];
    SleepsSnoc(skip, cycles[..i], cycles[i]);
    ProducedSnoc(skip, cycles[..i], cycles[i], p, clock);
  }

  /**
   * The state after the step on cycle `i`, given the state after the first
   * `i` cycles of a run, is the state after its first `i + 1` cycles.
   */
  lemma StepExtendsRun(skip0: nat, sleeps0: seq<nat>, items0: seq<Sample>, capacity: nat, cycles: seq<Cycle>, i: nat,
                       p: Presence, clock: NetTime.TimeState,
                       before: (nat, seq<nat>, seq<Sample>), after: (nat, seq<nat>, seq<Sample>))
    requires InPeriod(skip0, cycles) && i < |cycles|
    requires before.0 == skip0 - Min(skip0, i)
    requires before.1 == sleeps0 + Sleeps(skip0, cycles[..i])
    requires before.2 == Sync.OfferAll(items0, capacity, Produced(skip0, cycles[..i], p, clock))
    requires before.0 > 0 ==>
      after.0 == before.0 - 1 && after.2 == before.2 && after.1 == before.1 + [WARM_UP_SLEEP_MS]
    requires before.0 == 0 ==>
      after.0 == 0 && after.1 == before.1 + [PERIOD_MS - cycles[i].elapsedMs] &&
      after.2 == Sync.Offer(before.2, capacity, SampleOf(clock.NowOrUptime(cycles[i].uptimeSecs), Effective(p, cycles[i].raw)))
    ensures after.0 == skip0 - Min(skip0, i + 1)
    ensures after.1 == sleeps0 + Sleeps(skip0, cycles[..i + 1])
    ensures after.2 == Sync.OfferAll(items0, capacity, Produced(skip0, cycles[..i + 1], p, clock))
  {
    PrefixSnoc(skip0, cycles, i, p, clock);
    if i >= skip0 {
      Sync.OfferAllSnoc(items0, capacity, Produced(skip0, cycles[..i], p, clock),
                        SampleOf(clock.NowOrUptime(cycles[i].uptimeSecs), Effective(p, cycles[i].raw)));
    }
  }

  /** The task's state: the skip counter, the sensors it found, and what it shares with the other tasks. */
  class Task {
    var skip: nat
    const present: Presence
    const queue: Sync.Fifo<Sample>
    const hasData: Sync.Signal
    const clock: NetTime.TimeState
    /** The sleeps the task has asked for, in milliseconds. */
    var sleeps: seq<nat>

    ghost predicate Valid()
      reads this, queue
    {
      skip <= WARM_UP_CYCLES && queue.Valid()
    }

    /** The start of `task`: the probes, then a skip count of 10. */
    constructor (bus: Bus, queue: Sync.Fifo<Sample>, hasData: Sync.Signal, clock: NetTime.TimeState)
      requires queue.Valid()
      ensures Valid()
      ensures skip == WARM_UP_CYCLES && sleeps == []
      ensures this.queue == queue && this.hasData == hasData && this.clock == clock
      ensures present.sht40 == FirstOf(SHT40_ADDRESSES, bus.sht40Serial)
      ensures present.bmp390 == FirstOf(BMP390_ADDRESSES, bus.bmp390Init)
      ensures present.veml7700 <==> VEML7700_ADDRESS in bus.answering && bus.veml7700SetUp
      ensures present.bme680 <==> BME680_ADDRESS in bus.answering && bus.bme680SetUp
      ensures present.bh1750 <==> BH1750_ADDRESS in bus.answering
    {
      var p := Probe(bus);
      present := p;
      this.queue := queue;
      this.hasData := hasData;
      this.clock := clock;
      skip := WARM_UP_CYCLES;
      sleeps := [];
    }

    /**
     * One pass of the loop. A warm-up pass reads the sensors, counts down
     * and sleeps 3 s. Any other pass builds the sample, offers it to the
     * queue (a full queue drops it, and the entries already queued stay),
     * raises `HAS_DATA` whether or not the sample was taken, and sleeps
     * 60 s minus the time the pass took.
     */
    method Step(c: Cycle)
      requires Valid()
      requires skip == 0 ==> c.elapsedMs <= PERIOD_MS
      modifies this, queue, hasData
      ensures Valid()
      ensures old(skip) > 0 ==>
        skip == old(skip) - 1 && queue.items == old(queue.items) &&
        hasData.raised == old(hasData.raised) && sleeps == old(sleeps) + [WARM_UP_SLEEP_MS]
      ensures old(skip) == 0 ==>
        skip == 0 && hasData.raised && sleeps == old(sleeps) + [PERIOD_MS - c.elapsedMs] &&
        queue.items == Sync.Offer(old(queue.items), queue.capacity,
                                  SampleOf(clock.NowOrUptime(c.uptimeSecs), Effective(present, c.raw)))
    {
      var readings := Effective(present, c.raw);
      if skip > 0 {
        skip := skip - 1;
        sleeps := sleeps + [WARM_UP_SLEEP_MS];
        return;
      }
      var timestamp := clock.NowOrUptime(c.uptimeSecs);
      var sample := Assemble(timestamp, readings);
      var _ := queue.Enqueue(sample);
      hasData.Raise();
      sleeps := sleeps + [PERIOD_MS - c.elapsedMs];
    }

    /**
     * The loop over a run of cycles: it asks for exactly the sleeps `Sleeps`
     * gives and offers the queue exactly the samples `Produced` gives, in order.
     */
    method Run(cycles: seq<Cycle>)
      requires Valid()
      requires InPeriod(skip, cycles)
      modifies this, queue, hasData
      ensures Valid()
      ensures skip == old(skip) - Min(old(skip), |cycles|)
      ensures sleeps == old(sleeps) + Sleeps(old(skip), cycles)
      ensures queue.items == Sync.OfferAll(old(queue.items), queue.capacity, Produced(old(skip), cycles, present, clock))
    {
      ghost var skip0 := skip;
      ghost var sleeps0 := sleeps;
      ghost var items0 := queue.items;
      var i := 0;
      while i < |cycles|
        invariant 0 <= i <= |cycles|
        invariant Valid()
        invariant skip == skip0 - Min(skip0, i)
        invariant sleeps == sleeps0 + Sleeps(skip0, cycles[..i])
        invariant queue.items == Sync.OfferAll(items0, queue.capacity, Produced(skip0, cycles[..i], present, clock))
      {
        RunStep(skip0, sleeps0, items0, cycles, i);
        i := i + 1;
      }
      assert cycles[..i] == cycles;
    }
    /** One turn of `Run`'s loop: the step on cycle `i` extends the run's sleeps and offers by that cycle's. */
    method RunStep(ghost skip0: nat, ghost sleeps0: seq<nat>, ghost items0: seq<Sample>, cycles: seq<Cycle>, i: nat)
      requires Valid()
      requires InPeriod(skip0, cycles) && i < |cycles|
      requires skip == skip0 - Min(skip0, i)
      requires sleeps == sleeps0 + Sleeps(skip0, cycles[..i])
      requires queue.items == Sync.OfferAll(items0, queue.capacity, Produced(skip0, cycles[..i], present, clock))
      modifies this, queue, hasData
      ensures Valid()
      ensures skip == skip0 - Min(skip0, i + 1)
      ensures sleeps == sleeps0 + Sleeps(skip0, cycles[..i + 1])
      ensures queue.items == Sync.OfferAll(items0, queue.capacity, Produced(skip0, cycles[..i + 1], present, clock))
    {
      ghost var before := (skip, sleeps, queue.items);
      Step(cycles[i]);
      StepExtendsRun(skip0, sleeps0, items0, queue.capacity, cycles, i, present, clock, before, (skip, sleeps, queue.items));
    }
  }
}
