/**
 * The acquisition task of the first firmware generation: one BME680 and one
 * BH1750 on the bus, a `Sample` with six plain fields, ten warm-up cycles,
 * then one sample per minute offered to the bounded queue and announced
 * with `HAS_DATA`.
 *
 * Every sensor call of this task ends in `unwrap`, so a failed read stops
 * the firmware instead of producing a value: a cycle therefore brings plain
 * readings, with no error case, and the model covers the runs in which
 * every read succeeds.
 */
module LegacySensors {
  import opened Common
  import Sync
  import Sensors
  import AirQuality

  /** The legacy `Sample`: every field always set. */
  datatype Sample = Sample(
    temperature: real,
    pressure: real,
    humidity: real,
    gasOhm: u32,
    lux: real,
    aiqScore: u32)

  /** The sample one cycle's readings give. */
  function SampleOf(data: Sensors.Bme680Data, lux: real): Sample {
    Sample(data.temperature, data.pressure, data.humidity, data.gasOhm, lux,
           AirQuality.Calculate(data.humidity, data.gasOhm).0)
  }

  /**
   * Each field comes from its own reading, and the score is the first half
   * of `calculate(humidity, gas_ohm)`; on the physical humidity range it is
   * at most 141 and its category is Good or Moderate.
   */
  lemma SampleFields(data: Sensors.Bme680Data, lux: real)
    ensures var s := SampleOf(data, lux);
      s.temperature == data.temperature && s.pressure == data.pressure &&
      s.humidity == data.humidity && s.gasOhm == data.gasOhm && s.lux == lux &&
      s.aiqScore == AirQuality.Calculate(data.humidity, data.gasOhm).0
    ensures 0.0 <= data.humidity <= 100.0 ==>
      SampleOf(data, lux).aiqScore <= 141 &&
      AirQuality.AiqFromScore(SampleOf(data, lux).aiqScore) in {AirQuality.Good, AirQuality.Moderate}
  {
    if 0.0 <= data.humidity <= 100.0 {
      AirQuality.CalculateOnRange(data.humidity, data.gasOhm);
    }
  }

  /** Warm-up cycles before the first sample is queued (`skip: u8 = 10`). */
  const WARM_UP_CYCLES: nat := 10
  /** The sleep of a warm-up cycle, in milliseconds. */
  const WARM_UP_SLEEP_MS: nat := 3_000
  /** The measurement period, in milliseconds. */
  const PERIOD_MS: nat := 60_000

  /** One pass of the loop: the BME680 data, the lux value, and how long the pass took. */
  datatype Cycle = Cycle(data: Sensors.Bme680Data, lux: real, elapsedMs: nat)

  /**
   * Every cycle after the `skip` warm-up cycles finishes within the period,
   * so the subtraction of its delay does not underflow. A warm-up cycle sleeps
   * a fixed 3 s and may take any time.
   */
  predicate InPeriod(skip: nat, cycles: seq<Cycle>) {
    forall i :: skip <= i < |cycles| ==> cycles[i].elapsedMs <= PERIOD_MS
  }

  /** The sleeps of `cycles` entered with `skip` warm-up cycles still to go. */
  function Sleeps(skip: nat, cycles: seq<Cycle>): (r: seq<nat>)
    requires InPeriod(skip, cycles)
    ensures |r| == |cycles|
    ensures forall i :: 0 <= i < |cycles| ==>
      r[i] == if i < skip then WARM_UP_SLEEP_MS else PERIOD_MS - cycles[i].elapsedMs
  {
    seq(|cycles|, i requires 0 <= i < |cycles| =>
      if i < skip then WARM_UP_SLEEP_MS else PERIOD_MS - cycles[i].elapsedMs)
  }

  /** The samples `cycles` produce, entered with `skip` warm-up cycles to go. */
  function Produced(skip: nat, cycles: seq<Cycle>): (r: seq<Sample>)
    ensures |r| == if skip <= |cycles| then |cycles| - skip else 0
    decreases |cycles|
  {
    if |cycles| <= skip then []
    else
      var last := cycles[|cycles| - 1];
      Produced(skip, cycles[..|cycles| - 1]) + [SampleOf(last.data, last.lux)]
  }

  /** The `j`-th sample produced is the sample of cycle `skip + j`. */
  lemma {:induction false} ProducedAt(skip: nat, cycles: seq<Cycle>, j: nat)
    requires j < |Produced(skip, cycles)|
    ensures Produced(skip, cycles)[j] == SampleOf(cycles[skip + j].data, cycles[skip + j].lux)
    decreases |cycles|
  {
    var n := |cycles| - 1;
    if skip + j < n {
      ProducedAt(skip, cycles[..n], j);
    }
  }

  /** The first ten cycles of a fresh task queue nothing and sleep 3 s each. */
  lemma WarmUp(cycles: seq<Cycle>)
    requires |cycles| <= WARM_UP_CYCLES
    ensures Produced(WARM_UP_CYCLES, cycles) == []
    ensures forall i :: 0 <= i < |cycles| ==> Sleeps(WARM_UP_CYCLES, cycles)[i] == WARM_UP_SLEEP_MS
  {
  }

  /** Cycle `k` after the warm-up produces the `k - 10`-th sample and sleeps out the rest of its minute. */
  lemma AfterWarmUp(cycles: seq<Cycle>, k: nat)
    requires InPeriod(WARM_UP_CYCLES, cycles) && WARM_UP_CYCLES <= k < |cycles|
    ensures Produced(WARM_UP_CYCLES, cycles)[k - WARM_UP_CYCLES] == SampleOf(cycles[k].data, cycles[k].lux)
    ensures Sleeps(WARM_UP_CYCLES, cycles)[k] + cycles[k].elapsedMs == PERIOD_MS
  {
    ProducedAt(WARM_UP_CYCLES, cycles, k - WARM_UP_CYCLES);
  }

  lemma SleepsSnoc(skip: nat, cycles: seq<Cycle>, c: Cycle)
    requires InPeriod(skip, cycles + [c])
    ensures InPeriod(skip, cycles)
    ensures Sleeps(skip, cycles + [c]) ==
      Sleeps(skip, cycles) + [if |cycles| < skip then WARM_UP_SLEEP_MS else PERIOD_MS - c.elapsedMs]
  {
    assert forall i :: 0 <= i < |cycles| ==> cycles[i] == (cycles + [c])[i];
  }

  lemma ProducedSnoc(skip: nat, cycles: seq<Cycle>, c: Cycle)
    ensures Produced(skip, cycles + [c]) ==
      if |cycles| < skip then Produced(skip, cycles) else Produced(skip, cycles) + [SampleOf(c.data, c.lux)]
  {
    assert (cycles + [c])[..|cycles|] == cycles;
  }

  /** The run's sleeps and samples grow by those of cycle `i`. */
  lemma PrefixSnoc(skip: nat, cycles: seq<Cycle>, i: nat)
    requires InPeriod(skip, cycles) && i < |cycles|
    ensures InPeriod(skip, cycles[..i]) && InPeriod(skip, cycles[..i + 1])
    ensures Sleeps(skip, cycles[..i + 1]) ==
      Sleeps(skip, cycles[..i]) + [if i < skip then WARM_UP_SLEEP_MS else PERIOD_MS - cycles[i].elapsedMs]
    ensures Produced(skip, cycles[..i + 1]) ==
      if i < skip then Produced(skip, cycles[..i]) else Produced(skip, cycles[..i]) + [SampleOf(cycles[i].data, cycles[i].lux)]
  {
    assert cycles[..i + 1] == cycles[..i] + [cycles[i]];
    SleepsSnoc(skip, cycles[..i], cycles[i]);
    ProducedSnoc(skip, cycles[..i], cycles[i]);
  }

  /**
   * The state after the step on cycle `i`, given the state after the first
   * `i` cycles of a run, is the state after its first `i + 1` cycles.
   */
  lemma StepExtendsRun(skip0: nat, sleeps0: seq<nat>, items0: seq<Sample>, capacity: nat, cycles: seq<Cycle>, i: nat,
                       before: (nat, seq<nat>, seq<Sample>), after: (nat, seq<nat>, seq<Sample>))
    requires InPeriod(skip0, cycles) && i < |cycles|
    requires before.0 == skip0 - Min(skip0, i)
    requires before.1 == sleeps0 + Sleeps(skip0, cycles[..i])
    requires before.2 == Sync.OfferAll(items0, capacity, Produced(skip0, cycles[..i]))
    requires before.0 > 0 ==>
      after.0 == before.0 - 1 && after.2 == before.2 && after.1 == before.1 + [WARM_UP_SLEEP_MS]
    requires before.0 == 0 ==>
      after.0 == 0 && after.1 == before.1 + [PERIOD_MS - cycles[i].elapsedMs] &&
      after.2 == Sync.Offer(before.2, capacity, SampleOf(cycles[i].data, cycles[i].lux))
    ensures after.0 == skip0 - Min(skip0, i + 1)
    ensures after.1 == sleeps0 + Sleeps(skip0, cycles[..i + 1])
    ensures after.2 == Sync.OfferAll(items0, capacity, Produced(skip0, cycles[..i + 1]))
  {
    PrefixSnoc(skip0, cycles, i);
    if i >= skip0 {
      Sync.OfferAllSnoc(items0, capacity, Produced(skip0, cycles[..i]), SampleOf(cycles[i].data, cycles[i].lux));
    }
  }

  /** The task's state: the skip counter, the queue and signal it shares, and the sleeps it has asked for. */
  class Task {
    var skip: nat
    const queue: Sync.Fifo<Sample>
    const hasData: Sync.Signal
    /** The sleeps the task has asked for, in milliseconds. */
    var sleeps: seq<nat>

    ghost predicate Valid()
      reads this, queue
    {
      skip <= WARM_UP_CYCLES && queue.Valid()
    }

    /** The state entering the loop, once the sensors are set up. */
    constructor (queue: Sync.Fifo<Sample>, hasData: Sync.Signal)
      requires queue.Valid()
      ensures Valid()
      ensures skip == WARM_UP_CYCLES && sleeps == []
      ensures this.queue == queue && this.hasData == hasData
    {
      this.queue := queue;
      this.hasData := hasData;
      skip := WARM_UP_CYCLES;
      sleeps := [];
    }

    /**
     * One pass of the loop. A warm-up pass counts down and sleeps 3 s. Any
     * other pass offers its sample to the queue (a full queue drops it and
     * keeps what it holds), raises `HAS_DATA` either way and sleeps 60 s
     * minus the time the pass took.
     */
    method Step(c: Cycle)
      requires Valid()
      requires skip == 0 ==> c.elapsedMs <= PERIOD_MS
      modifies this, queue, hasData
      ensures Valid()
      ensures old(skip) > 0 ==>
        skip == old(skip) - 1 && queue.items == old(queue.items) &&
        hasData.raised == old(hasData.raised) && sleeps == old(sleeps) + [WARM_UP_SLEEP_MS]
      ensures old(skip) == 0 ==>
        skip == 0 && hasData.raised && sleeps == old(sleeps) + [PERIOD_MS - c.elapsedMs] &&
        queue.items == Sync.Offer(old(queue.items), queue.capacity, SampleOf(c.data, c.lux))
    {
      if skip > 0 {
        skip := skip - 1;
        sleeps := sleeps + [WARM_UP_SLEEP_MS];
        return;
      }
      var (aiqScore, _) := AirQuality.Calculate(c.data.humidity, c.data.gasOhm);
      var sample := Sample(c.data.temperature, c.data.pressure, c.data.humidity, c.data.gasOhm, c.lux, aiqScore);
      var _ := queue.Enqueue(sample);
      hasData.Raise();
      sleeps := sleeps + [PERIOD_MS - c.elapsedMs];
    }

    /** The loop over a run of cycles: exactly the sleeps `Sleeps` gives, and the queue offered exactly `Produced`, in order. */
    method Run(cycles: seq<Cycle>)
      requires Valid()
      requires InPeriod(skip, cycles)
      modifies this, queue, hasData
      ensures Valid()
      ensures skip == old(skip) - Min(old(skip), |cycles|)
      ensures sleeps == old(sleeps) + Sleeps(old(skip), cycles)
      ensures queue.items == Sync.OfferAll(old(queue.items), queue.capacity, Produced(old(skip), cycles))
    {
      ghost var skip0 := skip;
      ghost var sleeps0 := sleeps;
      ghost var items0 := queue.items;
      var i := 0;
      while i < |cycles|
        invariant 0 <= i <= |cycles|
        invariant Valid()
        invariant skip == skip0 - Min(skip0, i)
        invariant sleeps == sleeps0 + Sleeps(skip0, cycles[..i])
        invariant queue.items == Sync.OfferAll(items0, queue.capacity, Produced(skip0, cycles[..i]))
      {
        RunStep(skip0, sleeps0, items0, cycles, i);
        i := i + 1;
      }
      assert cycles[..i] == cycles;
    }
    /** One turn of `Run`'s loop: the step on cycle `i` extends the run's sleeps and offers by that cycle's. */
    method RunStep(ghost skip0: nat, ghost sleeps0: seq<nat>, ghost items0: seq<Sample>, cycles: seq<Cycle>, i: nat)
      requires Valid()
      requires InPeriod(skip0, cycles) && i < |cycles|
      requires skip == skip0 - Min(skip0, i)
      requires sleeps == sleeps0 + Sleeps(skip0, cycles[..i])
      requires queue.items == Sync.OfferAll(items0, queue.capacity, Produced(skip0, cycles[..i]))
      modifies this, queue, hasData
      ensures Valid()
      ensures skip == skip0 - Min(skip0, i + 1)
      ensures sleeps == sleeps0 + Sleeps(skip0, cycles[..i + 1])
      ensures queue.items == Sync.OfferAll(items0, queue.capacity, Produced(skip0, cycles[..i + 1]))
    {
      ghost var before := (skip, sleeps, queue.items);
      Step(cycles[i]);
      StepExtendsRun(skip0, sleeps0, items0, queue.capacity, cycles, i, before, (skip, sleeps, queue.items));
    }
  }
}
