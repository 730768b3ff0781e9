/**
 * The air-quality scorer: a humidity sub-score plus a gas-resistance
 * sub-score, and a six-bucket category of the total.
 *
 * Humidity arrives as an `f32`; it is a real number here, and Rust's
 * `as u32` on a float (truncation toward zero, saturating at 0 and at
 * `u32::MAX`) is written out as `SaturatingU32`.
 */
module AirQuality {
  import opened Common

  datatype AirQuality =
    | Good
    | Moderate
    | UnhealthyForSensitiveGroups
    | Unhealthy
    | VeryUnhealthy
    | Hazardous

  /** The position of a category on the scale: Good is 0, Hazardous is 5. */
  function Rank(q: AirQuality): nat {
    match q
    case Good => 0
    case Moderate => 1
    case UnhealthyForSensitiveGroups => 2
    case Unhealthy => 3
    case VeryUnhealthy => 4
    case Hazardous => 5
  }

  /** The bucket edges, in increasing order. */
  const EDGES: seq<int> := [50, 150, 175, 200, 300]

  /** How many of `edges` the score has reached. */
  function EdgesReached(score: int, edges: seq<int>): nat
    decreases |edges|
  {
    if edges == [] then 0
    else (if edges[0] <= score then 1 else 0) + EdgesReached(score, edges[1..])
  }

  /**
   * The category is the bucket the score falls in: its rank is the number of
   * edges at or below the score, so every score has a category and the
   * category never improves as the score grows.
   */
  function AiqFromScore(score: u32): (q: AirQuality)
    ensures Rank(q) == EdgesReached(score, EDGES)
  {
    if score < 50 then Good
    else if score < 150 then Moderate
    else if score < 175 then UnhealthyForSensitiveGroups
    else if score < 200 then Unhealthy
    else if score < 300 then VeryUnhealthy
    else Hazardous
  }

  lemma {:induction false} EdgesReachedMonotone(s: int, t: int, edges: seq<int>)
    requires s <= t
    ensures EdgesReached(s, edges) <= EdgesReached(t, edges)
    decreases |edges|
  {
    if edges != [] {
      EdgesReachedMonotone(s, t, edges[1..]);
    }
  }

  /** A higher score never gets a better category. */
  lemma AiqMonotone(s: u32, t: u32)
    requires s <= t
    ensures Rank(AiqFromScore(s)) <= Rank(AiqFromScore(t))
  {
    EdgesReachedMonotone(s, t, EDGES);
  }

  /** Rust's `as u32` on a float. */
  function SaturatingU32(x: real): (r: u32)
    ensures 0.0 <= x < U32_LIMIT as real ==> r == x.Floor
    ensures x < 0.0 ==> r == 0
  {
    if x < 0.0 then 0 else if x >= U32_LIMIT as real then U32_MAX else x.Floor
  }

  const HUM_REF: real := 40.0

  /**
   * The humidity sub-score. `as u32` binds tighter than `*`, so the ratio is
   * truncated before it is scaled. Negative humidity falls to the last arm,
   * where the negative ratio saturates to 0 and the score is 41.
   */
  function HumScore(humidity: real): (r: u32)
    ensures humidity < 0.0 ==> r == 41
  {
    if 0.0 <= humidity < 38.0 then Wrap32(25 * SaturatingU32(humidity / HUM_REF))
    else if 38.0 <= humidity <= 42.0 then 25
    else Wrap32(41 + Wrap32(25 * SaturatingU32(humidity / (100.0 - HUM_REF))))
  }

  const GAS_LOWER_LIMIT: int := 5000
  const GAS_UPPER_LIMIT: int := 50000
  const GAS_LIMITS_DIFF: int := GAS_UPPER_LIMIT - GAS_LOWER_LIMIT

  /** The reference resistance: one of three fixed values, never below the lower limit. */
  function GasRef(gas: u32): (r: u32)
    ensures r == 5000 || r == 25000 || r == 50000
    ensures gas < GAS_LOWER_LIMIT <==> r == 5000
    ensures GAS_LOWER_LIMIT <= gas < GAS_UPPER_LIMIT <==> r == 25000
  {
    if gas < GAS_LOWER_LIMIT then GAS_LOWER_LIMIT
    else if gas < GAS_UPPER_LIMIT then GAS_UPPER_LIMIT / 2
    else GAS_UPPER_LIMIT
  }

  /** The gas sub-score; `gas_ref - GAS_LOWER_LIMIT` cannot underflow. */
  function GasScore(gas: u32): (r: u32)
    ensures r == 0 || r == 33 || r == 75
    ensures gas < GAS_LOWER_LIMIT <==> r == 0
    ensures gas >= GAS_UPPER_LIMIT <==> r == 75
  {
    var diff := GasRef(gas) - GAS_LOWER_LIMIT;
    assert diff >= 0;
    75 * diff / GAS_LIMITS_DIFF
  }

  /** `calculate`: the total score and its category. */
  function Calculate(humidity: real, gas: u32): (r: (u32, AirQuality))
    ensures r.1 == AiqFromScore(r.0)
  {
    var score := Wrap32(HumScore(humidity) + GasScore(gas));
    (score, AiqFromScore(score))
  }

  lemma FloorBelowOne(x: real)
    requires 0.0 <= x < 1.0
    ensures x.Floor == 0
  {
  }

  lemma FloorOne(x: real)
    requires 1.0 <= x < 2.0
    ensures x.Floor == 1
  {
  }

  /**
   * The humidity sub-score on the physical range: 0 below the band (the
   * truncation makes the intended ramp flat), 25 in [38, 42], 41 on (42, 60)
   * and 66 on [60, 100].
   */
  lemma HumScoreOnRange(humidity: real)
    requires 0.0 <= humidity <= 100.0
    ensures humidity < 38.0 ==> HumScore(humidity) == 0
    ensures 38.0 <= humidity <= 42.0 ==> HumScore(humidity) == 25
    ensures 42.0 < humidity < 60.0 ==> HumScore(humidity) == 41
    ensures 60.0 <= humidity ==> HumScore(humidity) == 66
  {
    if humidity < 38.0 {
      FloorBelowOne(humidity / HUM_REF);
    } else if 42.0 < humidity < 60.0 {
      FloorBelowOne(humidity / 60.0);
    } else if 60.0 <= humidity {
      FloorOne(humidity / 60.0);
    }
  }

  /**
   * For any humidity in [0, 100] and any resistance the score is at most
   * 141, the sum of the sub-scores, and the category is Good or Moderate.
   */
  lemma CalculateOnRange(humidity: real, gas: u32)
    requires 0.0 <= humidity <= 100.0
    ensures var (score, q) := Calculate(humidity, gas);
      score == HumScore(humidity) + GasScore(gas) &&
      score <= 141 &&
      (q == Good || q == Moderate)
  {
    HumScoreOnRange(humidity);
  }
}
