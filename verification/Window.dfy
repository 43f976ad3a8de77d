/** One window of scale readings: its exact statistics and the stability verdict
    (Manager.evaluate, percentileIndex, percentWithin, theilSenSlope). */
module Window {
  import opened Arithmetic
  import opened Rationals
  import opened OrderStatistics

  datatype Option<+T> = None | Some(value: T)

  /** Nanoseconds; 0 is Go's zero time. */
  type Time = int

  const SECOND: int := 1_000_000_000
  const DEFAULT_ALGORITHM_VERSION := "t04-v1"

  datatype Reading = Reading(scaleID: string, plate: string, weightGrams: int64, measuredAt: Time)

  datatype Config = Config(
    windowCapacity: int,
    maxSessions: int,
    minSamples: int,
    minWindowDuration: int64,
    absoluteToleranceGrams: int64,
    percentToleranceBPS: int64,
    maxSlopeGramsPerSecond: int64,
    lowWeightThresholdGrams: int64,
    inactivityTimeout: int64,
    algorithmVersion: string)
  {
    /** Config.validate. */
    predicate Valid() {
      && windowCapacity >= 30 && minSamples >= 30 && windowCapacity >= minSamples
      && minWindowDuration >= 3 * SECOND
      && maxSessions >= 1 && absoluteToleranceGrams >= 0 && percentToleranceBPS >= 0
      && maxSlopeGramsPerSecond >= 0 && lowWeightThresholdGrams >= 0 && inactivityTimeout > 0
    }
  }

  datatype WindowStats = WindowStats(
    sampleCount: int,
    duration: int,
    medianGrams: int,
    p05Grams: int,
    p95Grams: int,
    dispersionGrams: int,
    slope: Rational,
    stable: bool)

  /** time.Time.Sub: the difference, saturated to the range of a Duration. */
  function Sub(later: Time, earlier: Time): (d: int64)
    ensures later > earlier ==> d > 0
    ensures later <= earlier ==> d <= 0
    ensures MIN_INT64 <= later - earlier <= MAX_INT64 ==> d == later - earlier
    ensures later - earlier > MAX_INT64 ==> d == MAX_INT64
    ensures later - earlier < MIN_INT64 ==> d == MIN_INT64
  {
    var d := later - earlier;
    if d > MAX_INT64 then MAX_INT64 else if d < MIN_INT64 then MIN_INT64 else d
  }

  /** Positive weights at strictly increasing times: what Add keeps of every window. */
  ghost predicate Ordered(rs: seq<Reading>) {
    && (forall i :: 0 <= i < |rs| ==> rs[i].weightGrams > 0)
    && (forall i, j :: 0 <= i < j < |rs| ==> rs[i].measuredAt < rs[j].measuredAt)
  }

  predicate IntLeq(a: int, b: int) {
    a <= b
  }

  predicate SlopeLeq(a: Slope, b: Slope) {
    Leq(a, b)
  }

  lemma IntOrder()
    ensures TotalOrder(IntLeq)
  {
  }

  /** Cross multiplication totally orders the canonical slopes. */
  lemma SlopeOrder()
    ensures TotalOrder(SlopeLeq)
  {
    forall a: Slope, b: Slope, c: Slope | SlopeLeq(a, b) && SlopeLeq(b, c)
      ensures SlopeLeq(a, c)
    {
      LeqTransitive(a, b, c);
    }
    forall a: Slope, b: Slope | SlopeLeq(a, b) && SlopeLeq(b, a)
      ensures a == b
    {
      CanonicalIsUnique(a, b);
    }
  }

  function Weights(rs: seq<Reading>): (w: seq<int>)
    ensures |w| == |rs| && forall i :: 0 <= i < |rs| ==> w[i] == rs[i].weightGrams
  {
    seq(|rs|, i requires 0 <= i < |rs| => rs[i].weightGrams)
  }

  ghost function SortedWeights(rs: seq<Reading>): (w: seq<int>)
    ensures |w| == |rs|
  {
    IntOrder();
    Sorted(Weights(rs), IntLeq)
  }

  /** Nearest-rank ceiling of percentile * (length - 1) / 100. */
  function PercentileIndex(length: int, percentile: int): int
  {
    (percentile * (length - 1) + 99) / 100
  }

  predicate PercentWithin(dispersion: int, median: int, basisPoints: int) {
    dispersion * 10_000 <= median * basisPoints
  }

  /** The median as evaluate computes it from ordered positive weights; the int64
      locals are checked not to wrap around. */
  function MiddleOf(weights: seq<int>): (median: int64)
    requires weights != [] && SortedBy(weights, IntLeq)
    requires forall i :: 0 <= i < |weights| ==> 0 < weights[i] <= MAX_INT64
  {
    var n := |weights|;
    if n % 2 == 0 then
      assert IntLeq(weights[n / 2 - 1], weights[n / 2]);
      var spread: int64 := weights[n / 2] - weights[n / 2 - 1];
      weights[n / 2 - 1] + spread / 2
    else
      weights[n / 2]
  }

  /** The slope between two readings, in grams per second. */
  function PairSlope(rs: seq<Reading>, left: nat, right: nat): Slope
    requires left < right < |rs| && rs[left].measuredAt < rs[right].measuredAt
    requires rs[left].weightGrams > 0 && rs[right].weightGrams > 0
  {
    var difference: int64 := rs[right].weightGrams - rs[left].weightGrams;
    NewRational(difference * SECOND, Sub(rs[right].measuredAt, rs[left].measuredAt))
  }

  ghost predicate PairsOf(n: nat, ps: seq<IndexPair>) {
    forall i :: 0 <= i < |ps| ==> ps[i].left < ps[i].right < n
  }

  /** The slopes of the listed pairs of readings. */
  ghost function SlopesOf(rs: seq<Reading>, ps: seq<IndexPair>): (s: seq<Slope>)
    requires Ordered(rs) && PairsOf(|rs|, ps)
    ensures |s| == |ps|
  {
    seq(|ps|, i requires 0 <= i < |ps| => PairSlope(rs, ps[i].left, ps[i].right))
  }

  ghost function Slopes(rs: seq<Reading>): (s: seq<Slope>)
    requires Ordered(rs)
  {
    SlopesOf(rs, AllPairs(|rs|))
  }

  ghost function SortedSlopes(rs: seq<Reading>): (s: seq<Slope>)
    requires Ordered(rs)
    ensures |s| == |Slopes(rs)|
  {
    SlopeOrder();
    Sorted(Slopes(rs), SlopeLeq)
  }

  lemma SlopeCount(rs: seq<Reading>)
    requires Ordered(rs)
    ensures 2 * |Slopes(rs)| == |rs| * (|rs| - 1)
    ensures |rs| >= 2 ==> |Slopes(rs)| > 0
  {
    PairsBeforeLength(|rs|, |rs|);
    if |rs| >= 2 {
      Scale(|rs| - 1, 0, |rs|);
    }
  }

  function MiddleSlope(sorted: seq<Slope>): (r: Slope)
    requires sorted != []
  {
    var middle := |sorted| / 2;
    if |sorted| % 2 == 1 then sorted[middle]
    else Midpoint(sorted[middle - 1], sorted[middle])
  }

  ghost function TheilSenSlope(rs: seq<Reading>): (r: Slope)
    requires Ordered(rs) && |rs| >= 2
  {
    SlopeCount(rs);
    MiddleSlope(SortedSlopes(rs))
  }

  lemma SortedWeightsArePositive(rs: seq<Reading>)
    requires Ordered(rs)
    ensures forall i :: 0 <= i < |rs| ==> 0 < SortedWeights(rs)[i] <= MAX_INT64
    ensures SortedBy(SortedWeights(rs), IntLeq)
  {
    IntOrder();
    var w := SortedWeights(rs);
    forall i | 0 <= i < |rs|
      ensures 0 < w[i] <= MAX_INT64
    {
      assert w[i] in multiset(w);
      assert w[i] in multiset(Weights(rs));
    }
  }

  lemma PercentilesInRange(n: int)
    requires n >= 1
    ensures 0 <= PercentileIndex(n, 5) <= PercentileIndex(n, 95) < n
  {
  }

  /** The verdict on ordered weights and a slope, as evaluate reaches it. */
  function Summary(cfg: Config, duration: int, weights: seq<int>, slope: Slope): WindowStats
    requires weights != [] && SortedBy(weights, IntLeq)
    requires forall i :: 0 <= i < |weights| ==> 0 < weights[i] <= MAX_INT64
  {
    PercentilesInRange(|weights|);
    var median: int64 := MiddleOf(weights);
    var p05: int64 := weights[PercentileIndex(|weights|, 5)];
    var p95: int64 := weights[PercentileIndex(|weights|, 95)];
    var dispersion: int64 := p95 - p05;
    var stable := && dispersion <= cfg.absoluteToleranceGrams
                  && PercentWithin(dispersion, median, cfg.percentToleranceBPS)
                  && AbsLessOrEqual(slope, cfg.maxSlopeGramsPerSecond);
    WindowStats(|weights|, duration, median, p05, p95, dispersion, slope, stable)
  }

  /** Manager.evaluate; None while the window is not ready. */
  ghost function Evaluate(cfg: Config, rs: seq<Reading>): (r: Option<WindowStats>)
    requires cfg.Valid() && Ordered(rs)
  {
    if |rs| < cfg.minSamples then None
    else
      var duration := Sub(rs[|rs| - 1].measuredAt, rs[0].measuredAt);
      if duration < cfg.minWindowDuration then None
      else
        SortedWeightsArePositive(rs);
        Some(Summary(cfg, duration, SortedWeights(rs), TheilSenSlope(rs)))
  }

  /** The inner loop of theilSenSlope. */
  method ComputeSlopesFrom(rs: seq<Reading>, left: nat) returns (slopes: seq<Slope>)
    requires Ordered(rs) && left < |rs|
    ensures slopes == SlopesOf(rs, PairsFrom(left, |rs|))
  {
    slopes := [];
    for right := left + 1 to |rs|
      invariant slopes == SlopesOf(rs, PairsFrom(left, right))
    {
      slopes := slopes + [PairSlope(rs, left, right)];
    }
  }

  lemma SlopesOfConcat(rs: seq<Reading>, ps: seq<IndexPair>, qs: seq<IndexPair>)
    requires Ordered(rs) && PairsOf(|rs|, ps) && PairsOf(|rs|, qs)
    ensures SlopesOf(rs, ps + qs) == SlopesOf(rs, ps) + SlopesOf(rs, qs)
  {
  }

  /** One more row of the nested loops. */
  lemma SlopesOfNextRow(rs: seq<Reading>, left: nat)
    requires Ordered(rs) && left < |rs|
    ensures SlopesOf(rs, PairsBefore(left + 1, |rs|))
         == SlopesOf(rs, PairsBefore(left, |rs|)) + SlopesOf(rs, PairsFrom(left, |rs|))
  {
    SlopesOfConcat(rs, PairsBefore(left, |rs|), PairsFrom(left, |rs|));
  }

  /** The outer loop of theilSenSlope. */
  method ComputeSlopes(rs: seq<Reading>) returns (slopes: seq<Slope>)
    requires Ordered(rs) && |rs| >= 2
    ensures slopes == Slopes(rs)
  {
    slopes := [];
    var left := 0;
    while left < |rs| - 1
      invariant 0 <= left < |rs|
      invariant slopes == SlopesOf(rs, PairsBefore(left, |rs|))
    {
      var row := ComputeSlopesFrom(rs, left);
      SlopesOfNextRow(rs, left);
      slopes := slopes + row;
      left := left + 1;
    }
    SlopesOfNextRow(rs, left);
    assert SlopesOf(rs, PairsFrom(left, |rs|)) == [];
  }

  /** theilSenSlope: the slopes of all pairs, the sort and the middle. */
  method ComputeTheilSenSlope(rs: seq<Reading>) returns (r: Slope)
    requires Ordered(rs) && |rs| >= 2
    ensures r == TheilSenSlope(rs)
  {
    var slopes := ComputeSlopes(rs);
    SlopeCount(rs);
    SlopeOrder();
    var a := new Slope[|slopes|](i requires 0 <= i < |slopes| => slopes[i]);
    assert a[..] == slopes;
    SortSlice(a, SlopeLeq);
    r := MiddleSlope(a[..]);
  }

  /** The weights loop of evaluate. */
  method CollectWeights(rs: seq<Reading>) returns (weights: array<int>)
    ensures fresh(weights) && weights[..] == Weights(rs)
  {
    weights := new int[|rs|];
    for index := 0 to |rs|
      invariant forall i :: 0 <= i < index ==> weights[i] == Weights(rs)[i]
    {
      weights[index] := rs[index].weightGrams;
    }
  }

  /** evaluate: readiness, the weights loop, the sort and the verdict. */
  method ComputeStats(cfg: Config, rs: seq<Reading>) returns (r: Option<WindowStats>)
    requires cfg.Valid() && Ordered(rs)
    ensures r == Evaluate(cfg, rs)
  {
    if |rs| < cfg.minSamples {
      return None;
    }
    var duration := Sub(rs[|rs| - 1].measuredAt, rs[0].measuredAt);
    if duration < cfg.minWindowDuration {
      return None;
    }
    var weights := CollectWeights(rs);
    IntOrder();
    SortSlice(weights, IntLeq);
    SortedWeightsArePositive(rs);
    var slope := ComputeTheilSenSlope(rs);
    r := Some(Summary(cfg, duration, weights[..], slope));
  }
}
