/** How many corrupted readings the stability verdict tolerates: the percentile
    window ignores up to (n-1)/20 of them, and so does the median slope. */
module Outliers {
  import opened Arithmetic
  import opened Rationals
  import opened OrderStatistics
  import opened Window

  /** P95 stays at or below v exactly when at most (n-1)/20 weights exceed v. */
  lemma P95AtMost(rs: seq<Reading>, v: int)
    requires Ordered(rs) && rs != []
    ensures SortedWeights(rs)[PercentileIndex(|rs|, 95)] <= v
       <==> 20 * Count(Weights(rs), w => w > v) <= |rs| - 1
  {
    IntOrder();
    PercentilesInRange(|rs|);
    RankOfUpward(Weights(rs), IntLeq, PercentileIndex(|rs|, 95), w => w > v);
  }

  /** P05 stays at or above v exactly when fewer than (n-1)/20 + 1 weights are below v. */
  lemma P05AtLeast(rs: seq<Reading>, v: int)
    requires Ordered(rs) && rs != []
    ensures SortedWeights(rs)[PercentileIndex(|rs|, 5)] >= v
       <==> 20 * Count(Weights(rs), w => w < v) < |rs| - 1 + 20
  {
    IntOrder();
    PercentilesInRange(|rs|);
    RankOfDownward(Weights(rs), IntLeq, PercentileIndex(|rs|, 5), w => w < v);
  }

  /** With at most (n-1)/20 bad readings, at most a fifth of the slopes touch one. */
  lemma FewBadSlopes(rs: seq<Reading>, p: Slope -> bool, bad: set<nat>)
    requires Ordered(rs) && 20 * |bad| <= |rs| - 1
    requires forall l: nat, r: nat | l < r < |rs| && l !in bad && r !in bad :: !p(PairSlope(rs, l, r))
    ensures 5 * Count(Slopes(rs), p) <= |Slopes(rs)|
  {
    var ps, s := AllPairs(|rs|), Slopes(rs);
    var ofPair := (q: IndexPair) => q.left < q.right < |rs| && p(PairSlope(rs, q.left, q.right));
    CountImage(ps, s, ofPair, p);
    CountImplies(ps, ofPair, Touches(bad));
    TouchingBefore(|rs|, |rs|, bad, bad);
    SlopeCount(rs);
    Fifth(|rs|, |bad|, |s|, Count(s, p));
  }

  lemma Fifth(n: int, b: int, m: int, c: int)
    requires n > 0 && 20 * b <= n - 1 && 2 * m == n * (n - 1) && c <= n * b + n * b
    ensures 5 * c <= m
  {
    Scale(n, 20 * b, n - 1);
    Reorder(n, 20, b);
  }

  ghost function Above(limit: int): Slope -> bool {
    (s: Slope) => s.num > s.den * limit
  }

  ghost function Below(limit: int): Slope -> bool {
    (s: Slope) => s.num < -(s.den * limit)
  }

  lemma LimitsAreClosed(limit: int)
    ensures UpwardClosed(Above(limit), SlopeLeq)
    ensures DownwardClosed(Below(limit), SlopeLeq)
  {
    forall a: Slope, b: Slope | SlopeLeq(a, b) && Above(limit)(a)
      ensures Above(limit)(b)
    {
      AboveIsUpward(a, b, limit);
    }
    forall a: Slope, b: Slope | SlopeLeq(a, b) && Below(limit)(b)
      ensures Below(limit)(a)
    {
      BelowIsDownward(a, b, limit);
    }
  }

  /** The slope at position k of the ordered slopes is within the limit exactly when
      few enough slopes are above it and below minus it. */
  lemma WithinLimitAt(rs: seq<Reading>, limit: int, k: nat)
    requires Ordered(rs) && k < |Slopes(rs)|
    ensures AbsLessOrEqual(SortedSlopes(rs)[k], limit)
       <==> Count(Slopes(rs), Above(limit)) < |Slopes(rs)| - k && Count(Slopes(rs), Below(limit)) <= k
  {
    SlopeOrder();
    LimitsAreClosed(limit);
    RankOfUpward(Slopes(rs), SlopeLeq, k, Above(limit));
    RankOfDownward(Slopes(rs), SlopeLeq, k, Below(limit));
  }

  /** The Theil-Sen slope is within the limit although every slope that touches a bad
      reading may be arbitrary. */
  lemma SlopeIgnoresBadReadings(rs: seq<Reading>, limit: int, bad: set<nat>)
    requires Ordered(rs) && |rs| >= 30 && 20 * |bad| <= |rs| - 1
    requires forall l: nat, r: nat | l < r < |rs| && l !in bad && r !in bad ::
      AbsLessOrEqual(PairSlope(rs, l, r), limit)
    ensures AbsLessOrEqual(TheilSenSlope(rs), limit)
  {
    FewBadSlopes(rs, Above(limit), bad);
    FewBadSlopes(rs, Below(limit), bad);
    SlopeCount(rs);
    var m := |Slopes(rs)|;
    assert m >= 30 by {
      Scale(|rs|, 29, |rs| - 1);
    }
    WithinLimitAt(rs, limit, m / 2);
    WithinLimitAt(rs, limit, m / 2 - 1);
    MiddleWithin(SortedSlopes(rs), limit);
  }

  lemma MiddleWithin(s: seq<Slope>, limit: int)
    requires |s| >= 2
    requires AbsLessOrEqual(s[|s| / 2 - 1], limit) && AbsLessOrEqual(s[|s| / 2], limit)
    ensures AbsLessOrEqual(MiddleSlope(s), limit)
  {
    if |s| % 2 == 0 {
      MidpointWithin(s[|s| / 2 - 1], s[|s| / 2], limit);
    }
  }

  /** Outlier-proof stability. Readings outside bad lie in lo..hi and have slopes within
      the limit; at most (n-1)/20 readings, those in bad, weigh anything. The window is
      stable and its percentiles and median are in lo..hi. */
  lemma OutlierProof(cfg: Config, rs: seq<Reading>, bad: set<nat>, lo: int, hi: int)
    requires cfg.Valid() && Ordered(rs) && |rs| >= cfg.minSamples
    requires Sub(rs[|rs| - 1].measuredAt, rs[0].measuredAt) >= cfg.minWindowDuration
    requires 20 * |bad| <= |rs| - 1
    requires forall i: nat | i < |rs| && i !in bad :: lo <= rs[i].weightGrams <= hi
    requires hi - lo <= cfg.absoluteToleranceGrams
    requires (hi - lo) * 10_000 <= lo * cfg.percentToleranceBPS
    requires forall l: nat, r: nat | l < r < |rs| && l !in bad && r !in bad ::
      AbsLessOrEqual(PairSlope(rs, l, r), cfg.maxSlopeGramsPerSecond)
    ensures var st := Evaluate(cfg, rs);
            && st.Some? && st.value.stable
            && lo <= st.value.p05Grams <= st.value.medianGrams <= st.value.p95Grams <= hi
  {
    SlopeIgnoresBadReadings(rs, cfg.maxSlopeGramsPerSecond, bad);
    CountWithin(Weights(rs), w => w > hi, bad);
    CountWithin(Weights(rs), w => w < lo, bad);
    P95AtMost(rs, hi);
    P05AtLeast(rs, lo);
    SortedWeightsArePositive(rs);
    StableSummary(cfg, SortedWeights(rs), TheilSenSlope(rs), lo, hi,
                  Sub(rs[|rs| - 1].measuredAt, rs[0].measuredAt));
  }

  lemma StableSummary(cfg: Config, w: seq<int>, slope: Slope, lo: int, hi: int, duration: int)
    requires cfg.Valid() && |w| >= 30 && SortedBy(w, IntLeq)
    requires forall i :: 0 <= i < |w| ==> 0 < w[i] <= MAX_INT64
    requires w[PercentileIndex(|w|, 5)] >= lo && w[PercentileIndex(|w|, 95)] <= hi
    requires hi - lo <= cfg.absoluteToleranceGrams
    requires (hi - lo) * 10_000 <= lo * cfg.percentToleranceBPS
    requires AbsLessOrEqual(slope, cfg.maxSlopeGramsPerSecond)
    ensures var st := Summary(cfg, duration, w, slope);
            && st.stable
            && lo <= st.p05Grams <= st.medianGrams <= st.p95Grams <= hi
  {
    MedianBetweenPercentiles(w);
    var median := MiddleOf(w);
    if cfg.percentToleranceBPS > 0 {
      Scale(cfg.percentToleranceBPS, lo, median);
    }
  }

  lemma MedianBetweenPercentiles(w: seq<int>)
    requires |w| >= 30 && SortedBy(w, IntLeq)
    requires forall i :: 0 <= i < |w| ==> 0 < w[i] <= MAX_INT64
    ensures w[PercentileIndex(|w|, 5)] <= MiddleOf(w) <= w[PercentileIndex(|w|, 95)]
  {
    var n := |w|;
    var low, high := PercentileIndex(n, 5), PercentileIndex(n, 95);
    assert 0 <= low <= n / 2 - 1 && n / 2 <= high < n;
    assert IntLeq(w[low], w[n / 2 - 1]) && IntLeq(w[n / 2 - 1], w[n / 2]) && IntLeq(w[n / 2], w[high]);
  }
}
