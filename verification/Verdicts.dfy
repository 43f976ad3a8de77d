/** When a window is ready and when it is stable, said with order statistics and
    inequalities only; and what a finalization therefore vouches for. */
module Verdicts {
  import opened Arithmetic
  import opened Rationals
  import opened OrderStatistics
  import opened Window
  import opened Keys
  import opened TheilSen
  import opened Rings
  import opened Sessions
  import opened Runs
  import opened Passages

  /** k is the nearest rank at or above the percent-th part of n - 1, counted from 0. */
  predicate IsRank(percent: int, n: int, k: int) {
    percent * (n - 1) <= 100 * k < percent * (n - 1) + 100
  }

  ghost predicate IsPercentile(rs: seq<Reading>, percent: int, v: int) {
    exists k: int :: IsRank(percent, |rs|, k) && IsOrderStatistic(Weights(rs), IntLeq, k, v)
  }

  /** v is half way between the two middle weights, rounded down. */
  ghost predicate IsMiddleWeight(rs: seq<Reading>, v: int) {
    exists lower: int, upper: int :: AreMiddles(rs, lower, upper) && v == lower + (upper - lower) / 2
  }

  ghost predicate AreMiddles(rs: seq<Reading>, lower: int, upper: int) {
    && IsOrderStatistic(Weights(rs), IntLeq, (|rs| - 1) / 2, lower)
    && IsOrderStatistic(Weights(rs), IntLeq, |rs| / 2, upper)
  }

  ghost predicate IsReady(cfg: Config, rs: seq<Reading>) {
    && |rs| >= cfg.minSamples && |rs| > 0
    && Sub(rs[|rs| - 1].measuredAt, rs[0].measuredAt) >= cfg.minWindowDuration
  }

  /** The three limits of the configuration. */
  predicate WithinLimits(cfg: Config, st: WindowStats) {
    && st.p95Grams - st.p05Grams <= cfg.absoluteToleranceGrams
    && (st.p95Grams - st.p05Grams) * 10_000 <= st.medianGrams * cfg.percentToleranceBPS
    && -(st.slope.den * cfg.maxSlopeGramsPerSecond) <= st.slope.num <= st.slope.den * cfg.maxSlopeGramsPerSecond
  }

  /** st describes the window. */
  ghost predicate IsVerdict(cfg: Config, rs: seq<Reading>, st: WindowStats)
    requires Ordered(rs) && |rs| > 0
  {
    && st.sampleCount == |rs|
    && st.duration == Sub(rs[|rs| - 1].measuredAt, rs[0].measuredAt)
    && IsPercentile(rs, 5, st.p05Grams) && IsPercentile(rs, 95, st.p95Grams)
    && IsMiddleWeight(rs, st.medianGrams)
    && st.dispersionGrams == st.p95Grams - st.p05Grams
    && Canonical(st.slope) && IsMedian(Slopes(rs), st.slope)
    && (st.stable <==> WithinLimits(cfg, st))
  }

  lemma RankIsUnique(percent: int, n: int, j: int, k: int)
    requires IsRank(percent, n, j) && IsRank(percent, n, k)
    ensures j == k
  {
  }

  lemma PercentileIsUnique(rs: seq<Reading>, percent: int, v: int, u: int)
    requires IsPercentile(rs, percent, v) && IsPercentile(rs, percent, u)
    ensures v == u
  {
    var j :| IsRank(percent, |rs|, j) && IsOrderStatistic(Weights(rs), IntLeq, j, v);
    var k :| IsRank(percent, |rs|, k) && IsOrderStatistic(Weights(rs), IntLeq, k, u);
    RankIsUnique(percent, |rs|, j, k);
    IntOrder();
    OrderStatisticIsUnique(Weights(rs), IntLeq, k, v, u);
  }

  lemma MiddleIsUnique(rs: seq<Reading>, v: int, u: int)
    requires IsMiddleWeight(rs, v) && IsMiddleWeight(rs, u)
    ensures v == u
  {
    var l1, u1 :| AreMiddles(rs, l1, u1) && v == l1 + (u1 - l1) / 2;
    var l2, u2 :| AreMiddles(rs, l2, u2) && u == l2 + (u2 - l2) / 2;
    IntOrder();
    OrderStatisticIsUnique(Weights(rs), IntLeq, (|rs| - 1) / 2, l1, l2);
    OrderStatisticIsUnique(Weights(rs), IntLeq, |rs| / 2, u1, u2);
  }

  lemma VerdictIsUnique(cfg: Config, rs: seq<Reading>, a: WindowStats, b: WindowStats)
    requires Ordered(rs) && |rs| > 0 && IsVerdict(cfg, rs, a) && IsVerdict(cfg, rs, b)
    ensures a == b
  {
    PercentileIsUnique(rs, 5, a.p05Grams, b.p05Grams);
    PercentileIsUnique(rs, 95, a.p95Grams, b.p95Grams);
    MiddleIsUnique(rs, a.medianGrams, b.medianGrams);
    MedianIsUnique(Slopes(rs), a.slope, b.slope);
  }

  lemma SortedWeightAt(rs: seq<Reading>, k: nat)
    requires k < |rs|
    ensures IsOrderStatistic(Weights(rs), IntLeq, k, SortedWeights(rs)[k])
  {
    IntOrder();
    SortedPosition(Weights(rs), SortedWeights(rs), IntLeq, k);
  }

  lemma IndexIsRank(n: int, percent: int)
    ensures IsRank(percent, n, PercentileIndex(n, percent))
  {
  }

  /** The percentiles and the median of ordered weights. */
  lemma SummaryWeights(cfg: Config, rs: seq<Reading>, duration: int, slope: Slope)
    requires Ordered(rs) && |rs| > 0
    ensures SortedBy(SortedWeights(rs), IntLeq)
    ensures forall i :: 0 <= i < |rs| ==> 0 < SortedWeights(rs)[i] <= MAX_INT64
    ensures var st := Summary(cfg, duration, SortedWeights(rs), slope);
            IsPercentile(rs, 5, st.p05Grams) && IsPercentile(rs, 95, st.p95Grams) && IsMiddleWeight(rs, st.medianGrams)
  {
    var n := |rs|;
    var w := SortedWeights(rs);
    SortedWeightsArePositive(rs);
    PercentilesInRange(n);
    IndexIsRank(n, 5);
    IndexIsRank(n, 95);
    SortedWeightAt(rs, PercentileIndex(n, 5));
    SortedWeightAt(rs, PercentileIndex(n, 95));
    SortedWeightAt(rs, (n - 1) / 2);
    SortedWeightAt(rs, n / 2);
    assert AreMiddles(rs, w[(n - 1) / 2], w[n / 2]);
    MiddleOfIs(w);
  }

  lemma MiddleOfIs(w: seq<int>)
    requires w != [] && SortedBy(w, IntLeq) && forall i :: 0 <= i < |w| ==> 0 < w[i] <= MAX_INT64
    ensures MiddleOf(w) == w[(|w| - 1) / 2] + (w[|w| / 2] - w[(|w| - 1) / 2]) / 2
  {
  }

  /** The other fields, and the verdict. */
  lemma SummaryRest(cfg: Config, duration: int, w: seq<int>, slope: Slope)
    requires w != [] && SortedBy(w, IntLeq) && forall i :: 0 <= i < |w| ==> 0 < w[i] <= MAX_INT64
    ensures var st := Summary(cfg, duration, w, slope);
            && st.sampleCount == |w| && st.duration == duration && st.slope == slope
            && st.dispersionGrams == st.p95Grams - st.p05Grams
            && (st.stable <==> WithinLimits(cfg, st))
  {
  }

  lemma EvaluatedIsVerdict(cfg: Config, rs: seq<Reading>)
    requires cfg.Valid() && Ordered(rs)
    ensures Evaluate(cfg, rs).Some? <==> IsReady(cfg, rs)
    ensures Evaluate(cfg, rs).Some? ==> IsVerdict(cfg, rs, Evaluate(cfg, rs).value)
  {
    if IsReady(cfg, rs) {
      var duration := Sub(rs[|rs| - 1].measuredAt, rs[0].measuredAt);
      SummaryWeights(cfg, rs, duration, TheilSenSlope(rs));
      SummaryRest(cfg, duration, SortedWeights(rs), TheilSenSlope(rs));
      TheilSenIsTheMedian(rs, TheilSenSlope(rs));
    }
  }

  /** evaluate, exactly: a window is answered with these statistics iff it is long enough in
      samples and in time and they are its percentiles, median, dispersion and slope, with
      the verdict of the three limits. */
  lemma VerdictIff(cfg: Config, rs: seq<Reading>, st: WindowStats)
    requires cfg.Valid() && Ordered(rs)
    ensures Evaluate(cfg, rs) == Some(st) <==> IsReady(cfg, rs) && IsVerdict(cfg, rs, st)
  {
    EvaluatedIsVerdict(cfg, rs);
    if IsReady(cfg, rs) && IsVerdict(cfg, rs, st) {
      VerdictIsUnique(cfg, rs, st, Evaluate(cfg, rs).value);
    }
  }

  /** A ready window within the limits. */
  ghost predicate IsStableWindow(cfg: Config, rs: seq<Reading>)
    requires Ordered(rs)
  {
    IsReady(cfg, rs) && exists st :: IsVerdict(cfg, rs, st) && WithinLimits(cfg, st)
  }

  ghost function WindowOf(cfg: Config, h: seq<Reading>): (w: seq<Reading>)
    requires cfg.Valid() && Ordered(h)
    ensures Ordered(w)
  {
    SuffixInOrder(h, cfg.windowCapacity);
    Suffix(h, cfg.windowCapacity)
  }

  lemma StableIff(cfg: Config, h: seq<Reading>)
    requires cfg.Valid() && Ordered(h)
    ensures Stable(Windows(cfg), h) <==> IsStableWindow(cfg, WindowOf(cfg, h))
    ensures Stable(Windows(cfg), h) ==> IsMiddleWeight(WindowOf(cfg, h), Windows(cfg)(h).value.medianGrams)
  {
    var w := WindowOf(cfg, h);
    assert Windows(cfg)(h) == Evaluate(cfg, w);
    StableEvaluation(cfg, w);
  }

  lemma StableEvaluation(cfg: Config, w: seq<Reading>)
    requires cfg.Valid() && Ordered(w)
    ensures (Evaluate(cfg, w).Some? && Evaluate(cfg, w).value.stable) <==> IsStableWindow(cfg, w)
    ensures Evaluate(cfg, w).Some? ==> IsMiddleWeight(w, Evaluate(cfg, w).value.medianGrams)
  {
    EvaluatedIsVerdict(cfg, w);
    if IsStableWindow(cfg, w) {
      var st :| IsVerdict(cfg, w, st) && WithinLimits(cfg, st);
      VerdictIsUnique(cfg, w, st, Evaluate(cfg, w).value);
    }
  }

  /** The finalization of the window that ends h, with the statistics st. */
  predicate Reports(cfg: Config, f: Finalization, st: WindowStats, at: Time) {
    && f.weightGrams == st.medianGrams && f.sampleCount == st.sampleCount
    && f.dispersionGrams == st.dispersionGrams && f.slope == st.slope
    && f.algorithmVersion == cfg.algorithmVersion && f.stabilizedAt == at
  }

  /** f reports the last window of h. */
  ghost predicate IsReported(cfg: Config, h: seq<Reading>, f: Finalization)
    requires cfg.Valid() && Ordered(h)
  {
    && h != [] && IsReady(cfg, WindowOf(cfg, h))
    && exists st :: IsVerdict(cfg, WindowOf(cfg, h), st) && Reports(cfg, f, st, h[|h| - 1].measuredAt)
  }

  /** Every finalization of a run reports the last window of its passage. */
  lemma FinalizationReports(cfg: Config, es: seq<Event>, k: Key)
    requires cfg.Valid() && EndsAccepted(cfg, es, k) && LastOutput(cfg, es).reply.result.finalization.Some?
    ensures IsReported(cfg, HistoryIn(cfg, es, k), LastOutput(cfg, es).reply.result.finalization.value)
  {
    var h := HistoryIn(cfg, es, k);
    EndsWithLast(cfg, es, k);
    var w := WindowOf(cfg, h);
    assert Windows(cfg)(h) == Evaluate(cfg, w);
    VerdictReports(cfg, Windows(cfg), k, h);
    EvaluatedIsVerdict(cfg, w);
    assert IsVerdict(cfg, w, Evaluate(cfg, w).value);
  }

  lemma VerdictReports(cfg: Config, look: Look, k: Key, h: seq<Reading>)
    requires h != [] && ReplyTo(cfg, look, k, h).result.finalization.Some?
    ensures look(h).Some?
    ensures Reports(cfg, ReplyTo(cfg, look, k, h).result.finalization.value, look(h).value, h[|h| - 1].measuredAt)
  {
  }

  /** The result of the reading that ends h: a finalization exactly when the last two
      windows are each long enough and within every limit, and no earlier two were. */
  ghost predicate IsExactResult(cfg: Config, h: seq<Reading>, result: Result)
    requires cfg.Valid() && Ordered(h) && h != []
  {
    && (result.finalization.Some? <==>
          && IsStableWindow(cfg, WindowOf(cfg, h[..|h| - 1])) && IsStableWindow(cfg, WindowOf(cfg, h))
          && !FinalizedBy(Windows(cfg), h[..|h| - 1]))
    && (result.state == Candidate <==>
          IsStableWindow(cfg, WindowOf(cfg, h)) && !FinalizedBy(Windows(cfg), h))
    && (result.finalization.Some? ==>
          IsMiddleWeight(WindowOf(cfg, h), result.finalization.value.weightGrams))
  }

  lemma PointIff(cfg: Config, k: Key, h: seq<Reading>, result: Result)
    requires cfg.Valid() && Ordered(h) && h != [] && IsPointReply(Windows(cfg), k, h, result)
    ensures IsExactResult(cfg, h, result)
  {
    StableIff(cfg, h[..|h| - 1]);
    StableIff(cfg, h);
  }

  /** In any run, the accepted reading finalizes exactly when the last two windows of its
      passage are each long enough and within every limit, and no earlier two were; the
      weight is the middle weight of the last one. */
  lemma FinalizesIff(cfg: Config, es: seq<Event>, k: Key)
    requires cfg.Valid() && EndsAccepted(cfg, es, k)
    ensures HistoryIn(cfg, es, k) != []
    ensures IsExactResult(cfg, HistoryIn(cfg, es, k), LastOutput(cfg, es).reply.result)
  {
    FinalizationPoint(cfg, es, k);
    PointIff(cfg, k, HistoryIn(cfg, es, k), LastOutput(cfg, es).reply.result);
  }
}
