/** End to end: a passage whose last two windows are clean but for a few corrupted
    readings finalizes, with a weight among the clean ones. */
module Guarantee {
  import opened Window
  import opened Keys
  import opened Rings
  import opened Rationals
  import opened Sessions
  import opened Runs
  import opened Passages
  import opened Outliers

  /** A ready window with at most (n-1)/20 readings, those in bad, outside lo..hi and of
      arbitrary slopes. */
  ghost predicate CleanBut(cfg: Config, w: seq<Reading>, bad: set<nat>, lo: int, hi: int)
    requires Ordered(w)
  {
    && |w| >= cfg.minSamples && |w| > 0
    && Sub(w[|w| - 1].measuredAt, w[0].measuredAt) >= cfg.minWindowDuration
    && 20 * |bad| <= |w| - 1
    && (forall i: nat | i < |w| && i !in bad :: lo <= w[i].weightGrams <= hi)
    && hi - lo <= cfg.absoluteToleranceGrams
    && (hi - lo) * 10_000 <= lo * cfg.percentToleranceBPS
    && (forall l: nat, r: nat | l < r < |w| && l !in bad && r !in bad ::
          AbsLessOrEqual(PairSlope(w, l, r), cfg.maxSlopeGramsPerSecond))
  }

  ghost predicate LastWindowClean(cfg: Config, h: seq<Reading>, bad: set<nat>, lo: int, hi: int)
    requires cfg.Valid() && Ordered(h)
  {
    SuffixInOrder(h, cfg.windowCapacity);
    CleanBut(cfg, Suffix(h, cfg.windowCapacity), bad, lo, hi)
  }

  lemma CleanWindowIsStable(cfg: Config, h: seq<Reading>, bad: set<nat>, lo: int, hi: int)
    requires cfg.Valid() && Ordered(h) && LastWindowClean(cfg, h, bad, lo, hi)
    ensures Stable(Windows(cfg), h) && lo <= Windows(cfg)(h).value.medianGrams <= hi
  {
    SuffixInOrder(h, cfg.windowCapacity);
    OutlierProof(cfg, Suffix(h, cfg.windowCapacity), bad, lo, hi);
  }

  /** Accepted readings that end in two clean windows leave the session FINALIZED; if
      they were not finalized before, the final weight is reported now and is in lo..hi. */
  lemma CleanPassageAlone(cfg: Config, k: Key, rs: seq<Reading>, victim: Key,
                          bad1: set<nat>, lo1: int, hi1: int, bad2: set<nat>, lo2: int, hi2: int)
    requires cfg.Valid() && Accepted(cfg, Windows(cfg), k, rs) && rs != []
    requires LastWindowClean(cfg, rs[..|rs| - 1], bad1, lo1, hi1)
    requires LastWindowClean(cfg, rs, bad2, lo2, hi2)
    ensures var ss := After(cfg, Adds(rs, victim)); k in ss && ss[k].state == Finalized
    ensures !FinalizedBy(Windows(cfg), rs[..|rs| - 1]) ==>
      && IsFinalizationOf(LastOutput(cfg, Adds(rs, victim)), k)
      && lo2 <= LastOutput(cfg, Adds(rs, victim)).reply.result.finalization.value.weightGrams <= hi2
  {
    CleanWindowIsStable(cfg, rs[..|rs| - 1], bad1, lo1, hi1);
    CleanWindowIsStable(cfg, rs, bad2, lo2, hi2);
    FinalizationPointAlone(cfg, k, rs, victim);
    StoredIsFinalized(cfg, k, rs, victim);
  }

  lemma StoredIsFinalized(cfg: Config, k: Key, rs: seq<Reading>, victim: Key)
    requires cfg.Valid() && Accepted(cfg, Windows(cfg), k, rs) && rs != [] && FinalizedBy(Windows(cfg), rs)
    ensures var ss := After(cfg, Adds(rs, victim)); k in ss && ss[k].state == Finalized
  {
    RunsRefine(cfg, Adds(rs, victim));
    AcceptedHistory(cfg, Windows(cfg), k, rs, victim);
  }

  /** The reading just accepted ends a second clean window of its passage. */
  ghost predicate EndsClean(cfg: Config, h: seq<Reading>, bad1: set<nat>, lo1: int, hi1: int, bad2: set<nat>, lo2: int,
                            hi2: int)
    requires cfg.Valid() && Ordered(h)
  {
    && h != []
    && LastWindowClean(cfg, h[..|h| - 1], bad1, lo1, hi1)
    && LastWindowClean(cfg, h, bad2, lo2, hi2)
  }

  lemma CleanHistoryFinalizes(cfg: Config, k: Key, h: seq<Reading>, result: Result, bad1: set<nat>, lo1: int, hi1: int,
                              bad2: set<nat>, lo2: int, hi2: int)
    requires cfg.Valid() && Ordered(h) && EndsClean(cfg, h, bad1, lo1, hi1, bad2, lo2, hi2)
    requires IsPointReply(Windows(cfg), k, h, result)
    ensures result.state == Finalized
    ensures !FinalizedBy(Windows(cfg), h[..|h| - 1]) ==>
      result.finalization.Some? && lo2 <= result.finalization.value.weightGrams <= hi2
  {
    CleanWindowIsStable(cfg, h[..|h| - 1], bad1, lo1, hi1);
    CleanWindowIsStable(cfg, h, bad2, lo2, hi2);
  }

  /** In any run, among any other sessions: when the accepted readings of a passage end in
      two clean windows, the session is FINALIZED; if it was not before, the final weight
      is reported now and lies among the clean ones. */
  lemma CleanPassageFinalizes(cfg: Config, es: seq<Event>, k: Key, bad1: set<nat>, lo1: int, hi1: int, bad2: set<nat>,
                              lo2: int, hi2: int)
    requires cfg.Valid() && EndsAccepted(cfg, es, k)
    requires EndsClean(cfg, HistoryIn(cfg, es, k), bad1, lo1, hi1, bad2, lo2, hi2)
    ensures k in After(cfg, es) && After(cfg, es)[k].state == Finalized
    ensures !FinalizedBy(Windows(cfg), HistoryIn(cfg, es, k)[..|HistoryIn(cfg, es, k)| - 1]) ==>
      && IsFinalizationOf(LastOutput(cfg, es), k)
      && lo2 <= LastOutput(cfg, es).reply.result.finalization.value.weightGrams <= hi2
  {
    var h := HistoryIn(cfg, es, k);
    FinalizationPoint(cfg, es, k);
    CleanHistoryFinalizes(cfg, k, h, LastOutput(cfg, es).reply.result, bad1, lo1, hi1, bad2, lo2, hi2);
    StoredAsVerdict(cfg, es, k);
  }

  /** The stored state is the reported one. */
  lemma StoredAsVerdict(cfg: Config, es: seq<Event>, k: Key)
    requires cfg.Valid() && EndsAccepted(cfg, es, k)
    requires LastOutput(cfg, es).reply.result.state == Finalized
    ensures After(cfg, es)[k].state == Finalized
  {
    FinalizationPoint(cfg, es, k);
    EndsWithLast(cfg, es, k);
  }
}
