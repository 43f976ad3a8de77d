/** What theilSenSlope promises: the exact median of all pairwise slopes, in lowest
    terms, whatever the sort did with equal slopes. */
module TheilSen {
  import opened Arithmetic
  import opened Rationals
  import opened OrderStatistics
  import opened Window

  /** s is, in lowest terms, the weight gained from reading l to reading r in grams, over the
      time between them in seconds; times are in nanoseconds. */
  ghost predicate IsSlopeOf(rs: seq<Reading>, l: nat, r: nat, s: Rational)
    requires l < r < |rs|
  {
    && Canonical(s)
    && s.num * Sub(rs[r].measuredAt, rs[l].measuredAt)
       == ((rs[r].weightGrams - rs[l].weightGrams) * 1_000_000_000) * s.den
  }

  lemma PairSlopeIs(rs: seq<Reading>, l: nat, r: nat)
    requires l < r < |rs| && Ordered(rs)
    ensures IsSlopeOf(rs, l, r, PairSlope(rs, l, r))
  {
  }

  /** Slopes lists the slope of every pair of readings exactly once, n(n-1)/2 in all. */
  lemma SlopesAreAllPairs(rs: seq<Reading>)
    requires Ordered(rs)
    ensures var ps := AllPairs(|rs|);
            && (forall l: nat, r: nat :: Count(ps, Is(IndexPair(l, r))) == if l < r < |rs| then 1 else 0)
            && |Slopes(rs)| == |ps|
            && (forall i :: 0 <= i < |ps| ==>
                  ps[i].left < ps[i].right < |rs| && IsSlopeOf(rs, ps[i].left, ps[i].right, Slopes(rs)[i]))
    ensures 2 * |Slopes(rs)| == |rs| * (|rs| - 1)
  {
    forall l: nat, r: nat
      ensures Count(AllPairs(|rs|), Is(IndexPair(l, r))) == if l < r < |rs| then 1 else 0
    {
      PairBeforeOnce(|rs|, |rs|, IndexPair(l, r));
    }
    forall i | 0 <= i < |AllPairs(|rs|)|
      ensures IsSlopeOf(rs, AllPairs(|rs|)[i].left, AllPairs(|rs|)[i].right, Slopes(rs)[i])
    {
      PairSlopeIs(rs, AllPairs(|rs|)[i].left, AllPairs(|rs|)[i].right);
    }
    SlopeCount(rs);
  }

  /** r is the midpoint of the two middle order statistics of s (which coincide when
      |s| is odd). */
  ghost predicate IsMedian(s: seq<Slope>, r: Rational) {
    exists lower: Slope, upper: Slope :: IsMedianOfMiddle(s, r, lower, upper)
  }

  ghost predicate IsMedianOfMiddle(s: seq<Slope>, r: Rational, lower: Slope, upper: Slope) {
    && IsOrderStatistic(s, SlopeLeq, (|s| - 1) / 2, lower)
    && IsOrderStatistic(s, SlopeLeq, |s| / 2, upper)
    && IsMidpoint(r, lower, upper)
  }

  /** theilSenSlope returns the one canonical fraction that is the median of the
      slopes, and nothing else is. */
  lemma TheilSenIsTheMedian(rs: seq<Reading>, r: Rational)
    requires Ordered(rs) && |rs| >= 2
    ensures r == TheilSenSlope(rs) <==> Canonical(r) && IsMedian(Slopes(rs), r)
  {
    var m := TheilSenSlope(rs);
    TheilSenIsAMedian(rs);
    if Canonical(r) && IsMedian(Slopes(rs), r) {
      MedianIsUnique(Slopes(rs), m, r);
    }
  }

  lemma TheilSenIsAMedian(rs: seq<Reading>)
    requires Ordered(rs) && |rs| >= 2
    ensures IsMedian(Slopes(rs), TheilSenSlope(rs))
  {
    SlopeCount(rs);
    SlopeOrder();
    var s, t := Slopes(rs), SortedSlopes(rs);
    var lower, upper := t[(|s| - 1) / 2], t[|s| / 2];
    SortedPosition(s, t, SlopeLeq, (|s| - 1) / 2);
    SortedPosition(s, t, SlopeLeq, |s| / 2);
    if |s| % 2 == 1 {
      MidpointOfEqual(lower);
    }
    assert IsMedianOfMiddle(s, TheilSenSlope(rs), lower, upper);
  }

  lemma MedianIsUnique(s: seq<Slope>, a: Slope, b: Slope)
    requires IsMedian(s, a) && IsMedian(s, b)
    ensures a == b
  {
    SlopeOrder();
    var l1: Slope, u1: Slope :| IsMedianOfMiddle(s, a, l1, u1);
    var l2: Slope, u2: Slope :| IsMedianOfMiddle(s, b, l2, u2);
    OrderStatisticIsUnique(s, SlopeLeq, (|s| - 1) / 2, l1, l2);
    OrderStatisticIsUnique(s, SlopeLeq, |s| / 2, u1, u2);
    MidpointIsUnique(l1, u1, a, b);
  }

  /** Readings on a line of slope a / b grams per second give exactly that slope, in
      lowest terms. */
  lemma CollinearIsExact(rs: seq<Reading>, a: int, b: int)
    requires Ordered(rs) && |rs| >= 2 && b > 0
    requires forall l, r {:trigger rs[l], rs[r]} :: 0 <= l < r < |rs| ==>
      (rs[r].weightGrams - rs[l].weightGrams) * SECOND * b == a * Sub(rs[r].measuredAt, rs[l].measuredAt)
    ensures TheilSenSlope(rs) == NewRational(a, b)
  {
    var c: Slope := NewRational(a, b);
    forall l: nat, r: nat | l < r < |rs|
      ensures PairSlope(rs, l, r) == c
    {
      SameFraction(a, b, (rs[r].weightGrams - rs[l].weightGrams) * SECOND, Sub(rs[r].measuredAt, rs[l].measuredAt));
    }
    AllEqualSlopes(rs, c);
  }

  lemma AllEqualSlopes(rs: seq<Reading>, c: Slope)
    requires Ordered(rs) && |rs| >= 2
    requires forall l: nat, r: nat | l < r < |rs| :: PairSlope(rs, l, r) == c
    ensures TheilSenSlope(rs) == c
  {
    SlopeCount(rs);
    SlopeOrder();
    var s, t := Slopes(rs), SortedSlopes(rs);
    assert forall i :: 0 <= i < |s| ==> s[i] == c;
    forall i | 0 <= i < |t|
      ensures t[i] == c
    {
      assert t[i] in multiset(t);
      assert t[i] in multiset(s);
    }
    MidpointOfEqual(c);
  }

  /** Weight differences multiplied by k over the same times: k = 1 is a shift of all
      weights by a constant, k = -1 a reflection. */
  ghost predicate DifferencesScaled(rs: seq<Reading>, ts: seq<Reading>, k: int) {
    && |rs| == |ts|
    && (forall i :: 0 <= i < |rs| ==> ts[i].measuredAt == rs[i].measuredAt)
    && (forall i, j {:trigger ts[i], ts[j]} :: 0 <= i < j < |rs| ==>
          ts[j].weightGrams - ts[i].weightGrams == k * (rs[j].weightGrams - rs[i].weightGrams))
  }

  /** Adding a constant to every weight does not change the slope. */
  lemma ShiftInvariant(rs: seq<Reading>, ts: seq<Reading>)
    requires Ordered(rs) && Ordered(ts) && |rs| >= 2 && DifferencesScaled(rs, ts, 1)
    ensures TheilSenSlope(ts) == TheilSenSlope(rs)
  {
    forall l: nat, r: nat | l < r < |rs|
      ensures PairSlope(ts, l, r) == PairSlope(rs, l, r)
    {
    }
    assert Slopes(ts) == Slopes(rs);
  }

  ghost function Opposite(r: Slope): Slope {
    Negate(r)
  }

  lemma OppositeReversesOrder()
    ensures forall a: Slope, b: Slope :: SlopeLeq(Opposite(a), Opposite(b)) == SlopeLeq(b, a)
  {
  }

  lemma OppositePair(rs: seq<Reading>, ts: seq<Reading>, l: nat, r: nat)
    requires Ordered(rs) && Ordered(ts) && DifferencesScaled(rs, ts, -1) && l < r < |rs|
    ensures PairSlope(ts, l, r) == Opposite(PairSlope(rs, l, r))
  {
    var n, d := (rs[r].weightGrams - rs[l].weightGrams) * SECOND, Sub(rs[r].measuredAt, rs[l].measuredAt);
    assert ts[r].weightGrams - ts[l].weightGrams == -(rs[r].weightGrams - rs[l].weightGrams);
    assert PairSlope(ts, l, r) == NewRational(-n, d);
    OppositeFraction(n, d);
  }

  lemma OppositeSlopes(rs: seq<Reading>, ts: seq<Reading>)
    requires Ordered(rs) && Ordered(ts) && DifferencesScaled(rs, ts, -1)
    ensures |Slopes(rs)| == |Slopes(ts)|
    ensures forall i :: 0 <= i < |Slopes(rs)| ==> Slopes(ts)[i] == Opposite(Slopes(rs)[i])
  {
    forall i | 0 <= i < |Slopes(rs)|
      ensures Slopes(ts)[i] == Opposite(Slopes(rs)[i])
    {
      var q := AllPairs(|rs|)[i];
      OppositePair(rs, ts, q.left, q.right);
    }
  }

  lemma OppositeMiddle(u: seq<Slope>, v: seq<Slope>)
    requires |u| == |v| > 0
    requires forall k :: 0 <= k < |u| ==> v[|u| - 1 - k] == Opposite(u[k])
    ensures MiddleSlope(v) == Negate(MiddleSlope(u))
  {
    var m := |u|;
    assert v[m - 1 - m / 2] == Opposite(u[m / 2]);
    if m % 2 == 0 {
      assert v[m - 1 - (m / 2 - 1)] == Opposite(u[m / 2 - 1]);
      MidpointNegates(u[m / 2 - 1], u[m / 2]);
    }
  }

  /** Reflecting the weights negates the slope. */
  lemma ReflectionNegates(rs: seq<Reading>, ts: seq<Reading>)
    requires Ordered(rs) && Ordered(ts) && |rs| >= 2 && DifferencesScaled(rs, ts, -1)
    ensures TheilSenSlope(ts) == Negate(TheilSenSlope(rs))
  {
    SlopeCount(rs);
    var s, t := Slopes(rs), Slopes(ts);
    OppositeSlopes(rs, ts);
    SlopeOrder();
    OppositeSorted(s, t, SortedSlopes(rs), SortedSlopes(ts));
    OppositeMiddle(SortedSlopes(rs), SortedSlopes(ts));
  }

  lemma OppositeSorted(s: seq<Slope>, t: seq<Slope>, u: seq<Slope>, v: seq<Slope>)
    requires |s| == |t| == |u| == |v| && forall i :: 0 <= i < |s| ==> t[i] == Opposite(s[i])
    requires SortedBy(u, SlopeLeq) && multiset(u) == multiset(s)
    requires SortedBy(v, SlopeLeq) && multiset(v) == multiset(t)
    ensures forall k :: 0 <= k < |u| ==> v[|u| - 1 - k] == Opposite(u[k])
  {
    SlopeOrder();
    OppositeReversesOrder();
    forall k | 0 <= k < |u|
      ensures v[|u| - 1 - k] == Opposite(u[k])
    {
      var j := |u| - 1 - k;
      SortedPosition(s, u, SlopeLeq, k);
      ReversedOrderStatistic(s, t, SlopeLeq, Opposite, k, u[k]);
      SortedPosition(t, v, SlopeLeq, j);
      OrderStatisticIsUnique(t, SlopeLeq, j, v[j], Opposite(u[k]));
    }
  }
}
