/** Sorting and order statistics over any total order. sort.Slice is represented by
    its contract: the result is ordered and a permutation. Counting, rather than any
    particular sorting algorithm, is what the facts about medians and percentiles
    are stated with. */
module OrderStatistics {

  /** A less function that sort.Slice may be given: any two elements compare, and
      comparisons chain. */
  ghost predicate TotalPreorder<T(!new)>(leq: (T, T) -> bool) {
    && (forall a, b :: leq(a, b) || leq(b, a))
    && (forall a, b, c :: leq(a, b) && leq(b, c) ==> leq(a, c))
  }

  ghost predicate TotalOrder<T(!new)>(leq: (T, T) -> bool) {
    && TotalPreorder(leq)
    && (forall a, b :: leq(a, b) && leq(b, a) ==> a == b)
  }

  ghost predicate SortedBy<T(!new)>(s: seq<T>, leq: (T, T) -> bool) {
    forall i, j :: 0 <= i <= j < |s| ==> leq(s[i], s[j])
  }

  lemma AppendKeepsOrder<T(!new)>(s: seq<T>, y: T, leq: (T, T) -> bool)
    requires SortedBy(s, leq) && leq(y, y)
    requires forall x :: x in multiset(s) ==> leq(x, y)
    ensures SortedBy(s + [y], leq)
  {
    forall i | 0 <= i < |s|
      ensures leq(s[i], y)
    {
      assert s[i] in multiset(s);
    }
  }

  lemma LastIsGreatest<T(!new)>(s: seq<T>, leq: (T, T) -> bool)
    requires SortedBy(s, leq) && s != []
    ensures SortedBy(s[..|s| - 1], leq)
    ensures forall x :: x in multiset(s) ==> leq(x, s[|s| - 1])
    ensures multiset(s) == multiset(s[..|s| - 1]) + multiset{s[|s| - 1]}
  {
    assert s == s[..|s| - 1] + [s[|s| - 1]];
  }

  function Insert<T(!new)>(s: seq<T>, x: T, leq: (T, T) -> bool): (t: seq<T>)
    requires TotalPreorder(leq) && SortedBy(s, leq)
    ensures SortedBy(t, leq) && multiset(t) == multiset(s) + multiset{x}
  {
    assert leq(x, x);
    if s == [] then [x]
    else
      LastIsGreatest(s, leq);
      var last := s[|s| - 1];
      if leq(last, x) then
        AppendKeepsOrder(s, x, leq);
        s + [x]
      else
        assert leq(x, last) && leq(last, last);
        var t := Insert(s[..|s| - 1], x, leq);
        AppendKeepsOrder(t, last, leq);
        t + [last]
  }

  /** An ordered permutation of s. */
  function Sorted<T(!new)>(s: seq<T>, leq: (T, T) -> bool): (t: seq<T>)
    requires TotalPreorder(leq)
    ensures SortedBy(t, leq) && multiset(t) == multiset(s) && |t| == |s|
  {
    if s == [] then []
    else
      assert s == s[..|s| - 1] + [s[|s| - 1]];
      var t := Insert(Sorted(s[..|s| - 1], leq), s[|s| - 1], leq);
      assert |multiset(t)| == |multiset(s)|;
      t
  }

  /** sort.Slice on a local slice. */
  method SortSlice<T(!new)>(a: array<T>, leq: (T, T) -> bool)
    requires TotalPreorder(leq)
    modifies a
    ensures a[..] == Sorted(old(a[..]), leq)
  {
    var t := Sorted(a[..], leq);
    forall i | 0 <= i < a.Length {
      a[i] := t[i];
    }
  }

  function Count<T>(s: seq<T>, p: T -> bool): (n: nat)
    ensures n <= |s|
  {
    if s == [] then 0
    else Count(s[..|s| - 1], p) + (if p(s[|s| - 1]) then 1 else 0)
  }

  lemma {:induction false} CountConcat<T>(s: seq<T>, t: seq<T>, p: T -> bool)
    ensures Count(s + t, p) == Count(s, p) + Count(t, p)
  {
    if t == [] {
      assert s + t == s;
    } else {
      CountConcat(s, t[..|t| - 1], p);
      assert (s + t)[..|s + t| - 1] == s + t[..|t| - 1];
    }
  }

  lemma {:induction false} CountImplies<T>(s: seq<T>, p: T -> bool, q: T -> bool)
    requires forall i :: 0 <= i < |s| && p(s[i]) ==> q(s[i])
    ensures Count(s, p) <= Count(s, q)
  {
    if s != [] {
      CountImplies(s[..|s| - 1], p, q);
    }
  }

  ghost function Not<T>(p: T -> bool): T -> bool {
    x => !p(x)
  }

  lemma {:induction false} CountComplement<T>(s: seq<T>, p: T -> bool)
    ensures Count(s, p) + Count(s, Not(p)) == |s|
    decreases |s|
  {
    if s != [] {
      CountComplement(s[..|s| - 1], p);
    }
  }

  lemma {:induction false} CountAll<T>(s: seq<T>, p: T -> bool)
    requires forall i :: 0 <= i < |s| ==> p(s[i])
    ensures Count(s, p) == |s|
  {
    if s != [] {
      CountAll(s[..|s| - 1], p);
    }
  }

  lemma {:induction false} CountNone<T>(s: seq<T>, p: T -> bool)
    requires forall i :: 0 <= i < |s| ==> !p(s[i])
    ensures Count(s, p) == 0
  {
    if s != [] {
      CountNone(s[..|s| - 1], p);
    }
  }

  lemma CancelElement<T>(a: multiset<T>, b: multiset<T>, x: T)
    requires a + multiset{x} == b + multiset{x}
    ensures a == b
  {
    assert a == (a + multiset{x}) - multiset{x};
    assert b == (b + multiset{x}) - multiset{x};
  }

  lemma {:induction false} CountPermutation<T>(s: seq<T>, t: seq<T>, p: T -> bool)
    requires multiset(s) == multiset(t)
    ensures Count(s, p) == Count(t, p)
  {
    if s == [] {
      assert |multiset(t)| == 0;
    } else {
      var x := s[|s| - 1];
      var front := s[..|s| - 1];
      assert s == front + [x];
      assert multiset(s) == multiset(front) + multiset{x};
      assert x in multiset(t);
      var j :| 0 <= j < |t| && t[j] == x;
      var rest := t[..j] + t[j + 1..];
      assert t == t[..j] + [x] + t[j + 1..];
      assert multiset(t) == multiset(t[..j] + [x] + t[j + 1..]);
      assert multiset(rest) == multiset(t[..j]) + multiset(t[j + 1..]);
      CancelElement(multiset(front), multiset(rest), x);
      CountPermutation(front, rest, p);
      CountConcat(t[..j], t[j + 1..], p);
      CountConcat(t[..j] + [x], t[j + 1..], p);
      assert (t[..j] + [x])[..j] == t[..j];
    }
  }

  /** x is the k-th smallest (from 0) of s: at most k elements are below it and more
      than k are not above it. */
  ghost predicate IsOrderStatistic<T(!new)>(s: seq<T>, leq: (T, T) -> bool, k: int, x: T) {
    Count(s, y => !leq(x, y)) <= k < Count(s, y => leq(y, x))
  }

  /** The element at position k of an ordered permutation of s is s's k-th smallest. */
  lemma SortedPosition<T(!new)>(s: seq<T>, t: seq<T>, leq: (T, T) -> bool, k: nat)
    requires SortedBy(t, leq) && multiset(t) == multiset(s) && k < |t|
    ensures IsOrderStatistic(s, leq, k, t[k])
  {
    var below := y => !leq(t[k], y);
    var upTo := y => leq(y, t[k]);
    CountPermutation(s, t, below);
    CountPermutation(s, t, upTo);
    assert t == t[..k] + t[k..] && t == t[..k + 1] + t[k + 1..];
    CountConcat(t[..k], t[k..], below);
    CountNone(t[k..], below);
    CountConcat(t[..k + 1], t[k + 1..], upTo);
    CountAll(t[..k + 1], upTo);
  }

  lemma OrderStatisticIsUnique<T(!new)>(s: seq<T>, leq: (T, T) -> bool, k: int, x: T, y: T)
    requires TotalOrder(leq)
    requires IsOrderStatistic(s, leq, k, x) && IsOrderStatistic(s, leq, k, y)
    ensures x == y
  {
    if x != y {
      var lo, hi := if leq(x, y) then x else y, if leq(x, y) then y else x;
      assert leq(lo, hi) && !leq(hi, lo);
      CountImplies(s, z => leq(z, lo), z => !leq(hi, z));
    }
  }

  /** Any ordered permutation is Sorted: the outcome of sort.Slice is determined. */
  lemma SortedIsUnique<T(!new)>(s: seq<T>, t: seq<T>, leq: (T, T) -> bool)
    requires TotalOrder(leq) && SortedBy(t, leq) && multiset(t) == multiset(s)
    ensures t == Sorted(s, leq)
  {
    var u := Sorted(s, leq);
    assert |multiset(t)| == |multiset(s)|;
    forall k | 0 <= k < |t|
      ensures t[k] == u[k]
    {
      SortedPosition(s, t, leq, k);
      SortedPosition(s, u, leq, k);
      OrderStatisticIsUnique(s, leq, k, t[k], u[k]);
    }
  }

  ghost predicate UpwardClosed<T(!new)>(p: T -> bool, leq: (T, T) -> bool) {
    forall a, b :: leq(a, b) && p(a) ==> p(b)
  }

  /** For an upward closed property, the k-th smallest has it exactly when at least
      |s| - k elements do. */
  lemma RankOfUpward<T(!new)>(s: seq<T>, leq: (T, T) -> bool, k: nat, p: T -> bool)
    requires TotalOrder(leq) && k < |s| && UpwardClosed(p, leq)
    ensures p(Sorted(s, leq)[k]) <==> Count(s, p) >= |s| - k
  {
    CountPermutation(s, Sorted(s, leq), p);
    RankInOrdered(Sorted(s, leq), leq, k, p);
  }

  lemma RankInOrdered<T(!new)>(t: seq<T>, leq: (T, T) -> bool, k: nat, p: T -> bool)
    requires SortedBy(t, leq) && k < |t| && UpwardClosed(p, leq)
    ensures p(t[k]) <==> Count(t, p) >= |t| - k
  {
    if p(t[k]) {
      forall i | k <= i < |t|
        ensures p(t[i])
      {
        assert leq(t[k], t[i]);
      }
      CountTail(t, k, p);
    } else {
      forall i | 0 <= i <= k
        ensures !p(t[i])
      {
        assert leq(t[i], t[k]);
      }
      CountHead(t, k + 1, p);
    }
  }

  lemma CountTail<T>(t: seq<T>, k: nat, p: T -> bool)
    requires k <= |t| && forall i :: k <= i < |t| ==> p(t[i])
    ensures Count(t, p) >= |t| - k
  {
    assert t == t[..k] + t[k..];
    CountConcat(t[..k], t[k..], p);
    CountAll(t[k..], p);
  }

  lemma CountHead<T>(t: seq<T>, k: nat, p: T -> bool)
    requires k <= |t| && forall i :: 0 <= i < k ==> !p(t[i])
    ensures Count(t, p) <= |t| - k
  {
    assert t == t[..k] + t[k..];
    CountConcat(t[..k], t[k..], p);
    CountNone(t[..k], p);
  }

  ghost predicate DownwardClosed<T(!new)>(p: T -> bool, leq: (T, T) -> bool) {
    forall a, b :: leq(a, b) && p(b) ==> p(a)
  }

  /** For a downward closed property, the k-th smallest has it exactly when more than k
      elements do. */
  lemma RankOfDownward<T(!new)>(s: seq<T>, leq: (T, T) -> bool, k: nat, p: T -> bool)
    requires TotalOrder(leq) && k < |s| && DownwardClosed(p, leq)
    ensures p(Sorted(s, leq)[k]) <==> Count(s, p) > k
  {
    CountComplement(s, p);
    RankOfUpward(s, leq, k, Not(p));
  }

  /** A property confined to the positions in bad is counted at most |bad| times. */
  lemma {:induction false} CountWithin<T>(s: seq<T>, p: T -> bool, bad: set<nat>)
    requires forall i :: 0 <= i < |s| && p(s[i]) ==> i in bad
    ensures Count(s, p) <= |bad|
    decreases |s|
  {
    if s != [] {
      var last: nat := |s| - 1;
      if p(s[last]) {
        CountWithin(s[..last], p, bad - {last});
      } else {
        CountWithin(s[..last], p, bad);
      }
    }
  }

  /** Elementwise image; counts of a property carry over. */
  lemma {:induction false} CountImage<T, U>(s: seq<T>, t: seq<U>, p: T -> bool, q: U -> bool)
    requires |s| == |t| && forall i :: 0 <= i < |s| ==> p(s[i]) == q(t[i])
    ensures Count(s, p) == Count(t, q)
  {
    if s != [] {
      CountImage(s[..|s| - 1], t[..|t| - 1], p, q);
    }
  }

  /** An order-reversing map turns the k-th smallest into the k-th largest. */
  lemma ReversedOrderStatistic<T(!new)>(s: seq<T>, t: seq<T>, leq: (T, T) -> bool, flip: T -> T, k: int, x: T)
    requires |s| == |t| && forall i :: 0 <= i < |s| ==> t[i] == flip(s[i])
    requires forall a, b :: leq(flip(a), flip(b)) == leq(b, a)
    requires IsOrderStatistic(s, leq, k, x)
    ensures IsOrderStatistic(t, leq, |s| - 1 - k, flip(x))
  {
    var notAbove := y => leq(y, x);
    var below := y => !leq(x, y);
    CountComplement(s, notAbove);
    CountComplement(s, below);
    CountImage(s, t, Not(notAbove), y => !leq(flip(x), y));
    CountImage(s, t, Not(below), y => leq(y, flip(x)));
  }

  datatype IndexPair = IndexPair(left: nat, right: nat)

  /** All index pairs (left, right) with left < right < n, in the order of the nested
      loops of theilSenSlope. */
  function PairsFrom(left: nat, right: nat): (ps: seq<IndexPair>)
    requires left < right
    ensures forall i :: 0 <= i < |ps| ==> ps[i].left == left && left < ps[i].right < right
    ensures |ps| == right - left - 1
    decreases right
  {
    if right == left + 1 then [] else PairsFrom(left, right - 1) + [IndexPair(left, right - 1)]
  }

  function PairsBefore(left: nat, n: nat): (ps: seq<IndexPair>)
    requires left <= n
    ensures forall i :: 0 <= i < |ps| ==> ps[i].left < left && ps[i].left < ps[i].right < n
  {
    if left == 0 then [] else PairsBefore(left - 1, n) + PairsFrom(left - 1, n)
  }

  function AllPairs(n: nat): (ps: seq<IndexPair>)
    ensures forall i :: 0 <= i < |ps| ==> ps[i].left < ps[i].right < n
  {
    PairsBefore(n, n)
  }

  lemma {:induction false} PairsBeforeLength(left: nat, n: nat)
    requires left <= n
    ensures 2 * |PairsBefore(left, n)| == left * (2 * n - left - 1)
  {
    if left > 0 {
      PairsBeforeLength(left - 1, n);
    }
  }

  /** Being the pair q. */
  ghost function Is(q: IndexPair): IndexPair -> bool {
    (p: IndexPair) => p == q
  }

  lemma {:induction false} PairFromOnce(left: nat, right: nat, q: IndexPair)
    requires left < right
    ensures Count(PairsFrom(left, right), Is(q)) == if q.left == left && left < q.right < right then 1 else 0
    decreases right
  {
    if right > left + 1 {
      PairFromOnce(left, right - 1, q);
      CountConcat(PairsFrom(left, right - 1), [IndexPair(left, right - 1)], Is(q));
    }
  }

  lemma {:induction false} PairBeforeOnce(left: nat, n: nat, q: IndexPair)
    requires left <= n
    ensures Count(PairsBefore(left, n), Is(q)) == if q.left < left && q.left < q.right < n then 1 else 0
    decreases left
  {
    if left > 0 {
      PairBeforeOnce(left - 1, n, q);
      PairFromOnce(left - 1, n, q);
      CountConcat(PairsBefore(left - 1, n), PairsFrom(left - 1, n), Is(q));
    }
  }

  /** The pairs with an index in bad. */
  ghost function Touches(bad: set<nat>): IndexPair -> bool {
    (q: IndexPair) => q.left in bad || q.right in bad
  }

  lemma {:induction false} TouchingFrom(left: nat, right: nat, bad: set<nat>, rights: set<nat>)
    requires left < right && left !in bad
    requires forall r: nat | left < r < right && r in bad :: r in rights
    ensures Count(PairsFrom(left, right), Touches(bad)) <= |rights|
    decreases right
  {
    if right > left + 1 {
      var last: nat := right - 1;
      var row := PairsFrom(left, last);
      CountConcat(row, [IndexPair(left, last)], Touches(bad));
      if last in bad {
        TouchingFrom(left, last, bad, rights - {last});
        assert |rights - {last}| == |rights| - 1;
      } else {
        TouchingFrom(left, last, bad, rights);
      }
    }
  }

  lemma {:induction false} TouchingBefore(left: nat, n: nat, bad: set<nat>, lefts: set<nat>)
    requires left <= n
    requires forall l: nat | l < left && l in bad :: l in lefts
    ensures Count(PairsBefore(left, n), Touches(bad)) <= left * |bad| + n * |lefts|
    decreases left
  {
    if left > 0 {
      var l: nat := left - 1;
      var before, row := PairsBefore(l, n), PairsFrom(l, n);
      CountConcat(before, row, Touches(bad));
      if l in bad {
        TouchingBefore(l, n, bad, lefts - {l});
        assert |lefts - {l}| == |lefts| - 1;
        OneMoreBound(l, |bad|, n, |lefts| - 1, Count(before, Touches(bad)), Count(row, Touches(bad)));
      } else {
        TouchingBefore(l, n, bad, lefts);
        TouchingFrom(l, n, bad, bad);
        OneMoreBound(l, |bad|, n, |lefts|, Count(before, Touches(bad)), Count(row, Touches(bad)));
      }
    }
  }

  lemma OneMoreBound(l: nat, b: nat, n: nat, a: nat, c: nat, d: nat)
    requires c <= l * b + n * a
    ensures d <= n ==> c + d <= (l + 1) * b + n * (a + 1)
    ensures d <= b ==> c + d <= (l + 1) * b + n * a
  {
  }
}
