/** The bounded window buffer of a session. */
module Rings {
  import opened Window

  /** The last n elements of s, or all of them. */
  function Suffix<T>(s: seq<T>, n: nat): (t: seq<T>)
    ensures |t| == if |s| <= n then |s| else n
  {
    if |s| <= n then s else s[|s| - n..]
  }

  /** Pushing into a bounded buffer of already bounded history. */
  lemma SuffixOfSuffix<T>(s: seq<T>, x: T, n: nat)
    ensures Suffix(Suffix(s, n) + [x], n) == Suffix(s + [x], n)
  {
  }

  ghost function PushAll<T>(contents: seq<T>, added: seq<T>, n: nat): seq<T> {
    if added == [] then contents
    else Suffix(PushAll(contents, added[..|added| - 1], n) + [added[|added| - 1]], n)
  }

  /** Ring refinement: after any sequence of adds to an empty ring the contents are the
      last min(count, capacity) elements added, in order. */
  lemma {:induction false} RingHoldsTheLast<T>(added: seq<T>, n: nat)
    ensures PushAll([], added, n) == Suffix(added, n)
    decreases |added|
  {
    if added != [] {
      var front, last := added[..|added| - 1], added[|added| - 1];
      assert front + [last] == added;
      calc {
        PushAll([], added, n);
        Suffix(PushAll([], front, n) + [last], n);
        { RingHoldsTheLast(front, n); }
        Suffix(Suffix(front, n) + [last], n);
        { SuffixOfSuffix(front, last, n); }
        Suffix(added, n);
      }
    }
  }

  /** The cell a position beyond the end wraps around to. */
  function Wrap(i: int, n: int): (c: int)
    requires n > 0
    ensures 0 <= c < n
    ensures 0 <= i < n ==> c == i
    ensures n <= i < 2 * n ==> c == i - n
  {
    if n <= i < 2 * n then
      assert i % n == i - n;
      i % n
    else
      i % n
  }

  /** The count cells from start on, wrapping around. */
  ghost function Unroll<T>(cells: seq<T>, start: int, count: int): (s: seq<T>)
    requires 0 <= start < |cells| && 0 <= count <= |cells|
    ensures |s| == count
  {
    seq(count, i requires 0 <= i < count => cells[Wrap(start + i, |cells|)])
  }

  lemma AppendToCells<T>(cells: seq<T>, start: int, count: int, x: T)
    requires 0 <= start < |cells| && 0 <= count < |cells|
    ensures Unroll(cells[Wrap(start + count, |cells|) := x], start, count + 1) == Unroll(cells, start, count) + [x]
  {
    var n := |cells|;
    var after := cells[Wrap(start + count, n) := x];
    forall i | 0 <= i < count
      ensures Unroll(after, start, count + 1)[i] == Unroll(cells, start, count)[i]
    {
      assert Wrap(start + i, n) != Wrap(start + count, n);
    }
  }

  lemma OverwriteOldest<T>(cells: seq<T>, start: int, x: T)
    requires 0 <= start < |cells|
    ensures Unroll(cells[start := x], Wrap(start + 1, |cells|), |cells|) == Unroll(cells, start, |cells|)[1..] + [x]
  {
    var n := |cells|;
    var next := Wrap(start + 1, n);
    var after := Unroll(cells[start := x], next, n);
    forall i | 0 <= i < n - 1
      ensures after[i] == Unroll(cells, start, n)[i + 1]
    {
      assert Wrap(next + i, n) == Wrap(start + (i + 1), n) != start;
    }
    assert Wrap(next + (n - 1), n) == start;
  }

  const NO_READING: Reading := Reading("", "", 0, 0)

  class Ring {
    const elements: array<Reading>
    var start: int
    var count: int

    ghost predicate Valid()
      reads this
    {
      0 <= start < elements.Length && 0 <= count <= elements.Length
    }

    ghost function Contents(): (s: seq<Reading>)
      requires Valid()
      reads this, elements
    {
      Unroll(elements[..], start, count)
    }

    /** newRing. */
    constructor (capacity: nat)
      requires capacity > 0
      ensures Valid() && Contents() == [] && elements.Length == capacity
      ensures fresh(elements)
    {
      elements := new Reading[capacity](_ => NO_READING);
      start, count := 0, 0;
    }

    /** ring.add: drops the oldest reading once the ring is full. */
    method Add(value: Reading)
      requires Valid()
      modifies this, elements
      ensures Valid()
      ensures Contents() == Suffix(old(Contents()) + [value], elements.Length)
    {
      ghost var cells := elements[..];
      var index := Wrap(start + count, elements.Length);
      if count == elements.Length {
        OverwriteOldest(cells, start, value);
        index := start;
        start := Wrap(start + 1, elements.Length);
      } else {
        AppendToCells(cells, start, count, value);
        count := count + 1;
      }
      elements[index] := value;
      assert elements[..] == cells[index := value];
    }

    /** ring.values: a copy of the contents, oldest first. */
    method Values() returns (result: seq<Reading>)
      requires Valid()
      ensures result == Contents()
    {
      result := [];
      for index := 0 to count
        invariant result == Contents()[..index]
      {
        result := result + [elements[Wrap(start + index, elements.Length)]];
      }
    }
  }
}
