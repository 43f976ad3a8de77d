/** Keys of passages: normalization of scale codes and plates (ASCII). */
module Keys {
  import opened Window

  datatype Key = Key(scaleID: string, plate: string)

  predicate IsSpace(c: char) {
    c in " \t\n\U{0B}\U{0C}\r"
  }

  function UpperChar(c: char): char {
    if 'a' <= c <= 'z' then c - 'a' + 'A' else c
  }

  predicate IsLetterOrDigit(c: char) {
    'A' <= c <= 'Z' || 'a' <= c <= 'z' || '0' <= c <= '9'
  }

  /** strings.TrimSpace. */
  function TrimSpace(s: string): string {
    if s == [] then []
    else if IsSpace(s[0]) then TrimSpace(s[1..])
    else if IsSpace(s[|s| - 1]) then TrimSpace(s[..|s| - 1])
    else s
  }

  function ToUpper(s: string): (u: string)
    ensures |u| == |s|
  {
    seq(|s|, i requires 0 <= i < |s| => UpperChar(s[i]))
  }

  function NormalizeCode(s: string): string {
    ToUpper(TrimSpace(s))
  }

  function NormalizePlate(s: string): string {
    if s == [] then []
    else
      var c := UpperChar(s[0]);
      (if IsLetterOrDigit(c) then [c] else []) + NormalizePlate(s[1..])
  }

  lemma {:induction false} TrimmedHasNoOuterSpace(s: string)
    ensures var t := TrimSpace(s); t == [] || (!IsSpace(t[0]) && !IsSpace(t[|t| - 1]))
    decreases |s|
  {
    if s != [] {
      if IsSpace(s[0]) {
        TrimmedHasNoOuterSpace(s[1..]);
      } else if IsSpace(s[|s| - 1]) {
        TrimmedHasNoOuterSpace(s[..|s| - 1]);
      }
    }
  }

  predicate IsBlank(s: string) {
    forall i :: 0 <= i < |s| ==> IsSpace(s[i])
  }

  lemma {:induction false} BlankIff(s: string)
    ensures IsBlank(s) <==> TrimSpace(s) == ""
    decreases |s|
  {
    if s != [] {
      if IsSpace(s[0]) {
        BlankIff(s[1..]);
        assert s == [s[0]] + s[1..];
      } else if IsSpace(s[|s| - 1]) {
        BlankIff(s[..|s| - 1]);
        assert s == s[..|s| - 1] + [s[|s| - 1]];
      }
    }
  }

  /** Normalizing twice is normalizing once: the worker normalizes an event before the
      stabilizer normalizes it again. */
  lemma NormalizeCodeIdempotent(s: string)
    ensures NormalizeCode(NormalizeCode(s)) == NormalizeCode(s)
  {
    TrimmedHasNoOuterSpace(s);
    var u := NormalizeCode(s);
    assert TrimSpace(u) == u;
    assert ToUpper(u) == u;
  }

  lemma {:induction false} NormalizePlateIdempotent(s: string)
    ensures NormalizePlate(NormalizePlate(s)) == NormalizePlate(s)
    decreases |s|
  {
    if s != [] {
      NormalizePlateIdempotent(s[1..]);
      var c := UpperChar(s[0]);
      if IsLetterOrDigit(c) {
        assert NormalizePlate(s)[1..] == NormalizePlate(s[1..]);
      } else {
        assert NormalizePlate(s) == NormalizePlate(s[1..]);
      }
    }
  }

  /** readingKey: the normalized key, or None when the reading is invalid. */
  function ReadingKey(r: Reading): (k: Option<Key>)
  {
    var key := Key(NormalizeCode(r.scaleID), NormalizePlate(r.plate));
    if key.scaleID == "" || key.plate == "" || r.weightGrams <= 0 || r.measuredAt == 0 then None
    else Some(key)
  }

  /** Byte-wise string order, as Go compares strings. */
  predicate StringLeq(a: string, b: string) {
    a == [] || (b != [] && (a[0] < b[0] || (a[0] == b[0] && StringLeq(a[1..], b[1..]))))
  }

  predicate KeyLeq(a: Key, b: Key) {
    if a.scaleID == b.scaleID then StringLeq(a.plate, b.plate) else StringLeq(a.scaleID, b.scaleID)
  }

  lemma {:induction false} StringOrderTotal(a: string, b: string)
    ensures StringLeq(a, b) || StringLeq(b, a)
    ensures StringLeq(a, b) && StringLeq(b, a) ==> a == b
    decreases |a|
  {
    if a != [] && b != [] {
      StringOrderTotal(a[1..], b[1..]);
      assert a == [a[0]] + a[1..] && b == [b[0]] + b[1..];
    }
  }

  lemma {:induction false} StringOrderTransitive(a: string, b: string, c: string)
    requires StringLeq(a, b) && StringLeq(b, c)
    ensures StringLeq(a, c)
    decreases |a|
  {
    if a != [] && a[0] == b[0] == c[0] {
      StringOrderTransitive(a[1..], b[1..], c[1..]);
    }
  }

  lemma KeyOrderTransitive(a: Key, b: Key, c: Key)
    requires KeyLeq(a, b) && KeyLeq(b, c)
    ensures KeyLeq(a, c)
  {
    if a.scaleID == b.scaleID == c.scaleID {
      StringOrderTransitive(a.plate, b.plate, c.plate);
    } else {
      StringOrderTotal(a.scaleID, b.scaleID);
      StringOrderTotal(a.scaleID, a.scaleID);
      StringOrderTotal(b.scaleID, b.scaleID);
      StringOrderTransitive(a.scaleID, b.scaleID, c.scaleID);
      if a.scaleID == c.scaleID {
        StringOrderTotal(a.scaleID, b.scaleID);
      }
    }
  }

  lemma KeyOrderTotal(a: Key, b: Key)
    ensures KeyLeq(a, b) || KeyLeq(b, a)
    ensures KeyLeq(a, b) && KeyLeq(b, a) ==> a == b
  {
    StringOrderTotal(a.scaleID, b.scaleID);
    StringOrderTotal(a.plate, b.plate);
  }
}
