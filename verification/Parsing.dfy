/** What the parsing of a stream entry accepts and makes of it, said with alphabets,
    surrounding space and decimal numerals. */
module Parsing {
  import opened Arithmetic
  import opened Window
  import opened Keys
  import opened Finalizing
  import opened Processing
  import opened Streams

  const LOWER := "abcdefghijklmnopqrstuvwxyz"
  const UPPER := "ABCDEFGHIJKLMNOPQRSTUVWXYZ"
  const DIGITS := "0123456789"

  /** d is c in capitals. */
  ghost predicate IsUpper(c: char, d: char) {
    IsUpperBy(LOWER, UPPER, c, d)
  }

  ghost predicate IsUpperBy(lower: string, upper: string, c: char, d: char) {
    if c in lower then exists i :: 0 <= i < |lower| == |upper| && c == lower[i] && d == upper[i] else d == c
  }

  ghost predicate IsUpperText(s: string, u: string) {
    |s| == |u| && forall i :: 0 <= i < |s| ==> IsUpper(s[i], u[i])
  }

  ghost predicate SameLetter(c: char, d: char) {
    exists u :: IsUpper(c, u) && IsUpper(d, u)
  }

  /** The same texts, up to the case of letters. */
  ghost predicate EqualFold(s: string, t: string) {
    |s| == |t| && forall i :: 0 <= i < |s| ==> SameLetter(s[i], t[i])
  }

  /** The text is the n characters from first on. */
  predicate IsRange(s: string, first: char, n: nat) {
    |s| == n && forall i :: 0 <= i < |s| ==> s[i] as int == first as int + i
  }

  lemma AlphabetsAreRanges()
    ensures IsRange(LOWER, 'a', 26) && IsRange(UPPER, 'A', 26) && IsRange(DIGITS, '0', 10)
    ensures IsRange("abcdef", 'a', 6) && IsRange("ABCDEF", 'A', 6)
  {
  }

  lemma InRange(s: string, first: char, n: nat, c: char)
    requires IsRange(s, first, n)
    ensures c in s <==> first as int <= c as int < first as int + n
  {
    if first as int <= c as int < first as int + n {
      assert s[c as int - first as int] == c;
    }
  }

  lemma UpperIsBy(lower: string, upper: string, c: char, d: char)
    requires IsRange(lower, 'a', 26) && IsRange(upper, 'A', 26)
    ensures UpperChar(c) == d <==> IsUpperBy(lower, upper, c, d)
  {
    InRange(lower, 'a', 26, c);
    if c in lower {
      var i := c as int - 'a' as int;
      assert lower[i] == c && upper[i] == UpperChar(c);
    }
  }

  lemma UpperIs(c: char, d: char)
    ensures UpperChar(c) == d <==> IsUpper(c, d)
  {
    AlphabetsAreRanges();
    UpperIsBy(LOWER, UPPER, c, d);
  }

  lemma UpperTextIs(s: string, u: string)
    ensures ToUpper(s) == u <==> IsUpperText(s, u)
  {
    forall i | 0 <= i < |s| && |s| == |u|
      ensures ToUpper(s)[i] == u[i] <==> IsUpper(s[i], u[i])
    {
      UpperIs(s[i], u[i]);
    }
  }

  /** t is s without the space around it. */
  ghost predicate IsTrimmed(s: string, t: string) {
    && (exists a, b :: s == a + t + b && IsBlank(a) && IsBlank(b))
    && (t != "" ==> !IsSpace(t[0]) && !IsSpace(t[|t| - 1]))
  }

  lemma Prepended(s: string, a: string, t: string, b: string)
    requires s != "" && s[1..] == a + t + b
    ensures s == ([s[0]] + a) + t + b
  {
    assert s == [s[0]] + s[1..];
  }

  lemma Appended(s: string, a: string, t: string, b: string)
    requires s != "" && s[..|s| - 1] == a + t + b
    ensures s == a + t + (b + [s[|s| - 1]])
  {
    assert s == s[..|s| - 1] + [s[|s| - 1]];
  }

  lemma {:induction false} TrimSplits(s: string) returns (a: string, b: string)
    ensures s == a + TrimSpace(s) + b && IsBlank(a) && IsBlank(b)
    decreases |s|
  {
    a, b := [], [];
    if s != [] {
      if IsSpace(s[0]) {
        a, b := TrimSplits(s[1..]);
        Prepended(s, a, TrimSpace(s[1..]), b);
        a := [s[0]] + a;
      } else if IsSpace(s[|s| - 1]) {
        a, b := TrimSplits(s[..|s| - 1]);
        Appended(s, a, TrimSpace(s[..|s| - 1]), b);
        b := b + [s[|s| - 1]];
      }
    }
  }

  lemma {:induction false} TrimFront(a: string, s: string)
    requires IsBlank(a)
    ensures TrimSpace(a + s) == TrimSpace(s)
    decreases |a|
  {
    if a == [] {
      assert a + s == s;
    } else {
      TrimFront(a[1..], s);
      assert (a + s)[1..] == a[1..] + s;
    }
  }

  lemma {:induction false} TrimBack(t: string, b: string)
    requires IsBlank(b) && t != "" && !IsSpace(t[0]) && !IsSpace(t[|t| - 1])
    ensures TrimSpace(t + b) == t
    decreases |b|
  {
    if b == [] {
      assert t + b == t;
    } else {
      TrimBack(t, b[..|b| - 1]);
      assert (t + b)[..|t + b| - 1] == t + b[..|b| - 1];
    }
  }

  lemma TrimJoins(a: string, t: string, b: string)
    requires IsBlank(a) && IsBlank(b) && (t != "" ==> !IsSpace(t[0]) && !IsSpace(t[|t| - 1]))
    ensures TrimSpace(a + t + b) == t
  {
    assert a + t + b == a + (t + b);
    TrimFront(a, t + b);
    if t == "" {
      TrimFront(b, "");
      assert b + "" == t + b;
    } else {
      TrimBack(t, b);
    }
  }

  lemma TrimIff(s: string, t: string)
    ensures TrimSpace(s) == t <==> IsTrimmed(s, t)
  {
    if TrimSpace(s) == t {
      var a, b := TrimSplits(s);
      TrimmedHasNoOuterSpace(s);
    }
    if IsTrimmed(s, t) {
      var a, b :| s == a + t + b && IsBlank(a) && IsBlank(b);
      TrimJoins(a, t, b);
    }
  }

  /** The letters and digits of a plate, in order. */
  function Filtered(s: string): string {
    if s == [] then []
    else (if IsPlateChar(s[0]) then [s[0]] else []) + Filtered(s[1..])
  }

  predicate IsPlateChar(c: char) {
    c in LOWER || c in UPPER || c in DIGITS
  }

  lemma KeptIsBy(lower: string, upper: string, digits: string, c: char)
    requires IsRange(lower, 'a', 26) && IsRange(upper, 'A', 26) && IsRange(digits, '0', 10)
    ensures IsLetterOrDigit(UpperChar(c)) <==> c in lower || c in upper || c in digits
  {
    InRange(lower, 'a', 26, c);
    InRange(upper, 'A', 26, c);
    InRange(digits, '0', 10, c);
  }

  lemma KeptIs(c: char)
    ensures IsLetterOrDigit(UpperChar(c)) <==> IsPlateChar(c)
  {
    AlphabetsAreRanges();
    KeptIsBy(LOWER, UPPER, DIGITS, c);
  }

  lemma UpperJoins(s: string, t: string)
    ensures ToUpper(s + t) == ToUpper(s) + ToUpper(t)
  {
  }

  lemma {:induction false} PlateIsUpper(s: string)
    ensures NormalizePlate(s) == ToUpper(Filtered(s))
    decreases |s|
  {
    if s != [] {
      var kept := if IsPlateChar(s[0]) then [s[0]] else [];
      PlateIsUpper(s[1..]);
      KeptIs(s[0]);
      assert ToUpper(kept) == if IsPlateChar(s[0]) then [UpperChar(s[0])] else [];
      UpperJoins(kept, Filtered(s[1..]));
    }
  }

  /** NormalizePlate: the letters and digits of the text, in capitals. */
  lemma PlateIff(s: string, p: string)
    ensures NormalizePlate(s) == p <==> IsUpperText(Filtered(s), p)
  {
    PlateIsUpper(s);
    UpperTextIs(Filtered(s), p);
  }

  /** NormalizeCode: the text without the space around it, in capitals. */
  lemma CodeIff(s: string, c: string)
    ensures NormalizeCode(s) == c <==> exists t :: IsTrimmed(s, t) && IsUpperText(t, c)
  {
    TrimIff(s, TrimSpace(s));
    UpperTextIs(TrimSpace(s), c);
    forall t | IsTrimmed(s, t)
      ensures t == TrimSpace(s)
    {
      TrimIff(s, t);
    }
  }

  lemma SameLetterIff(c: char, d: char)
    ensures SameLetter(c, d) <==> UpperChar(c) == UpperChar(d)
  {
    UpperIs(c, UpperChar(c));
    UpperIs(d, UpperChar(d));
    if SameLetter(c, d) {
      var u :| IsUpper(c, u) && IsUpper(d, u);
      UpperIs(c, u);
      UpperIs(d, u);
    }
  }

  lemma FoldIff(s: string, t: string)
    ensures ToUpper(s) == ToUpper(t) <==> EqualFold(s, t)
  {
    if |s| == |t| {
      forall i | 0 <= i < |s|
        ensures SameLetter(s[i], t[i]) <==> ToUpper(s)[i] == ToUpper(t)[i]
      {
        SameLetterIff(s[i], t[i]);
      }
    } else {
      assert |ToUpper(s)| != |ToUpper(t)|;
    }
  }

  /** Two texts are the same plate exactly when their letters and digits agree up to case. */
  lemma SamePlateIff(p: string, q: string)
    ensures NormalizePlate(p) == NormalizePlate(q) <==> EqualFold(Filtered(p), Filtered(q))
  {
    PlateIsUpper(p);
    PlateIsUpper(q);
    FoldIff(Filtered(p), Filtered(q));
  }

  lemma FilteredCons(c: char, s: string)
    ensures Filtered([c] + s) == (if IsPlateChar(c) then [c] else []) + Filtered(s)
  {
    assert ([c] + s)[1..] == s;
  }

  lemma {:induction false} FilteredSplits(a: string, b: string)
    ensures Filtered(a + b) == Filtered(a) + Filtered(b)
    decreases |a|
  {
    if a == [] {
      assert a + b == b;
    } else {
      FilteredSplits(a[1..], b);
      FilteredCons(a[0], a[1..] + b);
      assert a + b == [a[0]] + (a[1..] + b);
    }
  }

  lemma {:induction false} SpaceIsFiltered(s: string)
    requires IsBlank(s)
    ensures Filtered(s) == []
    decreases |s|
  {
    if s != [] {
      KeptIs(s[0]);
      SpaceIsFiltered(s[1..]);
    }
  }

  lemma TrimmedPlate(s: string)
    ensures Filtered(TrimSpace(s)) == Filtered(s)
  {
    var a, b := TrimSplits(s);
    FilteredSplits(a + TrimSpace(s), b);
    FilteredSplits(a, TrimSpace(s));
    SpaceIsFiltered(a);
    SpaceIsFiltered(b);
  }

  /** The 36-character form: groups of 8, 4, 4, 4 and 12 hexadecimal digits. */
  ghost predicate IsUuidText(s: string) {
    exists a, b, c, d, e ::
      && s == a + "-" + b + "-" + c + "-" + d + "-" + e
      && IsHexGroup(a, 8) && IsHexGroup(b, 4) && IsHexGroup(c, 4) && IsHexGroup(d, 4) && IsHexGroup(e, 12)
  }

  predicate IsHexDigit(c: char) {
    c in DIGITS || c in "abcdef" || c in "ABCDEF"
  }

  predicate IsHexGroup(s: string, n: nat) {
    |s| == n && forall i :: 0 <= i < |s| ==> IsHexDigit(s[i])
  }

  lemma HexIs(c: char)
    ensures IsHex(c) <==> IsHexDigit(c)
  {
    AlphabetsAreRanges();
    InRange(DIGITS, '0', 10, c);
    InRange("abcdef", 'a', 6, c);
    InRange("ABCDEF", 'A', 6, c);
  }

  lemma HexSlice(s: string, lo: nat, hi: nat)
    requires lo <= hi <= |s|
    ensures IsHexGroup(s[lo..hi], hi - lo) <==> forall i :: lo <= i < hi ==> IsHex(s[i])
  {
    forall i | lo <= i < hi
      ensures IsHex(s[i]) <==> IsHexDigit(s[lo..hi][i - lo])
    {
      HexIs(s[i]);
    }
    if IsHexGroup(s[lo..hi], hi - lo) {
      forall i | lo <= i < hi
        ensures IsHex(s[i])
      {
        assert IsHexDigit(s[lo..hi][i - lo]);
      }
    }
  }

  /** The five groups by their positions. */
  predicate HasGroups(s: string) {
    && |s| == 36 && s[8] == s[13] == s[18] == s[23] == '-'
    && IsHexGroup(s[0..8], 8) && IsHexGroup(s[9..13], 4) && IsHexGroup(s[14..18], 4) && IsHexGroup(s[19..23], 4)
    && IsHexGroup(s[24..36], 12)
  }

  lemma GroupsAre(s: string)
    ensures IsUuid(s) <==> HasGroups(s)
  {
    if |s| == 36 {
      HexSlice(s, 0, 8);
      HexSlice(s, 9, 13);
      HexSlice(s, 14, 18);
      HexSlice(s, 19, 23);
      HexSlice(s, 24, 36);
    }
  }

  lemma NextGroup(front: string, group: string, rest: string)
    ensures var s := front + group + "-" + rest;
            && s[|front|..|front| + |group|] == group && s[|front| + |group|] == '-'
            && s == (front + group + "-") + rest
  {
  }

  lemma JoinedGroups(a: string, b: string, c: string, d: string, e: string)
    requires |a| == 8 && |b| == |c| == |d| == 4 && |e| == 12
    ensures var s := a + "-" + b + "-" + c + "-" + d + "-" + e;
            && |s| == 36 && s[8] == s[13] == s[18] == s[23] == '-'
            && s[0..8] == a && s[9..13] == b && s[14..18] == c && s[19..23] == d && s[24..36] == e
  {
    var s := a + "-" + b + "-" + c + "-" + d + "-" + e;
    NextGroup("", a, b + "-" + c + "-" + d + "-" + e);
    assert s == "" + a + "-" + (b + "-" + c + "-" + d + "-" + e);
    NextGroup(a + "-", b, c + "-" + d + "-" + e);
    assert s == (a + "-") + b + "-" + (c + "-" + d + "-" + e);
    NextGroup(a + "-" + b + "-", c, d + "-" + e);
    assert s == (a + "-" + b + "-") + c + "-" + (d + "-" + e);
    NextGroup(a + "-" + b + "-" + c + "-", d, e);
  }

  lemma SplitGroups(s: string)
    requires |s| == 36 && s[8] == s[13] == s[18] == s[23] == '-'
    ensures s == s[0..8] + "-" + s[9..13] + "-" + s[14..18] + "-" + s[19..23] + "-" + s[24..36]
  {
    assert s[0..9] == s[0..8] + "-";
    assert s[0..13] == s[0..9] + s[9..13];
    assert s[0..14] == s[0..13] + "-";
    assert s[0..18] == s[0..14] + s[14..18];
    assert s[0..19] == s[0..18] + "-";
    assert s[0..23] == s[0..19] + s[19..23];
    assert s[0..24] == s[0..23] + "-";
    assert s == s[0..24] + s[24..36];
  }

  lemma UuidIff(s: string)
    ensures IsUuid(s) <==> IsUuidText(s)
  {
    GroupsAre(s);
    if HasGroups(s) {
      SplitGroups(s);
    }
    if IsUuidText(s) {
      UuidTextHasGroups(s);
    }
  }

  lemma UuidTextHasGroups(s: string)
    requires IsUuidText(s)
    ensures HasGroups(s)
  {
    var a, b, c, d, e :| s == a + "-" + b + "-" + c + "-" + d + "-" + e
      && IsHexGroup(a, 8) && IsHexGroup(b, 4) && IsHexGroup(c, 4) && IsHexGroup(d, 4) && IsHexGroup(e, 12);
    JoinedGroups(a, b, c, d, e);
  }

  /** s is the decimal numeral of n, with leading zeros or without. */
  ghost predicate IsNumeral(s: string, n: nat) {
    IsNumeralBy(NatText, s, n)
  }

  ghost predicate IsNumeralBy(text: nat -> string, s: string, n: nat) {
    exists k: nat :: s == Zeros(k) + text(n)
  }

  function Zeros(k: nat): (z: string)
    ensures |z| == k
  {
    seq(k, _ => '0')
  }

  /** s is the decimal numeral of v, with an optional sign. */
  ghost predicate IsIntNumeral(s: string, v: int) {
    || (v >= 0 && IsNumeral(s, v))
    || (s != "" && s[0] == '+' && v >= 0 && IsNumeral(s[1..], v))
    || (s != "" && s[0] == '-' && v <= 0 && IsNumeral(s[1..], -v))
  }

  lemma {:induction false} NatTextValue(n: nat)
    ensures DigitsValue(NatText(n)) == n
    decreases n
  {
    if n >= 10 {
      NatTextValue(n / 10);
      var s := NatText(n);
      assert s[..|s| - 1] == NatText(n / 10);
    }
  }

  lemma {:induction false} ZerosValue(k: nat, s: string)
    requires forall i :: 0 <= i < |s| ==> '0' <= s[i] <= '9'
    ensures DigitsValue(Zeros(k) + s) == DigitsValue(s)
    decreases |s| + k
  {
    var t := Zeros(k) + s;
    if s != "" {
      ZerosValue(k, s[..|s| - 1]);
      assert t[..|t| - 1] == Zeros(k) + s[..|s| - 1];
    } else if k > 0 {
      ZerosValue(k - 1, s);
      assert t[..|t| - 1] == Zeros(k - 1) + s;
    } else {
      assert t == s;
    }
  }

  lemma LastDigit(v: nat, d: nat)
    requires d < 10
    ensures (10 * v + d) / 10 == v && (10 * v + d) % 10 == d
  {
  }

  lemma OneMoreDigit(v: nat, c: char)
    requires '0' <= c <= '9'
    ensures NatText(10 * v + (c - '0') as nat) == (if v == 0 then "" else NatText(v)) + [c]
  {
    var d := (c - '0') as nat;
    LastDigit(v, d);
    NatTextOf(10 * v + d, v, d);
    assert '0' + d as char == c;
  }

  lemma NatTextOf(n: nat, v: nat, d: nat)
    requires n / 10 == v && n % 10 == d
    ensures NatText(n) == (if v == 0 then "" else NatText(v)) + ['0' + d as char]
  {
  }

  lemma LeadingZero(k: nat)
    ensures Zeros(k) + NatText(0) == Zeros(k + 1)
  {
    assert NatText(0) == "0";
  }

  lemma DigitsValueStep(front: string, c: char)
    requires (forall i :: 0 <= i < |front| ==> '0' <= front[i] <= '9') && '0' <= c <= '9'
    ensures forall i :: 0 <= i < |front + [c]| ==> '0' <= (front + [c])[i] <= '9'
    ensures DigitsValue(front + [c]) == 10 * DigitsValue(front) + (c - '0') as nat
  {
    var s := front + [c];
    assert s[..|s| - 1] == front && s[|s| - 1] == c;
  }

  lemma JoinedNumeral(front: string, v: nat, c: char)
    requires IsNumeral(front, v) && '0' <= c <= '9'
    ensures IsNumeral(front + [c], 10 * v + (c - '0') as nat)
  {
    var k: nat :| front == Zeros(k) + NatText(v);
    var n := 10 * v + (c - '0') as nat;
    OneMoreDigit(v, c);
    if v == 0 {
      LeadingZero(k);
      assert front + [c] == Zeros(k + 1) + NatText(n);
    } else {
      assert front + [c] == Zeros(k) + NatText(n);
    }
  }

  lemma OneDigitNumeral(c: char)
    requires '0' <= c <= '9'
    ensures IsNumeral([c], (c - '0') as nat)
  {
    OneMoreDigit(0, c);
    assert [c] == Zeros(0) + NatText((c - '0') as nat);
  }

  ghost predicate ExtendsBy(text: nat -> string, front: string, v: nat, c: char) {
    '0' <= c <= '9' && IsNumeralBy(text, front, v) ==> IsNumeralBy(text, front + [c], 10 * v + (c - '0') as nat)
  }

  lemma {:induction false} DigitsAreNumeralBy(text: nat -> string, s: string)
    requires AllDigits(s)
    requires forall c :: '0' <= c <= '9' ==> IsNumeralBy(text, [c], (c - '0') as nat)
    requires forall front, v, c :: ExtendsBy(text, front, v, c)
    ensures IsNumeralBy(text, s, DigitsValue(s))
    decreases |s|
  {
    var c, front := s[|s| - 1], s[..|s| - 1];
    assert s == front + [c];
    DigitsValueStep(front, c);
    if front == "" {
      assert DigitsValue(front) == 0 && s == [c];
    } else {
      DigitsAreNumeralBy(text, front);
      assert ExtendsBy(text, front, DigitsValue(front), c);
    }
  }

  /** Every digit text is the numeral of its value. */
  lemma DigitsAreNumeral(s: string)
    requires AllDigits(s)
    ensures IsNumeral(s, DigitsValue(s))
  {
    forall c: char | '0' <= c <= '9'
      ensures IsNumeralBy(NatText, [c], (c - '0') as nat)
    {
      OneDigitNumeral(c);
    }
    forall front: string, v: nat, c: char
      ensures ExtendsBy(NatText, front, v, c)
    {
      if '0' <= c <= '9' && IsNumeral(front, v) {
        JoinedNumeral(front, v, c);
      }
    }
    DigitsAreNumeralBy(NatText, s);
  }

  lemma NumeralIsDigits(s: string, n: nat)
    requires IsNumeral(s, n)
    ensures AllDigits(s) && DigitsValue(s) == n
  {
    var k: nat :| s == Zeros(k) + NatText(n);
    ZerosValue(k, NatText(n));
    NatTextValue(n);
  }

  /** Values of digit texts are read off their numerals, and no other text is a numeral. */
  lemma NumeralIff(s: string, n: nat)
    ensures AllDigits(s) && DigitsValue(s) == n <==> IsNumeral(s, n)
  {
    if AllDigits(s) {
      DigitsAreNumeral(s);
    }
    if IsNumeral(s, n) {
      NumeralIsDigits(s, n);
    }
  }

  /** ParseInt64: exactly the decimal numerals of the numbers in range. */
  lemma ParseIntIff(s: string, v: int64)
    ensures ParseInt64(s) == Some(v) <==> IsIntNumeral(s, v)
  {
    if s != "" && s[0] in "+-" {
      NumeralIff(s[1..], Abs(v));
      NotNumeral(s);
    } else {
      NumeralIff(s, Abs(v));
    }
  }

  lemma NotNumeral(s: string)
    requires s != "" && s[0] in "+-"
    ensures forall n: nat :: !IsNumeral(s, n)
  {
    forall n: nat
      ensures !IsNumeral(s, n)
    {
      NumeralIff(s, n);
    }
  }

  /** A printed number parses to itself. */
  lemma IntTextParses(v: int64)
    ensures ParseInt64(IntText(v)) == Some(v)
  {
    assert Zeros(0) + NatText(Abs(v)) == NatText(Abs(v));
    assert IsNumeral(NatText(Abs(v)), Abs(v));
    if v < 0 {
      assert IntText(v)[1..] == NatText(Abs(v));
    }
    ParseIntIff(IntText(v), v);
  }

  ghost predicate IsCode(s: string, c: string) {
    exists t :: IsTrimmed(s, t) && IsUpperText(t, c)
  }

  /** The trimmed text is a positive number in range. */
  ghost predicate IsWeight(s: string, v: int) {
    0 < v <= MAX_INT64 && exists t :: IsTrimmed(s, t) && IsIntNumeral(t, v)
  }

  /** e is what the entry says: trimmed id, code and plate in capitals, the number that
      the weight spells, and the two times. */
  ghost predicate IsEventOf(m: Message, e: Event) {
    && e.streamID == m.id
    && IsTrimmed(m.fields.eventID, e.eventID) && IsUuidText(e.eventID)
    && IsCode(m.fields.scaleID, e.scaleID) && e.scaleID != ""
    && IsUpperText(Filtered(m.fields.plate), e.plate) && |e.plate| == 7
    && IsWeight(m.fields.weightGrams, e.weightGrams)
    && m.fields.measuredAt == Some(e.measuredAt) && m.fields.receivedAt == Some(e.receivedAt)
  }

  lemma IdPart(s: string, id: string)
    ensures TrimSpace(s) == id && id != "" && IsUuid(id) <==> IsTrimmed(s, id) && IsUuidText(id)
  {
    TrimIff(s, id);
    UuidIff(id);
  }

  lemma ScalePart(s: string, c: string)
    ensures NormalizeCode(TrimSpace(s)) == c <==> IsCode(s, c)
  {
    CodeIff(s, c);
    TrimmedHasNoOuterSpace(s);
    assert TrimSpace(TrimSpace(s)) == TrimSpace(s);
  }

  lemma PlatePart(s: string, p: string)
    ensures NormalizePlate(TrimSpace(s)) == p <==> IsUpperText(Filtered(s), p)
  {
    PlateIff(TrimSpace(s), p);
    TrimmedPlate(s);
  }

  lemma WeightPart(s: string, v: int64)
    ensures v > 0 && ParseInt64(TrimSpace(s)) == Some(v) <==> IsWeight(s, v)
  {
    TrimIff(s, TrimSpace(s));
    ParseIntIff(TrimSpace(s), v);
    forall t | IsTrimmed(s, t)
      ensures t == TrimSpace(s)
    {
      TrimIff(s, t);
    }
  }

  /** parseEvent: an entry is accepted as the event e exactly when e is what it says. */
  lemma ParseIff(m: Message, e: Event)
    ensures ParseEvent(m) == WellFormed(e) <==> IsEventOf(m, e)
  {
    IdPart(m.fields.eventID, e.eventID);
    ScalePart(m.fields.scaleID, e.scaleID);
    PlatePart(m.fields.plate, e.plate);
    WeightPart(m.fields.weightGrams, e.weightGrams);
    ParsedParts(m, e, TrimSpace(m.fields.eventID), NormalizeCode(TrimSpace(m.fields.scaleID)),
                NormalizePlate(TrimSpace(m.fields.plate)), ParseInt64(TrimSpace(m.fields.weightGrams)));
  }

  lemma ParsedParts(m: Message, e: Event, id: string, code: string, plate: string, weight: Option<int64>)
    ensures EventOf(m, id, code, plate, weight) == WellFormed(e) <==>
            && e.streamID == m.id && id == e.eventID && id != "" && IsUuid(id)
            && code == e.scaleID && code != "" && plate == e.plate && |plate| == 7
            && e.weightGrams > 0 && weight == Some(e.weightGrams)
            && m.fields.measuredAt == Some(e.measuredAt) && m.fields.receivedAt == Some(e.receivedAt)
  {
  }

  ghost predicate NoUuid(s: string) {
    forall t :: IsTrimmed(s, t) ==> !IsUuidText(t)
  }

  ghost predicate NoWeight(s: string) {
    forall v: int :: !IsWeight(s, v)
  }

  /** The first fault of an entry, in the order in which they are looked for. */
  ghost predicate IsFirstFault(m: Message, reason: string) {
    if IsBlank(m.fields.eventID) then reason == "event_id is required"
    else if NoUuid(m.fields.eventID) then reason == "event_id must be a UUID"
    else if IsBlank(m.fields.scaleID) then reason == "scale_id is required"
    else if |Filtered(m.fields.plate)| != 7 then reason == "plate must contain seven letters or digits"
    else if NoWeight(m.fields.weightGrams) then reason == "weight_grams must be a positive integer"
    else if m.fields.measuredAt.None? then reason == "measured_at must be RFC3339Nano"
    else m.fields.receivedAt.None? && reason == "received_at must be RFC3339Nano"
  }

  lemma NoWeightIff(s: string)
    ensures NoWeight(s) <==> ParseInt64(TrimSpace(s)).None? || ParseInt64(TrimSpace(s)).value <= 0
  {
    var parsed := ParseInt64(TrimSpace(s));
    if parsed.Some? {
      WeightPart(s, parsed.value);
    }
    forall v: int | IsWeight(s, v)
      ensures parsed == Some(v)
    {
      WeightPart(s, v);
    }
  }

  lemma NoUuidIff(s: string)
    ensures NoUuid(s) <==> !IsUuid(TrimSpace(s))
  {
    TrimIff(s, TrimSpace(s));
    UuidIff(TrimSpace(s));
    forall t | IsTrimmed(s, t)
      ensures t == TrimSpace(s)
    {
      TrimIff(s, t);
    }
  }

  lemma PlateLength(s: string)
    ensures |NormalizePlate(TrimSpace(s))| == |Filtered(s)|
  {
    TrimmedPlate(s);
    PlateIsUpper(TrimSpace(s));
  }

  lemma BlankCode(s: string)
    ensures NormalizeCode(TrimSpace(s)) == "" <==> IsBlank(s)
  {
    BlankIff(s);
    TrimmedHasNoOuterSpace(s);
    assert TrimSpace(TrimSpace(s)) == TrimSpace(s);
  }

  lemma RefusedParts(m: Message, reason: string, id: string, code: string, plate: string, weight: Option<int64>)
    requires (id == "") == IsBlank(m.fields.eventID) && IsUuid(id) == !NoUuid(m.fields.eventID)
    requires (code == "") == IsBlank(m.fields.scaleID) && |plate| == |Filtered(m.fields.plate)|
    requires (weight.None? || weight.value <= 0) == NoWeight(m.fields.weightGrams)
    ensures EventOf(m, id, code, plate, weight) == Malformed(reason) <==> IsFirstFault(m, reason)
  {
  }

  /** parseEvent: an entry is refused for its first fault. */
  lemma RefusalIff(m: Message, reason: string)
    ensures ParseEvent(m) == Malformed(reason) <==> IsFirstFault(m, reason)
  {
    BlankIff(m.fields.eventID);
    NoUuidIff(m.fields.eventID);
    BlankCode(m.fields.scaleID);
    PlateLength(m.fields.plate);
    NoWeightIff(m.fields.weightGrams);
    RefusedParts(m, reason, TrimSpace(m.fields.eventID), NormalizeCode(TrimSpace(m.fields.scaleID)),
                 NormalizePlate(TrimSpace(m.fields.plate)), ParseInt64(TrimSpace(m.fields.weightGrams)));
  }
}
