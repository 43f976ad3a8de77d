/** Exact signed fractions: the stabilizer's Rational, built only by NewRational
    and compared only by cross multiplication. */
module Rationals {
  import opened Arithmetic

  datatype Rational = Rational(num: int, den: int)

  /** Lowest terms with a positive denominator. */
  ghost predicate Canonical(r: Rational) {
    r.den > 0 && Gcd(Abs(r.num), r.den) == 1
  }

  /** Every slope the stabilizer handles is canonical. */
  type Slope = r: Rational | Canonical(r) ghost witness Rational(0, 1)

  /** a and b denote the same fraction (denominators non-zero). */
  ghost predicate SameValue(a: Rational, b: Rational) {
    a.num * b.den == b.num * a.den
  }

  /** newRational: move the sign to the numerator and divide out the greatest
      common divisor. The result is canonical and has the value n / d, and by
      CanonicalIsUnique no other fraction does. */
  function NewRational(n: int, d: int): (r: Rational)
    requires d != 0
    ensures Canonical(r)
    ensures SameValue(r, Rational(n, d))
  {
    var n', d' := if d < 0 then -n else n, if d < 0 then -d else d;
    if n' == 0 then
      Rational(0, 1)
    else
      var g := Gcd(Abs(n'), d');
      ReducedIsCanonical(n', d');
      OppositeSigns(Rational(n' / g, d' / g), n, d);
      Rational(n' / g, d' / g)
  }

  /** Changing both signs does not change the value. */
  lemma OppositeSigns(r: Rational, n: int, d: int)
    ensures SameValue(r, Rational(-n, -d)) <==> SameValue(r, Rational(n, d))
  {
    var x, y := r.num * d, n * r.den;
    assert r.num * (-d) == -x && (-n) * r.den == -y;
  }

  lemma ExactQuotient(g: int, a: int)
    requires g > 0 && Divides(g, a)
    ensures (a / g) * g == a
  {
    var q: int :| a == q * g;
    DivideMultiple(q, g);
  }

  lemma ExactNegative(g: int, n: int)
    requires g > 0 && Divides(g, n)
    ensures Abs(n / g) == Abs(n) / g
  {
    var q: int :| n == q * g;
    DivideMultiple(q, g);
    DivideMultiple(-q, g);
    assert -n == (-q) * g;
    Scale(g, q, 0);
  }

  lemma ReducedIsCanonical(n: int, d: int)
    requires d > 0 && n != 0
    ensures var g := Gcd(Abs(n), d);
            Canonical(Rational(n / g, d / g)) && SameValue(Rational(n / g, d / g), Rational(n, d))
  {
    var a := Abs(n);
    var g := Gcd(a, d);
    GcdDivides(a, d);
    if n < 0 {
      DividesCombination(g, a, d, -1, 0);
    }
    ExactQuotient(g, a);
    ExactQuotient(g, d);
    ExactQuotient(g, n);
    ExactNegative(g, n);
    var n1, a1, d1 := n / g, a / g, d / g;
    Scale(g, 0, d1);
    Reorder(n1, d1, g);
    var x, y := Bezout(a, d);
    QuotientsAreCoprime(a1, d1, g, x, y);
  }

  lemma QuotientsAreCoprime(a: nat, d: nat, g: int, x: int, y: int)
    requires d > 0 && g > 0
    requires x * (a * g) + y * (d * g) == g
    ensures Gcd(a, d) == 1
  {
    CombinationScaled(x, a, y, d, g);
    Scale(g, x * a + y * d, 1);
    var h := Gcd(a, d);
    GcdDivides(a, d);
    DividesCombination(h, a, d, x, y);
    DividesOne(h);
  }

  lemma CombinationScaled(x: int, a: int, y: int, d: int, g: int)
    ensures x * (a * g) + y * (d * g) == g * (x * a + y * d)
  {
    Reorder(x, a, g);
    Reorder(y, d, g);
  }

  /** If a and b are canonical and equal in value, b's denominator divides a's. */
  lemma DenominatorDivides(a: Rational, b: Rational)
    requires Canonical(a) && Canonical(b) && SameValue(a, b)
    ensures Divides(b.den, a.den)
  {
    var x, y := Bezout(Abs(b.num), b.den);
    CommonMultiple(a.num, a.den, b.num, b.den, if b.num < 0 then -x else x, y);
  }

  lemma CommonMultiple(n: int, d: int, m: int, e: int, s: int, y: int)
    requires s * m + y * e == 1 && n * e == m * d
    ensures Divides(e, d)
  {
    calc {
      d;
      d * (s * m + y * e);
      d * (s * m) + d * (y * e);
      { Reorder(d, s, m); Reorder(d, y, e); }
      s * (m * d) + (d * y) * e;
      s * (n * e) + (d * y) * e;
      { Reorder(s, n, e); }
      (s * n) * e + (d * y) * e;
      (s * n + d * y) * e;
    }
    DividesBy(e, d, s * n + d * y);
  }

  /** A value has exactly one canonical form, so the order sort.Slice leaves equal
      slopes in cannot be observed. */
  lemma CanonicalIsUnique(a: Rational, b: Rational)
    requires Canonical(a) && Canonical(b) && SameValue(a, b)
    ensures a == b
  {
    DenominatorDivides(a, b);
    DenominatorDivides(b, a);
    DividesEachOther(a.den, b.den);
    Scale(a.den, a.num, b.num);
  }

  /** Not-greater by cross multiplication; sort.Slice's less(i, j) is !Leq(j, i). */
  predicate Leq(a: Rational, b: Rational) {
    a.num * b.den <= b.num * a.den
  }

  lemma LeqTransitive(a: Rational, b: Rational, c: Rational)
    requires a.den > 0 && b.den > 0 && c.den > 0
    requires Leq(a, b) && Leq(b, c)
    ensures Leq(a, c)
  {
    Scale(c.den, a.num * b.den, b.num * a.den);
    Scale(a.den, b.num * c.den, c.num * b.den);
    Reorder(c.den, a.num, b.den);
    Reorder(c.den, b.num, a.den);
    Reorder(a.den, b.num, c.den);
    Reorder(a.den, c.num, b.den);
    Reorder(b.den, a.num, c.den);
    Reorder(b.den, c.num, a.den);
    Scale(b.den, a.num * c.den, c.num * a.den);
  }

  /** -r; canonical forms stay canonical. */
  function Negate(r: Rational): (n: Rational) {
    Rational(-r.num, r.den)
  }

  /** |r| <= limit: Rational.absLessOrEqual. */
  predicate AbsLessOrEqual(r: Rational, limit: int) {
    Abs(r.num) <= r.den * limit
  }

  /** The midpoint of a and b in the form theilSenSlope computes it. */
  function Midpoint(a: Rational, b: Rational): (m: Rational)
    requires a.den > 0 && b.den > 0
    ensures Canonical(m)
    ensures IsMidpoint(m, a, b)
  {
    assert a.den * b.den > 0;
    NewRational(a.num * b.den + b.num * a.den, a.den * b.den * 2)
  }

  /** The midpoint of a value with itself is that value, in the same form. */
  lemma MidpointOfEqual(a: Rational)
    requires Canonical(a)
    ensures Midpoint(a, a) == a
  {
    var m := Midpoint(a, a);
    HalfOfDouble(a.num, a.den, m.num, m.den);
    CanonicalIsUnique(m, a);
  }

  lemma HalfOfDouble(n: int, d: int, m: int, e: int)
    requires d > 0 && m * (2 * (d * d)) == (n * d + n * d) * e
    ensures m * d == n * e
  {
    Reorder(m, 2, d * d);
    Reorder(m, d, d);
    assert (n * d + n * d) * e == (n * d) * e + (n * d) * e;
    Reorder(n, d, e);
    Scale(d, m * d, n * e);
  }

  lemma MidpointNegates(a: Rational, b: Rational)
    requires a.den > 0 && b.den > 0
    ensures Midpoint(Negate(b), Negate(a)) == Negate(Midpoint(a, b))
  {
    var m, n := Midpoint(a, b), Midpoint(Negate(b), Negate(a));
    var k := 2 * (a.den * b.den);
    var s := a.num * b.den + b.num * a.den;
    NegatedSum(a.num, a.den, b.num, b.den);
    OppositeHalves(k, s, m.num, m.den, n.num, n.den);
    CanonicalIsUnique(n, Negate(m));
  }

  lemma NegatedSum(n: int, d: int, m: int, e: int)
    requires d > 0 && e > 0
    ensures 2 * (d * e) > 0 && 2 * (e * d) == 2 * (d * e)
    ensures (-m) * d + (-n) * e == -(n * e + m * d)
  {
    Scale(d, 0, e);
  }

  lemma OppositeHalves(k: int, s: int, m: int, e: int, n: int, f: int)
    requires k > 0 && m * k == s * e && n * k == (-s) * f
    ensures n * e == (-m) * f
  {
    Reorder(k, n, e);
    Reorder(k, -m, f);
    Reorder(s, e, f);
    Reorder(-s, f, e);
    assert (n * k) * e == ((-s) * f) * e;
    assert (m * k) * f == (s * e) * f;
    assert ((-m) * k) * f == -((m * k) * f);
    Scale(k, n * e, (-m) * f);
  }

  /** A midpoint of two slopes within the limit is within the limit. */
  lemma MidpointWithin(a: Rational, b: Rational, limit: int)
    requires a.den > 0 && b.den > 0
    requires AbsLessOrEqual(a, limit) && AbsLessOrEqual(b, limit)
    ensures AbsLessOrEqual(Midpoint(a, b), limit)
  {
    var m := Midpoint(a, b);
    SumWithin(a.num, a.den, b.num, b.den, limit);
    BetweenScaled(2 * (a.den * b.den), a.num * b.den + b.num * a.den, m.num, m.den, limit);
  }

  lemma SumWithin(n: int, d: int, m: int, e: int, limit: int)
    requires d > 0 && e > 0
    requires -(d * limit) <= n <= d * limit && -(e * limit) <= m <= e * limit
    ensures d * e > 0
    ensures var k := 2 * (d * e); -(k * limit) <= n * e + m * d <= k * limit
  {
    Scale(d, 0, e);
    Scale(e, n, d * limit);
    Scale(e, -(d * limit), n);
    Scale(d, m, e * limit);
    Scale(d, -(e * limit), m);
    Reorder(e, d, limit);
    Reorder(d, e, limit);
    var p := (d * e) * limit;
    assert e * (d * limit) == p && d * (e * limit) == p;
    assert e * (-(d * limit)) == -p && d * (-(e * limit)) == -p;
    assert (2 * (d * e)) * limit == 2 * p;
  }

  lemma BetweenScaled(k: int, s: int, m: int, e: int, limit: int)
    requires k > 0 && e > 0 && m * k == s * e && -(k * limit) <= s <= k * limit
    ensures -(e * limit) <= m <= e * limit
  {
    Scale(e, s, k * limit);
    Scale(e, -(k * limit), s);
    Reorder(e, k, limit);
    Scale(k, m, e * limit);
    Scale(k, -(e * limit), m);
  }

  /** Being above a limit is inherited upwards, being below minus it downwards. */
  lemma AboveIsUpward(a: Rational, b: Rational, limit: int)
    requires a.den > 0 && b.den > 0 && Leq(a, b) && a.num > a.den * limit
    ensures b.num > b.den * limit
  {
    Scale(b.den, a.den * limit, a.num);
    Reorder(b.den, a.den, limit);
    Scale(a.den, b.den * limit, b.num);
  }

  lemma BelowIsDownward(a: Rational, b: Rational, limit: int)
    requires a.den > 0 && b.den > 0 && Leq(a, b) && b.num < -(b.den * limit)
    ensures a.num < -(a.den * limit)
  {
    Scale(a.den, b.num, -(b.den * limit));
    Reorder(a.den, b.den, limit);
    Scale(b.den, a.num, -(a.den * limit));
  }

  /** r is half way between a and b. */
  ghost predicate IsMidpoint(r: Rational, a: Rational, b: Rational) {
    r.num * (2 * (a.den * b.den)) == (a.num * b.den + b.num * a.den) * r.den
  }

  lemma MidpointIsUnique(a: Rational, b: Rational, r: Rational, s: Rational)
    requires a.den > 0 && b.den > 0 && Canonical(r) && Canonical(s)
    requires IsMidpoint(r, a, b) && IsMidpoint(s, a, b)
    ensures r == s
  {
    NegatedSum(a.num, a.den, b.num, b.den);
    SameQuotient(2 * (a.den * b.den), a.num * b.den + b.num * a.den, r.num, r.den, s.num, s.den);
    CanonicalIsUnique(r, s);
  }

  lemma SameQuotient(k: int, x: int, n: int, d: int, m: int, e: int)
    requires k > 0 && n * k == x * d && m * k == x * e
    ensures n * e == m * d
  {
    Reorder(k, n, e);
    Reorder(k, m, d);
    Reorder(x, d, e);
    Scale(k, n * e, m * d);
  }

  lemma SameValueTransitive(a: Rational, b: Rational, c: Rational)
    requires a.den > 0 && b.den > 0 && c.den > 0 && SameValue(a, b) && SameValue(b, c)
    ensures SameValue(a, c)
  {
    Reorder(b.den, a.num, c.den);
    Reorder(b.den, c.num, a.den);
    Reorder(a.den, b.num, c.den);
    Reorder(a.den, c.num, b.den);
    Reorder(c.den, a.num, b.den);
    Reorder(c.den, b.num, a.den);
    Scale(b.den, a.num * c.den, c.num * a.den);
  }

  /** Equal values reduce to the same fraction. */
  lemma SameFraction(a: int, b: int, n: int, d: int)
    requires b > 0 && d > 0 && n * b == a * d
    ensures NewRational(n, d) == NewRational(a, b)
  {
    var p, q := NewRational(n, d), NewRational(a, b);
    SameValueTransitive(p, Rational(n, d), Rational(a, b));
    SameValueTransitive(p, Rational(a, b), q);
    CanonicalIsUnique(p, q);
  }

  lemma OppositeFraction(n: int, d: int)
    requires d > 0
    ensures NewRational(-n, d) == Negate(NewRational(n, d))
  {
    var p, q := NewRational(n, d), NewRational(-n, d);
    NegateProduct(p.num, d, n, p.den);
    SameValueTransitive(q, Rational(-n, d), Negate(p));
    CanonicalIsUnique(q, Negate(p));
  }

  lemma NegateProduct(a: int, d: int, n: int, e: int)
    requires a * d == n * e
    ensures (-n) * e == (-a) * d
  {
  }
}
