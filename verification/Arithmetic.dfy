/** Integer facts shared by the rest of the project: Go's 64-bit range, greatest
    common divisors (math/big's GCD) and rounded division. */
module Arithmetic {

  const MIN_INT64: int := -0x8000_0000_0000_0000
  const MAX_INT64: int := 0x7FFF_FFFF_FFFF_FFFF

  /** A value of Go type int64. Locals of this type are checked not to wrap around. */
  type int64 = x: int | MIN_INT64 <= x <= MAX_INT64

  function Abs(x: int): (r: nat)
    ensures r == x || r == -x
  {
    if x < 0 then -x else x
  }

  function Gcd(a: nat, b: nat): (g: nat)
    requires a > 0 || b > 0
    ensures g > 0
    decreases b
  {
    if b == 0 then a else Gcd(b, a % b)
  }

  /** d divides a, with an explicit quotient. */
  ghost predicate Divides(d: int, a: int) {
    exists q: int :: a == q * d
  }

  lemma DividesBy(d: int, a: int, q: int)
    requires a == q * d
    ensures Divides(d, a)
  {
  }

  lemma {:induction false} GcdDivides(a: nat, b: nat)
    requires a > 0 || b > 0
    ensures Divides(Gcd(a, b), a) && Divides(Gcd(a, b), b)
    decreases b
  {
    var g := Gcd(a, b);
    if b == 0 {
      DividesBy(g, a, 1);
      DividesBy(g, b, 0);
    } else {
      GcdDivides(b, a % b);
      var p: int :| b == p * g;
      var q: int :| a % b == q * g;
      assert a == (a / b) * b + a % b;
      assert a == ((a / b) * p + q) * g by {
        assert (a / b) * (p * g) == ((a / b) * p) * g;
      }
      DividesBy(g, a, (a / b) * p + q);
    }
  }

  /** Bezout: the greatest common divisor is an integer combination. */
  lemma {:induction false} Bezout(a: nat, b: nat) returns (x: int, y: int)
    requires a > 0 || b > 0
    ensures x * a + y * b == Gcd(a, b)
    decreases b
  {
    if b == 0 {
      x, y := 1, 0;
    } else {
      var u, v := Bezout(b, a % b);
      x, y := v, u - v * (a / b);
      assert a % b == a - (a / b) * b;
      assert v * (a % b) == v * a - (v * (a / b)) * b by {
        assert v * ((a / b) * b) == (v * (a / b)) * b;
      }
      assert (u - v * (a / b)) * b == u * b - (v * (a / b)) * b;
    }
  }

  lemma DividesOne(d: int)
    requires d > 0 && Divides(d, 1)
    ensures d == 1
  {
    var q: int :| 1 == q * d;
    assert q > 0;
  }

  lemma DividesCombination(d: int, a: int, b: int, x: int, y: int)
    requires Divides(d, a) && Divides(d, b)
    ensures Divides(d, x * a + y * b)
  {
    var p: int :| a == p * d;
    var q: int :| b == q * d;
    assert x * (p * d) == (x * p) * d && y * (q * d) == (y * q) * d;
    DividesBy(d, x * a + y * b, x * p + y * q);
  }

  lemma DividesEachOther(a: int, b: int)
    requires a > 0 && b > 0 && Divides(a, b) && Divides(b, a)
    ensures a == b
  {
    var p: int :| b == p * a;
    var q: int :| a == q * b;
    assert p > 0 && q > 0;
    assert b >= a && a >= b;
  }

  /** Multiplication by k > 0 keeps and reflects order and equality. */
  lemma Scale(k: int, x: int, y: int)
    requires k > 0
    ensures x < y <==> k * x < k * y
    ensures x == y <==> k * x == k * y
    ensures x <= y <==> k * x <= k * y
  {
    if x < y {
      ScaleDifference(k, y - x);
    } else if y < x {
      ScaleDifference(k, x - y);
    }
  }

  lemma ScaleDifference(k: int, z: int)
    requires k > 0 && z > 0
    ensures k * z >= k
  {
  }

  /** Exact division undoes multiplication. */
  lemma DivideMultiple(q: int, g: int)
    requires g > 0
    ensures (q * g) / g == q
  {
    var m := q * g;
    QuotientIsUnique(m, g, m / g, m % g, q);
  }

  lemma QuotientIsUnique(m: int, g: int, k: int, r: int, q: int)
    requires g > 0 && m == g * k + r && 0 <= r < g && m == g * q
    ensures k == q && r == 0
  {
    if q > k {
      ScaleDifference(g, q - k);
    } else if q < k {
      ScaleDifference(g, k - q);
    }
  }

  /** Reordering of products. */
  lemma Reorder(a: int, b: int, c: int)
    ensures a * (b * c) == b * (a * c) == c * (a * b) == (a * b) * c == (a * c) * b
  {
  }
}
