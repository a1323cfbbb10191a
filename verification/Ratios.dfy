/** Quotients of integers as real numbers, reasoned about by cross multiplying. */
module Ratios {

  function Ratio(n: int, d: int): real
    requires d != 0
  {
    n as real / d as real
  }

  lemma CastProduct(a: int, b: int)
    ensures (a * b) as real == a as real * b as real
  {
  }

  lemma TimesBack(x: real, y: real)
    requires y != 0.0
    ensures x / y * y == x
  {
  }

  lemma CancelReal(p: real, q: real, y: real)
    requires y != 0.0 && p * y == q * y
    ensures p == q
  {
    NoZeroDivisor(p - q, y);
  }

  lemma NoZeroDivisor(p: real, y: real)
    requires y != 0.0 && p * y == 0.0
    ensures p == 0.0
  {
  }

  lemma ProductNonZero(a: int, b: int)
    requires a != 0 && b != 0
    ensures a * b != 0
  {
  }

  lemma Times(n: int, d: int)
    requires d != 0
    ensures Ratio(n, d) * d as real == n as real
  {
    TimesBack(n as real, d as real);
  }

  /** The ratio is the one number whose d-fold is n. */
  lemma RatioIs(n: int, d: int, q: real)
    requires d != 0 && q * d as real == n as real
    ensures q == Ratio(n, d)
  {
    Times(n, d);
    CancelReal(q, Ratio(n, d), d as real);
  }

  lemma TimesBoth(n: int, d: int, e: int)
    requires d != 0
    ensures Ratio(n, d) * (d as real * e as real) == (n * e) as real
    ensures (d * e) as real == d as real * e as real
  {
    Times(n, d);
    CastProduct(n, e);
    CastProduct(d, e);
    Grouped(Ratio(n, d), d as real, e as real);
  }

  lemma Grouped(p: real, y: real, s: real)
    ensures p * (y * s) == p * y * s
  {
  }

  lemma CrossEqual(n: int, d: int, m: int, e: int)
    requires d != 0 && e != 0
    ensures Ratio(n, d) == Ratio(m, e) <==> n * e == m * d
  {
    TimesBoth(n, d, e);
    TimesBoth(m, e, d);
    ProductNonZero(d, e);
    if n * e == m * d {
      CancelReal(Ratio(n, d), Ratio(m, e), d as real * e as real);
    }
  }

  lemma CrossLess(n: int, d: int, m: int, e: int)
    requires d > 0 && e > 0
    ensures Ratio(n, d) < Ratio(m, e) <==> n * e < m * d
  {
    TimesBoth(n, d, e);
    TimesBoth(m, e, d);
    Scaled(Ratio(n, d), Ratio(m, e), d as real * e as real);
  }

  lemma Scaled(p: real, q: real, y: real)
    requires y > 0.0
    ensures p < q <==> p * y < q * y
  {
    assert (q - p) * y == q * y - p * y;
    if p < q {
      assert (q - p) * y > 0.0;
    } else {
      assert (p - q) * y >= 0.0;
    }
  }

  lemma RatioSum(a: int, b: int, c: int, d: int)
    requires b != 0 && d != 0
    ensures b * d != 0
    ensures Ratio(a, b) + Ratio(c, d) == Ratio(a * d + c * b, b * d)
  {
    ProductNonZero(b, d);
    TimesBoth(a, b, d);
    TimesBoth(c, d, b);
    var p, q, y := Ratio(a, b), Ratio(c, d), b as real * d as real;
    Distributed(p, q, y);
    RatioIs(a * d + c * b, b * d, p + q);
  }

  lemma Distributed(p: real, q: real, y: real)
    ensures (p + q) * y == p * y + q * y
  {
  }

  lemma RatioNegated(a: int, b: int)
    requires b != 0
    ensures Ratio(-a, b) == -Ratio(a, b) && Ratio(-a, -b) == Ratio(a, b)
  {
    Times(a, b);
    NegatedFactors(Ratio(a, b), b as real);
    RatioIs(-a, b, -Ratio(a, b));
    RatioIs(-a, -b, Ratio(a, b));
  }

  lemma NegatedFactors(p: real, y: real)
    ensures -p * y == -(p * y) && p * -y == -(p * y)
  {
  }

  lemma RatioProduct(a: int, b: int, c: int, d: int)
    requires b != 0 && d != 0
    ensures b * d != 0
    ensures Ratio(a, b) * Ratio(c, d) == Ratio(a * c, b * d)
  {
    ProductNonZero(b, d);
    Times(a, b);
    Times(c, d);
    CastProduct(a, c);
    CastProduct(b, d);
    FourFactors(Ratio(a, b), Ratio(c, d), b as real, d as real);
    RatioIs(a * c, b * d, Ratio(a, b) * Ratio(c, d));
  }

  lemma FourFactors(p: real, q: real, y: real, s: real)
    ensures p * q * (y * s) == p * y * (q * s)
  {
    assert p * q * (y * s) == p * (q * (y * s));
    assert q * (y * s) == y * (q * s);
  }

  /** The product with the inverse of a ratio that is not zero. */
  lemma RatioQuotient(a: int, b: int, c: int, d: int)
    requires b != 0 && c != 0 && d != 0
    ensures b * c != 0 && Ratio(c, d) != 0.0
    ensures Ratio(a, b) / Ratio(c, d) == Ratio(a * d, b * c)
  {
    Times(c, d);
    RatioProduct(a, b, d, c);
    Times(d, c);
    var p, q, i := Ratio(a, b), Ratio(c, d), Ratio(d, c);
    NotZero(q, d as real);
    Inverse(q, i, c as real, d as real);
    Divided(p, q, i);
  }

  lemma NotZero(q: real, y: real)
    requires q * y != 0.0
    ensures q != 0.0
  {
  }

  lemma Inverse(q: real, i: real, c: real, d: real)
    requires q * d == c && i * c == d && c != 0.0 && d != 0.0
    ensures q * i == 1.0
  {
    FourFactors(q, i, d, c);
    assert q * i * (d * c) == c * d;
    CancelReal(q * i, 1.0, d * c);
  }

  lemma Divided(p: real, q: real, i: real)
    requires q != 0.0 && q * i == 1.0
    ensures p / q == p * i
  {
    TimesBack(p, q);
    Grouped(p, q, i);
    Grouped(p, i, q);
    CancelReal(p / q, p * i, q);
  }
}
