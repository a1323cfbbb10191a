/** Fractions in lowest terms: why the arithmetic on them needs no final normalisation. */
module Fractions {
  import opened NumberTheory
  import opened Ratios

  ghost predicate Lowest(n: int, d: int) {
    d > 0 && Coprime(n, d)
  }

  lemma WholeIsLowest(n: int)
    ensures Lowest(n, 1) && Ratio(n, 1) == n as real
  {
    CoprimeBy(n, 1, 0, 1);
    Times(n, 1);
  }

  /** A value has one fraction in lowest terms. */
  lemma LowestUnique(a: int, b: int, c: int, d: int)
    requires Lowest(a, b) && Lowest(c, d)
    ensures a == c && b == d <==> Ratio(a, b) == Ratio(c, d)
  {
    CrossEqual(a, b, c, d);
    if a * d == c * b {
      DividesBy(b, a * d, c);
      CoprimeSymmetric(a, b);
      CoprimeDivides(b, a, d);
      DividesBy(d, c * b, a);
      CoprimeSymmetric(c, d);
      CoprimeDivides(d, c, b);
      MutualDivisors(b, d);
      Cancel(b, a, c);
    }
  }

  lemma MutualDivisors(b: int, d: int)
    requires b > 0 && d > 0 && Divides(b, d) && Divides(d, b)
    ensures b == d
  {
    var j: int :| d == b * j;
    var k: int :| b == d * k;
    NotSmaller(b, j);
    NotSmaller(d, k);
  }

  lemma NotSmaller(b: int, j: int)
    requires b > 0 && b * j > 0
    ensures b * j >= b
  {
    Flipped(b, j);
    if j >= 1 {
      Bigger(b, j);
    } else if j <= -1 {
      Bigger(b, -j);
    }
  }

  // ----- reducing

  lemma PositiveFactor(g: int, q: int)
    requires g > 0
    ensures (g * q > 0 <==> q > 0) && (g * q == 0 <==> q == 0)
  {
    Flipped(g, q);
    if q >= 1 {
      Bigger(g, q);
    } else if q <= -1 {
      Bigger(g, -q);
    }
  }

  /** Dividing by the greatest common divisor keeps the value and leaves coprime parts. */
  lemma Reduced(n: int, d: int)
    requires n != 0 && d != 0
    ensures Gcd(n, d) > 0
    ensures Coprime(n / Gcd(n, d), d / Gcd(n, d))
    ensures d / Gcd(n, d) != 0 && Ratio(n / Gcd(n, d), d / Gcd(n, d)) == Ratio(n, d)
  {
    var g := Gcd(n, d);
    GcdIsGcd(n, d);
    Quotients(g, n, d);
    PositiveFactor(g, d / g);
    CrossMoved(g, n / g, d / g);
    CrossEqual(n / g, d / g, n, d);
  }

  lemma CrossMoved(g: int, p: int, q: int)
    ensures p * (g * q) == g * p * q
  {
  }

  // ----- sums

  /** One factor of the reduced sum's denominator: t = a*d1 + c*b1 has nothing in common with b1. */
  lemma SumCoprime(a: int, b1: int, c: int, d1: int, g: int)
    requires Coprime(a, g * b1) && Coprime(b1, d1)
    ensures Coprime(a * d1 + c * b1, b1)
  {
    CoprimeFactor(a, g, b1);
    CoprimeSymmetric(a, b1);
    CoprimeProduct(b1, a, d1);
    CoprimeSymmetric(b1, a * d1);
    CoprimeShift(a * d1, b1, c);
  }

  /** The parts of a sum after both divisions: t = h*t1, g = h*g1. */
  lemma SumParts(t1: int, h: int, b1: int, d1: int, g1: int)
    requires Coprime(h * t1, b1) && Coprime(h * t1, d1) && Coprime(t1, g1)
    ensures Coprime(t1, b1 * (d1 * g1))
  {
    CoprimeSymmetric(h * t1, b1);
    CoprimeFactor(b1, h, t1);
    CoprimeSymmetric(b1, t1);
    CoprimeSymmetric(h * t1, d1);
    CoprimeFactor(d1, h, t1);
    CoprimeSymmetric(d1, t1);
    CoprimeProduct(t1, d1, g1);
    CoprimeProduct(t1, b1, d1 * g1);
  }

  lemma SumCross(a: int, c: int, b1: int, d1: int, h: int, t1: int, g1: int)
    requires a * d1 + c * b1 == h * t1
    ensures t1 * ((h * g1) * b1 * ((h * g1) * d1))
         == (a * ((h * g1) * d1) + c * ((h * g1) * b1)) * (b1 * (d1 * g1))
  {
    Factored(a, c, b1, d1, h * g1);
    Spread(t1, h, g1, b1, d1);
  }

  lemma Factored(a: int, c: int, b1: int, d1: int, g: int)
    ensures a * (g * d1) + c * (g * b1) == g * (a * d1 + c * b1)
  {
    assert a * (g * d1) == g * (a * d1);
    assert c * (g * b1) == g * (c * b1);
  }

  lemma Spread(t1: int, h: int, g1: int, b1: int, d1: int)
    ensures t1 * (h * g1 * b1 * (h * g1 * d1)) == h * g1 * (h * t1) * (b1 * (d1 * g1))
  {
    var g := h * g1;
    assert t1 * (g * b1 * (g * d1)) == g * (t1 * (b1 * (g * d1)));
    assert g * (h * t1) * (b1 * (d1 * g1)) == g * ((h * t1) * (b1 * (d1 * g1)));
    assert (h * t1) * (b1 * (d1 * g1)) == t1 * (h * (b1 * (d1 * g1)));
    assert b1 * (g * d1) == h * (b1 * (d1 * g1));
  }

  /** The sum as computed: divided only by the greatest common divisor of t and g. */
  lemma SumReduced(a: int, b: int, c: int, d: int, g: int, t: int, h: int)
    requires Lowest(a, b) && Lowest(c, d) && g == Gcd(b, d)
    requires g > 0 ==> t == a * (d / g) + c * (b / g) && h == Gcd(t, g)
    ensures g > 0 && h > 0
    ensures Lowest(t / h, b / g * (d / h))
    ensures Ratio(t / h, b / g * (d / h)) == Ratio(a, b) + Ratio(c, d)
  {
    GcdIsGcd(b, d);
    Quotients(g, b, d);
    var b1, d1 := b / g, d / g;
    PositiveFactor(g, b1);
    PositiveFactor(g, d1);
    SumCoprime(a, b1, c, d1, g);
    CoprimeSymmetric(b1, d1);
    SumCoprime(c, d1, a, b1, g);
    GcdIsGcd(t, g);
    Quotients(h, t, g);
    var t1, g1 := t / h, g / h;
    PositiveFactor(h, g1);
    SumParts(t1, h, b1, d1, g1);
    Regroup(h, g1, d1);
    ExactQuotient(d, h, d1 * g1);
    Positive(d1, g1);
    Positive(b1, d1 * g1);
    SumCross(a, c, b1, d1, h, t1, g1);
    RatioSum(a, b, c, d);
    CrossEqual(t1, b1 * (d1 * g1), a * d + c * b, b * d);
  }

  lemma Regroup(h: int, g1: int, d1: int)
    ensures h * g1 * d1 == h * (d1 * g1)
  {
  }

  // ----- products

  /** A product of fractions with crosswise divisions is in lowest terms up to sign. */
  lemma ProductReduced(a: int, b: int, c: int, d: int, g: int, k: int)
    requires Coprime(a, b) && Coprime(c, d) && b != 0 && d != 0
    requires g == Gcd(a, d) && k == Gcd(c, b)
    ensures g > 0 && k > 0
    ensures Coprime(a / g * (c / k), b / k * (d / g))
    ensures b / k * (d / g) != 0 && b / k != 0 && d / g != 0
    ensures b > 0 && d > 0 ==> b / k * (d / g) > 0
    ensures Ratio(a / g * (c / k), b / k * (d / g)) == Ratio(a, b) * Ratio(c, d)
  {
    GcdIsGcd(a, d);
    GcdIsGcd(c, b);
    Quotients(g, a, d);
    Quotients(k, c, b);
    var a1, d1, c1, b1 := a / g, d / g, c / k, b / k;
    CoprimeParts(a, b, g, a1, k, b1);
    CoprimeParts(c, d, k, c1, g, d1);
    PositiveFactor(g, d1);
    PositiveFactor(k, b1);
    ProductNonZero(b1, d1);
    if b > 0 && d > 0 {
      Positive(b1, d1);
    }
    CoprimeCross(a1, c1, b1, d1);
    RatioProduct(a, b, c, d);
    ProductCross(a1, c1, b1, d1, g, k);
    CrossEqual(a1 * c1, b1 * d1, a * c, b * d);
  }

  lemma CoprimeParts(a: int, b: int, g: int, a1: int, k: int, b1: int)
    requires Coprime(a, b) && a == g * a1 && b == k * b1
    ensures Coprime(a1, b1)
  {
    CoprimeFactor(a, k, b1);
    CoprimeSymmetric(a, b1);
    CoprimeFactor(b1, g, a1);
    CoprimeSymmetric(b1, a1);
  }

  lemma CoprimeCross(a: int, c: int, b: int, d: int)
    requires Coprime(a, b) && Coprime(a, d) && Coprime(c, b) && Coprime(c, d)
    ensures Coprime(a * c, b * d)
  {
    CoprimeProduct(a, b, d);
    CoprimeProduct(c, b, d);
    CoprimeSymmetric(a, b * d);
    CoprimeSymmetric(c, b * d);
    CoprimeProduct(b * d, a, c);
    CoprimeSymmetric(b * d, a * c);
  }

  lemma ProductCross(a: int, c: int, b: int, d: int, g: int, k: int)
    ensures a * c * (k * b * (g * d)) == g * a * (k * c) * (b * d)
  {
    assert k * b * (g * d) == g * k * (b * d) by {
      assert k * b * (g * d) == k * (b * (g * d));
      assert b * (g * d) == g * (b * d);
      assert k * (g * (b * d)) == g * k * (b * d);
    }
    assert a * c * (g * k * (b * d)) == a * c * (g * k) * (b * d);
    assert g * a * (k * c) == a * c * (g * k) by {
      assert g * a * (k * c) == g * (a * (k * c));
      assert a * (k * c) == k * (a * c);
      assert g * (k * (a * c)) == g * k * (a * c);
    }
  }

  /** The denominator's sign moved to the numerator. */
  lemma SignMoved(n: int, d: int)
    requires Coprime(n, d) && d != 0
    ensures d < 0 ==> Lowest(-n, -d)
    ensures Ratio(-n, -d) == Ratio(n, d)
  {
    CoprimeNegated(n, d);
    RatioNegated(n, d);
  }

  // ----- comparing

  /** The comparison with both sides divided by the common divisors. */
  lemma LessReduced(a: int, b: int, c: int, d: int, g: int, k: int)
    requires b > 0 && d > 0 && (a != 0 || c != 0)
    requires g == Gcd(a, c) && k == Gcd(d, b)
    ensures g > 0 && k > 0
    ensures a / g * (d / k) < b / k * (c / g) <==> a * d < c * b
  {
    GcdIsGcd(a, c);
    GcdIsGcd(d, b);
    Quotients(g, a, c);
    Quotients(k, d, b);
    var a1, c1, d1, b1 := a / g, c / g, d / k, b / k;
    SwapMiddle(g, a1, k, d1);
    SwapMiddle(g, c1, k, b1);
    Positive(g, k);
    ScaledLess(g * k, a1 * d1, c1 * b1);
  }

  lemma SwapMiddle(g: int, p: int, k: int, q: int)
    ensures g * p * (k * q) == g * k * (p * q)
  {
    assert g * p * (k * q) == g * (p * (k * q));
    assert p * (k * q) == k * (p * q);
    assert g * (k * (p * q)) == g * k * (p * q);
  }

  lemma ScaledLess(s: int, p: int, q: int)
    requires s > 0
    ensures s * p < s * q <==> p < q
  {
    Apart(s, q, p);
    PositiveFactor(s, q - p);
  }

  /** Opposite signs decide the comparison. */
  lemma SignsDecide(a: int, b: int, c: int, d: int)
    requires b > 0 && d > 0
    ensures a < 0 && c >= 0 ==> a * d < c * b
    ensures a >= 0 && c <= 0 ==> a * d >= c * b
  {
    PositiveFactor(d, a);
    PositiveFactor(b, c);
    Commuted(a, d);
    Commuted(c, b);
  }

  lemma Commuted(p: int, q: int)
    ensures p * q == q * p
  {
  }
}
