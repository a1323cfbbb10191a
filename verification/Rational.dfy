/** A fraction kept in lowest terms, and its arithmetic, which never normalises a result. */
module Rational {
  import opened Wrappers
  import opened NumberTheory
  import opened Ratios
  import opened Fractions

  /** Euclid's loop, two remainders a turn. */
  method GcdLoop(n0: int, m0: int) returns (g: nat)
    ensures g == Gcd(n0, m0)
  {
    var n: nat := Abs(n0);
    var m: nat := Abs(m0);
    while true
      invariant Euclid(n, m) == Gcd(n0, m0)
      decreases m
    {
      if m == 0 {
        return n;
      }
      n := n % m;
      if n == 0 {
        return m;
      }
      m := m % n;
    }
  }

  /** The greatest common divisor is what its name says: its divisors are the common ones. */
  lemma GcdMeaning(n: int, m: int, d: int)
    ensures Divides(d, Gcd(n, m)) <==> Divides(d, n) && Divides(d, m)
  {
    var g := Gcd(n, m);
    GcdIsGcd(n, m);
    if Divides(d, g) {
      DividesMultiple(d, g, n);
      DividesMultiple(d, g, m);
    }
    if Divides(d, n) && Divides(d, m) {
      GcdGreatest(g, n, m, d);
    }
  }

  lemma DividesMultiple(d: int, g: int, n: int)
    requires Divides(d, g) && Divides(g, n)
    ensures Divides(d, n)
  {
    var j: int :| g == d * j;
    var k: int :| n == g * k;
    assert d * j * k == d * (j * k);
    DividesBy(d, n, j * k);
  }

  ghost predicate IsLcm(l: int, n: int, m: int) {
    l >= 0 && forall e: int :: Divides(n, e) && Divides(m, e) <==> Divides(l, e)
  }

  method Lcm(n0: int, m0: int) returns (l: nat)
    ensures IsLcm(l, n0, m0)
  {
    if n0 == 0 || m0 == 0 {
      ZeroMultiples(n0, m0);
      return 0;
    }
    var g := GcdLoop(n0, m0);
    LcmParts(n0, m0);
    var n := n0 / g;
    n := n * m0;
    if n < 0 {
      n := -n;
    }
    return n;
  }

  lemma ZeroMultiples(n: int, m: int)
    requires n == 0 || m == 0
    ensures IsLcm(0, n, m)
  {
    forall e: int
      ensures Divides(n, e) && Divides(m, e) <==> Divides(0, e)
    {
      if Divides(n, e) && Divides(m, e) {
        ZeroDivides(e);
      }
      if Divides(0, e) {
        ZeroDivides(e);
        DividesBy(n, 0, 0);
        DividesBy(m, 0, 0);
      }
    }
  }

  lemma ZeroDivides(e: int)
    ensures Divides(0, e) <==> e == 0
  {
    if e == 0 {
      DividesBy(0, e, 0);
    }
    if Divides(0, e) {
      var k: int :| e == 0 * k;
      ZeroTimes(k);
    }
  }

  lemma ZeroTimes(k: int)
    ensures 0 * k == 0
  {
  }

  /** n/g*m and its negative divide exactly the common multiples. */
  lemma LcmParts(n: int, m: int)
    requires n != 0 && m != 0
    ensures Gcd(n, m) != 0
    ensures forall e: int ::
              (Divides(n, e) && Divides(m, e) <==> Divides(n / Gcd(n, m) * m, e))
              && (Divides(n, e) && Divides(m, e) <==> Divides(-(n / Gcd(n, m) * m), e))
  {
    var g := Gcd(n, m);
    GcdIsGcd(n, m);
    Quotients(g, n, m);
    forall e: int
      ensures (Divides(n, e) && Divides(m, e) <==> Divides(n / g * m, e))
           && (Divides(n, e) && Divides(m, e) <==> Divides(-(n / g * m), e))
    {
      CommonMultiple(n, m, g, n / g, m / g, e);
      DividesNegated(n / g * m, e);
    }
  }

  lemma DividesNegated(d: int, e: int)
    ensures Divides(d, e) <==> Divides(-d, e)
  {
    if Divides(d, e) {
      var k: int :| e == d * k;
      Flipped(d, k);
      DividesBy(-d, e, -k);
    }
    if Divides(-d, e) {
      var k: int :| e == -d * k;
      Flipped(d, k);
      DividesBy(d, e, -k);
    }
  }

  lemma CommonMultiple(n: int, m: int, g: int, n1: int, m1: int, e: int)
    requires g != 0 && n == g * n1 && m == g * m1 && Coprime(n1, m1)
    ensures Divides(n, e) && Divides(m, e) <==> Divides(n1 * m, e)
  {
    SameProduct(g, n1, m1);
    if Divides(n, e) && Divides(m, e) {
      var j: int :| e == n * j;
      var k: int :| e == m * k;
      MultipleOfBoth(g, n1, m1, j, k);
    }
    if Divides(n1 * m, e) {
      DividesBy(m, n1 * m, n1);
      DividesBy(n, n1 * m, m1);
      DividesMultiple(m, n1 * m, e);
      DividesMultiple(n, n1 * m, e);
    }
  }

  lemma SameProduct(g: int, n1: int, m1: int)
    ensures n1 * (g * m1) == g * n1 * m1
  {
  }

  lemma MultipleOfBoth(g: int, n1: int, m1: int, j: int, k: int)
    requires g != 0 && g * n1 * j == g * m1 * k && Coprime(n1, m1)
    ensures Divides(n1 * (g * m1), g * m1 * k)
  {
    Associated(g, n1, j);
    Associated(g, m1, k);
    Cancel(g, n1 * j, m1 * k);
    DividesBy(n1, m1 * k, j);
    CoprimeDivides(n1, m1, k);
    var i: int :| k == n1 * i;
    Crossed(g * m1, n1, i);
    DividesBy(n1 * (g * m1), g * m1 * k, i);
  }

  lemma Associated(g: int, p: int, q: int)
    ensures g * p * q == g * (p * q)
  {
  }

  lemma Crossed(m: int, p: int, q: int)
    ensures m * (p * q) == p * m * q
  {
  }

  class Rational {
    var num: int
    var den: int

    ghost predicate Valid()
      reads this
    {
      Lowest(num, den)
    }

    ghost function Value(): real
      reads this
      requires den != 0
    {
      Ratio(num, den)
    }

    constructor Whole(n: int)
      ensures Valid() && Value() == n as real
    {
      num, den := n, 1;
      WholeIsLowest(n);
    }

    static method FromFraction(n: int, d: int) returns (r: Option<Rational>)
      ensures r.None? <==> d == 0
      ensures r.Some? ==> fresh(r.value) && r.value.Valid() && r.value.Value() == Ratio(n, d)
    {
      var f := new Rational.Whole(0);
      var ok := f.Assign(n, d);
      if ok {
        return Some(f);
      }
      return None;
    }

    /** A zero denominator is refused with the parts already stored. */
    method Assign(n: int, d: int) returns (ok: bool)
      modifies this
      ensures ok <==> d != 0
      ensures ok ==> Valid() && Value() == Ratio(n, d)
      ensures !ok ==> num == n && den == d
    {
      num, den := n, d;
      ok := Normalize();
    }

    method Normalize() returns (ok: bool)
      modifies this
      ensures ok <==> old(den) != 0
      ensures ok ==> Valid() && Value() == old(Ratio(num, den))
      ensures !ok ==> num == old(num) && den == old(den)
    {
      if den == 0 {
        return false;
      }
      if num == 0 {
        ZeroIsLowest(den);
        den := 1;
        return true;
      }
      Reduced(num, den);
      var g := GcdLoop(num, den);
      num := num / g;
      den := den / g;
      SignMoved(num, den);
      if den < 0 {
        num := -num;
        den := -den;
      }
      return true;
    }

    method Add(r: Rational)
      requires Valid() && r.Valid()
      modifies this
      ensures Valid() && Value() == old(Value()) + old(r.Value())
    {
      var rnum, rden := r.num, r.den;
      ghost var a, b := num, den;
      var g := GcdLoop(den, rden);
      PositiveGcd(den, rden);
      den := den / g;
      num := num * (rden / g) + rnum * den;
      ghost var t := num;
      var h := GcdLoop(num, g);
      SumReduced(a, b, rnum, rden, g, t, h);
      num := num / h;
      den := den * (rden / h);
    }

    method Subtract(r: Rational)
      requires Valid() && r.Valid()
      modifies this
      ensures Valid() && Value() == old(Value()) - old(r.Value())
    {
      var rnum, rden := r.num, r.den;
      ghost var a, b := num, den;
      var g := GcdLoop(den, rden);
      PositiveGcd(den, rden);
      den := den / g;
      Flipped(rnum, den);
      num := num * (rden / g) - rnum * den;
      ghost var t := num;
      var h := GcdLoop(num, g);
      CoprimeNegated(rnum, rden);
      RatioNegated(rnum, rden);
      SumReduced(a, b, -rnum, rden, g, t, h);
      num := num / h;
      den := den * (rden / h);
    }

    method Multiply(r: Rational)
      requires Valid() && r.Valid()
      modifies this
      ensures Valid() && Value() == old(Value()) * old(r.Value())
    {
      var rnum, rden := r.num, r.den;
      var g := GcdLoop(num, rden);
      var k := GcdLoop(rnum, den);
      ProductReduced(num, den, rnum, rden, g, k);
      num := num / g * (rnum / k);
      den := den / k * (rden / g);
    }

    /** Refused, with nothing changed, exactly when the divisor is zero. */
    method Divide(r: Rational) returns (ok: bool)
      requires Valid() && r.Valid()
      modifies this
      ensures ok <==> old(r.Value()) != 0.0
      ensures Valid()
      ensures ok ==> Value() == old(Value()) / old(r.Value())
      ensures !ok ==> num == old(num) && den == old(den)
    {
      var rnum, rden := r.num, r.den;
      ZeroValue(rnum, rden);
      if rnum == 0 {
        return false;
      }
      if num == 0 {
        ZeroValue(num, den);
        ZeroDivided(Ratio(rnum, rden));
        return true;
      }
      var g := GcdLoop(num, rnum);
      var k := GcdLoop(rden, den);
      QuotientReduced(num, den, rnum, rden, g, k);
      num := num / g * (rden / k);
      den := den / k * (rnum / g);
      if den < 0 {
        num := -num;
        den := -den;
      }
      return true;
    }

    method AddInt(i: int)
      requires Valid()
      modifies this
      ensures Valid() && Value() == old(Value()) + i as real
    {
      var r := new Rational.Whole(i);
      Add(r);
    }

    method SubtractInt(i: int)
      requires Valid()
      modifies this
      ensures Valid() && Value() == old(Value()) - i as real
    {
      var r := new Rational.Whole(i);
      Subtract(r);
    }

    method MultiplyInt(i: int)
      requires Valid()
      modifies this
      ensures Valid() && Value() == old(Value()) * i as real
    {
      var r := new Rational.Whole(i);
      Multiply(r);
    }

    method DivideInt(i: int) returns (ok: bool)
      requires Valid()
      modifies this
      ensures ok <==> i != 0
      ensures Valid()
      ensures ok ==> Value() == old(Value()) / i as real
      ensures !ok ==> num == old(num) && den == old(den)
    {
      var r := new Rational.Whole(i);
      ok := Divide(r);
    }

    method Increment()
      requires Valid()
      modifies this
      ensures Valid() && Value() == old(Value()) + 1.0
    {
      Stepped(num, den, 1);
      num := num + den;
    }

    method Decrement()
      requires Valid()
      modifies this
      ensures Valid() && Value() == old(Value()) - 1.0
    {
      Stepped(num, den, -1);
      num := num - den;
    }

    method Negated() returns (r: Rational)
      requires Valid()
      ensures fresh(r) && r.Valid() && r.Value() == -Value()
    {
      RatioNegated(num, den);
      var o := FromFraction(-num, den);
      r := o.value;
    }

    /** The sign shortcuts and the reduced cross products give the order of the values. */
    method Less(r: Rational) returns (b: bool)
      requires Valid() && r.Valid()
      ensures b <==> num * r.den < r.num * den
      ensures b <==> Value() < r.Value()
    {
      CrossLess(num, den, r.num, r.den);
      SignsDecide(num, den, r.num, r.den);
      if num < 0 && r.num >= 0 {
        return true;
      }
      if num >= 0 && r.num <= 0 {
        return false;
      }
      var g := GcdLoop(num, r.num);
      var k := GcdLoop(r.den, den);
      LessReduced(num, den, r.num, r.den, g, k);
      return num / g * (r.den / k) < den / k * (r.num / g);
    }

    predicate LessInt(i: int)
      reads this
      requires den > 0
    {
      if num < 0 && i >= 0 then true
      else if num >= 0 && i <= 0 then false
      else if num > 0 then num / den < i
      else -i < -num / den
    }

    predicate GreaterInt(i: int)
      reads this
      requires den > 0
    {
      if num == i && den == 1 then false else !LessInt(i)
    }

    predicate Equal(r: Rational)
      reads this, r
    {
      num == r.num && den == r.den
    }
  }

  lemma PositiveGcd(n: int, m: int)
    requires n > 0 && m > 0
    ensures Gcd(n, m) > 0
  {
    GcdIsGcd(n, m);
  }

  lemma ZeroIsLowest(d: int)
    requires d != 0
    ensures Lowest(0, 1) && Ratio(0, 1) == Ratio(0, d)
  {
    CoprimeBy(0, 1, 0, 1);
    CrossEqual(0, 1, 0, d);
    ZeroTimes(d);
  }

  lemma ZeroValue(n: int, d: int)
    requires d != 0
    ensures Ratio(n, d) == 0.0 <==> n == 0
  {
    CrossEqual(n, d, 0, 1);
    ZeroTimes(d);
  }

  lemma ZeroDivided(q: real)
    requires q != 0.0
    ensures 0.0 / q == 0.0
  {
  }

  /** A quotient by a fraction that is not zero, up to the sign of its denominator. */
  lemma QuotientReduced(a: int, b: int, c: int, d: int, g: int, k: int)
    requires Lowest(a, b) && Lowest(c, d) && c != 0
    requires g == Gcd(a, c) && k == Gcd(d, b)
    ensures g > 0 && k > 0 && b / k * (c / g) != 0 && Ratio(c, d) != 0.0
    ensures b / k * (c / g) > 0 ==>
              Lowest(a / g * (d / k), b / k * (c / g))
              && Ratio(a / g * (d / k), b / k * (c / g)) == Ratio(a, b) / Ratio(c, d)
    ensures b / k * (c / g) < 0 ==>
              Lowest(-(a / g * (d / k)), -(b / k * (c / g)))
              && Ratio(-(a / g * (d / k)), -(b / k * (c / g))) == Ratio(a, b) / Ratio(c, d)
  {
    CoprimeSymmetric(c, d);
    ProductReduced(a, b, d, c, g, k);
    ByInverse(a, b, c, d);
    SignMoved(a / g * (d / k), b / k * (c / g));
  }

  lemma ByInverse(a: int, b: int, c: int, d: int)
    requires b != 0 && c != 0 && d != 0
    ensures Ratio(c, d) != 0.0
    ensures Ratio(a, b) * Ratio(d, c) == Ratio(a, b) / Ratio(c, d)
  {
    RatioQuotient(a, b, c, d);
    RatioProduct(a, b, d, c);
  }

  /** Adding the denominator to the numerator keeps lowest terms. */
  lemma Stepped(n: int, d: int, k: int)
    requires Lowest(n, d)
    ensures Lowest(n + k * d, d) && Ratio(n + k * d, d) == Ratio(n, d) + k as real
  {
    CoprimeShift(n, d, k);
    WholeIsLowest(k);
    RatioSum(n, d, k, 1);
    CrossEqual(n + k * d, d, n * 1 + k * d, d * 1);
  }

  // ----- the order

  /** Comparing the parts compares the values. */
  lemma EqualIffSameValue(x: Rational, y: Rational)
    requires x.Valid() && y.Valid()
    ensures x.Equal(y) <==> x.Value() == y.Value()
  {
    LowestUnique(x.num, x.den, y.num, y.den);
  }

  ghost predicate Below(x: Rational, y: Rational)
    reads x, y
  {
    x.num * y.den < y.num * x.den
  }

  /** Exactly one of below, equal and above holds, and below is transitive. */
  lemma TotalOrder(x: Rational, y: Rational, z: Rational)
    requires x.Valid() && y.Valid() && z.Valid()
    ensures Below(x, y) ==> !x.Equal(y) && !Below(y, x)
    ensures Below(x, y) || x.Equal(y) || Below(y, x)
    ensures Below(x, y) && Below(y, z) ==> Below(x, z)
  {
    EqualIffSameValue(x, y);
    CrossLess(x.num, x.den, y.num, y.den);
    CrossLess(y.num, y.den, x.num, x.den);
    CrossLess(y.num, y.den, z.num, z.den);
    CrossLess(x.num, x.den, z.num, z.den);
  }

  // ----- comparing with an integer

  /** A negative fraction strictly between i - 1 and i. */
  predicate JustBelow(n: int, d: int, i: int)
    requires d > 0
  {
    n < 0 && i < 0 && d != 1 && -n / d == -i
  }

  /** Comparing by truncated division is right except just below a negative integer. */
  lemma LessIntExact(x: Rational, i: int)
    requires x.Valid()
    ensures x.LessInt(i) == (x.Value() < i as real) <==> !JustBelow(x.num, x.den, i)
  {
    IntCross(x.num, x.den, i);
    Division(x.num, x.den, i);
    NegativeFloor(x.num, x.den, i);
  }

  /** Below a negative integer: the floor of the opposite is larger, or equal with a rest. */
  lemma NegativeFloor(n: int, d: int, i: int)
    requires Lowest(n, d)
    ensures n < i * d <==> -i < -n / d || (-n / d == -i && d != 1)
  {
    Division(-n, d, -i);
    Flipped(i, d);
    var q := -n / d;
    assert -n == d * q + -n % d;
    Flipped(q, d);
    Commuted(q, d);
    if d != 1 && n == -q * d {
      NotWhole(n, d, -q);
    }
    if d == 1 {
      WholeDivision(-n);
    }
  }

  lemma WholeDivision(n: int)
    ensures n / 1 == n
  {
  }

  lemma GreaterIntExact(x: Rational, i: int)
    requires x.Valid()
    ensures x.GreaterInt(i) == (x.Value() > i as real) <==> !JustBelow(x.num, x.den, i)
  {
    LessIntExact(x, i);
    IntCross(x.num, x.den, i);
    WholeIsLowest(i);
    LowestUnique(x.num, x.den, i, 1);
  }

  lemma IntCross(n: int, d: int, i: int)
    requires d > 0
    ensures Ratio(n, d) < i as real <==> n < i * d
    ensures Ratio(n, d) == i as real <==> n == i * d
  {
    WholeIsLowest(i);
    CrossLess(n, d, i, 1);
    CrossEqual(n, d, i, 1);
  }

  /** The signs and the floor of a quotient against an integer. */
  lemma Division(n: int, d: int, i: int)
    requires d > 0
    ensures n / d < i <==> n < i * d
    ensures n / d > i ==> n > i * d
    ensures (i >= 0 ==> i * d >= 0) && (i <= 0 ==> i * d <= 0)
  {
    var q := n / d;
    assert n == d * q + n % d;
    Commuted(i, d);
    Apart(d, i, q);
    PositiveFactor(d, i - q);
    PositiveFactor(d, i);
    if i - q >= 1 {
      Bigger(d, i - q);
    }
  }

  lemma NotWhole(n: int, d: int, i: int)
    requires Lowest(n, d) && n == i * d
    ensures d == 1
  {
    WholeIsLowest(i);
    IntCross(n, d, i);
    LowestUnique(n, d, i, 1);
  }

  /** -3/2 is below -1, and the comparisons say the opposite. */
  lemma LessIntFails(x: Rational)
    requires x.num == -3 && x.den == 2
    ensures x.Valid() && x.Value() < -1.0 && !x.LessInt(-1) && x.GreaterInt(-1)
  {
    CoprimeBy(-3, 2, 1, 2);
    IntCross(-3, 2, -1);
  }
}
