/** Divisibility, greatest common divisors and coprimality, as fractions need them. */
module NumberTheory {

  ghost predicate Divides(d: int, n: int) {
    exists k: int :: n == d * k
  }

  /** a and b are coprime: some combination of them is 1. */
  ghost predicate Coprime(a: int, b: int) {
    exists x: int, y: int :: a * x + b * y == 1
  }

  lemma CoprimeBy(a: int, b: int, x: int, y: int)
    requires a * x + b * y == 1
    ensures Coprime(a, b)
  {
  }

  lemma DividesBy(d: int, n: int, k: int)
    requires n == d * k
    ensures Divides(d, n)
  {
  }

  lemma CommonFactor(d: int, j: int, k: int, x: int, y: int)
    ensures d * j * x + d * k * y == d * (j * x + k * y)
  {
    assert d * j * x == d * (j * x) && d * k * y == d * (k * y);
  }

  lemma Bigger(g: int, m: int)
    requires g >= 1 && m >= 1
    ensures g * m >= g && g * m >= m
  {
    Expanded(g, m);
    NonNegative(g - 1, m - 1);
  }

  lemma Expanded(g: int, m: int)
    ensures (g - 1) * (m - 1) == g * m - g - m + 1
  {
  }

  lemma NonNegative(p: int, q: int)
    requires p >= 0 && q >= 0
    ensures p * q >= 0
  {
  }

  lemma Positive(p: int, q: int)
    requires p > 0 && q > 0
    ensures p * q > 0
  {
    Bigger(p, q);
  }

  lemma Flipped(p: int, q: int)
    ensures -p * q == -(p * q) && p * -q == -(p * q) && -p * -q == p * q
  {
  }

  lemma UnitFactor(d: int, e: int)
    requires d * e == 1
    ensures d == 1 || d == -1
  {
    Flipped(d, e);
    if d >= 1 && e >= 1 {
      Bigger(d, e);
    } else if d <= -1 && e <= -1 {
      Bigger(-d, -e);
    } else if d >= 1 && e <= -1 {
      Bigger(d, -e);
    } else if d <= -1 && e >= 1 {
      Bigger(-d, e);
    }
  }

  lemma CoprimeSymmetric(a: int, b: int)
    requires Coprime(a, b)
    ensures Coprime(b, a)
  {
    var x: int, y: int :| a * x + b * y == 1;
    CoprimeBy(b, a, y, x);
  }

  lemma CoprimeNegated(a: int, b: int)
    requires Coprime(a, b)
    ensures Coprime(-a, b) && Coprime(-a, -b)
  {
    var x: int, y: int :| a * x + b * y == 1;
    assert -a * -x == a * x && -b * -y == b * y;
    CoprimeBy(-a, b, -x, y);
    CoprimeBy(-a, -b, -x, -y);
  }

  lemma CoprimeProduct(a: int, b: int, c: int)
    requires Coprime(a, b) && Coprime(a, c)
    ensures Coprime(a, b * c)
  {
    var x: int, y: int :| a * x + b * y == 1;
    var u: int, v: int :| a * u + c * v == 1;
    ProductOfSums(a, b, c, x, y, u, v);
    CoprimeBy(a, b * c, x * (a * u + c * v) + b * y * u, y * v);
  }

  lemma ProductOfSums(a: int, b: int, c: int, x: int, y: int, u: int, v: int)
    ensures a * (x * (a * u + c * v) + b * y * u) + b * c * (y * v) == (a * x + b * y) * (a * u + c * v)
  {
    var s := a * u + c * v;
    assert a * (x * s + b * y * u) == a * (x * s) + a * (b * y * u);
    assert a * (x * s) == a * x * s;
    assert a * (b * y * u) == b * y * (a * u);
    assert b * c * (y * v) == b * y * (c * v);
    assert b * y * (a * u) + b * y * (c * v) == b * y * s;
    assert a * x * s + b * y * s == (a * x + b * y) * s;
  }

  lemma CoprimeFactor(a: int, b: int, c: int)
    requires Coprime(a, b * c)
    ensures Coprime(a, b) && Coprime(a, c)
  {
    var x: int, y: int :| a * x + b * c * y == 1;
    assert b * (c * y) == b * c * y == c * (b * y);
    CoprimeBy(a, b, x, c * y);
    CoprimeBy(a, c, x, b * y);
  }

  lemma CoprimeShift(a: int, b: int, k: int)
    requires Coprime(a, b)
    ensures Coprime(a + k * b, b)
  {
    var x: int, y: int :| a * x + b * y == 1;
    assert (a + k * b) * x + b * (y - k * x) == a * x + b * y by {
      assert (a + k * b) * x == a * x + b * (k * x);
      assert b * (y - k * x) == b * y - b * (k * x);
    }
    CoprimeBy(a + k * b, b, x, y - k * x);
  }

  /** A coprime factor of a product's multiple divides the other factor. */
  lemma CoprimeDivides(a: int, b: int, c: int)
    requires Coprime(a, b) && Divides(a, b * c)
    ensures Divides(a, c)
  {
    var x: int, y: int :| a * x + b * y == 1;
    var k: int :| b * c == a * k;
    Combined(a, b, c, x, y, k);
    DividesBy(a, c, x * c + k * y);
  }

  lemma Combined(a: int, b: int, c: int, x: int, y: int, k: int)
    requires a * x + b * y == 1 && b * c == a * k
    ensures c == a * (x * c + k * y)
  {
    assert (a * x + b * y) * c == a * x * c + b * y * c;
    assert a * x * c == a * (x * c);
    assert b * y * c == b * c * y;
    assert a * k * y == a * (k * y);
    assert a * (x * c) + a * (k * y) == a * (x * c + k * y);
  }

  // ----- Euclid

  function Abs(n: int): nat {
    if n < 0 then -n else n
  }

  function Euclid(n: nat, m: nat): (g: nat)
    decreases m
  {
    if m == 0 then n else Euclid(m, n % m)
  }

  function Gcd(n: int, m: int): (g: nat) {
    Euclid(Abs(n), Abs(m))
  }

  /** g divides both, and is a combination of both. */
  ghost predicate IsGcd(g: int, a: int, b: int) {
    Divides(g, a) && Divides(g, b) && exists x: int, y: int :: a * x + b * y == g
  }

  lemma IsGcdBy(g: int, a: int, b: int, j: int, k: int, x: int, y: int)
    requires a == g * j && b == g * k && a * x + b * y == g
    ensures IsGcd(g, a, b)
  {
    DividesBy(g, a, j);
    DividesBy(g, b, k);
  }

  lemma {:induction false} EuclidIsGcd(n: nat, m: nat)
    ensures IsGcd(Euclid(n, m), n, m) && (Euclid(n, m) == 0 <==> n == 0 && m == 0)
    decreases m
  {
    if m == 0 {
      IsGcdBy(n, n, m, 1, 0, 1, 0);
    } else {
      EuclidIsGcd(m, n % m);
      var g, q, r := Euclid(m, n % m), n / m, n % m;
      assert n == q * m + r;
      EuclidStep(g, n, m, q, r);
    }
  }

  /** A divisor and combination of m and the remainder is one of n and m. */
  lemma EuclidStep(g: int, n: int, m: int, q: int, r: int)
    requires n == q * m + r && IsGcd(g, m, r)
    ensures IsGcd(g, n, m)
  {
    var j: int :| m == g * j;
    var k: int :| r == g * k;
    var x: int, y: int :| m * x + r * y == g;
    Regrouped(g, q, j, k);
    Recombined(m, r, q, x, y);
    IsGcdBy(g, n, m, q * j + k, j, y, x - q * y);
  }

  lemma Regrouped(g: int, q: int, j: int, k: int)
    ensures q * (g * j) + g * k == g * (q * j + k)
  {
    assert q * (g * j) == g * (q * j);
  }

  lemma Recombined(m: int, r: int, q: int, x: int, y: int)
    ensures (q * m + r) * y + m * (x - q * y) == m * x + r * y
  {
    assert (q * m + r) * y == q * m * y + r * y;
    assert m * (x - q * y) == m * x - m * (q * y);
    assert q * m * y == m * (q * y);
  }

  lemma GcdIsGcd(n: int, m: int)
    ensures IsGcd(Gcd(n, m), n, m) && (Gcd(n, m) == 0 <==> n == 0 && m == 0)
  {
    EuclidIsGcd(Abs(n), Abs(m));
    var g := Gcd(n, m);
    var j: int :| Abs(n) == g * j;
    var k: int :| Abs(m) == g * k;
    var x: int, y: int :| Abs(n) * x + Abs(m) * y == g;
    var s, t := if n < 0 then -1 else 1, if m < 0 then -1 else 1;
    Signed(n, s, g, j, x);
    Signed(m, t, g, k, y);
    IsGcdBy(g, n, m, s * j, t * k, s * x, t * y);
  }

  lemma Signed(n: int, s: int, g: int, j: int, x: int)
    requires s == (if n < 0 then -1 else 1) && Abs(n) == g * j
    ensures n == g * (s * j) && n * (s * x) == Abs(n) * x
  {
    if s == -1 {
      assert g * (s * j) == -(g * j);
      assert n * (s * x) == -n * x;
    }
  }

  /** Any common divisor divides it: it is the greatest. */
  lemma GcdGreatest(g: int, a: int, b: int, d: int)
    requires IsGcd(g, a, b) && Divides(d, a) && Divides(d, b)
    ensures Divides(d, g)
  {
    var x: int, y: int :| a * x + b * y == g;
    var j: int :| a == d * j;
    var k: int :| b == d * k;
    CommonFactor(d, j, k, x, y);
    DividesBy(d, g, j * x + k * y);
  }

  lemma ExactQuotient(n: int, g: int, k: int)
    requires g > 0 && n == g * k
    ensures n / g == k
  {
    var d := k - n / g;
    Apart(g, k, n / g);
    Flipped(g, d);
    if d >= 1 {
      Bigger(g, d);
    } else if d <= -1 {
      Bigger(g, -d);
    }
  }

  lemma Apart(g: int, a: int, b: int)
    ensures g * (a - b) == g * a - g * b
  {
  }

  /** What is left when the greatest common divisor is divided out is coprime. */
  lemma Quotients(g: int, a: int, b: int)
    requires IsGcd(g, a, b) && g > 0
    ensures a == g * (a / g) && b == g * (b / g) && Coprime(a / g, b / g)
  {
    var x: int, y: int :| a * x + b * y == g;
    var j: int :| a == g * j;
    var k: int :| b == g * k;
    ExactQuotient(a, g, j);
    ExactQuotient(b, g, k);
    CommonFactor(g, j, k, x, y);
    Cancel(g, j * x + k * y, 1);
    CoprimeBy(j, k, x, y);
  }

  lemma Cancel(g: int, a: int, b: int)
    requires g != 0 && g * a == g * b
    ensures a == b
  {
    Apart(g, a, b);
    NonZero(g, a - b);
  }

  lemma NonZero(g: int, d: int)
    requires g * d == 0
    ensures g == 0 || d == 0
  {
  }

  /** Coprime is what the source calls so: the greatest common divisor is 1. */
  lemma CoprimeIffGcd(a: int, b: int)
    ensures Coprime(a, b) <==> Gcd(a, b) == 1
  {
    var g := Gcd(a, b);
    GcdIsGcd(a, b);
    if Coprime(a, b) {
      var x: int, y: int :| a * x + b * y == 1;
      var j: int :| a == g * j;
      var k: int :| b == g * k;
      CommonFactor(g, j, k, x, y);
      UnitFactor(g, j * x + k * y);
    }
  }
}
