/** The register computes polynomial division over GF(2). A polynomial is its coefficient
    sequence, highest power first; the full divisor of a `Bits`-wide CRC is x^Bits plus the
    truncated polynomial. */
module CrcPolynomial {
  import opened Bits
  import opened CrcRegister

  /** The product of two polynomials. */
  function Mul(q: Word, p: Word): (r: Word)
    requires p != []
    ensures |r| == |q| + |p| - 1
    decreases |q|
  {
    if q == [] then Zeros(|p| - 1)
    else Xor(Scale(q[0], p) + Zeros(|q| - 1), [false] + Mul(q[1..], p))
  }

  function Scale(c: bool, p: Word): (r: Word)
    ensures |r| == |p|
  {
    if c then p else Zeros(|p|)
  }

  function Divisor(poly: Word): (p: Word)
    ensures |p| == |poly| + 1
  {
    [true] + poly
  }

  /** dividend == q * p + r with r of lower degree than p. */
  ghost predicate Divides(dividend: Word, p: Word, q: Word, r: Word)
    requires p != []
  {
    |r| == |p| - 1 && |dividend| == |q| + |r| && dividend == Xor(Mul(q, p), Zeros(|q|) + r)
  }

  ghost predicate IsRemainder(dividend: Word, p: Word, r: Word)
    requires p != []
  {
    exists q :: Divides(dividend, p, q, r)
  }

  /** Quotient and remainder are determined by the dividend. */
  lemma {:induction false} DivisionUnique(d: Word, p: Word, q1: Word, r1: Word, q2: Word, r2: Word)
    requires p != [] && p[0]
    requires Divides(d, p, q1, r1) && Divides(d, p, q2, r2)
    ensures q1 == q2 && r1 == r2
    decreases |d|
  {
    if q1 == [] {
      assert Xor(Zeros(|r1|), Zeros(0) + r1) == r1;
      assert Xor(Zeros(|r2|), Zeros(0) + r2) == r2;
    } else {
      assert q1 == [q1[0]] + q1[1..] && q2 == [q2[0]] + q2[1..];
      HeadOfProduct(d, p, q1, r1);
      HeadOfProduct(d, p, q2, r2);
      DivisionUnique(Xor(d, Scale(d[0], p) + Zeros(|q1| - 1))[1..], p, q1[1..], r1, q2[1..], r2);
    }
  }

  /** Long division by hand: the leading coefficient of the dividend is that of the quotient,
      and subtracting that multiple of the divisor leaves a shorter division. */
  lemma HeadOfProduct(d: Word, p: Word, q: Word, r: Word)
    requires p != [] && p[0] && q != []
    requires Divides(d, p, q, r)
    ensures q[0] == d[0]
    ensures Divides(Xor(d, Scale(d[0], p) + Zeros(|q| - 1))[1..], p, q[1..], r)
  {
    var tail := Mul(q[1..], p);
    assert d[0] == q[0];
    assert Xor(d, Scale(d[0], p) + Zeros(|q| - 1))[1..] == Xor(tail, Zeros(|q| - 1) + r);
  }

  /** The converse step: extend a division by one leading coefficient. */
  lemma ExtendDivision(c: bool, d: Word, p: Word, q: Word, r: Word)
    requires p != []
    requires Divides(d, p, q, r)
    ensures Divides(Xor(Scale(c, p) + Zeros(|q|), [false] + d), p, [c] + q, r)
  {
    var q' := [c] + q;
    assert q'[1..] == q;
    assert Xor(Scale(c, p) + Zeros(|q|), [false] + d) == Xor(Mul(q', p), Zeros(|q'|) + r);
  }

  /** What is added below the quotient's reach is added to the remainder. */
  lemma AddToRemainder(d: Word, p: Word, q: Word, r: Word, e: Word)
    requires p != [] && |e| == |r|
    requires Divides(d, p, q, r)
    ensures Divides(Xor(d, Zeros(|q|) + e), p, q, Xor(r, e))
  {
    assert Xor(d, Zeros(|q|) + e) == Xor(Mul(q, p), Zeros(|q|) + Xor(r, e));
  }

  function Quotient(poly: Word, r: Word, m: Word): (q: Word)
    requires |poly| == |r| > 0
    ensures |q| == |m|
    decreases |m|
  {
    if m == [] then [] else [r[0] != m[0]] + Quotient(poly, Step(poly, r, m[0]), m[1..])
  }

  /** m * x^Bits + r * x^|m| */
  function Dividend(r: Word, m: Word): (d: Word)
    ensures |d| == |r| + |m|
  {
    Xor(m + Zeros(|r|), r + Zeros(|m|))
  }

  lemma DividendFromZero(n: nat, m: Word)
    ensures Dividend(Zeros(n), m) == m + Zeros(n)
  {
  }

  lemma DividendHead(poly: Word, r: Word, m: Word)
    requires |poly| == |r| > 0 && m != []
    ensures Dividend(r, m) == Xor(Scale(r[0] != m[0], Divisor(poly)) + Zeros(|m| - 1),
                                  [false] + Dividend(Step(poly, r, m[0]), m[1..]))
  {
  }

  lemma {:induction false} StepsDivide(poly: Word, r: Word, m: Word)
    requires |poly| == |r| > 0
    ensures Divides(Dividend(r, m), Divisor(poly), Quotient(poly, r, m), Steps(poly, r, m))
    decreases |m|
  {
    if m == [] {
      assert Xor(m + Zeros(|r|), r + Zeros(|m|)) == r;
      assert Xor(Zeros(|r|), Zeros(0) + r) == r;
    } else {
      hide Divides, Dividend;
      var r', c, p := Step(poly, r, m[0]), r[0] != m[0], Divisor(poly);
      StepsDivide(poly, r', m[1..]);
      ExtendDivision(c, Dividend(r', m[1..]), p, Quotient(poly, r', m[1..]), Steps(poly, r', m[1..]));
      DividendHead(poly, r, m);
    }
  }

  /** The register after a message is the polynomial remainder, and nothing else is. */
  lemma StepsAreRemainder(poly: Word, r: Word, m: Word, rem: Word)
    requires |poly| == |r| > 0
    ensures IsRemainder(Dividend(r, m), Divisor(poly), rem) <==> rem == Steps(poly, r, m)
  {
    hide Steps, Quotient, Divides, Dividend;
    StepsDivide(poly, r, m);
    if IsRemainder(Dividend(r, m), Divisor(poly), rem) {
      var q :| Divides(Dividend(r, m), Divisor(poly), q, rem);
      DivisionUnique(Dividend(r, m), Divisor(poly), q, rem, Quotient(poly, r, m), Steps(poly, r, m));
    }
  }

  // ----- augmented messages

  /** One step of the augmented form: the message bit is shifted in at the low end. */
  function AugStep(poly: Word, r: Word, b: bool): (r': Word)
    requires |poly| == |r| > 0
    ensures |r'| == |r|
  {
    Xor(r[1..] + [b], Scale(r[0], poly))
  }

  function AugSteps(poly: Word, r: Word, m: Word): (r': Word)
    requires |poly| == |r| > 0
    ensures |r'| == |r|
    decreases |m|
  {
    if m == [] then r else AugSteps(poly, AugStep(poly, r, m[0]), m[1..])
  }

  lemma AugDividendHead(poly: Word, r: Word, m: Word)
    requires |poly| == |r| > 0 && m != []
    ensures r + m == Xor(Scale(r[0], Divisor(poly)) + Zeros(|m| - 1),
                         [false] + (AugStep(poly, r, m[0]) + m[1..]))
  {
  }

  lemma {:induction false} AugStepsDivide(poly: Word, r: Word, m: Word) returns (q: Word)
    requires |poly| == |r| > 0
    ensures Divides(r + m, Divisor(poly), q, AugSteps(poly, r, m))
    decreases |m|
  {
    if m == [] {
      q := [];
      assert r + m == Xor(Zeros(|r|), Zeros(0) + r);
    } else {
      hide Divides;
      var r', p := AugStep(poly, r, m[0]), Divisor(poly);
      var q' := AugStepsDivide(poly, r', m[1..]);
      ExtendDivision(r[0], r' + m[1..], p, q', AugSteps(poly, r', m[1..]));
      AugDividendHead(poly, r, m);
      q := [r[0]] + q';
    }
  }

  /** The augmented register is the remainder of the register's start value followed by the message. */
  lemma AugStepsAreRemainder(poly: Word, r: Word, m: Word, rem: Word)
    requires |poly| == |r| > 0
    ensures IsRemainder(r + m, Divisor(poly), rem) <==> rem == AugSteps(poly, r, m)
  {
    hide AugSteps, Divides;
    var q := AugStepsDivide(poly, r, m);
    if IsRemainder(r + m, Divisor(poly), rem) {
      var q' :| Divides(r + m, Divisor(poly), q', rem);
      DivisionUnique(r + m, Divisor(poly), q', rem, q, AugSteps(poly, r, m));
    }
  }

  lemma ZeroInFront(k: nat, q: Word)
    requires k > 0
    ensures [false] + (Zeros(k - 1) + q) == Zeros(k) + q
  {
  }

  lemma LeadingZero(k: nat, d: Word, p: Word)
    requires k > 0 && 0 < |p| <= |d| + 1
    ensures Xor(Scale(false, p) + Zeros(k + |d| - |p|), [false] + (Zeros(k - 1) + d)) == Zeros(k) + d
  {
  }

  lemma {:induction false} LeadingZeros(k: nat, d: Word, p: Word, q: Word, r: Word)
    requires p != []
    requires Divides(d, p, q, r)
    ensures Divides(Zeros(k) + d, p, Zeros(k) + q, r)
  {
    if k == 0 {
      assert Zeros(0) + d == d && Zeros(0) + q == q;
    } else {
      hide Divides, Scale, Zeros, Xor;
      LeadingZeros(k - 1, d, p, q, r);
      ExtendDivision(false, Zeros(k - 1) + d, p, Zeros(k - 1) + q, r);
      LeadingZero(k, d, p);
      ZeroInFront(k, q);
    }
  }

  /** A message with `Bits` zero bits appended, fed to the augmented form, gives its plain CRC. */
  lemma AugmentedAgrees(poly: Word, m: Word)
    requires |poly| > 0
    ensures AugSteps(poly, Zeros(|poly|), m + Zeros(|poly|)) == Steps(poly, Zeros(|poly|), m)
  {
    hide Steps, AugSteps, Quotient, Divides, Dividend;
    var n, p, s := |poly|, Divisor(poly), Steps(poly, Zeros(|poly|), m);
    StepsDivide(poly, Zeros(n), m);
    var q := Quotient(poly, Zeros(n), m);
    DividendFromZero(n, m);
    LeadingZeros(n, m + Zeros(n), p, q, s);
    AugStepsAreRemainder(poly, Zeros(n), m + Zeros(n), s);
  }

  /** A message followed by its own CRC leaves nothing. */
  lemma AugmentedSelfCheck(poly: Word, m: Word)
    requires |poly| > 0
    ensures AugSteps(poly, Zeros(|poly|), m + Steps(poly, Zeros(|poly|), m)) == Zeros(|poly|)
  {
    hide Steps, AugSteps, Quotient, Divides, Dividend;
    var n, p, s := |poly|, Divisor(poly), Steps(poly, Zeros(|poly|), m);
    StepsDivide(poly, Zeros(n), m);
    var q := Quotient(poly, Zeros(n), m);
    DividendFromZero(n, m);
    AddToRemainder(m + Zeros(n), p, q, s, s);
    assert m + s == Xor(m + Zeros(n), Zeros(|m|) + s);
    XorZeros(s);
    LeadingZeros(n, m + s, p, q, Zeros(n));
    AugStepsAreRemainder(poly, Zeros(n), m + s, Zeros(n));
  }

  // ----- byte at a time

  lemma {:induction false} AugStepsConcat(poly: Word, r: Word, m1: Word, m2: Word)
    requires |poly| == |r| > 0
    ensures AugSteps(poly, r, m1 + m2) == AugSteps(poly, AugSteps(poly, r, m1), m2)
    decreases |m1|
  {
    if m1 == [] {
      assert m1 + m2 == m2;
    } else {
      assert (m1 + m2)[1..] == m1[1..] + m2;
      AugStepsConcat(poly, AugStep(poly, r, m1[0]), m1[1..], m2);
    }
  }

  lemma SplitRegister(r: Word, m: Word)
    requires |m| <= |r|
    ensures r + m == Xor(r[..|m|] + Zeros(|r|), Zeros(|m|) + (r[|m|..] + m))
  {
  }

  /** Several augmented steps at once, through the same table the plain form uses: the leading
      bits select the entry, the rest is shifted and the message shifted in. */
  lemma AugStepsAbsorb(poly: Word, r: Word, m: Word)
    requires |poly| == |r| > 0 && |m| <= |r|
    ensures AugSteps(poly, r, m)
         == Xor(Steps(poly, Zeros(|r|), r[..|m|]), r[|m|..] + m)
  {
    hide Steps, AugSteps, Quotient, Divides, Dividend;
    var n, k, p, t := |r|, |m|, Divisor(poly), r[..|m|];
    var s := Steps(poly, Zeros(n), t);
    StepsDivide(poly, Zeros(n), t);
    var q := Quotient(poly, Zeros(n), t);
    DividendFromZero(n, t);
    var e := r[k..] + m;
    AddToRemainder(t + Zeros(n), p, q, s, e);
    SplitRegister(r, m);
    AugStepsAreRemainder(poly, r, m, Xor(s, e));
  }
}
