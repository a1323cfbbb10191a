/** The CRC register as a mathematical object: its `Bits` significant bits, highest first,
    and the division step that feeds it one message bit. Everything the two engines and the
    augmented form have in common is proved here, for every width and every polynomial. */
module CrcRegister {
  import opened Bits

  /** One division step: compare the bit with the highest bit, shift, subtract the divisor. */
  function Step(poly: Word, r: Word, b: bool): (r': Word)
    requires |poly| == |r| > 0
    ensures |r'| == |r|
  {
    Xor(r[1..] + [false], if r[0] != b then poly else Zeros(|r|))
  }

  /** The register after a whole bit string, first bit first. */
  function Steps(poly: Word, r: Word, m: Word): (r': Word)
    requires |poly| == |r| > 0
    ensures |r'| == |r|
    decreases |m|
  {
    if m == [] then r else Steps(poly, Step(poly, r, m[0]), m[1..])
  }

  /** The first k bits of r followed by zeros. */
  function Pad(r: Word, k: nat): (p: Word)
    ensures |p| == k
  {
    if k <= |r| then r[..k] else r + Zeros(k - |r|)
  }

  lemma {:induction false} StepsConcat(poly: Word, r: Word, m1: Word, m2: Word)
    requires |poly| == |r| > 0
    ensures Steps(poly, r, m1 + m2) == Steps(poly, Steps(poly, r, m1), m2)
    decreases |m1|
  {
    if m1 == [] {
      assert m1 + m2 == m2;
    } else {
      assert (m1 + m2)[1..] == m1[1..] + m2;
      StepsConcat(poly, Step(poly, r, m1[0]), m1[1..], m2);
    }
  }

  lemma WholePrefix(m: Word)
    ensures m[..|m|] == m
  {
  }

  lemma StepsTaken(poly: Word, r: Word, m: Word)
    requires |poly| == |r| > 0
    ensures Steps(poly, r, m[..0]) == r && Steps(poly, r, m[..|m|]) == Steps(poly, r, m)
  {
    assert m[..0] == [];
    WholePrefix(m);
  }

  lemma StepsSnoc(poly: Word, r: Word, m: Word, k: nat)
    requires |poly| == |r| > 0 && k < |m|
    ensures Steps(poly, r, m[..k + 1]) == Step(poly, Steps(poly, r, m[..k]), m[k])
  {
    assert m[..k + 1] == m[..k] + [m[k]];
    StepsConcat(poly, r, m[..k], [m[k]]);
  }

  /** Division is linear over GF(2), in register and message together. */
  lemma {:induction false} StepsLinear(poly: Word, r: Word, s: Word, m: Word, k: Word)
    requires |poly| == |r| == |s| > 0 && |m| == |k|
    ensures Steps(poly, Xor(r, s), Xor(m, k)) == Xor(Steps(poly, r, m), Steps(poly, s, k))
    decreases |m|
  {
    if m != [] {
      assert Step(poly, Xor(r, s), Xor(m, k)[0]) == Xor(Step(poly, r, m[0]), Step(poly, s, k[0]));
      assert Xor(m, k)[1..] == Xor(m[1..], k[1..]);
      StepsLinear(poly, Step(poly, r, m[0]), Step(poly, s, k[0]), m[1..], k[1..]);
    }
  }

  /** Feeding the register's own leading bits cancels every division: only the shift is left. */
  lemma {:induction false} StepsOwnBits(poly: Word, r: Word, k: nat)
    requires |poly| == |r| > 0
    ensures Steps(poly, r, Pad(r, k)) == Shl(r, k)
    decreases k
  {
    if k == 0 {
      assert Shl(r, 0) == r;
    } else {
      assert Pad(r, k)[0] == r[0];
      var r' := Step(poly, r, r[0]);
      assert r' == r[1..] + [false];
      assert Pad(r, k)[1..] == Pad(r', k - 1);
      StepsOwnBits(poly, r', k - 1);
      assert Shl(r', k - 1) == Shl(r, k);
    }
  }

  /** Why a lookup table works: a message fed to a register leaves what the message combined
      with the register's leading bits leaves in an empty register, plus the shifted register. */
  lemma StepsAbsorb(poly: Word, r: Word, m: Word)
    requires |poly| == |r| > 0
    ensures Steps(poly, r, m)
         == Xor(Steps(poly, Zeros(|r|), Xor(m, Pad(r, |m|))), Shl(r, |m|))
  {
    hide *;
    var p := Pad(r, |m|);
    var d := Xor(m, p);
    assert Xor(Zeros(|r|), r) == r && Xor(d, p) == m by {
      XorZeros(r);
      XorCancel(m, p);
    }
    StepsLinear(poly, Zeros(|r|), r, d, p);
    StepsOwnBits(poly, r, |m|);
  }
}
