/** Machine words as bit sequences, most significant bit first. The width of a word is the
    length of its sequence, so shifts lose bits exactly as an unsigned type of that width does. */
module Bits {

  type Word = seq<bool>

  function Zeros(n: nat): (w: Word)
    ensures |w| == n
    ensures forall i {:trigger w[i]} :: 0 <= i < n ==> !w[i]
  {
    seq(n, _ => false)
  }

  function Xor(a: Word, b: Word): (r: Word)
    requires |a| == |b|
    ensures |r| == |a|
    ensures forall i {:trigger r[i]} :: 0 <= i < |a| ==> r[i] == (a[i] != b[i])
  {
    seq(|a|, i requires 0 <= i < |a| => a[i] != b[i])
  }

  function Reverse(w: Word): (r: Word)
    ensures |r| == |w|
    ensures forall i {:trigger r[i]} :: 0 <= i < |w| ==> r[i] == w[|w| - 1 - i]
  {
    seq(|w|, i requires 0 <= i < |w| => w[|w| - 1 - i])
  }

  /** `w << k` in a type of width |w|. */
  function Shl(w: Word, k: nat): (r: Word)
    ensures |r| == |w|
    ensures forall i {:trigger r[i]} :: 0 <= i < |w| ==> r[i] == (i + k < |w| && w[i + k])
  {
    if k <= |w| then w[k..] + Zeros(k) else Zeros(|w|)
  }

  /** `w >> k`. */
  function Shr(w: Word, k: nat): (r: Word)
    ensures |r| == |w|
    ensures forall i {:trigger r[i]} :: 0 <= i < |w| ==> r[i] == (k <= i && w[i - k])
  {
    if k <= |w| then Zeros(k) + w[..|w| - k] else Zeros(|w|)
  }

  /** The n least significant bits. */
  function Low(w: Word, n: nat): (r: Word)
    requires n <= |w|
    ensures |r| == n
  {
    w[|w| - n..]
  }

  /** Conversion to another unsigned type: truncation or zero extension. */
  function Fit(w: Word, width: nat): (r: Word)
    ensures |r| == width
  {
    if width <= |w| then Low(w, width) else Zeros(width - |w|) + w
  }

  /** Bit k, counted from the least significant. */
  function BitAt(w: Word, k: nat): bool
    requires k < |w|
  {
    w[|w| - 1 - k]
  }

  /** The word of the given width whose only set bit is bit k. */
  function OneAt(width: nat, k: nat): (r: Word)
    requires k < width
    ensures |r| == width
    ensures forall i {:trigger r[i]} :: 0 <= i < width ==> r[i] == (i == width - 1 - k)
  {
    seq(width, i => i == width - 1 - k)
  }

  /** `w & ((1 << n) - 1)`. */
  function Mask(w: Word, n: nat): (r: Word)
    requires n <= |w|
    ensures |r| == |w|
  {
    Zeros(|w| - n) + Low(w, n)
  }

  // ----- numbers

  function Pow2(n: nat): (p: nat)
    ensures p >= 1
  {
    if n == 0 then 1 else 2 * Pow2(n - 1)
  }

  function ToNat(w: Word): (v: nat)
    ensures v < Pow2(|w|)
  {
    if w == [] then 0 else 2 * ToNat(w[..|w| - 1]) + (if w[|w| - 1] then 1 else 0)
  }

  function FromNat(v: nat, n: nat): (w: Word)
    requires v < Pow2(n)
    ensures |w| == n
  {
    if n == 0 then [] else FromNat(v / 2, n - 1) + [v % 2 == 1]
  }

  lemma {:induction false} FromNatToNat(v: nat, n: nat)
    requires v < Pow2(n)
    ensures ToNat(FromNat(v, n)) == v
  {
    if n > 0 {
      FromNatToNat(v / 2, n - 1);
      var w := FromNat(v, n);
      assert w[..n - 1] == FromNat(v / 2, n - 1);
    }
  }

  lemma {:induction false} ToNatFromNat(w: Word)
    ensures FromNat(ToNat(w), |w|) == w
  {
    if w != [] {
      ToNatFromNat(w[..|w| - 1]);
    }
  }

  lemma XorZeros(a: Word)
    ensures Xor(a, Zeros(|a|)) == a && Xor(Zeros(|a|), a) == a
    ensures Xor(a, a) == Zeros(|a|)
  {
  }

  lemma XorCommutes(a: Word, b: Word)
    requires |a| == |b|
    ensures Xor(a, b) == Xor(b, a)
  {
  }

  lemma XorCancel(a: Word, b: Word)
    requires |a| == |b|
    ensures Xor(Xor(a, b), b) == a
  {
  }

  lemma XorConcat(a: Word, b: Word, c: Word, d: Word)
    requires |a| == |b| && |c| == |d|
    ensures Xor(a + c, b + d) == Xor(a, b) + Xor(c, d)
  {
  }

  lemma ReverseTwice(w: Word)
    ensures Reverse(Reverse(w)) == w
  {
  }
}
