/** Bytes and their order of processing, the bit reflector, and the word-level facts the two
    CRC engines share: how operations on a machine word act on its `bits` significant bits. */
module CrcMessage {
  import opened Bits
  import opened CrcRegister
  import opened CrcPolynomial

  type Byte = w: Word | |w| == 8 witness Zeros(8)

  /** The order in which the bits of a byte are divided. */
  function InOrder(reflect: bool, b: Byte): (r: Byte)
  {
    if reflect then Reverse(b) else b
  }

  /** All message bits in the order in which they are divided. */
  function MessageBits(reflect: bool, bytes: seq<Byte>): (m: Word)
    ensures |m| == 8 * |bytes|
  {
    if bytes == [] then [] else InOrder(reflect, bytes[0]) + MessageBits(reflect, bytes[1..])
  }

  /** Which bit is divided as number 8 * j + k: of byte j the one k above the least significant when
      the input is reflected, and else the one k below the most significant. */
  lemma {:induction false} MessageBit(reflect: bool, bytes: seq<Byte>, j: nat, k: nat)
    requires j < |bytes| && k < 8
    ensures MessageBits(reflect, bytes)[8 * j + k] == BitAt(bytes[j], if reflect then k else 7 - k)
  {
    if j > 0 {
      MessageBit(reflect, bytes[1..], j - 1, k);
      assert MessageBits(reflect, bytes)[8 * j + k] == MessageBits(reflect, bytes[1..])[8 * (j - 1) + k];
    }
  }

  lemma {:induction false} MessageBitsConcat(reflect: bool, a: seq<Byte>, b: seq<Byte>)
    ensures MessageBits(reflect, a + b) == MessageBits(reflect, a) + MessageBits(reflect, b)
  {
    if a == [] {
      assert a + b == b;
    } else {
      assert (a + b)[1..] == a[1..] + b;
      MessageBitsConcat(reflect, a[1..], b);
    }
  }

  lemma MessageBitsSnoc(reflect: bool, bytes: seq<Byte>, i: nat)
    requires i < |bytes|
    ensures MessageBits(reflect, bytes[..i + 1]) == MessageBits(reflect, bytes[..i]) + InOrder(reflect, bytes[i])
  {
    assert bytes[..i + 1] == bytes[..i] + [bytes[i]];
    MessageBitsConcat(reflect, bytes[..i], [bytes[i]]);
    assert MessageBits(reflect, [bytes[i]]) == InOrder(reflect, bytes[i]) + MessageBits(reflect, []);
  }

  /** The register after one more byte of a message. */
  lemma StepsNextByte(poly: Word, r: Word, reflect: bool, bytes: seq<Byte>, i: nat)
    requires |poly| == |r| > 0 && i < |bytes|
    ensures Steps(poly, r, MessageBits(reflect, bytes[..i + 1]))
         == Steps(poly, Steps(poly, r, MessageBits(reflect, bytes[..i])), InOrder(reflect, bytes[i]))
  {
    MessageBitsSnoc(reflect, bytes, i);
    StepsConcat(poly, r, MessageBits(reflect, bytes[..i]), InOrder(reflect, bytes[i]));
  }

  lemma OneByteBits(reflect: bool, b: Byte)
    ensures MessageBits(reflect, [b]) == InOrder(reflect, b)
  {
    assert MessageBits(reflect, [b]) == InOrder(reflect, b) + MessageBits(reflect, []);
  }

  function Reflected(x: Word, bits: nat): (r: Word)
    requires bits <= |x|
    ensures |r| == |x|
  {
    Zeros(|x| - bits) + Reverse(Low(x, bits))
  }

  /** The reflection with only the first i bits moved into place. */
  ghost function ReflectedBits(x: Word, bits: nat, i: nat): (r: Word)
    requires i <= bits <= |x|
    ensures |r| == |x|
    ensures forall k {:trigger r[k]} :: 0 <= k < |x| ==>
      r[k] == (|x| - bits <= k < |x| - bits + i && x[2 * |x| - bits - 1 - k])
  {
    Zeros(|x| - bits) + (Reverse(Low(x, bits))[..i] + Zeros(bits - i))
  }

  lemma NextLowBit(x: Word, i: nat)
    requires i < |x|
    ensures Shr(x, i)[|x| - 1] == x[|x| - 1 - i]
    ensures Shr(Shr(x, i), 1) == Shr(x, i + 1)
  {
  }

  lemma ReflectBit(x: Word, bits: nat, i: nat)
    requires i < bits <= |x|
    ensures ReflectedBits(x, bits, i + 1)
         == if x[|x| - 1 - i] then Or(ReflectedBits(x, bits, i), OneAt(|x|, bits - 1 - i))
            else ReflectedBits(x, bits, i)
  {
    hide ReflectedBits, Or, OneAt;
    var r, r' := ReflectedBits(x, bits, i), ReflectedBits(x, bits, i + 1);
    if x[|x| - 1 - i] {
      assert r' == Or(r, OneAt(|x|, bits - 1 - i));
    } else {
      assert r' == r;
    }
  }

  lemma ReflectedEnds(x: Word, bits: nat)
    requires bits <= |x|
    ensures ReflectedBits(x, bits, 0) == Zeros(|x|)
    ensures ReflectedBits(x, bits, bits) == Reflected(x, bits)
  {
  }

  method Reflect(x: Word, bits: nat) returns (reflection: Word)
    requires bits <= |x|
    ensures reflection == Reflected(x, bits)
  {
    var width := |x|;
    reflection := Zeros(width);
    var rest := x;
    var i := 0;
    ReflectedEnds(x, bits);
    while i < bits
      invariant 0 <= i <= bits
      invariant rest == Shr(x, i)
      invariant reflection == ReflectedBits(x, bits, i)
    {
      hide Shr, ReflectedBits, OneAt, Or;
      NextLowBit(x, i);
      ReflectBit(x, bits, i);
      if rest[width - 1] {
        reflection := Or(reflection, OneAt(width, bits - 1 - i));
      }
      rest := Shr(rest, 1);
      i := i + 1;
    }
  }

  function Or(a: Word, b: Word): (r: Word)
    requires |a| == |b|
    ensures |r| == |a|
    ensures forall i {:trigger r[i]} :: 0 <= i < |a| ==> r[i] == (a[i] || b[i])
  {
    seq(|a|, i requires 0 <= i < |a| => a[i] || b[i])
  }

  /** The word-level division step, as both `process_bit` and the table generator perform it:
      mix the bit into the highest significant position, test it, shift, subtract. */
  function WordStep(bits: nat, poly: Word, rem: Word, b: bool): (r: Word)
    requires 0 < bits <= |rem| == |poly|
    ensures |r| == |rem|
  {
    var x := Xor(rem, if b then OneAt(|rem|, bits - 1) else Zeros(|rem|));
    if x[|rem| - bits] then Xor(Shl(x, 1), poly) else Shl(x, 1)
  }

  /** It is one register step on the significant bits; bits above them do not matter. */
  lemma WordStepIsStep(bits: nat, poly: Word, rem: Word, b: bool)
    requires 0 < bits <= |rem| == |poly|
    ensures Low(WordStep(bits, poly, rem, b), bits) == Step(Low(poly, bits), Low(rem, bits), b)
  {
    var one := if b then OneAt(|rem|, bits - 1) else Zeros(|rem|);
    var x, r := Xor(rem, one), Low(rem, bits);
    LowXor(rem, one, bits);
    LowShl(x, 1, bits);
    LowXor(Shl(x, 1), poly, bits);
    assert x[|rem| - bits] == (r[0] != b);
    assert Low(x, bits)[1..] == r[1..];
    XorZeros(r[1..] + [false]);
  }

  lemma LowXor(a: Word, b: Word, n: nat)
    requires |a| == |b| && n <= |a|
    ensures Low(Xor(a, b), n) == Xor(Low(a, n), Low(b, n))
  {
  }

  /** Shifting a byte left brings its bits to the top in turn. */
  lemma ShiftedByte(b: Byte, count: nat, k: nat)
    requires count <= 8 && 8 - count <= k < 8
    ensures Shl(b, k)[0] == Low(b, count)[k + count - 8]
    ensures Shl(Shl(b, k), 1) == Shl(b, k + 1)
  {
  }

  lemma LowShl(w: Word, k: nat, n: nat)
    requires n <= |w|
    ensures Low(Shl(w, k), n) == Shl(Low(w, n), k)
  {
  }

  // ----- augmented messages by bytes

  function ZeroBytes(k: nat): (z: seq<Byte>)
    ensures |z| == k
  {
    seq(k, _ => Zeros(8))
  }

  lemma {:induction false} ZeroByteBits(k: nat)
    ensures MessageBits(false, ZeroBytes(k)) == Zeros(8 * k)
  {
    if k > 0 {
      ZeroByteBits(k - 1);
      assert ZeroBytes(k)[1..] == ZeroBytes(k - 1);
    }
  }

  /** The bytes of a word whose width is a multiple of 8, big-endian. */
  function BigEndian(w: Word): (z: seq<Byte>)
    requires |w| % 8 == 0
    ensures |z| == |w| / 8
  {
    if w == [] then [] else [w[..8]] + BigEndian(w[8..])
  }

  lemma {:induction false} BigEndianBits(w: Word)
    requires |w| % 8 == 0
    ensures MessageBits(false, BigEndian(w)) == w
  {
    if w != [] {
      BigEndianBits(w[8..]);
      assert BigEndian(w)[1..] == BigEndian(w[8..]);
      assert w == w[..8] + w[8..];
    }
  }

  /** The usage promised for `augmented_crc`: Bits/8 zero bytes after the message give the
      plain CRC of the message, the CRC's own bytes after it give zero. */
  lemma AugmentedMessages(poly: Word, bytes: seq<Byte>)
    requires |poly| > 0 && |poly| % 8 == 0
    ensures var zero, crc := Zeros(|poly|), Steps(poly, Zeros(|poly|), MessageBits(false, bytes));
            && AugSteps(poly, zero, MessageBits(false, bytes + ZeroBytes(|poly| / 8))) == crc
            && AugSteps(poly, zero, MessageBits(false, bytes + BigEndian(crc))) == zero
  {
    var m := MessageBits(false, bytes);
    var crc := Steps(poly, Zeros(|poly|), m);
    MessageBitsConcat(false, bytes, ZeroBytes(|poly| / 8));
    ZeroByteBits(|poly| / 8);
    AugmentedAgrees(poly, m);
    MessageBitsConcat(false, bytes, BigEndian(crc));
    BigEndianBits(crc);
    AugmentedSelfCheck(poly, m);
  }
}
