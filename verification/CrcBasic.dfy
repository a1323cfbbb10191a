/** The bit-at-a-time engine, `crc_basic<Bits>`. */
module CrcBasic {
  import opened Bits
  import opened CrcRegister
  import opened CrcMessage

  /** What `checksum` returns in the significant bits. */
  function Output(rem: Word, reflect: bool, final: Word): (c: Word)
    requires |rem| == |final|
    ensures |c| == |rem|
  {
    Xor(if reflect then Reverse(rem) else rem, final)
  }

  /** Bit by bit: bit k of the checksum is bit k of the final word xor bit k of the remainder, or the
      bit as far from the other end when the output is reflected; above the width all bits are 0. */
  ghost predicate IsChecksum(c: Word, rem: Word, reflect: bool, final: Word) {
    && |rem| <= |c| && |rem| <= |final|
    && (forall k {:trigger BitAt(c, k)} :: 0 <= k < |rem| ==>
          BitAt(c, k) == (BitAt(final, k) != BitAt(rem, if reflect then |rem| - 1 - k else k)))
    && (forall k {:trigger BitAt(c, k)} :: |rem| <= k < |c| ==> !BitAt(c, k))
  }

  lemma OutputBits(c: Word, rem: Word, reflect: bool, final: Word)
    requires |rem| <= |c| && |rem| <= |final| && c == Zeros(|c| - |rem|) + Output(rem, reflect, Low(final, |rem|))
    ensures IsChecksum(c, rem, reflect, final)
  {
    var o, n := Output(rem, reflect, Low(final, |rem|)), |rem|;
    forall k | 0 <= k < n
      ensures BitAt(c, k) == (BitAt(final, k) != BitAt(rem, if reflect then n - 1 - k else k))
    {
      assert BitAt(c, k) == o[n - 1 - k];
      assert Low(final, n)[n - 1 - k] == final[|final| - 1 - k];
    }
  }

  /** The last step of both engines, on a word r that holds the remainder in the wanted order. */
  lemma ChecksumOf(r: Word, rem: Word, reflect: bool, final: Word)
    requires |rem| <= |r| == |final| && Low(r, |rem|) == if reflect then Reverse(rem) else rem
    ensures var c := Mask(Xor(r, final), |rem|);
            && |c| == |final| && c == Zeros(|c| - |rem|) + Output(rem, reflect, Low(final, |rem|))
            && IsChecksum(c, rem, reflect, final)
  {
    hide IsChecksum;
    LowXor(r, final, |rem|);
    OutputBits(Mask(Xor(r, final), |rem|), rem, reflect, final);
  }

  class Basic {
    const bits: nat
    const width: nat  // of value_type, the least unsigned type with `bits` bits
    var rem: Word
    var poly: Word
    var init: Word
    var final: Word
    var rftIn: bool
    var rftOut: bool

    ghost predicate Valid()
      reads this
    {
      0 < bits <= width && |rem| == |poly| == |init| == |final| == width
    }

    /** The significant bits of the remainder. */
    ghost function Remainder(): (r: Word)
      requires Valid()
      reads this
      ensures |r| == bits
    {
      Low(rem, bits)
    }

    constructor (bits: nat, truncatedPoly: Word, initialRemainder: Word, finalXor: Word,
                 reflectInput: bool, reflectRemainder: bool)
      requires 0 < bits <= |truncatedPoly| == |initialRemainder| == |finalXor|
      ensures Valid() && this.bits == bits && width == |truncatedPoly|
      ensures rem == init == initialRemainder && poly == truncatedPoly && final == finalXor
      ensures rftIn == reflectInput && rftOut == reflectRemainder
    {
      this.bits, width := bits, |truncatedPoly|;
      rem, poly, init, final := initialRemainder, truncatedPoly, initialRemainder, finalXor;
      rftIn, rftOut := reflectInput, reflectRemainder;
    }

    method GetInterimRemainder() returns (r: Word)
      requires Valid()
      ensures r == Zeros(width - bits) + Remainder()
    {
      r := Mask(rem, bits);
    }

    method Reset()
      requires Valid()
      modifies this`rem
      ensures Valid() && rem == init
    {
      rem := init;
    }

    method ProcessBit(bit: bool)
      requires Valid()
      modifies this`rem
      ensures Valid() && Remainder() == Step(Low(poly, bits), old(Remainder()), bit)
    {
      WordStepIsStep(bits, poly, rem, bit);
      rem := Xor(rem, if bit then OneAt(width, bits - 1) else Zeros(width));
      var doPolyDiv := rem[width - bits];
      rem := Shl(rem, 1);
      if doPolyDiv {
        rem := Xor(rem, poly);
      }
    }

    /** Only the low `count` bits of the byte are divided, upper ones first. */
    method ProcessBits(byte: Byte, count: nat)
      requires Valid() && count <= 8
      modifies this`rem
      ensures Valid() && Remainder() == Steps(Low(poly, bits), old(Remainder()), Low(byte, count))
    {
      hide Steps, Step, Low;
      var rest := Shl(byte, 8 - count);
      ghost var p, r, m := Low(poly, bits), Remainder(), Low(byte, count);
      ghost var k := 8 - count;
      var i := count;
      StepsTaken(p, r, m);
      while i > 0
        invariant 0 <= i <= count && k == 8 - i && Valid()
        invariant rest == Shl(byte, k)
        invariant Remainder() == Steps(p, r, m[..k + count - 8])
      {
        hide Shl;
        ShiftedByte(byte, count, k);
        StepsSnoc(p, r, m, k + count - 8);
        ProcessBit(rest[0]);
        i, k, rest := i - 1, k + 1, Shl(rest, 1);
      }
    }

    method ProcessByte(byte: Byte)
      requires Valid()
      modifies this`rem
      ensures Valid() && Remainder() == Steps(Low(poly, bits), old(Remainder()), InOrder(rftIn, byte))
    {
      var b := byte;
      if rftIn {
        b := Reflect(byte, 8);
        assert b == Reverse(byte);
      }
      ProcessBits(b, 8);
      assert Low(b, 8) == InOrder(rftIn, byte);
    }

    method ProcessBlock(bytes: seq<Byte>)
      requires Valid()
      modifies this`rem
      ensures Valid() && Remainder() == Steps(Low(poly, bits), old(Remainder()), MessageBits(rftIn, bytes))
    {
      var p := 0;
      while p < |bytes|
        invariant p <= |bytes| && Valid()
        invariant Remainder() == Steps(Low(poly, bits), old(Remainder()), MessageBits(rftIn, bytes[..p]))
      {
        StepsNextByte(Low(poly, bits), old(Remainder()), rftIn, bytes, p);
        ProcessByte(bytes[p]);
        p := p + 1;
      }
      assert bytes[..p] == bytes;
    }

    method Checksum() returns (c: Word)
      requires Valid()
      ensures c == Zeros(width - bits) + Output(Remainder(), rftOut, Low(final, bits))
      ensures |c| == width && IsChecksum(c, Remainder(), rftOut, final)
    {
      hide IsChecksum, Output, Xor, Mask;
      var r := rem;
      if rftOut {
        r := Reflect(rem, bits);
      }
      ChecksumOf(r, Remainder(), rftOut, final);
      c := Mask(Xor(r, final), bits);
    }
  }
}
