/** The table-driven engine, `crc_optimal`, its lookup table, the one-call form `crc` and the
    augmented form. All of them end up with the register that bit-by-bit division gives. */
module CrcOptimal {
  import opened Bits
  import opened CrcRegister
  import opened CrcPolynomial
  import opened CrcMessage
  import opened CrcBasic

  /** A table entry holds what the eight bits of a dividend leave in an empty register,
      stored reflected (and without junk above it) for the reflected engine. */
  ghost predicate IsEntry(entry: Word, bits: nat, poly: Word, reflect: bool, dividend: Byte)
    requires 0 < bits <= |poly|
  {
    && |entry| == |poly|
    && var rem := Steps(Low(poly, bits), Zeros(bits), dividend);
       if reflect then entry == Zeros(|poly| - bits) + Reverse(rem) else Low(entry, bits) == rem
  }

  /** The byte with value v. */
  function ByteOf(v: nat): (b: Byte)
    requires v < 256
  {
    assert Pow2(8) == 256;
    FromNat(v, 8)
  }

  function ValueOf(b: Byte): (v: nat)
    ensures v < 256
  {
    assert Pow2(8) == 256;
    ToNat(b)
  }

  /** Where the table generator stores the entry of a dividend. */
  function Slot(reflect: bool, v: nat): (u: nat)
    requires v < 256
    ensures u < 256
  {
    ValueOf(InOrder(reflect, ByteOf(v)))
  }

  lemma ByteValues(b: Byte)
    ensures ByteOf(ValueOf(b)) == b
  {
    ToNatFromNat(b);
  }

  lemma SlotTwice(reflect: bool, v: nat)
    requires v < 256
    ensures Slot(reflect, Slot(reflect, v)) == v
  {
    var b := ByteOf(v);
    ByteValues(InOrder(reflect, b));
    ReverseTwice(b);
    assert Pow2(8) == 256;
    FromNatToNat(v, 8);
  }

  class Table {
    const bits: nat
    const poly: Word
    const reflect: bool
    const table: array<Word>
    var didInit: bool

    ghost predicate Valid()
      reads this, table
    {
      && 0 < bits <= |poly| && 8 <= |poly| && table.Length == 256
      && (didInit ==> forall v :: 0 <= v < 256 ==>
            IsEntry(table[v], bits, poly, reflect, InOrder(reflect, ByteOf(v))))
    }

    constructor (bits: nat, poly: Word, reflect: bool)
      requires 0 < bits <= |poly| && 8 <= |poly|
      ensures Valid() && fresh(table) && !didInit
      ensures this.bits == bits && this.poly == poly && this.reflect == reflect
    {
      this.bits, this.poly, this.reflect := bits, poly, reflect;
      table := new Word[256](_ => []);
      didInit := false;
    }

    lemma Entry(i: Byte)
      requires Valid() && didInit
      ensures IsEntry(table[ValueOf(i)], bits, poly, reflect, InOrder(reflect, i))
    {
      ByteValues(i);
    }

    /** The division of one dividend byte, highest bit first. */
    method Divide(dividend: Byte) returns (entry: Word)
      requires 0 < bits <= |poly|
      ensures IsEntry(entry, bits, poly, reflect, dividend)
    {
      var remainder := Zeros(|poly|);
      var mask := 0;
      ghost var p, z := Low(poly, bits), Zeros(bits);
      assert dividend[..0] == [] && Low(remainder, bits) == z;
      while mask < 8
        invariant mask <= 8 && |remainder| == |poly|
        invariant Low(remainder, bits) == Steps(p, z, dividend[..mask])
      {
        WordStepIsStep(bits, poly, remainder, dividend[mask]);
        StepsSnoc(p, z, dividend, mask);
        if dividend[mask] {
          remainder := Xor(remainder, OneAt(|poly|, bits - 1));
        } else {
          XorZeros(remainder);
        }
        if remainder[|poly| - bits] {
          remainder := Shl(remainder, 1);
          remainder := Xor(remainder, poly);
        } else {
          remainder := Shl(remainder, 1);
        }
        mask := mask + 1;
      }
      assert dividend[..8] == dividend;
      entry := remainder;
      if reflect {
        entry := Reflect(remainder, bits);
      }
    }

    /** The table is computed on the first call only. */
    method InitTable()
      requires Valid()
      modifies this`didInit, table
      ensures Valid() && didInit
    {
      if didInit {
        return;
      }
      var dividend := 0;
      while dividend < 256
        invariant dividend <= 256 && !didInit
        invariant forall v :: 0 <= v < dividend ==>
          IsEntry(table[Slot(reflect, v)], bits, poly, reflect, ByteOf(v))
      {
        var entry := Divide(ByteOf(dividend));
        forall v | 0 <= v < dividend
          ensures Slot(reflect, v) != Slot(reflect, dividend)
        {
          SlotTwice(reflect, v);
          SlotTwice(reflect, dividend);
        }
        table[Slot(reflect, dividend)] := entry;
        dividend := dividend + 1;
      }
      forall v | 0 <= v < 256
        ensures IsEntry(table[v], bits, poly, reflect, InOrder(reflect, ByteOf(v)))
      {
        SlotTwice(reflect, v);
        ByteValues(InOrder(reflect, ByteOf(v)));
      }
      didInit := true;
    }
  }

  // ----- crc_helper

  /** The byte of the word that holds the highest bits of the register. */
  function TopByte(reflect: bool, bits: nat, rem: Word): (t: Byte)
    requires 0 < bits <= |rem| && 8 <= |rem|
  {
    if reflect then Fit(rem, 8)
    else if bits > 8 then Fit(Shr(rem, bits - 8), 8)
    else Fit(Shl(rem, 8 - bits), 8)
  }

  /** Which entry the next byte selects. */
  function Index(reflect: bool, bits: nat, rem: Word, x: Byte): (i: Byte)
    requires 0 < bits <= |rem| && 8 <= |rem|
  {
    Xor(x, TopByte(reflect, bits, rem))
  }

  function Shift(reflect: bool, rem: Word): (r: Word)
    ensures |r| == |rem|
  {
    if reflect then Shr(rem, 8) else Shl(rem, 8)
  }

  /** How the engine's word stores the register. */
  ghost predicate Stores(rem: Word, bits: nat, reflect: bool, r: Word)
    requires bits <= |rem|
  {
    |r| == bits && if reflect then rem == Zeros(|rem| - bits) + Reverse(r) else Low(rem, bits) == r
  }

  function ReadRegister(rem: Word, bits: nat, reflect: bool): (r: Word)
    requires bits <= |rem|
    ensures |r| == bits
  {
    if reflect then Reverse(Low(rem, bits)) else Low(rem, bits)
  }

  lemma StoredRegister(rem: Word, bits: nat, reflect: bool, r: Word)
    requires bits <= |rem|
    ensures Stores(rem, bits, reflect, r)
       <==> r == ReadRegister(rem, bits, reflect) && (reflect ==> rem[..|rem| - bits] == Zeros(|rem| - bits))
  {
    var low := Low(rem, bits);
    ReverseTwice(low);
    ReverseTwice(r);
    assert rem == rem[..|rem| - bits] + low;
    if Stores(rem, bits, reflect, r) && reflect {
      assert low == Reverse(r);
    }
  }

  lemma TopByteIsTop(rem: Word, bits: nat, reflect: bool, r: Word)
    requires 0 < bits <= |rem| && 8 <= |rem|
    requires Stores(rem, bits, reflect, r)
    ensures InOrder(reflect, TopByte(reflect, bits, rem)) == Pad(r, 8)
  {
    var t, p := InOrder(reflect, TopByte(reflect, bits, rem)), Pad(r, 8);
    forall i | 0 <= i < 8
      ensures t[i] == p[i]
    {
    }
  }

  lemma IndexPicks(rem: Word, bits: nat, reflect: bool, r: Word, x: Byte)
    requires 0 < bits <= |rem| && 8 <= |rem|
    requires Stores(rem, bits, reflect, r)
    ensures InOrder(reflect, Index(reflect, bits, rem, x)) == Xor(InOrder(reflect, x), Pad(r, 8))
  {
    var t := TopByte(reflect, bits, rem);
    TopByteIsTop(rem, bits, reflect, r);
    assert Reverse(Xor(x, t)) == Xor(Reverse(x), Reverse(t));
  }

  lemma ShiftStores(rem: Word, bits: nat, reflect: bool, r: Word)
    requires 0 < bits <= |rem| && 8 <= |rem|
    requires Stores(rem, bits, reflect, r)
    ensures Stores(Shift(reflect, rem), bits, reflect, Shl(r, 8))
  {
    if !reflect {
      LowShl(rem, 8, bits);
    }
  }

  lemma XorStores(a: Word, b: Word, bits: nat, reflect: bool, r: Word, s: Word)
    requires bits <= |a| == |b|
    requires Stores(a, bits, reflect, r) && Stores(b, bits, reflect, s)
    ensures Stores(Xor(a, b), bits, reflect, Xor(r, s))
  {
    LowXor(a, b, bits);
    assert Xor(Reverse(r), Reverse(s)) == Reverse(Xor(r, s));
    XorConcat(Zeros(|a| - bits), Zeros(|a| - bits), Reverse(r), Reverse(s));
  }

  /** One table step is eight division steps. */
  lemma TableStep(rem: Word, bits: nat, poly: Word, reflect: bool, r: Word, x: Byte, entry: Word)
    requires 0 < bits <= |rem| == |poly| && 8 <= |rem|
    requires Stores(rem, bits, reflect, r)
    requires IsEntry(entry, bits, poly, reflect, InOrder(reflect, Index(reflect, bits, rem, x)))
    ensures Stores(Xor(Shift(reflect, rem), entry), bits, reflect,
                   Steps(Low(poly, bits), r, InOrder(reflect, x)))
  {
    hide Steps, Shl, Xor, Pad, Index, InOrder, Shift, Low, Stores;
    var p, m := Low(poly, bits), InOrder(reflect, x);
    var e := Steps(p, Zeros(bits), Xor(m, Pad(r, 8)));
    IndexPicks(rem, bits, reflect, r, x);
    ShiftStores(rem, bits, reflect, r);
    XorStores(Shift(reflect, rem), entry, bits, reflect, Shl(r, 8), e);
    StepsAbsorb(p, r, m);
    XorCommutes(Shl(r, 8), e);
  }

  /** Reflecting the output exactly when the stored form differs from the wanted one. */
  lemma OutputReflection(rem: Word, bits: nat, reflectIn: bool, reflectRem: bool)
    requires bits <= |rem|
    ensures Low(if reflectRem != reflectIn then Reflected(rem, bits) else rem, bits)
         == var r := ReadRegister(rem, bits, reflectIn); if reflectRem then Reverse(r) else r
  {
    ReverseTwice(Low(rem, bits));
  }

  /** Unused high bits of the reflected engine's word stay clear. */
  ghost predicate Clean(rem: Word, bits: nat, reflect: bool)
    requires bits <= |rem|
  {
    reflect ==> rem[..|rem| - bits] == Zeros(|rem| - bits)
  }

  lemma EngineStep(rem: Word, bits: nat, poly: Word, reflect: bool, x: Byte, entry: Word)
    requires 0 < bits <= |rem| == |poly| && 8 <= |rem| && Clean(rem, bits, reflect)
    requires IsEntry(entry, bits, poly, reflect, InOrder(reflect, Index(reflect, bits, rem, x)))
    ensures var rem' := Xor(Shift(reflect, rem), entry);
            && Clean(rem', bits, reflect)
            && ReadRegister(rem', bits, reflect)
               == Steps(Low(poly, bits), ReadRegister(rem, bits, reflect), InOrder(reflect, x))
  {
    hide Steps, ReadRegister, Stores, Index, InOrder, Shift, Xor, Low;
    var r := ReadRegister(rem, bits, reflect);
    StoredRegister(rem, bits, reflect, r);
    TableStep(rem, bits, poly, reflect, r, x, entry);
    var r' := Steps(Low(poly, bits), r, InOrder(reflect, x));
    StoredRegister(Xor(Shift(reflect, rem), entry), bits, reflect, r');
  }

  class Optimal {
    const bits: nat
    const width: nat  // of value_type, the fast unsigned type
    const truncPoly: Word
    const initRem: Word
    const finalXor: Word
    const reflectIn: bool
    const reflectRem: bool
    const table: Table  // the static table of this template instance
    var rem: Word

    ghost predicate Valid()
      reads this, table, table.table
    {
      && 0 < bits <= width && 8 <= width
      && |rem| == |truncPoly| == |initRem| == |finalXor| == width
      && table.Valid() && table.didInit
      && table.bits == bits && table.poly == truncPoly && table.reflect == reflectIn
      && Clean(rem, bits, reflectIn)
    }

    /** The significant bits of the remainder, reflection undone. */
    ghost function Remainder(): (r: Word)
      requires Valid()
      reads this, table, table.table
      ensures |r| == bits
    {
      ReadRegister(rem, bits, reflectIn)
    }

    constructor (table: Table, initRem: Word, finalXor: Word, reflectRem: bool)
      requires table.Valid() && |initRem| == |finalXor| == |table.poly|
      modifies table, table.table
      ensures Valid() && this.table == table
      ensures bits == table.bits && width == |initRem| && truncPoly == table.poly
      ensures this.initRem == initRem && this.finalXor == finalXor
      ensures reflectIn == table.reflect && this.reflectRem == reflectRem
      ensures Remainder() == Low(initRem, bits)
    {
      this.table, bits, width, truncPoly := table, table.bits, |initRem|, table.poly;
      this.initRem, this.finalXor, this.reflectRem := initRem, finalXor, reflectRem;
      reflectIn := table.reflect;
      var r := initRem;
      if table.reflect {
        r := Reflect(initRem, table.bits);
      }
      rem := r;
      new;
      table.InitTable();
      ReverseTwice(Low(initRem, bits));
      assert reflectIn ==> Low(rem, bits) == Reverse(Low(initRem, bits));
    }

    method GetInterimRemainder() returns (r: Word)
      requires Valid()
      ensures r == Zeros(width - bits) + Remainder()
    {
      r := rem;
      if reflectIn {
        r := Reflect(rem, bits);
      }
      assert Low(r, bits) == Remainder();
      r := Mask(r, bits);
    }

    method Reset(newRem: Word)
      requires Valid() && |newRem| == width
      modifies this`rem
      ensures Valid() && Remainder() == Low(newRem, bits)
    {
      rem := newRem;
      if reflectIn {
        rem := Reflect(newRem, bits);
        ReverseTwice(Low(newRem, bits));
        assert Low(rem, bits) == Reverse(Low(newRem, bits));
      }
    }

    method ProcessBlock(bytes: seq<Byte>)
      requires Valid()
      modifies this`rem
      ensures Valid()
      ensures Remainder() == Steps(Low(truncPoly, bits), old(Remainder()), MessageBits(reflectIn, bytes))
    {
      ghost var poly, start := Low(truncPoly, bits), Remainder();
      var p := 0;
      while p < |bytes|
        invariant p <= |bytes| && Valid()
        invariant Remainder() == Steps(poly, start, MessageBits(reflectIn, bytes[..p]))
      {
        var byteIndex := Index(reflectIn, bits, rem, bytes[p]);
        var entry := table.table[ValueOf(byteIndex)];
        table.Entry(byteIndex);
        EngineStep(rem, bits, truncPoly, reflectIn, bytes[p], entry);
        rem := Shift(reflectIn, rem);
        rem := Xor(rem, entry);
        StepsNextByte(poly, start, reflectIn, bytes, p);
        p := p + 1;
      }
      assert bytes[..p] == bytes;
    }

    method ProcessByte(byte: Byte)
      requires Valid()
      modifies this`rem
      ensures Valid()
      ensures Remainder() == Steps(Low(truncPoly, bits), old(Remainder()), InOrder(reflectIn, byte))
    {
      OneByteBits(reflectIn, byte);
      ProcessBlock([byte]);
    }

    method Checksum() returns (c: Word)
      requires Valid()
      ensures c == Zeros(width - bits) + Output(Remainder(), reflectRem, Low(finalXor, bits))
      ensures |c| == width && IsChecksum(c, Remainder(), reflectRem, finalXor)
    {
      hide IsChecksum, Output, Xor, Mask, Low, ReadRegister;
      var r := rem;
      if reflectRem != reflectIn {
        r := Reflect(rem, bits);
      }
      OutputReflection(rem, bits, reflectIn, reflectRem);
      ChecksumOf(r, Remainder(), reflectRem, finalXor);
      c := Mask(Xor(r, finalXor), bits);
    }
  }

  /** `crc<...>(buffer, count)`. */
  method Crc(table: Table, initRem: Word, finalXor: Word, reflectRem: bool, buffer: seq<Byte>) returns (c: Word)
    requires table.Valid() && |initRem| == |finalXor| == |table.poly|
    modifies table, table.table
    ensures var n := table.bits;
            c == Zeros(|initRem| - n)
               + Output(Steps(Low(table.poly, n), Low(initRem, n), MessageBits(table.reflect, buffer)),
                        reflectRem, Low(finalXor, n))
    ensures var n := table.bits;
            |c| == |initRem|
            && IsChecksum(c, Steps(Low(table.poly, n), Low(initRem, n), MessageBits(table.reflect, buffer)), reflectRem, finalXor)
  {
    hide Steps, MessageBits, ReadRegister, Output, IsChecksum, Low, Clean, IsEntry, InOrder;
    var computer := new Optimal(table, initRem, finalXor, reflectRem);
    computer.ProcessBlock(buffer);
    c := computer.Checksum();
  }

  /** `augmented_crc`, for registers at least one byte wide. */
  method AugmentedCrc(table: Table, buffer: seq<Byte>, initialRemainder: Word) returns (c: Word)
    requires table.Valid() && !table.reflect && 8 <= table.bits && |initialRemainder| == |table.poly|
    modifies table, table.table
    ensures var n := table.bits;
            c == Zeros(|initialRemainder| - n)
               + AugSteps(Low(table.poly, n), Low(initialRemainder, n), MessageBits(false, buffer))
  {
    var n, width := table.bits, |initialRemainder|;
    var rem := initialRemainder;
    table.InitTable();
    ghost var poly, start := Low(table.poly, n), Low(initialRemainder, n);
    var p := 0;
    while p < |buffer|
      invariant p <= |buffer| && |rem| == width && table.Valid() && table.didInit
      invariant Low(rem, n) == AugSteps(poly, start, MessageBits(false, buffer[..p]))
    {
      hide AugSteps, Steps, MessageBits, IsEntry;
      var byteIndex: Byte := Fit(Shr(rem, n - 8), 8);
      var entry := table.table[ValueOf(byteIndex)];
      table.Entry(byteIndex);
      AugTableStep(rem, n, table.poly, buffer[p], entry);
      rem := Shl(rem, 8);
      rem := Or(rem, Fit(buffer[p], width));
      rem := Xor(rem, entry);
      MessageBitsSnoc(false, buffer, p);
      AugStepsConcat(poly, start, MessageBits(false, buffer[..p]), buffer[p]);
      p := p + 1;
    }
    assert buffer[..p] == buffer;
    c := Mask(rem, n);
  }

  lemma AugShift(rem: Word, bits: nat, x: Byte)
    requires 8 <= bits <= |rem|
    ensures Fit(Shr(rem, bits - 8), 8) == Low(rem, bits)[..8]
    ensures Low(Or(Shl(rem, 8), Fit(x, |rem|)), bits) == Low(rem, bits)[8..] + x
  {
  }

  lemma AugTableStep(rem: Word, bits: nat, poly: Word, x: Byte, entry: Word)
    requires 8 <= bits <= |rem| == |poly|
    requires IsEntry(entry, bits, poly, false, Fit(Shr(rem, bits - 8), 8))
    ensures Low(Xor(Or(Shl(rem, 8), Fit(x, |rem|)), entry), bits)
         == AugSteps(Low(poly, bits), Low(rem, bits), x)
  {
    hide AugSteps, Steps, Shl, Shr, Or;
    var r, w := Low(rem, bits), Or(Shl(rem, 8), Fit(x, |rem|));
    AugShift(rem, bits, x);
    LowXor(w, entry, bits);
    AugStepsAbsorb(Low(poly, bits), r, x);
    var e := Steps(Low(poly, bits), Zeros(bits), r[..8]);
    XorCommutes(r[8..] + x, e);
  }

  /** Two words of possibly different width denote the same number. */
  predicate SameNumber(a: Word, b: Word) {
    a == Fit(b, |a|) && b == Fit(a, |b|)
  }

  lemma ExtensionsAgree(v: Word, a: Word, b: Word)
    requires |v| <= |a| && |v| <= |b|
    requires a == Zeros(|a| - |v|) + v && b == Zeros(|b| - |v|) + v
    ensures SameNumber(a, b)
  {
  }

  /** Both engines, run on the same parameters and message. The two value types may differ in
      width, and the parameters in the bits above the significant ones. */
  method EnginesAgree(bits: nat, bPoly: Word, bInit: Word, bFinal: Word, oPoly: Word, oInit: Word, oFinal: Word,
                      reflectIn: bool, reflectRem: bool, message: seq<Byte>)
    returns (bRem: Word, oRem: Word, bSum: Word, oSum: Word)
    requires 0 < bits <= |bPoly| == |bInit| == |bFinal|
    requires bits <= |oPoly| == |oInit| == |oFinal| && 8 <= |oPoly|
    requires Low(bPoly, bits) == Low(oPoly, bits)
    requires Low(bInit, bits) == Low(oInit, bits)
    requires Low(bFinal, bits) == Low(oFinal, bits)
    ensures |bRem| == |bSum| == |bPoly| && |oRem| == |oSum| == |oPoly|
    ensures SameNumber(bRem, oRem) && SameNumber(bSum, oSum)
  {
    hide Steps, MessageBits, ReadRegister, SameNumber, Output, Low, Clean, IsEntry, InOrder;
    var basic := new Basic(bits, bPoly, bInit, bFinal, reflectIn, reflectRem);
    var table := new Table(bits, oPoly, reflectIn);
    var optimal := new Optimal(table, oInit, oFinal, reflectRem);
    basic.ProcessBlock(message);
    optimal.ProcessBlock(message);
    bRem := basic.GetInterimRemainder();
    oRem := optimal.GetInterimRemainder();
    ExtensionsAgree(basic.Remainder(), bRem, oRem);
    bSum := basic.Checksum();
    oSum := optimal.Checksum();
    ExtensionsAgree(Output(basic.Remainder(), reflectRem, Low(bFinal, bits)), bSum, oSum);
  }
}
