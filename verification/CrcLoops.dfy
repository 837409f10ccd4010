/** The checksum loops as the source runs them, on the ints and tables it uses, each
    proved to compute the 16-bit check value. */
module CrcLoops {
  import opened Bytes
  import opened Crc
  import opened LinearCode

  function LowOf(r: bv32): Byte { (r & 0xff) as bv8 }

  function HighOf(r: bv32): Byte { ((r >> 8) & 0xff) as bv8 }

  lemma WideHalves(w: bv16)
    ensures LowOf(w as bv32) == LowByte(w) && HighOf(w as bv32) == HighByte(w)
  {
  }

  // ----- Adast: an int that never leaves its low 16 bits

  function IntBit(r: bv32): bv32 { if r & 1 != 0 then (r >> 1) ^ 0x8408 else r >> 1 }

  function IntMix(r: bv32, b: Byte): bv32 { r ^ ((b as bv32) & 0xff) }

  function IntStep(r: bv32, b: Byte): bv32 { Iterate(IntBit, IntMix(r, b), BITS) }

  function Widen(x: bv16): bv32 { x as bv32 }

  lemma WideTest(x: bv16)
    ensures x & 1 == 0 <==> (x as bv32) & 1 == 0
  {
  }

  lemma WideShift(x: bv16)
    ensures (x >> 1) as bv32 == (x as bv32) >> 1
  {
  }

  lemma WideShiftXor(x: bv16)
    ensures ((x >> 1) ^ 0x8408) as bv32 == ((x as bv32) >> 1) ^ 0x8408
  {
  }

  lemma WideEven(x: bv16)
    requires x & 1 == 0
    ensures IntBit(x as bv32) == AdastBit(x) as bv32
  {
    WideTest(x);
    WideShift(x);
  }

  lemma WideOdd(x: bv16)
    requires x & 1 != 0
    ensures IntBit(x as bv32) == AdastBit(x) as bv32
  {
    WideTest(x);
    WideShiftXor(x);
  }

  lemma WideBit(x: bv16)
    ensures IntBit(x as bv32) == AdastBit(x) as bv32
  {
    if x & 1 == 0 {
      WideEven(x);
    } else {
      WideOdd(x);
    }
  }

  lemma WidenBit(x: bv16)
    ensures Widen(AdastBit(x)) == IntBit(Widen(x))
  {
    calc {
      IntBit(Widen(x));
      IntBit(x as bv32);
      { WideBit(x); }
      AdastBit(x) as bv32;
      Widen(AdastBit(x));
    }
  }

  lemma WidenXor(x: bv16, b: Byte)
    ensures Widen(x ^ (b as bv16)) == Widen(x) ^ ((b as bv32) & 0xff)
  {
  }

  lemma WidenMix(x: bv16, b: Byte)
    ensures Widen(LowMix(x, b)) == IntMix(Widen(x), b)
  {
    WidenXor(x, b);
    assert LowMix(x, b) == x ^ (b as bv16);
  }

  lemma WidenStep(x: bv16, b: Byte)
    ensures Widen(Take(CodeOf(Adast), x, b)) == IntStep(Widen(x), b)
  {
    forall y ensures Widen(AdastBit(y)) == IntBit(Widen(y)) { WidenBit(y); }
    WidenMix(x, b);
    IterateSimulates(AdastBit, IntBit, Widen, LowMix(x, b), BITS);
  }

  lemma WideMask(x: bv16)
    ensures (x as bv32) & 0xffff == x as bv32
  {
  }

  lemma IntAccumulator(cmd: seq<Byte>)
    ensures Fold(IntStep, 0, cmd) & 0xffff == Crc16(Adast, cmd) as bv32
  {
    forall x, b ensures Widen(TakeOf(CodeOf(Adast))(x, b)) == IntStep(Widen(x), b) { WidenStep(x, b); }
    FoldSimulates(TakeOf(CodeOf(Adast)), IntStep, Widen, 0, cmd);
    WideMask(Crc16(Adast, cmd));
  }

  method Masked(ghost cmd: seq<Byte>, r: bv32) returns (crc: bv32)
    requires r == Fold(IntStep, 0, cmd)
    ensures crc == Crc16(Adast, cmd) as bv32
  {
    IntAccumulator(cmd);
    crc := r & 0xffff;
  }

  method AdastCalcCrc(cmd: seq<Byte>) returns (crc: bv32)
    ensures crc == Crc16(Adast, cmd) as bv32
  {
    crc := 0;
    for n := 0 to |cmd|
      invariant crc == Fold(IntStep, 0, cmd[..n])
    {
      crc := IntMix(crc, cmd[n]);
      ghost var mixed := crc;
      for j := 0 to 8
        invariant crc == Iterate(IntBit, mixed, j)
      {
        if crc & 1 != 0 {
          crc := (crc >> 1) ^ 0x8408;
        } else {
          crc := crc >> 1;
        }
      }
      assert cmd[..n + 1][..n] == cmd[..n];
    }
    assert cmd[..|cmd|] == cmd;
    crc := Masked(cmd, crc);
  }

  /** The two conversions to unsigned char. */
  method Split(crc: bv32, ghost w: bv16) returns (low: Byte, high: Byte)
    requires crc == w as bv32
    ensures low == LowByte(w) && high == HighByte(w)
  {
    WideHalves(w);
    low, high := LowOf(crc), HighOf(crc);
  }

  // ----- Shelf: an int that is never masked

  function WrapBit(r: bv32): bv32 { if r & 0x8000 != 0 then (r << 1) ^ 0x1021 else r << 1 }

  function WrapMix(r: bv32, b: Byte): bv32 { r ^ ((b as bv32) << 8) }

  function WrapStep(r: bv32, b: Byte): bv32 { Iterate(WrapBit, WrapMix(r, b), BITS) }

  /** The conversion of the result to uint16_t. */
  function Narrow(r: bv32): bv16 { (r & 0xffff) as bv16 }

  function WrapFormula(r: bv32): bv32 { (r << 1) ^ (((r >> 15) & 1) << 12) ^ (((r >> 15) & 1) << 5) ^ ((r >> 15) & 1) }

  lemma Bit15(r: bv32)
    ensures (r >> 15) & 1 == 0 ==> r & 0x8000 == 0
    ensures (r >> 15) & 1 != 0 ==> r & 0x8000 != 0 && (r >> 15) & 1 == 1
  {
  }

  lemma WrapIsFormula(r: bv32)
    ensures WrapBit(r) == WrapFormula(r)
  {
    Bit15(r);
    if (r >> 15) & 1 == 0 {
      assert WrapFormula(r) == r << 1;
    } else {
      assert WrapFormula(r) == (r << 1) ^ 0x1021;
    }
  }

  lemma NarrowFormula(r: bv32)
    ensures Narrow(WrapFormula(r)) == ShelfFormula(Narrow(r))
  {
  }

  lemma NarrowBits()
    ensures forall r :: Narrow(WrapBit(r)) == ShelfBit(Narrow(r))
  {
    forall r ensures WrapBit(r) == WrapFormula(r) { WrapIsFormula(r); }
    forall x ensures ShelfBit(x) == ShelfFormula(x) { ShelfIsFormula(x); }
    forall r ensures Narrow(WrapFormula(r)) == ShelfFormula(Narrow(r)) { NarrowFormula(r); }
    SimulatesThrough(WrapBit, WrapFormula, ShelfBit, ShelfFormula, Narrow);
  }

  lemma NarrowXor(r: bv32, b: Byte)
    ensures Narrow(r ^ ((b as bv32) << 8)) == Narrow(r) ^ ((b as bv16) << 8)
  {
  }

  lemma NarrowMix(r: bv32, b: Byte)
    ensures Narrow(WrapMix(r, b)) == HighMix(Narrow(r), b)
  {
    NarrowXor(r, b);
    assert WrapMix(r, b) == r ^ ((b as bv32) << 8);
  }

  lemma NarrowStep(r: bv32, b: Byte)
    ensures Narrow(WrapStep(r, b)) == Take(CodeOf(Shelf), Narrow(r), b)
  {
    NarrowBits();
    NarrowMix(r, b);
    IterateSimulates(WrapBit, ShelfBit, Narrow, WrapMix(r, b), BITS);
  }

  /** Whatever overflows above it, the low half of the accumulator is the 16-bit check value. */
  lemma UnmaskedAccumulator(bytes: seq<Byte>)
    ensures Narrow(Fold(WrapStep, 0, bytes)) == Crc16(Shelf, bytes)
  {
    forall r, b ensures Narrow(WrapStep(r, b)) == TakeOf(CodeOf(Shelf))(Narrow(r), b) { NarrowStep(r, b); }
    FoldSimulates(WrapStep, TakeOf(CodeOf(Shelf)), Narrow, 0, bytes);
    assert Narrow(0) == 0;
  }

  /** The inner loop, on one byte. */
  method WrapByte(before: bv32, byte: Byte) returns (crc: bv32)
    ensures crc == WrapStep(before, byte)
  {
    crc := WrapMix(before, byte);
    ghost var mixed := crc;
    var i: nat := 8;
    while i > 0
      invariant i <= 8
      invariant crc == Iterate(WrapBit, mixed, 8 - i)
    {
      crc := WrapBit(crc);
      i := i - 1;
    }
  }

  /** The same function text on both ends of the link; the pointer goes up while the
      source counts down. `*ptr++` is not range-checked, so callers ask for no more
      bytes than there are. */
  method ShelfCalcrc(ptr: seq<Byte>, count: int) returns (crc: bv32)
    requires count <= |ptr|
    ensures Narrow(crc) == Crc16(Shelf, ptr[..if count < 0 then 0 else count])
  {
    var b := 0;
    crc := 0;
    while b < count
      invariant 0 <= b <= |ptr| && (b == 0 || b <= count)
      invariant crc == Fold(WrapStep, 0, ptr[..b])
    {
      crc := WrapByte(crc, ptr[b]);
      assert ptr[..b + 1][..b] == ptr[..b];
      b := b + 1;
    }
    UnmaskedAccumulator(ptr[..b]);
  }
}
