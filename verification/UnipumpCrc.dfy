/** The two branches of Unipump's checksum function, by table and bit by bit. */
module UnipumpCrc {
  import opened Bytes
  import opened Crc
  import opened Crc16Table
  import opened LinearCode

  // ----- the table form

  function Near(x: bv16): bv16 { x & 0xff }

  function Far(x: bv16): bv16 { x & 0xff00 }

  function Down(x: bv16): bv16 { x >> 8 }

  /** crc_16_tab[x & 0xff] */
  function Lookup(x: bv16): bv16 { TableEntry((x & 0xff) as bv8) }

  function TableStep(crc: bv16, b: Byte): bv16 { Plus(Down(crc), Lookup(LowMix(crc, b))) }

  lemma NearFar(x: bv16)
    ensures Plus(Near(x), Far(x)) == x
  {
  }

  lemma FarGoesDown(x: bv16)
    ensures UnipumpEight(Far(x)) == Down(x)
  {
  }

  lemma NearIsIndex(x: bv16)
    ensures ((x & 0xff) as bv8) as bv16 == x & 0xff
  {
  }

  lemma NearIsLookup(x: bv16)
    ensures UnipumpEight(Near(x)) == Lookup(x)
  {
    calc {
      Lookup(x);
      { TableIsEightBits((x & 0xff) as bv8); }
      UnipumpEight(((x & 0xff) as bv8) as bv16);
      { NearIsIndex(x); }
      UnipumpEight(Near(x));
    }
  }

  lemma MixLeavesFar(crc: bv16, b: Byte)
    ensures Down(LowMix(crc, b)) == Down(crc)
  {
  }

  lemma PlusCommutes(x: bv16, y: bv16)
    ensures Plus(x, y) == Plus(y, x)
  {
  }

  lemma UnipumpTabulated()
    ensures Tabulated(CodeOf(Unipump), Plus, Near, Far, Down, Lookup)
  {
    forall x ensures Plus(Near(x), Far(x)) == x { NearFar(x); }
    forall x ensures Iterate(UnipumpBit, Far(x), BITS) == Down(x) {
      Eight(UnipumpBit, Far(x));
      FarGoesDown(x);
    }
    forall x ensures Iterate(UnipumpBit, Near(x), BITS) == Lookup(x) {
      Eight(UnipumpBit, Near(x));
      NearIsLookup(x);
    }
    forall s, b ensures Down(LowMix(s, b)) == Down(s) { MixLeavesFar(s, b); }
    forall x, y ensures Plus(x, y) == Plus(y, x) { PlusCommutes(x, y); }
  }

  /** One table lookup does what eight bit steps do. */
  lemma TableStepIsTake(crc: bv16, b: Byte)
    ensures TableStep(crc, b) == Take(CodeOf(Unipump), crc, b)
  {
    UnipumpAdditive();
    UnipumpTabulated();
    LookupIsTake(CodeOf(Unipump), Plus, Near, Far, Down, Lookup, crc, b);
  }

  /** Both branches compute the check value from whatever register they are given, so
      they are the same function. */
  method GetCrc16(start: bv16, buf: seq<Byte>) returns (crc: bv16)
    ensures crc == Check(CodeOf(Unipump), start, buf)
  {
    crc := start;
    for i := 0 to |buf|
      invariant crc == Check(CodeOf(Unipump), start, buf[..i])
    {
      TableStepIsTake(crc, buf[i]);
      crc := TableStep(crc, buf[i]);
      assert buf[..i + 1][..i] == buf[..i];
    }
    assert buf[..|buf|] == buf;
  }

  // ----- the bitwise form, which shifts the byte beside the register

  function TwinBit(crc: bv16, ch: bv16): bv16 {
    if (crc ^ ch) & 1 != 0 then (crc >> 1) ^ 0xa001 else crc >> 1
  }

  function Half(ch: bv16): bv16 { ch >> 1 }

  function TwinFormula(crc: bv16, ch: bv16): bv16 {
    (crc >> 1) ^ (((crc ^ ch) & 1) << 15) ^ (((crc ^ ch) & 1) << 13) ^ ((crc ^ ch) & 1)
  }

  lemma TwinIsFormula(crc: bv16, ch: bv16)
    ensures TwinBit(crc, ch) == TwinFormula(crc, ch)
  {
    assert (crc ^ ch) & 1 == 0 || (crc ^ ch) & 1 == 1;
    if (crc ^ ch) & 1 == 0 {
      assert TwinFormula(crc, ch) == crc >> 1;
    } else {
      assert TwinFormula(crc, ch) == (crc >> 1) ^ 0xa001;
    }
  }

  lemma TwinFormulaPlus(crc: bv16, ch: bv16)
    ensures Plus(TwinFormula(crc, ch), Half(ch)) == UnipumpFormula(Plus(crc, ch))
  {
  }

  lemma TwinPlus(crc: bv16, ch: bv16)
    ensures Plus(TwinBit(crc, ch), Half(ch)) == UnipumpBit(Plus(crc, ch))
  {
    calc {
      Plus(TwinBit(crc, ch), Half(ch));
      { TwinIsFormula(crc, ch); }
      Plus(TwinFormula(crc, ch), Half(ch));
      { TwinFormulaPlus(crc, ch); }
      UnipumpFormula(Plus(crc, ch));
      { UnipumpIsFormula(Plus(crc, ch)); }
      UnipumpBit(Plus(crc, ch));
    }
  }

  lemma ByteShiftedOut(b: Byte)
    ensures Iterate(Half, b as bv16, BITS) == 0
  {
    Eight(Half, b as bv16);
    ShiftedOut(b);
  }

  lemma ShiftedOut(b: Byte)
    ensures Half(Half(Half(Half(Half(Half(Half(Half(b as bv16)))))))) == 0
  {
  }

  lemma PlusZero(crc: bv16)
    ensures Plus(crc, 0) == crc
  {
  }

  method TwinByte(before: bv16, c: Byte) returns (crc: bv16)
    ensures crc == Take(CodeOf(Unipump), before, c)
  {
    crc := before;
    var ch := c as bv16;
    for i := 0 to 8
      invariant ch == Iterate(Half, c as bv16, i)
      invariant Plus(crc, ch) == Iterate(UnipumpBit, LowMix(before, c), i)
    {
      TwinPlus(crc, ch);
      crc := TwinBit(crc, ch);
      ch := Half(ch);
    }
    ByteShiftedOut(c);
    PlusZero(crc);
  }

  method GetCrc16Bitwise(start: bv16, buf: seq<Byte>) returns (crc: bv16)
    ensures crc == Check(CodeOf(Unipump), start, buf)
  {
    crc := start;
    for i := 0 to |buf|
      invariant crc == Check(CodeOf(Unipump), start, buf[..i])
    {
      crc := TwinByte(crc, buf[i]);
      assert buf[..i + 1][..i] == buf[..i];
    }
    assert buf[..|buf|] == buf;
  }
}
