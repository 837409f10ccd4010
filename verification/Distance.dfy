/** The bit steps of the three checks come back to where they were after 32767 turns and no
    sooner, so two flipped bits are found unless they are that far apart.

    Far turns are reached by squaring modulo the generator, one binary digit of their number at a
    time. */
module Distance {
  import opened Bytes
  import opened Crc
  import opened LinearCode
  import opened Period
  import opened SerialCode
  import opened Bursts

  /** Squaring modulo the generator, for polynomials written highest bit first. */
  function AdastSquare(v: bv16): bv16 {
    ((v & 0x0100) >> 7) ^ ((v & 0x0200) >> 6) ^ ((v & 0x0440) >> 5) ^ ((v & 0x0880) >> 4) ^ ((v & 0x1010) >> 3)
    ^ ((v & 0x2024) >> 2) ^ ((v & 0x400c) >> 1) ^ (v & 0x8018) ^ ((v & 0x0020) << 1) ^ ((v & 0x0044) << 2)
    ^ ((v & 0x008c) << 3) ^ ((v & 0x0019) << 4) ^ ((v & 0x0033) << 5) ^ ((v & 0x0026) << 6) ^ ((v & 0x004d) << 7)
    ^ ((v & 0x008b) << 8) ^ ((v & 0x0013) << 9) ^ ((v & 0x0022) << 10) ^ ((v & 0x0004) << 11) ^ ((v & 0x0009) << 12)
    ^ ((v & 0x0003) << 13) ^ ((v & 0x0002) << 14)
  }

  function UnipumpSquare(v: bv16): bv16 {
    ((v & 0x0180) >> 7) ^ ((v & 0x0240) >> 6) ^ ((v & 0x0420) >> 5) ^ ((v & 0x0810) >> 4) ^ ((v & 0x1008) >> 3)
    ^ ((v & 0x2004) >> 2) ^ ((v & 0x4002) >> 1) ^ (v & 0x8003) ^ ((v & 0x0006) << 1) ^ ((v & 0x000c) << 2)
    ^ ((v & 0x0018) << 3) ^ ((v & 0x0030) << 4) ^ ((v & 0x0060) << 5) ^ ((v & 0x00c0) << 6) ^ ((v & 0x00c0) << 8)
    ^ ((v & 0x0060) << 9) ^ ((v & 0x0030) << 10) ^ ((v & 0x0018) << 11) ^ ((v & 0x000c) << 12) ^ ((v & 0x0007) << 13)
    ^ ((v & 0x0003) << 14)
  }

  lemma AdastSquareOfStep(v: bv16)
    ensures AdastSquare(AdastFormula(v)) == AdastFormula(AdastFormula(AdastSquare(v)))
  {
  }

  lemma UnipumpSquareOfStep(v: bv16)
    ensures UnipumpSquare(UnipumpFormula(v)) == UnipumpFormula(UnipumpFormula(UnipumpSquare(v)))
  {
  }

  const START: bv16 := 0x8000

  lemma AdastSquares()
    ensures Squares(AdastFormula, AdastSquare, START)
  {
    forall v ensures AdastSquare(AdastFormula(v)) == AdastFormula(AdastFormula(AdastSquare(v))) { AdastSquareOfStep(v); }
  }

  lemma UnipumpSquares()
    ensures Squares(UnipumpFormula, UnipumpSquare, START)
  {
    forall v ensures UnipumpSquare(UnipumpFormula(v)) == UnipumpFormula(UnipumpFormula(UnipumpSquare(v))) {
      UnipumpSquareOfStep(v);
    }
  }

  // ----- Adast

  /** One more binary digit of the count. */
  lemma AdastTwice(n: nat, v: bv16, digit: nat, w: bv16)
    requires digit <= 1 && Iterate(AdastFormula, START, n) == v
    requires w == if digit == 1 then AdastFormula(AdastSquare(v)) else AdastSquare(v)
    ensures Iterate(AdastFormula, START, 2 * n + digit) == w
  {
    AdastSquares();
    var _, _ := Twice(AdastFormula, AdastSquare, START, n, v, digit);
  }

  lemma AdastAt217()
    ensures Iterate(AdastFormula, START, 217) == 0xc712
  {
    AdastTwice(0, 0x8000, 1, 0x4000);
    AdastTwice(1, 0x4000, 1, 0x1000);
    AdastTwice(3, 0x1000, 0, 0x0200);
    AdastTwice(6, 0x0200, 1, 0x0004);
    AdastTwice(13, 0x0004, 1, 0x9591);
    AdastTwice(27, 0x9591, 0, 0x1688);
    AdastTwice(54, 0x1688, 0, 0x0aec);
    AdastTwice(108, 0x0aec, 1, 0xc712);
  }

  lemma AdastAt33()
    ensures Iterate(AdastFormula, START, 33) == 0x0676
  {
    AdastTwice(0, 0x8000, 1, 0x4000);
    AdastTwice(1, 0x4000, 0, 0x2000);
    AdastTwice(2, 0x2000, 0, 0x0800);
    AdastTwice(4, 0x0800, 0, 0x0080);
    AdastTwice(8, 0x0080, 0, 0x8408);
    AdastTwice(16, 0x8408, 1, 0x0676);
  }

  lemma AdastAt1057()
    ensures Iterate(AdastFormula, START, 1057) == 0xf54f
  {
    AdastAt33();
    AdastTwice(33, 0x0676, 0, 0x6383);
    AdastTwice(66, 0x6383, 0, 0x5172);
    AdastTwice(132, 0x5172, 0, 0x629a);
    AdastTwice(264, 0x629a, 0, 0xcd1e);
    AdastTwice(528, 0xcd1e, 1, 0xf54f);
  }

  lemma AdastAt73()
    ensures Iterate(AdastFormula, START, 73) == 0x65f1
  {
    AdastTwice(0, 0x8000, 1, 0x4000);
    AdastTwice(1, 0x4000, 0, 0x2000);
    AdastTwice(2, 0x2000, 0, 0x0800);
    AdastTwice(4, 0x0800, 1, 0x0040);
    AdastTwice(9, 0x0040, 0, 0x2102);
    AdastTwice(18, 0x2102, 0, 0xc6c2);
    AdastTwice(36, 0xc6c2, 1, 0x65f1);
  }

  lemma AdastAt4681()
    ensures Iterate(AdastFormula, START, 4681) == 0x4234
  {
    AdastAt73();
    AdastTwice(73, 0x65f1, 0, 0x11c2);
    AdastTwice(146, 0x11c2, 0, 0x69c8);
    AdastTwice(292, 0x69c8, 1, 0x00a2);
    AdastTwice(585, 0x00a2, 0, 0xc680);
    AdastTwice(1170, 0xc680, 0, 0x2420);
    AdastTwice(2340, 0x2420, 1, 0x4234);
  }

  lemma AdastAt255()
    ensures Iterate(AdastFormula, START, 255) == 0x20f3
  {
    AdastTwice(0, 0x8000, 1, 0x4000);
    AdastTwice(1, 0x4000, 1, 0x1000);
    AdastTwice(3, 0x1000, 1, 0x0100);
    AdastTwice(7, 0x0100, 1, 0x0001);
    AdastTwice(15, 0x0001, 1, 0x19d8);
    AdastTwice(31, 0x19d8, 1, 0x042b);
    AdastTwice(63, 0x042b, 1, 0x7eea);
    AdastTwice(127, 0x7eea, 1, 0x20f3);
  }

  lemma AdastAt32767()
    ensures Iterate(AdastFormula, START, 32767) == 0x8000
  {
    AdastAt255();
    AdastTwice(255, 0x20f3, 1, 0x7f90);
    AdastTwice(511, 0x7f90, 1, 0x46d8);
    AdastTwice(1023, 0x46d8, 1, 0x157e);
    AdastTwice(2047, 0x157e, 1, 0xf2aa);
    AdastTwice(4095, 0xf2aa, 1, 0x7022);
    AdastTwice(8191, 0x7022, 1, 0x3444);
    AdastTwice(16383, 0x3444, 1, 0x8000);
  }

  lemma AdastReturns(d: nat)
    requires 0 < d < 32767
    ensures Iterate(AdastFormula, START, 32767) == START && Iterate(AdastFormula, START, d) != START
  {
    AdastAt32767();
    AdastAt4681();
    AdastAt1057();
    AdastAt217();
    FullPeriod(AdastFormula, START, d);
  }

  // ----- Unipump

  /** One more binary digit of the count. */
  lemma UnipumpTwice(n: nat, v: bv16, digit: nat, w: bv16)
    requires digit <= 1 && Iterate(UnipumpFormula, START, n) == v
    requires w == if digit == 1 then UnipumpFormula(UnipumpSquare(v)) else UnipumpSquare(v)
    ensures Iterate(UnipumpFormula, START, 2 * n + digit) == w
  {
    UnipumpSquares();
    var _, _ := Twice(UnipumpFormula, UnipumpSquare, START, n, v, digit);
  }

  lemma UnipumpAt217()
    ensures Iterate(UnipumpFormula, START, 217) == 0x3e55
  {
    UnipumpTwice(0, 0x8000, 1, 0x4000);
    UnipumpTwice(1, 0x4000, 1, 0x1000);
    UnipumpTwice(3, 0x1000, 0, 0x0200);
    UnipumpTwice(6, 0x0200, 1, 0x0004);
    UnipumpTwice(13, 0x0004, 1, 0xc00d);
    UnipumpTwice(27, 0xc00d, 0, 0xc079);
    UnipumpTwice(54, 0xc079, 0, 0xdfe1);
    UnipumpTwice(108, 0xdfe1, 1, 0x3e55);
  }

  lemma UnipumpAt33()
    ensures Iterate(UnipumpFormula, START, 33) == 0xd401
  {
    UnipumpTwice(0, 0x8000, 1, 0x4000);
    UnipumpTwice(1, 0x4000, 0, 0x2000);
    UnipumpTwice(2, 0x2000, 0, 0x0800);
    UnipumpTwice(4, 0x0800, 0, 0x0080);
    UnipumpTwice(8, 0x0080, 0, 0xa001);
    UnipumpTwice(16, 0xa001, 1, 0xd401);
  }

  lemma UnipumpAt1057()
    ensures Iterate(UnipumpFormula, START, 1057) == 0xce41
  {
    UnipumpAt33();
    UnipumpTwice(33, 0xd401, 0, 0xc221);
    UnipumpTwice(66, 0xc221, 0, 0x0608);
    UnipumpTwice(132, 0x0608, 0, 0xc049);
    UnipumpTwice(264, 0xc049, 0, 0xd861);
    UnipumpTwice(528, 0xd861, 1, 0xce41);
  }

  lemma UnipumpAt73()
    ensures Iterate(UnipumpFormula, START, 73) == 0x3004
  {
    UnipumpTwice(0, 0x8000, 1, 0x4000);
    UnipumpTwice(1, 0x4000, 0, 0x2000);
    UnipumpTwice(2, 0x2000, 0, 0x0800);
    UnipumpTwice(4, 0x0800, 1, 0x0040);
    UnipumpTwice(9, 0x0040, 0, 0xd801);
    UnipumpTwice(18, 0xd801, 0, 0xc281);
    UnipumpTwice(36, 0xc281, 1, 0x3004);
  }

  lemma UnipumpAt4681()
    ensures Iterate(UnipumpFormula, START, 4681) == 0x8c69
  {
    UnipumpAt73();
    UnipumpTwice(73, 0x3004, 0, 0xca19);
    UnipumpTwice(146, 0xca19, 0, 0xc169);
    UnipumpTwice(292, 0xc169, 1, 0x0f31);
    UnipumpTwice(585, 0x0f31, 0, 0x672b);
    UnipumpTwice(1170, 0x672b, 0, 0x8e4c);
    UnipumpTwice(2340, 0x8e4c, 1, 0x8c69);
  }

  lemma UnipumpAt255()
    ensures Iterate(UnipumpFormula, START, 255) == 0x5001
  {
    UnipumpTwice(0, 0x8000, 1, 0x4000);
    UnipumpTwice(1, 0x4000, 1, 0x1000);
    UnipumpTwice(3, 0x1000, 1, 0x0100);
    UnipumpTwice(7, 0x0100, 1, 0x0001);
    UnipumpTwice(15, 0x0001, 1, 0x9001);
    UnipumpTwice(31, 0x9001, 1, 0xd101);
    UnipumpTwice(63, 0xd101, 1, 0xc100);
    UnipumpTwice(127, 0xc100, 1, 0x5001);
  }

  lemma UnipumpAt32767()
    ensures Iterate(UnipumpFormula, START, 32767) == 0x8000
  {
    UnipumpAt255();
    UnipumpTwice(255, 0x5001, 1, 0x8101);
    UnipumpTwice(511, 0x8101, 1, 0xd000);
    UnipumpTwice(1023, 0xd000, 1, 0x5100);
    UnipumpTwice(2047, 0x5100, 1, 0x1101);
    UnipumpTwice(4095, 0x1101, 1, 0x9100);
    UnipumpTwice(8191, 0x9100, 1, 0x4101);
    UnipumpTwice(16383, 0x4101, 1, 0x8000);
  }

  lemma UnipumpReturns(d: nat)
    requires 0 < d < 32767
    ensures Iterate(UnipumpFormula, START, 32767) == START && Iterate(UnipumpFormula, START, d) != START
  {
    UnipumpAt32767();
    UnipumpAt4681();
    UnipumpAt1057();
    UnipumpAt217();
    FullPeriod(UnipumpFormula, START, d);
  }

  // ----- the bit steps themselves

  /** The bit that goes through the register first. */
  function StartOf(k: Kind): bv16 { if k.Shelf? then 0x0001 else 0x8000 }

  lemma AdastBitReturns(d: nat)
    requires 0 < d < 32767
    ensures Iterate(AdastBit, START, 32767) == START && Iterate(AdastBit, START, d) != START
  {
    AdastReturns(d);
    forall x ensures AdastBit(x) == AdastFormula(x) { AdastIsFormula(x); }
    SameIterates(AdastBit, AdastFormula, START, 32767);
    SameIterates(AdastBit, AdastFormula, START, d);
  }

  lemma UnipumpBitReturns(d: nat)
    requires 0 < d < 32767
    ensures Iterate(UnipumpBit, START, 32767) == START && Iterate(UnipumpBit, START, d) != START
  {
    UnipumpReturns(d);
    forall x ensures UnipumpBit(x) == UnipumpFormula(x) { UnipumpIsFormula(x); }
    SameIterates(UnipumpBit, UnipumpFormula, START, 32767);
    SameIterates(UnipumpBit, UnipumpFormula, START, d);
  }

  // Shelf's generator is that of Adast, written lowest bit first.

  function Reversed(x: bv16): bv16 {
    (((x & 0x0001) << 15) | ((x & 0x0002) << 13) | ((x & 0x0004) << 11) | ((x & 0x0008) << 9))
    | (((x & 0x0010) << 7) | ((x & 0x0020) << 5) | ((x & 0x0040) << 3) | ((x & 0x0080) << 1))
    | (((x & 0x0100) >> 1) | ((x & 0x0200) >> 3) | ((x & 0x0400) >> 5) | ((x & 0x0800) >> 7))
    | (((x & 0x1000) >> 9) | ((x & 0x2000) >> 11) | ((x & 0x4000) >> 13) | ((x & 0x8000) >> 15))
  }

  lemma ReversedOdd(x: bv16)
    requires x & 1 != 0
    ensures Reversed((x >> 1) ^ 0x8408) == (Reversed(x) << 1) ^ 0x1021 && Reversed(x) & 0x8000 != 0
  {
  }

  lemma ReversedEven(x: bv16)
    requires x & 1 == 0
    ensures Reversed(x >> 1) == Reversed(x) << 1 && Reversed(x) & 0x8000 == 0
  {
  }

  lemma ReversedStep(x: bv16)
    ensures Reversed(AdastBit(x)) == ShelfBit(Reversed(x))
  {
    if x & 1 != 0 {
      ReversedOdd(x);
    } else {
      ReversedEven(x);
    }
  }

  lemma ReversedTwice(x: bv16)
    ensures Reversed(Reversed(x)) == x
  {
  }

  lemma ReversedIterate(n: nat)
    ensures Iterate(ShelfBit, Reversed(START), n) == Reversed(Iterate(AdastBit, START, n))
  {
    forall x ensures Reversed(AdastBit(x)) == ShelfBit(Reversed(x)) { ReversedStep(x); }
    IterateSimulates(AdastBit, ShelfBit, Reversed, START, n);
  }

  lemma ShelfBitReturns(d: nat)
    requires 0 < d < 32767
    ensures Iterate(ShelfBit, 1, 32767) == 1 && Iterate(ShelfBit, 1, d) != 1
  {
    assert Reversed(START) == 1;
    AdastBitReturns(d);
    ReversedIterate(32767);
    ReversedIterate(d);
    ReversedTwice(Iterate(AdastBit, START, d));
    ReversedTwice(START);
  }

  lemma NoEarlyReturn(k: Kind, d: nat)
    requires 0 < d < 32767
    ensures Iterate(CodeOf(k).bit, StartOf(k), 32767) == StartOf(k) && Iterate(CodeOf(k).bit, StartOf(k), d) != StartOf(k)
  {
    match k
    case Adast => AdastBitReturns(d);
    case Unipump => UnipumpBitReturns(d);
    case Shelf => ShelfBitReturns(d);
  }

  lemma Fifteen(f: bv16 -> bv16, x: bv16)
    ensures Iterate(f, x, 15) == f(f(f(f(f(f(f(Iterate(f, x, 8))))))))
  {
    assert Iterate(f, x, 15) == f(f(Iterate(f, x, 13)));
    assert Iterate(f, x, 13) == f(f(Iterate(f, x, 11)));
    assert Iterate(f, x, 11) == f(f(Iterate(f, x, 9)));
    assert Iterate(f, x, 9) == f(Iterate(f, x, 8));
  }

  lemma FirstToLast(k: Kind)
    ensures Iterate(CodeOf(k).bit, StartOf(k), 15) == WireOf(k).one
  {
    var c := CodeOf(k);
    Fifteen(c.bit, StartOf(k));
    Eight(c.bit, StartOf(k));
    match k
    case Adast => assert AdastEight(0x8000) == 0x0080;
    case Unipump => assert UnipumpEight(0x8000) == 0x0080;
    case Shelf => assert ShelfEight(0x0001) == 0x0100;
  }

  lemma OneReturns(k: Kind, d: nat)
    requires 0 < d < 32767
    ensures Iterate(CodeOf(k).bit, WireOf(k).one, d) != WireOf(k).one
  {
    FirstToLast(k);
    NoEarlyReturn(k, d);
    ElsewhereToo(CodeOf(k).bit, StartOf(k), 15, 32767, d);
  }

  // ----- two flipped bits

  lemma SameWord(x: bv16, y: bv16)
    ensures Plus(x, y) == 0 ==> x == y
  {
  }

  lemma PlusOne(k: Kind)
    ensures WireOf(k).plus(0, WireOf(k).one) == WireOf(k).one
  {
    PlusZero(WireOf(k).one);
  }

  /** Two bits in a string are seen by its checksum unless they are 32767 or more apart. */
  lemma CrcPairNonzero(k: Kind, d: seq<Byte>, before: nat, gap: nat, after: nat)
    requires Alone(WireOf(k), d, before, Pair(gap), after) && gap < 32766
    ensures Check(CodeOf(k), 0, d) != 0
  {
    var c, w := CodeOf(k), WireOf(k);
    CrcSerial(k);
    BitsFaithful(k);
    PlusOne(k);
    SameWord(Iterate(c.bit, c.bit(w.one), gap), w.one);
    OneReturns(k, gap + 1);
    TwoBitsNonzero(c, w, d, before, gap, after);
  }
}
