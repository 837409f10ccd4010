/** The 16-bit cyclic redundancy checks of the three pump protocols, as linear codes. */
module Crc {
  import opened Bytes
  import opened LinearCode

  /** Adast shifts right with 0x8408, Unipump right with 0xa001, Shelf left with 0x1021. */
  datatype Kind = Adast | Unipump | Shelf

  function AdastBit(x: bv16): bv16 { if x & 1 != 0 then (x >> 1) ^ 0x8408 else x >> 1 }

  function UnipumpBit(x: bv16): bv16 { if x & 1 != 0 then (x >> 1) ^ 0xa001 else x >> 1 }

  function ShelfBit(x: bv16): bv16 { if x & 0x8000 != 0 then (x << 1) ^ 0x1021 else x << 1 }

  function LowMix(crc: bv16, b: Byte): bv16 { crc ^ (b as bv16) }

  function HighMix(crc: bv16, b: Byte): bv16 { crc ^ ((b as bv16) << 8) }

  predicate HighClear(x: bv16) { x & 0xff00 == 0 }

  predicate LowClear(x: bv16) { x & 0x00ff == 0 }

  function CodeOf(k: Kind): Code<bv16, Byte> {
    match k
    case Adast => Code(0, 0, AdastBit, LowMix, LowByte, HighByte, HighClear)
    case Unipump => Code(0, 0, UnipumpBit, LowMix, LowByte, HighByte, HighClear)
    case Shelf => Code(0, 0, ShelfBit, HighMix, LowByte, HighByte, LowClear)
  }

  function LayoutOf(k: Kind): Layout {
    match k
    case Adast => Layout(2, 1)    // 16 16 ... FF
    case Unipump => Layout(2, 2)  // DLE STX ... DLE ETX
    case Shelf => Layout(0, 0)
  }

  /** The check value of a byte string, from a zero register. */
  function Crc16(k: Kind, bytes: seq<Byte>): bv16 { Check(CodeOf(k), 0, bytes) }

  predicate Accepted(k: Kind, frame: seq<Byte>)
    requires 0 <= LayoutOf(k).CheckAt(|frame|)
  {
    Accepts(CodeOf(k), LayoutOf(k), frame)
  }

  function Plus(x: bv16, y: bv16): bv16 { x ^ y }

  function PlusByte(x: Byte, y: Byte): Byte { x ^ y }

  /** Flip the bits of the pattern in the frame. */
  function Flip(frame: seq<Byte>, pattern: seq<Byte>): seq<Byte>
    requires |frame| == |pattern|
  {
    Sum(PlusByte, frame, pattern)
  }

  // ----- the bit steps respect exclusive or

  function AdastFormula(x: bv16): bv16 { (x >> 1) ^ ((x & 1) << 15) ^ ((x & 1) << 10) ^ ((x & 1) << 3) }

  function UnipumpFormula(x: bv16): bv16 { (x >> 1) ^ ((x & 1) << 15) ^ ((x & 1) << 13) ^ (x & 1) }

  function ShelfFormula(x: bv16): bv16 { (x << 1) ^ ((x >> 15) << 12) ^ ((x >> 15) << 5) ^ (x >> 15) }

  lemma AdastIsFormula(x: bv16)
    ensures AdastBit(x) == AdastFormula(x)
  {
    assert x & 1 == 0 || x & 1 == 1;
    if x & 1 == 0 {
      assert AdastFormula(x) == x >> 1;
    } else {
      assert AdastFormula(x) == (x >> 1) ^ 0x8408;
    }
  }

  lemma UnipumpIsFormula(x: bv16)
    ensures UnipumpBit(x) == UnipumpFormula(x)
  {
    assert x & 1 == 0 || x & 1 == 1;
    if x & 1 == 0 {
      assert UnipumpFormula(x) == x >> 1;
    } else {
      assert UnipumpFormula(x) == (x >> 1) ^ 0xa001;
    }
  }

  lemma TopBit(x: bv16)
    ensures x & 0x8000 != 0 <==> x >> 15 != 0
    ensures x >> 15 == 0 || x >> 15 == 1
  {
  }

  lemma ShelfIsFormula(x: bv16)
    ensures ShelfBit(x) == ShelfFormula(x)
  {
    TopBit(x);
    if x >> 15 == 0 {
      assert ShelfFormula(x) == x << 1;
    } else {
      assert ShelfFormula(x) == (x << 1) ^ 0x1021;
    }
  }

  lemma AdastFormulaLinear(x: bv16, y: bv16)
    ensures AdastFormula(x ^ y) == AdastFormula(x) ^ AdastFormula(y)
  {
  }

  lemma UnipumpFormulaLinear(x: bv16, y: bv16)
    ensures UnipumpFormula(x ^ y) == UnipumpFormula(x) ^ UnipumpFormula(y)
  {
  }

  lemma ShelfFormulaLinear(x: bv16, y: bv16)
    ensures ShelfFormula(x ^ y) == ShelfFormula(x) ^ ShelfFormula(y)
  {
  }

  lemma AdastAdditive()
    ensures Additive(AdastBit, Plus, Plus)
  {
    forall x, y ensures AdastFormula(Plus(x, y)) == Plus(AdastFormula(x), AdastFormula(y)) { AdastFormulaLinear(x, y); }
    forall x ensures AdastBit(x) == AdastFormula(x) { AdastIsFormula(x); }
    SameAdditive(AdastBit, AdastFormula, Plus);
  }

  lemma UnipumpAdditive()
    ensures Additive(UnipumpBit, Plus, Plus)
  {
    forall x, y ensures UnipumpFormula(Plus(x, y)) == Plus(UnipumpFormula(x), UnipumpFormula(y)) { UnipumpFormulaLinear(x, y); }
    forall x ensures UnipumpBit(x) == UnipumpFormula(x) { UnipumpIsFormula(x); }
    SameAdditive(UnipumpBit, UnipumpFormula, Plus);
  }

  lemma ShelfAdditive()
    ensures Additive(ShelfBit, Plus, Plus)
  {
    forall x, y ensures ShelfFormula(Plus(x, y)) == Plus(ShelfFormula(x), ShelfFormula(y)) { ShelfFormulaLinear(x, y); }
    forall x ensures ShelfBit(x) == ShelfFormula(x) { ShelfIsFormula(x); }
    SameAdditive(ShelfBit, ShelfFormula, Plus);
  }

  // ----- so do mixing and splitting

  lemma LowMixLinear(s: bv16, t: bv16, a: Byte, b: Byte)
    ensures (s ^ t) ^ ((a ^ b) as bv16) == (s ^ (a as bv16)) ^ (t ^ (b as bv16))
  {
  }

  lemma HighMixLinear(s: bv16, t: bv16, a: Byte, b: Byte)
    ensures (s ^ t) ^ (((a ^ b) as bv16) << 8) == (s ^ ((a as bv16) << 8)) ^ (t ^ ((b as bv16) << 8))
  {
  }

  lemma LowMixAdditive()
    ensures Additive2(LowMix, Plus, PlusByte)
  {
    forall s, t, a, b ensures LowMix(Plus(s, t), PlusByte(a, b)) == Plus(LowMix(s, a), LowMix(t, b)) {
      LowMixLinear(s, t, a, b);
    }
  }

  lemma HighMixed(s: bv16, t: bv16, a: Byte, b: Byte)
    ensures HighMix(Plus(s, t), PlusByte(a, b)) == Plus(HighMix(s, a), HighMix(t, b))
  {
    HighMixLinear(s, t, a, b);
  }

  lemma HighMixAdditive()
    ensures Additive2(HighMix, Plus, PlusByte)
  {
    forall s, t, a, b ensures HighMix(Plus(s, t), PlusByte(a, b)) == Plus(HighMix(s, a), HighMix(t, b)) {
      HighMixed(s, t, a, b);
    }
  }

  lemma LowHalfAdditive()
    ensures Additive(LowByte, Plus, PlusByte)
  {
  }

  lemma HighHalfAdditive()
    ensures Additive(HighByte, Plus, PlusByte)
  {
  }

  lemma CancelByte(a: Byte, b: Byte, d: Byte)
    requires PlusByte(a, b) == PlusByte(a, d)
    ensures b == d
  {
  }

  lemma BytesCancel()
    ensures forall a, b, d :: PlusByte(a, b) == PlusByte(a, d) ==> b == d
  {
    forall a, b, d | PlusByte(a, b) == PlusByte(a, d) ensures b == d { CancelByte(a, b, d); }
  }

  lemma BitAdditive(k: Kind)
    ensures Additive(CodeOf(k).bit, Plus, Plus)
  {
    match k
    case Adast => AdastAdditive();
    case Unipump => UnipumpAdditive();
    case Shelf => ShelfAdditive();
  }

  lemma MixAdditive(k: Kind)
    ensures Additive2(CodeOf(k).mix, Plus, PlusByte)
  {
    match k
    case Adast => LowMixAdditive();
    case Unipump => LowMixAdditive();
    case Shelf => HighMixAdditive();
  }

  lemma HalvesAdditive(k: Kind)
    ensures Additive(CodeOf(k).low, Plus, PlusByte) && Additive(CodeOf(k).high, Plus, PlusByte)
  {
    LowHalfAdditive();
    HighHalfAdditive();
  }

  lemma ZeroPlusZero(k: Kind)
    ensures Plus(CodeOf(k).zero, CodeOf(k).zero) == CodeOf(k).zero
  {
  }

  lemma CrcIsLinear(k: Kind)
    ensures Linear(CodeOf(k), Plus, PlusByte)
  {
    BitAdditive(k);
    MixAdditive(k);
    HalvesAdditive(k);
    ZeroPlusZero(k);
    BytesCancel();
    LinearParts(CodeOf(k), Plus, PlusByte);
  }

  // ----- only zero looks like zero

  lemma Eight(f: bv16 -> bv16, x: bv16)
    ensures Iterate(f, x, BITS) == f(f(f(f(f(f(f(f(x))))))))
  {
    assert Iterate(f, x, BITS) == f(Iterate(f, x, 7));
    assert Iterate(f, x, 7) == f(Iterate(f, x, 6));
    assert Iterate(f, x, 6) == f(Iterate(f, x, 5));
    assert Iterate(f, x, 5) == f(Iterate(f, x, 4));
    assert Iterate(f, x, 4) == f(Iterate(f, x, 3));
    assert Iterate(f, x, 3) == f(Iterate(f, x, 2));
    assert Iterate(f, x, 2) == f(Iterate(f, x, 1));
    assert Iterate(f, x, 1) == f(Iterate(f, x, 0));
  }

  function AdastEight(x: bv16): bv16 {
    AdastBit(AdastBit(AdastBit(AdastBit(AdastBit(AdastBit(AdastBit(AdastBit(x))))))))
  }

  function UnipumpEight(x: bv16): bv16 {
    UnipumpBit(UnipumpBit(UnipumpBit(UnipumpBit(UnipumpBit(UnipumpBit(UnipumpBit(UnipumpBit(x))))))))
  }

  function ShelfEight(x: bv16): bv16 {
    ShelfBit(ShelfBit(ShelfBit(ShelfBit(ShelfBit(ShelfBit(ShelfBit(ShelfBit(x))))))))
  }

  lemma AdastFarHalf(a: Byte)
    requires AdastEight(a as bv16) & 0xff00 == 0
    ensures a == 0
  {
  }

  lemma UnipumpFarHalf(a: Byte)
    requires UnipumpEight(a as bv16) & 0xff00 == 0
    ensures a == 0
  {
  }

  lemma ShelfFarHalf(a: Byte)
    requires ShelfEight((a as bv16) << 8) & 0x00ff == 0
    ensures a == 0
  {
  }

  lemma MixFacts(s: bv16, b: Byte)
    ensures LowMix(s, 0) == s && HighMix(s, 0) == s
    ensures LowMix(s, b) == 0 ==> HighClear(s)
    ensures HighMix(s, b) == 0 ==> LowClear(s)
  {
  }

  lemma MixIntoZero(b: Byte)
    ensures LowMix(0, b) == b as bv16 && HighMix(0, b) == (b as bv16) << 8
    ensures LowMix(0, b) == 0 ==> b == 0
    ensures HighMix(0, b) == 0 ==> b == 0
  {
  }

  lemma HalvesFacts(s: bv16)
    ensures LowByte(s) == 0 && HighByte(s) == 0 <==> s == 0
    ensures HighByte(s) == 0 <==> s & 0xff00 == 0
  {
  }

  lemma BitsFaithful(k: Kind)
    ensures OnlyZeroToZero(CodeOf(k).bit, 0)
  {
    match k
    case Adast => forall x ensures AdastBit(x) == 0 <==> x == 0 {}
    case Unipump => forall x ensures UnipumpBit(x) == 0 <==> x == 0 {}
    case Shelf => forall x ensures ShelfBit(x) == 0 <==> x == 0 {}
  }

  lemma FarPart(k: Kind, a: Byte)
    requires CodeOf(k).far(Take(CodeOf(k), 0, a))
    ensures a == 0
  {
    MixIntoZero(a);
    match k
    case Adast =>
      Eight(AdastBit, a as bv16);
      AdastFarHalf(a);
    case Unipump =>
      Eight(UnipumpBit, a as bv16);
      UnipumpFarHalf(a);
    case Shelf =>
      Eight(ShelfBit, (a as bv16) << 8);
      ShelfFarHalf(a);
  }

  lemma CrcIsFaithful(k: Kind)
    ensures Faithful(CodeOf(k))
  {
    var c := CodeOf(k);
    BitsFaithful(k);
    forall s ensures c.mix(s, 0) == 0 <==> s == 0 { MixFacts(s, 0); }
    forall s ensures c.low(s) == 0 && c.high(s) == 0 <==> s == 0 { HalvesFacts(s); }
    forall s, b | c.mix(s, b) == 0 ensures c.far(s) { MixFacts(s, b); }
    forall b | c.mix(0, b) == 0 ensures b == 0 { MixIntoZero(b); }
    forall a | c.far(Take(c, 0, a)) ensures a == 0 { FarPart(k, a); }
  }

  // ----- what the receivers' tests let through

  /** Damage to an accepted frame is accepted exactly when its pattern is an accepted
      frame, for each protocol and at every length. */
  lemma DamagePasses(k: Kind, frame: seq<Byte>, pattern: seq<Byte>)
    requires |frame| == |pattern| && 0 <= LayoutOf(k).CheckAt(|frame|) && Accepted(k, frame)
    ensures Accepted(k, Flip(frame, pattern)) <==> Accepted(k, pattern)
  {
    CrcIsLinear(k);
    DamagePassesIffPatternPasses(CodeOf(k), Plus, PlusByte, LayoutOf(k), frame, pattern);
  }

  lemma ShelfNearHalf(a: Byte)
    requires ShelfEight((a as bv16) << 8) & 0xff00 == 0
    ensures a == 0 || a == 0x89
  {
  }

  lemma ShelfTake(a: Byte)
    ensures Take(CodeOf(Shelf), 0, a) == ShelfEight((a as bv16) << 8)
  {
    MixIntoZero(a);
    Eight(ShelfBit, (a as bv16) << 8);
  }

  lemma ShelfHighAfterOne(a: Byte)
    requires HighByte(ShelfEight((a as bv16) << 8)) == 0
    ensures a == 0 || a == 0x89
  {
    HalvesFacts(ShelfEight((a as bv16) << 8));
    ShelfNearHalf(a);
  }

  lemma HighByteAfterOne(k: Kind, a: Byte)
    requires HighByte(Take(CodeOf(k), 0, a)) == 0
    ensures a == 0 || (k.Shelf? && a == 0x89)
  {
    if k.Shelf? {
      ShelfTake(a);
      ShelfHighAfterOne(a);
    } else {
      HalvesFacts(Take(CodeOf(k), 0, a));
      FarPart(k, a);
    }
  }

  lemma ShelfBlindValue()
    ensures Take(CodeOf(Shelf), 0, 0x89) == 0x00a1
  {
    MixIntoZero(0x89);
    Eight(ShelfBit, 0x8900);
    assert ShelfEight(0x8900) == 0x00a1;
  }

  /** Under Shelf, whose checksum goes out low byte first although the register shifts
      left: bits 0x89 of the last covered byte together with bits 0xa1 of the next. */
  predicate BlindSpot(k: Kind, pattern: seq<Byte>, i: nat) {
    && k.Shelf? && i + 1 == LayoutOf(k).CheckAt(|pattern|)
    && pattern[i] == 0x89 && pattern[i + 1] == 0xa1
  }

  lemma StraddleIsBlindSpot(k: Kind, pattern: seq<Byte>, i: nat)
    requires AdjacentDamage(LayoutOf(k), 0, pattern, i)
    ensures Straddles(CodeOf(k), LayoutOf(k), pattern, i) <==> BlindSpot(k, pattern, i)
  {
    var c, l := CodeOf(k), LayoutOf(k);
    ShelfBlindValue();
    if Straddles(c, l, pattern, i) {
      HighByteAfterOne(k, pattern[i]);
      CrcIsFaithful(k);
      TakeZero(c, 0, 0);
    }
    assert LowByte(0x00a1) == 0xa1 && HighByte(0x00a1) == 0;
  }

  /** Damage confined to two adjacent bytes anywhere between header and trailer, of an
      accepted frame of any length, is accepted exactly in Shelf's blind spot: Adast
      and Unipump detect all of it. */
  lemma AdjacentDamageDetected(k: Kind, frame: seq<Byte>, pattern: seq<Byte>, i: nat)
    requires |frame| == |pattern| && AdjacentDamage(LayoutOf(k), 0, pattern, i) && Accepted(k, frame)
    ensures Accepted(k, Flip(frame, pattern)) <==> BlindSpot(k, pattern, i)
  {
    CrcIsLinear(k);
    CrcIsFaithful(k);
    AdjacentDamagePasses(CodeOf(k), Plus, PlusByte, LayoutOf(k), frame, pattern, i);
    StraddleIsBlindSpot(k, pattern, i);
  }
}
