/** All three generator polynomials are divisible by x + 1, so the checks keep parity: no damage
    that flips an odd number of bits gets past them. */
module Parity {
  import opened Bytes
  import opened Crc
  import opened LinearCode

  // ----- counting bits

  function Ones(b: Byte): nat
    decreases b
  {
    if b == 0 then 0 else (if b & 1 == 1 then 1 else 0) + Ones(b >> 1)
  }

  /** The number of ones in a byte string. */
  function Weight(bytes: seq<Byte>): nat {
    if bytes == [] then 0 else Weight(bytes[..|bytes| - 1]) + Ones(bytes[|bytes| - 1])
  }

  function Odd8(b: Byte): bool
    decreases b
  {
    b != 0 && ((b & 1 == 1) != Odd8(b >> 1))
  }

  lemma {:induction false} OnesParity(b: Byte)
    ensures Odd8(b) <==> Ones(b) % 2 == 1
    decreases b
  {
    if b != 0 {
      OnesParity(b >> 1);
    }
  }

  lemma {:induction false} WeightParity(bytes: seq<Byte>)
    ensures Total(Xor, false, Odd8, bytes) <==> Weight(bytes) % 2 == 1
  {
    if bytes != [] {
      var n := |bytes| - 1;
      WeightParity(bytes[..n]);
      OnesParity(bytes[n]);
    }
  }

  // ----- parity of anything that can be halved

  /** Whether the lowest `n` bits have an odd number of ones. */
  function OddIn<S>(low: S -> bool, half: S -> S, x: S, n: nat): bool
    decreases n
  {
    n != 0 && (low(x) != OddIn(low, half, half(x), n - 1))
  }

  lemma {:induction false} OddInSum<S(!new)>(low: S -> bool, half: S -> S, plus: (S, S) -> S, x: S, y: S, n: nat)
    requires (forall a, b :: low(plus(a, b)) == (low(a) != low(b))) && Additive(half, plus, plus)
    ensures OddIn(low, half, plus(x, y), n) == (OddIn(low, half, x, n) != OddIn(low, half, y, n))
    decreases n
  {
    if n > 0 {
      OddInSum(low, half, plus, half(x), half(y), n - 1);
    }
  }

  lemma {:induction false} OddInZero<S>(low: S -> bool, half: S -> S, zero: S, n: nat)
    requires !low(zero) && half(zero) == zero
    ensures !OddIn(low, half, zero, n)
    decreases n
  {
    if n > 0 {
      OddInZero(low, half, zero, n - 1);
    }
  }

  /** Bits beyond the last one do not count. */
  lemma {:induction false} OddInTail<S>(low: S -> bool, half: S -> S, zero: S, x: S, k: nat, n: nat)
    requires !low(zero) && half(zero) == zero && Down(half, x, k) == zero && k <= n
    ensures OddIn(low, half, x, n) == OddIn(low, half, x, k)
    decreases k
  {
    if k == 0 {
      OddInZero(low, half, zero, n);
    } else {
      OddInTail(low, half, zero, half(x), k - 1, n - 1);
    }
  }

  // ----- registers; `n` bits are looked at, and that is all of them

  function Low(x: bv16): bool { x & 1 == 1 }

  function Half(x: bv16): bv16 { x >> 1 }

  function OddOf(n: nat): bv16 -> bool { x => OddIn(Low, Half, x, n) }

  lemma LowOfSum(x: bv16, y: bv16)
    ensures Low(Plus(x, y)) == (Low(x) != Low(y))
  {
  }

  lemma HalfOfSum(x: bv16, y: bv16)
    ensures Half(Plus(x, y)) == Plus(Half(x), Half(y))
  {
  }

  lemma Zero()
    ensures !Low(0) && Half(0) == 0
  {
  }

  lemma SumParity(n: nat, x: bv16, y: bv16)
    ensures OddIn(Low, Half, Plus(x, y), n) == (OddIn(Low, Half, x, n) != OddIn(Low, Half, y, n))
  {
    forall a, b ensures Low(Plus(a, b)) == (Low(a) != Low(b)) { LowOfSum(a, b); }
    forall a, b ensures Half(Plus(a, b)) == Plus(Half(a), Half(b)) { HalfOfSum(a, b); }
    OddInSum(Low, Half, Plus, x, y, n);
  }

  lemma Tail(x: bv16, k: nat, n: nat)
    requires Down(Half, x, k) == 0 && k <= n
    ensures OddIn(Low, Half, x, n) == OddIn(Low, Half, x, k)
  {
    Zero();
    OddInTail(Low, Half, 0, x, k, n);
  }

  lemma {:induction false} DownSplit<S>(half: S -> S, x: S, m: nat, n: nat)
    ensures Down(half, x, m + n) == Down(half, Down(half, x, m), n)
    decreases m
  {
    if m > 0 {
      DownSplit(half, half(x), m - 1, n);
    }
  }

  lemma Down8(x: bv16)
    ensures Down(Half, x, 8) == x >> 8
  {
  }

  lemma Down7(x: bv16)
    ensures Down(Half, x, 7) == x >> 7
  {
  }

  lemma Shifted(x: bv16)
    ensures (x >> 8) >> 8 == 0 && ((x >> 1) >> 8) >> 7 == 0 && ((x & 0x7fff) >> 8) >> 7 == 0
    ensures x & 0xff00 == 0 ==> x >> 8 == 0
  {
  }

  lemma AllDown(x: bv16)
    ensures Down(Half, x, 8 + 8) == 0
  {
    DownSplit(Half, x, 8, 8);
    Down8(x);
    Down8(x >> 8);
    Shifted(x);
  }

  lemma HalfDown(x: bv16)
    ensures Down(Half, Half(x), 8 + 7) == 0
  {
    DownSplit(Half, x >> 1, 8, 7);
    Down8(x >> 1);
    Down7((x >> 1) >> 8);
    Shifted(x);
  }

  lemma RestDown(x: bv16)
    ensures Down(Half, Rest(x), 8 + 7) == 0
  {
    DownSplit(Half, x & 0x7fff, 8, 7);
    Down8(x & 0x7fff);
    Down7((x & 0x7fff) >> 8);
    Shifted(x);
  }

  lemma ByteDown(y: bv16)
    requires y & 0xff00 == 0
    ensures Down(Half, y, 8) == 0
  {
    Down8(y);
    Shifted(y);
  }

  // ----- bytes in registers

  function Wide(b: Byte): bv16 { b as bv16 }

  function Raised(b: Byte): bv16 { (b as bv16) << 8 }

  lemma WideHalves(b: Byte)
    ensures Half(Wide(b)) == Wide(b >> 1) && (Low(Wide(b)) <==> b & 1 == 1)
  {
  }

  lemma {:induction false} WideParity(n: nat, b: Byte)
    requires Down(Half, Wide(b), n) == 0
    ensures OddIn(Low, Half, Wide(b), n) == Odd8(b)
    decreases n
  {
    WideHalves(b);
    if n == 0 {
      WideZero(b);
    } else if b == 0 {
      Zero();
      OddInZero(Low, Half, 0, n);
    } else {
      WideParity(n - 1, b >> 1);
    }
  }

  lemma WideZero(b: Byte)
    ensures Wide(b) == 0 <==> b == 0
  {
  }

  lemma WideDown(b: Byte)
    ensures Down(Half, Wide(b), 16) == 0 && Down(Half, Wide(b), 8) == 0
  {
    AllDown(Wide(b));
    WideIsLow(b);
    ByteDown(Wide(b));
  }

  lemma WideIsLow(b: Byte)
    ensures Wide(b) & 0xff00 == 0
  {
  }

  lemma ByteParity(n: nat, b: Byte)
    requires n >= 8
    ensures OddIn(Low, Half, Wide(b), n) == Odd8(b)
  {
    WideDown(b);
    Tail(Wide(b), 8, n);
    WideParity(8, b);
  }

  lemma RaisedDown(b: Byte)
    ensures !Low(Raised(b)) && !Low(Raised(b) >> 1) && !Low(Raised(b) >> 2) && !Low(Raised(b) >> 3)
    ensures !Low(Raised(b) >> 4) && !Low(Raised(b) >> 5) && !Low(Raised(b) >> 6) && !Low(Raised(b) >> 7)
  {
  }

  lemma RaisedHalves(b: Byte)
    ensures Half(Raised(b)) == Raised(b) >> 1 && Half(Raised(b) >> 1) == Raised(b) >> 2
    ensures Half(Raised(b) >> 2) == Raised(b) >> 3 && Half(Raised(b) >> 3) == Raised(b) >> 4
    ensures Half(Raised(b) >> 4) == Raised(b) >> 5 && Half(Raised(b) >> 5) == Raised(b) >> 6
    ensures Half(Raised(b) >> 6) == Raised(b) >> 7 && Half(Raised(b) >> 7) == Wide(b)
  {
  }

  lemma EvenHalf(x: bv16, half: bv16, n: nat)
    requires n > 0 && !Low(x) && Half(x) == half
    ensures OddIn(Low, Half, x, n) == OddIn(Low, Half, half, n - 1)
  {
  }

  lemma RaisedParity(n: nat, b: Byte)
    requires n >= 16
    ensures OddIn(Low, Half, Raised(b), n) == Odd8(b)
  {
    RaisedDown(b);
    RaisedHalves(b);
    EvenHalf(Raised(b), Raised(b) >> 1, n);
    EvenHalf(Raised(b) >> 1, Raised(b) >> 2, n - 1);
    EvenHalf(Raised(b) >> 2, Raised(b) >> 3, n - 2);
    EvenHalf(Raised(b) >> 3, Raised(b) >> 4, n - 3);
    EvenHalf(Raised(b) >> 4, Raised(b) >> 5, n - 4);
    EvenHalf(Raised(b) >> 5, Raised(b) >> 6, n - 5);
    EvenHalf(Raised(b) >> 6, Raised(b) >> 7, n - 6);
    EvenHalf(Raised(b) >> 7, Wide(b), n - 7);
    ByteParity(n - 8, b);
  }

  lemma MixIsSum(s: bv16, b: Byte)
    ensures LowMix(s, b) == Plus(s, Wide(b)) && HighMix(s, b) == Plus(s, Raised(b))
  {
  }

  lemma LowMixAdds(n: nat, s: bv16, b: Byte)
    requires n >= 16
    ensures OddIn(Low, Half, LowMix(s, b), n) == Xor(OddIn(Low, Half, s, n), Odd8(b))
  {
    MixIsSum(s, b);
    SumParity(n, s, Wide(b));
    ByteParity(n, b);
  }

  lemma HighMixAdds(n: nat, s: bv16, b: Byte)
    requires n >= 16
    ensures OddIn(Low, Half, HighMix(s, b), n) == Xor(OddIn(Low, Half, s, n), Odd8(b))
  {
    MixIsSum(s, b);
    SumParity(n, s, Raised(b));
    RaisedParity(n, b);
  }

  lemma MixAdds(k: Kind, n: nat, s: bv16, b: Byte)
    requires n >= 16
    ensures OddIn(Low, Half, CodeOf(k).mix(s, b), n) == Xor(OddIn(Low, Half, s, n), Odd8(b))
  {
    match k
    case Adast => LowMixAdds(n, s, b);
    case Unipump => LowMixAdds(n, s, b);
    case Shelf => HighMixAdds(n, s, b);
  }

  function Joined(low: Byte, high: Byte): bv16 { Plus(Wide(low), Raised(high)) }

  lemma Rejoined(s: bv16)
    ensures Joined(LowByte(s), HighByte(s)) == s
  {
  }

  lemma JoinedParity(n: nat, low: Byte, high: Byte)
    requires n >= 16
    ensures OddIn(Low, Half, Joined(low, high), n) == Xor(Odd8(low), Odd8(high))
  {
    SumParity(n, Wide(low), Raised(high));
    ByteParity(n, low);
    RaisedParity(n, high);
  }

  // ----- bit steps

  lemma Constants(n: nat)
    requires n >= 16
    ensures OddIn(Low, Half, 0x8408, n) && OddIn(Low, Half, 0xa001, n) && OddIn(Low, Half, 0x1021, n)
    ensures OddIn(Low, Half, 0x8000, n) && !OddIn(Low, Half, 0, n)
  {
    JoinedParity(n, 0x08, 0x84);
    JoinedParity(n, 0x01, 0xa0);
    JoinedParity(n, 0x21, 0x10);
    JoinedParity(n, 0x00, 0x80);
    JoinedParity(n, 0x00, 0x00);
    ConstantBytes();
    ConstantWords();
  }

  lemma ConstantWords()
    ensures Joined(0x08, 0x84) == 0x8408 && Joined(0x01, 0xa0) == 0xa001 && Joined(0x21, 0x10) == 0x1021
    ensures Joined(0x00, 0x80) == 0x8000 && Joined(0x00, 0x00) == 0
  {
  }

  lemma ConstantBytes()
    ensures Odd8(0x08) && !Odd8(0x84) && Odd8(0x01) && !Odd8(0xa0) && !Odd8(0x21) && Odd8(0x10)
    ensures Odd8(0x80) && !Odd8(0)
  {
  }

  function RightStep(polynomial: bv16, x: bv16): bv16 {
    if x & 1 != 0 then (x >> 1) ^ polynomial else x >> 1
  }

  lemma LowTest(x: bv16)
    ensures Low(x) <==> x & 1 != 0
  {
  }

  lemma RightOdd(polynomial: bv16, x: bv16)
    requires x & 1 != 0
    ensures RightStep(polynomial, x) == Plus(Half(x), polynomial)
  {
  }

  lemma RightEven(polynomial: bv16, x: bv16)
    requires x & 1 == 0
    ensures RightStep(polynomial, x) == Half(x)
  {
  }

  /** Dropping the low bit and adding an odd constant for it. */
  lemma RightStepKeeps(n: nat, polynomial: bv16, x: bv16)
    requires n >= 16 && OddIn(Low, Half, polynomial, n)
    ensures OddIn(Low, Half, RightStep(polynomial, x), n) == OddIn(Low, Half, x, n)
  {
    HalfDown(x);
    Tail(Half(x), 15, n);
    Tail(Half(x), 15, n - 1);
    LowTest(x);
    if x & 1 != 0 {
      RightOdd(polynomial, x);
      SumParity(n, Half(x), polynomial);
    } else {
      RightEven(polynomial, x);
    }
  }

  function Top(x: bv16): bv16 { x & 0x8000 }

  function Rest(x: bv16): bv16 { x & 0x7fff }

  function Double(x: bv16): bv16 { x << 1 }

  function LeftStep(polynomial: bv16, x: bv16): bv16 {
    if x & 0x8000 != 0 then (x << 1) ^ polynomial else x << 1
  }

  lemma LeftTop(polynomial: bv16, x: bv16)
    requires x & 0x8000 != 0
    ensures LeftStep(polynomial, x) == Plus(Double(x), polynomial) && Top(x) == 0x8000
  {
  }

  lemma LeftRest(polynomial: bv16, x: bv16)
    requires x & 0x8000 == 0
    ensures LeftStep(polynomial, x) == Double(x) && Top(x) == 0
  {
  }

  lemma DoubleHalves(x: bv16)
    ensures !Low(Double(x)) && Half(Double(x)) == Rest(x)
  {
  }

  lemma RestAndTop(x: bv16)
    ensures Plus(Rest(x), Top(x)) == x
  {
  }

  lemma DoubleParity(n: nat, x: bv16)
    requires n >= 16
    ensures OddIn(Low, Half, Double(x), n) == OddIn(Low, Half, Rest(x), n)
  {
    DoubleHalves(x);
    RestDown(x);
    Tail(Rest(x), 15, n);
    Tail(Rest(x), 15, n - 1);
  }

  lemma RestTopParity(n: nat, x: bv16)
    ensures OddIn(Low, Half, x, n) == (OddIn(Low, Half, Rest(x), n) != OddIn(Low, Half, Top(x), n))
  {
    RestAndTop(x);
    SumParity(n, Rest(x), Top(x));
  }

  lemma LeftTopKeeps(n: nat, polynomial: bv16, x: bv16)
    requires n >= 16 && OddIn(Low, Half, polynomial, n) && x & 0x8000 != 0
    ensures OddIn(Low, Half, LeftStep(polynomial, x), n) == (OddIn(Low, Half, Rest(x), n) != OddIn(Low, Half, Top(x), n))
  {
    LeftTop(polynomial, x);
    SumParity(n, Double(x), polynomial);
    DoubleParity(n, x);
    Constants(n);
  }

  lemma LeftRestKeeps(n: nat, polynomial: bv16, x: bv16)
    requires n >= 16 && x & 0x8000 == 0
    ensures OddIn(Low, Half, LeftStep(polynomial, x), n) == (OddIn(Low, Half, Rest(x), n) != OddIn(Low, Half, Top(x), n))
  {
    LeftRest(polynomial, x);
    DoubleParity(n, x);
    Constants(n);
  }

  lemma LeftStepKeeps(n: nat, polynomial: bv16, x: bv16)
    requires n >= 16 && OddIn(Low, Half, polynomial, n)
    ensures OddIn(Low, Half, LeftStep(polynomial, x), n) == OddIn(Low, Half, x, n)
  {
    RestTopParity(n, x);
    if x & 0x8000 != 0 {
      LeftTopKeeps(n, polynomial, x);
    } else {
      LeftRestKeeps(n, polynomial, x);
    }
  }

  lemma StepOfAdast(x: bv16)
    ensures AdastBit(x) == RightStep(0x8408, x)
  {
  }

  lemma StepOfUnipump(x: bv16)
    ensures UnipumpBit(x) == RightStep(0xa001, x)
  {
  }

  lemma StepOfShelf(x: bv16)
    ensures ShelfBit(x) == LeftStep(0x1021, x)
  {
  }

  lemma BitKeeps(k: Kind, n: nat, x: bv16)
    requires n >= 16
    ensures OddIn(Low, Half, CodeOf(k).bit(x), n) == OddIn(Low, Half, x, n)
  {
    Constants(n);
    match k
    case Adast =>
      StepOfAdast(x);
      RightStepKeeps(n, 0x8408, x);
    case Unipump =>
      StepOfUnipump(x);
      RightStepKeeps(n, 0xa001, x);
    case Shelf =>
      StepOfShelf(x);
      LeftStepKeeps(n, 0x1021, x);
  }

  lemma BitsMeasured(k: Kind, n: nat)
    requires n >= 16
    ensures KeptByBits(CodeOf(k), OddOf(n))
  {
    forall x ensures OddIn(Low, Half, CodeOf(k).bit(x), n) == OddIn(Low, Half, x, n) { BitKeeps(k, n, x); }
  }

  lemma MixesMeasured(k: Kind, n: nat)
    requires n >= 16
    ensures AddedByMixing(CodeOf(k), Xor, OddOf(n), Odd8)
  {
    forall s, b ensures OddIn(Low, Half, CodeOf(k).mix(s, b), n) == Xor(OddIn(Low, Half, s, n), Odd8(b)) { MixAdds(k, n, s, b); }
  }

  lemma HalvesMeasured(k: Kind, n: nat)
    requires n >= 16
    ensures MadeOfHalves(CodeOf(k), Xor, OddOf(n), Odd8, Joined)
  {
    forall a, b ensures OddIn(Low, Half, Joined(a, b), n) == Xor(Odd8(a), Odd8(b)) { JoinedParity(n, a, b); }
    forall s ensures Joined(CodeOf(k).low(s), CodeOf(k).high(s)) == s { Rejoined(s); }
  }

  lemma ZeroMeasured(k: Kind, n: nat)
    ensures CodeOf(k).zero == 0 && !OddOf(n)(0)
  {
    Zero();
    OddInZero(Low, Half, 0, n);
  }

  lemma AllMeasured(c: Code<bv16, Byte>, par: bv16 -> bool)
    requires KeptByBits(c, par) && AddedByMixing(c, Xor, par, Odd8) && MadeOfHalves(c, Xor, par, Odd8, Joined) && !par(c.zero)
    ensures Measured(c, Xor, false, par, Odd8, Joined)
  {
  }

  lemma CrcMeasured(k: Kind, n: nat)
    requires n >= 16
    ensures Measured(CodeOf(k), Xor, false, OddOf(n), Odd8, Joined)
  {
    BitsMeasured(k, n);
    MixesMeasured(k, n);
    HalvesMeasured(k, n);
    ZeroMeasured(k, n);
    AllMeasured(CodeOf(k), OddOf(n));
  }

  lemma CrcHasParity(k: Kind)
    ensures HasParity(CodeOf(k), Odd8)
  {
    CrcMeasured(k, 16);
  }

  // ----- frames

  lemma EvenTotal(bytes: seq<Byte>)
    requires !Total(Xor, false, Odd8, bytes)
    ensures Weight(bytes) % 2 == 0
  {
    WeightParity(bytes);
  }

  lemma EvenWeight<W(!new)>(c: Code<W, Byte>, l: Layout, frame: seq<Byte>)
    requires HasParity(c, Odd8) && |frame| >= l.head + l.trailer + 2 && Accepts(c, l, frame)
    ensures Weight(frame[l.head..|frame| - l.trailer]) % 2 == 0
  {
    EvenBetween(c, Odd8, l, frame);
    EvenTotal(frame[l.head..|frame| - l.trailer]);
  }

  /** The part of an accepted frame between header and trailer has an even number of ones. */
  lemma AcceptedIsEven(k: Kind, frame: seq<Byte>)
    requires |frame| >= LayoutOf(k).head + LayoutOf(k).trailer + 2 && Accepted(k, frame)
    ensures Weight(frame[LayoutOf(k).head..|frame| - LayoutOf(k).trailer]) % 2 == 0
  {
    CrcHasParity(k);
    EvenWeight(CodeOf(k), LayoutOf(k), frame);
  }

  /** Damage that flips an odd number of bits between header and trailer, wherever they are,
      is rejected by all three receivers at every frame length. */
  lemma OddDamageRejected(k: Kind, frame: seq<Byte>, pattern: seq<Byte>)
    requires |frame| == |pattern| >= LayoutOf(k).head + LayoutOf(k).trailer + 2 && Accepted(k, frame)
    requires Weight(pattern[LayoutOf(k).head..|pattern| - LayoutOf(k).trailer]) % 2 == 1
    ensures !Accepted(k, Flip(frame, pattern))
  {
    DamagePasses(k, frame, pattern);
    if Accepted(k, pattern) {
      AcceptedIsEven(k, pattern);
    }
  }
}
