/** Bursts of damage within sixteen bits in a row are found. Adast and Unipump take the bits of
    a byte in lowest first, Shelf highest first. */
module Bursts {
  import opened Bytes
  import opened Crc
  import opened LinearCode
  import opened Parity
  import opened SerialCode

  function TopSet(x: bv16): bool { x & 0x8000 != 0 }

  function Flag(x: bool, value: Byte): Byte { if x then value else 0 }

  /** Eight flags in a byte, the first one lowest. */
  function FromLow(x0: bool, x1: bool, x2: bool, x3: bool, x4: bool, x5: bool, x6: bool, x7: bool): Byte {
    (Flag(x0, 0x01) | Flag(x1, 0x02) | Flag(x2, 0x04) | Flag(x3, 0x08))
    | (Flag(x4, 0x10) | Flag(x5, 0x20) | Flag(x6, 0x40) | Flag(x7, 0x80))
  }

  function LowFirst(u: seq<bool>): Byte {
    if |u| != BITS then 0 else FromLow(u[0], u[1], u[2], u[3], u[4], u[5], u[6], u[7])
  }

  function HighFirst(u: seq<bool>): Byte {
    if |u| != BITS then 0 else FromLow(u[7], u[6], u[5], u[4], u[3], u[2], u[1], u[0])
  }

  const RIGHT: Wire<bv16, Byte> := Wire(Plus, 0x0001, Low, Half, Wide, LowFirst)

  const LEFT: Wire<bv16, Byte> := Wire(Plus, 0x8000, TopSet, Double, Raised, HighFirst)

  function WireOf(k: Kind): Wire<bv16, Byte> { if k.Shelf? then LEFT else RIGHT }

  // ----- one step

  lemma AdastStep(r: bv16)
    ensures AdastBit(r) == if Low(r) then Plus(AdastBit(1), Half(r)) else Half(r)
  {
  }

  lemma UnipumpStep(r: bv16)
    ensures UnipumpBit(r) == if Low(r) then Plus(UnipumpBit(1), Half(r)) else Half(r)
  {
  }

  lemma ShelfStep(r: bv16)
    ensures ShelfBit(r) == if TopSet(r) then Plus(ShelfBit(0x8000), Double(r)) else Double(r)
  {
  }

  lemma Associative(x: bv16, y: bv16, z: bv16)
    ensures Plus(Plus(x, y), z) == Plus(x, Plus(y, z))
  {
  }

  lemma FrontOut(k: Kind, r: bv16)
    ensures var c, w := CodeOf(k), WireOf(k);
            c.bit(r) == if w.front(r) then w.plus(c.bit(w.one), w.rest(r)) else w.rest(r)
  {
    match k
    case Adast => AdastStep(r);
    case Unipump => UnipumpStep(r);
    case Shelf => ShelfStep(r);
  }

  lemma BitOfSum(k: Kind, x: bv16, y: bv16)
    ensures var c, w := CodeOf(k), WireOf(k); c.bit(w.plus(x, y)) == w.plus(c.bit(x), c.bit(y))
  {
    BitAdditive(k);
  }

  lemma Regrouped(k: Kind, x: bv16, y: bv16, z: bv16)
    ensures var w := WireOf(k); w.plus(w.plus(x, y), z) == w.plus(x, w.plus(y, z))
  {
    if k.Shelf? {
      Associative(x, y, z);
    } else {
      Associative(x, y, z);
    }
  }

  lemma CrcStepped(k: Kind, s: bv16, r: bv16)
    ensures Stepped(CodeOf(k), WireOf(k), s, r)
  {
    var c, w := CodeOf(k), WireOf(k);
    BitOfSum(k, s, r);
    BitOfSum(k, s, w.one);
    FrontOut(k, r);
    Regrouped(k, c.bit(s), c.bit(w.one), w.rest(r));
  }

  lemma CrcFeeds(k: Kind)
    ensures Feeds(CodeOf(k), WireOf(k))
  {
    var c, w := CodeOf(k), WireOf(k);
    forall s, r ensures c.bit(w.plus(s, r)) == w.plus(Step(c, w, s, w.front(r)), w.rest(r)) {
      CrcStepped(k, s, r);
      StepOfSum(c, w, s, r);
    }
  }

  // ----- bytes as bits

  lemma LowFlags(x0: bool, x1: bool, x2: bool, x3: bool, x4: bool, x5: bool, x6: bool, x7: bool)
    ensures var b := FromLow(x0, x1, x2, x3, x4, x5, x6, x7);
            && Low(Wide(b)) == x0 && Low(Wide(b >> 1)) == x1 && Low(Wide(b >> 2)) == x2 && Low(Wide(b >> 3)) == x3
            && Low(Wide(b >> 4)) == x4 && Low(Wide(b >> 5)) == x5 && Low(Wide(b >> 6)) == x6 && Low(Wide(b >> 7)) == x7
  {
  }

  lemma HighFlags(x0: bool, x1: bool, x2: bool, x3: bool, x4: bool, x5: bool, x6: bool, x7: bool)
    ensures var b := FromLow(x7, x6, x5, x4, x3, x2, x1, x0);
            && TopSet(Raised(b)) == x0 && TopSet(Raised(b << 1)) == x1 && TopSet(Raised(b << 2)) == x2
            && TopSet(Raised(b << 3)) == x3 && TopSet(Raised(b << 4)) == x4 && TopSet(Raised(b << 5)) == x5
            && TopSet(Raised(b << 6)) == x6 && TopSet(Raised(b << 7)) == x7
  {
  }

  lemma WideChain(b: Byte)
    ensures Half(Wide(b)) == Wide(b >> 1) && Half(Wide(b >> 1)) == Wide(b >> 2) && Half(Wide(b >> 2)) == Wide(b >> 3)
    ensures Half(Wide(b >> 3)) == Wide(b >> 4) && Half(Wide(b >> 4)) == Wide(b >> 5) && Half(Wide(b >> 5)) == Wide(b >> 6)
    ensures Half(Wide(b >> 6)) == Wide(b >> 7)
  {
  }

  lemma RaisedChain(b: Byte)
    ensures Double(Raised(b)) == Raised(b << 1) && Double(Raised(b << 1)) == Raised(b << 2)
    ensures Double(Raised(b << 2)) == Raised(b << 3) && Double(Raised(b << 3)) == Raised(b << 4)
    ensures Double(Raised(b << 4)) == Raised(b << 5) && Double(Raised(b << 5)) == Raised(b << 6)
    ensures Double(Raised(b << 6)) == Raised(b << 7)
  {
  }

  lemma RightBits(b: Byte, u: seq<bool>)
    requires |u| == BITS
    requires Low(Wide(b)) == u[0] && Low(Wide(b >> 1)) == u[1] && Low(Wide(b >> 2)) == u[2] && Low(Wide(b >> 3)) == u[3]
    requires Low(Wide(b >> 4)) == u[4] && Low(Wide(b >> 5)) == u[5] && Low(Wide(b >> 6)) == u[6] && Low(Wide(b >> 7)) == u[7]
    ensures BitsOf(RIGHT, b) == u
  {
    WideChain(b);
    BitsOfEight(RIGHT, Wide(b), Wide(b >> 1), Wide(b >> 2), Wide(b >> 3), Wide(b >> 4), Wide(b >> 5), Wide(b >> 6),
                Wide(b >> 7), u);
  }

  lemma LeftBits(b: Byte, u: seq<bool>)
    requires |u| == BITS
    requires TopSet(Raised(b)) == u[0] && TopSet(Raised(b << 1)) == u[1] && TopSet(Raised(b << 2)) == u[2]
    requires TopSet(Raised(b << 3)) == u[3] && TopSet(Raised(b << 4)) == u[4] && TopSet(Raised(b << 5)) == u[5]
    requires TopSet(Raised(b << 6)) == u[6] && TopSet(Raised(b << 7)) == u[7]
    ensures BitsOf(LEFT, b) == u
  {
    RaisedChain(b);
    BitsOfEight(LEFT, Raised(b), Raised(b << 1), Raised(b << 2), Raised(b << 3), Raised(b << 4), Raised(b << 5),
                Raised(b << 6), Raised(b << 7), u);
  }

  lemma LowFirstBits(u: seq<bool>)
    requires |u| == BITS
    ensures BitsOf(RIGHT, LowFirst(u)) == u
  {
    LowFlags(u[0], u[1], u[2], u[3], u[4], u[5], u[6], u[7]);
    RightBits(LowFirst(u), u);
  }

  lemma HighFirstBits(u: seq<bool>)
    requires |u| == BITS
    ensures BitsOf(LEFT, HighFirst(u)) == u
  {
    HighFlags(u[0], u[1], u[2], u[3], u[4], u[5], u[6], u[7]);
    LeftBits(HighFirst(u), u);
  }

  // ----- the three codes take in bits

  lemma CrcZeroed(k: Kind)
    ensures Zeroed(CodeOf(k), WireOf(k))
  {
    forall x ensures Plus(x, 0) == x { PlusZero(x); }
    ZeroWords();
  }

  lemma PlusZero(x: bv16)
    ensures Plus(x, 0) == x && Plus(0, x) == x && Plus(x, x) == 0
  {
  }

  lemma ZeroWords()
    ensures Wide(0) == 0 && !Low(0) && Half(0) == 0 && Raised(0) == 0 && !TopSet(0) && Double(0) == 0
  {
  }

  lemma DoubleEight(x: bv16)
    ensures Down(Double, x, 8) == x << 8
  {
  }

  lemma RaisedOut(b: Byte)
    ensures Raised(b) << 8 == 0
  {
  }

  lemma WordRunsOut(k: Kind, b: Byte)
    ensures Down(WireOf(k).rest, WireOf(k).word(b), BITS) == 0
  {
    if k.Shelf? {
      DoubleEight(Raised(b));
      RaisedOut(b);
    } else {
      WideDown(b);
    }
  }

  lemma MixesWord(k: Kind, s: bv16, b: Byte)
    ensures CodeOf(k).mix(s, b) == WireOf(k).plus(s, WireOf(k).word(b))
  {
    MixIsSum(s, b);
  }

  lemma SymbolBits(k: Kind, u: seq<bool>)
    requires |u| == BITS
    ensures BitsOf(WireOf(k), WireOf(k).symbol(u)) == u
  {
    if k.Shelf? {
      HighFirstBits(u);
    } else {
      LowFirstBits(u);
    }
  }

  lemma CrcMixed(k: Kind)
    ensures Mixed(CodeOf(k), WireOf(k))
  {
    var c, w := CodeOf(k), WireOf(k);
    forall s, b ensures c.mix(s, b) == w.plus(s, w.word(b)) { MixesWord(k, s, b); }
    forall b ensures Down(w.rest, w.word(b), BITS) == c.zero { WordRunsOut(k, b); }
    forall u: seq<bool> | |u| == BITS ensures BitsOf(w, w.symbol(u)) == u { SymbolBits(k, u); }
  }

  lemma CrcSerial(k: Kind)
    ensures Serial(CodeOf(k), WireOf(k))
  {
    CrcZeroed(k);
    CrcFeeds(k);
    CrcMixed(k);
  }

  lemma BurstNotAccepted(k: Kind, pattern: seq<Byte>, before: nat, u: seq<bool>, after: nat)
    requires 0 <= LayoutOf(k).CheckAt(|pattern|)
    requires pattern[LayoutOf(k).CheckAt(|pattern|)] == 0 && pattern[LayoutOf(k).CheckAt(|pattern|) + 1] == 0
    requires Burst(WireOf(k), Covered(LayoutOf(k), pattern), before, u, after)
    ensures !Accepted(k, pattern)
  {
    CrcSerial(k);
    CrcIsFaithful(k);
    CoveredBurstRejected(CodeOf(k), WireOf(k), LayoutOf(k), pattern, before, u, after);
  }

  /** Damage within sixteen bits in a row, wherever they begin in the covered part of an accepted
      frame, is rejected by all three receivers. */
  lemma BurstRejected(k: Kind, frame: seq<Byte>, pattern: seq<Byte>, before: nat, u: seq<bool>, after: nat)
    requires |frame| == |pattern| && 0 <= LayoutOf(k).CheckAt(|frame|) && Accepted(k, frame)
    requires pattern[LayoutOf(k).CheckAt(|pattern|)] == 0 && pattern[LayoutOf(k).CheckAt(|pattern|) + 1] == 0
    requires Burst(WireOf(k), Covered(LayoutOf(k), pattern), before, u, after)
    ensures !Accepted(k, Flip(frame, pattern))
  {
    DamagePasses(k, frame, pattern);
    BurstNotAccepted(k, pattern, before, u, after);
  }

  // ----- bursts that reach the checksum

  lemma AdastShiftsOut(x: bv16)
    ensures AdastEight(x & 0xff00) == x >> 8
  {
  }

  lemma UnipumpShiftsOut(x: bv16)
    ensures UnipumpEight(x & 0xff00) == x >> 8
  {
  }

  lemma HalvesMixed(r: bv16)
    ensures LowMix(r, LowByte(r)) == r & 0xff00 && LowMix(r >> 8, HighByte(r)) == 0
  {
  }

  lemma LowHalfOut(k: Kind, r: bv16)
    requires !k.Shelf?
    ensures Take(CodeOf(k), r, LowByte(r)) == r >> 8
  {
    HalvesMixed(r);
    match k
    case Adast =>
      Eight(AdastBit, r & 0xff00);
      AdastShiftsOut(r);
    case Unipump =>
      Eight(UnipumpBit, r & 0xff00);
      UnipumpShiftsOut(r);
  }

  lemma HalvesOut(k: Kind, r: bv16)
    requires !k.Shelf?
    ensures Take(CodeOf(k), Take(CodeOf(k), r, CodeOf(k).low(r)), CodeOf(k).high(r)) == 0
  {
    LowHalfOut(k, r);
    HalvesMixed(r);
    CrcIsFaithful(k);
    TakeZero(CodeOf(k), r >> 8, HighByte(r));
  }

  lemma SameByte(a: Byte, b: Byte)
    ensures PlusByte(a, b) == 0 ==> b == a
  {
  }

  lemma CrcDifference(k: Kind, r: bv16, a: Byte, b: Byte)
    requires !k.Shelf?
    ensures var c := CodeOf(k);
            Take(c, Take(c, c.zero, PlusByte(c.low(r), a)), PlusByte(c.high(r), b)) == Take(c, Take(c, r, a), b)
  {
    var c := CodeOf(k);
    CrcIsLinear(k);
    PlusCancels();
    HalvesOut(k, r);
    Difference(c, Plus, PlusByte, r, c.low(r), c.high(r), a, b);
  }

  lemma PlusCancels()
    ensures Cancelling(Plus, 0)
  {
    forall x ensures Plus(x, x) == 0 && Plus(0, x) == x { PlusZero(x); }
  }

  lemma CrcHalvesClear(k: Kind, r: bv16, a: Byte, b: Byte)
    requires !k.Shelf?
    ensures var c := CodeOf(k); Take(c, Take(c, r, a), b) == c.zero <==> a == c.low(r) && b == c.high(r)
  {
    var c := CodeOf(k);
    CrcIsFaithful(k);
    HalvesOut(k, r);
    SameByte(c.low(r), a);
    SameByte(c.high(r), b);
    CrcDifference(k, r, a, b);
    OnlyHalvesClear(c, PlusByte, r, a, b);
  }

  lemma CrcSelfChecking(k: Kind)
    requires !k.Shelf?
    ensures SelfChecking(CodeOf(k))
  {
    var c := CodeOf(k);
    forall r, a, b ensures Take(c, Take(c, r, a), b) == c.zero <==> a == c.low(r) && b == c.high(r) {
      CrcHalvesClear(k, r, a, b);
    }
  }

  lemma WholeBurstNotAccepted(k: Kind, pattern: seq<Byte>, before: nat, u: seq<bool>, after: nat)
    requires !k.Shelf? && |pattern| >= LayoutOf(k).head + LayoutOf(k).trailer + 2
    requires Burst(WireOf(k), pattern[LayoutOf(k).head..|pattern| - LayoutOf(k).trailer], before, u, after)
    ensures !Accepted(k, pattern)
  {
    CrcSerial(k);
    CrcIsFaithful(k);
    CrcSelfChecking(k);
    StreamBurstRejected(CodeOf(k), WireOf(k), LayoutOf(k), pattern, before, u, after);
  }

  /** For Adast and Unipump the sixteen bits may reach into the checksum, or lie in it: the whole
      part between header and trailer is protected. Shelf's blind spot is such a burst. */
  lemma WholeBurstRejected(k: Kind, frame: seq<Byte>, pattern: seq<Byte>, before: nat, u: seq<bool>, after: nat)
    requires !k.Shelf? && |frame| == |pattern| >= LayoutOf(k).head + LayoutOf(k).trailer + 2 && Accepted(k, frame)
    requires Burst(WireOf(k), pattern[LayoutOf(k).head..|pattern| - LayoutOf(k).trailer], before, u, after)
    ensures !Accepted(k, Flip(frame, pattern))
  {
    DamagePasses(k, frame, pattern);
    WholeBurstNotAccepted(k, pattern, before, u, after);
  }
}
