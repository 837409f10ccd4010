/** Up to three flipped bits are found by all three receivers. */
module FewBits {
  import opened Bursts
  import opened Bytes
  import opened Crc
  import opened Distance
  import opened Frames
  import opened LinearCode
  import opened Parity
  import opened Period
  import opened SerialCode

  // ----- counting the bits of a stream

  function Trues(u: seq<bool>): nat {
    if u == [] then 0 else Trues(u[..|u| - 1]) + (if u[|u| - 1] then 1 else 0)
  }

  lemma {:induction false} TruesConcat(u: seq<bool>, v: seq<bool>)
    ensures Trues(u + v) == Trues(u) + Trues(v)
  {
    if v == [] {
      assert u + v == u;
    } else {
      assert (u + v)[..|u + v| - 1] == u + v[..|v| - 1];
      TruesConcat(u, v[..|v| - 1]);
    }
  }

  lemma {:induction false} NoTrues(u: seq<bool>)
    requires Trues(u) == 0
    ensures u == Zeros(|u|)
  {
    if u != [] {
      NoTrues(u[..|u| - 1]);
      assert u == u[..|u| - 1] + [u[|u| - 1]];
    }
  }

  lemma {:induction false} FirstTrue(u: seq<bool>) returns (before: nat, rest: seq<bool>)
    requires Trues(u) > 0
    ensures u == Zeros(before) + ([true] + rest) && Trues(rest) == Trues(u) - 1
  {
    var n := |u| - 1;
    assert u == u[..n] + [u[n]];
    if Trues(u[..n]) > 0 {
      before, rest := FirstTrue(u[..n]);
      TruesConcat(rest, [u[n]]);
      rest := rest + [u[n]];
    } else {
      NoTrues(u[..n]);
      before, rest := n, [];
    }
  }

  lemma OneTrue(u: seq<bool>) returns (before: nat, after: nat)
    requires Trues(u) == 1
    ensures u == Zeros(before) + ([true] + Zeros(after))
  {
    var rest;
    before, rest := FirstTrue(u);
    NoTrues(rest);
    after := |rest|;
  }

  lemma TwoTrues(u: seq<bool>) returns (before: nat, gap: nat, after: nat)
    requires Trues(u) == 2
    ensures u == Zeros(before) + (Pair(gap) + Zeros(after))
  {
    var rest;
    before, rest := FirstTrue(u);
    gap, after := OneTrue(rest);
  }

  // ----- the bits of a byte

  lemma {:induction false} RightOnes(b: Byte, n: nat)
    requires Down(Half, Wide(b), n) == 0
    ensures Trues(Bits(RIGHT, Wide(b), n)) == Ones(b)
    decreases n
  {
    WideHalves(b);
    if n == 0 {
      WideZero(b);
    } else {
      RightOnes(b >> 1, n - 1);
      TruesConcat([Low(Wide(b))], Bits(RIGHT, Wide(b >> 1), n - 1));
    }
  }

  lemma Flags(b: Byte)
    ensures b == FromLow(b & 0x01 != 0, b & 0x02 != 0, b & 0x04 != 0, b & 0x08 != 0,
                         b & 0x10 != 0, b & 0x20 != 0, b & 0x40 != 0, b & 0x80 != 0)
  {
  }

  lemma BothWays(x0: bool, x1: bool, x2: bool, x3: bool, x4: bool, x5: bool, x6: bool, x7: bool)
    ensures var b := FromLow(x0, x1, x2, x3, x4, x5, x6, x7);
            && BitsOf(RIGHT, b) == [x0, x1, x2, x3, x4, x5, x6, x7]
            && BitsOf(LEFT, b) == [x7, x6, x5, x4, x3, x2, x1, x0]
  {
    LowFirstBits([x0, x1, x2, x3, x4, x5, x6, x7]);
    HighFirstBits([x7, x6, x5, x4, x3, x2, x1, x0]);
  }

  function One(x: bool): nat { if x then 1 else 0 }

  lemma TruesOfOne(x: bool)
    ensures Trues([x]) == One(x)
  {
  }

  lemma TruesOfParts(u: seq<bool>, v: seq<bool>, w: seq<bool>)
    requires w == u + v
    ensures Trues(w) == Trues(u) + Trues(v)
  {
    TruesConcat(u, v);
  }

  lemma TruesOfTwo(x: bool, y: bool)
    ensures Trues([x, y]) == One(x) + One(y)
  {
    TruesOfOne(x);
    TruesOfOne(y);
    TruesOfParts([x], [y], [x, y]);
  }

  lemma TruesOfFour(x0: bool, x1: bool, x2: bool, x3: bool)
    ensures Trues([x0, x1, x2, x3]) == (One(x0) + One(x1)) + (One(x2) + One(x3))
  {
    TruesOfTwo(x0, x1);
    TruesOfTwo(x2, x3);
    TruesOfParts([x0, x1], [x2, x3], [x0, x1, x2, x3]);
  }

  lemma TruesOfEight(x0: bool, x1: bool, x2: bool, x3: bool, x4: bool, x5: bool, x6: bool, x7: bool)
    ensures Trues([x0, x1, x2, x3, x4, x5, x6, x7])
         == ((One(x0) + One(x1)) + (One(x2) + One(x3))) + ((One(x4) + One(x5)) + (One(x6) + One(x7)))
  {
    TruesOfFour(x0, x1, x2, x3);
    TruesOfFour(x4, x5, x6, x7);
    TruesOfParts([x0, x1, x2, x3], [x4, x5, x6, x7], [x0, x1, x2, x3, x4, x5, x6, x7]);
  }

  lemma SameTrues(x0: bool, x1: bool, x2: bool, x3: bool, x4: bool, x5: bool, x6: bool, x7: bool)
    ensures var b := FromLow(x0, x1, x2, x3, x4, x5, x6, x7); Trues(BitsOf(LEFT, b)) == Trues(BitsOf(RIGHT, b))
  {
    BothWays(x0, x1, x2, x3, x4, x5, x6, x7);
    TruesOfEight(x0, x1, x2, x3, x4, x5, x6, x7);
    TruesOfEight(x7, x6, x5, x4, x3, x2, x1, x0);
  }

  lemma ByteTrues(k: Kind, b: Byte)
    ensures Trues(BitsOf(WireOf(k), b)) == Ones(b)
  {
    WideDown(b);
    RightOnes(b, BITS);
    if k.Shelf? {
      Flags(b);
      SameTrues(b & 0x01 != 0, b & 0x02 != 0, b & 0x04 != 0, b & 0x08 != 0,
                b & 0x10 != 0, b & 0x20 != 0, b & 0x40 != 0, b & 0x80 != 0);
    }
  }

  lemma {:induction false} StreamLength(k: Kind, d: seq<Byte>)
    ensures |Stream(WireOf(k), d)| == 8 * |d|
  {
    if d != [] {
      StreamLength(k, d[..|d| - 1]);
    }
  }

  lemma {:induction false} StreamTrues(k: Kind, d: seq<Byte>)
    ensures Trues(Stream(WireOf(k), d)) == Weight(d)
  {
    if d != [] {
      var n := |d| - 1;
      StreamTrues(k, d[..n]);
      ByteTrues(k, d[n]);
      TruesConcat(Stream(WireOf(k), d[..n]), BitsOf(WireOf(k), d[n]));
    }
  }

  // ----- registers with a single bit

  predicate SingleByte(b: Byte) { b != 0 && b & (b - 1) == 0 }

  predicate Single(s: bv16) { s != 0 && s & (s - 1) == 0 }

  lemma {:induction false} NoOnes(b: Byte)
    ensures Ones(b) == 0 <==> b == 0
    decreases b
  {
    if b != 0 {
      NoOnes(b >> 1);
      NotOut(b);
    }
  }

  lemma NotOut(b: Byte)
    ensures b & 1 == 0 && b >> 1 == 0 ==> b == 0
    ensures b & 1 == 1 && b >> 1 == 0 ==> b == 1
  {
  }

  lemma SingleHalf(b: Byte)
    requires b & 1 == 0 && SingleByte(b >> 1)
    ensures SingleByte(b)
  {
  }

  lemma {:induction false} OneOne(b: Byte)
    requires Ones(b) == 1
    ensures SingleByte(b)
    decreases b
  {
    if b & 1 == 1 {
      NoOnes(b >> 1);
      NotOut(b);
    } else {
      OneOne(b >> 1);
      SingleHalf(b);
    }
  }

  lemma SingleHalves(s: bv16)
    ensures HighByte(s) == 0 && SingleByte(LowByte(s)) ==> Single(s)
    ensures LowByte(s) == 0 && SingleByte(HighByte(s)) ==> Single(s)
  {
  }

  lemma SingleRegister(s: bv16)
    requires Ones(LowByte(s)) + Ones(HighByte(s)) == 1
    ensures Single(s)
  {
    SingleHalves(s);
    if Ones(LowByte(s)) == 1 {
      OneOne(LowByte(s));
      NoOnes(HighByte(s));
    } else {
      OneOne(HighByte(s));
      NoOnes(LowByte(s));
    }
  }

  lemma SingleRight(s: bv16)
    requires Single(s) && s != 1
    ensures AdastBit(s) == Half(s) && UnipumpBit(s) == Half(s) && Single(s >> 1)
  {
  }

  lemma SingleLeft(s: bv16)
    requires Single(s) && s != 0x8000
    ensures ShelfBit(s) == Double(s) && Single(s << 1)
  {
  }

  lemma SingleStep(k: Kind, s: bv16)
    requires Single(s) && s != WireOf(k).one
    ensures CodeOf(k).bit(s) == WireOf(k).rest(s) && Single(WireOf(k).rest(s))
  {
    if k.Shelf? {
      SingleLeft(s);
    } else {
      SingleRight(s);
    }
  }

  /** A single bit moves along until it is where bits come in. */
  lemma {:induction false} ReachesOne(k: Kind, s: bv16, n: nat) returns (m: nat)
    requires Single(s) && Down(WireOf(k).rest, s, n) == 0
    ensures m < n && Iterate(CodeOf(k).bit, s, m) == WireOf(k).one
    decreases n
  {
    if s == WireOf(k).one {
      m := 0;
    } else {
      SingleStep(k, s);
      m := ReachesOne(k, WireOf(k).rest(s), n - 1);
      IterateInside(CodeOf(k).bit, s, m);
      m := m + 1;
    }
  }

  lemma ShiftsOut(x: bv16)
    ensures (x << 8) << 8 == 0
  {
  }

  lemma RestRunsOut(k: Kind, x: bv16)
    ensures Down(WireOf(k).rest, x, 8 + 8) == 0
  {
    if k.Shelf? {
      DownSplit(Double, x, 8, 8);
      DoubleEight(x);
      DoubleEight(x << 8);
      ShiftsOut(x);
    } else {
      AllDown(x);
    }
  }

  // ----- three bits at most

  /** No single bit leaves a single bit behind, within so many turns. */
  lemma LoneNotSingle(k: Kind, after: nat)
    requires after < 32750
    ensures var s := Iterate(CodeOf(k).bit, CodeOf(k).bit(WireOf(k).one), after); Ones(LowByte(s)) + Ones(HighByte(s)) != 1
  {
    var f, one := CodeOf(k).bit, WireOf(k).one;
    var s := Iterate(f, f(one), after);
    if Ones(LowByte(s)) + Ones(HighByte(s)) == 1 {
      SingleRegister(s);
      RestRunsOut(k, s);
      var m := ReachesOne(k, s, 8 + 8);
      IterateInside(f, one, after);
      IterateSum(f, one, after + 1, m);
      OneReturns(k, after + 1 + m);
    }
  }

  lemma CrcLoneBit(k: Kind, d: seq<Byte>, before: nat, after: nat)
    requires Alone(WireOf(k), d, before, [true], after)
    ensures Check(CodeOf(k), 0, d) == Iterate(CodeOf(k).bit, CodeOf(k).bit(WireOf(k).one), after)
  {
    CrcSerial(k);
    BitsFaithful(k);
    PlusOne(k);
    LoneBit(CodeOf(k), WireOf(k), d, before, after);
  }

  lemma CrcNoBits(k: Kind, d: seq<Byte>, n: nat)
    requires Stream(WireOf(k), d) == Zeros(n)
    ensures Check(CodeOf(k), 0, d) == 0
  {
    CrcSerial(k);
    BitsFaithful(k);
    NoBits(CodeOf(k), WireOf(k), d, n);
  }

  lemma ZeroHalves()
    ensures Ones(LowByte(0)) == 0 && Ones(HighByte(0)) == 0
  {
  }

  /** The bits of a string and those of its own checksum are never two together. */
  lemma NeverTwo(k: Kind, d: seq<Byte>)
    requires |d| <= 4093
    ensures var sum := Check(CodeOf(k), 0, d); Weight(d) + Ones(LowByte(sum)) + Ones(HighByte(sum)) != 2
  {
    var sum, u := Check(CodeOf(k), 0, d), Stream(WireOf(k), d);
    StreamTrues(k, d);
    StreamLength(k, d);
    if Weight(d) == 0 {
      NoTrues(u);
      CrcNoBits(k, d, |u|);
      ZeroHalves();
    } else if Weight(d) == 1 {
      var before, after := OneTrue(u);
      CrcLoneBit(k, d, before, after);
      LoneNotSingle(k, after);
    } else if Weight(d) == 2 {
      var before, gap, after := TwoTrues(u);
      CrcPairNonzero(k, d, before, gap, after);
      HalvesFacts(sum);
      NoOnes(LowByte(sum));
      NoOnes(HighByte(sum));
    }
  }

  lemma WeightSnoc(d: seq<Byte>, a: Byte, b: Byte)
    ensures Weight(d + [a] + [b]) == Weight(d) + Ones(a) + Ones(b)
  {
    assert (d + [a] + [b])[..|d| + 1] == d + [a] && (d + [a])[..|d|] == d;
  }

  /** No accepted frame has just two bits set between header and trailer. */
  lemma AcceptedNotTwo(k: Kind, frame: seq<Byte>)
    requires |frame| >= LayoutOf(k).head + LayoutOf(k).trailer + 2 && Accepted(k, frame)
    requires |frame| - LayoutOf(k).head - LayoutOf(k).trailer <= 4095
    ensures Weight(frame[LayoutOf(k).head..|frame| - LayoutOf(k).trailer]) != 2
  {
    var l := LayoutOf(k);
    var at, d := l.CheckAt(|frame|), Covered(l, frame);
    Between(l, frame);
    WeightSnoc(d, frame[at], frame[at + 1]);
    NeverTwo(k, d);
  }

  /** Up to three flipped bits between header and trailer of an accepted frame, checksum included,
      never make another accepted frame: the codes have distance four up to 4095 bytes. */
  lemma FewBitsRejected(k: Kind, frame: seq<Byte>, pattern: seq<Byte>)
    requires |frame| == |pattern| >= LayoutOf(k).head + LayoutOf(k).trailer + 2 && Accepted(k, frame)
    requires |pattern| - LayoutOf(k).head - LayoutOf(k).trailer <= 4095
    requires 1 <= Weight(pattern[LayoutOf(k).head..|pattern| - LayoutOf(k).trailer]) <= 3
    ensures !Accepted(k, Flip(frame, pattern))
  {
    if Weight(pattern[LayoutOf(k).head..|pattern| - LayoutOf(k).trailer]) == 2 {
      DamagePasses(k, frame, pattern);
      if Accepted(k, pattern) {
        AcceptedNotTwo(k, pattern);
      }
    } else {
      OddDamageRejected(k, frame, pattern);
    }
  }

  /** Whatever a builder sends. */
  lemma FewBitsFound(k: Kind, covered: seq<Octet>, pattern: seq<Byte>)
    requires |pattern| == |Frame(k, covered)| && |covered| <= 4093
    requires 1 <= Weight(pattern[LayoutOf(k).head..|pattern| - LayoutOf(k).trailer]) <= 3
    ensures !Passes(k, Damaged(Frame(k, covered), pattern))
  {
    var f := Frame(k, covered);
    FramePasses(k, covered);
    PassesIsAccepted(k, f);
    FewBitsRejected(k, AsBytes(f), pattern);
    PassesIsAccepted(k, Damaged(f, pattern));
    BytesOfOctets(Flip(AsBytes(f), pattern));
  }
}
