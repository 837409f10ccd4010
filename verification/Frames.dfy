/** Checksummed frames of octets: what the builders lay out and the receivers test. */
module Frames {
  import opened Bytes
  import opened Crc
  import opened CrcLoops
  import opened LinearCode

  function HeadOf(k: Kind): seq<Octet> {
    match k
    case Adast => [0x16, 0x16]
    case Unipump => [0x10, 0x02]
    case Shelf => []
  }

  function TrailerOf(k: Kind): seq<Octet> {
    match k
    case Adast => [0xff]
    case Unipump => [0x10, 0x03]
    case Shelf => []
  }

  function LowCheck(k: Kind, covered: seq<Octet>): Octet { LowByte(Crc16(k, AsBytes(covered))) as int }

  function HighCheck(k: Kind, covered: seq<Octet>): Octet { HighByte(Crc16(k, AsBytes(covered))) as int }

  function Frame(k: Kind, covered: seq<Octet>): seq<Octet> {
    Assemble(HeadOf(k), covered, LowCheck(k, covered), HighCheck(k, covered), TrailerOf(k))
  }

  /** The bytes on the line. */
  lemma FrameSpelled(covered: seq<Octet>)
    ensures Frame(Adast, covered) == [0x16, 0x16] + covered + [LowCheck(Adast, covered), HighCheck(Adast, covered), 0xff]
    ensures Frame(Unipump, covered)
         == [0x10, 0x02] + covered + [LowCheck(Unipump, covered), HighCheck(Unipump, covered), 0x10, 0x03]
    ensures Frame(Shelf, covered) == covered + [LowCheck(Shelf, covered), HighCheck(Shelf, covered)]
  {
    Spelled(covered, LowCheck(Adast, covered), HighCheck(Adast, covered));
    Spelled(covered, LowCheck(Unipump, covered), HighCheck(Unipump, covered));
    Spelled(covered, LowCheck(Shelf, covered), HighCheck(Shelf, covered));
  }

  lemma Spelled(covered: seq<Octet>, low: Octet, high: Octet)
    ensures Assemble(HeadOf(Adast), covered, low, high, TrailerOf(Adast)) == [0x16, 0x16] + covered + [low, high, 0xff]
    ensures Assemble(HeadOf(Unipump), covered, low, high, TrailerOf(Unipump))
         == [0x10, 0x02] + covered + [low, high, 0x10, 0x03]
    ensures Assemble(HeadOf(Shelf), covered, low, high, TrailerOf(Shelf)) == covered + [low, high]
  {
  }

  /** The checksum in its two bytes. */
  lemma ChecksumJoined(k: Kind, covered: seq<Octet>)
    ensures Joined(ByteOf(LowCheck(k, covered)), ByteOf(HighCheck(k, covered))) == Crc16(k, AsBytes(covered))
  {
    var sum := Crc16(k, AsBytes(covered));
    SameValueSameByte(LowCheck(k, covered), LowByte(sum));
    SameValueSameByte(HighCheck(k, covered), HighByte(sum));
    HalvesJoined(sum);
  }

  function Joined(low: Byte, high: Byte): bv16 { ((high as bv16) << 8) | (low as bv16) }

  lemma HalvesJoined(w: bv16)
    ensures Joined(LowByte(w), HighByte(w)) == w
  {
  }

  /** The receivers' test. */
  predicate Passes(k: Kind, frame: seq<Octet>) {
    var at := LayoutOf(k).CheckAt(|frame|);
    && 0 <= at
    && frame[at] == LowCheck(k, Covered(LayoutOf(k), frame))
    && frame[at + 1] == HighCheck(k, Covered(LayoutOf(k), frame))
  }

  lemma FramePasses(k: Kind, covered: seq<Octet>)
    ensures Passes(k, Frame(k, covered)) && Covered(LayoutOf(k), Frame(k, covered)) == covered
  {
    Assembled(LayoutOf(k), HeadOf(k), covered, LowCheck(k, covered), HighCheck(k, covered), TrailerOf(k));
  }

  /** The receivers accept exactly the frames of the builders, among the frames with
      their header and trailer. */
  lemma PassesOnlyFrames(k: Kind, frame: seq<Octet>)
    requires |frame| >= |HeadOf(k)| + 2 + |TrailerOf(k)|
    requires HeadOf(k) <= frame && frame[|frame| - |TrailerOf(k)|..] == TrailerOf(k)
    ensures Passes(k, frame) <==> frame == Frame(k, Covered(LayoutOf(k), frame))
  {
    Disassembled(LayoutOf(k), frame, HeadOf(k), TrailerOf(k));
    FramePasses(k, Covered(LayoutOf(k), frame));
  }

  lemma SameOctet(o: Octet, b: Byte)
    ensures o == b as int <==> ByteOf(o) == b
  {
    ByteValue(o);
  }

  lemma CoveredBytes(l: Layout, frame: seq<Octet>)
    requires 0 <= l.CheckAt(|frame|)
    ensures AsBytes(Covered(l, frame)) == Covered(l, AsBytes(frame))
  {
  }

  lemma HalvesOfCode(k: Kind, sum: bv16)
    ensures CodeOf(k).low(sum) == LowByte(sum) && CodeOf(k).high(sum) == HighByte(sum)
  {
  }

  /** The receiver's test on the two octets before the trailer. */
  lemma AcceptedAt(k: Kind, frame: seq<Octet>, at: nat)
    requires at == LayoutOf(k).CheckAt(|frame|)
    ensures var sum := Crc16(k, AsBytes(Covered(LayoutOf(k), frame)));
            Accepted(k, AsBytes(frame)) <==> ByteOf(frame[at]) == LowByte(sum) && ByteOf(frame[at + 1]) == HighByte(sum)
  {
    CoveredBytes(LayoutOf(k), frame);
    HalvesOfCode(k, Crc16(k, Covered(LayoutOf(k), AsBytes(frame))));
  }

  lemma PassesIsAccepted(k: Kind, frame: seq<Octet>)
    requires 0 <= LayoutOf(k).CheckAt(|frame|)
    ensures Passes(k, frame) <==> Accepted(k, AsBytes(frame))
  {
    var at := LayoutOf(k).CheckAt(|frame|);
    var sum := Crc16(k, AsBytes(Covered(LayoutOf(k), frame)));
    AcceptedAt(k, frame, at);
    SameOctet(frame[at], LowByte(sum));
    SameOctet(frame[at + 1], HighByte(sum));
  }

  function Damaged(frame: seq<Octet>, pattern: seq<Byte>): (r: seq<Octet>)
    requires |frame| == |pattern|
    ensures |r| == |frame|
  {
    AsOctets(Flip(AsBytes(frame), pattern))
  }

  /** Whatever a builder sends, damage confined to two adjacent bytes between header and
      trailer gets past the receiver exactly in Shelf's blind spot. */
  lemma DamagedFramePasses(k: Kind, covered: seq<Octet>, pattern: seq<Byte>, i: nat)
    requires |pattern| == |Frame(k, covered)| && AdjacentDamage(LayoutOf(k), 0, pattern, i)
    ensures Passes(k, Damaged(Frame(k, covered), pattern)) <==> BlindSpot(k, pattern, i)
  {
    var f := Frame(k, covered);
    FramePasses(k, covered);
    PassesIsAccepted(k, f);
    AdjacentDamageDetected(k, AsBytes(f), pattern, i);
    PassesIsAccepted(k, Damaged(f, pattern));
    BytesOfOctets(Flip(AsBytes(f), pattern));
  }

  /** The damage in Shelf's blind spot, for a covered part of this length. */
  function BlindPattern(covered: nat): (pattern: seq<Byte>)
    requires covered > 0
    ensures |pattern| == covered + 2
  {
    seq(covered - 1, i => 0) + [0x89, 0xa1, 0]
  }

  /** Every Shelf frame has a damaged twin that the receiver takes: its idle reply, say. */
  lemma BlindTwin(covered: seq<Octet>)
    requires covered != []
    ensures var f := Frame(Shelf, covered);
            && |f| == |BlindPattern(|covered|)|
            && Damaged(f, BlindPattern(|covered|)) != f && Passes(Shelf, Damaged(f, BlindPattern(|covered|)))
  {
    var f, pattern, i := Frame(Shelf, covered), BlindPattern(|covered|), |covered| - 1;
    assert pattern[i] == 0x89 && pattern[i + 1] == 0xa1;
    assert forall j :: 0 <= j < |pattern| && pattern[j] != 0 ==> j == i || j == i + 1;
    DamagedFramePasses(Shelf, covered, pattern, i);
    FlippedOctet(f[i], pattern[i]);
    assert Damaged(f, pattern)[i] == PlusByte(ByteOf(f[i]), pattern[i]) as Octet;
  }

  lemma Undamaged(b: Byte, p: Byte)
    ensures PlusByte(b, p) == b ==> p == 0
  {
  }

  lemma FlippedOctet(o: Octet, p: Byte)
    ensures PlusByte(ByteOf(o), p) as Octet == o ==> p == 0
  {
    Undamaged(ByteOf(o), p);
    if PlusByte(ByteOf(o), p) as Octet == o {
      SameValueSameByte(o, PlusByte(ByteOf(o), p));
    }
  }

  /** The two checksum bytes the Adast source takes from its int. */
  method AdastSum(covered: seq<Octet>) returns (low: Octet, high: Octet)
    ensures low == LowCheck(Adast, covered) && high == HighCheck(Adast, covered)
  {
    var crc := AdastCalcCrc(AsBytes(covered));
    var left, right := Split(crc, Crc16(Adast, AsBytes(covered)));
    low, high := left as int, right as int;
  }

  /** Those the Shelf sources take from the uint16_t. */
  method ShelfSum(covered: seq<Octet>) returns (low: Octet, high: Octet)
    ensures low == LowCheck(Shelf, covered) && high == HighCheck(Shelf, covered)
  {
    var wide := ShelfCalcrc(AsBytes(covered), |covered|);
    var crc := Narrow(wide);
    assert AsBytes(covered)[..|covered|] == AsBytes(covered);
    low, high := LowByte(crc) as int, HighByte(crc) as int;
  }
}
