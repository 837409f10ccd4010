/** The Adast master: frame builders and the checksum test. */
module Adast {
  import opened Bytes
  import opened Crc
  import opened Decimal
  import opened Frames
  import opened LinearCode
  import opened Wrappers

  const VOLUME_DIGITS: nat := 6
  const PRICE_DIGITS: nat := 4

  class ProtocolMasterAdast {
    var pumpIds: map<int, int>
    var lastPriceAuthorize: map<int, int>

    constructor ()
      ensures pumpIds == map[] && lastPriceAuthorize == map[]
    {
      pumpIds, lastPriceAuthorize := map[], map[];
    }

    /** The sync words at the start and the last three bytes of every builder. */
    static method Finish(crccmd: seq<Octet>) returns (packet: seq<Octet>)
      ensures packet == Frame(Adast, crccmd)
      ensures packet == [0x16, 0x16] + crccmd + [LowCheck(Adast, crccmd), HighCheck(Adast, crccmd), 0xff]
    {
      var low, high := AdastSum(crccmd);
      packet := Assemble([0x16, 0x16], crccmd, low, high, [0xff]);
    }

    static method StatusRequest(addr: int) returns (packet: seq<Octet>)
      ensures packet == Frame(Adast, [Squeeze(addr), 0x01, 0x4a])
    {
      packet := Finish([Squeeze(addr), 0x01, 0x4a]);
    }

    static method StopCommand(addr: int) returns (packet: seq<Octet>)
      ensures packet == Frame(Adast, [Squeeze(addr), 0x01, 0x35])
    {
      packet := Finish([Squeeze(addr), 0x01, 0x35]);
    }

    static method TotalCommand(addr: int, nozzle: int) returns (packet: seq<Octet>)
      ensures packet == Frame(Adast, [Squeeze(addr), 0x02, 0x42, Squeeze(0x30 + nozzle)])
    {
      packet := Finish([Squeeze(addr), 0x02, 0x42, Squeeze(0x30 + nozzle)]);
    }

    static method SetPriceRequest(addr: int, price: int) returns (packet: seq<Octet>)
      ensures packet == Frame(Adast, [Squeeze(addr), 0x06, 0x34, 0x01] + Digits(price, PRICE_DIGITS))
    {
      var digits, _ := WriteDigits(price, PRICE_DIGITS);
      packet := Finish([Squeeze(addr), 0x06, 0x34, 0x01] + digits);
    }

    /** `pumpIds.at(addr)` throws for an address that has not reported a transaction. */
    method CloseCommand(addr: int) returns (packet: Option<seq<Octet>>)
      ensures packet == if addr !in pumpIds then None
                        else Some(Frame(Adast, [Squeeze(addr), 0x03, 0x4c, Squeeze(pumpIds[addr] / 256), Squeeze(pumpIds[addr])]))
    {
      if addr !in pumpIds {
        return None;
      }
      var sealed := Finish([Squeeze(addr), 0x03, 0x4c, Squeeze(pumpIds[addr] / 256), Squeeze(pumpIds[addr])]);
      packet := Some(sealed);
    }

    method RunCommand(addr: int, volumeInMl: int, priceInCents: int, nozzle: int) returns (packet: seq<Octet>)
      modifies this
      ensures packet == Frame(Adast, RunCovered(addr, volumeInMl, priceInCents, nozzle))
      ensures packet == Frame(Adast, [Squeeze(addr), 0x0e, 0x39, Squeeze(0x30 + nozzle), 0x56]
                                     + Digits(TruncDiv(volumeInMl, 10), 6) + Groups([0x31], priceInCents, nozzle, 4))
      ensures lastPriceAuthorize == old(lastPriceAuthorize)[addr := priceInCents] && pumpIds == old(pumpIds)
    {
      lastPriceAuthorize := lastPriceAuthorize[addr := priceInCents];
      var volume, _ := WriteDigits(TruncDiv(volumeInMl, 10), VOLUME_DIGITS);
      var prices := WriteGroups([0x31], priceInCents, nozzle, PRICE_DIGITS);
      packet := Finish([Squeeze(addr), 0x0e, 0x39, Squeeze(0x30 + nozzle), 0x56] + volume + prices);
    }

    static method CheckCheckSum(cmd: seq<Octet>) returns (ok: bool)
      ensures ok <==> |cmd| >= 6 && Passes(Adast, cmd)
    {
      var sourcePacketLength := |cmd|;
      if sourcePacketLength < 6 {
        return false;
      }
      var checkVector: seq<Octet> := [];
      var i := 2;
      while i < sourcePacketLength - 3
        invariant 2 <= i <= sourcePacketLength - 3
        invariant checkVector == cmd[2..i]
      {
        checkVector := checkVector + [cmd[i]];
        i := i + 1;
      }
      var left, right := AdastSum(checkVector);
      assert checkVector == Covered(LayoutOf(Adast), cmd);
      ok := right == cmd[sourcePacketLength - 2] && left == cmd[sourcePacketLength - 3];
    }
  }

  // ----- the frames

  /** The length byte tells a receiver where the frame ends. */
  predicate Delimited(frame: seq<Octet>) {
    |frame| >= 4 && |frame| == (frame[3] as int) + 7
  }

  /** One price group per nozzle. */
  function RunCovered(addr: int, volumeInMl: int, priceInCents: int, nozzle: int): seq<Octet> {
    [Squeeze(addr), 0x0e, 0x39, Squeeze(0x30 + nozzle), 0x56]
    + Digits(TruncDiv(volumeInMl, 10), VOLUME_DIGITS) + Groups([0x31], priceInCents, nozzle, PRICE_DIGITS)
  }

  /** Whatever is covered, the frame passes the receiver's test, and it is delimited
      exactly when the second covered byte counts the covered bytes after it. */
  lemma FrameDelimitedIff(covered: seq<Octet>)
    requires |covered| >= 2
    ensures Passes(Adast, Frame(Adast, covered)) && |Frame(Adast, covered)| >= 7
    ensures Delimited(Frame(Adast, covered)) <==> covered[1] == |covered| - 2
  {
    FramePasses(Adast, covered);
    assert Frame(Adast, covered)[3] == covered[1];
  }

  /** Every other builder writes the real length. */
  lemma PollFramesDelimited(addr: int, nozzle: int, price: int, id: int)
    ensures Delimited(Frame(Adast, [Squeeze(addr), 0x01, 0x4a]))
    ensures Delimited(Frame(Adast, [Squeeze(addr), 0x01, 0x35]))
    ensures Delimited(Frame(Adast, [Squeeze(addr), 0x02, 0x42, Squeeze(0x30 + nozzle)]))
    ensures Delimited(Frame(Adast, [Squeeze(addr), 0x03, 0x4c, Squeeze(id / 256), Squeeze(id)]))
    ensures Delimited(Frame(Adast, [Squeeze(addr), 0x06, 0x34, 0x01] + Digits(price, PRICE_DIGITS)))
  {
    FrameDelimitedIff([Squeeze(addr), 0x01, 0x4a]);
    FrameDelimitedIff([Squeeze(addr), 0x01, 0x35]);
    FrameDelimitedIff([Squeeze(addr), 0x02, 0x42, Squeeze(0x30 + nozzle)]);
    FrameDelimitedIff([Squeeze(addr), 0x03, 0x4c, Squeeze(id / 256), Squeeze(id)]);
    FrameDelimitedIff([Squeeze(addr), 0x06, 0x34, 0x01] + Digits(price, PRICE_DIGITS));
  }

  lemma DelimitedIffFive(start: seq<Octet>, volume: seq<Octet>, prices: seq<Octet>)
    requires |start| == 5 && start[1] == 0x0e && |volume| == 6
    ensures Delimited(Frame(Adast, start + volume + prices)) <==> |prices| == 5
  {
    FrameDelimitedIff(start + volume + prices);
  }

  /** The run command writes a fixed length byte: its frame is delimited for nozzle 1 and
      for no other. */
  lemma RunFrameDelimitedIff(addr: int, volumeInMl: int, priceInCents: int, nozzle: int)
    ensures Delimited(Frame(Adast, RunCovered(addr, volumeInMl, priceInCents, nozzle))) <==> nozzle == 1
  {
    GroupsLength([0x31], priceInCents, nozzle, PRICE_DIGITS);
    DelimitedIffFive([Squeeze(addr), 0x0e, 0x39, Squeeze(0x30 + nozzle), 0x56],
                    Digits(TruncDiv(volumeInMl, 10), VOLUME_DIGITS), Groups([0x31], priceInCents, nozzle, PRICE_DIGITS));
  }

  lemma FieldsOf(start: seq<Octet>, volume: seq<Octet>, price: seq<Octet>)
    requires |start| == 5 && |volume| == 6 && |price| == 4
    ensures var frame := Frame(Adast, start + volume + ([0x31] + price));
            |frame| == 21 && frame[7..13] == volume && frame[14..18] == price
  {
  }

  /** For nozzle 1 the digit fields of the frame are the volume in tenths of a
      decilitre and the price, if and only if both fit. */
  lemma RunFrameDenotesIff(addr: int, volumeInMl: int, priceInCents: int)
    ensures var frame := Frame(Adast, RunCovered(addr, volumeInMl, priceInCents, 1));
            && |frame| == 21
            && (AllDigits(frame[7..13]) && Denotes(frame[7..13]) == TruncDiv(volumeInMl, 10)
                <==> 0 <= TruncDiv(volumeInMl, 10) < Pow10(VOLUME_DIGITS))
            && (AllDigits(frame[14..18]) && Denotes(frame[14..18]) == priceInCents
                <==> 0 <= priceInCents < Pow10(PRICE_DIGITS))
  {
    OneGroup([0x31], priceInCents, PRICE_DIGITS);
    FieldsOf([Squeeze(addr), 0x0e, 0x39, Squeeze(0x30 + 1), 0x56], Digits(TruncDiv(volumeInMl, 10), VOLUME_DIGITS),
             Digits(priceInCents, PRICE_DIGITS));
    FieldCorrectIff(TruncDiv(volumeInMl, 10), VOLUME_DIGITS);
    FieldCorrectIff(priceInCents, PRICE_DIGITS);
  }
}
