/** The Unipump master: frame builders, the checksum test, and the replies that carry
    digits. */
module Unipump {
  import opened Bytes
  import opened Crc
  import opened Decimal
  import opened Frames
  import opened LinearCode
  import opened States
  import opened UnipumpCrc
  import opened Wrappers

  const MONEY_DIGITS: nat := 6
  const PRICE_DIGITS: nat := 4

  datatype Reply = Amount(address: int, nozzle: int, volume: int, price: int, txnId: int, status: StateType, sum: int)

  datatype Thrown = OutOfRange

  class ProtocolMasterUnipump {
    var transactionHolderAddrId: map<int, (int, int)>

    constructor ()
      ensures transactionHolderAddrId == map[]
    {
      transactionHolderAddrId := map[];
    }

    static method Sum(crccmd: seq<Octet>) returns (left: Octet, right: Octet)
      ensures left == LowCheck(Unipump, crccmd) && right == HighCheck(Unipump, crccmd)
    {
      var rescrc := GetCrc16(0, AsBytes(crccmd));
      left, right := LowByte(rescrc) as int, HighByte(rescrc) as int;
    }

    /** The first two and the last four bytes of every builder. */
    static method Finish(crccmd: seq<Octet>) returns (packet: seq<Octet>)
      ensures packet == Frame(Unipump, crccmd)
      ensures packet == [0x10, 0x02] + crccmd + [LowCheck(Unipump, crccmd), HighCheck(Unipump, crccmd), 0x10, 0x03]
    {
      var left, right := Sum(crccmd);
      packet := Assemble([0x10, 0x02], crccmd, left, right, [0x10, 0x03]);
    }

    static method StatusRequest(addr: int) returns (packet: seq<Octet>)
      ensures packet == Frame(Unipump, [Squeeze(addr + 0x30), 0x53])
    {
      packet := Finish([Squeeze(addr + 0x30), 0x53]);
    }

    static method StopCommand(addr: int) returns (packet: seq<Octet>)
      ensures packet == Frame(Unipump, [Squeeze(addr + 0x30), 0x48])
    {
      packet := Finish([Squeeze(addr + 0x30), 0x48]);
    }

    static method TotalCommand(addr: int, nozzle: int) returns (packet: seq<Octet>)
      ensures packet == Frame(Unipump, [Squeeze(addr + 0x30), 0x54, Squeeze(0x30 + nozzle)])
    {
      packet := Finish([Squeeze(addr + 0x30), 0x54, Squeeze(0x30 + nozzle)]);
    }

    static method SetPriceRequest(addr: int, price: int) returns (packet: seq<Octet>)
      ensures packet == Frame(Unipump, [Squeeze(addr + 0x30), 0x70] + Groups([], price, 6, PRICE_DIGITS))
    {
      var prices := WriteGroups([], price, 6, PRICE_DIGITS);
      packet := Finish([Squeeze(addr + 0x30), 0x70] + prices);
    }

    static method RunCommand(addr: int, volumeInMl: int, priceInCent: int, nozzle: int) returns (packet: seq<Octet>)
      ensures packet == Frame(Unipump, RunCovered(addr, volumeInMl, priceInCent, nozzle))
      ensures |packet| == 22 && packet[0] == 0x10 && packet[1] == 0x02 && packet[20] == 0x10 && packet[21] == 0x03
      ensures packet[3] == 0x41 && packet[5] == 'L' as int
      ensures DigitOf(packet[2]) == addr <==> -0x30 <= addr <= 0xff - 0x30
      ensures DigitOf(packet[4]) == nozzle <==> -0x30 <= nozzle <= 0xff - 0x30
    {
      var volume, _ := WriteDigits(TruncDiv(volumeInMl, 10), MONEY_DIGITS);
      var price, _ := WriteDigits(Int32(priceInCent * 100), MONEY_DIGITS);
      packet := Finish([Squeeze(addr + 0x30), 0x41, Squeeze(nozzle + 0x30), 0x4c] + volume + price);
      RunHeader(addr, nozzle, volume, price);
    }

    /** `transactionHolderAddrId.at(addr)` throws when the pump has not reported the end
        of a transaction. */
    method CloseCommand(addr: int) returns (packet: Result<seq<Octet>, Thrown>)
      ensures packet == if addr !in transactionHolderAddrId then Failure(OutOfRange)
                        else Success(Frame(Unipump, [Squeeze(addr + 0x30), 0x43, Squeeze(transactionHolderAddrId[addr].0),
                                                Squeeze(transactionHolderAddrId[addr].1)]))
    {
      if addr !in transactionHolderAddrId {
        return Failure(OutOfRange);
      }
      var txn := transactionHolderAddrId[addr];
      var sealed := Finish([Squeeze(addr + 0x30), 0x43, Squeeze(txn.0), Squeeze(txn.1)]);
      packet := Success(sealed);
    }

    /** `sourcePacketLength - 4` wraps below zero for a packet of fewer than four bytes,
        and the loop then runs off its end. */
    static method CheckCheckSum(cmd: seq<Octet>) returns (ok: Result<bool, Thrown>)
      ensures ok == if |cmd| < 4 then Failure(OutOfRange) else Success(Passes(Unipump, cmd))
    {
      if |cmd| < 4 {
        return Failure(OutOfRange);
      }
      var checkVector: seq<Octet> := [];
      var i := 2;
      while i < |cmd| - 4
        invariant 2 <= i && (i == 2 || i <= |cmd| - 4)
        invariant checkVector == cmd[2..i]
      {
        checkVector := checkVector + [cmd[i]];
        i := i + 1;
      }
      var left, right := Sum(checkVector);
      assert checkVector == Covered(LayoutOf(Unipump), cmd);
      ok := Success(right == cmd[|cmd| - 3] && left == cmd[|cmd| - 4]);
    }

    /** The volume loop, whose weights start one power of ten higher. */
    static method ReadTenfold(cmd: seq<Octet>, from: nat, count: nat) returns (value: int)
      requires from + count <= |cmd|
      ensures value == 10 * Denotes(cmd[from..from + count])
    {
      value := 0;
      var i := 0;
      while i < count
        invariant 0 <= i <= count
        invariant value + 10 * Denotes(cmd[from + i..from + count]) == 10 * Denotes(cmd[from..from + count])
      {
        assert cmd[from + i..from + count][1..] == cmd[from + i + 1..from + count];
        if DigitOf(cmd[from + i]) != 0 {
          value := value + Scale(DigitOf(cmd[from + i]), count - i);
        } else {
          ScaleZero(count - 1 - i);
        }
        i := i + 1;
      }
    }

    /** Case 0x41, during a supply; a short reply yields the null pointer. */
    static method SupplyReply(cmd: seq<Octet>, expectedPumpAddr: int, pumpId: int) returns (reply: Option<Reply>)
      requires |cmd| >= 4
      ensures reply == if |cmd| < 22 then None
                       else Some(Amount(if expectedPumpAddr == DigitOf(cmd[2]) then pumpId else 0, DigitOf(cmd[6]),
                                        10 * Denotes(cmd[13..19]), 0, Denotes(cmd[4..6]), FUEL_SUPPLY, Denotes(cmd[7..13])))
    {
      var address := if expectedPumpAddr == DigitOf(cmd[2]) then pumpId else 0;
      if |cmd| < 22 {
        return None;
      }
      TwoDigits(cmd);
      var amountInCent := ReadDigits(cmd, 7, 6);
      var volumeInMl := ReadTenfold(cmd, 13, 6);
      reply := Some(Amount(address, DigitOf(cmd[6]), volumeInMl, 0, DigitOf(cmd[4]) * 10 + DigitOf(cmd[5]), FUEL_SUPPLY, amountInCent));
    }

    /** Case 0x54, the end of a transaction. A reply of 7 to 22 bytes is remembered for
        the close command and only then found too short. */
    method EndOfTransaction(cmd: seq<Octet>, expectedPumpAddr: int, pumpId: int) returns (reply: Result<Reply, Thrown>)
      requires |cmd| >= 4
      modifies this
      ensures transactionHolderAddrId
           == if |cmd| < 7 then old(transactionHolderAddrId)
              else old(transactionHolderAddrId)[DigitOf(cmd[2]) := (cmd[4] as int, cmd[5] as int)]
      ensures reply == if |cmd| < 23 then Failure(OutOfRange)
                       else Success(Amount(if expectedPumpAddr == DigitOf(cmd[2]) then pumpId else 0, DigitOf(cmd[6]),
                                           10 * Denotes(cmd[13..19]), Denotes(cmd[19..23]), Denotes(cmd[4..6]), SUPPLY_DONE,
                                           Denotes(cmd[7..13])))
    {
      var address := if expectedPumpAddr == DigitOf(cmd[2]) then pumpId else 0;
      if |cmd| < 7 {
        return Failure(OutOfRange);
      }
      transactionHolderAddrId := transactionHolderAddrId[DigitOf(cmd[2]) := (cmd[4] as int, cmd[5] as int)];
      if |cmd| < 23 {
        return Failure(OutOfRange);
      }
      TwoDigits(cmd);
      var amountInCent := ReadDigits(cmd, 7, 6);
      var volumeInMl := ReadTenfold(cmd, 13, 6);
      var priceInCents := ReadDigits(cmd, 19, 4);
      reply := Success(Amount(address, DigitOf(cmd[6]), volumeInMl, priceInCents, DigitOf(cmd[4]) * 10 + DigitOf(cmd[5]),
                              SUPPLY_DONE, amountInCent));
    }
  }

  /** The transaction number is read as two digits. */
  lemma TwoDigits(cmd: seq<Octet>)
    requires |cmd| >= 6
    ensures Denotes(cmd[4..6]) == DigitOf(cmd[4]) * 10 + DigitOf(cmd[5])
  {
    assert cmd[4..6] == [cmd[4]] + [cmd[5]];
    DenotesCons(cmd[4], [cmd[5]]);
    DenotesCons(cmd[5], []);
  }

  // ----- the frames

  lemma RunHeader(addr: int, nozzle: int, volume: seq<Octet>, price: seq<Octet>)
    requires |volume| == 6 && |price| == 6
    ensures var covered := [Squeeze(addr + 0x30), 0x41, Squeeze(nozzle + 0x30), 0x4c] + volume + price;
            var packet := Frame(Unipump, covered);
            && |packet| == 22 && packet[0] == 0x10 && packet[1] == 0x02 && packet[20] == 0x10 && packet[21] == 0x03
            && packet[3] == 0x41 && packet[5] == 0x4c
            && (DigitOf(packet[2]) == addr <==> -0x30 <= addr <= 0xff - 0x30)
            && (DigitOf(packet[4]) == nozzle <==> -0x30 <= nozzle <= 0xff - 0x30)
  {
    DigitByte(addr);
    DigitByte(nozzle);
  }

  function RunCovered(addr: int, volumeInMl: int, priceInCent: int, nozzle: int): seq<Octet> {
    [Squeeze(addr + 0x30), 0x41, Squeeze(nozzle + 0x30), 0x4c]
    + Digits(TruncDiv(volumeInMl, 10), MONEY_DIGITS) + Digits(Int32(priceInCent * 100), MONEY_DIGITS)
  }

  lemma Echoed(octet: Octet)
    ensures Squeeze(DigitOf(octet) + 0x30) == octet && Squeeze(octet) == octet
  {
  }

  /** A close command repeats the address and the transaction bytes of the last report,
      whatever those bytes are. */
  method CloseEchoesReport(m: ProtocolMasterUnipump, cmd: seq<Octet>, expectedPumpAddr: int, pumpId: int)
    returns (packet: Result<seq<Octet>, Thrown>)
    requires |cmd| >= 7
    modifies m
    ensures packet == Success(Frame(Unipump, [cmd[2], 0x43, cmd[4], cmd[5]]))
  {
    var _ := m.EndOfTransaction(cmd, expectedPumpAddr, pumpId);
    Echoed(cmd[2]);
    Echoed(cmd[4]);
    Echoed(cmd[5]);
    packet := m.CloseCommand(DigitOf(cmd[2]));
  }

  lemma FieldsOf(start: seq<Octet>, volume: seq<Octet>, price: seq<Octet>)
    requires |start| == 4 && |volume| == 6 && |price| == 6
    ensures var frame := Frame(Unipump, start + volume + price);
            |frame| == 22 && frame[6..12] == volume && frame[12..18] == price
  {
  }

  lemma RunFields(addr: int, volumeInMl: int, priceInCent: int, nozzle: int)
    ensures var frame := Frame(Unipump, RunCovered(addr, volumeInMl, priceInCent, nozzle));
            && |frame| == 22
            && frame[6..12] == Digits(TruncDiv(volumeInMl, 10), MONEY_DIGITS)
            && frame[12..18] == Digits(Int32(priceInCent * 100), MONEY_DIGITS)
  {
    FieldsOf([Squeeze(addr + 0x30), 0x41, Squeeze(nozzle + 0x30), 0x4c], Digits(TruncDiv(volumeInMl, 10), MONEY_DIGITS),
             Digits(Int32(priceInCent * 100), MONEY_DIGITS));
  }

  // Money beyond an int wraps around before it is written, and is not read back.

  /** What six bytes denote is far within an int. */
  lemma {:induction false} DenotesBounded(digits: seq<Octet>)
    ensures -48 * Repunit(|digits|) <= Denotes(digits) <= 207 * Repunit(|digits|)
  {
    if digits != [] {
      DenotesBounded(digits[1..]);
      ScaleBounded(DigitOf(digits[0]), |digits| - 1);
    }
  }

  /** 1, 11, 111, ... */
  function Repunit(n: nat): nat { if n == 0 then 0 else Pow10(n - 1) + Repunit(n - 1) }

  lemma {:induction false} ScaleBounded(d: int, n: nat)
    requires -48 <= d <= 207
    ensures -48 * Pow10(n) <= Scale(d, n) <= 207 * Pow10(n)
  {
    if n > 0 {
      ScaleBounded(d, n - 1);
    }
  }

  lemma MoneyBounded(digits: seq<Octet>)
    requires |digits| == MONEY_DIGITS
    ensures -0x8000_0000 <= Denotes(digits) < 0x8000_0000
  {
    DenotesBounded(digits);
    assert Repunit(6) == 111111;
  }

  lemma WrappedField(n: int)
    ensures AllDigits(Digits(Int32(n), MONEY_DIGITS)) && Denotes(Digits(Int32(n), MONEY_DIGITS)) == n
       <==> 0 <= n < Pow10(MONEY_DIGITS)
  {
    MoneyBounded(Digits(Int32(n), MONEY_DIGITS));
    FieldCorrectIff(n, MONEY_DIGITS);
    SixDigits();
  }

  lemma SixDigits()
    ensures Pow10(MONEY_DIGITS) == 1_000_000 && Pow10(MONEY_DIGITS - 1) == 100_000
  {
  }

  lemma LeadFits(n: int)
    ensures -0x30 <= TruncDiv(n, 100_000) <= 0xff - 0x30 ==> -0x8000_0000 <= n < 0x8000_0000
  {
  }

  lemma WrappedReadsBack(n: int)
    ensures Denotes(Digits(Int32(n), MONEY_DIGITS)) == n <==> -0x30 <= TruncDiv(n, Pow10(MONEY_DIGITS - 1)) <= 0xff - 0x30
  {
    MoneyBounded(Digits(Int32(n), MONEY_DIGITS));
    ReadsBackIff(n, MONEY_DIGITS);
    SixDigits();
    LeadFits(n);
  }

  /** The digit fields of a run frame are the volume and the price in hundredths, if and
      only if both fit. */
  lemma RunFrameDenotesIff(addr: int, volumeInMl: int, priceInCent: int, nozzle: int)
    ensures var frame := Frame(Unipump, RunCovered(addr, volumeInMl, priceInCent, nozzle));
            && |frame| == 22
            && (AllDigits(frame[6..12]) && Denotes(frame[6..12]) == TruncDiv(volumeInMl, 10)
                <==> 0 <= TruncDiv(volumeInMl, 10) < Pow10(MONEY_DIGITS))
            && (AllDigits(frame[12..18]) && Denotes(frame[12..18]) == priceInCent * 100
                <==> 0 <= priceInCent * 100 < Pow10(MONEY_DIGITS))
  {
    RunFields(addr, volumeInMl, priceInCent, nozzle);
    FieldCorrectIff(TruncDiv(volumeInMl, 10), MONEY_DIGITS);
    WrappedField(priceInCent * 100);
  }

  /** The report of a pump that copies the digits of a run frame. */
  function ReportOf(run: seq<Octet>, before: seq<Octet>, after: seq<Octet>): seq<Octet>
    requires |run| == 22
  {
    before + run[12..18] + run[6..12] + after
  }

  lemma ReportFields(run: seq<Octet>, before: seq<Octet>, after: seq<Octet>)
    requires |run| == 22 && |before| == 7 && |after| >= 4
    ensures var report := ReportOf(run, before, after);
            |report| >= 23 && report[7..13] == run[12..18] && report[13..19] == run[6..12]
  {
  }

  lemma CopiedFields(addr: int, volumeInMl: int, priceInCent: int, nozzle: int, before: seq<Octet>, after: seq<Octet>)
    requires |before| == 7 && |after| >= 4
    ensures var run := Frame(Unipump, RunCovered(addr, volumeInMl, priceInCent, nozzle));
            && |run| == 22 && |ReportOf(run, before, after)| >= 23
            && ReportOf(run, before, after)[7..13] == Digits(Int32(priceInCent * 100), MONEY_DIGITS)
            && ReportOf(run, before, after)[13..19] == Digits(TruncDiv(volumeInMl, 10), MONEY_DIGITS)
  {
    RunFields(addr, volumeInMl, priceInCent, nozzle);
    ReportFields(Frame(Unipump, RunCovered(addr, volumeInMl, priceInCent, nozzle)), before, after);
  }

  /** A pump that copies the digits of a run frame into its end-of-transaction report is
      understood to have delivered the requested volume, rounded towards zero to a multiple
      of ten, exactly when the leading digit of the volume survives its byte; likewise the
      amount. */
  method ReportOfRunFrame(m: ProtocolMasterUnipump, addr: int, volumeInMl: int, priceInCent: int, nozzle: int,
                          before: seq<Octet>, after: seq<Octet>, expectedPumpAddr: int, pumpId: int)
    returns (reply: Result<Reply, Thrown>)
    requires |before| == 7 && |after| >= 4
    modifies m
    ensures reply.Success?
    ensures reply.value.volume == TruncDiv(volumeInMl, 10) * 10
       <==> -0x30 <= TruncDiv(TruncDiv(volumeInMl, 10), Pow10(MONEY_DIGITS - 1)) <= 0xff - 0x30
    ensures reply.value.sum == priceInCent * 100
       <==> -0x30 <= TruncDiv(priceInCent * 100, Pow10(MONEY_DIGITS - 1)) <= 0xff - 0x30
  {
    var run := ProtocolMasterUnipump.RunCommand(addr, volumeInMl, priceInCent, nozzle);
    CopiedFields(addr, volumeInMl, priceInCent, nozzle, before, after);
    reply := m.EndOfTransaction(ReportOf(run, before, after), expectedPumpAddr, pumpId);
    ReadsBackIff(TruncDiv(volumeInMl, 10), MONEY_DIGITS);
    WrappedReadsBack(priceInCent * 100);
  }
}
