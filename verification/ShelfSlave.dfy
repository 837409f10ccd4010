/** The Shelf slave: what it makes of requests, and the replies it builds. */
module ShelfSlave {
  import opened Bytes
  import opened Crc
  import opened Frames
  import opened LinearCode
  import opened LittleEndian
  import opened ShelfMaster
  import opened States
  import opened Wrappers

  datatype Cmd =
    | Plain(id: int, cmdType: CmdType)
    | Authorize(id: int, volume: int, nozzle: int, price: int)

  function GetRequestPistol(num: Octet): int { num % 5 }

  function GetRequestTrkId(num: Octet): int { TruncDiv((num as int) - 10, 5) + 1 }

  class ProtocolSlaveShelf {
    var currentAddr: Octet
    var currentPacketId: Octet

    constructor ()
      ensures currentAddr == 0 && currentPacketId == 0
    {
      currentAddr, currentPacketId := 0, 0;
    }

    method ResponseHangedFree() returns (cmd: seq<Octet>)
      ensures cmd == Frame(Shelf, [0x2d, currentAddr, currentPacketId, 0x09, 0x81, 0x01, 0x20]) && Sized(cmd)
    {
      cmd := Finish([0x2d, currentAddr, currentPacketId, 0x09, 0x81, 0x01, 0x20], 7);
    }

    /** Shifting by a negative nozzle is undefined. */
    method ResponseRemovedNozzle(nozzleRequested: nat) returns (cmd: seq<Octet>)
      ensures cmd == Frame(Shelf, [0x2d, currentAddr, currentPacketId, 0x09, 0x81, RemovedByte(nozzleRequested), 0x21]) && Sized(cmd)
    {
      cmd := Finish([0x2d, currentAddr, currentPacketId, 0x09, 0x81, RemovedByte(nozzleRequested), 0x21], 7);
    }

    method ResponseAmountInfo(requestedNozzle: nat, volume: int) returns (cmd: seq<Octet>)
      ensures cmd == Frame(Shelf, [0x2d, currentAddr, currentPacketId, 0x0e, 0x84, Squeeze(Pow2(requestedNozzle)), 0x8f, 0x02,
                                   currentAddr] + Little(TruncDiv(volume, 10), 3))
      ensures cmd == Frame(Shelf, AmountCovered(currentAddr, currentPacketId, requestedNozzle, volume)) && Sized(cmd)
    {
      var volumeInMl := TruncDiv(volume, 10);
      cmd := Finish([0x2d, currentAddr, currentPacketId, 0x0e, 0x84, Squeeze(Pow2(requestedNozzle)), 0x8f, 0x02, currentAddr]
                    + Little(volumeInMl, VOLUME_BYTES), 12);
    }

    method ResponseSupplyDone(volume: int, sumInCent: int, priceInCents: int) returns (cmd: seq<Octet>)
      ensures cmd == Frame(Shelf, [0x2d, currentAddr, currentPacketId, 0x11, 0x93, 0x01, 0x81]
                                  + Little(TruncDiv(volume, 10), 3) + Little(sumInCent, 3) + Little(priceInCents, 2))
      ensures cmd == Frame(Shelf, DoneCovered(currentAddr, currentPacketId, volume, sumInCent, priceInCents)) && Sized(cmd)
    {
      var volumeInMl := TruncDiv(volume, 10);
      cmd := Finish([0x2d, currentAddr, currentPacketId, 0x11, 0x93, 0x01, 0x81]
                    + Little(volumeInMl, VOLUME_BYTES) + Little(sumInCent, VOLUME_BYTES) + Little(priceInCents, PRICE_BYTES), 15);
    }

    method ResponseClosedTransaction(volume: int, priceInCents: int) returns (cmd: seq<Octet>)
      ensures cmd == Frame(Shelf, [0x2d, currentAddr, currentPacketId, 0x16, 0x85, 0x02, 0x81, 0x01, currentAddr]
                                  + Little(TruncDiv(volume, 10), 3) + [0, 0, 0, 0, 0, 0] + Little(priceInCents, 2))
      ensures Sized(cmd)
    {
      var volumeInMl := TruncDiv(volume, 10);
      cmd := Finish([0x2d, currentAddr, currentPacketId, 0x16, 0x85, 0x02, 0x81, 0x01, currentAddr]
                    + Little(volumeInMl, VOLUME_BYTES) + [0, 0, 0, 0, 0, 0] + Little(priceInCents, PRICE_BYTES), 20);
    }

    method ResponseConfirmation() returns (cmd: seq<Octet>)
      ensures cmd == Frame(Shelf, [0x2d, currentAddr, currentPacketId, 0x07, 0x0c]) && Sized(cmd)
    {
      cmd := Finish([0x2d, currentAddr, currentPacketId, 0x07, 0x0c], 5);
    }

    /** The total is a long long until it is stored in an int. */
    method ResponseTotalInfo(volume: int) returns (cmd: seq<Octet>)
      ensures cmd == Frame(Shelf, [0x2d, currentAddr, currentPacketId, 0x0b, 0xa0] + Little(TruncDiv(Int32(volume), 10), 4))
      ensures cmd == Frame(Shelf, TotalCovered(currentAddr, currentPacketId, volume)) && Sized(cmd)
    {
      var volumeInMl := TruncDiv(Int32(volume), 10);
      cmd := Finish([0x2d, currentAddr, currentPacketId, 0x0b, 0xa0] + Little(volumeInMl, TOTAL_BYTES), 9);
    }

    /** Fewer than two bytes throw, from `reserve` or from `at`. */
    static method CheckCheckSum(cmd: seq<Octet>) returns (ok: Result<bool, Thrown>)
      ensures ok == if |cmd| < 2 then Failure(OutOfRange) else Success(Passes(Shelf, cmd))
    {
      if |cmd| < 2 {
        return Failure(OutOfRange);
      }
      var left, right := ShelfSum(cmd[..|cmd| - 2]);
      assert cmd[..|cmd| - 2] == Covered(LayoutOf(Shelf), cmd);
      ok := Success(left == cmd[|cmd| - 2] && right == cmd[|cmd| - 1]);
    }

    static method ResolveWriteVolumeRequest(cmd: seq<Octet>) returns (res: Result<Option<Cmd>, Thrown>)
      requires |cmd| >= 5
      ensures res == WriteVolume(cmd)
    {
      if |cmd| < 12 {
        return Failure(OutOfRange);
      }
      var address, nozzle := GetRequestTrkId(cmd[1]), GetRequestPistol(cmd[1]) + 1;
      var volume, price := FromLittle(cmd[7..10]), FromLittle(cmd[10..12]);
      volume := volume * 10;
      res := Success(Some(Authorize(address, volume, nozzle, price)));
    }

    /** The packet number and the address are remembered for the reply even when the
        request then turns out to be too short. Two codes yield no command. */
    method ParseCmd(cmd: seq<Octet>) returns (res: Result<Option<Cmd>, Thrown>)
      modifies this
      ensures res == Understood(cmd)
      ensures |cmd| >= 3 ==> currentAddr == cmd[1] && currentPacketId == cmd[2]
      ensures |cmd| < 3 ==> currentAddr == old(currentAddr) && currentPacketId == old(currentPacketId)
    {
      if |cmd| < 3 {
        return Failure(OutOfRange);
      }
      currentPacketId := cmd[2];
      currentAddr := cmd[1];
      if |cmd| < 5 {
        return Failure(OutOfRange);
      }
      var address := GetRequestTrkId(cmd[1]);
      match cmd[4] {
        case 0x01 | 0x04 => res := Success(Some(Plain(address, STATUS_REQUEST)));
        case 0x02 => res := Success(Some(Plain(address, READ_PRICE)));
        case 0x03 =>
          if |cmd| < 10 {
            res := Failure(OutOfRange);
          } else {
            res := Success(Some(Plain(cmd[1] as int, WRITE_PRICE)));
          }
        case 0x05 => res := ResolveWriteVolumeRequest(cmd);
        case 0x0c => res := Success(Some(Plain(address, STOP_COMMAND)));
        case 0x09 | 0x06 => res := Success(None);
        case _ => res := Success(Some(Plain(address, GET_TOTAL)));
      }
    }
  }

  // ----- requests

  function WriteVolume(cmd: seq<Octet>): Result<Option<Cmd>, Thrown>
    requires |cmd| >= 5
  {
    if |cmd| < 12 then Failure(OutOfRange)
    else Success(Some(Authorize(GetRequestTrkId(cmd[1]), FromLittle(cmd[7..10]) * 10, GetRequestPistol(cmd[1]) + 1,
                                FromLittle(cmd[10..12]))))
  }

  /** A price request is copied into a plain command, which leaves its price behind. */
  function Understood(cmd: seq<Octet>): Result<Option<Cmd>, Thrown> {
    if |cmd| < 5 then Failure(OutOfRange)
    else
      var pump := GetRequestTrkId(cmd[1]);
      match cmd[4]
      case 0x01 => Success(Some(Plain(pump, STATUS_REQUEST)))
      case 0x02 => Success(Some(Plain(pump, READ_PRICE)))
      case 0x03 => if |cmd| < 10 then Failure(OutOfRange) else Success(Some(Plain(cmd[1] as int, WRITE_PRICE)))
      case 0x04 => Success(Some(Plain(pump, STATUS_REQUEST)))
      case 0x05 => WriteVolume(cmd)
      case 0x06 => Success(None)
      case 0x09 => Success(None)
      case 0x0c => Success(Some(Plain(pump, STOP_COMMAND)))
      case _ => Success(Some(Plain(pump, GET_TOTAL)))
  }

  /** What every request means, and when it throws. */
  lemma RequestMeans(cmd: seq<Octet>)
    ensures Understood(cmd).Failure? <==> |cmd| < 5 || (cmd[4] == 0x03 && |cmd| < 10) || (cmd[4] == 0x05 && |cmd| < 12)
    ensures Understood(cmd) == Success(None) <==> |cmd| >= 5 && (cmd[4] == 0x06 || cmd[4] == 0x09)
    ensures |cmd| >= 12 && cmd[4] == 0x05 ==>
      Understood(cmd) == Success(Some(Authorize(GetRequestTrkId(cmd[1]),
                                                10 * ((cmd[7] as int) + 256 * (cmd[8] as int) + 65536 * (cmd[9] as int)),
                                                (cmd[1] as int) % 5 + 1, (cmd[10] as int) + 256 * (cmd[11] as int))))
    ensures |cmd| >= 10 && cmd[4] == 0x03 ==> Understood(cmd) == Success(Some(Plain(cmd[1] as int, WRITE_PRICE)))
    ensures |cmd| >= 5 && cmd[4] !in {0x03, 0x05, 0x06, 0x09} ==>
      Understood(cmd) == Success(Some(Plain(GetRequestTrkId(cmd[1]),
                                            if cmd[4] == 0x01 || cmd[4] == 0x04 then STATUS_REQUEST
                                            else if cmd[4] == 0x02 then READ_PRICE
                                            else if cmd[4] == 0x0c then STOP_COMMAND
                                            else GET_TOTAL)))
  {
    if |cmd| >= 12 {
      ThreeBytesRead(cmd, 7);
      FromLittleNext(cmd, 10, 2);
      FromLittleNext(cmd, 11, 1);
    }
  }

  /** Below 10 the division truncates upwards. */
  lemma LowAddresses(num: Octet)
    requires num < 10
    ensures GetRequestTrkId(num) == if num > 5 then 1 else if num > 0 then 0 else -1
  {
  }

  // ----- replies

  /** `0x01 | 1 << n` */
  function RemovedByte(n: nat): Octet { Squeeze(if n == 0 then 1 else 1 + Pow2(n)) }

  function AmountCovered(addr: Octet, packetId: Octet, nozzle: nat, volume: int): seq<Octet> {
    [0x2d, addr, packetId, 0x0e, 0x84, Squeeze(Pow2(nozzle)), 0x8f, 0x02, addr] + Little(TruncDiv(volume, 10), VOLUME_BYTES)
  }

  function DoneCovered(addr: Octet, packetId: Octet, volume: int, sum: int, price: int): seq<Octet> {
    [0x2d, addr, packetId, 0x11, 0x93, 0x01, 0x81]
    + Little(TruncDiv(volume, 10), VOLUME_BYTES) + Little(sum, VOLUME_BYTES) + Little(price, PRICE_BYTES)
  }

  function TotalCovered(addr: Octet, packetId: Octet, volume: int): seq<Octet> {
    [0x2d, addr, packetId, 0x0b, 0xa0] + Little(TruncDiv(Int32(volume), 10), TOTAL_BYTES)
  }

  lemma {:induction false} WholeBytes(n: nat)
    requires n >= 8
    ensures Pow2(n) % 256 == 0
  {
    if n > 8 {
      WholeBytes(n - 1);
      Divides(Pow2(n), 256, 2 * (Pow2(n - 1) / 256), 0);
    }
  }

  /** The removed byte has bit 0 and the nozzle's bit, if that is within the byte. */
  lemma RemovedByteIs(n: nat)
    ensures n == 0 ==> RemovedByte(n) == 0x01
    ensures 1 <= n < 8 ==> RemovedByte(n) == 1 + Pow2(n)
    ensures n >= 8 ==> RemovedByte(n) == 0x01
  {
    if n >= 8 {
      WholeBytes(n);
      Divides(1 + Pow2(n), 256, Pow2(n) / 256, 1);
    } else {
      Powers();
    }
  }
}
