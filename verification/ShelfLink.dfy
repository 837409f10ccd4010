/** Both ends of the Shelf link together: what each understands of what the other sends. */
module ShelfLink {
  import opened Bytes
  import opened Crc
  import opened Frames
  import opened LittleEndian
  import opened ShelfMaster
  import opened ShelfSlave
  import opened States
  import opened Wrappers

  // ----- requests

  lemma FrameAppends(covered: seq<Octet>)
    ensures Frame(Shelf, covered) == covered + [LowCheck(Shelf, covered), HighCheck(Shelf, covered)]
  {
  }

  /** The checksum is not read as data. */
  lemma UnderstoodAppended(covered: seq<Octet>, tail: seq<Octet>)
    requires |covered| >= 5 && covered[4] != 0x03 && (covered[4] == 0x05 ==> |covered| >= 12)
    ensures Understood(covered + tail) == Understood(covered)
  {
    if covered[4] == 0x05 {
      assert (covered + tail)[7..10] == covered[7..10] && (covered + tail)[10..12] == covered[10..12];
    }
  }

  lemma RunFields(start: seq<Octet>, volume: seq<Octet>, price: seq<Octet>)
    requires |start| == 7 && |volume| == 3 && |price| == 2
    ensures var cmd := start + volume + price;
            && |cmd| == 12 && cmd[7..10] == volume && cmd[10..12] == price && cmd[1] == start[1] && cmd[4] == start[4]
  {
  }

  /** A write-volume request is accepted and understood: the address byte names the pump
      and the nozzle, the volume comes out rounded towards zero to a multiple of ten if and
      only if a tenth of it fits 24 bits, and the price if and only if it fits 16. */
  lemma WriteVolumeUnderstood(addr: int, index: Octet, volume: int, price: int)
    ensures var frame := Frame(Shelf, RunCovered(addr, index, volume, price));
            var cmd := Understood(frame);
            && Passes(Shelf, frame)
            && cmd.Success? && cmd.value.Some? && cmd.value.value.Authorize?
            && cmd.value.value.id == GetRequestTrkId(Squeeze(addr))
            && cmd.value.value.nozzle == GetRequestPistol(Squeeze(addr)) + 1
            && (cmd.value.value.volume == TruncDiv(volume, 10) * 10 <==> 0 <= TruncDiv(volume, 10) < 0x100_0000)
            && (cmd.value.value.price == price <==> 0 <= price < 0x1_0000)
  {
    var covered := RunCovered(addr, index, volume, price);
    FramePasses(Shelf, covered);
    FrameAppends(covered);
    UnderstoodAppended(covered, [LowCheck(Shelf, covered), HighCheck(Shelf, covered)]);
    RunFields([0x2d, Squeeze(addr), index, 0x0e, 0x05, 0x00, 0x00], Little(TruncDiv(volume, 10), VOLUME_BYTES),
              Little(price, PRICE_BYTES));
    FitsIff(TruncDiv(volume, 10), VOLUME_BYTES);
    FitsIff(price, PRICE_BYTES);
    Widths();
  }

  lemma Widths()
    ensures Pow256(VOLUME_BYTES) == 0x100_0000 && Pow256(PRICE_BYTES) == 0x1_0000 && Pow256(TOTAL_BYTES - 1) == 0x100_0000
  {
  }

  /** The requests without data are accepted and understood. */
  lemma PollsUnderstood(addr: int, index: Octet, code: Octet)
    requires code == 0x01 || code == 0x0c || code == 0x15
    ensures var frame := Frame(Shelf, [0x2d, Squeeze(addr), index, 0x07, code]);
            && Passes(Shelf, frame)
            && Understood(frame) == Success(Some(Plain(GetRequestTrkId(Squeeze(addr)),
                                    if code == 0x01 then STATUS_REQUEST else if code == 0x0c then STOP_COMMAND else GET_TOTAL)))
  {
    var covered := [0x2d, Squeeze(addr), index, 0x07, code];
    FramePasses(Shelf, covered);
    FrameAppends(covered);
    PollRead(Frame(Shelf, covered), Squeeze(addr), code);
  }

  lemma PollRead(cmd: seq<Octet>, address: Octet, code: Octet)
    requires |cmd| >= 5 && cmd[1] == address && cmd[4] == code && (code == 0x01 || code == 0x0c || code == 0x15)
    ensures Understood(cmd) == Success(Some(Plain(GetRequestTrkId(address),
                                    if code == 0x01 then STATUS_REQUEST else if code == 0x0c then STOP_COMMAND else GET_TOTAL)))
  {
  }

  /** This master's price requests are accepted by this slave's checksum test and then
      always found too short, whatever the price. */
  lemma PriceRequestsThrow(addr: int, index: Octet, price: int)
    ensures var frame := Frame(Shelf, [0x2d, Squeeze(addr), index, 0x09, 0x03] + Little(price, PRICE_BYTES));
            Passes(Shelf, frame) && Understood(frame) == Failure(OutOfRange)
  {
    FramePasses(Shelf, [0x2d, Squeeze(addr), index, 0x09, 0x03] + Little(price, PRICE_BYTES));
    FrameAppends([0x2d, Squeeze(addr), index, 0x09, 0x03] + Little(price, PRICE_BYTES));
  }

  /** From 10 up, addresses and pairs of a positive pump and a nozzle 1..5 determine each
      other. */
  lemma AddressBijection(pump: int, nozzle: int, num: Octet)
    requires num >= 10
    ensures GetRequestTrkId(num) == pump && GetRequestPistol(num) + 1 == nozzle
       <==> pump >= 1 && 1 <= nozzle <= 5 && num as int == 10 + 5 * (pump - 1) + nozzle - 1
  {
  }

  /** Over all addresses, the only ones understood alike are 6..9 and 11..14. */
  lemma AddressCollisions(a: Octet, b: Octet)
    ensures GetRequestTrkId(a) == GetRequestTrkId(b) && GetRequestPistol(a) == GetRequestPistol(b)
       <==> a == b || (6 <= a <= 9 && b as int == (a as int) + 5) || (6 <= b <= 9 && a as int == (b as int) + 5)
  {
    if a >= 10 && b >= 10 {
      AddressBijection(GetRequestTrkId(a), GetRequestPistol(a) + 1, a);
      AddressBijection(GetRequestTrkId(a), GetRequestPistol(a) + 1, b);
    }
  }

  // ----- replies

  /** The checksum is not read as data. */
  lemma ParsedAppended(covered: seq<Octet>, tail: seq<Octet>, prices: map<int, int>, pumpId: int)
    requires |covered| >= 12 || (|covered| >= 7 && covered[4] == 0x81) || (|covered| >= 9 && covered[4] == 0xa0)
    ensures Parsed(covered + tail, prices, pumpId) == Parsed(covered, prices, pumpId)
  {
    var cmd := covered + tail;
    assert |covered| >= 12 ==> cmd[9..12] == covered[9..12] && cmd[7..10] == covered[7..10];
    assert |covered| >= 9 ==> cmd[5..9] == covered[5..9];
  }

  lemma FrameParsed(covered: seq<Octet>, prices: map<int, int>, pumpId: int)
    requires |covered| >= 12 || (|covered| >= 7 && covered[4] == 0x81) || (|covered| >= 9 && covered[4] == 0xa0)
    ensures Passes(Shelf, Frame(Shelf, covered))
    ensures Parsed(Frame(Shelf, covered), prices, pumpId) == Parsed(covered, prices, pumpId)
  {
    FramePasses(Shelf, covered);
    FrameAppends(covered);
    ParsedAppended(covered, [LowCheck(Shelf, covered), HighCheck(Shelf, covered)], prices, pumpId);
  }

  lemma StatusBits()
    ensures forall k: nat :: 1 <= k < 7 ==> !Bit(0x01, k)
    ensures Bit(0x21, 0) && Bit(0x8f, 0)
    ensures Bit(0x20, 5) && forall k: nat :: k < 5 ==> !Bit(0x20, k)
  {
    forall k: nat | 1 <= k ensures !Bit(0x01, k) { OneBit(0, k); }
    forall k: nat ensures Bit(0x20, k) <==> k == 5 {
      assert Pow2(5) == 0x20;
      OneBit(5, k);
    }
  }

  /** The idle reply is understood as idle. */
  lemma IdleReplyParsed(addr: Octet, packetId: Octet, prices: map<int, int>, pumpId: int)
    ensures var frame := Frame(Shelf, [0x2d, addr, packetId, 0x09, 0x81, 0x01, 0x20]);
            Passes(Shelf, frame) && Parsed(frame, prices, pumpId) == Success(State(pumpId, 0, HANGED_FREE))
  {
    FrameParsed([0x2d, addr, packetId, 0x09, 0x81, 0x01, 0x20], prices, pumpId);
    StatusBits();
    LowestIsNone(0x01, 1, 7);
    LowestIs(0x20, 0, 7, 5);
  }

  lemma SmallPower(n: nat)
    requires n < 8
    ensures Squeeze(Pow2(n)) == Pow2(n) && Squeeze(1 + Pow2(n)) == 1 + Pow2(n)
  {
    PowerGrows(n, 7);
    assert Pow2(7) == 128;
  }

  lemma {:induction false} PowerGrows(n: nat, m: nat)
    requires n <= m
    ensures Pow2(n) <= Pow2(m)
    decreases m
  {
    if n < m {
      PowerGrows(n, m - 1);
    }
  }

  lemma {:induction false} ZeroBits(k: nat)
    ensures !Bit(0, k)
    decreases k
  {
    if k > 0 {
      ZeroBits(k - 1);
    }
  }

  lemma {:induction false} OneBit(n: nat, k: nat)
    ensures Bit(Pow2(n), k) <==> k == n
    decreases n
  {
    if k > 0 {
      if n == 0 {
        ZeroBits(k - 1);
      } else {
        OneBit(n - 1, k - 1);
      }
    }
  }

  lemma NozzleBits(n: nat, k: nat)
    requires n < 8
    ensures Bit(Squeeze(Pow2(n)), k) <==> k == n
    ensures k > 0 ==> (Bit(RemovedByte(n), k) <==> k == n)
  {
    SmallPower(n);
    OneBit(n, k);
    if k > 0 {
      if n == 0 {
        ZeroBits(k - 1);
      } else {
        OneBit(n - 1, k - 1);
      }
    }
  }

  /** The nozzle byte of a removed nozzle is read as that nozzle if and only if it has a
      bit among the nozzle bits; so is that of an amount. */
  lemma NozzleReadIff(n: nat, from: nat, to: nat)
    requires from == 1 && to == 7
    ensures LowestSet(RemovedByte(n), from, to) == n <==> n <= 6
    ensures LowestSet(Squeeze(Pow2(n)), from, to) == n <==> n <= 6
  {
    if 1 <= n < 7 {
      forall k: nat ensures Bit(Squeeze(Pow2(n)), k) <==> k == n { NozzleBits(n, k); }
      forall k: nat | k > 0 ensures Bit(RemovedByte(n), k) <==> k == n { NozzleBits(n, k); }
      LowestIs(RemovedByte(n), from, to, n);
      LowestIs(Squeeze(Pow2(n)), from, to, n);
    } else if n == 0 || n == 7 {
      forall k: nat | from <= k < to ensures !Bit(Squeeze(Pow2(n)), k) && !Bit(RemovedByte(n), k) { NozzleBits(n, k); }
      LowestIsNone(RemovedByte(n), from, to);
      LowestIsNone(Squeeze(Pow2(n)), from, to);
    }
  }

  /** A removed nozzle is reported as waiting, and as itself if and only if it is at most 6. */
  lemma RemovedReplyParsed(addr: Octet, packetId: Octet, n: nat, prices: map<int, int>, pumpId: int)
    ensures var frame := Frame(Shelf, [0x2d, addr, packetId, 0x09, 0x81, RemovedByte(n), 0x21]);
            var reply := Parsed(frame, prices, pumpId);
            && Passes(Shelf, frame)
            && reply.Success? && reply.value.State? && reply.value.id == pumpId && reply.value.state == REMOVED_WAITING
            && (reply.value.nozzle == n <==> n <= 6)
  {
    FrameParsed([0x2d, addr, packetId, 0x09, 0x81, RemovedByte(n), 0x21], prices, pumpId);
    StatusBits();
    LowestIs(0x21, 0, 7, 0);
    NozzleReadIff(n, 1, 7);
  }

  lemma AmountFields(start: seq<Octet>, volume: seq<Octet>, prices: map<int, int>, pumpId: int)
    requires |start| == 9 && |volume| == 3 && start[4] == 0x84
    ensures var nozzle := LowestSet(start[5], 1, 7);
            Parsed(start + volume, prices, pumpId)
            == Success(Amount(pumpId, nozzle, FromLittle(volume) * 10, PriceFor(prices, start[1] as int, nozzle), TrkState(start[6])))
  {
    assert (start + volume)[9..12] == volume;
  }

  lemma TenthFitsIff(volume: int)
    ensures FromLittle(Little(TruncDiv(volume, 10), VOLUME_BYTES)) * 10 == TruncDiv(volume, 10) * 10
       <==> 0 <= TruncDiv(volume, 10) < 0x100_0000
  {
    FitsIff(TruncDiv(volume, 10), VOLUME_BYTES);
    Widths();
  }

  lemma AmountParsed(addr: Octet, packetId: Octet, nozzle: nat, volume: int, prices: map<int, int>, pumpId: int)
    ensures Parsed(AmountCovered(addr, packetId, nozzle, volume), prices, pumpId)
         == Success(Amount(pumpId, LowestSet(Squeeze(Pow2(nozzle)), 1, 7),
                           FromLittle(Little(TruncDiv(volume, 10), VOLUME_BYTES)) * 10,
                           PriceFor(prices, addr as int, LowestSet(Squeeze(Pow2(nozzle)), 1, 7)), REMOVED_WAITING))
  {
    AmountFields([0x2d, addr, packetId, 0x0e, 0x84, Squeeze(Pow2(nozzle)), 0x8f, 0x02, addr],
                 Little(TruncDiv(volume, 10), VOLUME_BYTES), prices, pumpId);
    StatusBits();
    LowestIs(0x8f, 0, 7, 0);
  }

  /** An amount reply gives back the nozzle and the volume exactly when they fit, at the
      price stored for its address byte. */
  lemma AmountReplyParsed(addr: Octet, packetId: Octet, nozzle: nat, volume: int, prices: map<int, int>, pumpId: int)
    ensures var frame := Frame(Shelf, AmountCovered(addr, packetId, nozzle, volume));
            var reply := Parsed(frame, prices, pumpId);
            && Passes(Shelf, frame)
            && reply.Success? && reply.value.Amount? && reply.value.id == pumpId && reply.value.state == REMOVED_WAITING
            && (reply.value.nozzle == nozzle <==> nozzle <= 6)
            && (reply.value.volume == TruncDiv(volume, 10) * 10 <==> 0 <= TruncDiv(volume, 10) < 0x100_0000)
            && (addr as int in prices ==> reply.value.price == prices[addr as int])
  {
    FrameParsed(AmountCovered(addr, packetId, nozzle, volume), prices, pumpId);
    AmountParsed(addr, packetId, nozzle, volume, prices, pumpId);
    NozzleReadIff(nozzle, 1, 7);
    TenthFitsIff(volume);
  }

  lemma TotalFields(start: seq<Octet>, volume: seq<Octet>)
    requires |start| == 5 && |volume| == 4
    ensures var cmd := start + volume;
            |cmd| == 9 && cmd[5..9] == volume && cmd[4] == start[4]
  {
  }

  /** A total of either sign survives, rounded towards zero to a multiple of ten, if and
      only if it fits an int. */
  lemma TotalReplyParsed(addr: Octet, packetId: Octet, volume: int, prices: map<int, int>, pumpId: int)
    ensures var frame := Frame(Shelf, TotalCovered(addr, packetId, volume));
            var reply := Parsed(frame, prices, pumpId);
            && Passes(Shelf, frame)
            && reply.Success? && reply.value.Totals? && reply.value.id == pumpId
            && (reply.value.volume == TruncDiv(volume, 10) * 10 <==> -0x8000_0000 <= volume < 0x8000_0000)
  {
    FrameParsed(TotalCovered(addr, packetId, volume), prices, pumpId);
    TotalFields([0x2d, addr, packetId, 0x0b, 0xa0], Little(TruncDiv(Int32(volume), 10), TOTAL_BYTES));
    WrappedQuotient(volume, 10);
    FitsSignedIff(TruncDiv(Int32(volume), 10), TOTAL_BYTES - 1);
    Widths();
  }

  lemma DoneFields(start: seq<Octet>, volume: seq<Octet>, sum: seq<Octet>, price: seq<Octet>, prices: map<int, int>, pumpId: int)
    requires |start| == 7 && |volume| == 3 && |sum| == 3 && |price| == 2 && start[4] == 0x93
    ensures var reply := Parsed(start + volume + sum + price, prices, pumpId);
            && reply.Success? && reply.value.Amount? && reply.value.state == SUPPLY_DONE
            && reply.value.volume == FromLittle([volume[2], sum[0], sum[1]]) * 10
  {
    assert (start + volume + sum + price)[9..12] == [volume[2], sum[0], sum[1]];
  }

  lemma ThreeBytes(v: int)
    ensures Little(v, VOLUME_BYTES) == [Squeeze(v), Squeeze(v / 256), Squeeze(v / 256 / 256)]
  {
    LittleCons(v, 3);
    LittleCons(v / 256, 2);
    LittleCons(v / 256 / 256, 1);
  }

  /** In a supply-done reply the master looks for the volume two bytes further on, and so
      takes it from the top byte of the volume and the low bytes of the sum. */
  lemma DoneReplyRead(addr: Octet, packetId: Octet, volume: int, sum: int, price: int, prices: map<int, int>, pumpId: int)
    ensures var reply := Parsed(Frame(Shelf, DoneCovered(addr, packetId, volume, sum, price)), prices, pumpId);
            var tenth := TruncDiv(volume, 10);
            && reply.Success? && reply.value.Amount? && reply.value.state == SUPPLY_DONE
            && reply.value.volume == FromLittle([Squeeze(tenth / 256 / 256), Squeeze(sum), Squeeze(sum / 256)]) * 10
  {
    var tenth := TruncDiv(volume, 10);
    FrameParsed(DoneCovered(addr, packetId, volume, sum, price), prices, pumpId);
    DoneFields([0x2d, addr, packetId, 0x11, 0x93, 0x01, 0x81], Little(tenth, VOLUME_BYTES), Little(sum, VOLUME_BYTES),
               Little(price, PRICE_BYTES), prices, pumpId);
    ThreeBytes(tenth);
    ThreeBytes(sum);
  }

  lemma ThreeRead(a: Octet, b: Octet, c: Octet)
    ensures FromLittle([a, b, c]) == (a as int) + 256 * ((b as int) + 256 * (c as int))
  {
    assert [a, b, c][1..] == [b, c] && [b, c][1..] == [c];
    assert FromLittle([c]) == c as int;
    assert FromLittle([b, c]) == (b as int) + 256 * (c as int);
  }

  lemma TwoLowBytes(n: int)
    ensures (Squeeze(n) as int) + 256 * (Squeeze(n / 256) as int) == n % 65536
  {
  }

  lemma TopByteFirst(tenth: int, top: Octet, low: int)
    requires top as int == tenth / 65536 % 256 && 0 <= low < 65536
    ensures (top as int) + 256 * low == tenth
       <==> 0 <= tenth < 0x100_0000 && tenth % 256 == tenth / 65536 && low == tenth / 256
  {
  }

  /** So a supply-done reply gives the volume back, rounded towards zero to a multiple of
      ten, if and only if a tenth of it fits, its lowest and highest bytes agree, and the two
      low bytes of the sum happen to be its two high bytes. */
  lemma DoneReplyIff(addr: Octet, packetId: Octet, volume: int, sum: int, price: int, prices: map<int, int>, pumpId: int)
    ensures var reply := Parsed(Frame(Shelf, DoneCovered(addr, packetId, volume, sum, price)), prices, pumpId);
            var tenth := TruncDiv(volume, 10);
            && reply.Success? && reply.value.Amount?
            && (reply.value.volume == tenth * 10
                <==> 0 <= tenth < 0x100_0000 && tenth % 256 == tenth / 65536 && sum % 65536 == tenth / 256)
  {
    var tenth := TruncDiv(volume, 10);
    DoneReplyRead(addr, packetId, volume, sum, price, prices, pumpId);
    ThreeRead(Squeeze(tenth / 256 / 256), Squeeze(sum), Squeeze(sum / 256));
    TwoLowBytes(sum);
    assert tenth / 256 / 256 == tenth / 65536;
    TopByteFirst(tenth, Squeeze(tenth / 256 / 256), sum % 65536);
  }

  /** Ten litres at any price and sum are already misread. */
  lemma TenLitresMisread(sum: int, price: int)
    ensures var reply := Parsed(Frame(Shelf, DoneCovered(15, 0, 10000, sum, price)), map[], 1);
            reply.Success? && reply.value.Amount? && reply.value.volume != 10000
  {
    DoneReplyIff(15, 0, 10000, sum, price, map[], 1);
  }

  /** Ten thousand litres at a stored price of 300: the wire carries the volume, the master
      reads it, and the sum it computes from it has wrapped. */
  method AmountOverflows(master: ProtocolMasterShelf, addr: Octet, packetId: Octet, pumpId: int)
    returns (reply: Result<Reply, Thrown>, sum: int)
    requires addr as int in master.currentPrices && master.currentPrices[addr as int] == 300
    ensures reply.Success? && reply.value.Amount?
    ensures reply.value.volume == 10_000_000 && reply.value.price == 300 && sum == -1_294_967
  {
    AmountReplyParsed(addr, packetId, 1, 10_000_000, master.currentPrices, pumpId);
    WrappedSum();
    reply, sum := master.ParseResponse(Frame(Shelf, AmountCovered(addr, packetId, 1, 10_000_000)), pumpId);
  }

  lemma WrappedSum()
    ensures SumOf(10_000_000 * 300) == -1_294_967
  {
  }

  // ----- a session

  lemma RequestStarts(addr: int, index: Octet, volume: int, price: int)
    ensures var request := Frame(Shelf, RunCovered(addr, index, volume, price));
            |request| == 14 && request[1] == Squeeze(addr) && request[2] == index
  {
    FrameAppends(RunCovered(addr, index, volume, price));
  }

  lemma ReplyStarts(addr: Octet, packetId: Octet, nozzle: nat, volume: int)
    ensures var reply := Frame(Shelf, AmountCovered(addr, packetId, nozzle, volume));
            |reply| == 14 && reply[1] == addr && reply[2] == packetId
  {
    FrameAppends(AmountCovered(addr, packetId, nozzle, volume));
  }

  lemma ReplyPrice(addr: Octet, packetId: Octet, nozzle: nat, volume: int, prices: map<int, int>, pumpId: int)
    ensures var reply := Parsed(Frame(Shelf, AmountCovered(addr, packetId, nozzle, volume)), prices, pumpId);
            && reply.Success? && reply.value.Amount? && 0 <= reply.value.nozzle < 7
            && reply.value.price == PriceFor(prices, addr as int, reply.value.nozzle)
  {
    FrameParsed(AmountCovered(addr, packetId, nozzle, volume), prices, pumpId);
    AmountParsed(addr, packetId, nozzle, volume, prices, pumpId);
  }

  lemma PriceOfByte(prices: map<int, int>, addr: int, price: int, nozzle: int)
    requires 0 <= nozzle < 7
    ensures 0 <= addr < 256 ==> PriceFor(prices[addr := price], Squeeze(addr) as int, nozzle) == price
    ensures !(0 <= addr < 256) ==> PriceFor(map[addr := price], Squeeze(addr) as int, nozzle) == 0
  {
  }

  /** The master authorizes a price, and the slave answers the request with an amount: the
      reply carries the request's address byte and number, and the master reads the price it
      authorized if its address fits a byte. A master that has authorized nothing else reads
      it exactly then, or if it is zero. */
  method AuthorizeAndReport(master: ProtocolMasterShelf, slave: ProtocolSlaveShelf, addr: int, volume: int, price: int,
                            nozzle: nat, delivered: int, pumpId: int)
    returns (request: seq<Octet>, reply: seq<Octet>, seen: Result<Reply, Thrown>)
    modifies master, slave
    ensures |request| == 14 && |reply| == 14 && reply[1] == request[1] && reply[2] == request[2]
    ensures seen.Success? && seen.value.Amount?
    ensures 0 <= addr < 256 ==> seen.value.price == price
    ensures old(master.currentPrices) == map[] ==> (seen.value.price == price <==> 0 <= addr < 256 || price == 0)
  {
    ghost var before, index := master.currentPrices, NextIndex(master.packetIndexCounter, Squeeze(addr));
    request := master.RunCommand(addr, volume, price);
    RequestStarts(addr, index, volume, price);
    var _ := slave.ParseCmd(request);
    reply := slave.ResponseAmountInfo(nozzle, delivered);
    ReplyStarts(Squeeze(addr), index, nozzle, delivered);
    seen := Read(master, reply, pumpId);
    ReplyPrice(Squeeze(addr), index, nozzle, delivered, master.currentPrices, pumpId);
    PriceOfByte(before, addr, price, seen.value.nozzle);
  }

  method Read(master: ProtocolMasterShelf, reply: seq<Octet>, pumpId: int) returns (seen: Result<Reply, Thrown>)
    ensures seen == Parsed(reply, master.currentPrices, pumpId)
  {
    var sum;
    seen, sum := master.ParseResponse(reply, pumpId);
  }
}
