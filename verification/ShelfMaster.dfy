/** The Shelf master: requests with their per-address counters, and what it makes of the
    replies. */
module ShelfMaster {
  import opened Bytes
  import opened Crc
  import opened Frames
  import opened LinearCode
  import opened LittleEndian
  import opened States
  import opened Wrappers

  const VOLUME_BYTES: nat := 3
  const PRICE_BYTES: nat := 2
  const TOTAL_BYTES: nat := 4

  datatype Thrown = OutOfRange | NullPointer

  datatype Reply =
    | State(id: int, nozzle: int, state: StateType)
    | Amount(id: int, nozzle: int, volume: int, price: int, state: StateType)
    | Totals(id: int, nozzle: int, volume: int)
    | Dose(id: int, volume: int, state: StateType)

  /** Byte 3 is the length of the whole packet. */
  predicate Sized(packet: seq<Octet>) {
    |packet| >= 7 && packet[3] as int == |packet|
  }

  /** Checksum and append it; `count` is the literal each builder passes. */
  method Finish(req: seq<Octet>, count: nat) returns (packet: seq<Octet>)
    requires count == |req| >= 5 && req[3] as int == count + 2
    ensures packet == Frame(Shelf, req) && Sized(packet)
  {
    var low, high := ShelfSum(req);
    packet := Assemble([], req, low, high, []);
    assert packet[3] == req[3];
  }

  class ProtocolMasterShelf {
    var currentPrices: map<int, int>
    var packetIndexCounter: map<Octet, Octet>

    constructor ()
      ensures currentPrices == map[] && packetIndexCounter == map[]
    {
      currentPrices, packetIndexCounter := map[], map[];
    }

    method GetCounterRequest(address: Octet) returns (index: Octet)
      modifies this
      ensures index == NextIndex(old(packetIndexCounter), address)
      ensures packetIndexCounter == old(packetIndexCounter)[address := index] && currentPrices == old(currentPrices)
    {
      if address in packetIndexCounter {
        var indexOnAddress := packetIndexCounter[address];
        if indexOnAddress == 0xff {
          packetIndexCounter := packetIndexCounter[address := 0];
          return 0;
        } else {
          packetIndexCounter := packetIndexCounter[address := indexOnAddress + 1];
          return indexOnAddress + 1;
        }
      } else {
        packetIndexCounter := packetIndexCounter[address := 0];
        return 0;
      }
    }

    method Poll(addr: int, code: Octet) returns (packet: seq<Octet>)
      modifies this
      ensures packet == Frame(Shelf, [0x2d, Squeeze(addr), NextIndex(old(packetIndexCounter), Squeeze(addr)), 0x07, code]) && Sized(packet)
      ensures packetIndexCounter == Counted(old(packetIndexCounter), Squeeze(addr)) && currentPrices == old(currentPrices)
    {
      var index := GetCounterRequest(Squeeze(addr));
      packet := Finish([0x2d, Squeeze(addr), index, 0x07, code], 5);
    }

    method StatusRequest(addr: int) returns (packet: seq<Octet>)
      modifies this
      ensures packet == Frame(Shelf, [0x2d, Squeeze(addr), NextIndex(old(packetIndexCounter), Squeeze(addr)), 0x07, 0x01]) && Sized(packet)
      ensures packetIndexCounter == Counted(old(packetIndexCounter), Squeeze(addr)) && currentPrices == old(currentPrices)
    {
      packet := Poll(addr, 0x01);
    }

    method StopCommand(addr: int) returns (packet: seq<Octet>)
      modifies this
      ensures packet == Frame(Shelf, [0x2d, Squeeze(addr), NextIndex(old(packetIndexCounter), Squeeze(addr)), 0x07, 0x0c]) && Sized(packet)
      ensures packetIndexCounter == Counted(old(packetIndexCounter), Squeeze(addr)) && currentPrices == old(currentPrices)
    {
      packet := Poll(addr, 0x0c);
    }

    method TotalCommand(addr: int) returns (packet: seq<Octet>)
      modifies this
      ensures packet == Frame(Shelf, [0x2d, Squeeze(addr), NextIndex(old(packetIndexCounter), Squeeze(addr)), 0x07, 0x15]) && Sized(packet)
      ensures packetIndexCounter == Counted(old(packetIndexCounter), Squeeze(addr)) && currentPrices == old(currentPrices)
    {
      packet := Poll(addr, 0x15);
    }

    method SetPriceRequest(addr: int, price: int) returns (packet: seq<Octet>)
      modifies this
      ensures packet == Frame(Shelf, [0x2d, Squeeze(addr), NextIndex(old(packetIndexCounter), Squeeze(addr)), 0x09, 0x03] + Little(price, 2))
      ensures Sized(packet)
      ensures packetIndexCounter == Counted(old(packetIndexCounter), Squeeze(addr)) && currentPrices == old(currentPrices)
    {
      var index := GetCounterRequest(Squeeze(addr));
      packet := Finish([0x2d, Squeeze(addr), index, 0x09, 0x03] + Little(price, PRICE_BYTES), 7);
    }

    method RunCommand(addr: int, volume: int, price: int) returns (packet: seq<Octet>)
      modifies this
      ensures packet == Frame(Shelf, [0x2d, Squeeze(addr), NextIndex(old(packetIndexCounter), Squeeze(addr)), 0x0e, 0x05, 0x00, 0x00]
                                     + Little(TruncDiv(volume, 10), 3) + Little(price, 2))
      ensures packet == Frame(Shelf, RunCovered(addr, NextIndex(old(packetIndexCounter), Squeeze(addr)), volume, price)) && Sized(packet)
      ensures packetIndexCounter == Counted(old(packetIndexCounter), Squeeze(addr))
      ensures currentPrices == old(currentPrices)[addr := price]
    {
      currentPrices := currentPrices[addr := price];
      var index := GetCounterRequest(Squeeze(addr));
      packet := Finish([0x2d, Squeeze(addr), index, 0x0e, 0x05, 0x00, 0x00]
                       + Little(TruncDiv(volume, 10), VOLUME_BYTES) + Little(price, PRICE_BYTES), 12);
    }

    static method ResolveActiveNozzle(nozzleStateByte: Octet) returns (activeNozzle: nat)
      ensures activeNozzle == LowestSet(nozzleStateByte, 1, 7)
    {
      activeNozzle := 0;
      for nozzleIndex := 1 to 7
        invariant activeNozzle == 0
        invariant forall k :: 1 <= k < nozzleIndex ==> !Bit(nozzleStateByte, k)
      {
        if Bit(nozzleStateByte, nozzleIndex) {
          LowestIs(nozzleStateByte, 1, 7, nozzleIndex);
          return nozzleIndex;
        }
      }
      LowestIsNone(nozzleStateByte, 1, 7);
    }

    static method ResolveTrkState(trkStateByte: Octet) returns (state: StateType)
      ensures state == TrkState(trkStateByte)
    {
      var activeByte: nat := 0;
      var trkIndex: nat := 0;
      while trkIndex < 7
        invariant trkIndex <= 7 && activeByte == 0
        invariant forall k :: 0 <= k < trkIndex ==> !Bit(trkStateByte, k)
      {
        if Bit(trkStateByte, trkIndex) {
          LowestIs(trkStateByte, 0, 7, trkIndex);
          activeByte := trkIndex;
          break;
        }
        trkIndex := trkIndex + 1;
      }
      if trkIndex == 7 {
        LowestIsNone(trkStateByte, 0, 7);
      }
      match activeByte {
        case 0 | 6 => state := REMOVED_WAITING;
        case 5 => state := HANGED_FREE;
        case _ => state := FUEL_SUPPLY;
      }
    }

    /** Replies 0x84, 0x92 and 0x93: the bytes are read alike. */
    method ResolveAmount(cmd: seq<Octet>, pumpId: int, state: StateType) returns (reply: Result<Reply, Thrown>)
      ensures reply == AmountOf(cmd, currentPrices, pumpId, state)
    {
      if |cmd| < 12 {
        return Failure(OutOfRange);
      }
      var addr, price := cmd[1] as int, 0;
      var activeNozzle := ResolveActiveNozzle(cmd[5]);
      if addr in currentPrices {
        price := currentPrices[addr];
      } else if addr + activeNozzle in currentPrices {
        price := currentPrices[addr + activeNozzle];
      }
      var volume := FromLittle(cmd[9..12]) * 10;
      reply := Success(Amount(pumpId, activeNozzle, volume, price, state));
    }

    /** Unknown and undone replies leave a null pointer behind. The volume counter 0x92
        falls through to 0x93. */
    method ParseResponse(cmd: seq<Octet>, pumpId: int) returns (reply: Result<Reply, Thrown>, sum: int)
      ensures reply == Parsed(cmd, currentPrices, pumpId)
      ensures reply.Success? && reply.value.Amount? ==>
        sum == TruncDiv(Int32(reply.value.volume * reply.value.price), 1000)
    {
      reply := Resolve(cmd, pumpId);
      sum := if reply.Success? && reply.value.Amount? then SumOf(reply.value.volume * reply.value.price) else 0;
    }

    method Resolve(cmd: seq<Octet>, pumpId: int) returns (reply: Result<Reply, Thrown>)
      ensures reply == Parsed(cmd, currentPrices, pumpId)
    {
      if |cmd| < 5 {
        return Failure(OutOfRange);
      }
      match cmd[4] {
        case 0x81 =>
          if |cmd| < 7 {
            return Failure(OutOfRange);
          }
          var nozzle := ResolveActiveNozzle(cmd[5]);
          var state := ResolveTrkState(cmd[6]);
          reply := Success(State(pumpId, nozzle, state));
        case 0x82 =>
          reply := if |cmd| < 10 then Failure(OutOfRange)
                   else Success(Dose(pumpId, FromLittle(cmd[7..10]), REMOVED_MANUAL_DOSING));
        case 0x83 =>
          reply := if |cmd| < 10 then Failure(OutOfRange)
                   else Success(Dose(pumpId, FromLittle(cmd[7..10]), AUTHORIZE_REGISTERED));
        case 0x84 =>
          if |cmd| < 7 {
            return Failure(OutOfRange);
          }
          var state := ResolveTrkState(cmd[6]);
          reply := ResolveAmount(cmd, pumpId, state);
        case 0x92 | 0x93 =>
          reply := ResolveAmount(cmd, pumpId, SUPPLY_DONE);
        case 0xa0 =>
          if |cmd| < 9 {
            return Failure(OutOfRange);
          }
          var nozzle := ResolveActiveNozzle(cmd[5]);
          reply := Success(Totals(pumpId, nozzle, FromLittleSigned(cmd[5..9]) * 10));
        case _ =>
          reply := Failure(NullPointer);
      }
    }
  }

  // ----- requests

  function NextIndex(counters: map<Octet, Octet>, address: Octet): Octet {
    if address !in counters || counters[address] == 0xff then 0 else (counters[address] as int) + 1
  }

  function Counted(counters: map<Octet, Octet>, address: Octet): map<Octet, Octet> {
    counters[address := NextIndex(counters, address)]
  }

  function RunCovered(addr: int, index: Octet, volume: int, price: int): seq<Octet> {
    [0x2d, Squeeze(addr), index, 0x0e, 0x05, 0x00, 0x00]
    + Little(TruncDiv(volume, 10), VOLUME_BYTES) + Little(price, PRICE_BYTES)
  }

  /** The counters after requests to a sequence of addresses. */
  function AfterRequests(addrs: seq<int>): map<Octet, Octet> {
    if addrs == [] then map[]
    else Counted(AfterRequests(addrs[..|addrs| - 1]), Squeeze(addrs[|addrs| - 1]))
  }

  function RequestsTo(addrs: seq<int>, address: Octet): nat {
    if addrs == [] then 0
    else RequestsTo(addrs[..|addrs| - 1], address) + (if Squeeze(addrs[|addrs| - 1]) == address then 1 else 0)
  }

  /** However requests to different addresses interleave, the next packet to an address
      carries the number of packets sent to it so far, modulo 256. Addresses that share
      their low byte share the count. */
  lemma {:induction false} IndexCountsRequests(addrs: seq<int>, address: Octet)
    ensures NextIndex(AfterRequests(addrs), address) == RequestsTo(addrs, address) % 256
    ensures address in AfterRequests(addrs) <==> RequestsTo(addrs, address) > 0
  {
    if addrs != [] {
      IndexCountsRequests(addrs[..|addrs| - 1], address);
    }
  }

  // ----- replies

  function Pow2(n: nat): (p: int)
    ensures p > 0
  {
    if n == 0 then 1 else 2 * Pow2(n - 1)
  }

  /** `(v >> k) & 1` */
  predicate Bit(v: nat, k: nat)
    decreases k
  {
    if k == 0 then v % 2 == 1 else Bit(v / 2, k - 1)
  }

  ghost predicate ClearFrom(b: nat, from: nat, to: nat) { forall k: nat :: from <= k < to ==> !Bit(b, k) }

  ghost predicate IsLowest(byte: Octet, from: nat, to: nat, r: nat) {
    from <= r < to && Bit(byte, r) && ClearFrom(byte, from, r)
  }

  /** The lowest bit set in from..to, or 0 if there is none. */
  ghost function LowestSet(byte: Octet, from: nat, to: nat): nat {
    if exists r :: IsLowest(byte, from, to, r) then (var r: nat :| IsLowest(byte, from, to, r); r) else 0
  }

  lemma LowestIs(byte: Octet, from: nat, to: nat, r: nat)
    requires IsLowest(byte, from, to, r)
    ensures LowestSet(byte, from, to) == r
  {
  }

  lemma LowestIsNone(byte: Octet, from: nat, to: nat)
    requires ClearFrom(byte, from, to)
    ensures LowestSet(byte, from, to) == 0
  {
  }

  ghost function TrkState(byte: Octet): StateType {
    match LowestSet(byte, 0, 7)
    case 0 => REMOVED_WAITING
    case 5 => HANGED_FREE
    case 6 => REMOVED_WAITING
    case _ => FUEL_SUPPLY
  }

  /** The sum of an amount, computed in an int. The source's overflow is taken to wrap. */
  function SumOf(product: int): int { TruncDiv(Int32(product), 1000) }

  /** The sum is a thousandth of volume times price if and only if the product fits an int. */
  lemma SumExactIff(volume: int, price: int)
    ensures SumOf(volume * price) == TruncDiv(volume * price, 1000) <==> -0x8000_0000 <= volume * price < 0x8000_0000
  {
    WrappedQuotient(volume * price, 1000);
  }

  function PriceFor(prices: map<int, int>, addr: int, nozzle: int): int {
    if addr in prices then prices[addr]
    else if addr + nozzle in prices then prices[addr + nozzle]
    else 0
  }

  ghost function AmountOf(cmd: seq<Octet>, prices: map<int, int>, pumpId: int, state: StateType): Result<Reply, Thrown> {
    if |cmd| < 12 then Failure(OutOfRange)
    else
      var nozzle, volume := LowestSet(cmd[5], 1, 7), FromLittle(cmd[9..12]) * 10;
      var price := PriceFor(prices, cmd[1] as int, nozzle);
      Success(Amount(pumpId, nozzle, volume, price, state))
  }

  ghost function Parsed(cmd: seq<Octet>, prices: map<int, int>, pumpId: int): Result<Reply, Thrown> {
    if |cmd| < 5 then Failure(OutOfRange)
    else match cmd[4]
      case 0x81 =>
        if |cmd| < 7 then Failure(OutOfRange)
        else Success(State(pumpId, LowestSet(cmd[5], 1, 7), TrkState(cmd[6])))
      case 0x82 =>
        if |cmd| < 10 then Failure(OutOfRange)
        else Success(Dose(pumpId, FromLittle(cmd[7..10]), REMOVED_MANUAL_DOSING))
      case 0x83 =>
        if |cmd| < 10 then Failure(OutOfRange)
        else Success(Dose(pumpId, FromLittle(cmd[7..10]), AUTHORIZE_REGISTERED))
      case 0x84 => if |cmd| < 12 then Failure(OutOfRange) else AmountOf(cmd, prices, pumpId, TrkState(cmd[6]))
      case 0x92 => AmountOf(cmd, prices, pumpId, SUPPLY_DONE)
      case 0x93 => AmountOf(cmd, prices, pumpId, SUPPLY_DONE)
      case 0xa0 =>
        if |cmd| < 9 then Failure(OutOfRange)
        else Success(Totals(pumpId, LowestSet(cmd[5], 1, 7), FromLittleSigned(cmd[5..9]) * 10))
      case _ => Failure(NullPointer)
  }

  // ----- what the replies mean, byte by byte

  lemma Halve(v: nat, p: nat)
    requires p > 0
    ensures v % (2 * p) == 2 * (v / 2 % p) + v % 2
  {
    Division(v, 2);
    Division(v / 2, p);
    Doubled(p, v / 2 / p);
    Divides(v, 2 * p, v / 2 / p, 2 * (v / 2 % p) + v % 2);
  }

  lemma Doubled(p: int, q: int)
    ensures 2 * (p * q) == 2 * p * q
  {
  }

  ghost predicate Clear(v: nat, k: nat) { ClearFrom(v, 0, k) }

  lemma ClearShifted(v: nat, k: nat)
    ensures Clear(v, k + 1) <==> v % 2 == 0 && Clear(v / 2, k)
  {
    if Clear(v, k + 1) {
      assert !Bit(v, 0);
      forall j | 0 <= j < k ensures !Bit(v / 2, j) {
        assert !Bit(v, j + 1);
      }
    }
    if v % 2 == 0 && Clear(v / 2, k) {
      forall j | 0 <= j < k + 1 ensures !Bit(v, j) {
        assert j > 0 ==> !Bit(v / 2, j - 1);
      }
    }
  }

  /** The lowest bit of a number is bit `r` exactly if its remainder by the next power of
      two is the power itself. */
  lemma {:induction false} LowestByRemainder(v: nat, r: nat)
    ensures Bit(v, r) && Clear(v, r) <==> v % Pow2(r + 1) == Pow2(r)
    decreases r
  {
    Halve(v, Pow2(r));
    if r > 0 {
      ClearShifted(v, r - 1);
      LowestByRemainder(v / 2, r - 1);
    }
  }

  lemma {:induction false} ClearByRemainder(v: nat, k: nat)
    ensures Clear(v, k) <==> v % Pow2(k) == 0
    decreases k
  {
    if k > 0 {
      Halve(v, Pow2(k - 1));
      ClearShifted(v, k - 1);
      ClearByRemainder(v / 2, k - 1);
    }
  }

  lemma Coarser(b: nat, c: nat, m: nat)
    requires c > 0 && m > 0
    ensures c * m > 0 && b % (c * m) % m == b % m
  {
    var n := c * m;
    AtLeast(c, m);
    Division(b, n);
    Division(b % n, m);
    Factor(b, c, m, b / n, b % n / m);
    Divides(b, m, c * (b / n) + b % n / m, b % n % m);
  }

  lemma Factor(b: int, c: int, m: int, q: int, p: int)
    ensures c * m * q + m * p == m * (c * q + p)
  {
    assert m * (c * q + p) == m * (c * q) + m * p;
    assert m * (c * q) == c * m * q;
  }

  /** A lowest bit among the first seven, in terms of the remainder by 64. */
  lemma LowestWithin(b: Octet, r: nat)
    requires IsLowest(b, 0, 7, r)
    ensures r == 0 <==> b % 2 == 1
    ensures r == 5 <==> b % 64 == 32
    ensures b % 2 == 0 ==> (r == 6 <==> b % 64 == 0)
  {
    LowestByRemainder(b, r);
    Powers();
    Coarser(b, 32, 2);
    match r {
      case 0 =>
      case 1 => Coarser(b, 16, 4);
      case 2 => Coarser(b, 8, 8);
      case 3 => Coarser(b, 4, 16);
      case 4 => Coarser(b, 2, 32);
      case 5 =>
      case _ => Coarser(b, 2, 64);
    }
    Even(b % 64, r);
  }

  /** A remainder by 64 that is a power of two, or leaves one, decides the bit. */
  lemma Even(x: nat, r: nat)
    requires x < 64
    ensures r == 1 && x % 4 == 2 ==> x != 0 && x != 32 && x % 2 == 0
    ensures r == 2 && x % 8 == 4 ==> x != 0 && x != 32 && x % 2 == 0
    ensures r == 3 && x % 16 == 8 ==> x != 0 && x != 32 && x % 2 == 0
    ensures r == 4 && x % 32 == 16 ==> x != 0 && x != 32 && x % 2 == 0
    ensures x == 0 || x == 32 ==> x % 2 == 0
  {
  }

  lemma Powers()
    ensures Pow2(0) == 1 && Pow2(1) == 2 && Pow2(2) == 4 && Pow2(3) == 8 && Pow2(4) == 16 && Pow2(5) == 32 && Pow2(6) == 64
    ensures Pow2(7) == 128
  {
  }

  /** The state byte, by its remainder. */
  lemma StateMeans(b: Octet)
    ensures TrkState(b) == if b % 2 == 1 || b % 64 == 0 then REMOVED_WAITING
                           else if b % 64 == 32 then HANGED_FREE
                           else FUEL_SUPPLY
  {
    if r: nat :| IsLowest(b, 0, 7, r) {
      LowestIs(b, 0, 7, r);
      LowestWithin(b, r);
    } else {
      NoneLowest(b, 0, 7);
      LowestIsNone(b, 0, 7);
      assert Clear(b, 7);
      ClearByRemainder(b, 7);
      Powers();
      Coarser(b, 2, 64);
    }
  }

  lemma {:induction false} NoneLowest(b: Octet, from: nat, to: nat)
    requires forall r: nat :: !IsLowest(b, from, to, r)
    ensures ClearFrom(b, from, to)
  {
    if to > from {
      var below := to - 1;
      forall r: nat ensures !IsLowest(b, from, below, r) {
        assert !IsLowest(b, from, to, r);
      }
      NoneLowest(b, from, below);
      assert !IsLowest(b, from, to, below);
    }
  }

  lemma FromOne(b: nat, n: nat)
    requires n >= 1
    ensures ClearFrom(b, 1, n) <==> Clear(b / 2, n - 1)
  {
    if ClearFrom(b, 1, n) {
      forall j | 0 <= j < n - 1 ensures !Bit(b / 2, j) {
        assert !Bit(b, j + 1);
      }
    }
    if Clear(b / 2, n - 1) {
      forall k: nat | 1 <= k < n ensures !Bit(b, k) {
        assert !Bit(b / 2, k - 1);
      }
    }
  }

  lemma LowestFromOne(b: Octet, n: nat)
    requires 1 <= n < 7
    ensures IsLowest(b, 1, 7, n) <==> b / 2 % Pow2(n) == Pow2(n - 1)
  {
    LowestByRemainder(b / 2, n - 1);
    FromOne(b, n);
    assert Bit(b, n) <==> Bit(b / 2, n - 1);
  }

  lemma NozzleAt(b: Octet, n: nat)
    requires 1 <= n < 7
    ensures LowestSet(b, 1, 7) == n <==> b / 2 % Pow2(n) == Pow2(n - 1)
  {
    LowestFromOne(b, n);
    if IsLowest(b, 1, 7, n) {
      LowestIs(b, 1, 7, n);
    }
  }

  lemma NoNozzle(b: Octet)
    ensures LowestSet(b, 1, 7) == 0 <==> b / 2 % Pow2(6) == 0
  {
    FromOne(b, 7);
    ClearByRemainder(b / 2, 6);
    if Clear(b / 2, 6) {
      LowestIsNone(b, 1, 7);
    } else if r: nat :| IsLowest(b, 1, 7, r) {
      LowestIs(b, 1, 7, r);
    } else {
      NoneLowest(b, 1, 7);
    }
  }

  /** The nozzle byte, by the remainders of its half. */
  lemma NozzleMeans(b: Octet)
    ensures var nozzle, half := LowestSet(b, 1, 7), b / 2;
            && (nozzle == 0 <==> half % 64 == 0)
            && (nozzle == 1 <==> half % 2 == 1)
            && (nozzle == 2 <==> half % 4 == 2)
            && (nozzle == 3 <==> half % 8 == 4)
            && (nozzle == 4 <==> half % 16 == 8)
            && (nozzle == 5 <==> half % 32 == 16)
            && (nozzle == 6 <==> half % 64 == 32)
  {
    NoNozzle(b);
    forall n: nat | 1 <= n < 7 ensures LowestSet(b, 1, 7) == n <==> b / 2 % Pow2(n) == Pow2(n - 1) {
      NozzleAt(b, n);
    }
    Powers();
  }

  lemma ThreeBytesRead(cmd: seq<Octet>, at: nat)
    requires at + 3 <= |cmd|
    ensures FromLittle(cmd[at..at + 3]) == (cmd[at] as int) + 256 * (cmd[at + 1] as int) + 65536 * (cmd[at + 2] as int)
  {
    FromLittleNext(cmd, at, 3);
    FromLittleNext(cmd, at + 1, 2);
    FromLittleNext(cmd, at + 2, 1);
  }

  lemma FromLittleNext(cmd: seq<Octet>, at: nat, count: nat)
    requires count > 0 && at + count <= |cmd|
    ensures FromLittle(cmd[at..at + count]) == (cmd[at] as int) + 256 * FromLittle(cmd[at + 1..at + count])
  {
    assert cmd[at..at + count][1..] == cmd[at + 1..at + count];
  }

  lemma FourBytesRead(cmd: seq<Octet>)
    requires |cmd| >= 9
    ensures FromLittleSigned(cmd[5..9])
         == (cmd[5] as int) + 256 * (cmd[6] as int) + 65536 * (cmd[7] as int) + 0x100_0000 * (if cmd[8] < 128 then cmd[8] as int else (cmd[8] as int) - 256)
  {
    SignedNext(cmd, 5, 4);
    SignedNext(cmd, 6, 3);
    SignedNext(cmd, 7, 2);
  }

  lemma SignedNext(cmd: seq<Octet>, at: nat, count: nat)
    requires count > 1 && at + count <= |cmd|
    ensures FromLittleSigned(cmd[at..at + count]) == cmd[at] + 256 * FromLittleSigned(cmd[at + 1..at + count])
  {
    assert cmd[at..at + count][1..] == cmd[at + 1..at + count];
  }

  /** The state in a status or amount reply, whatever the byte. */
  lemma StateRead(cmd: seq<Octet>, prices: map<int, int>, pumpId: int)
    requires (|cmd| >= 7 && cmd[4] == 0x81) || (|cmd| >= 12 && cmd[4] == 0x84)
    ensures var reply := Parsed(cmd, prices, pumpId);
            && reply.Success? && (if cmd[4] == 0x81 then reply.value.State? else reply.value.Amount?) && reply.value.id == pumpId
            && reply.value.state == if cmd[6] % 2 == 1 || cmd[6] % 64 == 0 then REMOVED_WAITING
                                    else if cmd[6] % 64 == 32 then HANGED_FREE
                                    else FUEL_SUPPLY
  {
    StateMeans(cmd[6]);
  }

  /** The nozzle in every reply that tells one. */
  lemma NozzleRead(cmd: seq<Octet>, prices: map<int, int>, pumpId: int)
    requires |cmd| >= 12 || (|cmd| >= 7 && cmd[4] == 0x81) || (|cmd| >= 9 && cmd[4] == 0xa0)
    requires cmd[4] in {0x81, 0x84, 0x92, 0x93, 0xa0}
    ensures var reply := Parsed(cmd, prices, pumpId);
            && reply.Success? && !reply.value.Dose?
            && var nozzle, half := reply.value.nozzle, cmd[5] / 2;
            && (nozzle == 0 <==> half % 64 == 0)
            && (nozzle == 1 <==> half % 2 == 1)
            && (nozzle == 2 <==> half % 4 == 2)
            && (nozzle == 3 <==> half % 8 == 4)
            && (nozzle == 4 <==> half % 16 == 8)
            && (nozzle == 5 <==> half % 32 == 16)
            && (nozzle == 6 <==> half % 64 == 32)
  {
    NozzleMeans(cmd[5]);
  }

  /** What was delivered, in every amount reply, and at which of the two prices. */
  lemma AmountRead(cmd: seq<Octet>, prices: map<int, int>, pumpId: int)
    requires |cmd| >= 12 && cmd[4] in {0x84, 0x92, 0x93}
    ensures var reply := Parsed(cmd, prices, pumpId);
            && reply.Success? && reply.value.Amount? && reply.value.id == pumpId
            && reply.value.volume == 10 * ((cmd[9] as int) + 256 * (cmd[10] as int) + 65536 * (cmd[11] as int))
            && (cmd[4] != 0x84 ==> reply.value.state == SUPPLY_DONE)
            && var addr, nozzle := cmd[1] as int, reply.value.nozzle;
            && (addr in prices ==> reply.value.price == prices[addr])
            && (addr !in prices && addr + nozzle in prices ==> reply.value.price == prices[addr + nozzle])
            && (addr !in prices && addr + nozzle !in prices ==> reply.value.price == 0)
  {
    ThreeBytesRead(cmd, 9);
  }

  lemma DoseRead(cmd: seq<Octet>, prices: map<int, int>, pumpId: int)
    requires |cmd| >= 10 && (cmd[4] == 0x82 || cmd[4] == 0x83)
    ensures Parsed(cmd, prices, pumpId)
         == Success(Dose(pumpId, (cmd[7] as int) + 256 * (cmd[8] as int) + 65536 * (cmd[9] as int),
                         if cmd[4] == 0x82 then REMOVED_MANUAL_DOSING else AUTHORIZE_REGISTERED))
  {
    ThreeBytesRead(cmd, 7);
  }

  lemma TotalRead(cmd: seq<Octet>, prices: map<int, int>, pumpId: int)
    requires |cmd| >= 9 && cmd[4] == 0xa0
    ensures var reply := Parsed(cmd, prices, pumpId);
            && reply.Success? && reply.value.Totals? && reply.value.id == pumpId
            && reply.value.volume
               == 10 * ((cmd[5] as int) + 256 * (cmd[6] as int) + 65536 * (cmd[7] as int) + 0x100_0000 * (if cmd[8] < 128 then cmd[8] as int else (cmd[8] as int) - 256))
  {
    FourBytesRead(cmd);
  }

  /** Replies that are not read: too short for their code, or of another code. */
  lemma UnreadIff(cmd: seq<Octet>, prices: map<int, int>, pumpId: int)
    ensures var reply := Parsed(cmd, prices, pumpId);
            && (reply == Failure(OutOfRange)
                <==> || |cmd| < 5 || (cmd[4] == 0x81 && |cmd| < 7) || (cmd[4] == 0xa0 && |cmd| < 9)
                     || (cmd[4] in {0x82, 0x83} && |cmd| < 10) || (cmd[4] in {0x84, 0x92, 0x93} && |cmd| < 12))
            && (reply == Failure(NullPointer) <==> |cmd| >= 5 && cmd[4] !in {0x81, 0x82, 0x83, 0x84, 0x92, 0x93, 0xa0})
  {
  }
}
