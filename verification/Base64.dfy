/** Base64 text, section 4 of RFC 4648: the loops of encoder and decoder over packs of three
    bytes and four characters, round trips both ways, and exactly which texts are canonical.
    Shifts and masks on bytes are written as divisions and remainders. */
module Base64 {
  import opened Bytes

  type Sextet = n: int | 0 <= n < 64

  function Row(column: int, c0: char, c1: char, c2: char, c3: char, c4: char, c5: char, c6: char, c7: char): char {
    match column
    case 0 => c0 case 1 => c1 case 2 => c2 case 3 => c3
    case 4 => c4 case 5 => c5 case 6 => c6 case _ => c7
  }

  /** sEncodingTable[n] */
  function Symbol(n: Sextet): char {
    match n / 8
    case 0 => Row(n % 8, 'A', 'B', 'C', 'D', 'E', 'F', 'G', 'H')
    case 1 => Row(n % 8, 'I', 'J', 'K', 'L', 'M', 'N', 'O', 'P')
    case 2 => Row(n % 8, 'Q', 'R', 'S', 'T', 'U', 'V', 'W', 'X')
    case 3 => Row(n % 8, 'Y', 'Z', 'a', 'b', 'c', 'd', 'e', 'f')
    case 4 => Row(n % 8, 'g', 'h', 'i', 'j', 'k', 'l', 'm', 'n')
    case 5 => Row(n % 8, 'o', 'p', 'q', 'r', 's', 't', 'u', 'v')
    case 6 => Row(n % 8, 'w', 'x', 'y', 'z', '0', '1', '2', '3')
    case _ => Row(n % 8, '4', '5', '6', '7', '8', '9', '+', '/')
  }

  /** kDecodingTable[c]: 64 marks a character that is not in the alphabet. */
  function Decoding(c: char): int {
    if 'A' <= c <= 'Z' then c as int - 'A' as int
    else if 'a' <= c <= 'z' then c as int - 'a' as int + 26
    else if '0' <= c <= '9' then c as int - '0' as int + 52
    else if c == '+' then 62
    else if c == '/' then 63
    else 64
  }

  function ValueOf(c: char): nat { if c == '=' then 0 else Decoding(c) }

  lemma SymbolDecoded(n: Sextet)
    ensures ValueOf(Symbol(n)) == n && Symbol(n) != '=' && Symbol(n) as int < 128
  {
  }

  lemma DecodedSymbol(c: char)
    requires Decoding(c) < 64
    ensures 0 <= Decoding(c) && Symbol(Decoding(c)) == c
  {
  }

  /** The alphabet of the standard, in its order. */
  lemma SymbolIs(n: Sextet)
    ensures Symbol(n) as int == if n < 26 then 'A' as int + n
                                else if n < 52 then 'a' as int + (n - 26)
                                else if n < 62 then '0' as int + (n - 52)
                                else if n == 62 then '+' as int
                                else '/' as int
  {
  }

  lemma OutsideAlphabet(c: char)
    ensures Decoding(c) == 64 <==> forall n: Sextet :: Symbol(n) != c
  {
    if Decoding(c) < 64 {
      DecodedSymbol(c);
    }
    forall n: Sextet | Symbol(n) == c ensures Decoding(c) == n {
      SymbolDecoded(n);
    }
  }

  // ----- three bytes and four characters

  datatype Three = Three(a: Octet, b: Octet, c: Octet)

  datatype Four = Four(c0: char, c1: char, c2: char, c3: char)

  /** Three bytes as a 24-bit number. */
  function Join(t: Three): (v: nat)
    ensures v < 0x100_0000
  {
    (t.a as int) * 65536 + (t.b as int) * 256 + t.c
  }

  datatype Digits = Digits(p: Sextet, q: Sextet, r: Sextet, s: Sextet)

  /** The four six-bit digits of a 24-bit number. */
  function DigitsIn(v: nat): Digits
    requires v < 0x100_0000
  {
    Digits(v / 262144, v / 4096 % 64, v / 64 % 64, v % 64)
  }

  function Spelled(d: Digits): Four { Four(Symbol(d.p), Symbol(d.q), Symbol(d.r), Symbol(d.s)) }

  /** The standard's quantum: the digits of the number, as characters. */
  function Quantum(t: Three): Four { Spelled(DigitsIn(Join(t))) }

  /** The indices of the encoder's four table lookups. */
  function Indices(t: Three): Digits {
    var a, b, c := t.a as int, t.b as int, t.c as int;
    Digits(a / 4, a % 4 * 16 + b / 16, b % 16 * 4 + c / 64, c % 64)
  }

  function Lookups(t: Three): Four { Spelled(Indices(t)) }

  /** The decoder's sum; pads count as zero, and characters outside the alphabet as 64. */
  function Triple(q: Four): nat {
    ValueOf(q.c0) * 262144 + ValueOf(q.c1) * 4096 + ValueOf(q.c2) * 64 + ValueOf(q.c3)
  }

  function BytesOf(v: nat): Three { Three(v / 65536 % 256, v / 256 % 256, v % 256) }

  function Unpack(q: Four): Three { BytesOf(Triple(q)) }

  lemma DigitsOf(p: Sextet, q: Sextet, r: Sextet, s: Sextet)
    ensures var v := (p as int) * 262144 + (q as int) * 4096 + (r as int) * 64 + s;
            && v / 262144 == p as int && v / 4096 == (p as int) * 64 + q && v / 64 == (p as int) * 4096 + (q as int) * 64 + r
            && v % 64 == s as int
  {
  }

  lemma TwoDigits(p: int, q: Sextet)
    ensures (p * 64 + q) % 64 == q as int
  {
  }

  lemma Split(n: Octet, d: int)
    requires d == 4 || d == 16 || d == 64
    ensures (n as int) == (n as int) / d * d + (n as int) % d
    ensures 0 <= (n as int) / d < 256 / d && 0 <= (n as int) % d < d
  {
  }

  /** The source's sextets are the digits of the 24-bit number. */
  lemma SextetsOf(a: Octet, b: Octet, c: Octet)
    ensures var v := Join(Three(a, b, c));
            && v / 262144 == (a as int) / 4
            && v / 4096 % 64 == (a as int) % 4 * 16 + (b as int) / 16
            && v / 64 % 64 == (b as int) % 16 * 4 + (c as int) / 64
            && v % 64 == (c as int) % 64
  {
    Split(a, 4);
    Split(b, 16);
    Split(c, 64);
    var p, q: Sextet := (a as int) / 4, (a as int) % 4 * 16 + (b as int) / 16;
    var r, s: Sextet := (b as int) % 16 * 4 + (c as int) / 64, (c as int) % 64;
    JoinIsDigits(a, b, c, p, q, r, s);
    DigitsOf(p, q, r, s);
    TwoDigits(p, q);
    TwoDigits((p as int) * 64 + q, r);
  }

  lemma JoinIsDigits(a: Octet, b: Octet, c: Octet, p: Sextet, q: Sextet, r: Sextet, s: Sextet)
    requires p as int == (a as int) / 4 && q as int == (a as int) % 4 * 16 + (b as int) / 16
    requires r as int == (b as int) % 16 * 4 + (c as int) / 64 && s as int == (c as int) % 64
    ensures Join(Three(a, b, c)) == (p as int) * 262144 + (q as int) * 4096 + (r as int) * 64 + s
  {
  }

  lemma IndicesAreDigits(t: Three)
    ensures Indices(t) == DigitsIn(Join(t))
  {
    SextetsOf(t.a, t.b, t.c);
  }

  lemma LookupsAreDigits(t: Three)
    ensures Lookups(t) == Quantum(t)
  {
    IndicesAreDigits(t);
  }

  lemma JoinedAgain(v: nat)
    ensures v / 262144 * 262144 + v / 4096 % 64 * 4096 + v / 64 % 64 * 64 + v % 64 == v
  {
    var x, y := v / 64, v / 4096;
    assert y == x / 64 && v / 262144 == y / 64;
    assert v == x * 64 + v % 64;
    assert x == y * 64 + x % 64;
    assert y == y / 64 * 64 + y % 64;
  }

  lemma TripleOfSymbols(p: Sextet, q: Sextet, r: Sextet, s: Sextet)
    ensures Triple(Four(Symbol(p), Symbol(q), Symbol(r), Symbol(s)))
         == (p as int) * 262144 + (q as int) * 4096 + (r as int) * 64 + s
    ensures Triple(Four(Symbol(p), Symbol(q), Symbol(r), '='))
         == (p as int) * 262144 + (q as int) * 4096 + (r as int) * 64
    ensures Triple(Four(Symbol(p), Symbol(q), '=', '='))
         == (p as int) * 262144 + (q as int) * 4096
  {
    SymbolDecoded(p);
    SymbolDecoded(q);
    SymbolDecoded(r);
    SymbolDecoded(s);
  }

  lemma LowTwo(high: nat, low: Octet)
    ensures (high * 256 + low) / 256 == high && (high * 256 + low) % 256 == low as int
  {
  }

  lemma HighByteOf(a: Octet, b: Octet, c: Octet)
    ensures Join(Three(a, b, c)) / 65536 % 256 == a as int
  {
  }

  lemma JoinedBytes(t: Three)
    ensures BytesOf(Join(t)) == t
  {
    HighByteOf(t.a, t.b, t.c);
    LowTwo((t.a as int) * 256 + t.b, t.c);
    LowTwo(t.a as int, t.b);
    assert Join(t) == ((t.a as int) * 256 + t.b) * 256 + t.c;
  }

  lemma TripleOfQuantum(t: Three)
    ensures Triple(Quantum(t)) == Join(t)
  {
    var v := Join(t);
    TripleOfSymbols(v / 262144, v / 4096 % 64, v / 64 % 64, v % 64);
    JoinedAgain(v);
  }

  lemma QuantumUnpacked(t: Three)
    ensures Unpack(Quantum(t)) == t
  {
    TripleOfQuantum(t);
    JoinedBytes(t);
  }

  /** Replacing the symbols of absent bytes by pads does not change what is read. */
  lemma PaddedUnpacked(t: Three)
    ensures t.c == 0 ==> Unpack(Quantum(t).(c3 := '=')) == t
    ensures t.b == 0 && t.c == 0 ==> Unpack(Quantum(t).(c2 := '=', c3 := '=')) == t
  {
    JoinedBytes(t);
    if t.c == 0 {
      LastPadRead(t);
      if t.b == 0 {
        TwoPadsRead(t);
      }
    }
  }

  lemma LastPadRead(t: Three)
    requires t.c == 0
    ensures Triple(Quantum(t).(c3 := '=')) == Join(t)
  {
    var v := Join(t);
    TripleOfSymbols(v / 262144, v / 4096 % 64, v / 64 % 64, v % 64);
    JoinedAgain(v);
    LowDigit(t.a, t.b);
  }

  lemma LowDigit(a: Octet, b: Octet)
    ensures Join(Three(a, b, 0)) % 64 == 0
    ensures b == 0 ==> Join(Three(a, b, 0)) / 64 % 64 == 0
  {
    SextetsOf(a, b, 0);
  }

  lemma TwoPadsRead(t: Three)
    requires t.b == 0 && t.c == 0
    ensures Triple(Quantum(t).(c2 := '=', c3 := '=')) == Join(t)
  {
    var v := Join(t);
    TripleOfSymbols(v / 262144, v / 4096 % 64, v / 64 % 64, v % 64);
    JoinedAgain(v);
    LowDigit(t.a, t.b);
  }

  lemma QuantumChars(t: Three)
    ensures !HasPad(Quantum(t)) && Ascii(Quantum(t))
  {
    var v := Join(t);
    SymbolDecoded(v / 262144);
    SymbolDecoded(v / 4096 % 64);
    SymbolDecoded(v / 64 % 64);
    SymbolDecoded(v % 64);
  }

  predicate HasPad(q: Four) { q.c0 == '=' || q.c1 == '=' || q.c2 == '=' || q.c3 == '=' }

  predicate Ascii(q: Four) { q.c0 as int < 128 && q.c1 as int < 128 && q.c2 as int < 128 && q.c3 as int < 128 }

  type Pack = Three -> Four

  type Unpacker = Four -> Three

  /** All that the texts below need to know about quanta. */
  ghost predicate Inverse(pack: Pack, unpack: Unpacker) {
    && (forall t: Three :: unpack(pack(t)) == t && !HasPad(pack(t)) && Ascii(pack(t)))
    && (forall t: Three :: t.c == 0 ==> unpack(pack(t).(c3 := '=')) == t)
    && (forall t: Three :: t.b == 0 && t.c == 0 ==> unpack(pack(t).(c2 := '=', c3 := '=')) == t)
  }

  lemma TablesInverse()
    ensures Inverse(Quantum, Unpack)
  {
    forall t: Three ensures Unpack(Quantum(t)) == t && !HasPad(Quantum(t)) && Ascii(Quantum(t)) {
      QuantumUnpacked(t);
      QuantumChars(t);
    }
    forall t: Three
      ensures t.c == 0 ==> Unpack(Quantum(t).(c3 := '=')) == t
      ensures t.b == 0 && t.c == 0 ==> Unpack(Quantum(t).(c2 := '=', c3 := '=')) == t
    {
      PaddedUnpacked(t);
    }
  }

  // ----- texts

  function Chars(q: Four): (s: string)
    ensures |s| == 4
  {
    [q.c0, q.c1, q.c2, q.c3]
  }

  function Bytes3(t: Three): (s: seq<Octet>)
    ensures |s| == 3
  {
    [t.a, t.b, t.c]
  }

  function Text(pack: Pack, data: seq<Octet>): string {
    if |data| == 0 then ""
    else if |data| == 1 then Chars(pack(Three(data[0], 0, 0)).(c2 := '=', c3 := '='))
    else if |data| == 2 then Chars(pack(Three(data[0], data[1], 0)).(c3 := '='))
    else Chars(pack(Three(data[0], data[1], data[2]))) + Text(pack, data[3..])
  }

  lemma TextNext(pack: Pack, data: seq<Octet>, i: nat, before: string)
    requires i + 3 <= |data|
    ensures before + Text(pack, data[i..])
         == (before + Chars(pack(Three(data[i], data[i + 1], data[i + 2])))) + Text(pack, data[i + 3..])
  {
    assert data[i..][3..] == data[i + 3..];
    Regroup(before, Chars(pack(Three(data[i], data[i + 1], data[i + 2]))), Text(pack, data[i + 3..]));
  }

  lemma {:induction false} TextLength(pack: Pack, data: seq<Octet>)
    ensures |Text(pack, data)| == 4 * ((|data| + 2) / 3)
  {
    if |data| >= 3 {
      TextLength(pack, data[3..]);
      assert (|data| + 2) / 3 == (|data[3..]| + 2) / 3 + 1;
    }
  }

  lemma TextWhole(pack: Pack, data: seq<Octet>)
    ensures |Text(pack, data)| % 4 == 0 && (data != [] ==> Text(pack, data) != "")
  {
    TextLength(pack, data);
    Divides(|Text(pack, data)|, 4, (|data| + 2) / 3, 0);
  }

  lemma SameText(pack: Pack, pack': Pack, data: seq<Octet>)
    requires forall t: Three :: pack(t) == pack'(t)
    ensures Text(pack, data) == Text(pack', data)
  {
  }

  /** The encoder's loop and its remainder. */
  method EncodeWith(pack: Pack, data: seq<Octet>) returns (ret: string)
    requires |data| >= 2
    ensures ret == Text(pack, data)
  {
    var i := 0;
    ret := "";
    while i < |data| - 2
      invariant 0 <= i <= |data|
      invariant ret + Text(pack, data[i..]) == Text(pack, data)
    {
      TextNext(pack, data, i, ret);
      ret := ret + Chars(pack(Three(data[i], data[i + 1], data[i + 2])));
      i := i + 3;
    }
    if i < |data| {
      if i == |data| - 1 {
        ret := ret + Chars(pack(Three(data[i], 0, 0)).(c2 := '=', c3 := '='));
      } else {
        ret := ret + Chars(pack(Three(data[i], data[i + 1], 0)).(c3 := '='));
      }
    }
  }

  /** `in_len - 2` wraps below zero for fewer than two bytes, and the loop then reads past
      the end. */
  method Encode(data: seq<Octet>) returns (ret: string)
    requires |data| >= 2
    ensures ret == Text(Quantum, data) && |ret| == 4 * ((|data| + 2) / 3)
  {
    ret := EncodeWith(Lookups, data);
    forall t: Three ensures Lookups(t) == Quantum(t) { LookupsAreDigits(t); }
    SameText(Lookups, Quantum, data);
    TextLength(Quantum, data);
  }

  // ----- reading texts

  function AllBytes(unpack: Unpacker, input: string): (out: seq<Octet>)
    requires |input| % 4 == 0
    ensures |out| == |input| / 4 * 3
  {
    if input == "" then []
    else Bytes3(unpack(Four(input[0], input[1], input[2], input[3]))) + AllBytes(unpack, input[4..])
  }

  function Pads(input: string): nat
    requires |input| >= 2
  {
    (if input[|input| - 1] == '=' then 1 else 0) + (if input[|input| - 2] == '=' then 1 else 0)
  }

  const WRONG_LENGTH := "Input data size is not a multiple of 4"

  function Clip(bytes: seq<Octet>, length: nat): seq<Octet> {
    if |bytes| <= length then bytes else bytes[..length]
  }

  /** What a text of whole quanta is read as: all bytes but one for each pad at its end. */
  function Read(unpack: Unpacker, text: string): seq<Octet>
    requires |text| % 4 == 0 && text != ""
  {
    Clip(AllBytes(unpack, text), |text| / 4 * 3 - Pads(text))
  }

  /** A store guarded by `j < out_len`. */
  method Store(out: seq<Octet>, byte: Octet, outLen: nat, ghost before: seq<Octet>) returns (more: seq<Octet>)
    requires out == Clip(before, outLen)
    ensures more == Clip(before + [byte], outLen)
  {
    more := if |out| < outLen then out + [byte] else out;
  }

  /** One round of the decoder's loop. */
  method StoreThree(out: seq<Octet>, t: Three, outLen: nat, ghost before: seq<Octet>) returns (more: seq<Octet>)
    requires out == Clip(before, outLen)
    ensures more == Clip(((before + [t.a]) + [t.b]) + [t.c], outLen)
  {
    more := Store(out, t.a, outLen, before);
    more := Store(more, t.b, outLen, before + [t.a]);
    more := Store(more, t.c, outLen, (before + [t.a]) + [t.b]);
  }

  lemma AllBytesNext(unpack: Unpacker, input: string, i: nat, before: seq<Octet>)
    requires i < |input| && |input[i..]| % 4 == 0
    ensures i + 4 <= |input| && |input[i + 4..]| % 4 == 0
    ensures var t := unpack(Four(input[i], input[i + 1], input[i + 2], input[i + 3]));
            before + AllBytes(unpack, input[i..]) == ((before + [t.a]) + [t.b] + [t.c]) + AllBytes(unpack, input[i + 4..])
  {
    Divides(|input[i + 4..]|, 4, |input[i..]| / 4 - 1, 0);
    var t := unpack(Four(input[i], input[i + 1], input[i + 2], input[i + 3]));
    assert input[i..][4..] == input[i + 4..];
    Regroup(before, Bytes3(t), AllBytes(unpack, input[i + 4..]));
    assert before + Bytes3(t) == (before + [t.a]) + [t.b] + [t.c];
  }

  /** The decoder's loop. */
  method DecodeWith(unpack: Unpacker, input: string, outLen: nat) returns (out: seq<Octet>)
    requires |input| % 4 == 0
    ensures out == Clip(AllBytes(unpack, input), outLen)
  {
    ghost var bytes: seq<Octet> := [];
    out := [];
    var i := 0;
    while i < |input|
      invariant 0 <= i <= |input| && |input[i..]| % 4 == 0
      invariant bytes + AllBytes(unpack, input[i..]) == AllBytes(unpack, input)
      invariant out == Clip(bytes, outLen)
    {
      AllBytesNext(unpack, input, i, bytes);
      var t := unpack(Four(input[i], input[i + 1], input[i + 2], input[i + 3]));
      out := StoreThree(out, t, outLen, bytes);
      bytes := ((bytes + [t.a]) + [t.b]) + [t.c];
      i := i + 4;
    }
    assert input[i..] == "" && bytes + [] == bytes;
  }

  /** Indexing with a signed character reads below the table, and an empty input below the
      string, so callers exclude both. */
  method Decode(input: string) returns (error: string, out: seq<Octet>)
    requires |input| > 0 && forall i :: 0 <= i < |input| ==> input[i] as int < 128
    ensures error == if |input| % 4 != 0 then WRONG_LENGTH else ""
    ensures |input| % 4 == 0 ==> out == Read(Unpack, input)
    ensures |input| % 4 == 0 ==>
      |out| == |input| / 4 * 3 - (if input[|input| - 1] == '=' then 1 else 0) - (if input[|input| - 2] == '=' then 1 else 0)
  {
    var inLen := |input|;
    if inLen % 4 != 0 {
      return WRONG_LENGTH, [];
    }
    var outLen := inLen / 4 * 3;
    if input[inLen - 1] == '=' {
      outLen := outLen - 1;
    }
    if input[inLen - 2] == '=' {
      outLen := outLen - 1;
    }
    out := DecodeWith(Unpack, input, outLen);
    error := "";
  }

  // ----- round trip

  function Fill(n: nat): seq<Octet> { if n % 3 == 0 then [] else if n % 3 == 1 then [0, 0] else [0] }

  lemma ReadQuantum(unpack: Unpacker, q: Four, rest: string)
    requires |rest| % 4 == 0
    ensures AllBytes(unpack, Chars(q) + rest) == Bytes3(unpack(q)) + AllBytes(unpack, rest)
  {
    assert (Chars(q) + rest)[4..] == rest;
  }

  lemma ReadOne(unpack: Unpacker, q: Four)
    ensures AllBytes(unpack, Chars(q)) == Bytes3(unpack(q))
  {
    assert Chars(q) + "" == Chars(q);
    ReadQuantum(unpack, q, "");
  }

  lemma OneByteRead(pack: Pack, unpack: Unpacker, a: Octet)
    requires Inverse(pack, unpack)
    ensures AllBytes(unpack, Chars(pack(Three(a, 0, 0)).(c2 := '=', c3 := '='))) == [a] + [0, 0]
  {
    ReadOne(unpack, pack(Three(a, 0, 0)).(c2 := '=', c3 := '='));
  }

  lemma TwoBytesRead(pack: Pack, unpack: Unpacker, a: Octet, b: Octet)
    requires Inverse(pack, unpack)
    ensures AllBytes(unpack, Chars(pack(Three(a, b, 0)).(c3 := '='))) == [a, b] + [0]
  {
    ReadOne(unpack, pack(Three(a, b, 0)).(c3 := '='));
  }

  lemma FillBehind(head: seq<Octet>, data: seq<Octet>)
    requires |head| == 3
    ensures head + (data + Fill(|data|)) == (head + data) + Fill(|head + data|)
  {
  }

  lemma ShortTextRead(pack: Pack, unpack: Unpacker, data: seq<Octet>)
    requires Inverse(pack, unpack) && |data| < 3
    ensures |Text(pack, data)| % 4 == 0 && AllBytes(unpack, Text(pack, data)) == data + Fill(|data|)
  {
    if |data| == 1 {
      OneByteRead(pack, unpack, data[0]);
      assert data == [data[0]];
    } else if |data| == 2 {
      TwoBytesRead(pack, unpack, data[0], data[1]);
      assert data == [data[0], data[1]];
    }
  }

  /** The bytes read back from a text are its own, and zeros for the pads. */
  lemma {:induction false} TextRead(pack: Pack, unpack: Unpacker, data: seq<Octet>)
    requires Inverse(pack, unpack)
    ensures |Text(pack, data)| % 4 == 0 && AllBytes(unpack, Text(pack, data)) == data + Fill(|data|)
  {
    if |data| < 3 {
      ShortTextRead(pack, unpack, data);
    } else {
      var t := Three(data[0], data[1], data[2]);
      TextRead(pack, unpack, data[3..]);
      ReadQuantum(unpack, pack(t), Text(pack, data[3..]));
      FillBehind(Bytes3(t), data[3..]);
      assert data == Bytes3(t) + data[3..];
    }
  }

  predicate PlainText(text: string) { forall i :: 0 <= i < |text| ==> text[i] as int < 128 }

  lemma ShortTextPads(pack: Pack, unpack: Unpacker, data: seq<Octet>)
    requires 1 <= |data| <= 3 && Inverse(pack, unpack)
    ensures var text := Text(pack, data); |text| == 4 && PlainText(text) && Pads(text) == |Fill(|data|)|
  {
    var q := pack(Three(data[0], if |data| > 1 then data[1] else 0, if |data| > 2 then data[2] else 0));
    assert !HasPad(q) && Ascii(q);
    if |data| == 3 {
      assert Text(pack, data) == Chars(q) + Text(pack, []);
    }
  }

  lemma PadsAppended(before: string, text: string)
    requires |text| >= 2
    ensures Pads(before + text) == Pads(text)
    ensures PlainText(before) && PlainText(text) ==> PlainText(before + text)
  {
  }

  lemma AsciiChars(q: Four)
    requires Ascii(q)
    ensures PlainText(Chars(q))
  {
  }

  lemma SameFill(n: nat)
    requires n >= 3
    ensures Fill(n) == Fill(n - 3)
  {
    Divides(n, 3, (n - 3) / 3 + 1, (n - 3) % 3);
  }

  /** A text is plain ASCII and ends in as many pads as its last quantum lacks bytes. */
  lemma {:induction false} TextPads(pack: Pack, unpack: Unpacker, data: seq<Octet>)
    requires data != [] && Inverse(pack, unpack)
    ensures var text := Text(pack, data); |text| >= 4 && PlainText(text) && Pads(text) == |Fill(|data|)|
  {
    if |data| <= 3 {
      ShortTextPads(pack, unpack, data);
    } else {
      var q := pack(Three(data[0], data[1], data[2]));
      assert Ascii(q);
      TextPads(pack, unpack, data[3..]);
      AsciiChars(q);
      PadsAppended(Chars(q), Text(pack, data[3..]));
      SameFill(|data|);
    }
  }

  /** Decoding what was encoded gives the bytes back, for every input that can be encoded. */
  method RoundTrip(data: seq<Octet>) returns (error: string, out: seq<Octet>)
    requires |data| >= 2
    ensures error == "" && out == data
  {
    var text := Encode(data);
    TablesInverse();
    TextRead(Quantum, Unpack, data);
    TextPads(Quantum, Unpack, data);
    error, out := Decode(text);
  }

  // ----- the texts that are read faithfully

  predicate InAlphabet(c: char) { Decoding(c) < 64 }

  predicate Full(q: Four) { InAlphabet(q.c0) && InAlphabet(q.c1) && InAlphabet(q.c2) && InAlphabet(q.c3) }

  /** One byte is missing, and the bits that would be its are zero. */
  predicate OneShort(q: Four) {
    InAlphabet(q.c0) && InAlphabet(q.c1) && InAlphabet(q.c2) && q.c3 == '=' && Decoding(q.c2) % 4 == 0
  }

  predicate TwoShort(q: Four) {
    InAlphabet(q.c0) && InAlphabet(q.c1) && q.c2 == '=' && q.c3 == '=' && Decoding(q.c1) % 16 == 0
  }

  type Shape = Four -> bool

  /** Quanta of the alphabet, of which only the last may be short. */
  predicate Canonical(full: Shape, one: Shape, two: Shape, text: string)
    requires |text| % 4 == 0
  {
    text != "" &&
    var q := Four(text[0], text[1], text[2], text[3]);
    if |text| == 4 then full(q) || one(q) || two(q) else full(q) && Canonical(full, one, two, text[4..])
  }

  /** All that is needed to know about shapes. */
  ghost predicate Shaped(pack: Pack, unpack: Unpacker, full: Shape, one: Shape, two: Shape) {
    && (forall q :: full(q) ==> pack(unpack(q)) == q && !HasPad(q))
    && (forall q :: one(q) ==> pack(unpack(q).(c := 0)).(c3 := '=') == q && q.c2 != '=' && q.c3 == '=')
    && (forall q :: two(q) ==> pack(unpack(q).(b := 0, c := 0)).(c2 := '=', c3 := '=') == q && q.c2 == '=' && q.c3 == '=')
    && (forall t: Three :: full(pack(t)))
    && (forall t: Three :: t.c == 0 ==> one(pack(t).(c3 := '=')))
    && (forall t: Three :: t.b == 0 && t.c == 0 ==> two(pack(t).(c2 := '=', c3 := '=')))
  }

  lemma ReadBehind(unpack: Unpacker, q: Four, rest: string)
    requires |rest| % 4 == 0 && rest != ""
    ensures Read(unpack, Chars(q) + rest) == Bytes3(unpack(q)) + Read(unpack, rest)
  {
    ReadQuantum(unpack, q, rest);
    PadsAppended(Chars(q), rest);
    assert |Chars(q) + rest| / 4 * 3 == 3 + |rest| / 4 * 3;
  }

  lemma ReadLast(unpack: Unpacker, q: Four)
    ensures var t := unpack(q);
            Read(unpack, Chars(q)) == if q.c2 != '=' && q.c3 != '=' then [t.a, t.b, t.c]
                                      else if q.c2 == '=' && q.c3 == '=' then [t.a] else [t.a, t.b]
  {
    assert Chars(q) + "" == Chars(q);
    ReadQuantum(unpack, q, "");
  }

  lemma TextBehind(pack: Pack, t: Three, rest: seq<Octet>)
    ensures Text(pack, Bytes3(t) + rest) == Chars(pack(t)) + Text(pack, rest)
  {
    assert (Bytes3(t) + rest)[3..] == rest;
  }

  lemma LastFaithful(pack: Pack, unpack: Unpacker, full: Shape, one: Shape, two: Shape, q: Four)
    requires Shaped(pack, unpack, full, one, two) && (full(q) || one(q) || two(q))
    ensures Text(pack, Read(unpack, Chars(q))) == Chars(q)
  {
    ReadLast(unpack, q);
    var t := unpack(q);
    if full(q) {
      assert [t.a, t.b, t.c] == Bytes3(t) + [];
      TextBehind(pack, t, []);
    } else if one(q) {
      assert t.(c := 0) == Three(t.a, t.b, 0);
    } else {
      assert t.(b := 0, c := 0) == Three(t.a, 0, 0);
    }
  }

  lemma FirstQuantum(text: string)
    requires |text| % 4 == 0 && text != ""
    ensures |text| >= 4 && |text[4..]| % 4 == 0
    ensures text == if |text| == 4 then Chars(Four(text[0], text[1], text[2], text[3]))
                    else Chars(Four(text[0], text[1], text[2], text[3])) + text[4..]
  {
  }

  lemma NextFaithful(pack: Pack, unpack: Unpacker, q: Four, rest: string)
    requires |rest| % 4 == 0 && rest != "" && Text(pack, Read(unpack, rest)) == rest && pack(unpack(q)) == q
    ensures Text(pack, Read(unpack, Chars(q) + rest)) == Chars(q) + rest
  {
    ReadBehind(unpack, q, rest);
    TextBehind(pack, unpack(q), Read(unpack, rest));
  }

  lemma {:induction false} CanonicalFaithful(pack: Pack, unpack: Unpacker, full: Shape, one: Shape, two: Shape, text: string)
    requires Shaped(pack, unpack, full, one, two) && |text| % 4 == 0 && Canonical(full, one, two, text)
    ensures Text(pack, Read(unpack, text)) == text
    decreases |text|
  {
    var q, rest := Four(text[0], text[1], text[2], text[3]), text[4..];
    FirstQuantum(text);
    if |text| == 4 {
      LastFaithful(pack, unpack, full, one, two, q);
    } else {
      CanonicalFaithful(pack, unpack, full, one, two, rest);
      NextFaithful(pack, unpack, q, rest);
    }
  }

  lemma CanonicalBehind(full: Shape, one: Shape, two: Shape, q: Four, rest: string)
    requires |rest| % 4 == 0
    ensures Canonical(full, one, two, Chars(q) + rest)
         == if rest == "" then full(q) || one(q) || two(q) else full(q) && Canonical(full, one, two, rest)
  {
    assert (Chars(q) + rest)[4..] == rest;
  }

  lemma ShortTextCanonical(pack: Pack, unpack: Unpacker, full: Shape, one: Shape, two: Shape, data: seq<Octet>)
    requires Shaped(pack, unpack, full, one, two) && 0 < |data| < 3
    ensures |Text(pack, data)| % 4 == 0 && Canonical(full, one, two, Text(pack, data))
  {
    if |data| == 1 {
      CanonicalBehind(full, one, two, pack(Three(data[0], 0, 0)).(c2 := '=', c3 := '='), "");
    } else {
      CanonicalBehind(full, one, two, pack(Three(data[0], data[1], 0)).(c3 := '='), "");
    }
  }

  /** Every text the encoder can make is canonical. */
  lemma {:induction false} TextCanonical(pack: Pack, unpack: Unpacker, full: Shape, one: Shape, two: Shape, data: seq<Octet>)
    requires Shaped(pack, unpack, full, one, two) && data != []
    ensures |Text(pack, data)| % 4 == 0 && Canonical(full, one, two, Text(pack, data))
  {
    TextWhole(pack, data);
    if |data| < 3 {
      ShortTextCanonical(pack, unpack, full, one, two, data);
    } else {
      var q, rest := pack(Three(data[0], data[1], data[2])), data[3..];
      TextWhole(pack, rest);
      CanonicalBehind(full, one, two, q, Text(pack, rest));
      if rest == [] {
        assert Text(pack, rest) == "";
      } else {
        TextCanonical(pack, unpack, full, one, two, rest);
      }
    }
  }

  lemma FaithfulIff(pack: Pack, unpack: Unpacker, full: Shape, one: Shape, two: Shape, text: string)
    requires Shaped(pack, unpack, full, one, two) && |text| % 4 == 0 && text != ""
    ensures Text(pack, Read(unpack, text)) == text <==> Canonical(full, one, two, text)
  {
    if Canonical(full, one, two, text) {
      CanonicalFaithful(pack, unpack, full, one, two, text);
    } else {
      assert Read(unpack, text) != [];
      TextCanonical(pack, unpack, full, one, two, Read(unpack, text));
    }
  }

  // ----- the shapes of the alphabet

  lemma BytesRejoined(v: nat)
    requires v < 0x100_0000
    ensures Join(BytesOf(v)) == v
  {
    var x, y := v / 256, v / 65536;
    assert y == x / 256;
    assert v == x * 256 + v % 256;
    assert x == y * 256 + x % 256;
    assert y % 256 == y;
  }

  lemma SymbolValue(c: char)
    requires InAlphabet(c)
    ensures 0 <= Decoding(c) < 64 && Symbol(Decoding(c)) == c && ValueOf(c) == Decoding(c) && c != '='
  {
    DecodedSymbol(c);
  }

  function Number(d: Digits): (v: nat)
    ensures v < 0x100_0000
  {
    (d.p as int) * 262144 + (d.q as int) * 4096 + (d.r as int) * 64 + d.s
  }

  lemma DigitsBack(d: Digits)
    ensures DigitsIn(Number(d)) == d
  {
    DigitsOf(d.p, d.q, d.r, d.s);
    TwoDigits(d.p, d.q);
    TwoDigits((d.p as int) * 64 + d.q, d.r);
  }

  lemma QuantumOfDigits(d: Digits)
    ensures Quantum(BytesOf(Number(d))) == Spelled(d)
  {
    DigitsBack(d);
    BytesRejoined(Number(d));
  }

  lemma FullDigits(q: Four) returns (d: Digits)
    requires Full(q)
    ensures Spelled(d) == q && Number(d) == Triple(q) && !HasPad(q)
  {
    SymbolValue(q.c0);
    SymbolValue(q.c1);
    SymbolValue(q.c2);
    SymbolValue(q.c3);
    d := Digits(Decoding(q.c0), Decoding(q.c1), Decoding(q.c2), Decoding(q.c3));
  }

  lemma FullFaithful(q: Four)
    requires Full(q)
    ensures Quantum(Unpack(q)) == q && !HasPad(q)
  {
    var d := FullDigits(q);
    QuantumOfDigits(d);
  }

  lemma LowByteZero(p: Sextet, q: Sextet, r: Sextet)
    ensures var v := (p as int) * 262144 + (q as int) * 4096 + (r as int) * 64;
            && (r as int % 4 == 0 ==> v % 256 == 0)
            && (r == 0 && q as int % 16 == 0 ==> v / 256 % 256 == 0)
  {
    if r as int % 4 == 0 {
      LastByteZero(p, q, (r as int) / 4);
    }
    if r == 0 && q as int % 16 == 0 {
      MiddleByteZero(p, (q as int) / 16);
    }
  }

  lemma LastByteZero(p: int, q: int, k: int)
    ensures (p * 262144 + q * 4096 + (4 * k) * 64) % 256 == 0
  {
    Divides(p * 262144 + q * 4096 + (4 * k) * 64, 256, p * 1024 + q * 16 + k, 0);
  }

  lemma MiddleByteZero(p: int, k: int)
    ensures (p * 262144 + (16 * k) * 4096) / 256 % 256 == 0
  {
    Divides(p * 262144 + (16 * k) * 4096, 256, p * 1024 + k * 256, 0);
    Divides(p * 1024 + k * 256, 256, p * 4 + k, 0);
  }

  lemma OneShortDigits(q: Four) returns (d: Digits)
    requires OneShort(q)
    ensures d.r as int % 4 == 0 && d.s == 0 && Spelled(d) == q.(c3 := Symbol(0)) && Number(d) == Triple(q) && q.c2 != '='
  {
    SymbolValue(q.c0);
    SymbolValue(q.c1);
    SymbolValue(q.c2);
    d := Digits(Decoding(q.c0), Decoding(q.c1), Decoding(q.c2), 0);
  }

  lemma OneShortBack(d: Digits)
    requires d.r as int % 4 == 0 && d.s == 0
    ensures Quantum(BytesOf(Number(d)).(c := 0)) == Spelled(d)
  {
    LowByteZero(d.p, d.q, d.r);
    QuantumOfDigits(d);
    assert BytesOf(Number(d)).(c := 0) == BytesOf(Number(d));
  }

  lemma OneShortFaithful(q: Four)
    requires OneShort(q)
    ensures Quantum(Unpack(q).(c := 0)).(c3 := '=') == q && q.c2 != '=' && q.c3 == '='
  {
    var d := OneShortDigits(q);
    OneShortBack(d);
  }

  lemma TwoShortDigits(q: Four) returns (d: Digits)
    requires TwoShort(q)
    ensures d.q as int % 16 == 0 && d.r == 0 && d.s == 0 && Spelled(d) == q.(c2 := Symbol(0), c3 := Symbol(0))
    ensures Number(d) == Triple(q)
  {
    SymbolValue(q.c0);
    SymbolValue(q.c1);
    d := Digits(Decoding(q.c0), Decoding(q.c1), 0, 0);
  }

  lemma TwoShortBack(d: Digits)
    requires d.q as int % 16 == 0 && d.r == 0 && d.s == 0
    ensures Quantum(BytesOf(Number(d)).(b := 0, c := 0)) == Spelled(d)
  {
    LowByteZero(d.p, d.q, 0);
    QuantumOfDigits(d);
    assert BytesOf(Number(d)).(b := 0, c := 0) == BytesOf(Number(d));
  }

  lemma TwoShortFaithful(q: Four)
    requires TwoShort(q)
    ensures Quantum(Unpack(q).(b := 0, c := 0)).(c2 := '=', c3 := '=') == q && q.c2 == '=' && q.c3 == '='
  {
    var d := TwoShortDigits(q);
    TwoShortBack(d);
  }

  lemma DecodedAgain(n: Sextet)
    ensures InAlphabet(Symbol(n)) && Decoding(Symbol(n)) == n
  {
    SymbolDecoded(n);
  }

  lemma ShapesOfDigits(p: Sextet, q: Sextet, r: Sextet, s: Sextet)
    ensures Full(Four(Symbol(p), Symbol(q), Symbol(r), Symbol(s)))
    ensures r as int % 4 == 0 ==> OneShort(Four(Symbol(p), Symbol(q), Symbol(r), '='))
    ensures q as int % 16 == 0 ==> TwoShort(Four(Symbol(p), Symbol(q), '=', '='))
  {
    DecodedAgain(p);
    DecodedAgain(q);
    DecodedAgain(r);
    DecodedAgain(s);
  }

  lemma Multiples(n: int)
    ensures (n * 4) % 4 == 0 && (n * 16) % 16 == 0
  {
  }

  lemma FillBitsClear(t: Three)
    ensures t.c == 0 ==> Join(t) / 64 % 64 % 4 == 0
    ensures t.b == 0 && t.c == 0 ==> Join(t) / 4096 % 64 % 16 == 0
  {
    SextetsOf(t.a, t.b, t.c);
    Multiples((t.b as int) % 16);
    Multiples((t.a as int) % 4);
    assert t.c == 0 ==> Join(t) / 64 % 64 == (t.b as int) % 16 * 4;
    assert t.b == 0 ==> Join(t) / 4096 % 64 == (t.a as int) % 4 * 16;
  }

  lemma QuantumShapes(t: Three)
    ensures Full(Quantum(t))
    ensures t.c == 0 ==> OneShort(Quantum(t).(c3 := '='))
    ensures t.b == 0 && t.c == 0 ==> TwoShort(Quantum(t).(c2 := '=', c3 := '='))
  {
    var v := Join(t);
    FillBitsClear(t);
    ShapesOfDigits(v / 262144, v / 4096 % 64, v / 64 % 64, v % 64);
  }

  lemma AlphabetShaped()
    ensures Shaped(Quantum, Unpack, Full, OneShort, TwoShort)
  {
    forall q | Full(q) ensures Quantum(Unpack(q)) == q && !HasPad(q) { FullFaithful(q); }
    forall q | OneShort(q) ensures Quantum(Unpack(q).(c := 0)).(c3 := '=') == q && q.c2 != '=' && q.c3 == '=' {
      OneShortFaithful(q);
    }
    forall q | TwoShort(q)
      ensures Quantum(Unpack(q).(b := 0, c := 0)).(c2 := '=', c3 := '=') == q && q.c2 == '=' && q.c3 == '='
    {
      TwoShortFaithful(q);
    }
    forall t: Three
      ensures Full(Quantum(t))
      ensures t.c == 0 ==> OneShort(Quantum(t).(c3 := '='))
      ensures t.b == 0 && t.c == 0 ==> TwoShort(Quantum(t).(c2 := '=', c3 := '='))
    {
      QuantumShapes(t);
    }
  }

  /** The text that the standard defines for what was decoded is the text itself if and only
      if it is canonical: nothing but the alphabet, pads only at its end, and no bits set that
      no byte needs. This is about the standard's texts: it does not ask whether the encoder
      and the decoder are defined. */
  lemma DecodedTextIff(text: string)
    requires |text| % 4 == 0 && text != ""
    ensures Text(Quantum, Read(Unpack, text)) == text <==> Canonical(Full, OneShort, TwoShort, text)
  {
    AlphabetShaped();
    FaithfulIff(Quantum, Unpack, Full, OneShort, TwoShort, text);
  }

  /** Decoding and encoding again, for texts on which both are defined: plain ones that stand
      for at least two bytes. */
  method Reencode(text: string) returns (again: string)
    requires |text| % 4 == 0 && text != "" && PlainText(text) && |Read(Unpack, text)| >= 2
    ensures again == text <==> Canonical(Full, OneShort, TwoShort, text)
  {
    var error, bytes := Decode(text);
    again := Encode(bytes);
    DecodedTextIff(text);
  }
}
