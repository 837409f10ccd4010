/** Percent-encoding of values, with escapes as in section 2.1 of RFC 3986. A character is a
    byte of a C++ string. */
module Percent {
  import opened Bytes

  predicate Escaped(c: char) {
    || c == '!' || c == '#' || c == '$' || ('&' <= c <= ',') || ('/' <= c <= ';') || c == '=' || c == '?'
    || c == '@' || c == '[' || c == ']'
  }

  function HexChar(n: int): (c: char)
    requires 0 <= n < 16
  {
    if n < 10 then '0' + n as char else 'A' + (n - 10) as char
  }

  function EncodeChar(c: char): (s: string)
    ensures |s| == if Escaped(c) then 3 else 1
  {
    if c == ' ' then "+"
    else if Escaped(c) then "%" + [HexChar(c as int / 16), HexChar(c as int % 16)]
    else [c]
  }

  function Encoded(value: string): string {
    if value == "" then "" else EncodeChar(value[0]) + Encoded(value[1..])
  }

  method Encode(value: string) returns (result: string)
    ensures result == Encoded(value)
  {
    result := "";
    var n := 0;
    while n < |value|
      invariant 0 <= n <= |value|
      invariant result + Encoded(value[n..]) == Encoded(value)
    {
      var chr := value[n];
      assert value[n..][1..] == value[n + 1..];
      Regroup(result, EncodeChar(chr), Encoded(value[n + 1..]));
      if chr == ' ' {
        result := result + "+";
      } else if Escaped(chr) {
        result := result + ("%" + [HexChar(chr as int / 16), HexChar(chr as int % 16)]);
      } else {
        result := result + [chr];
      }
      n := n + 1;
    }
  }

  // ----- decoding

  /** The value of a hexadecimal digit, or -1. */
  function HexDigit(c: char): (h: int)
    ensures -1 <= h < 16
  {
    if '0' <= c <= '9' then c as int - '0' as int
    else if 'A' <= c <= 'F' then c as int - 'A' as int + 10
    else if 'a' <= c <= 'f' then c as int - 'a' as int + 10
    else -1
  }

  predicate Space(c: char) { c == ' ' || 9 <= c as int <= 13 }

  function OrZero(h: int): int { if h < 0 then 0 else h }

  /** strtol(.., 16) on two characters: white space, a sign, and digits until the first that
      is none. A prefix 0x has no digits left behind it. */
  function Strtol2(c: char, d: char): (n: int)
    ensures -16 < n < 256
  {
    if Space(c) || c == '+' then OrZero(HexDigit(d))
    else if c == '-' then -OrZero(HexDigit(d))
    else if HexDigit(c) < 0 then 0
    else if HexDigit(d) < 0 then HexDigit(c)
    else HexDigit(c) * 16 + HexDigit(d)
  }

  /** The conversion to char. */
  function CharOf(n: int): char { (n % 256) as char }

  function Decoded(value: string): string {
    if value == "" then ""
    else if value[0] == '%' && |value| > 2 then [CharOf(Strtol2(value[1], value[2]))] + Decoded(value[3..])
    else if value[0] == '+' then " " + Decoded(value[1..])
    else [value[0]] + Decoded(value[1..])
  }

  method Decode(value: string) returns (result: string)
    ensures result == Decoded(value)
  {
    result := "";
    var i := 0;
    while i < |value|
      invariant 0 <= i <= |value|
      invariant result + Decoded(value[i..]) == Decoded(value)
    {
      var chr := value[i];
      if chr == '%' && i + 2 < |value| {
        assert value[i..][3..] == value[i + 3..];
        var decodedChr := CharOf(Strtol2(value[i + 1], value[i + 2]));
        Regroup(result, [decodedChr], Decoded(value[i + 3..]));
        result := result + [decodedChr];
        i := i + 2;
      } else {
        assert value[i..][1..] == value[i + 1..];
        Regroup(result, [if chr == '+' then ' ' else chr], Decoded(value[i + 1..]));
        if chr == '+' {
          result := result + " ";
        } else {
          result := result + [chr];
        }
      }
      i := i + 1;
    }
  }

  // ----- what an escape means

  /** The digits in order, in either spelling, are the only ones. */
  lemma HexDigitIff(c: char, h: nat)
    requires h < 16
    ensures HexDigit(c) == h <==> c == "0123456789ABCDEF"[h] || c == "0123456789abcdef"[h]
  {
  }

  lemma DigitIsPlain(c: char)
    requires HexDigit(c) >= 0
    ensures !Space(c) && c != '+' && c != '-'
  {
  }

  lemma TwoHexDigits(high: char, low: char, n: nat)
    requires n < 256 && HexDigit(high) == n / 16 && HexDigit(low) == n % 16
    ensures CharOf(Strtol2(high, low)) == n as char
  {
    DigitIsPlain(high);
    assert Strtol2(high, low) == HexDigit(high) * 16 + HexDigit(low);
    Division(n, 16);
    assert Strtol2(high, low) == n;
  }

  /** A percent sign with two digits, in either case, is the byte that they spell. */
  lemma EscapeDecoded(n: nat, high: char, low: char, rest: string)
    requires n < 256
    requires high == "0123456789ABCDEF"[n / 16] || high == "0123456789abcdef"[n / 16]
    requires low == "0123456789ABCDEF"[n % 16] || low == "0123456789abcdef"[n % 16]
    ensures Decoded(['%', high, low] + rest) == [n as char] + Decoded(rest)
  {
    HexDigitIff(high, n / 16);
    HexDigitIff(low, n % 16);
    TwoHexDigits(high, low, n);
    DecodedEscape(high, low, rest);
  }

  /** strtol(s, .., 16) for a string of any length that a long can hold. */
  function Strtol16(s: string): int {
    var t := PastSpace(s);
    if t == "" then 0
    else if t[0] == '-' then -(Magnitude(PastPrefix(t[1..]), 0) as int)
    else if t[0] == '+' then Magnitude(PastPrefix(t[1..]), 0)
    else Magnitude(PastPrefix(t), 0)
  }

  function PastSpace(s: string): string { if s != "" && Space(s[0]) then PastSpace(s[1..]) else s }

  /** 0x is skipped only before a digit. */
  function PastPrefix(s: string): string {
    if |s| > 2 && s[0] == '0' && (s[1] == 'x' || s[1] == 'X') && HexDigit(s[2]) >= 0 then s[2..] else s
  }

  function Magnitude(s: string, n: nat): nat {
    if s == "" || HexDigit(s[0]) < 0 then n else Magnitude(s[1..], 16 * n + HexDigit(s[0]))
  }

  lemma MagnitudeOfOne(d: char, n: nat)
    ensures Magnitude([d], n) == if HexDigit(d) < 0 then n else 16 * n + HexDigit(d)
  {
    assert [d][1..] == "";
  }

  /** Of two characters, malformed ones included, the short form reads the same. */
  lemma StrtolOfTwo(c: char, d: char)
    ensures Strtol2(c, d) == Strtol16([c, d])
  {
    var s := [c, d];
    assert s[1..] == [d] && [d][1..] == "";
    MagnitudeOfOne(d, 0);
    if Space(c) {
      assert PastSpace(s) == PastSpace([d]);
      assert PastSpace([d]) == if Space(d) then "" else [d];
      assert [d][1..] == "";
    } else {
      assert PastSpace(s) == s;
      if HexDigit(c) >= 0 {
        MagnitudeOfOne(d, HexDigit(c));
      }
    }
  }

  ghost predicate IsDigit(c: char) { c in "0123456789ABCDEF" || c in "0123456789abcdef" }

  lemma NoHexDigit(c: char)
    ensures HexDigit(c) < 0 <==> !IsDigit(c)
  {
    if HexDigit(c) >= 0 {
      HexDigitIff(c, HexDigit(c));
    } else if h: nat :| h < 16 && "0123456789ABCDEF"[h] == c {
      HexDigitIff(c, h);
    } else if h: nat :| h < 16 && "0123456789abcdef"[h] == c {
      HexDigitIff(c, h);
    }
  }

  lemma ValueBehind(h: nat, c: char, d: char)
    requires h < 16 && HexDigit(d) == h
    requires c in {' ', '+', '-', '\t', '\n', 11 as char, 12 as char, '\r'}
    ensures CharOf(Strtol2(c, d)) == if c == '-' then ((256 - h) % 256) as char else h as char
  {
  }

  /** Escapes with less than two digits: one behind white space, a plus or a minus, one in
      front, or none. */
  lemma DigitBehind(h: nat, c: char, d: char, rest: string)
    requires h < 16 && (d == "0123456789ABCDEF"[h] || d == "0123456789abcdef"[h])
    requires c in {' ', '+', '-', '\t', '\n', 11 as char, 12 as char, '\r'}
    ensures Decoded(['%', c, d] + rest) == [if c == '-' then ((256 - h) % 256) as char else h as char] + Decoded(rest)
  {
    HexDigitIff(d, h);
    ValueBehind(h, c, d);
    DecodedEscape(c, d, rest);
  }

  lemma DigitInFront(h: nat, c: char, d: char, rest: string)
    requires h < 16 && (c == "0123456789ABCDEF"[h] || c == "0123456789abcdef"[h]) && !IsDigit(d)
    ensures Decoded(['%', c, d] + rest) == [h as char] + Decoded(rest)
  {
    HexDigitIff(c, h);
    NoHexDigit(d);
    DecodedEscape(c, d, rest);
  }

  lemma NoDigits(c: char, d: char, rest: string)
    requires !IsDigit(c)
    requires !IsDigit(d) || c !in {' ', '+', '-', '\t', '\n', 11 as char, 12 as char, '\r'}
    ensures Decoded(['%', c, d] + rest) == [0 as char] + Decoded(rest)
  {
    NoHexDigit(c);
    NoHexDigit(d);
    DecodedEscape(c, d, rest);
  }

  lemma EscapedIff(c: char)
    ensures Escaped(c)
       <==> c in {'!', '#', '$', '&', '\'', '(', ')', '*', '+', ',', '/', '0', '1', '2', '3', '4', '5', '6', '7', '8', '9', ':',
                  ';', '=', '?', '@', '[', ']'}
  {
  }

  lemma HexCharIs(h: nat)
    requires h < 16
    ensures HexChar(h) == "0123456789ABCDEF"[h]
  {
  }

  /** An escaped character becomes a per cent sign and its number, in upper case. */
  lemma EscapeEncoded(c: char)
    requires Escaped(c)
    ensures c as int < 256
    ensures EncodeChar(c) == ['%', "0123456789ABCDEF"[c as int / 16], "0123456789ABCDEF"[c as int % 16]]
  {
    HexCharIs(c as int / 16);
    HexCharIs(c as int % 16);
  }

  // ----- round trip

  lemma HexPair(c: char)
    requires c as int < 256
    ensures CharOf(Strtol2(HexChar(c as int / 16), HexChar(c as int % 16))) == c
  {
    HexRead(c as int / 16);
    HexRead(c as int % 16);
  }

  lemma HexRead(n: int)
    requires 0 <= n < 16
    ensures HexDigit(HexChar(n)) == n && !Space(HexChar(n)) && HexChar(n) != '+' && HexChar(n) != '-'
  {
  }

  lemma DecodedPlain(c: char, rest: string)
    requires c != '%' || |rest| < 2
    ensures Decoded([c] + rest) == [if c == '+' then ' ' else c] + Decoded(rest)
  {
    assert ([c] + rest)[1..] == rest;
  }

  lemma DecodedEscape(c: char, d: char, rest: string)
    ensures Decoded(['%', c, d] + rest) == [CharOf(Strtol2(c, d))] + Decoded(rest)
  {
    assert (['%', c, d] + rest)[3..] == rest;
  }

  /** Every character but a per cent sign is decoded from its own encoding, whatever
      follows. */
  lemma DecodedNext(c: char, rest: string)
    requires c != '%' || |rest| < 2
    ensures Decoded(EncodeChar(c) + rest) == [c] + Decoded(rest)
  {
    if Escaped(c) {
      HexPair(c);
      DecodedEscape(HexChar(c as int / 16), HexChar(c as int % 16), rest);
    } else if c == ' ' {
      DecodedPlain('+', rest);
    } else {
      DecodedPlain(c, rest);
    }
  }

  lemma NoLeadingDigit(value: string)
    requires value != ""
    ensures Encoded(value) != "" && !('0' <= Encoded(value)[0] <= '9')
  {
  }

  lemma OnlyDigitsMakePercent(c: char, d: char)
    requires !('0' <= c <= '9')
    ensures CharOf(Strtol2(c, d)) != '%'
  {
  }

  /** An encoding never starts with a digit, which would have been escaped, so two
      characters of it are never read as 25. */
  lemma NeverPercent(c: char, d: char, value: string)
    requires value != "" && c == Encoded(value)[0]
    ensures CharOf(Strtol2(c, d)) != '%'
  {
    NoLeadingDigit(value);
    OnlyDigitsMakePercent(c, d);
  }

  lemma PercentLost(rest: string)
    requires |Encoded(rest)| >= 2
    ensures Decoded("%" + Encoded(rest)) != [] && Decoded("%" + Encoded(rest))[0] != '%'
  {
    var e := Encoded(rest);
    NeverPercent(e[0], e[1], rest);
    assert ("%" + e)[1] == e[0] && ("%" + e)[2] == e[1];
  }

  /** Per cent signs are not escaped, so one survives only where less than two encoded
      characters follow it: at the end, or before one last character that is not escaped. */
  predicate SafeAt(value: string, p: nat) {
    p + 1 == |value| || (p + 2 == |value| && !Escaped(value[p + 1]))
  }

  predicate PercentsSafe(value: string) {
    forall p :: 0 <= p < |value| && value[p] == '%' ==> SafeAt(value, p)
  }

  lemma ShortEncoding(rest: string)
    ensures |Encoded(rest)| < 2 <==> rest == "" || (|rest| == 1 && !Escaped(rest[0]))
  {
    if |rest| > 1 {
      assert |Encoded(rest[1..])| >= 1;
    }
  }

  lemma SafeBehind(c: char, rest: string, p: nat)
    requires p < |rest|
    ensures ([c] + rest)[p + 1] == rest[p] && (SafeAt([c] + rest, p + 1) <==> SafeAt(rest, p))
  {
  }

  lemma SafeNext(c: char, rest: string)
    ensures PercentsSafe([c] + rest) <==> (c == '%' ==> |Encoded(rest)| < 2) && PercentsSafe(rest)
  {
    var value := [c] + rest;
    ShortEncoding(rest);
    assert |rest| == 1 ==> value[1] == rest[0];
    assert SafeAt(value, 0) <==> |Encoded(rest)| < 2;
    if PercentsSafe(value) {
      assert value[0] == c;
      forall p | 0 <= p < |rest| && rest[p] == '%' ensures SafeAt(rest, p) {
        SafeBehind(c, rest, p);
      }
    }
    if (c == '%' ==> |Encoded(rest)| < 2) && PercentsSafe(rest) {
      forall p | 0 <= p < |value| && value[p] == '%' ensures SafeAt(value, p) {
        if p > 0 {
          SafeBehind(c, rest, p - 1);
        }
      }
    }
  }

  /** Decoding undoes encoding exactly for the values whose per cent signs are safe. */
  lemma {:induction false} RoundTripIff(value: string)
    ensures Decoded(Encoded(value)) == value <==> PercentsSafe(value)
  {
    if value != "" {
      var c, rest := value[0], value[1..];
      RoundTripIff(rest);
      SafeNext(c, rest);
      assert value == [c] + rest;
      if c == '%' && |Encoded(rest)| >= 2 {
        PercentLost(rest);
      } else {
        DecodedNext(c, Encoded(rest));
      }
    }
  }

  /** An encoding has none of the characters that separate fields and values. */
  lemma {:induction false} NoSeparators(value: string)
    ensures '&' !in Encoded(value) && '=' !in Encoded(value)
  {
    if value != "" {
      NoSeparators(value[1..]);
      if Escaped(value[0]) {
        HexRead(value[0] as int / 16);
        HexRead(value[0] as int % 16);
      }
    }
  }

  // ----- what is lost is lost for good

  /** The per cent signs of a string. */
  function Percents(s: string): nat {
    if s == "" then 0 else (if s[0] == '%' then 1 else 0) + Percents(s[1..])
  }

  predicate Plain(c: char) { c != '%' && c != '+' }

  lemma PercentsCons(c: char, rest: string)
    ensures Percents([c] + rest) == (if c == '%' then 1 else 0) + Percents(rest)
  {
    assert ([c] + rest)[1..] == rest;
  }

  lemma PercentsBehind(c: char, rest: string)
    requires Plain(c)
    ensures Percents(Decoded([c] + rest)) == Percents(Decoded(rest))
  {
    DecodedPlain(c, rest);
    PercentsCons(c, Decoded(rest));
  }

  lemma PlainHex(c: char)
    requires Escaped(c)
    ensures Plain(HexChar(c as int / 16)) && Plain(HexChar(c as int % 16))
  {
  }

  lemma SwallowedEscape(c: char, more: string)
    requires Escaped(c)
    ensures Percents(Decoded((EncodeChar(c) + more)[2..])) == Percents(Decoded(more))
  {
    var low := HexChar(c as int % 16);
    PlainHex(c);
    assert (EncodeChar(c) + more)[2..] == [low] + more;
    PercentsBehind(low, more);
  }

  lemma SwallowedPair(c: char, d: char, more: string)
    requires !Escaped(c)
    ensures Percents(Decoded((EncodeChar(c) + (EncodeChar(d) + more))[2..])) == Percents(Decoded(more))
  {
    var e := EncodeChar(c) + (EncodeChar(d) + more);
    if Escaped(d) {
      var high, low := HexChar(d as int / 16), HexChar(d as int % 16);
      PlainHex(d);
      assert e[2..] == [high] + ([low] + more);
      PercentsBehind(high, [low] + more);
      PercentsBehind(low, more);
    } else {
      assert e[2..] == more;
    }
  }

  /** The first two encoded characters, swallowed by a per cent sign, leave at most two plain
      characters and the encoding of what was behind them. */
  lemma Swallowed(rest: string) returns (k: nat)
    requires |Encoded(rest)| >= 2
    ensures 0 < k <= |rest|
    ensures Percents(Decoded(Encoded(rest)[2..])) == Percents(Decoded(Encoded(rest[k..])))
  {
    if Escaped(rest[0]) {
      k := 1;
      SwallowedEscape(rest[0], Encoded(rest[1..]));
    } else {
      k := 2;
      assert rest[1..][1..] == rest[2..];
      SwallowedPair(rest[0], rest[1], Encoded(rest[2..]));
    }
  }

  lemma DecodedPercent(e: string)
    requires |e| >= 2 && CharOf(Strtol2(e[0], e[1])) != '%'
    ensures Percents(Decoded("%" + e)) == Percents(Decoded(e[2..]))
  {
    var n := CharOf(Strtol2(e[0], e[1]));
    assert "%" + e == ['%', e[0], e[1]] + e[2..];
    DecodedEscape(e[0], e[1], e[2..]);
    PercentsCons(n, Decoded(e[2..]));
  }

  lemma {:induction false} PercentsOfSuffix(s: string, k: nat)
    requires k <= |s|
    ensures Percents(s[k..]) <= Percents(s)
    decreases k
  {
    if k == 0 {
      assert s[0..] == s;
    } else {
      PercentsOfSuffix(s[1..], k - 1);
      assert s[1..][k - 1..] == s[k..];
    }
  }

  /** Coding never adds per cent signs, and loses some unless all are safe. */
  lemma {:induction false} PercentsLost(value: string)
    ensures Percents(Decoded(Encoded(value))) <= Percents(value)
    ensures !PercentsSafe(value) ==> Percents(Decoded(Encoded(value))) < Percents(value)
    decreases |value|
  {
    if value != "" {
      var c, rest := value[0], value[1..];
      assert value == [c] + rest;
      SafeNext(c, rest);
      if c == '%' && |Encoded(rest)| >= 2 {
        var e := Encoded(rest);
        NeverPercent(e[0], e[1], rest);
        DecodedPercent(e);
        var k := Swallowed(rest);
        PercentsLost(rest[k..]);
        PercentsOfSuffix(rest, k);
      } else {
        DecodedNext(c, Encoded(rest));
        PercentsCons(c, Decoded(Encoded(rest)));
        PercentsLost(rest);
      }
    }
  }
}
