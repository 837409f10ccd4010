/** Fixed-width decimal numbers in ASCII, written by repeated division and read back by
    weighted sums. */
module Decimal {
  import opened Bytes

  // The source divides by `pow(10, k)` in double precision and truncates, which on 32-bit
  // values is truncating integer division.

  /** `d * pow(10, n)` */
  function Scale(d: int, n: nat): int {
    if n == 0 then d else 10 * Scale(d, n - 1)
  }

  function Pow10(n: nat): (p: int)
    ensures p > 0
  {
    if n == 0 then 1 else 10 * Pow10(n - 1)
  }

  /** The number an ASCII digit stands for. */
  function DigitOf(octet: Octet): int { (octet as int) - 0x30 }

  function Lead(value: int, count: nat): int { TruncDiv(value, Pow10(count)) }

  /** The `count` digits the writer loops push for `value`; only the first one can be
      out of range, and a negative value makes them negative. */
  function Digits(value: int, count: nat): (digits: seq<Octet>)
    ensures |digits| == count
    decreases count
  {
    if count == 0 then []
    else
      var d := Lead(value, count - 1);
      [Squeeze(d + 0x30)] + Digits(value - Scale(d, count - 1), count - 1)
  }

  /** What the reader loops sum up. */
  function Denotes(digits: seq<Octet>): int {
    if digits == [] then 0
    else Scale(DigitOf(digits[0]), |digits| - 1) + Denotes(digits[1..])
  }

  predicate AllDigits(digits: seq<Octet>) {
    forall i :: 0 <= i < |digits| ==> 0x30 <= digits[i] <= 0x39
  }

  method WriteDigit(before: seq<Octet>, value: int, count: nat) returns (digits: seq<Octet>, rest: int)
    requires count > 0
    ensures digits + Digits(rest, count - 1) == before + Digits(value, count)
    ensures count == 1 ==> rest == 0
  {
    TakeDigit(before, value, count);
    var digit := Lead(value, count - 1);
    digits := before + [Squeeze(digit + 0x30)];
    rest := value - Scale(digit, count - 1);
  }

  /** The loop of the writers, shared by the volume and price groups. What remains of
      the value afterwards is zero. */
  method WriteDigits(value: int, count: nat) returns (digits: seq<Octet>, rest: int)
    ensures digits == Digits(value, count)
    ensures count > 0 ==> rest == 0
  {
    digits, rest := [], value;
    var i := 0;
    while i < count
      invariant 0 <= i <= count
      invariant digits + Digits(rest, count - i) == Digits(value, count)
      invariant 0 < i == count ==> rest == 0
    {
      digits, rest := WriteDigit(digits, rest, count - i);
      i := i + 1;
    }
  }

  /** Price groups, each behind a mark. Once one is written nothing of the price is left,
      so every group after the first is 00..0. */
  function Groups(mark: seq<Octet>, price: int, groups: int, width: nat): seq<Octet>
    decreases groups
  {
    if groups <= 0 then []
    else (mark + Digits(price, width)) + Groups(mark, 0, groups - 1, width)
  }

  /** The nested loops of the writers. */
  method WriteGroups(mark: seq<Octet>, price: int, groups: int, width: nat) returns (written: seq<Octet>)
    requires width > 0
    ensures written == Groups(mark, price, groups, width)
  {
    var left, j := price, 0;
    written := [];
    while j < groups
      invariant written + Groups(mark, left, groups - j, width) == Groups(mark, price, groups, width)
      decreases groups - j
    {
      var digits, rest := WriteDigits(left, width);
      Regroup(written, mark + digits, Groups(mark, 0, groups - j - 1, width));
      written := written + (mark + digits);
      left := rest;
      j := j + 1;
    }
  }

  lemma {:induction false} GroupsLength(mark: seq<Octet>, price: int, groups: int, width: nat)
    ensures |Groups(mark, price, groups, width)| == if groups > 0 then (|mark| + width) * groups else 0
    decreases groups
  {
    if groups > 0 {
      GroupsLength(mark, 0, groups - 1, width);
    }
  }

  lemma OneGroup(mark: seq<Octet>, price: int, width: nat)
    ensures Groups(mark, price, 1, width) == mark + Digits(price, width)
  {
  }

  function Repeated(group: seq<Octet>, n: nat): seq<Octet> { if n == 0 then [] else group + Repeated(group, n - 1) }

  lemma {:induction false} ZeroDigits(width: nat)
    ensures Digits(0, width) == seq(width, _ => 0x30)
  {
    if width > 0 {
      ZeroDigits(width - 1);
      ScaleZero(width - 1);
      assert Digits(0, width) == [0x30] + Digits(0, width - 1);
    }
  }

  lemma {:induction false} ScaleZero(n: nat)
    ensures Scale(0, n) == 0
  {
    if n > 0 {
      ScaleZero(n - 1);
    }
  }

  lemma {:induction false} ZeroGroups(mark: seq<Octet>, groups: nat, width: nat)
    ensures Groups(mark, 0, groups, width) == Repeated(mark + seq(width, _ => 0x30), groups)
    decreases groups
  {
    if groups > 0 {
      ZeroDigits(width);
      ZeroGroups(mark, groups - 1, width);
    }
  }

  /** The first group is the price, and all others are zeros behind their marks. */
  lemma GroupsAre(mark: seq<Octet>, price: int, groups: nat, width: nat)
    requires groups > 0
    ensures Groups(mark, price, groups, width) == mark + Digits(price, width) + Repeated(mark + seq(width, _ => 0x30), groups - 1)
  {
    ZeroGroups(mark, groups - 1, width);
  }

  /** The loop of the readers over `count` digits starting at `from`. */
  method ReadDigits(frame: seq<Octet>, from: nat, count: nat) returns (value: int)
    requires from + count <= |frame|
    ensures value == Denotes(frame[from..from + count])
  {
    value := 0;
    var i := 0;
    while i < count
      invariant 0 <= i <= count
      invariant value + Denotes(frame[from + i..from + count]) == Denotes(frame[from..from + count])
    {
      assert frame[from + i..from + count][1..] == frame[from + i + 1..from + count];
      value := value + Scale(DigitOf(frame[from + i]), count - 1 - i);
      i := i + 1;
    }
  }

  /** One round of the writers' loop; the last one leaves nothing of the value. */
  lemma TakeDigit(before: seq<Octet>, value: int, count: nat)
    requires count > 0
    ensures var d := Lead(value, count - 1);
            && before + Digits(value, count)
               == (before + [Squeeze(d + 0x30)]) + Digits(value - Scale(d, count - 1), count - 1)
            && (count == 1 ==> value - Scale(d, 0) == 0)
  {
    var d := Lead(value, count - 1);
    Regroup(before, [Squeeze(d + 0x30)], Digits(value - Scale(d, count - 1), count - 1));
  }

  // ----- arithmetic of the leading digit

  lemma {:induction false} ScaleIsProduct(d: int, n: nat)
    ensures Scale(d, n) == d * Pow10(n)
  {
    if n > 0 {
      ScaleIsProduct(d, n - 1);
    }
  }

  lemma NatLead(v: nat, p: int)
    requires p > 0
    ensures 0 <= v / p && 0 <= v - (v / p) * p < p
    ensures v < 10 * p ==> v / p <= 9
  {
    var q := v / p;
    assert v == p * q + v % p;
    if q >= 10 {
      assert p * q >= p * 10;
    }
  }

  lemma Negate(q: int, p: int)
    ensures (-q) * p == -(q * p)
  {
  }

  /** Taking off the leading digit leaves a remainder of the value's own sign. */
  lemma LeadBounds(value: int, n: nat)
    ensures var d, p := Lead(value, n), Pow10(n);
            && -p < value - Scale(d, n) < p
            && (value >= 0 ==> 0 <= value - Scale(d, n) && 0 <= d)
            && (-10 * p < value < 10 * p ==> -9 <= d <= 9)
  {
    var p := Pow10(n);
    ScaleIsProduct(Lead(value, n), n);
    if value >= 0 {
      NatLead(value, p);
    } else {
      NatLead(-value, p);
      Negate(-value / p, p);
    }
  }

  lemma {:induction false} ScaleInjective(a: int, b: int, n: nat)
    ensures Scale(a, n) == Scale(b, n) <==> a == b
  {
    if n > 0 {
      ScaleInjective(a, b, n - 1);
    }
  }

  lemma {:induction false} ScaleDigit(d: int, n: nat)
    requires 0 <= d <= 9
    ensures 0 <= Scale(d, n) <= 9 * Pow10(n)
  {
    if n > 0 {
      ScaleDigit(d, n - 1);
    }
  }

  lemma DigitByte(d: int)
    ensures DigitOf(Squeeze(d + 0x30)) == d <==> -0x30 <= d <= 0xff - 0x30
    ensures 0 <= d <= 9 ==> 0x30 <= Squeeze(d + 0x30) <= 0x39
  {
  }

  lemma DenotesCons(b: Octet, digits: seq<Octet>)
    ensures Denotes([b] + digits) == Scale(DigitOf(b), |digits|) + Denotes(digits)
  {
    assert ([b] + digits)[1..] == digits;
  }

  lemma {:induction false} DenotesSnoc(digits: seq<Octet>, last: Octet)
    ensures Denotes(digits + [last]) == 10 * Denotes(digits) + DigitOf(last)
  {
    if digits == [] {
      assert [] + [last] == [last];
    } else {
      assert digits + [last] == [digits[0]] + (digits[1..] + [last]);
      DenotesCons(digits[0], digits[1..] + [last]);
      DenotesSnoc(digits[1..], last);
    }
  }

  // ----- round trips

  /** A value that fits its width, of either sign, is read back from its digits. */
  lemma {:induction false} FittingValueReadsBack(value: int, count: nat)
    requires -Pow10(count) < value < Pow10(count)
    ensures Denotes(Digits(value, count)) == value
    decreases count
  {
    if count > 0 {
      var d := Lead(value, count - 1);
      var rest := value - Scale(d, count - 1);
      LeadBounds(value, count - 1);
      DigitByte(d);
      FittingValueReadsBack(rest, count - 1);
      DenotesCons(Squeeze(d + 0x30), Digits(rest, count - 1));
    }
  }

  lemma DenotesDigits(value: int, n: nat)
    ensures var d := Lead(value, n);
            Denotes(Digits(value, n + 1)) == Scale(DigitOf(Squeeze(d + 0x30)), n) + value - Scale(d, n)
  {
    var d := Lead(value, n);
    var rest := value - Scale(d, n);
    LeadBounds(value, n);
    FittingValueReadsBack(rest, n);
    DenotesCons(Squeeze(d + 0x30), Digits(rest, n));
  }

  /** Round trip, exactly: any value is read back if and only if its leading digit is
      still itself after being squeezed into a byte. */
  lemma ReadsBackIff(value: int, count: nat)
    requires count > 0
    ensures Denotes(Digits(value, count)) == value
       <==> -0x30 <= TruncDiv(value, Pow10(count - 1)) <= 0xff - 0x30
  {
    var d := Lead(value, count - 1);
    DenotesDigits(value, count - 1);
    DigitByte(d);
    ScaleInjective(DigitOf(Squeeze(d + 0x30)), d, count - 1);
  }

  lemma {:induction false} DigitsOfFitting(value: int, count: nat)
    requires 0 <= value < Pow10(count)
    ensures AllDigits(Digits(value, count))
    decreases count
  {
    if count > 0 {
      var d := Lead(value, count - 1);
      LeadBounds(value, count - 1);
      DigitByte(d);
      DigitsOfFitting(value - Scale(d, count - 1), count - 1);
    }
  }

  lemma {:induction false} DigitsDenoteFitting(digits: seq<Octet>)
    requires AllDigits(digits)
    ensures 0 <= Denotes(digits) < Pow10(|digits|)
  {
    if digits != [] {
      DigitsDenoteFitting(digits[1..]);
      ScaleDigit(DigitOf(digits[0]), |digits| - 1);
    }
  }

  /** The field is made of ASCII digits that denote the value if and only if the value
      is not negative and fits the width. */
  lemma FieldCorrectIff(value: int, count: nat)
    ensures AllDigits(Digits(value, count)) && Denotes(Digits(value, count)) == value
       <==> 0 <= value < Pow10(count)
  {
    if 0 <= value < Pow10(count) {
      DigitsOfFitting(value, count);
      FittingValueReadsBack(value, count);
    } else if AllDigits(Digits(value, count)) {
      DigitsDenoteFitting(Digits(value, count));
    }
  }
}
