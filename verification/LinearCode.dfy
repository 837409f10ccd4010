/** Checksums that respect an addition, over arbitrary registers and symbols: what the
    receiver's test accepts and exactly which damage it lets through.

    Nothing here looks inside the register, so the three protocols share every proof. */
module LinearCode {

  // ----- iterating and folding

  function Iterate<S>(f: S -> S, x: S, n: nat): S {
    if n == 0 then x else f(Iterate(f, x, n - 1))
  }

  /** The same from the inside. */
  function Down<S>(f: S -> S, x: S, n: nat): S
    decreases n
  {
    if n == 0 then x else Down(f, f(x), n - 1)
  }

  function Fold<S, B>(f: (S, B) -> S, start: S, items: seq<B>): S {
    if items == [] then start
    else f(Fold(f, start, items[..|items| - 1]), items[|items| - 1])
  }

  ghost predicate Additive<S(!new), T(!new)>(f: S -> T, plus: (S, S) -> S, add: (T, T) -> T) {
    forall x, y :: f(plus(x, y)) == add(f(x), f(y))
  }

  ghost predicate Additive2<S(!new), B(!new)>(f: (S, B) -> S, plus: (S, S) -> S, add: (B, B) -> B) {
    forall x, y, a, b :: f(plus(x, y), add(a, b)) == plus(f(x, a), f(y, b))
  }

  ghost predicate OnlyZeroToZero<S(!new)>(f: S -> S, zero: S) {
    forall x :: f(x) == zero <==> x == zero
  }

  lemma SameAdditive<S(!new)>(f: S -> S, g: S -> S, plus: (S, S) -> S)
    requires Additive(g, plus, plus) && forall x :: f(x) == g(x)
    ensures Additive(f, plus, plus)
  {
  }

  lemma {:induction false} IterateAdditive<S(!new)>(f: S -> S, plus: (S, S) -> S, x: S, y: S, n: nat)
    requires Additive(f, plus, plus)
    ensures Iterate(f, plus(x, y), n) == plus(Iterate(f, x, n), Iterate(f, y, n))
  {
    if n > 0 {
      IterateAdditive(f, plus, x, y, n - 1);
    }
  }

  lemma {:induction false} IterateInside<S>(f: S -> S, x: S, n: nat)
    ensures Iterate(f, x, n + 1) == Iterate(f, f(x), n)
  {
    if n > 0 {
      IterateInside(f, x, n - 1);
    }
  }

  lemma {:induction false} IterateZero<S(!new)>(f: S -> S, zero: S, x: S, n: nat)
    requires OnlyZeroToZero(f, zero)
    ensures Iterate(f, x, n) == zero <==> x == zero
  {
    if n > 0 {
      IterateZero(f, zero, x, n - 1);
    }
  }

  lemma {:induction false} FoldAdditive<S(!new), B(!new)>(f: (S, B) -> S, plus: (S, S) -> S, add: (B, B) -> B,
                                                          s: S, t: S, a: seq<B>, b: seq<B>)
    requires Additive2(f, plus, add) && |a| == |b|
    ensures Fold(f, plus(s, t), Sum(add, a, b)) == plus(Fold(f, s, a), Fold(f, t, b))
  {
    if a != [] {
      var n := |a| - 1;
      assert Sum(add, a, b)[..n] == Sum(add, a[..n], b[..n]);
      FoldAdditive(f, plus, add, s, t, a[..n], b[..n]);
    }
  }

  lemma {:induction false} FoldConcat<S, B>(f: (S, B) -> S, start: S, a: seq<B>, b: seq<B>)
    ensures Fold(f, start, a + b) == Fold(f, Fold(f, start, a), b)
  {
    if b == [] {
      assert a + b == a;
    } else {
      assert (a + b)[..|a + b| - 1] == a + b[..|b| - 1];
      FoldConcat(f, start, a, b[..|b| - 1]);
    }
  }

  /** If `h` carries every step of `f` to a step of `g`, it carries whole runs. */
  lemma {:induction false} IterateSimulates<S(!new), T(!new)>(f: S -> S, g: T -> T, h: S -> T, x: S, n: nat)
    requires forall s :: h(f(s)) == g(h(s))
    ensures h(Iterate(f, x, n)) == Iterate(g, h(x), n)
  {
    if n > 0 {
      IterateSimulates(f, g, h, x, n - 1);
    }
  }

  lemma {:induction false} FoldSimulates<S(!new), T(!new), B(!new)>(f: (S, B) -> S, g: (T, B) -> T, h: S -> T,
                                                                    start: S, items: seq<B>)
    requires forall s, b :: h(f(s, b)) == g(h(s), b)
    ensures h(Fold(f, start, items)) == Fold(g, h(start), items)
  {
    if items != [] {
      FoldSimulates(f, g, h, start, items[..|items| - 1]);
    }
  }

  lemma SimulatesThrough<S(!new), T(!new)>(f: S -> S, f': S -> S, g: T -> T, g': T -> T, h: S -> T)
    requires (forall s :: f(s) == f'(s)) && (forall t :: g(t) == g'(t))
    requires forall s :: h(f'(s)) == g'(h(s))
    ensures forall s :: h(f(s)) == g(h(s))
  {
  }

  /** Symbol-wise sum of two strings of the same length. */
  function Sum<B>(add: (B, B) -> B, a: seq<B>, b: seq<B>): (c: seq<B>)
    requires |a| == |b|
    ensures |c| == |a| && forall i :: 0 <= i < |c| ==> c[i] == add(a[i], b[i])
  {
    seq(|a|, i requires 0 <= i < |a| => add(a[i], b[i]))
  }

  // ----- codes

  /** A register `W` that takes in a symbol `B` by mixing it in and making eight bit
      steps, and leaves as two symbols. `far` says that the part of the register which
      the next symbol is not mixed into is clear. */
  datatype Code<!W, !B> = Code(
    zero: W, blank: B,
    bit: W -> W, mix: (W, B) -> W,
    low: W -> B, high: W -> B,
    far: W -> bool)

  const BITS: nat := 8

  function Take<W, B>(c: Code<W, B>, s: W, b: B): W {
    Iterate(c.bit, c.mix(s, b), BITS)
  }

  function TakeOf<W, B>(c: Code<W, B>): (W, B) -> W { (s, b) => Take(c, s, b) }

  function Check<W, B>(c: Code<W, B>, start: W, symbols: seq<B>): W {
    Fold(TakeOf(c), start, symbols)
  }

  /** Register and symbols are groups in which every element is its own inverse, and
      every part of the code respects their addition. */
  ghost predicate Linear<W(!new), B(!new)>(c: Code<W, B>, plus: (W, W) -> W, add: (B, B) -> B) {
    && Additive(c.bit, plus, plus) && Additive2(c.mix, plus, add)
    && Additive(c.low, plus, add) && Additive(c.high, plus, add)
    && plus(c.zero, c.zero) == c.zero
    && (forall a, b, d :: add(a, b) == add(a, d) ==> b == d)
  }

  lemma LinearParts<W(!new), B(!new)>(c: Code<W, B>, plus: (W, W) -> W, add: (B, B) -> B)
    requires Additive(c.bit, plus, plus) && Additive2(c.mix, plus, add)
    requires Additive(c.low, plus, add) && Additive(c.high, plus, add)
    requires plus(c.zero, c.zero) == c.zero && forall a, b, d :: add(a, b) == add(a, d) ==> b == d
    ensures Linear(c, plus, add)
  {
  }

  /** Only zero looks like zero: in the bit step, the mixing, the two halves, and the far
      part after one symbol. */
  ghost predicate Faithful<W(!new), B(!new)>(c: Code<W, B>) {
    && OnlyZeroToZero(c.bit, c.zero)
    && (forall s :: c.mix(s, c.blank) == c.zero <==> s == c.zero)
    && (forall s :: c.low(s) == c.blank && c.high(s) == c.blank <==> s == c.zero)
    && (forall s, b :: c.mix(s, b) == c.zero ==> c.far(s))
    && (forall b :: c.mix(c.zero, b) == c.zero ==> b == c.blank)
    && (forall a :: c.far(Take(c, c.zero, a)) ==> a == c.blank)
  }

  lemma TakeOfSum<W(!new), B(!new)>(c: Code<W, B>, plus: (W, W) -> W, add: (B, B) -> B, s: W, t: W, a: B, b: B)
    requires Linear(c, plus, add)
    ensures Take(c, plus(s, t), add(a, b)) == plus(Take(c, s, a), Take(c, t, b))
  {
    IterateAdditive(c.bit, plus, c.mix(s, a), c.mix(t, b), BITS);
  }

  lemma TakeAdditive<W(!new), B(!new)>(c: Code<W, B>, plus: (W, W) -> W, add: (B, B) -> B)
    requires Linear(c, plus, add)
    ensures Additive2(TakeOf(c), plus, add)
  {
    forall s, t, a, b
      ensures Take(c, plus(s, t), add(a, b)) == plus(Take(c, s, a), Take(c, t, b))
    {
      TakeOfSum(c, plus, add, s, t, a, b);
    }
  }

  /** The checksum of a sum is the sum of the checksums. */
  lemma CheckLinear<W(!new), B(!new)>(c: Code<W, B>, plus: (W, W) -> W, add: (B, B) -> B, a: seq<B>, b: seq<B>)
    requires Linear(c, plus, add) && |a| == |b|
    ensures Check(c, c.zero, Sum(add, a, b)) == plus(Check(c, c.zero, a), Check(c, c.zero, b))
  {
    TakeAdditive(c, plus, add);
    FoldAdditive(TakeOf(c), plus, add, c.zero, c.zero, a, b);
  }

  lemma TakeZero<W(!new), B(!new)>(c: Code<W, B>, s: W, b: B)
    requires Faithful(c)
    ensures Take(c, s, b) == c.zero <==> c.mix(s, b) == c.zero
  {
    IterateZero(c.bit, c.zero, c.mix(s, b), BITS);
  }

  /** Blank symbols neither create nor cancel a difference in the register. */
  lemma {:induction false} BlanksKeepDifference<W(!new), B(!new)>(c: Code<W, B>, s: W, d: seq<B>)
    requires Faithful(c) && forall i :: 0 <= i < |d| ==> d[i] == c.blank
    ensures Check(c, s, d) == c.zero <==> s == c.zero
  {
    if d != [] {
      var n := |d| - 1;
      BlanksKeepDifference(c, s, d[..n]);
      TakeZero(c, Check(c, s, d[..n]), d[n]);
    }
  }

  lemma TwoSymbolsNeverCancel<W(!new), B(!new)>(c: Code<W, B>, a: B, b: B)
    requires Faithful(c) && Take(c, Take(c, c.zero, a), b) == c.zero
    ensures a == c.blank && b == c.blank
  {
    TakeZero(c, Take(c, c.zero, a), b);
    TakeZero(c, c.zero, a);
  }

  /** An error pattern confined to two adjacent symbols never has checksum zero. */
  lemma PairNonzero<W(!new), B(!new)>(c: Code<W, B>, d: seq<B>, i: nat, j: nat)
    requires Faithful(c) && i < |d| && j < |d| && d[j] != c.blank
    requires forall n :: 0 <= n < |d| && n != i && n != i + 1 ==> d[n] == c.blank
    ensures Check(c, c.zero, d) != c.zero
  {
    var f, before, a := TakeOf(c), d[..i], d[i];
    BlanksKeepDifference(c, c.zero, before);
    if i + 1 == |d| {
      TakeZero(c, c.zero, a);
      assert Check(c, c.zero, d) == Take(c, c.zero, a);
    } else {
      var b, after := d[i + 1], d[i + 2..];
      var s := Take(c, Take(c, c.zero, a), b);
      assert d == ((before + [a]) + [b]) + after;
      FoldConcat(f, c.zero, (before + [a]) + [b], after);
      assert ((before + [a]) + [b])[..i + 1] == before + [a] && (before + [a])[..i] == before;
      assert Fold(f, c.zero, before + [a]) == Take(c, c.zero, a);
      assert Fold(f, c.zero, (before + [a]) + [b]) == s;
      if s == c.zero {
        TwoSymbolsNeverCancel(c, a, b);
      }
      BlanksKeepDifference(c, s, after);
    }
  }

  // ----- tables

  /** A register splits into a near and a far part; bit steps only move the far part
      `down`, and a table holds what they make of the near part. */
  ghost predicate Tabulated<W(!new), B(!new)>(c: Code<W, B>, plus: (W, W) -> W,
                                              near: W -> W, far: W -> W, down: W -> W, entry: W -> W) {
    && (forall x :: plus(near(x), far(x)) == x)
    && (forall x :: Iterate(c.bit, far(x), BITS) == down(x))
    && (forall x :: Iterate(c.bit, near(x), BITS) == entry(x))
    && (forall s, b :: down(c.mix(s, b)) == down(s))
    && (forall x, y :: plus(x, y) == plus(y, x))
  }

  /** One lookup replaces the eight bit steps. */
  lemma LookupIsTake<W(!new), B(!new)>(c: Code<W, B>, plus: (W, W) -> W, near: W -> W, far: W -> W,
                                       down: W -> W, entry: W -> W, s: W, b: B)
    requires Additive(c.bit, plus, plus) && Tabulated(c, plus, near, far, down, entry)
    ensures plus(down(s), entry(c.mix(s, b))) == Take(c, s, b)
  {
    var x := c.mix(s, b);
    IterateAdditive(c.bit, plus, near(x), far(x), BITS);
  }

  // ----- frames

  /** `head` symbols before the covered part, then the checksum, low symbol first, and
      `trailer` symbols after it. */
  datatype Layout = Layout(head: nat, trailer: nat) {
    function CheckAt(length: nat): int { length - trailer - 2 }
  }

  function Covered<B>(l: Layout, frame: seq<B>): seq<B>
    requires 0 <= l.CheckAt(|frame|)
  {
    var end := l.CheckAt(|frame|);
    if l.head <= end then frame[l.head..end] else []
  }

  predicate Accepts<W, B(==)>(c: Code<W, B>, l: Layout, frame: seq<B>)
    requires 0 <= l.CheckAt(|frame|)
  {
    var sum, at := Check(c, c.zero, Covered(l, frame)), l.CheckAt(|frame|);
    frame[at] == c.low(sum) && frame[at + 1] == c.high(sum)
  }

  /** A frame as the builders lay it out. */
  function Assemble<B>(head: seq<B>, covered: seq<B>, low: B, high: B, trailer: seq<B>): (f: seq<B>)
    ensures |f| == |head| + |covered| + 2 + |trailer|
  {
    head + covered + [low, high] + trailer
  }

  lemma Assembled<B>(l: Layout, head: seq<B>, covered: seq<B>, low: B, high: B, trailer: seq<B>)
    requires |head| == l.head && |trailer| == l.trailer
    ensures var f := Assemble(head, covered, low, high, trailer);
            var at := l.CheckAt(|f|);
            0 <= at && Covered(l, f) == covered && f[at] == low && f[at + 1] == high
  {
    var f := Assemble(head, covered, low, high, trailer);
    assert f[|head|..|head| + |covered|] == covered;
  }

  lemma Disassembled<B>(l: Layout, frame: seq<B>, head: seq<B>, trailer: seq<B>)
    requires |head| == l.head && |trailer| == l.trailer && |frame| >= l.head + l.trailer + 2
    requires head <= frame && frame[|frame| - |trailer|..] == trailer
    ensures var at := l.CheckAt(|frame|);
            frame == Assemble(head, Covered(l, frame), frame[at], frame[at + 1], trailer)
  {
    var at := l.CheckAt(|frame|);
    assert frame[..at] == head + Covered(l, frame);
    assert frame[at..at + 2] == [frame[at], frame[at + 1]];
    assert frame == frame[..at] + frame[at..at + 2] + frame[at + 2..];
  }

  /** Damage passes the test exactly when the pattern of changes is itself an accepted
      frame: the accepted frames of one length are closed under addition. */
  lemma DamagePassesIffPatternPasses<W(!new), B(!new)>(c: Code<W, B>, plus: (W, W) -> W, add: (B, B) -> B,
                                                       l: Layout, frame: seq<B>, pattern: seq<B>)
    requires Linear(c, plus, add)
    requires |frame| == |pattern| && 0 <= l.CheckAt(|frame|) && Accepts(c, l, frame)
    ensures Accepts(c, l, Sum(add, frame, pattern)) <==> Accepts(c, l, pattern)
  {
    assert Covered(l, Sum(add, frame, pattern)) == Sum(add, Covered(l, frame), Covered(l, pattern));
    CheckLinear(c, plus, add, Covered(l, frame), Covered(l, pattern));
  }

  /** The symbols of the pattern that are not blank are among positions i and i + 1,
      between header and trailer. */
  ghost predicate AdjacentDamage<B>(l: Layout, blank: B, pattern: seq<B>, i: nat) {
    && |pattern| >= l.head + l.trailer + 2
    && l.head <= i < |pattern| - l.trailer
    && (exists j :: 0 <= j < |pattern| && pattern[j] != blank)
    && (forall j :: 0 <= j < |pattern| && pattern[j] != blank ==> (j == i || j == i + 1) && j < |pattern| - l.trailer)
  }

  lemma PatternInCovered<W(!new), B(!new)>(c: Code<W, B>, l: Layout, pattern: seq<B>, i: nat)
    requires Faithful(c) && AdjacentDamage(l, c.blank, pattern, i) && i + 1 < l.CheckAt(|pattern|)
    ensures !Accepts(c, l, pattern)
  {
    var part := Covered(l, pattern);
    var j :| 0 <= j < |pattern| && pattern[j] != c.blank;
    assert part[j - l.head] == pattern[j];
    PairNonzero(c, part, i - l.head, j - l.head);
  }

  lemma PatternInChecksum<W(!new), B(!new)>(c: Code<W, B>, l: Layout, pattern: seq<B>, i: nat)
    requires Faithful(c) && AdjacentDamage(l, c.blank, pattern, i) && l.CheckAt(|pattern|) <= i
    ensures !Accepts(c, l, pattern)
  {
    BlanksKeepDifference(c, c.zero, Covered(l, pattern));
  }

  /** The last covered symbol and the low checksum symbol change together, and the
      checksum changes by exactly that. */
  ghost predicate Straddles<W, B>(c: Code<W, B>, l: Layout, pattern: seq<B>, i: nat) {
    && 0 <= i < |pattern| - 1 && i + 1 == l.CheckAt(|pattern|)
    && c.low(Take(c, c.zero, pattern[i])) == pattern[i + 1]
    && c.high(Take(c, c.zero, pattern[i])) == c.blank
  }

  lemma PatternStraddles<W(!new), B(!new)>(c: Code<W, B>, l: Layout, pattern: seq<B>, i: nat)
    requires Faithful(c) && AdjacentDamage(l, c.blank, pattern, i) && i + 1 == l.CheckAt(|pattern|)
    ensures Accepts(c, l, pattern) <==> Straddles(c, l, pattern, i)
  {
    var part := Covered(l, pattern);
    BlanksKeepDifference(c, c.zero, part[..|part| - 1]);
    assert Check(c, c.zero, part) == Take(c, c.zero, pattern[i]);
  }

  lemma PatternPasses<W(!new), B(!new)>(c: Code<W, B>, l: Layout, pattern: seq<B>, i: nat)
    requires Faithful(c) && AdjacentDamage(l, c.blank, pattern, i)
    ensures Accepts(c, l, pattern) <==> Straddles(c, l, pattern, i)
  {
    if i + 1 < l.CheckAt(|pattern|) {
      PatternInCovered(c, l, pattern, i);
    } else if i + 1 == l.CheckAt(|pattern|) {
      PatternStraddles(c, l, pattern, i);
    } else {
      PatternInChecksum(c, l, pattern, i);
    }
  }

  /** Damage confined to two adjacent symbols anywhere between header and trailer, of an
      accepted frame of any length, passes the test exactly when it straddles. */
  lemma AdjacentDamagePasses<W(!new), B(!new)>(c: Code<W, B>, plus: (W, W) -> W, add: (B, B) -> B,
                                               l: Layout, frame: seq<B>, pattern: seq<B>, i: nat)
    requires Linear(c, plus, add) && Faithful(c)
    requires |frame| == |pattern| && AdjacentDamage(l, c.blank, pattern, i) && Accepts(c, l, frame)
    ensures Accepts(c, l, Sum(add, frame, pattern)) <==> Straddles(c, l, pattern, i)
  {
    DamagePassesIffPatternPasses(c, plus, add, l, frame, pattern);
    PatternPasses(c, l, pattern, i);
  }

  // ----- parity

  /** What a string of symbols adds up to under a measure. */
  function Total<B, P>(add: (P, P) -> P, none: P, measure: B -> P, items: seq<B>): P {
    if items == [] then none
    else add(Total(add, none, measure, items[..|items| - 1]), measure(items[|items| - 1]))
  }

  ghost predicate KeptByBits<W(!new), B(!new), P(!new)>(c: Code<W, B>, par: W -> P) {
    forall x :: par(c.bit(x)) == par(x)
  }

  ghost predicate AddedByMixing<W(!new), B(!new), P(!new)>(c: Code<W, B>, add: (P, P) -> P, par: W -> P, measure: B -> P) {
    forall s, b :: par(c.mix(s, b)) == add(par(s), measure(b))
  }

  ghost predicate MadeOfHalves<W(!new), B(!new), P(!new)>(c: Code<W, B>, add: (P, P) -> P, par: W -> P, measure: B -> P,
                                                         join: (B, B) -> W) {
    && (forall a, b :: par(join(a, b)) == add(measure(a), measure(b)))
    && (forall s :: join(c.low(s), c.high(s)) == s)
  }

  /** A measure of registers that bit steps keep, that mixing adds to, and that the two
      halves make up. */
  ghost predicate Measured<W(!new), B(!new), P(!new)>(c: Code<W, B>, add: (P, P) -> P, none: P, par: W -> P, measure: B -> P,
                                                     join: (B, B) -> W) {
    KeptByBits(c, par) && AddedByMixing(c, add, par, measure) && MadeOfHalves(c, add, par, measure, join) && par(c.zero) == none
  }

  lemma {:induction false} IterateMeasured<S(!new), P(!new)>(f: S -> S, par: S -> P, x: S, n: nat)
    requires forall s :: par(f(s)) == par(s)
    ensures par(Iterate(f, x, n)) == par(x)
  {
    if n > 0 {
      IterateMeasured(f, par, x, n - 1);
    }
  }

  lemma {:induction false} CheckMeasured<W(!new), B(!new), P(!new)>(c: Code<W, B>, add: (P, P) -> P, none: P, par: W -> P,
                                                                   measure: B -> P, join: (B, B) -> W, items: seq<B>)
    requires Measured(c, add, none, par, measure, join)
    ensures par(Check(c, c.zero, items)) == Total(add, none, measure, items)
  {
    if items != [] {
      var n := |items| - 1;
      CheckMeasured(c, add, none, par, measure, join, items[..n]);
      IterateMeasured(c.bit, par, c.mix(Check(c, c.zero, items[..n]), items[n]), BITS);
    }
  }

  /** In an accepted frame the covered part measures what the two check symbols do. */
  lemma AcceptedMeasured<W(!new), B(!new), P(!new)>(c: Code<W, B>, add: (P, P) -> P, none: P, par: W -> P, measure: B -> P,
                                                   join: (B, B) -> W, l: Layout, frame: seq<B>)
    requires Measured(c, add, none, par, measure, join) && 0 <= l.CheckAt(|frame|) && Accepts(c, l, frame)
    ensures var at := l.CheckAt(|frame|);
            Total(add, none, measure, Covered(l, frame)) == add(measure(frame[at]), measure(frame[at + 1]))
  {
    CheckMeasured(c, add, none, par, measure, join, Covered(l, frame));
  }

  lemma Between<B>(l: Layout, frame: seq<B>)
    requires |frame| >= l.head + l.trailer + 2
    ensures var at := l.CheckAt(|frame|);
            frame[l.head..|frame| - l.trailer] == Covered(l, frame) + [frame[at]] + [frame[at + 1]]
  {
  }

  lemma TotalOfTwo<B, P>(add: (P, P) -> P, none: P, measure: B -> P, items: seq<B>, a: B, b: B)
    ensures Total(add, none, measure, items + [a] + [b])
         == add(add(Total(add, none, measure, items), measure(a)), measure(b))
  {
    assert (items + [a] + [b])[..|items| + 1] == items + [a] && (items + [a])[..|items|] == items;
  }

  /** So everything between header and trailer measures the check symbols twice. */
  lemma TwiceMeasured<W(!new), B(!new), P(!new)>(c: Code<W, B>, add: (P, P) -> P, none: P, par: W -> P, measure: B -> P,
                                                join: (B, B) -> W, l: Layout, frame: seq<B>)
    requires Measured(c, add, none, par, measure, join) && |frame| >= l.head + l.trailer + 2 && Accepts(c, l, frame)
    ensures var at := l.CheckAt(|frame|);
            var p, q := measure(frame[at]), measure(frame[at + 1]);
            Total(add, none, measure, frame[l.head..|frame| - l.trailer]) == add(add(add(p, q), p), q)
  {
    var at := l.CheckAt(|frame|);
    AcceptedMeasured(c, add, none, par, measure, join, l, frame);
    Between(l, frame);
    TotalOfTwo(add, none, measure, Covered(l, frame), frame[at], frame[at + 1]);
  }

  function Xor(p: bool, q: bool): bool { p != q }

  /** Some parity of registers goes with this parity of symbols. */
  ghost predicate HasParity<W(!new), B(!new)>(c: Code<W, B>, odd: B -> bool) {
    exists par: W -> bool, join: (B, B) -> W :: Measured(c, Xor, false, par, odd, join)
  }

  /** It is then even over everything between header and trailer of an accepted frame. */
  lemma EvenBetween<W(!new), B(!new)>(c: Code<W, B>, odd: B -> bool, l: Layout, frame: seq<B>)
    requires HasParity(c, odd) && |frame| >= l.head + l.trailer + 2 && Accepts(c, l, frame)
    ensures !Total(Xor, false, odd, frame[l.head..|frame| - l.trailer])
  {
    var par: W -> bool, join: (B, B) -> W :| Measured(c, Xor, false, par, odd, join);
    TwiceMeasured(c, Xor, false, par, odd, join, l, frame);
  }
}
