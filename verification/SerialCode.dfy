/** Codes that take in symbols bit by bit: the eight steps of a symbol are eight steps that each
    mix in one bit.

    Where a symbol begins does not matter then, so what holds of damage to two symbols holds of
    damage to any sixteen bits in a row. */
module SerialCode {
  import opened LinearCode

  /** How a symbol is taken apart: its `word` is what mixing it in adds to the register, the
      `front` bit of a word is the next to go in, worth `one`, and leaves the `rest`. `symbol`
      puts eight bits together again. */
  datatype Wire<!W, !B> = Wire(
    plus: (W, W) -> W, one: W,
    front: W -> bool, rest: W -> W,
    word: B -> W, symbol: seq<bool> -> B)

  function Step<W, B>(c: Code<W, B>, w: Wire<W, B>, s: W, x: bool): W { c.bit(if x then w.plus(s, w.one) else s) }

  function StepOf<W, B>(c: Code<W, B>, w: Wire<W, B>): (W, bool) -> W { (s, x) => Step(c, w, s, x) }

  function Bits<W, B>(w: Wire<W, B>, r: W, n: nat): (u: seq<bool>)
    ensures |u| == n
    decreases n
  {
    if n == 0 then [] else [w.front(r)] + Bits(w, w.rest(r), n - 1)
  }

  function BitsOf<W, B>(w: Wire<W, B>, b: B): seq<bool> { Bits(w, w.word(b), BITS) }

  /** The bits of a word, read off along the words left behind it. */
  lemma {:induction false} BitsAlong<W, B>(w: Wire<W, B>, words: seq<W>, u: seq<bool>)
    requires |words| == |u| > 0 && forall i :: 0 <= i < |u| ==> w.front(words[i]) == u[i]
    requires forall i, j :: 0 <= i < |u| && j == i + 1 < |u| ==> w.rest(words[i]) == words[j]
    ensures Bits(w, words[0], |u|) == u
    decreases |u|
  {
    assert u == [u[0]] + u[1..];
    if |u| > 1 {
      BitsAlong(w, words[1..], u[1..]);
    }
  }

  lemma BitsOfEight<W, B>(w: Wire<W, B>, r0: W, r1: W, r2: W, r3: W, r4: W, r5: W, r6: W, r7: W, u: seq<bool>)
    requires |u| == BITS
    requires w.front(r0) == u[0] && w.front(r1) == u[1] && w.front(r2) == u[2] && w.front(r3) == u[3]
    requires w.front(r4) == u[4] && w.front(r5) == u[5] && w.front(r6) == u[6] && w.front(r7) == u[7]
    requires w.rest(r0) == r1 && w.rest(r1) == r2 && w.rest(r2) == r3 && w.rest(r3) == r4
    requires w.rest(r4) == r5 && w.rest(r5) == r6 && w.rest(r6) == r7
    ensures Bits(w, r0, BITS) == u
  {
    BitsAlong(w, [r0, r1, r2, r3, r4, r5, r6, r7], u);
  }

  /** The bits of a string of symbols, in the order in which they go in. */
  function Stream<W, B>(w: Wire<W, B>, d: seq<B>): seq<bool> {
    if d == [] then [] else Stream(w, d[..|d| - 1]) + BitsOf(w, d[|d| - 1])
  }

  ghost predicate Zeroed<W(!new), B>(c: Code<W, B>, w: Wire<W, B>) {
    && (forall x :: w.plus(x, c.zero) == x)
    && w.word(c.blank) == c.zero && !w.front(c.zero) && w.rest(c.zero) == c.zero
  }

  /** Bit steps respect addition, and take a word's front bit out of it. */
  ghost predicate Stepped<W, B>(c: Code<W, B>, w: Wire<W, B>, s: W, r: W) {
    && c.bit(w.plus(s, r)) == w.plus(c.bit(s), c.bit(r))
    && c.bit(w.plus(s, w.one)) == w.plus(c.bit(s), c.bit(w.one))
    && c.bit(r) == (if w.front(r) then w.plus(c.bit(w.one), w.rest(r)) else w.rest(r))
    && w.plus(w.plus(c.bit(s), c.bit(w.one)), w.rest(r)) == w.plus(c.bit(s), w.plus(c.bit(w.one), w.rest(r)))
  }

  /** So a step on a sum is a step that mixes in the front bit alone, and leaves the rest. */
  ghost predicate Feeds<W(!new), B>(c: Code<W, B>, w: Wire<W, B>) {
    forall s, r :: c.bit(w.plus(s, r)) == w.plus(Step(c, w, s, w.front(r)), w.rest(r))
  }

  ghost predicate Mixed<W(!new), B(!new)>(c: Code<W, B>, w: Wire<W, B>) {
    && (forall s, b :: c.mix(s, b) == w.plus(s, w.word(b)))
    && (forall b :: Down(w.rest, w.word(b), BITS) == c.zero)
    && (forall u: seq<bool> :: |u| == BITS ==> BitsOf(w, w.symbol(u)) == u)
  }

  ghost predicate Serial<W(!new), B(!new)>(c: Code<W, B>, w: Wire<W, B>) {
    Zeroed(c, w) && Feeds(c, w) && Mixed(c, w)
  }

  lemma StepOfSum<W, B>(c: Code<W, B>, w: Wire<W, B>, s: W, r: W)
    requires Stepped(c, w, s, r)
    ensures c.bit(w.plus(s, r)) == w.plus(Step(c, w, s, w.front(r)), w.rest(r))
  {
  }

  lemma FoldCons<S, B>(f: (S, B) -> S, start: S, first: B, more: seq<B>)
    ensures Fold(f, start, [first] + more) == Fold(f, f(start, first), more)
  {
    FoldConcat(f, start, [first], more);
    assert Fold(f, start, [first]) == f(Fold(f, start, [first][..0]), first);
  }

  /** Bit steps on a word that was added at once, and on one whose bits are added in turn. */
  lemma {:induction false} BitByBit<W(!new), B(!new)>(c: Code<W, B>, w: Wire<W, B>, s: W, r: W, n: nat)
    requires Feeds(c, w)
    ensures Iterate(c.bit, w.plus(s, r), n) == w.plus(Fold(StepOf(c, w), s, Bits(w, r, n)), Down(w.rest, r, n))
    decreases n
  {
    if n > 0 {
      IterateInside(c.bit, w.plus(s, r), n - 1);
      BitByBit(c, w, Step(c, w, s, w.front(r)), w.rest(r), n - 1);
      FoldCons(StepOf(c, w), s, w.front(r), Bits(w, w.rest(r), n - 1));
    }
  }

  lemma TakeSerial<W(!new), B(!new)>(c: Code<W, B>, w: Wire<W, B>, s: W, b: B)
    requires Serial(c, w)
    ensures Take(c, s, b) == Fold(StepOf(c, w), s, BitsOf(w, b))
  {
    BitByBit(c, w, s, w.word(b), BITS);
  }

  lemma {:induction false} CheckSerial<W(!new), B(!new)>(c: Code<W, B>, w: Wire<W, B>, s: W, d: seq<B>)
    requires Serial(c, w)
    ensures Check(c, s, d) == Fold(StepOf(c, w), s, Stream(w, d))
  {
    if d != [] {
      var n := |d| - 1;
      CheckSerial(c, w, s, d[..n]);
      TakeSerial(c, w, Check(c, s, d[..n]), d[n]);
      FoldConcat(StepOf(c, w), s, Stream(w, d[..n]), BitsOf(w, d[n]));
    }
  }

  // ----- bursts

  function Zeros(n: nat): (u: seq<bool>)
    ensures |u| == n && forall i :: 0 <= i < n ==> !u[i]
  {
    seq(n, i => false)
  }

  /** Zero bits neither create nor cancel a difference in the register. */
  lemma {:induction false} ZerosKeepDifference<W(!new), B(!new)>(c: Code<W, B>, w: Wire<W, B>, s: W, n: nat)
    requires OnlyZeroToZero(c.bit, c.zero)
    ensures Fold(StepOf(c, w), s, Zeros(n)) == c.zero <==> s == c.zero
  {
    if n > 0 {
      ZerosKeepDifference(c, w, s, n - 1);
      assert Zeros(n)[..n - 1] == Zeros(n - 1);
    }
  }

  lemma {:induction false} ZeroBits<W(!new), B(!new)>(c: Code<W, B>, w: Wire<W, B>, n: nat)
    requires Zeroed(c, w)
    ensures Bits(w, c.zero, n) == Zeros(n)
  {
    if n > 0 {
      ZeroBits(c, w, n - 1);
    }
  }

  lemma TwoSymbolsClear<W(!new), B(!new)>(c: Code<W, B>, w: Wire<W, B>, a: B, b: B)
    requires Serial(c, w) && Faithful(c)
    requires Fold(StepOf(c, w), Fold(StepOf(c, w), c.zero, BitsOf(w, a)), BitsOf(w, b)) == c.zero
    ensures a == c.blank && b == c.blank
  {
    TakeSerial(c, w, c.zero, a);
    TakeSerial(c, w, Take(c, c.zero, a), b);
    TwoSymbolsNeverCancel(c, a, b);
  }

  lemma SymbolOf<W(!new), B(!new)>(c: Code<W, B>, w: Wire<W, B>, u: seq<bool>) returns (b: B)
    requires Serial(c, w) && |u| == BITS
    ensures BitsOf(w, b) == u && (b == c.blank ==> u == Zeros(BITS))
  {
    b := w.symbol(u);
    ZeroBits(c, w, BITS);
  }

  /** Any sixteen bits are two symbols. */
  lemma SixteenClear<W(!new), B(!new)>(c: Code<W, B>, w: Wire<W, B>, u: seq<bool>, v: seq<bool>)
    requires Serial(c, w) && Faithful(c) && |u| == BITS && |v| == BITS && Fold(StepOf(c, w), c.zero, u + v) == c.zero
    ensures u == Zeros(BITS) && v == Zeros(BITS)
  {
    FoldConcat(StepOf(c, w), c.zero, u, v);
    var a := SymbolOf(c, w, u);
    var b := SymbolOf(c, w, v);
    TwoSymbolsClear(c, w, a, b);
  }

  /** Up to sixteen bits, filled up and divided. */
  lemma Halves(u: seq<bool>) returns (a: seq<bool>, b: seq<bool>, pad: nat)
    requires |u| <= BITS + BITS
    ensures |a| == BITS && |b| == BITS && u + Zeros(pad) == a + b
    ensures a == Zeros(BITS) && b == Zeros(BITS) ==> u == Zeros(|u|)
  {
    pad := BITS + BITS - |u|;
    var t := u + Zeros(pad);
    a, b := t[..BITS], t[BITS..];
    if a == Zeros(BITS) && b == Zeros(BITS) {
      forall i | 0 <= i < |u| ensures !u[i] {
        assert u[i] == t[i] && t[i] == if i < BITS then a[i] else b[i - BITS];
      }
    }
  }

  lemma PaddedClear<W(!new), B(!new)>(c: Code<W, B>, w: Wire<W, B>, u: seq<bool>, pad: nat)
    requires OnlyZeroToZero(c.bit, c.zero) && Fold(StepOf(c, w), c.zero, u) == c.zero
    ensures Fold(StepOf(c, w), c.zero, u + Zeros(pad)) == c.zero
  {
    FoldConcat(StepOf(c, w), c.zero, u, Zeros(pad));
    ZerosKeepDifference(c, w, c.zero, pad);
  }

  lemma ShortClear<W(!new), B(!new)>(c: Code<W, B>, w: Wire<W, B>, u: seq<bool>)
    requires Serial(c, w) && Faithful(c) && |u| <= BITS + BITS && Fold(StepOf(c, w), c.zero, u) == c.zero
    ensures u == Zeros(|u|)
  {
    var a, b, pad := Halves(u);
    PaddedClear(c, w, u, pad);
    SixteenClear(c, w, a, b);
  }

  /** Some bits with nothing but zeros around them. */
  ghost predicate Alone<W, B>(w: Wire<W, B>, d: seq<B>, before: nat, u: seq<bool>, after: nat) {
    Stream(w, d) == Zeros(before) + (u + Zeros(after))
  }

  lemma ClearIff<W(!new), B(!new)>(c: Code<W, B>, w: Wire<W, B>, d: seq<B>, before: nat, u: seq<bool>, after: nat)
    requires Serial(c, w) && OnlyZeroToZero(c.bit, c.zero) && Alone(w, d, before, u, after)
    ensures Check(c, c.zero, d) == c.zero <==> Fold(StepOf(c, w), c.zero, u) == c.zero
  {
    var f := StepOf(c, w);
    CheckSerial(c, w, c.zero, d);
    FoldConcat(f, c.zero, Zeros(before), u + Zeros(after));
    FoldConcat(f, c.zero, u, Zeros(after));
    ZerosKeepDifference(c, w, c.zero, before);
    ZerosKeepDifference(c, w, Fold(f, c.zero, u), after);
  }

  /** The bits set are among sixteen in a row, wherever those begin. */
  ghost predicate Burst<W, B>(w: Wire<W, B>, d: seq<B>, before: nat, u: seq<bool>, after: nat) {
    Alone(w, d, before, u, after) && |u| <= BITS + BITS && u != Zeros(|u|)
  }

  lemma BurstNonzero<W(!new), B(!new)>(c: Code<W, B>, w: Wire<W, B>, d: seq<B>, before: nat, u: seq<bool>, after: nat)
    requires Serial(c, w) && Faithful(c) && Burst(w, d, before, u, after)
    ensures Check(c, c.zero, d) != c.zero
  {
    ClearIff(c, w, d, before, u, after);
    if Fold(StepOf(c, w), c.zero, u) == c.zero {
      ShortClear(c, w, u);
    }
  }

  /** A burst in the covered part, the checksum being left alone, is never accepted. */
  lemma CoveredBurstRejected<W(!new), B(!new)>(c: Code<W, B>, w: Wire<W, B>, l: Layout, pattern: seq<B>,
                                              before: nat, u: seq<bool>, after: nat)
    requires Serial(c, w) && Faithful(c) && 0 <= l.CheckAt(|pattern|)
    requires pattern[l.CheckAt(|pattern|)] == c.blank && pattern[l.CheckAt(|pattern|) + 1] == c.blank
    requires Burst(w, Covered(l, pattern), before, u, after)
    ensures !Accepts(c, l, pattern)
  {
    BurstNonzero(c, w, Covered(l, pattern), before, u, after);
    BlankChecksum(c, l, pattern);
  }

  lemma BlankChecksum<W(!new), B(!new)>(c: Code<W, B>, l: Layout, pattern: seq<B>)
    requires Faithful(c) && 0 <= l.CheckAt(|pattern|) && Check(c, c.zero, Covered(l, pattern)) != c.zero
    requires pattern[l.CheckAt(|pattern|)] == c.blank && pattern[l.CheckAt(|pattern|) + 1] == c.blank
    ensures !Accepts(c, l, pattern)
  {
  }

  // ----- the checksum as part of the stream

  ghost predicate Cancelling<W(!new)>(plus: (W, W) -> W, zero: W) {
    forall x :: plus(x, x) == zero && plus(zero, x) == x
  }

  /** If two symbols clear a register, two others leave of it what their difference leaves of
      nothing. */
  lemma Difference<W(!new), B(!new)>(c: Code<W, B>, plus: (W, W) -> W, add: (B, B) -> B, r: W, a: B, b: B, a': B, b': B)
    requires Linear(c, plus, add) && Cancelling(plus, c.zero) && Take(c, Take(c, r, a), b) == c.zero
    ensures Take(c, Take(c, c.zero, add(a, a')), add(b, b')) == Take(c, Take(c, r, a'), b')
  {
    TakeOfSum(c, plus, add, r, r, a, a');
    TakeOfSum(c, plus, add, Take(c, r, a), Take(c, r, a'), b, b');
  }

  lemma OnlyHalvesClear<W(!new), B(!new)>(c: Code<W, B>, add: (B, B) -> B, r: W, a: B, b: B)
    requires Faithful(c) && Take(c, Take(c, r, c.low(r)), c.high(r)) == c.zero
    requires (add(c.low(r), a) == c.blank ==> a == c.low(r)) && (add(c.high(r), b) == c.blank ==> b == c.high(r))
    requires Take(c, Take(c, c.zero, add(c.low(r), a)), add(c.high(r), b)) == Take(c, Take(c, r, a), b)
    ensures Take(c, Take(c, r, a), b) == c.zero <==> a == c.low(r) && b == c.high(r)
  {
    if Take(c, Take(c, r, a), b) == c.zero {
      TwoSymbolsNeverCancel(c, add(c.low(r), a), add(c.high(r), b));
    }
  }

  lemma CheckOneMore<W, B>(c: Code<W, B>, s: W, d: seq<B>, a: B)
    ensures Check(c, s, d + [a]) == Take(c, Check(c, s, d), a)
  {
    assert (d + [a])[..|d|] == d;
  }

  lemma CheckTwoMore<W, B>(c: Code<W, B>, s: W, d: seq<B>, a: B, b: B)
    ensures Check(c, s, d + [a] + [b]) == Take(c, Take(c, Check(c, s, d), a), b)
  {
    CheckOneMore(c, s, d, a);
    CheckOneMore(c, s, d + [a], b);
  }

  /** The register is cleared by its two halves and by nothing else, so that the checksum can be
      taken in like the symbols before it. */
  ghost predicate SelfChecking<W(!new), B(!new)>(c: Code<W, B>) {
    forall r, a, b :: Take(c, Take(c, r, a), b) == c.zero <==> a == c.low(r) && b == c.high(r)
  }

  lemma AcceptsAsStream<W(!new), B(!new)>(c: Code<W, B>, l: Layout, frame: seq<B>)
    requires SelfChecking(c) && |frame| >= l.head + l.trailer + 2
    ensures Accepts(c, l, frame) <==> Check(c, c.zero, frame[l.head..|frame| - l.trailer]) == c.zero
  {
    var at := l.CheckAt(|frame|);
    Between(l, frame);
    CheckTwoMore(c, c.zero, Covered(l, frame), frame[at], frame[at + 1]);
  }

  /** Then a burst may reach the checksum, or lie in it. */
  lemma StreamBurstRejected<W(!new), B(!new)>(c: Code<W, B>, w: Wire<W, B>, l: Layout, pattern: seq<B>,
                                             before: nat, u: seq<bool>, after: nat)
    requires Serial(c, w) && Faithful(c) && SelfChecking(c) && |pattern| >= l.head + l.trailer + 2
    requires Burst(w, pattern[l.head..|pattern| - l.trailer], before, u, after)
    ensures !Accepts(c, l, pattern)
  {
    AcceptsAsStream(c, l, pattern);
    BurstNonzero(c, w, pattern[l.head..|pattern| - l.trailer], before, u, after);
  }

  // ----- two bits

  /** Two bits with so many between them. */
  function Pair(gap: nat): seq<bool> { [true] + (Zeros(gap) + [true]) }

  lemma {:induction false} ZerosIterate<W, B>(c: Code<W, B>, w: Wire<W, B>, s: W, n: nat)
    ensures Fold(StepOf(c, w), s, Zeros(n)) == Iterate(c.bit, s, n)
  {
    if n > 0 {
      ZerosIterate(c, w, s, n - 1);
      assert Zeros(n)[..n - 1] == Zeros(n - 1);
    }
  }

  /** After the second bit the register is clear only if the first one has come round to it. */
  lemma PairMeets<W(!new), B(!new)>(c: Code<W, B>, w: Wire<W, B>, gap: nat)
    requires OnlyZeroToZero(c.bit, c.zero) && w.plus(c.zero, w.one) == w.one
    requires var s := Iterate(c.bit, c.bit(w.one), gap); w.plus(s, w.one) == c.zero ==> s == w.one
    requires Fold(StepOf(c, w), c.zero, Pair(gap)) == c.zero
    ensures Iterate(c.bit, w.one, gap + 1) == w.one
  {
    var f := StepOf(c, w);
    FoldCons(f, c.zero, true, Zeros(gap) + [true]);
    FoldConcat(f, c.bit(w.one), Zeros(gap), [true]);
    ZerosIterate(c, w, c.bit(w.one), gap);
    FoldCons(f, Iterate(c.bit, c.bit(w.one), gap), true, []);
    IterateInside(c.bit, w.one, gap);
  }

  lemma TwoBitsNonzero<W(!new), B(!new)>(c: Code<W, B>, w: Wire<W, B>, d: seq<B>, before: nat, gap: nat, after: nat)
    requires Serial(c, w) && OnlyZeroToZero(c.bit, c.zero) && w.plus(c.zero, w.one) == w.one
    requires var s := Iterate(c.bit, c.bit(w.one), gap); w.plus(s, w.one) == c.zero ==> s == w.one
    requires Alone(w, d, before, Pair(gap), after) && Iterate(c.bit, w.one, gap + 1) != w.one
    ensures Check(c, c.zero, d) != c.zero
  {
    ClearIff(c, w, d, before, Pair(gap), after);
    if Fold(StepOf(c, w), c.zero, Pair(gap)) == c.zero {
      PairMeets(c, w, gap);
    }
  }

  /** What a single bit leaves in the register. */
  lemma LoneBit<W(!new), B(!new)>(c: Code<W, B>, w: Wire<W, B>, d: seq<B>, before: nat, after: nat)
    requires Serial(c, w) && OnlyZeroToZero(c.bit, c.zero) && w.plus(c.zero, w.one) == w.one
    requires Alone(w, d, before, [true], after)
    ensures Check(c, c.zero, d) == Iterate(c.bit, c.bit(w.one), after)
  {
    var f := StepOf(c, w);
    CheckSerial(c, w, c.zero, d);
    FoldConcat(f, c.zero, Zeros(before), [true] + Zeros(after));
    ZerosKeepDifference(c, w, c.zero, before);
    FoldCons(f, c.zero, true, Zeros(after));
    ZerosIterate(c, w, c.bit(w.one), after);
  }

  lemma NoBits<W(!new), B(!new)>(c: Code<W, B>, w: Wire<W, B>, d: seq<B>, n: nat)
    requires Serial(c, w) && OnlyZeroToZero(c.bit, c.zero) && Stream(w, d) == Zeros(n)
    ensures Check(c, c.zero, d) == c.zero
  {
    CheckSerial(c, w, c.zero, d);
    ZerosKeepDifference(c, w, c.zero, n);
  }
}
