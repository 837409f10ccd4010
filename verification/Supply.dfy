/** The volumes a simulated supply goes through: a tenth, nine tenths, all. */
module Supply {
  import opened Bytes
  import opened Float32

  function Ten(volume: int): int { TruncDiv(ToFloat(volume), 10) }

  function Ninety(volume: int): int { volume * 9 }

  function Hundred(volume: int): int { TruncDiv(ToFloat(volume) * 10, 9) }

  /** A zero volume is not stored over an old one. */
  function Kept(newVolume: int, volume: int): int { if newVolume != 0 then newVolume else volume }

  /** The stored volume after so many advancing status requests. */
  function Stored(requested: int, stage: nat): int
    requires stage <= 3
  {
    if stage == 0 then requested
    else if stage == 1 then Kept(Ten(requested), requested)
    else if stage == 2 then Kept(Ninety(Stored(requested, 1)), Stored(requested, 1))
    else Kept(Hundred(Stored(requested, 2)), Stored(requested, 2))
  }

  /** The volume answered to the advancing status request. */
  function Answered(requested: int, stage: nat): int
    requires stage < 3
  {
    if stage == 0 then Ten(requested)
    else if stage == 1 then Ninety(Stored(requested, 1))
    else Hundred(Stored(requested, 2))
  }

  /** `volume / 1000 * price` in an int. The source's overflow is taken to wrap. */
  function SumOf(volume: int, price: int): int { Int32(TruncDiv(volume, 1000) * price) }

  /** What the sum should be. */
  function FullSum(volume: int, price: int): int { TruncDiv(volume, 1000) * price }

  predicate FitsInt(n: int) { -0x8000_0000 <= n < 0x8000_0000 }

  lemma SumFullIff(volume: int, price: int)
    ensures SumOf(volume, price) == FullSum(volume, price) <==> FitsInt(FullSum(volume, price))
  {
  }

  // ----- the arithmetic of one supply

  lemma Mirrored(v: int)
    ensures Ten(-v) == -Ten(v) && Hundred(-v) == -Hundred(v)
  {
  }

  /** Requests of opposite sign have answers of opposite sign. */
  lemma AnswersMirrored(v: int)
    ensures Answered(-v, 0) == -Answered(v, 0) && Answered(-v, 1) == -Answered(v, 1) && Answered(-v, 2) == -Answered(v, 2)
  {
    Mirrored(v);
    Mirrored(Stored(v, 2));
  }

  lemma TenOf(v: nat)
    requires RoundNat(v) >= 10
    ensures Ten(v) == RoundNat(v) / 10 != 0
  {
  }

  lemma HundredOf(n: nat)
    ensures Hundred(n) == RoundNat(n) * 10 / 9
  {
    NotBelowZero(n);
  }

  lemma NotBelowZero(n: nat)
    ensures RoundNat(n) >= 0
  {
    Nearest(n);
    if n < EXACT {
      RoundSmall(n);
    } else {
      UlpSmall(n);
    }
  }

  /** A request whose tenth is not zero. */
  lemma Stages(v: nat)
    requires RoundNat(v) >= 10
    ensures var t := RoundNat(v) / 10;
            Answered(v, 0) == t && Answered(v, 1) == 9 * t && Answered(v, 2) == RoundNat(9 * t) * 10 / 9
  {
    TenOf(v);
    HundredOf(9 * (RoundNat(v) / 10));
  }

  /** A request whose tenth is zero. */
  lemma SmallRequest(v: nat)
    requires v < 10
    ensures Answered(v, 0) == 0 && Answered(v, 1) == 9 * v && Answered(v, 2) == 10 * v
  {
    RoundSmall(v);
    RoundSmall(9 * v);
  }

  lemma AtLeastTen(v: nat)
    requires v >= 10
    ensures RoundNat(v) >= 10
  {
    Nearest(v);
    UlpSmall(v);
    if v < EXACT {
      RoundSmall(v);
    }
  }

  // ----- multiples of ten

  lemma Powers32(x: int, j: int)
    requires x == 32 * j
    ensures x % 16 == 0 && x % 8 == 0 && x % 4 == 0 && x % 2 == 0
  {
    Divides(x, 16, 2 * j, 0);
    Powers16(x, 2 * j);
  }

  lemma Powers16(x: int, j: int)
    requires x == 16 * j
    ensures x % 16 == 0 && x % 8 == 0 && x % 4 == 0 && x % 2 == 0
  {
    Divides(x, 16, j, 0);
    Divides(x, 8, 2 * j, 0);
    Divides(x, 4, 4 * j, 0);
    Divides(x, 2, 8 * j, 0);
  }

  lemma Powers8(x: int, j: int)
    requires x == 8 * j
    ensures x % 8 == 0 && x % 4 == 0 && x % 2 == 0
  {
    Divides(x, 8, j, 0);
    Divides(x, 4, 2 * j, 0);
    Divides(x, 2, 4 * j, 0);
  }

  lemma Powers4(x: int, j: int)
    requires x == 4 * j
    ensures x % 4 == 0 && x % 2 == 0
  {
    Divides(x, 4, j, 0);
    Divides(x, 2, 2 * j, 0);
  }

  /** Nine is odd, so what nine times a number is divisible by, the number is as well. */
  lemma DividesBack(m: int, a: int, b: int)
    requires a == 1 || a == 2 || a == 4 || a == 8 || a == 16
    requires (b == 1 || b == 2 || b == 4 || b == 8 || b == 16) && b <= 2 * a && (9 * m) % a == 0
    ensures (10 * m) % b == 0
  {
    var k := 9 * m / a;
    if a == 16 {
      Powers32(10 * m, 5 * (9 * k - 5 * m));
    } else if a == 8 {
      Powers16(10 * m, 5 * (9 * k - 10 * m));
    } else if a == 4 {
      Powers8(10 * m, 5 * (9 * k - 20 * m));
    } else if a == 2 {
      Powers4(10 * m, 5 * (9 * k - 40 * m));
    } else {
      Divides(10 * m, 2, 5 * m, 0);
    }
    Divides(10 * m, 1, 10 * m, 0);
  }

  /** If nine tenths of a multiple of ten are a float, so is the whole. */
  lemma WholeExact(m: nat)
    requires 10 * m < 16 * EXACT && RoundNat(9 * m) == 9 * m
    ensures RoundNat(10 * m) == 10 * m
  {
    Nearest(9 * m);
    Nearest(10 * m);
    UlpTable(9 * m);
    UlpTable(10 * m);
    DividesBack(m, Ulp(9 * m), Ulp(10 * m));
  }

  /** The tenth of the rounded request is its own, or one less. */
  lemma TenthNearly(m: nat)
    requires 10 * m < 16 * EXACT
    ensures RoundNat(10 * m) / 10 == m || RoundNat(10 * m) / 10 == m - 1
  {
    Nearest(10 * m);
    UlpTable(10 * m);
  }

  lemma InexactMisses(m: nat, t: int, f: int)
    requires (t == m && f != 9 * m) || (t == m - 1 && -8 <= f - 9 * t <= 8)
    ensures f * 10 / 9 != 10 * m
  {
  }

  lemma MultipleDelivered(m: nat)
    requires 10 * m < 16 * EXACT
    ensures Answered(10 * m, 2) == 10 * m <==> RoundNat(9 * m) == 9 * m
    ensures RoundNat(9 * m) == 9 * m ==> Answered(10 * m, 0) == m && Answered(10 * m, 1) == 9 * m
  {
    if m == 0 {
      SmallRequest(0);
      RoundSmall(0);
    } else {
      var t := RoundNat(10 * m) / 10;
      AtLeastTen(10 * m);
      Stages(10 * m);
      if RoundNat(9 * m) == 9 * m {
        WholeExact(m);
      } else {
        TenthNearly(m);
        Nearest(9 * t);
        UlpTable(9 * t);
        InexactMisses(m, t, RoundNat(9 * t));
      }
    }
  }

  lemma TenfoldDelivered(m: int)
    requires -16 * EXACT < 10 * m < 16 * EXACT
    ensures Answered(10 * m, 2) == 10 * m <==> ToFloat(9 * m) == 9 * m
    ensures Answered(10 * m, 2) == 10 * m ==> Answered(10 * m, 0) == m && Answered(10 * m, 1) == 9 * m
  {
    if m >= 0 {
      MultipleDelivered(m);
    } else {
      var k := -m;
      MultipleDelivered(k);
      AnswersMirrored(10 * k);
      assert -(10 * k) == 10 * m && -(9 * k) == 9 * m;
    }
  }

  /** A multiple of ten is delivered exactly if and only if nine tenths of it are a float,
      and then by way of exactly a tenth and nine tenths. The bound lies beyond all requests
      for which the conversion back to int is defined. */
  lemma DeliversIff(requested: int)
    requires requested % 10 == 0 && -16 * EXACT < requested < 16 * EXACT
    ensures Answered(requested, 2) == requested <==> ToFloat(9 * (requested / 10)) == 9 * (requested / 10)
    ensures Answered(requested, 2) == requested ==>
      Answered(requested, 0) == requested / 10 && Answered(requested, 1) == 9 * (requested / 10)
  {
    var m := requested / 10;
    assert requested == 10 * m;
    TenfoldDelivered(m);
  }

  /** The least multiple of ten that is not delivered: nine tenths of it are odd and beyond
      24 bits. */
  const FIRST_INEXACT: int := 18641370

  lemma FirstInexactFails()
    ensures FIRST_INEXACT % 10 == 0 && Answered(FIRST_INEXACT, 2) != FIRST_INEXACT
  {
    TenfoldDelivered(1864137);
    ExactRange(16777233);
  }

  lemma NinthsFit(m: int)
    requires -FIRST_INEXACT < 10 * m < FIRST_INEXACT
    ensures -EXACT <= 9 * m <= EXACT || (9 * m) % 2 == 0
  {
    assert m == 1864136 || m == -1864136 || -1864136 < m < 1864136;
  }

  lemma BelowFirstInexact(v: int)
    requires -FIRST_INEXACT < v < FIRST_INEXACT && v % 10 == 0
    ensures Answered(v, 2) == v
  {
    var m := v / 10;
    assert v == 10 * m;
    TenfoldDelivered(m);
    ExactRange(9 * m);
    NinthsFit(m);
  }

  // ----- every request below 2^25

  /** What a caller can see of a request. Besides multiples of ten whose nine tenths are
      even or not beyond 24 bits, some requests one above a multiple of ten are delivered,
      because two errors cancel. */
  predicate Deliverable(v: nat) {
    var tenth := v / 10;
    || (v % 10 == 0 && (9 * tenth <= EXACT || v % 20 == 0))
    || (v % 10 == 1 && 9 * tenth > EXACT && tenth % 4 == 3)
  }

  /** How far nine tenths are rounded. */
  lemma NinthsError(t: nat)
    requires 9 * t < 2 * EXACT
    ensures RoundNat(9 * t) - 9 * t == if 9 * t <= EXACT || t % 2 == 0 then 0 else if t % 4 == 3 then 1 else -1
  {
    SameResidue(t);
    RoundingError(9 * t);
  }

  lemma SameResidue(t: nat)
    ensures ((9 * t) % 2 == 0 <==> t % 2 == 0) && (9 * t) % 4 == t % 4
  {
    var k, j := t / 4, t % 4;
    OddQuarters(t, k, j);
    OddQuarters(9 * t, 9 * k + 2 * j, j);
  }

  lemma ErrorShows(t: nat, e: int)
    requires -1 <= e <= 1
    ensures (9 * t + e) * 10 / 9 == if e == 0 then 10 * t else if e == 1 then 10 * t + 1 else 10 * t - 2
  {
  }

  /** The same by tenth and last digit. */
  predicate DeliverableAt(tenth: nat, last: nat) {
    || (last == 0 && (9 * tenth <= EXACT || tenth % 2 == 0))
    || (last == 1 && 9 * tenth > EXACT && tenth % 4 == 3)
  }

  lemma ByLastDigit(v: nat, k: nat, r: nat)
    requires v == 10 * k + r && r < 10
    ensures Deliverable(v) <==> DeliverableAt(k, r)
  {
    Divides(v, 10, k, r);
    if r == 0 {
      Divides(v, 20, k / 2, 10 * (k % 2));
    }
  }

  /** Rounding by at most one hardly moves the tenth. */
  lemma TenthMoves(v: nat, k: nat, r: nat, f: int)
    requires v == 10 * k + r && r < 10 && -1 <= f - v <= 1 && (r == 0 ==> f == v)
    ensures f / 10 == k || (f / 10 == k + 1 && r == 9)
  {
    var i := f - 10 * k;
    if i < 10 {
      Divides(f, 10, k, i);
    } else {
      Divides(f, 10, k + 1, i - 10);
    }
  }

  lemma Cancel(k: nat, r: nat, t: nat, e: int, h: int)
    requires r < 10 && (t == k || (t == k + 1 && r == 9))
    requires e == if 9 * t <= EXACT || t % 2 == 0 then 0 else if t % 4 == 3 then 1 else -1
    requires h == if e == 0 then 10 * t else if e == 1 then 10 * t + 1 else 10 * t - 2
    ensures h == 10 * k + r <==> DeliverableAt(k, r)
  {
    OddQuarters(t, t / 4, t % 4);
    ErrorsCancel(k, r, t, e, h);
  }

  lemma ErrorsCancel(k: nat, r: nat, t: nat, e: int, h: int)
    requires r < 10 && (t == k || (t == k + 1 && r == 9)) && -1 <= e <= 1
    requires h == if e == 0 then 10 * t else if e == 1 then 10 * t + 1 else 10 * t - 2
    ensures h == 10 * k + r <==> t == k && ((r == 0 && e == 0) || (r == 1 && e == 1))
  {
  }

  lemma RoundedTenth(v: nat, k: nat, r: nat)
    requires v == 10 * k + r && r < 10 && v < 2 * EXACT
    ensures RoundNat(v) / 10 == k || (RoundNat(v) / 10 == k + 1 && r == 9)
  {
    Rounded(v);
    if r == 0 {
      Divides(v, 2, 5 * k, 0);
    }
    TenthMoves(v, k, r, RoundNat(v));
  }

  lemma DeliversBelow(requested: nat)
    requires requested < 2 * EXACT
    ensures Answered(requested, 2) == requested <==> Deliverable(requested)
  {
    if requested < 10 {
      SmallRequest(requested);
    } else {
      var k, r := requested / 10, requested % 10;
      AtLeastTen(requested);
      Stages(requested);
      RoundedTenth(requested, k, r);
      var t := RoundNat(requested) / 10;
      NinthsError(t);
      ErrorShows(t, RoundNat(9 * t) - 9 * t);
      Cancel(k, r, t, RoundNat(9 * t) - 9 * t, Answered(requested, 2));
      ByLastDigit(requested, k, r);
    }
  }

  /** One of them. */
  const CANCELLING: int := 18641391

  lemma CancelledErrors()
    ensures CANCELLING % 10 != 0 && Answered(CANCELLING, 2) == CANCELLING
  {
    Divides(CANCELLING, 10, 1864139, 1);
    Divides(1864139, 4, 466034, 3);
    DeliversBelow(CANCELLING);
  }

  /** Nine tenths of this are a float, but its sum at a price of 60000 does not fit an int. */
  lemma FortyThousandLitres()
    ensures Answered(40_000_000, 2) == 40_000_000 && SumOf(40_000_000, 60_000) == -1_894_967_296
  {
    Nearest(36_000_000);
    UlpTable(36_000_000);
    MultipleDelivered(4_000_000);
  }

  /** Nine tenths of a request that fits an int fit one as well. */
  lemma NinetyFits(requested: int)
    requires FitsInt(requested)
    ensures FitsInt(Answered(requested, 0)) && FitsInt(Answered(requested, 1))
  {
    if requested >= 0 {
      NatNinetyFits(requested);
    } else {
      AnswersMirrored(requested);
      NatNinetyFits(-requested);
    }
  }

  lemma NatNinetyFits(v: nat)
    requires v <= 0x8000_0000
    ensures 0 <= Answered(v, 0) <= Answered(v, 1) < 0x8000_0000
  {
    if v < 10 {
      SmallRequest(v);
    } else {
      AtLeastTen(v);
      Stages(v);
      Nearest(v);
      UlpSmall(v);
    }
  }

  // ----- monotony

  lemma NotBelow(n: nat)
    ensures n <= RoundNat(n) * 10 / 9
  {
    if n < EXACT {
      RoundSmall(n);
    } else {
      Nearest(n);
      UlpSmall(n);
    }
  }

  /** The answers to a request that is not negative never decrease. */
  lemma NeverDecreases(requested: nat)
    ensures 0 <= Answered(requested, 0) <= Answered(requested, 1) <= Answered(requested, 2)
  {
    if requested < 10 {
      SmallRequest(requested);
    } else {
      AtLeastTen(requested);
      Stages(requested);
      NotBelow(9 * (RoundNat(requested) / 10));
    }
  }
}
