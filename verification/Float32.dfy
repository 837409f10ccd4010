/** Ints converted to single-precision floats: the nearest number with 24 significant bits,
    ties to even. */
module Float32 {
  import opened Bytes

  const EXACT: int := 0x100_0000

  /** The distance between neighbouring floats from `n` up. */
  function Ulp(n: nat): (u: nat)
    ensures u > 0
  {
    if n < EXACT then 1 else 2 * Ulp(n / 2)
  }

  function RoundNat(n: nat): int {
    var u := Ulp(n);
    var q, r := n / u, n % u;
    if 2 * r < u || (2 * r == u && q % 2 == 0) then q * u else (q + 1) * u
  }

  function ToFloat(n: int): int { if n >= 0 then RoundNat(n) else -RoundNat(-n) }

  lemma UlpBelow(n: nat)
    requires n < 2 * EXACT
    ensures Ulp(n) == if n < EXACT then 1 else 2
  {
    if n >= EXACT {
      assert n / 2 < EXACT;
    }
  }

  /** Up to 2^24 every int is exact, up to 2^25 every even one, and the odd ones are one
      off. */
  lemma ExactRange(n: int)
    requires -2 * EXACT < n < 2 * EXACT
    ensures (-EXACT <= n <= EXACT || n % 2 == 0) <==> ToFloat(n) == n
    ensures ToFloat(n) == n || ToFloat(n) == n + 1 || ToFloat(n) == n - 1
    ensures n >= 0 <==> ToFloat(n) >= 0
  {
    var m := if n >= 0 then n else -n;
    UlpBelow(m);
    Rounded(m);
  }

  lemma RoundSmall(m: nat)
    requires m < EXACT
    ensures RoundNat(m) == m
  {
    UlpBelow(m);
    assert m / 1 == m && m % 1 == 0;
  }

  lemma RoundLarge(m: nat)
    requires EXACT <= m < 2 * EXACT
    ensures RoundNat(m) == if m % 2 == 0 then m else if (m / 2) % 2 == 0 then m - 1 else m + 1
  {
    UlpBelow(m);
    var q := m / 2;
    assert m == q * 2 + m % 2;
  }

  lemma Rounded(m: nat)
    requires m < 2 * EXACT
    ensures (m <= EXACT || m % 2 == 0) <==> RoundNat(m) == m
    ensures -1 <= RoundNat(m) - m <= 1 && (m == 0 ==> RoundNat(m) == 0)
  {
    if m < EXACT {
      RoundSmall(m);
    } else {
      RoundLarge(m);
    }
  }

  /** The error of rounding, by residue. */
  lemma RoundingError(m: nat)
    requires m < 2 * EXACT
    ensures RoundNat(m) - m == if m <= EXACT || m % 2 == 0 then 0 else if m % 4 == 3 then 1 else -1
  {
    if m < EXACT {
      RoundSmall(m);
    } else {
      RoundLarge(m);
      OddQuarters(m, m / 4, m % 4);
    }
  }

  lemma OddQuarters(m: nat, k: nat, j: nat)
    requires m == 4 * k + j && j < 4
    ensures m % 4 == j && (m % 2 == 0 <==> j == 0 || j == 2) && (m / 2) % 2 == if j < 2 then 0 else 1
  {
    Divides(m, 4, k, j);
    if j < 2 {
      Divides(m, 2, 2 * k, j);
      Divides(2 * k, 2, k, 0);
    } else {
      Divides(m, 2, 2 * k + 1, j - 2);
      Divides(2 * k + 1, 2, k, 1);
    }
  }

  /** Rounding goes to a multiple of the distance, by no more than half of it, and leaves
      exactly the multiples alone. */
  lemma Nearest(n: nat)
    ensures var u, f := Ulp(n), RoundNat(n); 2 * n <= 2 * f + u && 2 * f <= 2 * n + u && (f == n <==> n % u == 0)
  {
    var u := Ulp(n);
    var q, r := n / u, n % u;
    assert n == q * u + r;
    assert (q + 1) * u == q * u + u;
  }

  lemma UlpTable(n: nat)
    requires n < 16 * EXACT
    ensures Ulp(n) == if n < EXACT then 1 else if n < 2 * EXACT then 2 else if n < 4 * EXACT then 4
                      else if n < 8 * EXACT then 8 else 16
  {
    UlpHalves(n);
    UlpHalves(n / 2);
    UlpHalves(n / 4);
    UlpHalves(n / 8);
    UlpHalves(n / 16);
    assert n / 2 / 2 == n / 4 && n / 4 / 2 == n / 8 && n / 8 / 2 == n / 16;
  }

  lemma UlpHalves(n: nat)
    ensures Ulp(n) == if n < EXACT then 1 else 2 * Ulp(n / 2)
  {
  }

  /** Neighbouring floats are close. */
  lemma {:induction false} UlpSmall(n: nat)
    ensures n >= EXACT ==> 5 * Ulp(n) <= n
  {
    if n >= 2 * EXACT {
      UlpSmall(n / 2);
    }
  }
}
