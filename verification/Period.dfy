/** How long an iteration takes to come back to where it was.

    It is exactly 32767 turns, if it is back after those and not after 4681, 1057 or 217, which
    are 32767 over its prime factors. */
module Period {
  import opened Bytes
  import opened LinearCode

  // ----- divisors

  ghost predicate ClosedUnderMinus(times: nat -> bool) {
    forall a: nat, b: nat :: times(a + b) && times(b) ==> times(a)
  }

  /** Euclid's algorithm, by subtraction. */
  lemma {:induction false} Common(times: nat -> bool, a: nat, b: nat) returns (g: nat, p: nat, q: nat)
    requires ClosedUnderMinus(times) && times(a) && times(b) && a > 0 && b > 0
    ensures g > 0 && times(g) && a == g * p && b == g * q
    decreases a + b
  {
    if a == b {
      g, p, q := a, 1, 1;
    } else if a > b {
      assert times((a - b) + b);
      g, p, q := Common(times, a - b, b);
      p := p + q;
    } else {
      assert times((b - a) + a);
      g, p, q := Common(times, a, b - a);
      q := p + q;
    }
  }

  ghost predicate Prime(q: nat) { q > 1 && forall a: nat, b: nat :: a * b == q ==> a == 1 || b == 1 }

  lemma MinusDivisible(q: nat, k: nat, a: nat, b: nat)
    requires q > 0 && ((a + b) * k) % q == 0 && (b * k) % q == 0
    ensures (a * k) % q == 0
  {
    var i, j := (a + b) * k / q, b * k / q;
    assert a * k == q * (i - j) by {
      assert (a + b) * k == q * i && b * k == q * j && (a + b) * k == a * k + b * k && q * (i - j) == q * i - q * j;
    }
    MultipleOf(q, i - j);
  }

  lemma MultipleOf(q: nat, i: int)
    requires q > 0
    ensures (q * i) % q == 0
  {
    Divides(q * i, q, i, 0);
  }

  /** A prime that divides a product divides a factor. */
  lemma Euclid(q: nat, a: nat, b: nat)
    requires Prime(q) && a > 0 && b > 0 && (a * b) % q == 0
    ensures a % q == 0 || b % q == 0
  {
    var times: nat -> bool := (k: nat) => (k * b) % q == 0;
    forall i: nat, j: nat | times(i + j) && times(j) ensures times(i) { MinusDivisible(q, b, i, j); }
    MultipleOf(q, b);
    var g, m, n := Common(times, q, a);
    if m == 1 {
      MultipleOf(q, n);
    }
  }

  lemma SmallFactor(q: nat, a: nat, b: nat)
    requires (q == 7 || q == 31 || q == 151) && a * b == q && 2 <= a <= 12
    ensures b == 1
  {
    if a == 2 {} else if a == 3 {} else if a == 4 {} else if a == 5 {} else if a == 6 {} else if a == 7 {}
    else if a == 8 {} else if a == 9 {} else if a == 10 {} else if a == 11 {}
  }

  lemma BothLarge(a: nat, b: nat)
    requires a > 12 && b > 12
    ensures a * b > 151
  {
    assert a * b >= 13 * b;
  }

  lemma OneFactor(q: nat, a: nat, b: nat)
    requires (q == 7 || q == 31 || q == 151) && a * b == q
    ensures a == 1 || b == 1
  {
    if a > 12 && b > 12 {
      BothLarge(a, b);
    } else if 2 <= a <= 12 {
      SmallFactor(q, a, b);
    } else if 2 <= b <= 12 {
      SmallFactor(q, b, a);
    }
  }

  lemma Primes(q: nat)
    requires q == 7 || q == 31 || q == 151
    ensures Prime(q)
  {
    forall a: nat, b: nat | a * b == q ensures a == 1 || b == 1 { OneFactor(q, a, b); }
  }

  lemma Cancel(q: nat, a: nat, b: nat, c: nat)
    requires q > 0 && (q * a) * b == q * c
    ensures a * b == c
  {
    assert (q * a) * b == q * (a * b);
    SameQuotient(q, a * b, 0, c, 0);
  }

  lemma PrimeFactor(q: nat, g: nat, p: nat, rest: nat) returns (h: nat)
    requires (q == 7 || q == 31 || q == 151) && g > 0 && p > 0 && g * p == q * rest && p % q != 0
    ensures h > 0 && g == q * h && h * p == rest
  {
    Primes(q);
    MultipleOf(q, rest);
    Euclid(q, g, p);
    h := g / q;
    Division(g, q);
    Cancel(q, h, p, rest);
  }

  /** 32767 is 7 times 31 times 151. */
  lemma DivisorOf(g: nat, p: nat)
    requires g * p == 32767 && p > 1
    ensures p % 7 == 0 || p % 31 == 0 || p % 151 == 0
  {
    if p % 7 != 0 && p % 31 != 0 && p % 151 != 0 {
      var h := PrimeFactor(7, g, p, 4681);
      h := PrimeFactor(31, h, p, 151);
      h := PrimeFactor(151, h, p, 1);
    }
  }

  // ----- iterations that come back

  lemma {:induction false} IterateSum<S>(f: S -> S, x: S, m: nat, n: nat)
    ensures Iterate(f, x, m + n) == Iterate(f, Iterate(f, x, m), n)
  {
    if n > 0 {
      IterateSum(f, x, m, n - 1);
    }
  }

  lemma {:induction false} SameIterates<S(!new)>(f: S -> S, g: S -> S, x: S, n: nat)
    requires forall s :: f(s) == g(s)
    ensures Iterate(f, x, n) == Iterate(g, x, n)
  {
    if n > 0 {
      SameIterates(f, g, x, n - 1);
    }
  }

  /** What does not come back from one point of a cycle does not from another. */
  lemma ElsewhereToo<S>(f: S -> S, x: S, m: nat, n: nat, d: nat)
    requires Iterate(f, x, n) == x && m <= n && Iterate(f, x, d) != x
    ensures Iterate(f, Iterate(f, x, m), d) != Iterate(f, x, m)
  {
    var y := Iterate(f, x, m);
    IterateSum(f, x, m, n - m);
    IterateSum(f, x, n, d);
    IterateSum(f, x, m, d + (n - m));
    IterateSum(f, y, d, n - m);
    assert n + d == m + (d + (n - m));
  }

  lemma {:induction false} BackAgain<S>(f: S -> S, x: S, n: nat, times: nat)
    requires Iterate(f, x, n) == x
    ensures Iterate(f, x, n * times) == x
  {
    if times > 0 {
      BackAgain(f, x, n, times - 1);
      IterateSum(f, x, n * (times - 1), n);
      assert n * times == n * (times - 1) + n;
    }
  }

  lemma BackAt<S>(f: S -> S, x: S, g: nat, p: nat, q: nat, rest: nat)
    requires Iterate(f, x, g) == x && q > 0 && g * p == q * rest && p % q == 0
    ensures Iterate(f, x, rest) == x
  {
    Division(p, q);
    var i := p / q;
    assert (q * g) * i == g * (q * i);
    Cancel(q, g, i, rest);
    BackAgain(f, x, g, i);
  }

  lemma CommonReturn<S>(f: S -> S, x: S, n: nat, d: nat) returns (g: nat, p: nat)
    requires Iterate(f, x, n) == x && Iterate(f, x, d) == x && 0 < d < n
    ensures Iterate(f, x, g) == x && g * p == n && p > 1
  {
    var times: nat -> bool := (k: nat) => Iterate(f, x, k) == x;
    forall a: nat, b: nat | times(a + b) && times(b) ensures times(a) { IterateSum(f, x, b, a); }
    var q;
    g, p, q := Common(times, n, d);
    if p <= 1 {
      SmallTimes(g, p, q);
    }
  }

  lemma SmallTimes(g: nat, p: nat, q: nat)
    requires p <= 1
    ensures g * p <= g * q || g * q == 0
  {
    if q > 0 {
      AtLeast(g, q);
    }
  }

  lemma NoEarlyReturn<S>(f: S -> S, x: S, g: nat, p: nat)
    requires Iterate(f, x, g) == x && g * p == 32767 && p > 1
    ensures Iterate(f, x, 4681) == x || Iterate(f, x, 1057) == x || Iterate(f, x, 217) == x
  {
    DivisorOf(g, p);
    if p % 7 == 0 {
      BackAt(f, x, g, p, 7, 4681);
    } else if p % 31 == 0 {
      BackAt(f, x, g, p, 31, 1057);
    } else {
      BackAt(f, x, g, p, 151, 217);
    }
  }

  lemma FullPeriod<S>(f: S -> S, x: S, d: nat)
    requires Iterate(f, x, 32767) == x && 0 < d < 32767
    requires Iterate(f, x, 4681) != x && Iterate(f, x, 1057) != x && Iterate(f, x, 217) != x
    ensures Iterate(f, x, d) != x
  {
    if Iterate(f, x, d) == x {
      var g, p := CommonReturn(f, x, 32767, d);
      NoEarlyReturn(f, x, g, p);
    }
  }

  // ----- far iterations

  /** `sq` turns the n-th iterate into the 2n-th. */
  ghost predicate Squares<S(!new)>(f: S -> S, sq: S -> S, x: S) {
    sq(x) == x && forall v :: sq(f(v)) == f(f(sq(v)))
  }

  lemma {:induction false} IterateDoubled<S(!new)>(f: S -> S, sq: S -> S, x: S, n: nat)
    requires Squares(f, sq, x)
    ensures Iterate(f, x, 2 * n) == sq(Iterate(f, x, n))
  {
    if n > 0 {
      IterateDoubled(f, sq, x, n - 1);
      assert Iterate(f, x, 2 * n) == f(Iterate(f, x, 2 * n - 1)) && Iterate(f, x, 2 * n - 1) == f(Iterate(f, x, 2 * n - 2));
    }
  }

  /** One more binary digit of the count. */
  lemma Twice<S(!new)>(f: S -> S, sq: S -> S, x: S, n: nat, v: S, digit: nat) returns (m: nat, w: S)
    requires Squares(f, sq, x) && Iterate(f, x, n) == v && digit <= 1
    ensures m == 2 * n + digit && w == (if digit == 1 then f(sq(v)) else sq(v)) && Iterate(f, x, m) == w
  {
    m, w := 2 * n + digit, if digit == 1 then f(sq(v)) else sq(v);
    IterateDoubled(f, sq, x, n);
    assert digit == 1 ==> Iterate(f, x, m) == f(Iterate(f, x, 2 * n));
  }
}
