/** Primes that are 3 modulo 4 exist beyond any bound. */
module Primes {
  import opened Integers

  ghost predicate IsPrime(p: int) { p >= 2 && forall d :: 2 <= d < p ==> p % d != 0 }

  /** The least divisor of m from d on. */
  function LeastDivisor(m: nat, d: nat): (r: nat)
    requires 2 <= d <= m
    ensures d <= r <= m
    decreases m - d
  {
    if m % d == 0 || d == m then d else LeastDivisor(m, d + 1)
  }

  lemma {:induction false} LeastDivisorDivides(m: nat, d: nat)
    requires 2 <= d <= m && forall k :: 2 <= k < d ==> m % k != 0
    ensures var r := LeastDivisor(m, d); m % r == 0 && forall k :: 2 <= k < r ==> m % k != 0
    decreases m - d
  {
    if m % d == 0 {
    } else if d == m {
      MultipleOf(1, m);
    } else {
      LeastDivisorDivides(m, d + 1);
    }
  }

  lemma DividesThrough(k: nat, r: nat, m: nat)
    requires k > 0 && r > 0 && r % k == 0 && m % r == 0
    ensures m % k == 0
  {
    var a, b := r / k, m / r;
    assert m == b * r && r == a * k;
    assert b * (a * k) == (b * a) * k;
    MultipleOf(b * a, k);
  }

  lemma LeastDivisorIsPrime(m: nat)
    requires m >= 2
    ensures IsPrime(LeastDivisor(m, 2)) && m % LeastDivisor(m, 2) == 0
  {
    LeastDivisorDivides(m, 2);
    var r := LeastDivisor(m, 2);
    forall k | 2 <= k < r ensures r % k != 0 {
      if r % k == 0 { DividesThrough(k, r, m); }
    }
  }

  /** A prime divisor that is 3 modulo 4, of a number that is. */
  function ThreeModFourDivisor(m: nat): nat
    requires m % 4 == 3
    decreases m
  {
    var d := LeastDivisor(m, 2);
    if d % 4 == 3 || m / d >= m || m / d % 4 != 3 then d else ThreeModFourDivisor(m / d)
  }

  lemma CofactorModFour(d: nat, e: nat)
    requires d % 4 != 3 && d * e % 4 == 3
    ensures e % 4 == 3
  {
    var r, s := d % 4, e % 4;
    ModMul(4, d, e);
    assert r == 0 ==> r * s == 0;
    assert r == 1 ==> r * s == s;
    assert r == 2 ==> r * s == 2 * s;
  }

  lemma {:induction false} ThreeModFourDivisorFacts(m: nat)
    requires m % 4 == 3
    ensures var d := ThreeModFourDivisor(m); IsPrime(d) && d % 4 == 3 && m % d == 0
    decreases m
  {
    LeastDivisorIsPrime(m);
    var d := LeastDivisor(m, 2);
    var e := m / d;
    assert m == e * d;
    if d % 4 != 3 {
      assert d * e == e * d;
      CofactorModFour(d, e);
      Smaller(d, e, m);
      ThreeModFourDivisorFacts(e);
      MultipleOf(d, e);
      DividesThrough(ThreeModFourDivisor(e), e, m);
    }
  }

  lemma Smaller(d: nat, e: nat, m: nat)
    requires d >= 2 && e >= 1 && m == e * d
    ensures e < m
  {
    assert e * d == e * (d - 2) + 2 * e;
    assert e * (d - 2) >= 0;
  }

  function Factorial(n: nat): (f: nat)
    ensures f >= 1
  {
    if n == 0 then 1 else Times(n, Factorial(n - 1))
  }

  function Times(a: nat, b: nat): (p: nat)
    ensures a >= 1 && b >= 1 ==> p >= 1
  {
    TimesPositive(a, b);
    a * b
  }

  lemma TimesPositive(a: nat, b: nat)
    ensures a * b >= 0 && (a >= 1 && b >= 1 ==> a * b >= 1)
  {
    if a >= 1 && b >= 1 { assert (a - 1) * b >= 0; }
  }

  lemma {:induction false} FactorialDivisible(n: nat, d: nat)
    requires 1 <= d <= n
    ensures Factorial(n) % d == 0
    decreases n
  {
    var f := Factorial(n - 1);
    if d == n {
      MultipleOf(f, d);
      assert n * f == f * n;
    } else {
      FactorialDivisible(n - 1, d);
      MultipleOf(n, f);
      DividesThrough(d, f, n * f);
    }
  }

  /** A divisor of 4 n! - 1 is beyond n. */
  lemma BeyondFactorial(n: nat, d: nat)
    requires d >= 2 && (4 * Factorial(n) - 1) % d == 0
    ensures d > n
  {
    if d <= n {
      var f := Factorial(n);
      FactorialDivisible(n, d);
      var a := f / d;
      assert 4 * f - 1 == -1 + (4 * a) * d;
      ModUnique(d, -1, -1, d - 1);
      ModShift(d, -1, 4 * a);
    }
  }

  /** A prime that is 3 modulo 4 beyond n. */
  function PrimeBeyond(n: nat): (p: int)
    ensures IsPrime(p) && p % 4 == 3 && p > n
  {
    var m := 4 * Factorial(n) - 1;
    ThreeModFourDivisorFacts(m);
    BeyondFactorial(n, ThreeModFourDivisor(m));
    ThreeModFourDivisor(m)
  }
}
