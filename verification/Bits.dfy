/** Powers of two and binary digits of indices, with shifts written as repeated halving. */
module Bits {
  function Pow2(n: nat): (p: nat)
    ensures p >= 1
  {
    if n == 0 then 1 else 2 * Pow2(n - 1)
  }

  function Shr(i: nat, k: nat): nat { if k == 0 then i else Shr(i / 2, k - 1) }

  predicate Bit(i: nat, k: nat) { if k == 0 then i % 2 == 1 else Bit(i / 2, k - 1) }

  /** The least k with n <= 2^k: the logarithm of `next_power_of_two` (which maps 0 to 1). */
  function CeilLog(n: nat): (k: nat)
    decreases n
  {
    if n <= 1 then 0 else 1 + CeilLog((n + 1) / 2)
  }

  lemma {:induction false} CeilLogBounds(n: nat)
    ensures n <= Pow2(CeilLog(n))
    ensures CeilLog(n) > 0 ==> Pow2(CeilLog(n) - 1) < n
  {
    if n > 1 {
      CeilLogBounds((n + 1) / 2);
    }
  }

  lemma Pow2Next(k: nat)
    ensures Pow2(k + 1) == 2 * Pow2(k)
  {
  }

  lemma {:induction false} Pow2Add(m: nat, n: nat)
    ensures Pow2(m + n) == Pow2(m) * Pow2(n)
  {
    if m > 0 {
      Pow2Add(m - 1, n);
      assert 2 * (Pow2(m - 1) * Pow2(n)) == (2 * Pow2(m - 1)) * Pow2(n);
    }
  }

  lemma {:induction false} Pow2Mono(m: nat, n: nat)
    requires m <= n
    ensures Pow2(m) <= Pow2(n)
  {
    if m < n {
      Pow2Mono(m, n - 1);
    }
  }

  lemma {:induction false} CeilLogPow2(k: nat)
    ensures CeilLog(Pow2(k)) == k
  {
    if k > 0 {
      CeilLogPow2(k - 1);
      assert (Pow2(k) + 1) / 2 == Pow2(k - 1);
    }
  }

  lemma {:induction false} BitHigh(i: nat, k: nat)
    requires i < Pow2(k)
    ensures !Bit(i, k) && Bit(i + Pow2(k), k)
  {
    if k > 0 {
      BitHigh(i / 2, k - 1);
      assert (i + Pow2(k)) / 2 == i / 2 + Pow2(k - 1);
    }
  }

  lemma {:induction false} ShrBit(i: nat, k: nat)
    ensures Shr(i, k + 1) == Shr(i, k) / 2
    ensures Bit(i, k) == (Shr(i, k) % 2 == 1)
  {
    if k > 0 {
      ShrBit(i / 2, k - 1);
    }
  }
}
