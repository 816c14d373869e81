/** Finite sums over index ranges, in the integers and in the field. */
module Sums {
  import opened Field

  function ISum(n: nat, f: nat -> int): int
  {
    if n == 0 then 0 else ISum(n - 1, f) + f(n - 1)
  }

  function FSum(n: nat, f: nat -> Fp): Fp
  {
    if n == 0 then 0 else Add(FSum(n - 1, f), f(n - 1))
  }

  lemma {:induction false} FSumZero(n: nat, f: nat -> Fp)
    requires forall k: nat :: k < n ==> f(k) == 0
    ensures FSum(n, f) == 0
  {
    hide R;
    if n > 0 {
      FSumZero(n - 1, f);
      Units(f(n - 1));
    }
  }

  /** Only one summand is not zero. */
  lemma {:induction false} FSumSingle(n: nat, f: nat -> Fp, i: nat)
    requires i < n && forall k: nat :: k < n && k != i ==> f(k) == 0
    ensures FSum(n, f) == f(i)
  {
    Units(f(i));
    if i == n - 1 {
      FSumZero(n - 1, f);
    } else {
      FSumSingle(n - 1, f, i);
    }
  }

  /** A sum of images of integers is the image of the sum. */
  lemma {:induction false} FSumImage(n: nat, f: nat -> Fp, g: nat -> int)
    requires forall k: nat :: k < n ==> f(k) == R(g(k))
    ensures FSum(n, f) == R(ISum(n, g))
  {
    hide R;
    if n == 0 {
      Canonical(0);
    } else {
      FSumImage(n - 1, f, g);
      RAdd(ISum(n - 1, g), g(n - 1));
    }
  }

  lemma {:induction false} ISumSame(n: nat, f: nat -> int, g: nat -> int)
    requires forall k: nat :: k < n ==> f(k) == g(k)
    ensures ISum(n, f) == ISum(n, g)
  {
    if n > 0 { ISumSame(n - 1, f, g); }
  }

  lemma {:induction false} ISumZero(n: nat, f: nat -> int)
    requires forall k: nat :: k < n ==> f(k) == 0
    ensures ISum(n, f) == 0
  {
    if n > 0 { ISumZero(n - 1, f); }
  }

  lemma {:induction false} ISumSingle(n: nat, f: nat -> int, i: nat)
    requires i < n && forall k: nat :: k < n && k != i ==> f(k) == 0
    ensures ISum(n, f) == f(i)
  {
    if i == n - 1 {
      ISumZero(n - 1, f);
    } else {
      ISumSingle(n - 1, f, i);
    }
  }

  lemma {:induction false} ISumAdd(n: nat, f: nat -> int, g: nat -> int, h: nat -> int)
    requires forall k: nat :: k < n ==> h(k) == f(k) + g(k)
    ensures ISum(n, h) == ISum(n, f) + ISum(n, g)
  {
    if n > 0 { ISumAdd(n - 1, f, g, h); }
  }

  lemma {:induction false} ISumBounds(n: nat, f: nat -> int, low: int, high: int)
    requires forall k: nat :: k < n ==> low <= f(k) <= high
    ensures n * low <= ISum(n, f) <= n * high
  {
    if n > 0 {
      ISumBounds(n - 1, f, low, high);
      assert (n - 1) * low + low == n * low && (n - 1) * high + high == n * high;
    }
  }

  lemma {:induction false} ISumMono(n: nat, f: nat -> int, g: nat -> int)
    requires forall k: nat :: k < n ==> f(k) <= g(k)
    ensures ISum(n, f) <= ISum(n, g)
  {
    if n > 0 { ISumMono(n - 1, f, g); }
  }

  function RowSum(f: (nat, nat) -> int, m: nat, i: nat): int { ISum(m, (j: nat) => f(i, j)) }

  function ColumnSum(f: (nat, nat) -> int, n: nat, j: nat): int { ISum(n, (i: nat) => f(i, j)) }

  /** The order of summation does not matter. */
  lemma {:induction false} ISumSwap(n: nat, m: nat, f: (nat, nat) -> int, rows: nat -> int, columns: nat -> int)
    requires forall i: nat :: rows(i) == RowSum(f, m, i)
    requires forall j: nat :: columns(j) == ColumnSum(f, n, j)
    ensures ISum(n, rows) == ISum(m, columns)
  {
    if n == 0 {
      ISumZero(m, columns);
    } else {
      var before, last := (j: nat) => ColumnSum(f, n - 1, j), (j: nat) => f(n - 1, j);
      ISumSwap(n - 1, m, f, rows, before);
      forall j: nat ensures columns(j) == before(j) + last(j) {
        assert columns(j) == ColumnSum(f, n, j);
      }
      ISumAdd(m, before, last, columns);
      assert rows(n - 1) == RowSum(f, m, n - 1);
    }
  }
}
