/** Division with remainder on the integers. */
module Integers {
  lemma MultipleGrows(p: int, k: int)
    requires p > 0 && k >= 1
    ensures k * p >= p
  {
    assert (k - 1) * p >= 0;
  }

  lemma NoSmallMultiple(p: int, k: int, d: int)
    requires p > 0 && k * p == d && -p < d < p
    ensures k == 0
  {
    if k >= 1 {
      MultipleGrows(p, k);
    } else if k <= -1 {
      MultipleGrows(p, -k);
    }
  }

  lemma ModUnique(p: int, m: int, q: int, r: int)
    requires p > 0 && m == q * p + r && 0 <= r < p
    ensures m % p == r
  {
    var q', r' := m / p, m % p;
    assert m == q' * p + r';
    assert (q - q') * p == q * p - q' * p;
    NoSmallMultiple(p, q - q', r' - r);
  }

  lemma ModShift(p: int, m: int, k: int)
    requires p > 0
    ensures (m + k * p) % p == m % p
  {
    assert m + k * p == (m / p + k) * p + m % p;
    ModUnique(p, m + k * p, m / p + k, m % p);
  }

  lemma ModAdd(p: int, m: int, n: int)
    requires p > 0
    ensures (m % p + n % p) % p == (m + n) % p
  {
    var a, b, r, s := m / p, n / p, m % p, n % p;
    assert m + n == (r + s) + (a + b) * p;
    ModShift(p, r + s, a + b);
  }

  lemma ModSub(p: int, m: int, n: int)
    requires p > 0
    ensures (m % p - n % p) % p == (m - n) % p
  {
    var a, b, r, s := m / p, n / p, m % p, n % p;
    assert m - n == (r - s) + (a - b) * p;
    ModShift(p, r - s, a - b);
  }

  lemma ExpandProduct(p: int, a: int, r: int, b: int, s: int)
    ensures (a * p + r) * (b * p + s) == r * s + (a * (b * p + s) + b * r) * p
  {
  }

  lemma ShiftedProduct(p: int, m: int, n: int, k: int)
    requires p > 0 && m == n + k * p
    ensures n % p == m % p
  {
    ModShift(p, n, k);
  }

  lemma ModMul(p: int, m: int, n: int)
    requires p > 0
    ensures ((m % p) * (n % p)) % p == (m * n) % p
  {
    var a, b, r, s := m / p, n / p, m % p, n % p;
    assert m == a * p + r && n == b * p + s;
    ExpandProduct(p, a, r, b, s);
    ShiftedProduct(p, m * n, r * s, a * (b * p + s) + b * r);
  }

  lemma EuclidStep(a: nat, b: nat)
    requires b > 0
    ensures a == (a / b) * b + a % b
  {
  }

  lemma CombineMultiples(g: int, q: int, x: int, y: int)
    ensures q * (x * g) + y * g == (q * x + y) * g
  {
  }

  lemma DividesSum(g: int, q: int, b: int, r: int)
    requires g > 0 && b % g == 0 && r % g == 0
    ensures (q * b + r) % g == 0
  {
    var x, y := b / g, r / g;
    assert b == x * g && r == y * g;
    CombineMultiples(g, q, x, y);
    ModUnique(g, q * b + r, q * x + y, 0);
  }

  lemma ShiftCofactor(q: int, b: int, r: int, u: int, v: int)
    ensures (q * b + r) * v + b * (u - q * v) == b * u + r * v
  {
    assert (q * b) * v == b * (q * v);
  }

  lemma MultipleOf(k: int, d: int)
    requires d > 0
    ensures k * d % d == 0
  {
    ModUnique(d, k * d, k, 0);
  }
}
