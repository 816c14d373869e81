/** The scalar field of the proof system (field.rs).

    The modulus P is left symbolic: every theorem of the project holds for every prime that is
    congruent to 3 modulo 4 and above 2^64. Those are the only facts about the modulus the code relies on:
    lengths and indices (u64 values) are distinct field elements, no integer count
    wraps, and -1 is not a square. Module `Modulus` shows that the P-256 prime is such a prime.

    The ring operations are reductions of integer operations. `R` is the reduction map; a ring identity is
    proved by writing both sides as images of integer polynomials (`Same`) and using that `R` is
    a homomorphism (`Ring`). */
module Field {
  import opened Modulus
  import opened Primes
  import opened Integers

  const P: FieldModulus

  predicate InRange(x: int) { 0 <= x < P }

  type Fp = x: int | InRange(x) witness 0

  type Vec = seq<Fp>

  lemma Bounds(a: Fp)
    ensures 0 <= a < P
  {
    assert InRange(a);
  }

  lemma ModulusFacts()
    ensures IsPrime(P) && P % 4 == 3 && P > U64_MAX
  {
    assert IsFieldModulus(P);
  }

  /** Reduction modulo P and the three ring operations. */
  datatype Operations = Operations(reduce: int -> Fp, add: (Fp, Fp) -> Fp, sub: (Fp, Fp) -> Fp, mul: (Fp, Fp) -> Fp)

  /** Their law is integer arithmetic modulo P. It is stated element by element, so that a proof sees it only where it
      asks for it. */
  ghost predicate ModularAt(o: Operations, n: int, a: Fp, b: Fp)
  {
    o.reduce(n) == n % P && o.add(a, b) == (a + b) % P && o.sub(a, b) == (a - b) % P && o.mul(a, b) == (a * b) % P
  }

  ghost predicate Modular(o: Operations)
  {
    forall n: int, a: Fp, b: Fp :: ModularAt(o, n, a, b)
  }

  type ModularOperations = o: Operations | Modular(o) witness PlainOperations()

  function Remainder(n: int): Fp
  {
    assert IsFieldModulus(P);
    assert InRange(n % P);
    n % P
  }

  function PlainOperations(): Operations
  {
    Operations(Remainder, (a: Fp, b: Fp) => Remainder(a + b), (a: Fp, b: Fp) => Remainder(a - b), (a: Fp, b: Fp) => Remainder(a * b))
  }

  const FIELD: ModularOperations

  function R(n: int): Fp { FIELD.reduce(n) }

  function Add(a: Fp, b: Fp): Fp { FIELD.add(a, b) }

  function Sub(a: Fp, b: Fp): Fp { FIELD.sub(a, b) }

  function Mul(a: Fp, b: Fp): Fp { FIELD.mul(a, b) }

  function Neg(a: Fp): Fp { Sub(0, a) }

  lemma ReduceLaw(n: int)
    ensures R(n) == n % P
  {
    assert ModularAt(FIELD, n, 0, 0);
  }

  lemma AddLaw(a: Fp, b: Fp)
    ensures Add(a, b) == (a + b) % P
  {
    assert ModularAt(FIELD, 0, a, b);
  }

  lemma SubLaw(a: Fp, b: Fp)
    ensures Sub(a, b) == (a - b) % P
  {
    assert ModularAt(FIELD, 0, a, b);
  }

  lemma MulLaw(a: Fp, b: Fp)
    ensures Mul(a, b) == (a * b) % P
  {
    assert ModularAt(FIELD, 0, a, b);
  }

  // ----- the reduction map is a ring homomorphism -----

  function ZAdd(m: int, n: int): int { m + n }

  function ZSub(m: int, n: int): int { m - n }

  function ZMul(m: int, n: int): int { m * n }

  lemma RAdd(m: int, n: int)
    ensures Add(R(m), R(n)) == R(ZAdd(m, n))
  {
    ModulusFacts();
    ReduceLaw(m); ReduceLaw(n); ReduceLaw(m + n);
    AddLaw(R(m), R(n));
    ModAdd(P, m, n);
  }

  lemma RSub(m: int, n: int)
    ensures Sub(R(m), R(n)) == R(ZSub(m, n))
  {
    ModulusFacts();
    ReduceLaw(m); ReduceLaw(n); ReduceLaw(m - n);
    SubLaw(R(m), R(n));
    ModSub(P, m, n);
  }

  lemma RMul(m: int, n: int)
    ensures Mul(R(m), R(n)) == R(ZMul(m, n))
  {
    ModulusFacts();
    ReduceLaw(m); ReduceLaw(n); ReduceLaw(m * n);
    MulLaw(R(m), R(n));
    ModMul(P, m, n);
  }

  lemma Canonical(a: Fp)
    ensures R(a) == a
  {
    Bounds(a);
    ReduceLaw(a);
    assert a == 0 * P + a;
    ModUnique(P, a, 0, a);
  }

  lemma HomAdd()
    ensures forall m: int, n: int {:trigger Add(R(m), R(n))} :: Add(R(m), R(n)) == R(ZAdd(m, n))
  {
    hide *;
    forall m: int, n: int ensures Add(R(m), R(n)) == R(ZAdd(m, n)) { RAdd(m, n); }
  }

  lemma HomSub()
    ensures forall m: int, n: int {:trigger Sub(R(m), R(n))} :: Sub(R(m), R(n)) == R(ZSub(m, n))
  {
    hide *;
    forall m: int, n: int ensures Sub(R(m), R(n)) == R(ZSub(m, n)) { RSub(m, n); }
  }

  lemma HomMul()
    ensures forall m: int, n: int {:trigger Mul(R(m), R(n))} :: Mul(R(m), R(n)) == R(ZMul(m, n))
  {
    hide *;
    forall m: int, n: int ensures Mul(R(m), R(n)) == R(ZMul(m, n)) { RMul(m, n); }
  }

  /** What a ring identity over the atoms a, b, ... needs: atoms are their own images, and every
      operation on images is the image of the integer operation. */
  lemma Ring(a: Fp, b: Fp := 0, c: Fp := 0, d: Fp := 0, e: Fp := 0, f: Fp := 0, g: Fp := 0, h: Fp := 0)
    ensures a == R(a) && b == R(b) && c == R(c) && d == R(d) && e == R(e) && f == R(f) && g == R(g) && h == R(h)
    ensures R(0) == 0 && R(1) == 1 && R(2) == 2
    ensures forall m: int, n: int {:trigger Add(R(m), R(n))} :: Add(R(m), R(n)) == R(ZAdd(m, n))
    ensures forall m: int, n: int {:trigger Sub(R(m), R(n))} :: Sub(R(m), R(n)) == R(ZSub(m, n))
    ensures forall m: int, n: int {:trigger Mul(R(m), R(n))} :: Mul(R(m), R(n)) == R(ZMul(m, n))
  {
    HomAdd(); HomSub(); HomMul();
    Canonical(a); Canonical(b); Canonical(c); Canonical(d);
    Canonical(e); Canonical(f); Canonical(g); Canonical(h);
    Canonical(0); Canonical(1); Canonical(2);
    hide *;
  }

  /** An integer identity, carried to the field. */
  lemma Same(m: int, n: int)
    requires m == n
    ensures R(m) == R(n)
  {
  }

  // ----- ring laws -----

  lemma AddComm(a: Fp, b: Fp)
    ensures Add(a, b)
       == Add(b, a)
  {
    Same(ZAdd(a, b),
         ZAdd(b, a));
    hide *;
    Ring(a, b);
  }

  lemma AddAssoc(a: Fp, b: Fp, c: Fp)
    ensures Add(Add(a, b), c)
       == Add(a, Add(b, c))
  {
    Same(ZAdd(ZAdd(a, b), c),
         ZAdd(a, ZAdd(b, c)));
    hide *;
    Ring(a, b, c);
  }

  lemma MulComm(a: Fp, b: Fp)
    ensures Mul(a, b)
       == Mul(b, a)
  {
    Same(ZMul(a, b),
         ZMul(b, a));
    hide *;
    Ring(a, b);
  }

  lemma MulAssoc(a: Fp, b: Fp, c: Fp)
    ensures Mul(Mul(a, b), c)
       == Mul(a, Mul(b, c))
  {
    Same(ZMul(ZMul(a, b), c),
         ZMul(a, ZMul(b, c)));
    hide *;
    Ring(a, b, c);
  }

  lemma Distrib(a: Fp, b: Fp, c: Fp)
    ensures Mul(a, Add(b, c))
       == Add(Mul(a, b), Mul(a, c))
  {
    Same(ZMul(a, ZAdd(b, c)),
         ZAdd(ZMul(a, b), ZMul(a, c)));
    hide *;
    Ring(a, b, c);
  }

  lemma DistribSub(a: Fp, b: Fp, c: Fp)
    ensures Mul(a, Sub(b, c))
       == Sub(Mul(a, b), Mul(a, c))
  {
    Same(ZMul(a, ZSub(b, c)),
         ZSub(ZMul(a, b), ZMul(a, c)));
    hide *;
    Ring(a, b, c);
  }

  lemma AddSub(a: Fp, b: Fp)
    ensures Sub(Add(a, b), b)
       == a
  {
    Same(ZSub(ZAdd(a, b), b),
         a);
    hide *;
    Ring(a, b);
  }

  lemma SubAdd(a: Fp, b: Fp)
    ensures Add(Sub(a, b), b)
       == a
  {
    Same(ZAdd(ZSub(a, b), b),
         a);
    hide *;
    Ring(a, b);
  }

  lemma SubAddLeft(a: Fp, b: Fp)
    ensures Add(b, Sub(a, b))
       == a
  {
    Same(ZAdd(b, ZSub(a, b)),
         a);
    hide *;
    Ring(a, b);
  }

  lemma SubLeftSub(a: Fp, b: Fp)
    ensures Sub(a, Sub(a, b))
       == b
  {
    Same(ZSub(a, ZSub(a, b)),
         b);
    hide *;
    Ring(a, b);
  }

  lemma AddSwapLast(a: Fp, b: Fp, c: Fp)
    ensures Add(Add(a, b), c)
       == Add(Add(a, c), b)
  {
    Same(ZAdd(ZAdd(a, b), c),
         ZAdd(ZAdd(a, c), b));
    hide *;
    Ring(a, b, c);
  }

  lemma DistribRight(a: Fp, b: Fp, c: Fp)
    ensures Mul(Add(a, b), c)
       == Add(Mul(a, c), Mul(b, c))
  {
    Same(ZMul(ZAdd(a, b), c),
         ZAdd(ZMul(a, c), ZMul(b, c)));
    hide *;
    Ring(a, b, c);
  }

  lemma PullFactor(c: Fp, a: Fp, x: Fp, b: Fp)
    ensures Add(Mul(c, a), Mul(x, Mul(c, b)))
       == Mul(c, Add(a, Mul(x, b)))
  {
    Same(ZAdd(ZMul(c, a), ZMul(x, ZMul(c, b))),
         ZMul(c, ZAdd(a, ZMul(x, b))));
    hide *;
    Ring(c, a, x, b);
  }

  lemma MulSwapLast(a: Fp, b: Fp, c: Fp)
    ensures Mul(Mul(a, b), c)
       == Mul(Mul(a, c), b)
  {
    Same(ZMul(ZMul(a, b), c),
         ZMul(ZMul(a, c), b));
    hide *;
    Ring(a, b, c);
  }

  lemma CombineStep(x: Fp, y: Fp, s: Fp, t: Fp, p: Fp, q: Fp)
    ensures Add(Mul(x, Add(s, p)), Mul(y, Add(t, q)))
       == Add(Add(Mul(x, s), Mul(y, t)), Add(Mul(x, p), Mul(y, q)))
  {
    Same(ZAdd(ZMul(x, ZAdd(s, p)), ZMul(y, ZAdd(t, q))),
         ZAdd(ZAdd(ZMul(x, s), ZMul(y, t)), ZAdd(ZMul(x, p), ZMul(y, q))));
    hide *;
    Ring(x, y, s, t, p, q);
  }

  lemma NegProduct(a: Fp, b: Fp)
    ensures Mul(Sub(0, a), b)
       == Sub(0, Mul(a, b))
  {
    Same(ZMul(ZSub(0, a), b),
         ZSub(0, ZMul(a, b)));
    hide *;
    Ring(a, b);
  }

  lemma NegOneTimes(a: Fp)
    ensures Mul(Sub(0, 1), a)
       == Sub(0, a)
  {
    Same(ZMul(ZSub(0, 1), a),
         ZSub(0, a));
    hide *;
    Ring(a);
  }

  lemma SquareOfProduct(a: Fp, b: Fp)
    ensures Mul(Mul(a, b), Mul(a, b))
       == Mul(Mul(a, a), Mul(b, b))
  {
    Same(ZMul(ZMul(a, b), ZMul(a, b)),
         ZMul(ZMul(a, a), ZMul(b, b)));
    hide *;
    Ring(a, b);
  }

  lemma AddSwap(a: Fp, b: Fp, c: Fp, d: Fp)
    ensures Add(Add(a, b), Add(c, d))
       == Add(Add(a, c), Add(b, d))
  {
    Same(ZAdd(ZAdd(a, b), ZAdd(c, d)),
         ZAdd(ZAdd(a, c), ZAdd(b, d)));
    hide *;
    Ring(a, b, c, d);
  }

  lemma MulSwap(a: Fp, b: Fp, c: Fp, d: Fp)
    ensures Mul(Mul(a, b), Mul(c, d))
       == Mul(Mul(a, c), Mul(b, d))
  {
    Same(ZMul(ZMul(a, b), ZMul(c, d)),
         ZMul(ZMul(a, c), ZMul(b, d)));
    hide *;
    Ring(a, b, c, d);
  }

  lemma Units(a: Fp)
    ensures Add(a, 0) == a && Add(0, a) == a && Mul(a, 1) == a && Mul(1, a) == a
    ensures Mul(a, 0) == 0 && Mul(0, a) == 0 && Sub(a, 0) == a && Sub(a, a) == 0
  {
    Canonical(a); Canonical(0);
    ReduceLaw(a); ReduceLaw(0);
    AddLaw(a, 0); AddLaw(0, a);
    MulLaw(a, 1); MulLaw(1, a); MulLaw(a, 0); MulLaw(0, a);
    SubLaw(a, 0); SubLaw(a, a);
  }

  lemma SubZero(a: Fp, b: Fp)
    requires Sub(a, b) == 0
    ensures a == b
  {
    SubAdd(a, b);
    Units(b);
  }

  /** Distinct u64 values are distinct field elements. */
  lemma SmallDistinct(m: int, n: int)
    requires 0 <= m <= U64_MAX && 0 <= n <= U64_MAX
    ensures R(m) == m
    ensures R(m) == R(n) ==> m == n
  {
    ModulusFacts();
    ReduceLaw(m); ReduceLaw(n);
    assert m == 0 * P + m && n == 0 * P + n;
    ModUnique(P, m, 0, m);
    ModUnique(P, n, 0, n);
  }

  /** Two is not zero. */
  lemma TwoNonzero(a: Fp)
    requires Add(a, a) == 0
    ensures a == 0
  {
    Bounds(a);
    ModulusFacts();
    AddLaw(a, a);
    if a != 0 {
      assert a + a == 0 * P + (a + a);
      if a + a < P {
        ModUnique(P, a + a, 0, a + a);
      } else {
        ModUnique(P, a + a, 1, a + a - P);
      }
    }
  }

  // ----- inverses -----

  /** Extended Euclid: the greatest common divisor with its two cofactors. */
  function Egcd(a: nat, b: nat): (r: (nat, int, int))
    decreases b
  {
    if b == 0 then (a, 1, 0) else
    var (g, u, v) := Egcd(b, a % b);
    (g, v, u - (a / b) * v)
  }

  lemma {:induction false} EgcdCofactors(a: nat, b: nat)
    ensures var (g, u, v) := Egcd(a, b); a * u + b * v == g
    decreases b
  {
    if b != 0 {
      EgcdCofactors(b, a % b);
      var (g, u, v) := Egcd(b, a % b);
      EuclidStep(a, b);
      ShiftCofactor(a / b, b, a % b, u, v);
    }
  }

  lemma {:induction false} EgcdDivides(a: nat, b: nat)
    requires a > 0 || b > 0
    ensures var g := Egcd(a, b).0; g > 0 && a % g == 0 && b % g == 0
    decreases b
  {
    if b == 0 {
      ModUnique(a, a, 1, 0);
    } else {
      EgcdDivides(b, a % b);
      EuclidStep(a, b);
      DividesSum(Egcd(b, a % b).0, a / b, b, a % b);
    }
  }

  /** The cofactor of a in 1 = a * u + P * v. */
  function Bezout(a: Fp): int
  {
    assert InRange(a);
    assert IsFieldModulus(P);
    Egcd(a, P).1
  }

  lemma BezoutInverts(p: int, a: int)
    requires IsPrime(p) && 0 < a < p
    ensures (a * Egcd(a, p).1) % p == 1
  {
    EgcdDivides(a, p);
    EgcdCofactors(a, p);
    var (g, u, v) := Egcd(a, p);
    if g >= p {
      ModUnique(g, a, 0, a);
      assert false;
    }
    assert g == 1;
    assert a * u == (-v) * p + 1;
    ModUnique(p, a * u, -v, 1);
  }

  /** The inverse of a non-zero element. */
  function Inv(a: Fp): Fp
    requires a != 0
  {
    R(Bezout(a))
  }

  lemma InvMul(a: Fp)
    requires a != 0
    ensures Mul(a, Inv(a)) == 1 && Mul(Inv(a), a) == 1
    ensures Inv(a) != 0
  {
    Bounds(a);
    ModulusFacts();
    BezoutInverts(P, a);
    ReduceLaw(ZMul(a, Bezout(a)));
    assert R(ZMul(a, Bezout(a))) == 1;
    hide Bezout, R;
    RMul(a, Bezout(a));
    Canonical(a);
    MulComm(a, Inv(a));
    Units(a);
  }

  lemma NoZeroDivisors(a: Fp, b: Fp)
    requires Mul(a, b) == 0
    ensures a == 0 || b == 0
  {
    hide Inv;
    if a != 0 {
      InvMul(a);
      MulAssoc(Inv(a), a, b);
      Units(b);
      Units(Inv(a));
    }
  }

  lemma CancelMul(a: Fp, b: Fp, c: Fp)
    requires c != 0 && Mul(c, a) == Mul(c, b)
    ensures a == b
  {
    DistribSub(c, a, b);
    Units(Mul(c, a));
    NoZeroDivisors(c, Sub(a, b));
    SubZero(a, b);
  }

  lemma InvUnique(a: Fp, b: Fp)
    requires Mul(a, b) == 1
    ensures a != 0 && b == Inv(a)
  {
    hide Inv;
    Units(b);
    InvMul(a);
    CancelMul(b, Inv(a), a);
  }

  // ----- inversion of many elements at the price of one (field.rs) -----

  /** What `batch_inverse` leaves in a slot: zero stays zero. */
  function InvOrZero(a: Fp): Fp { if a == 0 then 0 else Inv(a) }

  /** The product of the non-zero elements. */
  function NonzeroProduct(values: Vec): (p: Fp)
  {
    if values == [] then 1
    else
      var init, last := values[..|values| - 1], values[|values| - 1];
      if last == 0 then NonzeroProduct(init) else Mul(NonzeroProduct(init), last)
  }

  lemma {:induction false} NonzeroProductNonzero(values: Vec)
    ensures NonzeroProduct(values) != 0
  {
    if values != [] {
      var init, last := values[..|values| - 1], values[|values| - 1];
      NonzeroProductNonzero(init);
      if last != 0 && Mul(NonzeroProduct(init), last) == 0 {
        NoZeroDivisors(NonzeroProduct(init), last);
      }
    }
  }

  lemma PeelInverse(u: Fp, p: Fp, v: Fp)
    ensures Mul(v, Mul(u, p))
       == Mul(u, Mul(p, v))
  {
    Same(ZMul(v, ZMul(u, p)),
         ZMul(u, ZMul(p, v)));
    hide *;
    Ring(u, p, v);
  }

  /** One backward step: the inverse of a product of p and v gives the inverses of v and of p. */
  lemma SplitInverse(u: Fp, p: Fp, v: Fp)
    requires Mul(u, Mul(p, v)) == 1
    ensures v != 0 && Mul(u, p) == Inv(v)
    ensures Mul(Mul(u, v), p) == 1
  {
    hide Inv;
    PeelInverse(u, p, v);
    InvUnique(v, Mul(u, p));
    MulComm(p, v);
    MulAssoc(u, v, p);
  }

  method BatchInverse(values: Vec) returns (out: Vec)
    ensures |out| == |values|
    ensures forall i :: 0 <= i < |values| ==> out[i] == InvOrZero(values[i])
  {
    hide Inv;
    out := seq(|values|, _ => 0);
    var prefix: Vec := [];
    var acc: Fp := 1;
    for i := 0 to |values|
      invariant |prefix| == i
      invariant acc == NonzeroProduct(values[..i])
      invariant forall j :: 0 <= j < i ==> prefix[j] == NonzeroProduct(values[..j])
    {
      prefix := prefix + [acc];
      assert values[..i + 1][..i] == values[..i];
      assert forall j :: 0 <= j < i ==> values[..i + 1][..j] == values[..j];
      if values[i] != 0 {
        acc := Mul(acc, values[i]);
      }
    }
    assert values[..|values|] == values;
    NonzeroProductNonzero(values);
    if acc == 0 {
      assert false;
    }
    var invAcc := Inv(acc);
    InvMul(acc);
    for i := |values| downto 0
      invariant |out| == |values|
      invariant Mul(invAcc, NonzeroProduct(values[..i])) == 1
      invariant forall j :: 0 <= j < i ==> out[j] == 0
      invariant forall j :: i <= j < |values| ==> out[j] == InvOrZero(values[j])
    {
      assert values[..i + 1][..i] == values[..i];
      if values[i] != 0 {
        SplitInverse(invAcc, NonzeroProduct(values[..i]), values[i]);
        out := out[i := Mul(invAcc, prefix[i])];
        invAcc := Mul(invAcc, values[i]);
      }
    }
  }
}
