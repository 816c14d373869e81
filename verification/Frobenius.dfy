/** The order of the circle group (circle_fft.rs). Points are numbers x + iy with i^2 = -1, and raising them to the P-th
    power is conjugation, so P + 1 times a point of the circle is the identity. Half of P + 1 tells which points the
    generator search can use: those of a t for which 1 + t^2 is not a square. */
module Frobenius {
  import opened Integers
  import opened Field
  import opened Squares
  import opened CircleGroup

  // ----- the numbers x + iy form a ring with CircleGroup.Plus as product -----

  const ZERO: Point := Point(0, 0)

  function Join(a: Point, b: Point): Point { Point(Add(a.x, b.x), Add(a.y, b.y)) }

  function Scaled(c: nat, a: Point): Point { Point(Mul(R(c), a.x), Mul(R(c), a.y)) }

  lemma SpreadX(a: Fp, b: Fp, c: Fp, d: Fp, e: Fp, f: Fp)
    ensures Sub(Mul(a, Add(c, e)), Mul(b, Add(d, f)))
       == Add(Sub(Mul(a, c), Mul(b, d)), Sub(Mul(a, e), Mul(b, f)))
  {
    Same(ZSub(ZMul(a, ZAdd(c, e)), ZMul(b, ZAdd(d, f))),
         ZAdd(ZSub(ZMul(a, c), ZMul(b, d)), ZSub(ZMul(a, e), ZMul(b, f))));
    hide *;
    Ring(a, b, c, d, e, f);
  }

  lemma ScaledX(a: Fp, b: Fp, s: Fp, c: Fp, d: Fp)
    ensures Sub(Mul(a, Mul(s, c)), Mul(b, Mul(s, d)))
       == Mul(s, Sub(Mul(a, c), Mul(b, d)))
  {
    Same(ZSub(ZMul(a, ZMul(s, c)), ZMul(b, ZMul(s, d))),
         ZMul(s, ZSub(ZMul(a, c), ZMul(b, d))));
    hide *;
    Ring(a, b, s, c, d);
  }

  lemma ScaledY(a: Fp, b: Fp, s: Fp, c: Fp, d: Fp)
    ensures Add(Mul(a, Mul(s, d)), Mul(b, Mul(s, c)))
       == Mul(s, Add(Mul(a, d), Mul(b, c)))
  {
    Same(ZAdd(ZMul(a, ZMul(s, d)), ZMul(b, ZMul(s, c))),
         ZMul(s, ZAdd(ZMul(a, d), ZMul(b, c))));
    hide *;
    Ring(a, b, s, c, d);
  }

  lemma PlusJoin(c: Point, a: Point, b: Point)
    ensures Plus(c, Join(a, b)) == Join(Plus(c, a), Plus(c, b))
  {
    SpreadX(c.x, c.y, a.x, a.y, b.x, b.y);
    CombineStep(c.x, c.y, a.y, a.x, b.y, b.x);
  }

  lemma PlusScaled(c: Point, s: nat, a: Point)
    ensures Plus(c, Scaled(s, a)) == Scaled(s, Plus(c, a))
  {
    ScaledX(c.x, c.y, R(s), a.x, a.y);
    ScaledY(c.x, c.y, R(s), a.x, a.y);
  }

  lemma ScaledAdd(c: nat, d: nat, a: Point)
    ensures Scaled(c + d, a) == Join(Scaled(c, a), Scaled(d, a))
  {
    RAdd(c, d);
    DistribRight(R(c), R(d), a.x);
    DistribRight(R(c), R(d), a.y);
  }

  lemma JoinSwap(a: Point, b: Point, c: Point, d: Point)
    ensures Join(Join(a, b), Join(c, d)) == Join(Join(a, c), Join(b, d))
  {
    AddSwap(a.x, b.x, c.x, d.x);
    AddSwap(a.y, b.y, c.y, d.y);
  }

  lemma JoinComm(a: Point, b: Point)
    ensures Join(a, b) == Join(b, a)
  {
    AddComm(a.x, b.x);
    AddComm(a.y, b.y);
  }

  lemma JoinUnits(a: Point)
    ensures Join(a, ZERO) == a && Join(ZERO, a) == a && Plus(a, ZERO) == ZERO
    ensures Scaled(0, a) == ZERO && Scaled(1, a) == a
  {
    Canonical(0); Canonical(1);
    Units(a.x); Units(a.y); Units(0);
  }

  // ----- the binomial theorem -----

  function Binomial(n: nat, k: nat): nat
  {
    if k == 0 then 1 else if n == 0 then 0 else Binomial(n - 1, k) + Binomial(n - 1, k - 1)
  }

  lemma {:induction false} BinomialBeyond(n: nat, k: nat)
    requires k > n
    ensures Binomial(n, k) == 0
  {
    if n > 0 {
      BinomialBeyond(n - 1, k);
      BinomialBeyond(n - 1, k - 1);
    }
  }

  /** k C(n, k) = n C(n - 1, k - 1). */
  lemma {:induction false} Absorption(n: nat, k: nat)
    requires n >= 1 && k >= 1
    ensures k * Binomial(n, k) == n * Binomial(n - 1, k - 1)
  {
    if n == 1 {
      if k >= 2 {
        BinomialBeyond(1, k);
        BinomialBeyond(0, k - 1);
      }
    } else {
      Absorption(n - 1, k);
      var a, b := Binomial(n - 1, k), Binomial(n - 1, k - 1);
      if k >= 2 {
        Absorption(n - 1, k - 1);
        AbsorptionStep(n, k, a, b, Binomial(n - 2, k - 1), Binomial(n - 2, k - 2));
      }
    }
  }

  lemma AbsorptionStep(n: nat, k: nat, a: nat, b: nat, c: nat, d: nat)
    requires k * a == (n - 1) * c && (k - 1) * b == (n - 1) * d && b == c + d
    ensures k * (a + b) == n * b
  {
    assert (n - 1) * b == (n - 1) * c + (n - 1) * d;
    assert k * (a + b) == k * a + (k - 1) * b + b;
  }

  /** The inner binomials of a prime vanish in the field. */
  lemma InnerBinomial(k: nat)
    requires 0 < k < P
    ensures R(Binomial(P, k)) == 0
  {
    ModulusFacts();
    var c := Binomial(P, k);
    Absorption(P, k);
    RMul(k, c);
    MultipleVanishes(Binomial(P - 1, k - 1));
    assert InRange(k);
    Canonical(k);
    NoZeroDivisors(k, R(c));
  }

  lemma MultipleVanishes(n: int)
    ensures R(P * n) == 0
  {
    ModulusFacts();
    ReduceLaw(P * n);
    MultipleOf(n, P);
    assert P * n == n * P;
  }

  function Term(n: nat, j: nat, a: Point, b: Point): Point
  {
    if j > n then ZERO else Scaled(Binomial(n, j), Plus(Times(j, a), Times(n - j, b)))
  }

  /** The first k terms of the expansion of (a + b)^n. */
  function Expansion(n: nat, k: nat, a: Point, b: Point): Point
  {
    if k == 0 then ZERO else Join(Expansion(n, k - 1, a, b), Term(n, k - 1, a, b))
  }

  /** One more factor b or a. */
  lemma TermByB(n: nat, j: nat, a: Point, b: Point)
    requires j <= n
    ensures Plus(b, Term(n, j, a, b)) == Scaled(Binomial(n, j), Plus(Times(j, a), Times(n + 1 - j, b)))
  {
    hide Plus, Scaled, Binomial;
    var s, t := Times(j, a), Times(n - j, b);
    PlusScaled(b, Binomial(n, j), Plus(s, t));
    PlusComm(b, Plus(s, t));
    PlusAssoc(s, t, b);
  }

  lemma TermByA(n: nat, j: nat, a: Point, b: Point)
    requires j <= n
    ensures Plus(a, Term(n, j, a, b)) == Scaled(Binomial(n, j), Plus(Times(j + 1, a), Times(n - j, b)))
  {
    hide Plus, Scaled, Binomial;
    var s, t := Times(j, a), Times(n - j, b);
    PlusScaled(a, Binomial(n, j), Plus(s, t));
    PlusAssoc(a, s, t);
    PlusComm(a, s);
  }

  lemma TermStep(n: nat, j: nat, a: Point, b: Point)
    requires 1 <= j <= n + 1
    ensures Term(n + 1, j, a, b) == Join(Plus(b, Term(n, j, a, b)), Plus(a, Term(n, j - 1, a, b)))
  {
    hide Plus, Scaled, Times, Join;
    TermByA(n, j - 1, a, b);
    var power := Plus(Times(j, a), Times(n + 1 - j, b));
    ScaledAdd(Binomial(n, j), Binomial(n, j - 1), power);
    if j <= n {
      TermByB(n, j, a, b);
    } else {
      BinomialBeyond(n, j);
      JoinUnits(power);
      JoinUnits(b);
    }
  }

  lemma {:induction false} ExpansionStep(n: nat, k: nat, a: Point, b: Point)
    requires k <= n + 1
    ensures Expansion(n + 1, k + 1, a, b) == Join(Plus(b, Expansion(n, k + 1, a, b)), Plus(a, Expansion(n, k, a, b)))
  {
    hide Plus, Scaled, Times, Join, Term, Binomial;
    if k == 0 {
      FirstTerm(n, a, b);
      JoinUnits(a);
      JoinUnits(Term(n, 0, a, b));
      JoinUnits(Term(n + 1, 0, a, b));
    } else {
      ExpansionStep(n, k - 1, a, b);
      TermStep(n, k, a, b);
      var s, s', t, t' := Expansion(n, k, a, b), Expansion(n, k - 1, a, b), Term(n, k, a, b), Term(n, k - 1, a, b);
      PlusJoin(b, s, t);
      PlusJoin(a, s', t');
      JoinSwap(Plus(b, s), Plus(a, s'), Plus(b, t), Plus(a, t'));
    }
  }

  lemma FirstTerm(n: nat, a: Point, b: Point)
    ensures Term(n + 1, 0, a, b) == Plus(b, Term(n, 0, a, b)) && Join(Plus(b, Term(n, 0, a, b)), ZERO) == Plus(b, Term(n, 0, a, b))
  {
    hide Plus, Scaled, Times;
    TermByB(n, 0, a, b);
    JoinUnits(Plus(b, Term(n, 0, a, b)));
  }

  lemma {:induction false} BinomialTheorem(n: nat, a: Point, b: Point)
    ensures Times(n, Join(a, b)) == Expansion(n, n + 1, a, b)
  {
    hide Plus, Scaled, Join;
    if n == 0 {
      PlusIdentity(IDENTITY);
      JoinUnits(IDENTITY);
    } else {
      BinomialTheorem(n - 1, a, b);
      hide Term, Times, Binomial;
      var e, s := Join(a, b), Expansion(n - 1, n, a, b);
      NextPower(n - 1, e);
      PlusComm(s, e);
      PlusComm(s, a);
      PlusComm(s, b);
      PlusJoin(s, a, b);
      ExpansionStep(n - 1, n, a, b);
      BeyondTerm(n - 1, a, b);
      JoinUnits(s);
      JoinComm(Plus(a, s), Plus(b, s));
    }
  }

  lemma BeyondTerm(n: nat, a: Point, b: Point)
    ensures Term(n, n + 1, a, b) == ZERO
  {
  }

  // ----- the P-th power -----

  lemma {:induction false} InnerTermsVanish(k: nat, a: Point, b: Point)
    requires 1 <= k <= P
    ensures Expansion(P, k, a, b) == Term(P, 0, a, b)
  {
    hide Plus, Join, Times, Binomial;
    if k == 1 {
      JoinUnits(Term(P, 0, a, b));
    } else {
      InnerTermsVanish(k - 1, a, b);
      InnerBinomial(k - 1);
      Canonical(0);
      JoinUnits(Plus(Times(k - 1, a), Times(P - (k - 1), b)));
      JoinUnits(Term(P, 0, a, b));
    }
  }

  lemma {:induction false} BinomialEnds(n: nat)
    ensures Binomial(n, 0) == 1 && Binomial(n, n) == 1
  {
    if n > 0 {
      BinomialEnds(n - 1);
      BinomialBeyond(n - 1, n);
    }
  }

  /** The P-th power of a sum is the sum of the P-th powers. */
  lemma PowerOfSum(a: Point, b: Point)
    ensures Times(P, Join(a, b)) == Join(Times(P, a), Times(P, b))
  {
    hide Plus, Join, Times, Binomial, Scaled;
    ModulusFacts();
    BinomialTheorem(P, a, b);
    InnerTermsVanish(P, a, b);
    BinomialEnds(P);
    NoPower(a);
    NoPower(b);
    PlusIdentity(Times(P, a));
    PlusIdentity(Times(P, b));
    JoinUnits(Times(P, a));
    JoinUnits(Times(P, b));
    JoinComm(Times(P, a), Times(P, b));
  }

  lemma NoPower(a: Point)
    ensures Times(0, a) == IDENTITY
  {
  }

  /** A field element as a number without imaginary part. */
  function Real(x: Fp): Point { Point(x, 0) }

  lemma RealSum(x: Fp, y: Fp)
    ensures Join(Real(x), Real(y)) == Real(Add(x, y))
  {
    Units(0);
  }

  lemma RealProduct(x: Fp, a: Point)
    ensures Plus(Real(x), a) == Point(Mul(x, a.x), Mul(x, a.y)) && Plus(a, Real(x)) == Plus(Real(x), a)
  {
    Units(a.x); Units(a.y); Units(Mul(x, a.x)); Units(Mul(x, a.y));
    PlusComm(a, Real(x));
  }

  lemma {:induction false} PowerOfOne(n: nat)
    ensures Times(n, IDENTITY) == IDENTITY
  {
    hide Plus;
    if n > 0 {
      PowerOfOne(n - 1);
      PlusIdentity(IDENTITY);
    }
  }

  lemma {:induction false} PowerOfZero(n: nat)
    requires n > 0
    ensures Times(n, ZERO) == ZERO
  {
    hide Plus;
    JoinUnits(Times(n - 1, ZERO));
  }

  /** Fermat: the P-th power of a field element is the element. */
  lemma {:induction false} Fermat(n: nat)
    requires n < P
    ensures InRange(n) && Times(P, Real(n)) == Real(n)
  {
    hide Plus, Join, Times;
    ModulusFacts();
    assert InRange(n);
    if n == 0 {
      PowerOfZero(P);
    } else {
      Fermat(n - 1);
      PowerOfOne(P);
      PowerOfSum(Real(n - 1), IDENTITY);
      RealSum(n - 1, 1);
      Canonical(n - 1);
      Canonical(1);
      Canonical(n);
      RAdd(n - 1, 1);
    }
  }

  lemma {:induction false} PowerOfProduct(n: nat, a: Point, b: Point)
    ensures Times(n, Plus(a, b)) == Plus(Times(n, a), Times(n, b))
  {
    hide Plus;
    if n == 0 {
      PlusIdentity(IDENTITY);
    } else {
      PowerOfProduct(n - 1, a, b);
      PlusSwap(Times(n - 1, a), Times(n - 1, b), a, b);
    }
  }

  lemma {:induction false} PowerOfPower(j: nat, k: nat, a: Point)
    ensures Times(j, Times(k, a)) == Times(j * k, a)
  {
    hide Plus;
    if j == 0 {
    } else {
      PowerOfPower(j - 1, k, a);
      assert j * k == (j - 1) * k + k;
      TimesAdd((j - 1) * k, k, a);
    }
  }

  const I: Point := Point(0, 1)

  lemma SquareOfI()
    ensures Plus(I, I) == HALF_TURN
  {
    Units(0); Units(1);
  }

  lemma PowerOfI()
    ensures Times(P, I) == Mirror(I)
  {
    ModulusFacts();
    hide Plus, Times;
    var h := P / 4;
    SquareOfI();
    TwoFactors(I);
    PowerOfPower(2 * h + 1, 2, I);
    TimesHalfTurn(2 * h + 1);
    NextPower(2 * (2 * h + 1), I);
    assert P == 2 * (2 * h + 1) + 1;
    RealProduct(Neg(1), I);
    Units(Neg(1));
  }

  lemma TwoFactors(a: Point)
    ensures Times(2, a) == Plus(a, a)
  {
    hide Plus;
    assert Times(1, a) == Plus(Times(0, a), a);
    PlusIdentity(a);
  }

  lemma NextPower(n: nat, a: Point)
    ensures Times(n + 1, a) == Plus(Times(n, a), a)
  {
  }

  /** The P-th power is conjugation. */
  lemma PowerIsMirror(a: Point)
    ensures Times(P, a) == Mirror(a)
  {
    hide Plus, Join, Times, InRange;
    Bounds(a.x);
    Bounds(a.y);
    Parts(a);
    PowerOfSum(Real(a.x), Plus(Real(a.y), I));
    PowerOfProduct(P, Real(a.y), I);
    Fermat(a.x);
    Fermat(a.y);
    PowerOfI();
    MirrorParts(a);
  }

  lemma Parts(a: Point)
    ensures a == Join(Real(a.x), Plus(Real(a.y), I))
  {
    RealProduct(a.y, I);
    Units(a.x); Units(a.y);
  }

  lemma MirrorParts(a: Point)
    ensures Mirror(a) == Join(Real(a.x), Plus(Real(a.y), Mirror(I)))
  {
    RealProduct(a.y, Mirror(I));
    MulNeg(a.y, 1);
    Units(a.x); Units(a.y); Units(Neg(a.y));
  }

  /** x^2 + y^2. */
  function NormOf(a: Point): Fp { Add(Mul(a.x, a.x), Mul(a.y, a.y)) }

  lemma PowerIsNorm(a: Point)
    ensures Times(P + 1, a) == Real(NormOf(a))
  {
    hide Times;
    ModulusFacts();
    PowerIsMirror(a);
    NextPower(P, a);
    PlusComm(Mirror(a), a);
    MirrorX(a.x, a.y);
    MirrorY(a.x, a.y);
  }

  /** The group order: P + 1 times any point of the circle is the identity. */
  lemma GroupOrder(p: Point)
    requires OnCircle(p)
    ensures Times(P + 1, p) == IDENTITY
  {
    hide Times;
    PowerIsNorm(p);
  }

  // ----- half the group order -----

  ghost predicate IsSquare(a: Fp) { exists r: Fp :: Mul(r, r) == a }

  function HalfOrder(): (n: nat)
    ensures 2 * n == P + 1 && n % 2 == 0
  {
    QuarterOfOrder();
    2 * (P / 4 + 1)
  }

  lemma QuarterOfOrder()
    ensures P >= 0 && 4 * (P / 4 + 1) == P + 1
  {
    ModulusFacts();
  }

  lemma {:induction false} PowerOfReal(n: nat, x: Fp)
    ensures Times(n, Real(x)) == Real(Times(n, Real(x)).x)
  {
    hide Plus;
    if n > 0 {
      PowerOfReal(n - 1, x);
      RealProduct(Times(n - 1, Real(x)).x, Real(x));
      Units(Times(n - 1, Real(x)).x);
    }
  }

  lemma SquareDiff(h: Fp, x: Fp)
    ensures Mul(Sub(h, x), Add(h, x))
       == Sub(Mul(h, h), Mul(x, x))
  {
    Same(ZMul(ZSub(h, x), ZAdd(h, x)),
         ZSub(ZMul(h, h), ZMul(x, x)));
    hide *;
    Ring(h, x);
  }

  /** Of x and -x one is a square. */
  lemma OneIsSquare(x: Fp)
    ensures IsSquare(x) || IsSquare(Neg(x))
  {
    hide Plus, Times, NormOf;
    QuarterOfOrder();
    var a, q: nat := Real(x), P / 4 + 1;
    var root, half := Times(q, a).x, Times(2 * q, a).x;
    PowerOfReal(q, x);
    PowerOfReal(2 * q, x);
    PowerOfPower(2, q, a);
    TwoFactors(Times(q, a));
    RealProduct(root, Real(root));
    PowerOfPower(2, 2 * q, a);
    TwoFactors(Times(2 * q, a));
    RealProduct(half, Real(half));
    assert 2 * (2 * q) == P + 1;
    PowerIsNorm(a);
    NormOfReal(x);
    assert Mul(root, root) == half && Mul(half, half) == Mul(x, x);
    SquareDiff(half, x);
    Units(Mul(x, x));
    NoZeroDivisors(Sub(half, x), Add(half, x));
    if Sub(half, x) == 0 {
      SubZero(half, x);
    } else {
      AddSub(half, x);
    }
  }

  lemma NormOfReal(x: Fp)
    ensures NormOf(Real(x)) == Mul(x, x)
  {
    Units(0);
    Units(Mul(x, x));
  }

  /** Where a double stands for a point of norm n, half the order times it is n. */
  lemma HalfOrderOfDouble(u: Point)
    ensures Times(HalfOrder(), Double(u)) == Real(NormOf(u))
  {
    hide Plus, Times, NormOf;
    TwoFactors(u);
    PowerOfPower(HalfOrder(), 2, u);
    PowerIsNorm(u);
  }

  /** The point (1 + it)^2 / (1 + t^2) of the rational parametrization; v is the inverse of 1 + t^2. */
  function Parametrized(t: Fp, v: Fp): Point { Point(Mul(Sub(1, Mul(t, t)), v), Mul(Add(t, t), v)) }

  lemma NormScale(t: Fp, s: Fp)
    ensures Add(Mul(s, s), Mul(Mul(t, s), Mul(t, s)))
       == Mul(Add(1, Mul(t, t)), Mul(s, s))
  {
    Same(ZAdd(ZMul(s, s), ZMul(ZMul(t, s), ZMul(t, s))),
         ZMul(ZAdd(1, ZMul(t, t)), ZMul(s, s)));
    hide *;
    Ring(t, s);
  }

  lemma DoubleScaleX(t: Fp, s: Fp)
    ensures Sub(Mul(s, s), Mul(Mul(t, s), Mul(t, s)))
       == Mul(Sub(1, Mul(t, t)), Mul(s, s))
  {
    Same(ZSub(ZMul(s, s), ZMul(ZMul(t, s), ZMul(t, s))),
         ZMul(ZSub(1, ZMul(t, t)), ZMul(s, s)));
    hide *;
    Ring(t, s);
  }

  lemma DoubleScaleY(t: Fp, s: Fp)
    ensures Add(Mul(s, Mul(t, s)), Mul(Mul(t, s), s))
       == Mul(Add(t, t), Mul(s, s))
  {
    Same(ZAdd(ZMul(s, ZMul(t, s)), ZMul(ZMul(t, s), s)),
         ZMul(ZAdd(t, t), ZMul(s, s)));
    hide *;
    Ring(t, s);
  }

  lemma NegFactor(a: Fp, w: Fp)
    ensures Mul(a, Sub(0, w))
       == Mul(Sub(0, 1), Mul(a, w))
  {
    Same(ZMul(a, ZSub(0, w)),
         ZMul(ZSub(0, 1), ZMul(a, w)));
    hide *;
    Ring(a, w);
  }

  lemma NegBoth(a: Fp, b: Fp)
    ensures Mul(Sub(0, a), Sub(0, b))
       == Mul(a, b)
  {
    Same(ZMul(ZSub(0, a), ZSub(0, b)),
         ZMul(a, b));
    hide *;
    Ring(a, b);
  }

  /** Any scalar multiple s (1 + it), doubled. */
  lemma ScaledDouble(t: Fp, s: Fp)
    ensures Double(Point(s, Mul(t, s))) == Parametrized(t, Mul(s, s))
    ensures NormOf(Point(s, Mul(t, s))) == Mul(Add(1, Mul(t, t)), Mul(s, s))
  {
    NormScale(t, s);
    DoubleScaleX(t, s);
    DoubleScaleY(t, s);
  }

  lemma InverseSquare(n: Fp, r: Fp, v: Fp)
    requires Mul(r, r) == n && Mul(n, v) == 1
    ensures r != 0 && Mul(Inv(r), Inv(r)) == v
  {
    hide Inv;
    if r == 0 { Units(0); Units(v); }
    SquareOfProduct(r, Inv(r));
    InvMul(r);
    Units(1);
    var w := Mul(Inv(r), Inv(r));
    if n == 0 { Units(v); }
    MulComm(n, v);
    MulComm(n, w);
    CancelMul(w, v, n);
  }

  /** Half the group order times the point of t tells whether 1 + t^2 is a square. */
  lemma HalfOrderOfParametrized(t: Fp, v: Fp)
    requires Mul(Add(1, Mul(t, t)), v) == 1
    ensures Times(HalfOrder(), Parametrized(t, v)) == if IsSquare(Add(1, Mul(t, t))) then IDENTITY else HALF_TURN
  {
    hide Plus, Times, NormOf, Inv;
    var n := Add(1, Mul(t, t));
    if IsSquare(n) {
      var r :| Mul(r, r) == n;
      InverseSquare(n, r, v);
      ScaledDouble(t, Inv(r));
      HalfOrderOfDouble(Point(Inv(r), Mul(t, Inv(r))));
    } else {
      OneIsSquare(n);
      var r :| Mul(r, r) == Neg(n);
      NegBoth(n, v);
      InverseSquare(Neg(n), r, Neg(v));
      ScaledDouble(t, Inv(r));
      HalfOrderOfDouble(Point(Inv(r), Mul(t, Inv(r))));
      NegFactor(n, v);
      Units(Neg(1));
      NegatedPoint(t, v);
      PowerOfProduct(HalfOrder(), HALF_TURN, Parametrized(t, v));
      TimesHalfTurn(HalfOrder());
      PlusIdentity(Times(HalfOrder(), Parametrized(t, v)));
    }
  }

  lemma NegatedPoint(t: Fp, v: Fp)
    ensures Parametrized(t, Neg(v)) == Plus(HALF_TURN, Parametrized(t, v))
  {
    NegFactor(Sub(1, Mul(t, t)), v);
    NegFactor(Add(t, t), v);
    RealProduct(Neg(1), Parametrized(t, v));
  }

  /** A number whose negative has a known root is not a square. */
  lemma NotSquare(a: Fp, s: Fp)
    requires a != 0 && Mul(s, s) == Neg(a)
    ensures !IsSquare(a)
  {
    hide Inv;
    if IsSquare(a) {
      var r :| Mul(r, r) == a;
      if r == 0 { Units(0); }
      var v := Inv(r);
      InvMul(r);
      SquareOfProduct(r, v);
      SquareOfProduct(s, v);
      Units(1);
      NegProduct(a, Mul(v, v));
      NoSquareRoot(Mul(s, v));
    }
  }
}
