/** The circle group x^2 + y^2 = 1 over the field and the odd-multiple domains of its points of order 2^(k+1)
    (circle_fft.rs). */
module CircleGroup {
  import opened Field
  import opened Bits

  datatype Point = Point(x: Fp, y: Fp)

  const IDENTITY: Point := Point(1, 0)

  /** The point of order two. */
  const HALF_TURN: Point := Point(Neg(1), 0)

  predicate OnCircle(p: Point) { Add(Mul(p.x, p.x), Mul(p.y, p.y)) == 1 }

  function Plus(a: Point, b: Point): Point
  {
    Point(Sub(Mul(a.x, b.x), Mul(a.y, b.y)), Add(Mul(a.x, b.y), Mul(a.y, b.x)))
  }

  function Double(a: Point): Point { Plus(a, a) }

  function Mirror(a: Point): Point { Point(a.x, Neg(a.y)) }

  lemma PlusXAssoc(a: Fp, b: Fp, c: Fp, d: Fp, e: Fp, f: Fp)
    ensures Sub(Mul(Sub(Mul(a, c), Mul(b, d)), e), Mul(Add(Mul(a, d), Mul(b, c)), f))
       == Sub(Mul(a, Sub(Mul(c, e), Mul(d, f))), Mul(b, Add(Mul(c, f), Mul(d, e))))
  {
    Same(ZSub(ZMul(ZSub(ZMul(a, c), ZMul(b, d)), e), ZMul(ZAdd(ZMul(a, d), ZMul(b, c)), f)),
         ZSub(ZMul(a, ZSub(ZMul(c, e), ZMul(d, f))), ZMul(b, ZAdd(ZMul(c, f), ZMul(d, e)))));
    hide *;
    Ring(a, b, c, d, e, f);
  }

  lemma PlusYAssoc(a: Fp, b: Fp, c: Fp, d: Fp, e: Fp, f: Fp)
    ensures Add(Mul(Sub(Mul(a, c), Mul(b, d)), f), Mul(Add(Mul(a, d), Mul(b, c)), e))
       == Add(Mul(a, Add(Mul(c, f), Mul(d, e))), Mul(b, Sub(Mul(c, e), Mul(d, f))))
  {
    Same(ZAdd(ZMul(ZSub(ZMul(a, c), ZMul(b, d)), f), ZMul(ZAdd(ZMul(a, d), ZMul(b, c)), e)),
         ZAdd(ZMul(a, ZAdd(ZMul(c, f), ZMul(d, e))), ZMul(b, ZSub(ZMul(c, e), ZMul(d, f)))));
    hide *;
    Ring(a, b, c, d, e, f);
  }

  lemma Norm(a: Fp, b: Fp, c: Fp, d: Fp)
    ensures Add(Mul(Sub(Mul(a, c), Mul(b, d)), Sub(Mul(a, c), Mul(b, d))), Mul(Add(Mul(a, d), Mul(b, c)), Add(Mul(a, d), Mul(b, c))))
       == Mul(Add(Mul(a, a), Mul(b, b)), Add(Mul(c, c), Mul(d, d)))
  {
    Same(ZAdd(ZMul(ZSub(ZMul(a, c), ZMul(b, d)), ZSub(ZMul(a, c), ZMul(b, d))), ZMul(ZAdd(ZMul(a, d), ZMul(b, c)), ZAdd(ZMul(a, d), ZMul(b, c)))),
         ZMul(ZAdd(ZMul(a, a), ZMul(b, b)), ZAdd(ZMul(c, c), ZMul(d, d))));
    hide *;
    Ring(a, b, c, d);
  }

  lemma MirrorNorm(a: Fp, b: Fp)
    ensures Add(Mul(a, a), Mul(Sub(0, b), Sub(0, b)))
       == Add(Mul(a, a), Mul(b, b))
  {
    Same(ZAdd(ZMul(a, a), ZMul(ZSub(0, b), ZSub(0, b))),
         ZAdd(ZMul(a, a), ZMul(b, b)));
    hide *;
    Ring(a, b);
  }

  lemma MirrorX(a: Fp, b: Fp)
    ensures Sub(Mul(a, a), Mul(b, Sub(0, b)))
       == Add(Mul(a, a), Mul(b, b))
  {
    Same(ZSub(ZMul(a, a), ZMul(b, ZSub(0, b))),
         ZAdd(ZMul(a, a), ZMul(b, b)));
    hide *;
    Ring(a, b);
  }

  lemma MirrorY(a: Fp, b: Fp)
    ensures Add(Mul(a, Sub(0, b)), Mul(b, a))
       == 0
  {
    Same(ZAdd(ZMul(a, ZSub(0, b)), ZMul(b, a)),
         0);
    hide *;
    Ring(a, b);
  }

  lemma DoubleX(a: Fp, b: Fp)
    ensures Add(Sub(Mul(a, a), Mul(b, b)), Add(Mul(a, a), Mul(b, b)))
       == Add(Mul(a, a), Mul(a, a))
  {
    Same(ZAdd(ZSub(ZMul(a, a), ZMul(b, b)), ZAdd(ZMul(a, a), ZMul(b, b))),
         ZAdd(ZMul(a, a), ZMul(a, a)));
    hide *;
    Ring(a, b);
  }

  lemma SquareNeg(x: Fp)
    ensures Mul(Sub(0, x), Sub(0, x))
       == Mul(x, x)
  {
    Same(ZMul(ZSub(0, x), ZSub(0, x)),
         ZMul(x, x));
    hide *;
    Ring(x);
  }

  lemma PlusComm(a: Point, b: Point)
    ensures Plus(a, b) == Plus(b, a)
  {
    MulComm(a.x, b.x); MulComm(a.y, b.y); MulComm(a.x, b.y); MulComm(a.y, b.x);
    AddComm(Mul(a.x, b.y), Mul(a.y, b.x));
  }

  lemma PlusAssoc(a: Point, b: Point, c: Point)
    ensures Plus(Plus(a, b), c) == Plus(a, Plus(b, c))
  {
    PlusXAssoc(a.x, a.y, b.x, b.y, c.x, c.y);
    PlusYAssoc(a.x, a.y, b.x, b.y, c.x, c.y);
  }

  lemma PlusIdentity(a: Point)
    ensures Plus(a, IDENTITY) == a && Plus(IDENTITY, a) == a
  {
    Units(a.x); Units(a.y);
  }

  lemma PlusOnCircle(a: Point, b: Point)
    requires OnCircle(a) && OnCircle(b)
    ensures OnCircle(Plus(a, b))
  {
    Norm(a.x, a.y, b.x, b.y);
    Units(1);
  }

  lemma MirrorInverse(a: Point)
    requires OnCircle(a)
    ensures OnCircle(Mirror(a)) && Plus(a, Mirror(a)) == IDENTITY
  {
    MirrorNorm(a.x, a.y);
    MirrorX(a.x, a.y);
    MirrorY(a.x, a.y);
  }

  /** Cancellation: the other summand is determined. */
  lemma OtherSummand(a: Point, b: Point, s: Point)
    requires OnCircle(a) && Plus(a, b) == s
    ensures b == Plus(Mirror(a), s)
  {
    hide Plus;
    MirrorInverse(a);
    PlusComm(a, Mirror(a));
    PlusAssoc(Mirror(a), a, b);
    PlusIdentity(b);
  }

  lemma PlusSwap(a: Point, b: Point, c: Point, d: Point)
    ensures Plus(Plus(a, b), Plus(c, d)) == Plus(Plus(a, c), Plus(b, d))
  {
    hide Plus;
    PlusAssoc(a, b, Plus(c, d));
    PlusAssoc(b, c, d);
    PlusComm(b, c);
    PlusAssoc(c, b, d);
    PlusAssoc(a, c, Plus(b, d));
  }

  // ----- multiples -----

  function Times(k: nat, q: Point): Point
  {
    if k == 0 then IDENTITY else Plus(Times(k - 1, q), q)
  }

  function DoubleN(p: Point, k: nat): Point
    decreases k
  {
    if k == 0 then p else DoubleN(Double(p), k - 1)
  }

  lemma {:induction false} TimesAdd(j: nat, k: nat, q: Point)
    ensures Times(j + k, q) == Plus(Times(j, q), Times(k, q))
  {
    hide Plus;
    if k == 0 {
      PlusIdentity(Times(j, q));
    } else {
      TimesAdd(j, k - 1, q);
      PlusAssoc(Times(j, q), Times(k - 1, q), q);
    }
  }

  lemma {:induction false} TimesOnCircle(k: nat, q: Point)
    requires OnCircle(q)
    ensures OnCircle(Times(k, q))
  {
    hide Plus;
    if k == 0 {
      Units(1); Units(0);
    } else {
      TimesOnCircle(k - 1, q);
      PlusOnCircle(Times(k - 1, q), q);
    }
  }

  lemma {:induction false} DoubleNOnCircle(p: Point, k: nat)
    requires OnCircle(p)
    ensures OnCircle(DoubleN(p, k))
    decreases k
  {
    hide Plus;
    if k > 0 {
      PlusOnCircle(p, p);
      DoubleNOnCircle(Double(p), k - 1);
    }
  }

  lemma {:induction false} DoubleNAdd(p: Point, j: nat, k: nat)
    ensures DoubleN(p, j + k) == DoubleN(DoubleN(p, j), k)
    decreases j
  {
    hide Plus;
    if j > 0 {
      DoubleNAdd(Double(p), j - 1, k);
    }
  }

  lemma {:induction false} TimesDouble(m: nat, q: Point)
    ensures Double(Times(m, q)) == Times(m, Double(q))
    ensures Times(2 * m, q) == Times(m, Double(q))
  {
    hide Plus;
    if m == 0 {
      PlusIdentity(IDENTITY);
    } else {
      TimesDouble(m - 1, q);
      PlusSwap(Times(m - 1, q), q, Times(m - 1, q), q);
      TimesAdd(m, m, q);
    }
  }

  lemma {:induction false} DoubleNTimes(m: nat, q: Point, k: nat)
    ensures DoubleN(Times(m, q), k) == Times(m, DoubleN(q, k))
    decreases k
  {
    hide Plus;
    if k > 0 {
      TimesDouble(m, q);
      DoubleNTimes(m, Double(q), k - 1);
    }
  }

  lemma {:induction false} DoubleNIsTimes(q: Point, k: nat)
    ensures DoubleN(q, k) == Times(Pow2(k), q)
    decreases k
  {
    hide Plus;
    if k == 0 {
      assert Times(1, q) == Plus(Times(0, q), q);
      PlusIdentity(q);
    } else {
      DoubleNIsTimes(Double(q), k - 1);
      TimesDouble(Pow2(k - 1), q);
    }
  }

  // ----- points of exact order 2^(logN + 1) -----

  predicate IsGenerator(q: Point, logN: nat)
  {
    && OnCircle(q)
    && DoubleN(q, logN) != IDENTITY
    && DoubleN(q, logN + 1) == IDENTITY
  }

  lemma SquareGap(a: Fp)
    ensures Mul(Sub(a, 1), Add(a, 1))
       == Sub(Mul(a, a), 1)
  {
    Same(ZMul(ZSub(a, 1), ZAdd(a, 1)),
         ZSub(ZMul(a, a), 1));
    hide *;
    Ring(a);
  }

  /** Only two points have y = 0. */
  lemma FlatPoints(p: Point)
    requires OnCircle(p) && p.y == 0
    ensures p == IDENTITY || p == HALF_TURN
  {
    Units(0); Units(Mul(p.x, p.x));
    SquareGap(p.x);
    Units(1);
    NoZeroDivisors(Sub(p.x, 1), Add(p.x, 1));
    if Sub(p.x, 1) == 0 {
      SubZero(p.x, 1);
    } else {
      AddSub(p.x, 1);
    }
  }

  /** Only two points double to the identity. */
  lemma Involutions(p: Point)
    requires OnCircle(p) && Double(p) == IDENTITY
    ensures p == IDENTITY || p == HALF_TURN
  {
    MulComm(p.x, p.y);
    TwoNonzero(Mul(p.x, p.y));
    NoZeroDivisors(p.x, p.y);
    if p.x == 0 {
      Units(0);
      Units(Mul(p.y, p.y));
      var s := Mul(p.y, p.y);
      assert s == 1 && Sub(0, s) == 1;
      SubAdd(0, 1);
      TwoNonzero(1);
      assert false;
    }
    FlatPoints(p);
  }

  lemma HalfTurnFacts()
    ensures HALF_TURN != IDENTITY && OnCircle(HALF_TURN) && Double(HALF_TURN) == IDENTITY
  {
    SquareNeg(1);
    Units(1);
    if Neg(1) == 1 {
      SubAdd(0, 1);
      TwoNonzero(1);
    }
    Units(0); Units(Neg(1));
    NegOneTimes(Neg(1));
    Units(Mul(Neg(1), Neg(1)));
  }

  lemma GeneratorHalf(q: Point, logN: nat)
    requires IsGenerator(q, logN)
    ensures DoubleN(q, logN) == HALF_TURN
  {
    hide Plus;
    DoubleNOnCircle(q, logN);
    DoubleNAdd(q, logN, 1);
    assert DoubleN(DoubleN(q, logN), 1) == Double(DoubleN(q, logN));
    Involutions(DoubleN(q, logN));
  }

  lemma {:induction false} TimesHalfTurn(m: nat)
    ensures Times(m, HALF_TURN) == if m % 2 == 0 then IDENTITY else HALF_TURN
  {
    hide Plus;
    HalfTurnFacts();
    if m > 0 {
      TimesHalfTurn(m - 1);
      PlusIdentity(HALF_TURN);
    }
  }

  /** No smaller multiple is the identity. */
  lemma {:induction false} ExactOrder(q: Point, logN: nat, m: nat)
    requires IsGenerator(q, logN) && 0 < m < Pow2(logN + 1)
    ensures Times(m, q) != IDENTITY
    decreases logN
  {
    hide Plus;
    if m % 2 == 1 {
      GeneratorHalf(q, logN);
      DoubleNTimes(m, q, logN);
      TimesHalfTurn(m);
      HalfTurnFacts();
      IdentityDoubles(logN);
    } else {
      if logN == 0 {
        assert false;
      }
      TimesDouble(m / 2, q);
      PlusOnCircle(q, q);
      ExactOrder(Double(q), logN - 1, m / 2);
    }
  }

  lemma {:induction false} IdentityDoubles(k: nat)
    ensures DoubleN(IDENTITY, k) == IDENTITY
  {
    hide Plus;
    if k > 0 {
      PlusIdentity(IDENTITY);
      IdentityDoubles(k - 1);
    }
  }

  // ----- the odd-multiple domain -----

  function DomainPoint(q: Point, i: nat): Point { Times(2 * i + 1, q) }

  /** It starts at q and goes on by twice q. */
  lemma DomainSteps(q: Point, i: nat)
    ensures DomainPoint(q, 0) == q && DomainPoint(q, i + 1) == Plus(DomainPoint(q, i), Double(q))
  {
    hide Plus;
    assert Times(1, q) == Plus(Times(0, q), q);
    PlusIdentity(q);
    TimesAdd(1, 1, q);
    TimesAdd(2 * i + 1, 2, q);
  }

  lemma DomainOrder(q: Point, logN: nat, i: nat)
    requires IsGenerator(q, logN)
    ensures OnCircle(DomainPoint(q, i)) && DoubleN(DomainPoint(q, i), logN) == HALF_TURN
  {
    hide Plus;
    TimesOnCircle(2 * i + 1, q);
    DoubleNTimes(2 * i + 1, q, logN);
    GeneratorHalf(q, logN);
    TimesHalfTurn(2 * i + 1);
  }

  lemma DomainDistinct(q: Point, logN: nat, i: nat, j: nat)
    requires IsGenerator(q, logN) && i < j < Pow2(logN)
    ensures DomainPoint(q, i) != DomainPoint(q, j)
  {
    hide Plus, Times;
    var a, b := 2 * i + 1, 2 * (j - i);
    TimesAdd(a, b, q);
    ExactOrder(q, logN, b);
    TimesOnCircle(a, q);
    if Times(a, q) == Times(a + b, q) {
      OtherSummand(Times(a, q), Times(b, q), Times(a, q));
      MirrorInverse(Times(a, q));
      PlusComm(Times(a, q), Mirror(Times(a, q)));
    }
  }

  /** The mirror pairing of the domain. */
  lemma DomainMirror(q: Point, logN: nat, i: nat)
    requires IsGenerator(q, logN) && i < Pow2(logN)
    ensures DomainPoint(q, Pow2(logN) - 1 - i) == Mirror(DomainPoint(q, i))
  {
    hide Plus, Times;
    var a, b := 2 * i + 1, 2 * (Pow2(logN) - 1 - i) + 1;
    assert a + b == Pow2(logN + 1);
    TimesAdd(a, b, q);
    DoubleNIsTimes(q, logN + 1);
    TimesOnCircle(a, q);
    OtherSummand(Times(a, q), Times(b, q), IDENTITY);
    PlusIdentity(Mirror(Times(a, q)));
  }

  // ----- the doubling map on x-coordinates -----

  function Pi(x: Fp): Fp { Sub(Add(Mul(x, x), Mul(x, x)), 1) }

  function PiN(x: Fp, k: nat): Fp
    decreases k
  {
    if k == 0 then x else PiN(Pi(x), k - 1)
  }

  lemma DoubleIsPi(p: Point)
    requires OnCircle(p)
    ensures Double(p).x == Pi(p.x)
  {
    DoubleX(p.x, p.y);
    AddSub(Sub(Mul(p.x, p.x), Mul(p.y, p.y)), 1);
  }

  lemma {:induction false} DoubleNIsPiN(p: Point, k: nat)
    requires OnCircle(p)
    ensures DoubleN(p, k).x == PiN(p.x, k)
    decreases k
  {
    hide Plus;
    if k > 0 {
      DoubleIsPi(p);
      PlusOnCircle(p, p);
      DoubleNIsPiN(Double(p), k - 1);
    }
  }

  lemma {:induction false} PiNNext(x: Fp, k: nat)
    ensures PiN(x, k + 1) == Pi(PiN(x, k))
    decreases k
  {
    hide Pi;
    if k > 0 {
      PiNNext(Pi(x), k - 1);
    }
  }

  lemma PiEven(x: Fp)
    ensures Pi(Neg(x)) == Pi(x)
  {
    SquareNeg(x);
  }

  /** The x-grids below the domain are paired by negation. */
  lemma GridMirror(q: Point, logN: nat, l: nat, k: nat)
    requires IsGenerator(q, logN) && 1 <= l <= logN && k < Pow2(logN - l)
    ensures PiN(DomainPoint(q, Pow2(logN - l) - 1 - k).x, l - 1) == Neg(PiN(DomainPoint(q, k).x, l - 1))
  {
    hide Plus, Times, Pi, PiN;
    var a, b := 2 * k + 1, 2 * (Pow2(logN - l) - 1 - k) + 1;
    var r := DoubleN(q, l - 1);
    assert a + b == Pow2(logN - l + 1);
    DoubleNTimes(a, q, l - 1);
    DoubleNTimes(b, q, l - 1);
    TimesAdd(a, b, r);
    DoubleNIsTimes(r, logN - l + 1);
    DoubleNAdd(q, l - 1, logN - l + 1);
    GeneratorHalf(q, logN);
    TimesOnCircle(a, q);
    TimesOnCircle(b, q);
    DoubleNOnCircle(q, l - 1);
    TimesOnCircle(a, r);
    DoubleNIsPiN(Times(a, q), l - 1);
    DoubleNIsPiN(Times(b, q), l - 1);
    OtherSummand(Times(a, r), Times(b, r), HALF_TURN);
    HalfTurnNegates(Mirror(Times(a, r)));
  }

  lemma HalfTurnNegates(p: Point)
    ensures Plus(p, HALF_TURN).x == Neg(p.x)
  {
    NegOneTimes(p.x);
    MulComm(p.x, Neg(1));
    Units(p.y);
    Units(Neg(p.x));
  }

  /** No twiddle is zero: neither the y-coordinates of the domain ... */
  lemma DomainYNonzero(q: Point, logN: nat, i: nat)
    requires IsGenerator(q, logN) && logN >= 1
    ensures DomainPoint(q, i).y != 0
  {
    hide Plus, Times;
    var d := DomainPoint(q, i);
    DomainOrder(q, logN, i);
    assert DoubleN(d, logN) == DoubleN(Double(d), logN - 1);
    IdentityDoubles(logN - 1);
    PlusIdentity(IDENTITY);
    HalfTurnFacts();
    if d.y == 0 {
      FlatPoints(d);
    }
  }

  /** ... nor the grids below, down to pairs. */
  lemma GridNonzero(q: Point, logN: nat, l: nat, i: nat)
    requires IsGenerator(q, logN) && 1 <= l < logN
    ensures PiN(DomainPoint(q, i).x, l - 1) != 0
  {
    hide Plus, Times, Pi, PiN;
    var d := DomainPoint(q, i);
    DomainOrder(q, logN, i);
    DoubleNIsPiN(d, l - 1);
    var e := DoubleN(d, l - 1);
    DoubleNOnCircle(d, l - 1);
    DoubleNAdd(d, l - 1, logN - l + 1);
    assert DoubleN(e, logN - l + 1) == DoubleN(Double(Double(e)), logN - l - 1) by {
      assert DoubleN(e, logN - l + 1) == DoubleN(Double(e), logN - l);
    }
    IdentityDoubles(logN - l - 1);
    HalfTurnFacts();
    if e.x == 0 {
      ZeroXOrder(e);
    }
  }

  lemma ZeroXOrder(p: Point)
    requires OnCircle(p) && p.x == 0
    ensures Double(p) == HALF_TURN && Double(Double(p)) == IDENTITY
  {
    Units(0);
    Units(p.y);
    Units(Mul(p.y, p.y));
    HalfTurnFacts();
  }

  /** The doubling of the domain that carries y = 0 ... has x = 0 one step before the half turn. */
  lemma QuarterTurn(p: Point, k: nat)
    requires OnCircle(p) && DoubleN(p, k + 1) == HALF_TURN
    ensures PiN(p.x, k) == 0
  {
    hide Plus, Pi, PiN;
    DoubleNAdd(p, k, 1);
    var e := DoubleN(p, k);
    DoubleNOnCircle(p, k);
    DoubleNIsPiN(p, k);
    assert Double(e) == HALF_TURN by { assert DoubleN(e, 1) == DoubleN(Double(e), 0); }
    DoubleIsPi(e);
    PiMinusOne(e.x);
  }

  lemma PiPlusOne(x: Fp)
    ensures Sub(Sub(Add(Mul(x, x), Mul(x, x)), 1), Sub(0, 1))
       == Add(Mul(x, x), Mul(x, x))
  {
    Same(ZSub(ZSub(ZAdd(ZMul(x, x), ZMul(x, x)), 1), ZSub(0, 1)),
         ZAdd(ZMul(x, x), ZMul(x, x)));
    hide *;
    Ring(x);
  }

  lemma PiMinusOne(x: Fp)
    requires Pi(x) == Neg(1)
    ensures x == 0
  {
    PiPlusOne(x);
    Units(Neg(1));
    TwoNonzero(Mul(x, x));
    NoZeroDivisors(x, x);
  }
}
