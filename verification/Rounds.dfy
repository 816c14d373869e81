/** The algebra of one sumcheck phase: an inner product of two tables, bound variable by variable. */
module Rounds {
  import opened Field
  import opened Vectors
  import opened Multilinear

  /** The round polynomial: the inner product with the current variable set to x. */
  function RoundPoly(a: Vec, w: Vec, x: Fp): Fp
    requires |a| == |w|
  {
    Dot(Fold(a, x), Fold(w, x))
  }

  /** `fp_two_inverse`. */
  function Half(): (h: Fp)
    ensures Mul(2, h) == 1
  {
    SmallDistinct(2, 0);
    InvMul(2);
    Inv(2)
  }

  /** The value at x of the polynomial of degree at most two through (0, p0), (1, p1), (2, p2). */
  function Lagrange(p0: Fp, p1: Fp, p2: Fp, x: Fp): Fp
  {
    Add(Add(p0, Mul(x, Sub(p1, p0))), Mul(Mul(Mul(x, Sub(x, 1)), Half()), Add(Sub(Sub(p2, p1), p1), p0)))
  }

  lemma LagrangeAtNodes(p0: Fp, p1: Fp, p2: Fp)
    ensures Lagrange(p0, p1, p2, 0) == p0 && Lagrange(p0, p1, p2, 1) == p1 && Lagrange(p0, p1, p2, 2) == p2
  {
    hide Half;
    var h := Half();
    NodeZero(p0, p1, p2, h);
    NodeOne(p0, p1, p2, h);
    NodeTwo(p0, p1, p2, h);
    MulComm(2, h);
    Units(Mul(1, Add(Sub(Sub(p2, p1), p1), p0)));
    Units(Add(Sub(Sub(p2, p1), p1), p0));
    NodeTwoEnd(p0, p1, p2);
  }

  lemma NodeZero(p0: Fp, p1: Fp, p2: Fp, h: Fp)
    ensures Add(Add(p0, Mul(0, Sub(p1, p0))), Mul(Mul(Mul(0, Sub(0, 1)), h), Add(Sub(Sub(p2, p1), p1), p0)))
       == p0
  {
    Same(ZAdd(ZAdd(p0, ZMul(0, ZSub(p1, p0))), ZMul(ZMul(ZMul(0, ZSub(0, 1)), h), ZAdd(ZSub(ZSub(p2, p1), p1), p0))),
         p0);
    hide *;
    Ring(p0, p1, p2, h);
  }

  lemma NodeOne(p0: Fp, p1: Fp, p2: Fp, h: Fp)
    ensures Add(Add(p0, Mul(1, Sub(p1, p0))), Mul(Mul(Mul(1, Sub(1, 1)), h), Add(Sub(Sub(p2, p1), p1), p0)))
       == p1
  {
    Same(ZAdd(ZAdd(p0, ZMul(1, ZSub(p1, p0))), ZMul(ZMul(ZMul(1, ZSub(1, 1)), h), ZAdd(ZSub(ZSub(p2, p1), p1), p0))),
         p1);
    hide *;
    Ring(p0, p1, p2, h);
  }

  lemma NodeTwo(p0: Fp, p1: Fp, p2: Fp, h: Fp)
    ensures Add(Add(p0, Mul(2, Sub(p1, p0))), Mul(Mul(Mul(2, Sub(2, 1)), h), Add(Sub(Sub(p2, p1), p1), p0)))
       == Add(Add(p0, Mul(2, Sub(p1, p0))), Mul(Mul(h, 2), Add(Sub(Sub(p2, p1), p1), p0)))
  {
    Same(ZAdd(ZAdd(p0, ZMul(2, ZSub(p1, p0))), ZMul(ZMul(ZMul(2, ZSub(2, 1)), h), ZAdd(ZSub(ZSub(p2, p1), p1), p0))),
         ZAdd(ZAdd(p0, ZMul(2, ZSub(p1, p0))), ZMul(ZMul(h, 2), ZAdd(ZSub(ZSub(p2, p1), p1), p0))));
    hide *;
    Ring(p0, p1, p2, h);
  }

  lemma NodeTwoEnd(p0: Fp, p1: Fp, p2: Fp)
    ensures Add(Add(p0, Mul(2, Sub(p1, p0))), Mul(1, Add(Sub(Sub(p2, p1), p1), p0)))
       == p2
  {
    Same(ZAdd(ZAdd(p0, ZMul(2, ZSub(p1, p0))), ZMul(1, ZAdd(ZSub(ZSub(p2, p1), p1), p0))),
         p2);
    hide *;
    Ring(p0, p1, p2);
  }

  lemma LagrangeSum(p0: Fp, p1: Fp, p2: Fp, q0: Fp, q1: Fp, q2: Fp, x: Fp, h: Fp)
    ensures Add(Add(Add(p0, q0), Mul(x, Sub(Add(p1, q1), Add(p0, q0)))), Mul(Mul(Mul(x, Sub(x, 1)), h), Add(Sub(Sub(Add(p2, q2), Add(p1, q1)), Add(p1, q1)), Add(p0, q0))))
       == Add(Add(Add(p0, Mul(x, Sub(p1, p0))), Mul(Mul(Mul(x, Sub(x, 1)), h), Add(Sub(Sub(p2, p1), p1), p0))), Add(Add(q0, Mul(x, Sub(q1, q0))), Mul(Mul(Mul(x, Sub(x, 1)), h), Add(Sub(Sub(q2, q1), q1), q0))))
  {
    Same(ZAdd(ZAdd(ZAdd(p0, q0), ZMul(x, ZSub(ZAdd(p1, q1), ZAdd(p0, q0)))), ZMul(ZMul(ZMul(x, ZSub(x, 1)), h), ZAdd(ZSub(ZSub(ZAdd(p2, q2), ZAdd(p1, q1)), ZAdd(p1, q1)), ZAdd(p0, q0)))),
         ZAdd(ZAdd(ZAdd(p0, ZMul(x, ZSub(p1, p0))), ZMul(ZMul(ZMul(x, ZSub(x, 1)), h), ZAdd(ZSub(ZSub(p2, p1), p1), p0))), ZAdd(ZAdd(q0, ZMul(x, ZSub(q1, q0))), ZMul(ZMul(ZMul(x, ZSub(x, 1)), h), ZAdd(ZSub(ZSub(q2, q1), q1), q0)))));
    hide *;
    Ring(p0, p1, p2, q0, q1, q2, x, h);
  }

  lemma LagrangeAdd(p0: Fp, p1: Fp, p2: Fp, q0: Fp, q1: Fp, q2: Fp, x: Fp)
    ensures Lagrange(Add(p0, q0), Add(p1, q1), Add(p2, q2), x) == Add(Lagrange(p0, p1, p2, x), Lagrange(q0, q1, q2, x))
  {
    hide Half;
    LagrangeSum(p0, p1, p2, q0, q1, q2, x, Half());
  }

  lemma LagrangeDiff(p0: Fp, p1: Fp, p2: Fp, q0: Fp, q1: Fp, q2: Fp, x: Fp, h: Fp)
    ensures Add(Add(Sub(p0, q0), Mul(x, Sub(Sub(p1, q1), Sub(p0, q0)))), Mul(Mul(Mul(x, Sub(x, 1)), h), Add(Sub(Sub(Sub(p2, q2), Sub(p1, q1)), Sub(p1, q1)), Sub(p0, q0))))
       == Sub(Add(Add(p0, Mul(x, Sub(p1, p0))), Mul(Mul(Mul(x, Sub(x, 1)), h), Add(Sub(Sub(p2, p1), p1), p0))), Add(Add(q0, Mul(x, Sub(q1, q0))), Mul(Mul(Mul(x, Sub(x, 1)), h), Add(Sub(Sub(q2, q1), q1), q0))))
  {
    Same(ZAdd(ZAdd(ZSub(p0, q0), ZMul(x, ZSub(ZSub(p1, q1), ZSub(p0, q0)))), ZMul(ZMul(ZMul(x, ZSub(x, 1)), h), ZAdd(ZSub(ZSub(ZSub(p2, q2), ZSub(p1, q1)), ZSub(p1, q1)), ZSub(p0, q0)))),
         ZSub(ZAdd(ZAdd(p0, ZMul(x, ZSub(p1, p0))), ZMul(ZMul(ZMul(x, ZSub(x, 1)), h), ZAdd(ZSub(ZSub(p2, p1), p1), p0))), ZAdd(ZAdd(q0, ZMul(x, ZSub(q1, q0))), ZMul(ZMul(ZMul(x, ZSub(x, 1)), h), ZAdd(ZSub(ZSub(q2, q1), q1), q0)))));
    hide *;
    Ring(p0, p1, p2, q0, q1, q2, x, h);
  }

  lemma LagrangeSub(p0: Fp, p1: Fp, p2: Fp, q0: Fp, q1: Fp, q2: Fp, x: Fp)
    ensures Lagrange(Sub(p0, q0), Sub(p1, q1), Sub(p2, q2), x) == Sub(Lagrange(p0, p1, p2, x), Lagrange(q0, q1, q2, x))
  {
    hide Half;
    LagrangeDiff(p0, p1, p2, q0, q1, q2, x, Half());
  }

  lemma SecondDelta(a0: Fp, a1: Fp, w0: Fp, w1: Fp)
    ensures Add(Sub(Sub(Mul(Add(a0, Mul(2, Sub(a1, a0))), Add(w0, Mul(2, Sub(w1, w0)))), Mul(a1, w1)), Mul(a1, w1)), Mul(a0, w0))
       == Mul(2, Mul(Sub(a1, a0), Sub(w1, w0)))
  {
    Same(ZAdd(ZSub(ZSub(ZMul(ZAdd(a0, ZMul(2, ZSub(a1, a0))), ZAdd(w0, ZMul(2, ZSub(w1, w0)))), ZMul(a1, w1)), ZMul(a1, w1)), ZMul(a0, w0)),
         ZMul(2, ZMul(ZSub(a1, a0), ZSub(w1, w0))));
    hide *;
    Ring(a0, a1, w0, w1);
  }

  lemma PullHalf(x: Fp, h: Fp, d: Fp)
    ensures Mul(Mul(Mul(x, Sub(x, 1)), h), Mul(2, d))
       == Mul(Mul(2, h), Mul(Mul(x, Sub(x, 1)), d))
  {
    Same(ZMul(ZMul(ZMul(x, ZSub(x, 1)), h), ZMul(2, d)),
         ZMul(ZMul(2, h), ZMul(ZMul(x, ZSub(x, 1)), d)));
    hide *;
    Ring(x, h, d);
  }

  lemma InterpolateProduct(x: Fp, a0: Fp, a1: Fp, w0: Fp, w1: Fp)
    ensures Add(Add(Mul(a0, w0), Mul(x, Sub(Mul(a1, w1), Mul(a0, w0)))), Mul(Mul(x, Sub(x, 1)), Mul(Sub(a1, a0), Sub(w1, w0))))
       == Mul(Add(a0, Mul(x, Sub(a1, a0))), Add(w0, Mul(x, Sub(w1, w0))))
  {
    Same(ZAdd(ZAdd(ZMul(a0, w0), ZMul(x, ZSub(ZMul(a1, w1), ZMul(a0, w0)))), ZMul(ZMul(x, ZSub(x, 1)), ZMul(ZSub(a1, a0), ZSub(w1, w0)))),
         ZMul(ZAdd(a0, ZMul(x, ZSub(a1, a0))), ZAdd(w0, ZMul(x, ZSub(w1, w0)))));
    hide *;
    Ring(x, a0, a1, w0, w1);
  }

  lemma LagrangeOfProduct(a0: Fp, a1: Fp, w0: Fp, w1: Fp, x: Fp)
    ensures Lagrange(Mul(a0, w0), Mul(a1, w1), Mul(Add(a0, Mul(2, Sub(a1, a0))), Add(w0, Mul(2, Sub(w1, w0)))), x)
         == Mul(Add(a0, Mul(x, Sub(a1, a0))), Add(w0, Mul(x, Sub(w1, w0))))
  {
    hide Half;
    SecondDelta(a0, a1, w0, w1);
    var d := Mul(Sub(a1, a0), Sub(w1, w0));
    PullHalf(x, Half(), d);
    Units(Mul(Mul(x, Sub(x, 1)), d));
    InterpolateProduct(x, a0, a1, w0, w1);
  }

  lemma AtZero(v0: Fp, v1: Fp)
    ensures Add(v0, Mul(0, Sub(v1, v0)))
       == v0
  {
    Same(ZAdd(v0, ZMul(0, ZSub(v1, v0))),
         v0);
    hide *;
    Ring(v0, v1);
  }

  lemma AtOne(v0: Fp, v1: Fp)
    ensures Add(v0, Mul(1, Sub(v1, v0)))
       == v1
  {
    Same(ZAdd(v0, ZMul(1, ZSub(v1, v0))),
         v1);
    hide *;
    Ring(v0, v1);
  }

  /** Everything the rounds need, one pair of entries at a time. */
  lemma RoundStep(a: Vec, w: Vec, n: nat)
    requires |a| == |w| == 2 * n + 2
    ensures forall x: Fp ::
      RoundPoly(a, w, x) == Add(RoundPoly(a[..2 * n], w[..2 * n], x), Mul(Add(a[2 * n], Mul(x, Sub(a[2 * n + 1], a[2 * n]))), Add(w[2 * n], Mul(x, Sub(w[2 * n + 1], w[2 * n])))))
    ensures Dot(a, w) == Add(Add(Dot(a[..2 * n], w[..2 * n]), Mul(a[2 * n], w[2 * n])), Mul(a[2 * n + 1], w[2 * n + 1]))
  {
    hide RoundPoly;
    assert a[..2 * n + 1][..2 * n] == a[..2 * n] && w[..2 * n + 1][..2 * n] == w[..2 * n];
    forall x: Fp
      ensures RoundPoly(a, w, x) == Add(RoundPoly(a[..2 * n], w[..2 * n], x), Mul(Add(a[2 * n], Mul(x, Sub(a[2 * n + 1], a[2 * n]))), Add(w[2 * n], Mul(x, Sub(w[2 * n + 1], w[2 * n])))))
    {
      RoundPolyStep(a, w, n, x);
    }
  }

  lemma RoundPolyStep(a: Vec, w: Vec, n: nat, x: Fp)
    requires |a| == |w| == 2 * n + 2
    ensures RoundPoly(a, w, x) == Add(RoundPoly(a[..2 * n], w[..2 * n], x), Mul(Add(a[2 * n], Mul(x, Sub(a[2 * n + 1], a[2 * n]))), Add(w[2 * n], Mul(x, Sub(w[2 * n + 1], w[2 * n])))))
  {
    var p, q := Add(a[2 * n], Mul(x, Sub(a[2 * n + 1], a[2 * n]))), Add(w[2 * n], Mul(x, Sub(w[2 * n + 1], w[2 * n])));
    var f, g := Fold(a[..2 * n], x), Fold(w[..2 * n], x);
    assert Fold(a, x) == f + [p];
    assert Fold(w, x) == g + [q];
    DotSnoc(f, g, p, q);
  }

  lemma PairUp(s: Fp, t: Fp, p: Fp, q: Fp)
    ensures Add(Add(Add(s, t), p), q)
       == Add(Add(s, p), Add(t, q))
  {
    Same(ZAdd(ZAdd(ZAdd(s, t), p), q),
         ZAdd(ZAdd(s, p), ZAdd(t, q)));
    hide *;
    Ring(s, t, p, q);
  }

  /** The two halves of a round polynomial add up to the claim. */
  lemma {:induction false} RoundSum(a: Vec, w: Vec, n: nat)
    requires |a| == |w| == 2 * n
    ensures Dot(a, w) == Add(RoundPoly(a, w, 0), RoundPoly(a, w, 1))
    decreases n
  {
    hide RoundPoly;
    if n == 0 {
      assert RoundPoly(a, w, 0) == 0 && RoundPoly(a, w, 1) == 0 by { RoundPolyEmpty(a, w); }
      Units(0);
    } else {
      var m := n - 1;
      RoundSum(a[..2 * m], w[..2 * m], m);
      RoundStep(a, w, m);
      AtZero(a[2 * m], a[2 * m + 1]); AtOne(a[2 * m], a[2 * m + 1]);
      AtZero(w[2 * m], w[2 * m + 1]); AtOne(w[2 * m], w[2 * m + 1]);
      PairUp(RoundPoly(a[..2 * m], w[..2 * m], 0), RoundPoly(a[..2 * m], w[..2 * m], 1),
             Mul(a[2 * m], w[2 * m]), Mul(a[2 * m + 1], w[2 * m + 1]));
    }
  }

  lemma RoundPolyEmpty(a: Vec, w: Vec)
    requires |a| == |w| == 0
    ensures forall x: Fp :: RoundPoly(a, w, x) == 0
  {
  }

  /** A round polynomial has degree at most two: its values at 0, 1, 2 determine it. */
  lemma {:induction false} RoundLagrange(a: Vec, w: Vec, n: nat, x: Fp)
    requires |a| == |w| == 2 * n
    ensures Lagrange(RoundPoly(a, w, 0), RoundPoly(a, w, 1), RoundPoly(a, w, 2), x) == RoundPoly(a, w, x)
    decreases n
  {
    hide RoundPoly, Lagrange;
    if n == 0 {
      assert RoundPoly(a, w, 0) == 0 && RoundPoly(a, w, 1) == 0 && RoundPoly(a, w, 2) == 0 && RoundPoly(a, w, x) == 0 by {
        RoundPolyEmpty(a, w);
      }
      LagrangeZero(x);
    } else {
      var m := n - 1;
      var a', w' := a[..2 * m], w[..2 * m];
      var a0, a1, w0, w1 := a[2 * m], a[2 * m + 1], w[2 * m], w[2 * m + 1];
      RoundLagrange(a', w', m, x);
      RoundStep(a, w, m);
      AtZero(a0, a1); AtOne(a0, a1);
      AtZero(w0, w1); AtOne(w0, w1);
      LagrangeAdd(RoundPoly(a', w', 0), RoundPoly(a', w', 1), RoundPoly(a', w', 2),
                  Mul(a0, w0), Mul(a1, w1), Mul(Add(a0, Mul(2, Sub(a1, a0))), Add(w0, Mul(2, Sub(w1, w0)))), x);
      LagrangeOfProduct(a0, a1, w0, w1, x);
    }
  }

  lemma LagrangeZero(x: Fp)
    ensures Lagrange(0, 0, 0, x) == 0
  {
    hide Half;
    Units(0);
    Units(x);
    Units(Mul(Mul(x, Sub(x, 1)), Half()));
  }

  // ----- a difference of round polynomials has few roots -----

  lemma RootStep(p0: Fp, p1: Fp, p2: Fp, x: Fp, h: Fp)
    ensures Mul(2, Add(Add(p0, Mul(x, Sub(p1, p0))), Mul(Mul(Mul(x, Sub(x, 1)), h), Add(Sub(Sub(p2, p1), p1), p0))))
       == Add(Add(Mul(2, p0), Mul(Mul(2, x), Sub(p1, p0))), Mul(Mul(2, h), Mul(Mul(x, Sub(x, 1)), Add(Sub(Sub(p2, p1), p1), p0))))
  {
    Same(ZMul(2, ZAdd(ZAdd(p0, ZMul(x, ZSub(p1, p0))), ZMul(ZMul(ZMul(x, ZSub(x, 1)), h), ZAdd(ZSub(ZSub(p2, p1), p1), p0)))),
         ZAdd(ZAdd(ZMul(2, p0), ZMul(ZMul(2, x), ZSub(p1, p0))), ZMul(ZMul(2, h), ZMul(ZMul(x, ZSub(x, 1)), ZAdd(ZSub(ZSub(p2, p1), p1), p0)))));
    hide *;
    Ring(p0, p1, p2, x, h);
  }

  lemma SecantOne(p0: Fp, d: Fp, e: Fp, x: Fp, y: Fp)
    ensures Sub(Add(Add(Mul(2, p0), Mul(Mul(2, x), d)), Mul(Mul(x, Sub(x, 1)), e)), Add(Add(Mul(2, p0), Mul(Mul(2, y), d)), Mul(Mul(y, Sub(y, 1)), e)))
       == Mul(Sub(x, y), Add(Mul(2, d), Mul(Sub(Add(x, y), 1), e)))
  {
    Same(ZSub(ZAdd(ZAdd(ZMul(2, p0), ZMul(ZMul(2, x), d)), ZMul(ZMul(x, ZSub(x, 1)), e)), ZAdd(ZAdd(ZMul(2, p0), ZMul(ZMul(2, y), d)), ZMul(ZMul(y, ZSub(y, 1)), e))),
         ZMul(ZSub(x, y), ZAdd(ZMul(2, d), ZMul(ZSub(ZAdd(x, y), 1), e))));
    hide *;
    Ring(p0, d, e, x, y);
  }

  lemma SecantTwo(d: Fp, e: Fp, x: Fp, y: Fp, z: Fp)
    ensures Sub(Add(Mul(2, d), Mul(Sub(Add(x, y), 1), e)), Add(Mul(2, d), Mul(Sub(Add(x, z), 1), e)))
       == Mul(Sub(y, z), e)
  {
    Same(ZSub(ZAdd(ZMul(2, d), ZMul(ZSub(ZAdd(x, y), 1), e)), ZAdd(ZMul(2, d), ZMul(ZSub(ZAdd(x, z), 1), e))),
         ZMul(ZSub(y, z), e));
    hide *;
    Ring(d, e, x, y, z);
  }

  lemma DoubledLagrange(p0: Fp, p1: Fp, p2: Fp, x: Fp)
    requires Lagrange(p0, p1, p2, x) == 0
    ensures Add(Add(Mul(2, p0), Mul(Mul(2, x), Sub(p1, p0))), Mul(Mul(x, Sub(x, 1)), Add(Sub(Sub(p2, p1), p1), p0))) == 0
  {
    hide Half;
    RootStep(p0, p1, p2, x, Half());
    Units(Mul(Mul(x, Sub(x, 1)), Add(Sub(Sub(p2, p1), p1), p0)));
    Units(2);
  }

  lemma Secant(p0: Fp, d: Fp, e: Fp, x: Fp, y: Fp)
    requires x != y
    requires Add(Add(Mul(2, p0), Mul(Mul(2, x), d)), Mul(Mul(x, Sub(x, 1)), e)) == 0 && Add(Add(Mul(2, p0), Mul(Mul(2, y), d)), Mul(Mul(y, Sub(y, 1)), e)) == 0
    ensures Add(Mul(2, d), Mul(Sub(Add(x, y), 1), e)) == 0
  {
    SecantOne(p0, d, e, x, y);
    Units(0);
    NoZeroDivisors(Sub(x, y), Add(Mul(2, d), Mul(Sub(Add(x, y), 1), e)));
    if Sub(x, y) == 0 { SubZero(x, y); }
  }

  /** A non-zero polynomial of degree at most two does not vanish at three distinct points. */
  lemma AtMostTwoRoots(p0: Fp, p1: Fp, p2: Fp, x: Fp, y: Fp, z: Fp)
    requires x != y && x != z && y != z
    requires Lagrange(p0, p1, p2, x) == 0 && Lagrange(p0, p1, p2, y) == 0 && Lagrange(p0, p1, p2, z) == 0
    ensures p0 == 0 && p1 == 0 && p2 == 0
  {
    hide Lagrange;
    var d, e := Sub(p1, p0), Add(Sub(Sub(p2, p1), p1), p0);
    DoubledLagrange(p0, p1, p2, x);
    DoubledLagrange(p0, p1, p2, y);
    DoubledLagrange(p0, p1, p2, z);
    Secant(p0, d, e, x, y);
    Secant(p0, d, e, x, z);
    SecantTwo(d, e, x, y, z);
    Units(0);
    NoZeroDivisors(Sub(y, z), e);
    if Sub(y, z) == 0 { SubZero(y, z); }
    assert e == 0;
    Units(Sub(Add(x, y), 1));
    Units(Mul(2, d));
    HalveZero(d);
    assert d == 0;
    Units(Mul(x, Sub(x, 1)));
    Units(Mul(2, x));
    Units(Mul(2, p0));
    HalveZero(p0);
    SubZero(p1, p0);
    Units(p2);
    assert p0 == 0 && p1 == 0;
  }

  lemma HalveZero(d: Fp)
    requires Mul(2, d) == 0
    ensures d == 0
  {
    SmallDistinct(2, 0);
    NoZeroDivisors(2, d);
  }
}
