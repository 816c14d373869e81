/** The function spaces behind the circle code (circle_fft.rs): the universal basis against ordinary polynomials, the
    degree bound of products, and how often a function can vanish on the circle. */
module CircleSpaces {
  import opened Modulus
  import opened Field
  import opened Vectors
  import opened Polynomials
  import opened CircleGroup
  import opened CircleBasis
  import opened Squares

  // ----- basis elements as polynomials in x -----

  const PI_POLY: Vec := [Neg(1), 0, 2]

  lemma PiHorner(x: Fp)
    ensures Add(Sub(0, 1), Mul(x, Add(0, Mul(x, 2))))
       == Sub(Add(Mul(x, x), Mul(x, x)), 1)
  {
    Same(ZAdd(ZSub(0, 1), ZMul(x, ZAdd(0, ZMul(x, 2)))),
         ZSub(ZAdd(ZMul(x, x), ZMul(x, x)), 1));
    hide *;
    Ring(x);
  }

  lemma EvalThree(a: Fp, b: Fp, c: Fp, x: Fp)
    ensures Eval([a, b, c], x) == Add(a, Mul(x, Add(b, Mul(x, c))))
  {
    Units(x);
    Units(c);
    var p2, p1 := [b, c], [c];
    assert p1[1..] == [] && p2[1..] == p1 && [a, b, c][1..] == p2;
    assert Eval(p1, x) == c;
    assert Eval(p2, x) == Add(b, Mul(x, c));
  }

  /** p(pi(X)). */
  function Compose(p: Vec): (r: Vec)
    requires |p| >= 1
    ensures |r| == 2 * |p| - 1
  {
    if |p| == 1 then p
    else VAdd([p[0]] + Zeros(2 * |p| - 2), PMul(PI_POLY, Compose(p[1..])))
  }

  lemma EvalConst(c: Fp, n: nat, x: Fp)
    ensures Eval([c] + Zeros(n), x) == c
  {
    EvalPad([c], Zeros(n), x);
    assert [c][1..] == [];
    Units(x);
    Units(c);
  }

  lemma {:induction false} EvalCompose(p: Vec, x: Fp)
    requires |p| >= 1
    ensures Eval(Compose(p), x) == Eval(p, Pi(x))
  {
    if |p| == 1 {
      assert p == [p[0]] + Zeros(0);
      EvalConst(p[0], 0, x);
      EvalConst(p[0], 0, Pi(x));
    } else {
      var q := Compose(p[1..]);
      EvalCompose(p[1..], x);
      EvalConst(p[0], 2 * |p| - 2, x);
      EvalAdd([p[0]] + Zeros(2 * |p| - 2), PMul(PI_POLY, q), x);
      EvalMul(PI_POLY, q, x);
      EvalThree(Neg(1), 0, 2, x);
      PiHorner(x);
    }
  }

  function Lead(p: Vec): Fp
    requires |p| >= 1
  {
    p[|p| - 1]
  }

  lemma {:induction false} LeadCompose(p: Vec)
    requires |p| >= 1 && Lead(p) != 0
    ensures Lead(Compose(p)) != 0
  {
    if |p| > 1 {
      LeadCompose(p[1..]);
      LeadComposeStep(p);
      if Mul(2, Lead(Compose(p[1..]))) == 0 {
        NoZeroDivisors(2, Lead(Compose(p[1..])));
        assert false;
      }
    }
  }

  lemma LeadComposeStep(p: Vec)
    requires |p| >= 2
    ensures |Compose(p[1..])| >= 1 && Lead(Compose(p)) == Mul(2, Lead(Compose(p[1..])))
  {
    hide PMul;
    var q := Compose(p[1..]);
    LeadMul(PI_POLY, q);
    Units(Mul(2, Lead(q)));
  }

  /** The polynomial of the x-part with index m. */
  function XPoly(m: nat): (p: Vec)
    ensures |p| == m + 1
  {
    if m == 0 then [1]
    else if m % 2 == 0 then Compose(XPoly(m / 2))
    else [0] + Compose(XPoly(m / 2))
  }

  lemma {:induction false} EvalXPoly(m: nat, u: Fp)
    ensures Eval(XPoly(m), u) == XBasis(m, u)
    decreases m
  {
    hide Pi, Compose;
    if m == 0 {
      assert XPoly(0) == [1] + Zeros(0);
      EvalConst(1, 0, u);
    } else {
      EvalXPoly(m / 2, Pi(u));
      EvalCompose(XPoly(m / 2), u);
      EvalShift(Compose(XPoly(m / 2)), u);
      Units(XBasis(m / 2, Pi(u)));
    }
  }

  /** Its degree is exactly m. */
  lemma {:induction false} LeadXPoly(m: nat)
    ensures Lead(XPoly(m)) != 0
  {
    hide Compose;
    if m > 0 {
      LeadXPoly(m / 2);
      LeadCompose(XPoly(m / 2));
    }
  }

  /** The polynomial with x-basis coefficients c. */
  function ToPoly(c: Vec): (p: Vec)
    ensures |p| == |c|
  {
    if c == [] then []
    else
      var n := |c| - 1;
      VAdd(ToPoly(c[..n]) + [0], Scale(c[n], XPoly(n)))
  }

  lemma {:induction false} EvalToPoly(c: Vec, u: Fp)
    ensures Eval(ToPoly(c), u) == EvalX(c, u)
  {
    hide XBasis, XPoly;
    if c != [] {
      var n := |c| - 1;
      EvalToPoly(c[..n], u);
      EvalPad(ToPoly(c[..n]), [0], u);
      EvalAdd(ToPoly(c[..n]) + [0], Scale(c[n], XPoly(n)), u);
      EvalScale(c[n], XPoly(n), u);
      EvalXPoly(n, u);
      assert XRow(|c|, u)[..n] == XRow(n, u);
    }
  }

  lemma {:induction false} ToPolyZero(c: Vec)
    requires IsZero(ToPoly(c))
    ensures IsZero(c)
  {
    hide XPoly;
    if c != [] {
      var n := |c| - 1;
      var p := ToPoly(c);
      LeadXPoly(n);
      Units(Mul(c[n], Lead(XPoly(n))));
      assert p[n] == Mul(c[n], Lead(XPoly(n)));
      NoZeroDivisors(c[n], Lead(XPoly(n)));
      forall i | 0 <= i < n ensures ToPoly(c[..n])[i] == 0 {
        Units(XPoly(n)[i]);
        Units(ToPoly(c[..n])[i]);
        assert p[i] == Add(ToPoly(c[..n])[i], Mul(c[n], XPoly(n)[i]));
      }
      ToPolyZero(c[..n]);
      forall i | 0 <= i < |c| ensures c[i] == 0 {
        if i < n { assert c[..n][i] == 0; }
      }
    }
  }

  /** The x-basis coefficients of a polynomial: the basis is triangular. */
  function FromPoly(p: Vec): (c: Vec)
    ensures |c| == |p|
    decreases |p|
  {
    if p == [] then []
    else
      var n := |p| - 1;
      LeadXPoly(n);
      var k := Mul(p[n], Inv(Lead(XPoly(n))));
      FromPoly(VSub(p, Scale(k, XPoly(n)))[..n]) + [k]
  }

  lemma {:induction false} EvalFromPoly(p: Vec, u: Fp)
    ensures EvalX(FromPoly(p), u) == Eval(p, u)
    decreases |p|
  {
    hide Inv, XBasis, XPoly;
    if p != [] {
      var n := |p| - 1;
      LeadXPoly(n);
      var lead := Lead(XPoly(n));
      var k := Mul(p[n], Inv(lead));
      var d := VSub(p, Scale(k, XPoly(n)));
      InvMul(lead);
      MulAssoc(p[n], Inv(lead), lead);
      Units(p[n]);
      assert d[n] == 0;
      EvalFromPoly(d[..n], u);
      EvalPad(d[..n], [0], u);
      assert d == d[..n] + [0];
      EvalSub(p, Scale(k, XPoly(n)), u);
      EvalScale(k, XPoly(n), u);
      EvalXPoly(n, u);
      SubAdd(Eval(p, u), Mul(k, XBasis(n, u)));
      var c := FromPoly(p);
      assert c[..n] == FromPoly(d[..n]) && XRow(|p|, u)[..n] == XRow(n, u);
    }
  }

  function Interleave(e: Vec, o: Vec): (c: Vec)
    requires |e| == |o|
    ensures |c| == 2 * |e|
  {
    seq(2 * |e|, i requires 0 <= i < 2 * |e| => if i % 2 == 0 then e[i / 2] else o[i / 2])
  }

  lemma InterleaveParts(e: Vec, o: Vec)
    requires |e| == |o|
    ensures Evens(Interleave(e, o)) == e && Odds(Interleave(e, o)) == o
  {
    var c := Interleave(e, o);
    forall i | 0 <= i < |e| ensures Evens(c)[i] == e[i] && Odds(c)[i] == o[i] {
      assert (2 * i) / 2 == i && (2 * i + 1) / 2 == i;
      assert c[2 * i] == e[i] && c[2 * i + 1] == o[i];
    }
  }

  /** The coefficients of f0(x) + y f1(x). */
  function FromParts(f0: Vec, f1: Vec): (c: Vec)
    requires |f0| == |f1|
    ensures |c| == 2 * |f0|
  {
    Interleave(FromPoly(f0), FromPoly(f1))
  }

  lemma EvalFromParts(f0: Vec, f1: Vec, p: Point)
    requires |f0| == |f1|
    ensures EvalC(FromParts(f0, f1), p) == Add(Eval(f0, p.x), Mul(p.y, Eval(f1, p.x)))
  {
    hide EvalX, FromPoly;
    EvalCSplit(FromParts(f0, f1), p);
    InterleaveParts(FromPoly(f0), FromPoly(f1));
    EvalFromPoly(f0, p.x);
    EvalFromPoly(f1, p.x);
  }

  lemma EvalParts(c: Vec, p: Point)
    ensures EvalC(c, p) == Add(Eval(ToPoly(Evens(c)), p.x), Mul(p.y, Eval(ToPoly(Odds(c)), p.x)))
  {
    hide EvalX, ToPoly;
    EvalCSplit(c, p);
    EvalToPoly(Evens(c), p.x);
    EvalToPoly(Odds(c), p.x);
  }

  // ----- products -----

  const CIRCLE_Y2: Vec := [1, 0, Neg(1)]

  lemma Y2Horner(x: Fp)
    ensures Add(1, Mul(x, Add(0, Mul(x, Sub(0, 1)))))
       == Sub(1, Mul(x, x))
  {
    Same(ZAdd(1, ZMul(x, ZAdd(0, ZMul(x, ZSub(0, 1))))),
         ZSub(1, ZMul(x, x)));
    hide *;
    Ring(x);
  }

  lemma PartsProduct(a: Fp, b: Fp, c: Fp, d: Fp, y: Fp)
    ensures Mul(Add(a, Mul(y, b)), Add(c, Mul(y, d)))
       == Add(Add(Mul(a, c), Mul(Mul(y, y), Mul(b, d))), Mul(y, Add(Mul(a, d), Mul(b, c))))
  {
    Same(ZMul(ZAdd(a, ZMul(y, b)), ZAdd(c, ZMul(y, d))),
         ZAdd(ZAdd(ZMul(a, c), ZMul(ZMul(y, y), ZMul(b, d))), ZMul(y, ZAdd(ZMul(a, d), ZMul(b, c)))));
    hide *;
    Ring(a, b, c, d, y);
  }

  function ProductX(w0: Vec, w1: Vec, r0: Vec, r1: Vec): (f: Vec)
    requires |w0| == |w1| >= 1 && |r0| == |r1| >= 1
    ensures |f| == |w0| + |r0| + 1
  {
    VAdd(PMul(w0, r0) + Zeros(2), PMul(CIRCLE_Y2, PMul(w1, r1)))
  }

  function ProductY(w0: Vec, w1: Vec, r0: Vec, r1: Vec): (f: Vec)
    requires |w0| == |w1| >= 1 && |r0| == |r1| >= 1
    ensures |f| == |w0| + |r0| + 1
  {
    VAdd(PMul(w0, r1), PMul(w1, r0)) + Zeros(2)
  }

  /** The product of two functions, in the same basis: two more coefficients than both factors have together,
      because y^2 folds to 1 - x^2. */
  function Product(w: Vec, r: Vec): (q: Vec)
    requires |w| >= 2 && |r| >= 2 && |w| % 2 == 0 && |r| % 2 == 0
    ensures |q| == |w| + |r| + 2
  {
    var w0, w1, r0, r1 := ToPoly(Evens(w)), ToPoly(Odds(w)), ToPoly(Evens(r)), ToPoly(Odds(r));
    FromParts(ProductX(w0, w1, r0, r1), ProductY(w0, w1, r0, r1))
  }

  /** The product degree bound: on the circle it is the pointwise product. */
  lemma ProductEvaluates(w: Vec, r: Vec, p: Point)
    requires |w| >= 2 && |r| >= 2 && |w| % 2 == 0 && |r| % 2 == 0 && OnCircle(p)
    ensures EvalC(Product(w, r), p) == Mul(EvalC(w, p), EvalC(r, p))
  {
    hide ToPoly, PMul, FromParts, Eval, EvalC;
    var w0, w1, r0, r1 := ToPoly(Evens(w)), ToPoly(Odds(w)), ToPoly(Evens(r)), ToPoly(Odds(r));
    var f0, f1 := ProductX(w0, w1, r0, r1), ProductY(w0, w1, r0, r1);
    var x, y := p.x, p.y;
    EvalFromParts(f0, f1, p);
    EvalParts(w, p);
    EvalParts(r, p);
    var a, b, c, d := Eval(w0, x), Eval(w1, x), Eval(r0, x), Eval(r1, x);
    assert Eval(f1, x) == Add(Mul(a, d), Mul(b, c)) by {
      EvalPad(VAdd(PMul(w0, r1), PMul(w1, r0)), Zeros(2), x);
      EvalAdd(PMul(w0, r1), PMul(w1, r0), x);
      EvalMul(w0, r1, x);
      EvalMul(w1, r0, x);
    }
    assert Eval(f0, x) == Add(Mul(a, c), Mul(Sub(1, Mul(x, x)), Mul(b, d))) by {
      EvalAdd(PMul(w0, r0) + Zeros(2), PMul(CIRCLE_Y2, PMul(w1, r1)), x);
      EvalPad(PMul(w0, r0), Zeros(2), x);
      EvalMul(w0, r0, x);
      EvalMul(CIRCLE_Y2, PMul(w1, r1), x);
      EvalMul(w1, r1, x);
      EvalThree(1, 0, Neg(1), x);
      Y2Horner(x);
    }
    PartsProduct(a, b, c, d, y);
    AddComm(Mul(x, x), Mul(y, y));
    AddSub(Mul(y, y), Mul(x, x));
  }

  /** The product with a function of x alone that has degree h: as many more coefficients as 2h. */
  function Multiple(z: Vec, c: Vec): (q: Vec)
    requires |z| >= 1 && |c| >= 2 && |c| % 2 == 0
    ensures |q| == |c| + 2 * (|z| - 1)
  {
    FromParts(PMul(z, ToPoly(Evens(c))), PMul(z, ToPoly(Odds(c))))
  }

  lemma MultipleEvaluates(z: Vec, c: Vec, p: Point)
    requires |z| >= 1 && |c| >= 2 && |c| % 2 == 0
    ensures EvalC(Multiple(z, c), p) == Mul(Eval(z, p.x), EvalC(c, p))
  {
    hide ToPoly, PMul, FromParts, Eval, EvalC;
    var c0, c1 := ToPoly(Evens(c)), ToPoly(Odds(c));
    EvalFromParts(PMul(z, c0), PMul(z, c1), p);
    EvalMul(z, c0, p.x);
    EvalMul(z, c1, p.x);
    EvalParts(c, p);
    PullFactor(Eval(z, p.x), Eval(c0, p.x), p.y, Eval(c1, p.x));
  }

  // ----- zeros on the circle -----

  /** f0^2 - (1 - x^2) f1^2: it vanishes wherever f0 + y f1 does. */
  function NormPoly(f0: Vec, f1: Vec): (n: Vec)
    requires |f0| == |f1| + 1 && |f1| >= 1
    ensures |n| == 2 * |f1| + 1
  {
    VSub(PMul(f0, f0), PMul(CIRCLE_Y2, PMul(f1, f1)))
  }

  lemma EvalNorm(f0: Vec, f1: Vec, x: Fp)
    requires |f0| == |f1| + 1 && |f1| >= 1
    ensures Eval(NormPoly(f0, f1), x) == Sub(Mul(Eval(f0, x), Eval(f0, x)), Mul(Sub(1, Mul(x, x)), Mul(Eval(f1, x), Eval(f1, x))))
  {
    hide PMul, Eval;
    EvalSub(PMul(f0, f0), PMul(CIRCLE_Y2, PMul(f1, f1)), x);
    EvalMul(f0, f0, x);
    EvalMul(CIRCLE_Y2, PMul(f1, f1), x);
    EvalMul(f1, f1, x);
    EvalThree(1, 0, Neg(1), x);
    Y2Horner(x);
  }

  lemma TopNorm(a: Fp, b: Fp)
    ensures Sub(Mul(a, a), Mul(Sub(0, 1), Mul(b, b)))
       == Add(Mul(a, a), Mul(b, b))
  {
    Same(ZSub(ZMul(a, a), ZMul(ZSub(0, 1), ZMul(b, b))),
         ZAdd(ZMul(a, a), ZMul(b, b)));
    hide *;
    Ring(a, b);
  }

  lemma LeadNorm(f0: Vec, f1: Vec)
    requires |f0| == |f1| + 1 && |f1| >= 1
    ensures Lead(NormPoly(f0, f1)) == Add(Mul(Lead(f0), Lead(f0)), Mul(Lead(f1), Lead(f1)))
  {
    hide PMul;
    LeadMul(f0, f0);
    LeadMul(f1, f1);
    LeadMul(CIRCLE_Y2, PMul(f1, f1));
    TopNorm(Lead(f0), Lead(f1));
  }

  /** A norm that is zero as a polynomial has zero arguments, because -1 is not a square. */
  lemma {:induction false} ZeroNorm(f0: Vec, f1: Vec)
    requires |f0| == |f1| + 1
    requires forall x :: Sub(Mul(Eval(f0, x), Eval(f0, x)), Mul(Sub(1, Mul(x, x)), Mul(Eval(f1, x), Eval(f1, x)))) == 0
    requires 2 * |f1| + 1 <= U64_MAX
    ensures IsZero(f0) && IsZero(f1)
    decreases |f1|
  {
    hide Eval, NormPoly;
    if f1 == [] {
      EvalNothing(0);
      EvalConst(f0[0], 0, 0);
      assert f0 == [f0[0]] + Zeros(0);
      var c := f0[0];
      Units(Mul(c, c));
      Units(Sub(1, Mul(0, 0)));
      Units(0);
      assert Sub(Mul(Eval(f0, 0), Eval(f0, 0)), Mul(Sub(1, Mul(0, 0)), Mul(Eval(f1, 0), Eval(f1, 0)))) == 0;
      NoZeroDivisors(c, c);
    } else {
      var n := |f1|;
      var norm := NormPoly(f0, f1);
      var points := seq(2 * n + 1, i requires 0 <= i => R(i));
      forall i, j | 0 <= i < j < |points| ensures points[i] != points[j] { SmallDistinct(i, j); }
      forall i | 0 <= i < |points| ensures Eval(norm, points[i]) == 0 { EvalNorm(f0, f1, points[i]); }
      RootBound(norm, points);
      LeadNorm(f0, f1);
      SumOfSquares(Lead(f0), Lead(f1));
      var g0, g1 := f0[..n], f1[..n - 1];
      assert f0 == g0 + [0] && f1 == g1 + [0];
      forall x ensures Sub(Mul(Eval(g0, x), Eval(g0, x)), Mul(Sub(1, Mul(x, x)), Mul(Eval(g1, x), Eval(g1, x)))) == 0 {
        EvalPad(g0, [0], x);
        EvalPad(g1, [0], x);
        assert Sub(Mul(Eval(f0, x), Eval(f0, x)), Mul(Sub(1, Mul(x, x)), Mul(Eval(f1, x), Eval(f1, x)))) == 0;
      }
      ZeroNorm(g0, g1);
    }
  }

  lemma EvalNothing(x: Fp)
    ensures Eval([], x) == 0
  {
  }

  ghost predicate ZeroAt(f0: Vec, f1: Vec, p: Point) { OnCircle(p) && Add(Eval(f0, p.x), Mul(p.y, Eval(f1, p.x))) == 0 }

  lemma OppositeSquare(f: Fp, t: Fp)
    ensures Sub(Mul(f, f), Mul(t, t))
       == Mul(Add(f, t), Sub(f, t))
  {
    Same(ZSub(ZMul(f, f), ZMul(t, t)),
         ZMul(ZAdd(f, t), ZSub(f, t)));
    hide *;
    Ring(f, t);
  }

  lemma ZeroOfNorm(f0: Vec, f1: Vec, p: Point)
    requires ZeroAt(f0, f1, p)
    ensures Sub(Mul(Eval(f0, p.x), Eval(f0, p.x)), Mul(Sub(1, Mul(p.x, p.x)), Mul(Eval(f1, p.x), Eval(f1, p.x)))) == 0
  {
    hide Eval;
    var f, g, x, y := Eval(f0, p.x), Eval(f1, p.x), p.x, p.y;
    AddComm(Mul(x, x), Mul(y, y));
    AddSub(Mul(y, y), Mul(x, x));
    SquareOfProduct(y, g);
    OppositeSquare(f, Mul(y, g));
    Units(Sub(f, Mul(y, g)));
  }

  lemma TwiceF(f: Fp, t: Fp)
    ensures Add(Add(f, t), Add(f, Sub(0, t)))
       == Add(f, f)
  {
    Same(ZAdd(ZAdd(f, t), ZAdd(f, ZSub(0, t))),
         ZAdd(f, f));
    hide *;
    Ring(f, t);
  }

  /** Zeros at both points over x are a common zero of the two parts. */
  lemma BothZeros(f0: Vec, f1: Vec, p: Point)
    requires ZeroAt(f0, f1, p) && ZeroAt(f0, f1, Mirror(p)) && p.y != 0
    ensures Eval(f0, p.x) == 0 && Eval(f1, p.x) == 0
  {
    hide Eval;
    var f, g, y := Eval(f0, p.x), Eval(f1, p.x), p.y;
    NegProduct(y, g);
    TwiceF(f, Mul(y, g));
    Units(0);
    TwoNonzero(f);
    Units(Mul(y, g));
    NoZeroDivisors(y, g);
  }

  lemma SameSquares(x: Fp, y: Fp, z: Fp)
    ensures Mul(Sub(y, z), Add(y, z))
       == Sub(Add(Mul(x, x), Mul(y, y)), Add(Mul(x, x), Mul(z, z)))
  {
    Same(ZMul(ZSub(y, z), ZAdd(y, z)),
         ZSub(ZAdd(ZMul(x, x), ZMul(y, y)), ZAdd(ZMul(x, x), ZMul(z, z))));
    hide *;
    Ring(x, y, z);
  }

  /** Over one x lie at most a point and its mirror image. */
  lemma TwoOverX(p: Point, q: Point)
    requires OnCircle(p) && OnCircle(q) && p.x == q.x
    ensures q == p || q == Mirror(p)
  {
    SameSquares(p.x, q.y, p.y);
    Units(1);
    NoZeroDivisors(Sub(q.y, p.y), Add(q.y, p.y));
    if Sub(q.y, p.y) == 0 {
      SubZero(q.y, p.y);
    } else {
      AddSub(q.y, p.y);
    }
  }

  lemma {:induction false} XList(zs: set<Point>) returns (xs: seq<Fp>)
    requires forall p, q :: p in zs && q in zs && p.x == q.x ==> p == q
    ensures |xs| == |zs| && Distinct(xs)
    ensures forall i :: 0 <= i < |xs| ==> exists p :: p in zs && p.x == xs[i]
    decreases |zs|
  {
    if zs == {} {
      xs := [];
    } else {
      var p :| p in zs;
      var rest := XList(zs - {p});
      xs := [p.x] + rest;
      forall i | 0 <= i < |xs| ensures exists q :: q in zs && q.x == xs[i] {
        if i == 0 {
          assert p in zs && p.x == xs[0];
        } else {
          var q :| q in zs - {p} && q.x == rest[i - 1];
          assert q in zs && q.x == xs[i];
        }
      }
    }
  }

  lemma Unfactor(x: Fp, a: Fp, f: Fp, y: Fp, g: Fp)
    ensures Add(Mul(Sub(x, a), f), Mul(y, Mul(Sub(x, a), g)))
       == Mul(Sub(x, a), Add(f, Mul(y, g)))
  {
    Same(ZAdd(ZMul(ZSub(x, a), f), ZMul(y, ZMul(ZSub(x, a), g))),
         ZMul(ZSub(x, a), ZAdd(f, ZMul(y, g))));
    hide *;
    Ring(x, a, f, y, g);
  }

  /** Dividing both parts by x - a keeps the zeros away from a. */
  lemma DeflatedZero(f0: Vec, f1: Vec, a: Fp, p: Point)
    requires |f0| >= 1 && |f1| >= 1 && Eval(f0, a) == 0 && Eval(f1, a) == 0
    requires ZeroAt(f0, f1, p) && p.x != a
    ensures ZeroAt(Deflate(f0, a), Deflate(f1, a), p)
  {
    hide Eval, Deflate;
    var x, y := p.x, p.y;
    var g0, g1 := Eval(Deflate(f0, a), x), Eval(Deflate(f1, a), x);
    DeflateDivides(f0, a, x);
    DeflateDivides(f1, a, x);
    Units(Mul(Sub(x, a), g0));
    Units(Mul(Sub(x, a), g1));
    Unfactor(x, a, g0, y, g1);
    NoZeroDivisors(Sub(x, a), Add(g0, Mul(y, g1)));
    if Sub(x, a) == 0 { SubZero(x, a); }
  }

  /** A non-zero f0 + y f1 has at most twice as many zeros on the circle as f1 has coefficients. */
  lemma {:induction false} ZeroBound(f0: Vec, f1: Vec, zs: set<Point>)
    requires |f0| == |f1| + 1 && !(IsZero(f0) && IsZero(f1)) && 2 * |f1| + 1 <= U64_MAX
    requires forall p :: p in zs ==> ZeroAt(f0, f1, p)
    ensures |zs| <= 2 * |f1|
    decreases |f1|
  {
    hide Eval, Deflate, NormPoly;
    if p :| p in zs && Mirror(p) in zs && Mirror(p) != p {
      var m := Mirror(p);
      if p.y == 0 { Units(0); }
      BothZeros(f0, f1, p);
      var a := p.x;
      if f1 == [] {
        assert f0 == [f0[0]] + Zeros(0);
        EvalConst(f0[0], 0, a);
        assert false;
      }
      var g0, g1 := Deflate(f0, a), Deflate(f1, a);
      if IsZero(g0) && IsZero(g1) {
        DeflateZero(f0, a);
        DeflateZero(f1, a);
      }
      var rest := zs - {p, m};
      forall q | q in rest ensures ZeroAt(g0, g1, q) {
        if q.x == a { TwoOverX(p, q); }
        DeflatedZero(f0, f1, a, q);
      }
      ZeroBound(g0, g1, rest);
      assert |{p, m}| == 2 && {p, m} <= zs;
      assert |rest| == |zs| - 2;
    } else {
      SeparateZeros(f0, f1, zs);
    }
  }

  /** Zeros over different x are roots of the norm. */
  lemma SeparateZeros(f0: Vec, f1: Vec, zs: set<Point>)
    requires |f0| == |f1| + 1 && !(IsZero(f0) && IsZero(f1)) && 2 * |f1| + 1 <= U64_MAX
    requires forall p :: p in zs ==> ZeroAt(f0, f1, p)
    requires forall p :: p in zs && Mirror(p) in zs ==> Mirror(p) == p
    ensures |zs| <= 2 * |f1|
  {
    hide Eval, NormPoly;
    forall p, q | p in zs && q in zs && p.x == q.x ensures p == q {
      TwoOverX(p, q);
    }
    if |zs| > 2 * |f1| {
      if f1 == [] {
        var p :| p in zs;
        EvalNothing(p.x);
        Units(p.y);
        assert f0 == [f0[0]] + Zeros(0);
        Units(f0[0]);
        EvalConst(f0[0], 0, p.x);
      } else {
        var xs := XList(zs);
        var norm := NormPoly(f0, f1);
        forall i | 0 <= i < |xs| ensures Eval(norm, xs[i]) == 0 {
          var p :| p in zs && p.x == xs[i];
          ZeroOfNorm(f0, f1, p);
          EvalNorm(f0, f1, p.x);
        }
        RootBound(norm, xs);
        forall x ensures Sub(Mul(Eval(f0, x), Eval(f0, x)), Mul(Sub(1, Mul(x, x)), Mul(Eval(f1, x), Eval(f1, x)))) == 0 {
          EvalZero(norm, x);
          EvalNorm(f0, f1, x);
        }
        ZeroNorm(f0, f1);
      }
    }
  }

  /** A non-zero coefficient vector of length d vanishes at no more than d points of the circle. */
  lemma CircleZeros(c: Vec, zs: set<Point>)
    requires !IsZero(c) && |c| + 1 <= U64_MAX
    requires forall p :: p in zs ==> OnCircle(p) && EvalC(c, p) == 0
    ensures |zs| <= |c|
  {
    hide Eval, ToPoly, EvalC;
    var e, o := ToPoly(Evens(c)), ToPoly(Odds(c));
    var f0 := if |e| == |o| then e + [0] else e;
    if IsZero(f0) && IsZero(o) {
      forall i | 0 <= i < |e| ensures e[i] == 0 { assert f0[i] == 0; }
      ToPolyZero(Evens(c));
      ToPolyZero(Odds(c));
      forall i | 0 <= i < |c| ensures c[i] == 0 {
        if i % 2 == 0 { assert c[i] == Evens(c)[i / 2]; } else { assert c[i] == Odds(c)[i / 2]; }
      }
    }
    forall p | p in zs ensures ZeroAt(f0, o, p) {
      EvalParts(c, p);
      EvalPad(e, [0], p.x);
    }
    ZeroBound(f0, o, zs);
  }
}
