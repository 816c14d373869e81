/** One circuit layer as two inner products (sumcheck.rs): the left phase binds the l indices of the terms,
    the right phase the r indices. */
module LayerSums {
  import opened Field
  import opened Vectors
  import opened Bits
  import opened Multilinear
  import opened Circuits

  /** The weight of an output at both points at once (`output_lookup`). */
  function OutWeight(out: nat, g0: Vec, g1: Vec, alpha: Fp): Fp
  {
    Add(Mul(alpha, PrefixEq(out, g0)), Mul(Sub(1, alpha), PrefixEq(out, g1)))
  }

  /** q of every term. */
  function TermWeights(terms: seq<QuadTerm>, g0: Vec, g1: Vec, alpha: Fp): (q: Vec)
    ensures |q| == |terms|
  {
    seq(|terms|, k requires 0 <= k < |terms| => Mul(terms[k].coeff, OutWeight(terms[k].out, g0, g1, alpha)))
  }

  function LeftTerms(terms: seq<QuadTerm>, q: Vec, w: Vec): (v: Vec)
    requires |q| == |terms| && AllBelow(Rights(terms), |w|)
    ensures |v| == |terms|
  {
    seq(|terms|, k requires 0 <= k < |terms| =>
      assert Rights(terms)[k] < |w|;
      Mul(q[k], w[terms[k].r]))
  }

  /** The coefficient table of the left phase. */
  function LeftCoeffs(layer: Layer, q: Vec, w: Vec): (a: Vec)
    requires layer.Valid() && |q| == |layer.terms| && |w| == Pow2(layer.nextLog)
    ensures |a| == Pow2(layer.nextLog)
  {
    FitKeys(layer);
    Scatter(Lefts(layer.terms), LeftTerms(layer.terms, q, w), |w|)
  }

  function RightTerms(terms: seq<QuadTerm>, q: Vec, left: Vec, scalar: Fp): (v: Vec)
    requires |q| == |terms|
    ensures |v| == |terms|
  {
    seq(|terms|, k requires 0 <= k < |terms| => Mul(Mul(q[k], PrefixEq(terms[k].l, left)), scalar))
  }

  /** The coefficient table of the right phase, once the left point is bound. */
  function RightCoeffs(layer: Layer, q: Vec, left: Vec, scalar: Fp): (b: Vec)
    requires layer.Valid() && |q| == |layer.terms|
    ensures |b| == Pow2(layer.nextLog)
  {
    FitKeys(layer);
    Scatter(Rights(layer.terms), RightTerms(layer.terms, q, left, scalar), Pow2(layer.nextLog))
  }

  // ----- termwise comparison of sums -----

  lemma {:induction false} DotTermwise(a: Vec, b: Vec, c: Vec, d: Vec)
    requires |a| == |b| == |c| == |d|
    requires forall i :: 0 <= i < |a| ==> Mul(a[i], b[i]) == Mul(c[i], d[i])
    ensures Dot(a, b) == Dot(c, d)
  {
    if a != [] {
      var n := |a| - 1;
      DotTermwise(a[..n], b[..n], c[..n], d[..n]);
    }
  }

  lemma {:induction false} DotCombine(x: Fp, y: Fp, v: Vec, a: Vec, b: Vec, c: Vec)
    requires |v| == |a| == |b| == |c|
    requires forall i :: 0 <= i < |v| ==> Mul(v[i], c[i]) == Add(Mul(x, Mul(v[i], a[i])), Mul(y, Mul(v[i], b[i])))
    ensures Dot(v, c) == Add(Mul(x, Dot(v, a)), Mul(y, Dot(v, b)))
  {
    if v == [] {
      Units(x); Units(y); Units(0);
    } else {
      var n := |v| - 1;
      DotCombine(x, y, v[..n], a[..n], b[..n], c[..n]);
      CombineStep(x, y, Dot(v[..n], a[..n]), Dot(v[..n], b[..n]), Mul(v[n], a[n]), Mul(v[n], b[n]));
    }
  }

  lemma {:induction false} SumCombine(x: Fp, y: Fp, a: Vec, b: Vec, c: Vec)
    requires |a| == |b| == |c|
    requires forall i :: 0 <= i < |c| ==> c[i] == Add(Mul(x, a[i]), Mul(y, b[i]))
    ensures Sum(c) == Add(Mul(x, Sum(a)), Mul(y, Sum(b)))
  {
    if c == [] {
      Units(x); Units(y); Units(0);
    } else {
      var n := |c| - 1;
      SumCombine(x, y, a[..n], b[..n], c[..n]);
      CombineStep(x, y, Sum(a[..n]), Sum(b[..n]), a[n], b[n]);
    }
  }

  // ----- the three places where one form of the layer sum becomes the next -----

  function OutWeights(layer: Layer, g0: Vec, g1: Vec, alpha: Fp): (v: Vec)
    ensures |v| == Pow2(layer.outLog)
  {
    seq(Pow2(layer.outLog), o requires 0 <= o => OutWeight(o, g0, g1, alpha))
  }

  lemma SplitWeight(v: Fp, x: Fp, y: Fp, a: Fp)
    ensures Mul(v, Add(Mul(a, x), Mul(Sub(1, a), y)))
       == Add(Mul(a, Mul(v, x)), Mul(Sub(1, a), Mul(v, y)))
  {
    Same(ZMul(v, ZAdd(ZMul(a, x), ZMul(ZSub(1, a), y))),
         ZAdd(ZMul(a, ZMul(v, x)), ZMul(ZSub(1, a), ZMul(v, y))));
    hide *;
    Ring(v, x, y, a);
  }

  lemma MoveWeight(c: Fp, l: Fp, r: Fp, o: Fp)
    ensures Mul(Mul(Mul(c, l), r), o)
       == Mul(Mul(Mul(c, o), r), l)
  {
    Same(ZMul(ZMul(ZMul(c, l), r), o),
         ZMul(ZMul(ZMul(c, o), r), l));
    hide *;
    Ring(c, l, r, o);
  }

  /** The two output claims, combined by alpha, are the inner product the left phase starts from. */
  lemma LayerSum(layer: Layer, w: Vec, g0: Vec, g1: Vec, alpha: Fp)
    requires layer.Valid() && |w| == Pow2(layer.nextLog) && |g0| == |g1| == layer.outLog
    ensures Add(Mul(alpha, EvalAt(EvalNext(layer, w), g0)), Mul(Sub(1, alpha), EvalAt(EvalNext(layer, w), g1)))
         == Dot(LeftCoeffs(layer, TermWeights(layer.terms, g0, g1, alpha), w), w)
  {
    hide Scatter;
    var terms, v := layer.terms, EvalNext(layer, w);
    var q, o := TermWeights(terms, g0, g1, alpha), OutWeights(layer, g0, g1, alpha);
    FitKeys(layer);
    EvalIsWeightedSum(v, g0);
    EvalIsWeightedSum(v, g1);
    forall i | 0 <= i < |v|
      ensures Mul(v[i], o[i]) == Add(Mul(alpha, Mul(v[i], EqVec(g0)[i])), Mul(Sub(1, alpha), Mul(v[i], EqVec(g1)[i])))
    {
      SplitWeight(v[i], PrefixEq(i, g0), PrefixEq(i, g1), alpha);
    }
    DotCombine(alpha, Sub(1, alpha), v, EqVec(g0), EqVec(g1), o);
    ScatterDot(Outs(terms), TermValues(terms, w), o);
    ScatterDot(Lefts(terms), LeftTerms(terms, q, w), w);
    forall k | 0 <= k < |terms|
      ensures Mul(TermValues(terms, w)[k], Gather(o, Outs(terms))[k])
           == Mul(LeftTerms(terms, q, w)[k], Gather(w, Lefts(terms))[k])
    {
      assert Outs(terms)[k] < |o| && Lefts(terms)[k] < |w| && Rights(terms)[k] < |w|;
      MoveWeight(terms[k].coeff, w[terms[k].l], w[terms[k].r], o[terms[k].out]);
    }
    DotTermwise(TermValues(terms, w), Gather(o, Outs(terms)), LeftTerms(terms, q, w), Gather(w, Lefts(terms)));
  }

  lemma MoveScalar(q: Fp, w: Fp, e: Fp, s: Fp)
    ensures Mul(Mul(s, Mul(q, w)), e)
       == Mul(Mul(Mul(q, e), s), w)
  {
    Same(ZMul(ZMul(s, ZMul(q, w)), e),
         ZMul(ZMul(ZMul(q, e), s), w));
    hide *;
    Ring(q, w, e, s);
  }

  /** The claim after the left phase is the inner product the right phase starts from. */
  lemma PhaseSwitch(layer: Layer, q: Vec, w: Vec, left: Vec, scalar: Fp)
    requires layer.Valid() && |q| == |layer.terms| && |w| == Pow2(layer.nextLog) && |left| == layer.nextLog
    ensures Mul(EvalAt(LeftCoeffs(layer, q, w), left), scalar) == Dot(RightCoeffs(layer, q, left, scalar), w)
  {
    hide Scatter;
    var terms, a := layer.terms, LeftCoeffs(layer, q, w);
    FitKeys(layer);
    EvalIsWeightedSum(a, left);
    ScatterDot(Lefts(terms), LeftTerms(terms, q, w), EqVec(left));
    ScatterDot(Rights(terms), RightTerms(terms, q, left, scalar), w);
    var x, y := LeftTerms(terms, q, w), Gather(EqVec(left), Lefts(terms));
    DotScale(scalar, x, y);
    MulComm(scalar, Dot(x, y));
    forall k | 0 <= k < |terms|
      ensures Mul(Scale(scalar, x)[k], y[k]) == Mul(RightTerms(terms, q, left, scalar)[k], Gather(w, Rights(terms))[k])
    {
      assert Lefts(terms)[k] < |w| && Rights(terms)[k] < |w|;
      MoveScalar(q[k], w[terms[k].r], PrefixEq(terms[k].l, left), scalar);
    }
    DotTermwise(Scale(scalar, x), y, RightTerms(terms, q, left, scalar), Gather(w, Rights(terms)));
  }

  lemma GatherFactors(c: Fp, x: Fp, l: Fp, s: Fp, r: Fp)
    ensures Mul(Mul(Mul(Mul(c, x), l), s), r)
       == Mul(s, Mul(x, Mul(Mul(c, l), r)))
  {
    Same(ZMul(ZMul(ZMul(ZMul(c, x), l), s), r),
         ZMul(s, ZMul(x, ZMul(ZMul(c, l), r))));
    hide *;
    Ring(c, x, l, s, r);
  }

  lemma SplitFactor(a: Fp, b: Fp, o: Fp, p: Fp, m: Fp, s: Fp)
    ensures Mul(s, Mul(Add(Mul(a, o), Mul(b, p)), m))
       == Add(Mul(Mul(a, s), Mul(o, m)), Mul(Mul(b, s), Mul(p, m)))
  {
    Same(ZMul(s, ZMul(ZAdd(ZMul(a, o), ZMul(b, p)), m)),
         ZAdd(ZMul(ZMul(a, s), ZMul(o, m)), ZMul(ZMul(b, s), ZMul(p, m))));
    hide *;
    Ring(a, b, o, p, m, s);
  }

  lemma SpreadFactor(c: Fp, o: Fp, l: Fp, r: Fp)
    ensures Mul(o, Mul(Mul(c, l), r))
       == Mul(Mul(Mul(c, o), l), r)
  {
    Same(ZMul(o, ZMul(ZMul(c, l), r)),
         ZMul(ZMul(ZMul(c, o), l), r));
    hide *;
    Ring(c, o, l, r);
  }

  lemma FinalTerm(c: Fp, o: Fp, p: Fp, a: Fp, l: Fp, r: Fp, s: Fp)
    ensures Mul(Mul(Mul(Mul(c, Add(Mul(a, o), Mul(Sub(1, a), p))), l), s), r) == Add(Mul(Mul(a, s), Mul(Mul(Mul(c, o), l), r)), Mul(Mul(Sub(1, a), s), Mul(Mul(Mul(c, p), l), r)))
  {
    GatherFactors(c, Add(Mul(a, o), Mul(Sub(1, a), p)), l, s, r);
    SplitFactor(a, Sub(1, a), o, p, Mul(Mul(c, l), r), s);
    SpreadFactor(c, o, l, r);
    SpreadFactor(c, p, l, r);
  }

  lemma FinalFactor(a: Fp, s: Fp, x: Fp, y: Fp, t: Fp)
    ensures Mul(Add(Mul(Mul(a, s), x), Mul(Mul(Sub(1, a), s), y)), t)
       == Mul(Mul(Add(Mul(a, x), Mul(Sub(1, a), y)), s), t)
  {
    Same(ZMul(ZAdd(ZMul(ZMul(a, s), x), ZMul(ZMul(ZSub(1, a), s), y)), t),
         ZMul(ZMul(ZAdd(ZMul(a, x), ZMul(ZSub(1, a), y)), s), t));
    hide *;
    Ring(a, s, x, y, t);
  }

  /** After both phases the claim is what the verifier recomputes from the wiring polynomial. */
  lemma FinalValue(layer: Layer, g0: Vec, g1: Vec, alpha: Fp, left: Vec, right: Vec, s: Fp, t: Fp)
    requires layer.Valid() && |right| == layer.nextLog
    ensures Mul(EvalAt(RightCoeffs(layer, TermWeights(layer.terms, g0, g1, alpha), left, s), right), t)
         == Mul(Mul(Add(Mul(alpha, QTilde(layer, g0, left, right)), Mul(Sub(1, alpha), QTilde(layer, g1, left, right))), s), t)
  {
    hide Scatter;
    var terms := layer.terms;
    var q := TermWeights(terms, g0, g1, alpha);
    var b := RightCoeffs(layer, q, left, s);
    FitKeys(layer);
    EvalIsWeightedSum(b, right);
    var x, y := RightTerms(terms, q, left, s), Gather(EqVec(right), Rights(terms));
    ScatterDot(Rights(terms), x, EqVec(right));
    SumIsDot(x, y, VMul(x, y));
    forall k | 0 <= k < |terms|
      ensures VMul(x, y)[k] == Add(Mul(Mul(alpha, s), QTerms(terms, g0, left, right)[k]), Mul(Mul(Sub(1, alpha), s), QTerms(terms, g1, left, right)[k]))
    {
      assert Rights(terms)[k] < |b|;
      FinalTerm(terms[k].coeff, PrefixEq(terms[k].out, g0), PrefixEq(terms[k].out, g1), alpha,
                PrefixEq(terms[k].l, left), PrefixEq(terms[k].r, right), s);
    }
    SumCombine(Mul(alpha, s), Mul(Sub(1, alpha), s), QTerms(terms, g0, left, right), QTerms(terms, g1, left, right), VMul(x, y));
    FinalFactor(alpha, s, QTilde(layer, g0, left, right), QTilde(layer, g1, left, right), t);
  }
}
