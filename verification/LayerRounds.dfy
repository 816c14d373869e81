/** One layer as a single run of 2n rounds: the true claim and the true round polynomial after any prefix of
    challenges. */
module LayerRounds {
  import opened Field
  import opened Vectors
  import opened Bits
  import opened Multilinear
  import opened Circuits
  import opened Rounds
  import opened LayerSums

  /** A layer with everything the prover knows when the rounds start: q of every term and the next layer's
      values. */
  datatype Phase = Phase(layer: Layer, q: Vec, w: Vec) {
    ghost predicate Valid()
    {
      layer.Valid() && |q| == |layer.terms| && |w| == Pow2(layer.nextLog)
    }

    function Size(): nat { layer.nextLog }

    /** The coefficient table after the challenges in `point`. */
    function Coeffs(point: Vec): (a: Vec)
      requires Valid() && |point| <= 2 * Size()
    {
      if |point| < Size() then FoldAll(LeftCoeffs(layer, q, w), point)
      else
        var left := point[..Size()];
        FoldAll(RightCoeffs(layer, q, left, EvalAt(w, left)), point[Size()..])
    }

    /** The value table after the challenges in `point`. */
    function Values(point: Vec): (v: Vec)
      requires |point| <= 2 * Size()
    {
      if |point| < Size() then FoldAll(w, point) else FoldAll(w, point[Size()..])
    }

    /** The claim an honest run carries after the challenges in `point`. */
    function Claim(point: Vec): Fp
      requires Valid() && |point| <= 2 * Size()
    {
      Shapes(point);
      Dot(Coeffs(point), Values(point))
    }

    /** The round polynomial an honest run sends after the challenges in `point`, at x. */
    function Round(point: Vec, x: Fp): Fp
      requires Valid() && |point| <= 2 * Size()
    {
      Shapes(point);
      RoundPoly(Coeffs(point), Values(point), x)
    }

    lemma Shapes(point: Vec)
      requires Valid() && |point| <= 2 * Size()
      ensures |Coeffs(point)| == |Values(point)|
      ensures |point| < Size() ==> |Coeffs(point)| == Pow2(Size() - |point|)
      ensures Size() <= |point| ==> |Coeffs(point)| == Pow2(2 * Size() - |point|)
    {
      hide Fold, Scatter;
      if |point| < Size() {
        FoldAllLength(LeftCoeffs(layer, q, w), point, Size() - |point|);
        FoldAllLength(w, point, Size() - |point|);
      } else {
        var left, right := point[..Size()], point[Size()..];
        FoldAllLength(RightCoeffs(layer, q, left, EvalAt(w, left)), right, 2 * Size() - |point|);
        FoldAllLength(w, right, 2 * Size() - |point|);
      }
    }

    /** The two halves of the round polynomial add up to the claim. */
    lemma RoundHalves(point: Vec)
      requires Valid() && |point| < 2 * Size()
      ensures Claim(point) == Add(Round(point, 0), Round(point, 1))
    {
      hide Fold, Scatter, RoundPoly;
      Shapes(point);
      RoundSum(Coeffs(point), Values(point), |Coeffs(point)| / 2);
    }

    /** Three values determine the round polynomial. */
    lemma RoundDegree(point: Vec, x: Fp)
      requires Valid() && |point| < 2 * Size()
      ensures Lagrange(Round(point, 0), Round(point, 1), Round(point, 2), x) == Round(point, x)
    {
      hide Fold, Scatter, RoundPoly, Lagrange;
      Shapes(point);
      var a, v := Coeffs(point), Values(point);
      RoundLagrange(a, v, |a| / 2, x);
    }

    /** Binding the next variable turns the round polynomial into the next claim, also across the switch from
        the left to the right indices. */
    lemma ClaimStep(point: Vec, c: Fp)
      requires Valid() && |point| < 2 * Size()
      ensures Claim(point + [c]) == Round(point, c)
    {
      hide Fold;
      var n, next := Size(), point + [c];
      Shapes(point);
      Shapes(next);
      if |next| < n {
        FoldAllSnoc(LeftCoeffs(layer, q, w), point, c);
        FoldAllSnoc(w, point, c);
      } else if |next| == n {
        var a := LeftCoeffs(layer, q, w);
        assert next[..n] == next && next[n..] == [];
        FoldAllSnoc(a, point, c);
        FoldAllSnoc(w, point, c);
        FoldAllEval(a, next);
        FoldAllEval(w, next);
        DotSingle(EvalAt(a, next), EvalAt(w, next));
        PhaseSwitch(layer, q, w, next, EvalAt(w, next));
      } else {
        assert next[..n] == point[..n] && next[n..] == point[n..] + [c];
        FoldAllSnoc(RightCoeffs(layer, q, point[..n], EvalAt(w, point[..n])), point[n..], c);
        FoldAllSnoc(w, point[n..], c);
      }
    }

    /** The claim before the first round, in the left form for every size. */
    lemma FirstClaim()
      requires Valid()
      ensures Claim([]) == Dot(LeftCoeffs(layer, q, w), w)
    {
      hide Fold;
      var a := LeftCoeffs(layer, q, w);
      if Size() == 0 {
        var none: Vec := [];
        assert none[..0] == none && none[0..] == none;
        assert a == [a[0]] && w == [w[0]];
        DotSingle(a[0], w[0]);
        PhaseSwitch(layer, q, w, none, w[0]);
      }
    }

    /** The claim after the last round: one coefficient times one value. */
    lemma LastClaim(point: Vec)
      requires Valid() && |point| == 2 * Size()
      ensures var left, right := point[..Size()], point[Size()..];
              Claim(point) == Mul(EvalAt(RightCoeffs(layer, q, left, EvalAt(w, left)), right), EvalAt(w, right))
    {
      hide Fold;
      var left, right := point[..Size()], point[Size()..];
      var b := RightCoeffs(layer, q, left, EvalAt(w, left));
      FoldAllEval(b, right);
      FoldAllEval(w, right);
      DotSingle(EvalAt(b, right), EvalAt(w, right));
    }
  }

  lemma DotSingle(x: Fp, y: Fp)
    ensures Dot([x], [y]) == Mul(x, y)
  {
    assert [x][..0] == [] && [y][..0] == [];
    Units(Mul(x, y));
  }
}
