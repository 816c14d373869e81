/** The sorted-sparse prover's layer state (`SortedSparseLayerRoundState` in sumcheck.rs). */
module SparseRounds {
  import opened Field
  import opened Vectors
  import opened Bits
  import opened Multilinear
  import opened Circuits
  import opened Rounds
  import opened LayerSums
  import opened LayerRounds
  import opened TermLists
  import opened Sumcheck
  import opened DenseProver
  import opened SparseProver

  /** Below this many terms weights are computed one by one instead of from a table. */
  const PREFIX_EQ_THRESHOLD: nat := 50_000

  /** One more raw term, dropped when its weight is zero. */
  lemma NonzeroNext(terms: seq<QuadTerm>, q: Vec, k: nat)
    requires |q| == |terms| && k < |terms|
    ensures Nonzero(RawTerms(terms, q)[..k + 1])
         == Nonzero(RawTerms(terms, q)[..k]) + if q[k] == 0 then [] else [RoundTerm(terms[k].l, terms[k].r, q[k])]
  {
    assert RawTerms(terms, q)[..k + 1][..k] == RawTerms(terms, q)[..k];
  }

  /** Few terms: the equality weights of each output on their own. */
  method DirectTerms(layer: Layer, points: (Vec, Vec), alpha: Fp) returns (ts: seq<RoundTerm>)
    requires layer.Valid() && |points.0| == |points.1| == layer.outLog
    ensures ts == Nonzero(RawTerms(layer.terms, TermWeights(layer.terms, points.0, points.1, alpha)))
  {
    hide Nonzero, RawTerms;
    FitKeys(layer);
    var terms := layer.terms;
    ghost var weights := TermWeights(terms, points.0, points.1, alpha);
    ts := [];
    NoTerms(RawTerms(terms, weights));
    for k := 0 to |terms|
      invariant ts == Nonzero(RawTerms(terms, weights)[..k])
    {
      NonzeroNext(terms, weights, k);
      var t := terms[k];
      var e0 := PrefixEqLoop(t.out, points.0);
      var e1 := PrefixEqLoop(t.out, points.1);
      var q := Mul(t.coeff, Add(Mul(alpha, e0), Mul(Sub(1, alpha), e1)));
      if q != 0 {
        ts := ts + [RoundTerm(t.l, t.r, q)];
      }
    }
    assert RawTerms(terms, weights)[..|terms|] == RawTerms(terms, weights);
  }

  /** Many terms: one table of all output weights. */
  method LookupTerms(layer: Layer, points: (Vec, Vec), alpha: Fp) returns (ts: seq<RoundTerm>)
    requires layer.Valid() && |points.0| == |points.1| == layer.outLog
    ensures ts == Nonzero(RawTerms(layer.terms, TermWeights(layer.terms, points.0, points.1, alpha)))
  {
    hide Nonzero, RawTerms;
    FitKeys(layer);
    var terms := layer.terms;
    ghost var weights := TermWeights(terms, points.0, points.1, alpha);
    ts := [];
    var lookup := OutputLookup(layer, points, alpha);
    NoTerms(RawTerms(terms, weights));
    for k := 0 to |terms|
      invariant ts == Nonzero(RawTerms(terms, weights)[..k])
    {
      NonzeroNext(terms, weights, k);
      var t := terms[k];
      assert Outs(terms)[k] < |lookup|;
      var q := Mul(t.coeff, lookup[t.out]);
      if q != 0 {
        ts := ts + [RoundTerm(t.l, t.r, q)];
      }
    }
    assert RawTerms(terms, weights)[..|terms|] == RawTerms(terms, weights);
  }

  lemma NoTerms(ts: seq<RoundTerm>)
    ensures Nonzero(ts[..0]) == []
  {
  }

  /** `round_terms_for_sparse_layer`. */
  method SparseTerms(layer: Layer, points: (Vec, Vec), alpha: Fp) returns (ts: seq<RoundTerm>)
    requires layer.Valid() && |points.0| == |points.1| == layer.outLog
    ensures ts == Nonzero(RawTerms(layer.terms, TermWeights(layer.terms, points.0, points.1, alpha)))
  {
    hide RawTerms, TermWeights, Nonzero;
    if |layer.terms| <= PREFIX_EQ_THRESHOLD {
      ts := DirectTerms(layer, points, alpha);
    } else {
      ts := LookupTerms(layer, points, alpha);
    }
  }

  /** `sorted_left_coefficients`, as a table. */
  method LeftBuckets(ts: seq<RoundTerm>, w: Vec) returns (b: Vec)
    requires ListFits(ts, |w|) && AllBelow(ListLefts(ts), |w|)
    ensures b == Scatter(ListLefts(ts), ListLeftVals(ts, w), |w|)
  {
    hide Scatter;
    ghost var keys, vals := ListLefts(ts), ListLeftVals(ts, w);
    ScatterNone(keys, vals, |w|);
    b := Zeros(|w|);
    for k := 0 to |ts|
      invariant b == Scatter(keys[..k], vals[..k], |w|)
    {
      ScatterNext(keys, vals, k, |w|);
      var t := ts[k];
      var right := w[t.r];
      Units(t.q);
      Units(b[t.l]);
      if right != 0 {
        b := b[t.l := Add(b[t.l], Mul(t.q, right))];
      }
    }
    assert keys[..|ts|] == keys && vals[..|ts|] == vals;
  }

  /** The buckets of `bind_right_phase_terms`. */
  method RightBuckets(ts: seq<RoundTerm>, left: Vec, scalar: Fp, n: nat) returns (b: Vec)
    requires ListFits(ts, n) && AllBelow(ListRights(ts), n) && n == Pow2(|left|)
    ensures b == Scatter(ListRights(ts), ListRightVals(ts, left, scalar), n)
  {
    hide Scatter, PrefixEq;
    ghost var keys, vals := ListRights(ts), ListRightVals(ts, left, scalar);
    ScatterNone(keys, vals, n);
    b := Zeros(n);
    if |ts| <= PREFIX_EQ_THRESHOLD {
      for k := 0 to |ts|
        invariant b == Scatter(keys[..k], vals[..k], n)
      {
        ScatterNext(keys, vals, k, n);
        var t := ts[k];
        var e := PrefixEqLoop(t.l, left);
        b := b[t.r := Add(b[t.r], Mul(Mul(t.q, e), scalar))];
      }
    } else {
      var leftEq := EqTable(left);
      for k := 0 to |ts|
        invariant b == Scatter(keys[..k], vals[..k], n)
      {
        ScatterNext(keys, vals, k, n);
        var t := ts[k];
        b := b[t.r := Add(b[t.r], Mul(Mul(t.q, leftEq[t.l]), scalar))];
      }
    }
    assert keys[..|ts|] == keys && vals[..|ts|] == vals;
  }

  class SparseRoundState {
    const size: nat
    var terms: seq<RoundTerm>
    var leftChallenges: Vec
    var leftCoeff: SortedSparseVec
    var rightCoeff: SortedSparseVec
    var leftValues: SortedSparseVec
    var rightValues: SortedSparseVec
    var point: Vec
    ghost const phase: Phase

    /** Everything but the tables. */
    ghost predicate Shaped()
      reads this
    {
      && leftCoeff != leftValues && leftCoeff != rightValues && leftCoeff != rightCoeff
      && leftValues != rightValues && rightCoeff != leftValues && rightCoeff != rightValues
      && phase.Valid() && size == phase.Size() && |point| <= 2 * size
      && StandsFor(terms, phase.layer, phase.q, phase.w)
      && leftChallenges == (if |point| < size then point else point[..size])
    }

    ghost predicate LeftBound()
      reads this, leftCoeff, leftValues
      requires Shaped()
    {
      && leftCoeff.entries == Sparse(FoldAll(LeftCoeffs(phase.layer, phase.q, phase.w), leftChallenges))
      && leftValues.entries == Sparse(FoldAll(phase.w, leftChallenges))
    }

    ghost predicate Valid()
      reads this, leftCoeff, rightCoeff, leftValues, rightValues
    {
      && Shaped() && LeftBound()
      && (if |point| < size || size == 0 then rightValues.entries == Sparse(phase.w)
          else
            && rightCoeff.entries == Sparse(FoldAll(RightTable(), point[size..]))
            && rightValues.entries == Sparse(FoldAll(phase.w, point[size..])))
    }

    ghost function RightTable(): Vec
      reads this
      requires phase.Valid() && |leftChallenges| == phase.Size()
    {
      RightCoeffs(phase.layer, phase.q, leftChallenges, EvalAt(phase.w, leftChallenges))
    }

    constructor (layer: Layer, w: Vec, points: (Vec, Vec), alpha: Fp)
      requires layer.Valid() && |w| == Pow2(layer.nextLog) && |points.0| == |points.1| == layer.outLog
      ensures Valid() && phase == PhaseOf(layer, w, points, alpha) && point == []
      ensures fresh(leftCoeff) && fresh(rightCoeff) && fresh(leftValues) && fresh(rightValues)
    {
      hide Scatter, TermWeights, Nonzero, Sparse, LeftCoeffs, RightCoeffs;
      var ts := SparseTerms(layer, points, alpha);
      ghost var ph := PhaseOf(layer, w, points, alpha);
      SparseListStands(layer, ph.q, w);
      var buckets := LeftBuckets(ts, w);
      size := layer.nextLog;
      phase := ph;
      terms, leftChallenges, point := ts, [], [];
      leftCoeff := new SortedSparseVec.FromDenseNonzero(buckets);
      rightCoeff := new SortedSparseVec.Default();
      leftValues := new SortedSparseVec.FromDenseNonzero(w);
      rightValues := new SortedSparseVec.FromDenseNonzero(w);
    }

    method RoundEvals(roundIndex: nat) returns (p0: Fp, p2: Fp)
      requires Valid() && roundIndex == |point| < 2 * size
      ensures p0 == ProverRound(phase, false, point, 0) && p2 == ProverRound(phase, false, point, 2)
    {
      hide Scatter, FoldAll, Sparse, RoundPoly, StandsFor, LeftCoeffs, RightCoeffs;
      ghost var a, v := phase.Coeffs(point), phase.Values(point);
      phase.Shapes(point);
      if roundIndex < size {
        p0, p2 := MergedRoundEvals(leftCoeff.entries, leftValues.entries, a, v);
      } else {
        p0, p2 := MergedRoundEvals(rightCoeff.entries, rightValues.entries, a, v);
      }
    }

    /** A challenge of the left phase. */
    method AbsorbLeft(challenge: Fp)
      requires Valid() && |point| < size
      modifies this`point, this`leftChallenges, leftCoeff, leftValues
      ensures Shaped() && LeftBound() && point == old(point) + [challenge]
    {
      hide Multilinear.Fold, FoldAll, Sparse, StandsFor, LeftCoeffs, RightCoeffs;
      ghost var w, a := phase.w, LeftCoeffs(phase.layer, phase.q, phase.w);
      phase.Shapes(point);
      leftChallenges := leftChallenges + [challenge];
      FoldAllSnoc(a, point, challenge);
      FoldAllSnoc(w, point, challenge);
      leftCoeff.Fold(FoldAll(a, point), challenge);
      leftValues.Fold(FoldAll(w, point), challenge);
      point := point + [challenge];
      assert |point| == size ==> point[..size] == point;
    }

    /** The switch: the right table from the bound left point. */
    method StartRight()
      requires Shaped() && LeftBound() && |point| == size > 0 && rightValues.entries == Sparse(phase.w)
      modifies this`rightCoeff
      ensures Valid() && fresh(rightCoeff)
    {
      hide Scatter, Multilinear.Fold, FoldAll, Sparse, EvalAt, StandsFor, LeftCoeffs, RightCoeffs;
      ghost var w := phase.w;
      assert point[..size] == point && point[size..] == [];
      FoldAllEval(w, point);
      FoldAllNone(w);
      FoldAllNone(RightCoeffs(phase.layer, phase.q, point, EvalAt(w, point)));
      var leftScalar := leftValues.FinalValue([EvalAt(w, point)]);
      StandsFacts(terms, phase.layer, phase.q, phase.w, point, leftScalar);
      var buckets := RightBuckets(terms, leftChallenges, leftScalar, Pow2(size));
      rightCoeff := new SortedSparseVec.FromDenseNonzero(buckets);
    }

    /** A challenge of the right phase. */
    method AbsorbRight(challenge: Fp)
      requires Valid() && size <= |point| < 2 * size
      modifies this`point, rightCoeff, rightValues
      ensures Valid() && point == old(point) + [challenge]
    {
      hide Multilinear.Fold, FoldAll, Sparse, EvalAt, StandsFor, LeftCoeffs, RightCoeffs;
      ghost var before, right := point, point[size..];
      phase.Shapes(point);
      FoldAllSnoc(RightTable(), right, challenge);
      FoldAllSnoc(phase.w, right, challenge);
      rightCoeff.Fold(FoldAll(RightTable(), right), challenge);
      rightValues.Fold(FoldAll(phase.w, right), challenge);
      point := point + [challenge];
      assert point[..size] == before[..size] && point[size..] == right + [challenge];
    }

    method AbsorbChallenge(roundIndex: nat, challenge: Fp)
      requires Valid() && roundIndex == |point| < 2 * size
      modifies this, leftCoeff, rightCoeff, leftValues, rightValues
      ensures Valid() && point == old(point) + [challenge]
      ensures leftCoeff == old(leftCoeff) && leftValues == old(leftValues) && rightValues == old(rightValues)
      ensures rightCoeff == old(rightCoeff) || fresh(rightCoeff)
    {
      hide FoldAll, Sparse, StandsFor, LeftCoeffs, RightCoeffs;
      if roundIndex < size {
        AbsorbLeft(challenge);
        if roundIndex + 1 == size {
          StartRight();
        }
      } else {
        AbsorbRight(challenge);
      }
    }

    method FinalClaims() returns (v: Pair)
      requires Valid() && |point| == 2 * size
      ensures v == Openings(phase.w, Halves(point, size))
    {
      hide Scatter, Multilinear.Fold, FoldAll, Sparse, EvalAt, StandsFor, LeftCoeffs, RightCoeffs;
      ghost var left, right := point[..size], point[size..];
      FoldAllEval(phase.w, left);
      FoldAllEval(phase.w, right);
      if size == 0 {
        FoldAllNone(phase.w);
        assert right == [];
      }
      var l := leftValues.FinalValue([EvalAt(phase.w, left)]);
      var r := rightValues.FinalValue([EvalAt(phase.w, right)]);
      v := (l, r);
    }
  }

  lemma FoldAllNone(v: Vec)
    ensures FoldAll(v, []) == v
  {
  }

  lemma StandsFacts(ts: seq<RoundTerm>, layer: Layer, q: Vec, w: Vec, left: Vec, scalar: Fp)
    requires layer.Valid() && |q| == |layer.terms| && |w| == Pow2(layer.nextLog) && StandsFor(ts, layer, q, w)
    ensures ListFits(ts, |w|) && AllBelow(ListRights(ts), |w|)
    ensures Scatter(ListRights(ts), ListRightVals(ts, left, scalar), |w|) == RightCoeffs(layer, q, left, scalar)
  {
  }
}
