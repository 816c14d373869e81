/** The dense prover's round state (`LayerRoundState` in sumcheck.rs): term lists with running equality weights and value
    tables folded in place. */
module DenseProver {
  import opened Field
  import opened Vectors
  import opened Bits
  import opened Multilinear
  import opened Circuits
  import opened Rounds
  import opened LayerSums
  import opened LayerRounds
  import opened TermLists
  import opened DenseSwitch
  import opened Sumcheck

  /** A term of one phase: the index it still has to bind, its coefficient, the weight bound so far. */
  datatype PhaseTerm = PhaseTerm(index: nat, q: Fp, eq: Fp)

  function Indices(ts: seq<PhaseTerm>): (s: seq<nat>)
    ensures |s| == |ts|
  {
    seq(|ts|, k requires 0 <= k < |ts| => ts[k].index)
  }

  function Qs(ts: seq<PhaseTerm>): (s: Vec)
    ensures |s| == |ts|
  {
    seq(|ts|, k requires 0 <= k < |ts| => ts[k].q)
  }

  /** A term list carries a table after the challenges in `point`. */
  ghost predicate Carries(ts: seq<PhaseTerm>, table: Vec, point: Vec)
  {
    && AllBelow(Indices(ts), |table|)
    && Scatter(Indices(ts), Qs(ts), |table|) == table
    && forall k :: 0 <= k < |ts| ==> ts[k].eq == PrefixEq(ts[k].index, point)
  }

  // ----- building the lists -----

  /** `output_lookup`. */
  method OutputLookup(layer: Layer, points: (Vec, Vec), alpha: Fp) returns (r: Vec)
    requires |points.0| == |points.1| == layer.outLog
    ensures r == OutWeights(layer, points.0, points.1, alpha)
  {
    var left := EqTable(points.0);
    var right := EqTable(points.1);
    r := seq(|left|, i requires 0 <= i < |left| => Add(Mul(alpha, left[i]), Mul(Sub(1, alpha), right[i])));
  }

  /** A hash map of running totals with the keys in the order of first occurrence. */
  method GroupTotals<T(==, !new)>(keys: seq<T>, vals: Vec) returns (order: seq<T>, totals: map<T, Fp>)
    requires |keys| == |vals|
    ensures order == Order(keys)
    ensures totals.Keys == set k | k in order
    ensures forall k :: k in order ==> totals[k] == Total(keys, vals, k)
  {
    order, totals := [], map[];
    for i := 0 to |keys|
      invariant order == Order(keys[..i])
      invariant totals.Keys == set k | k in order
      invariant forall k :: k in order ==> totals[k] == Total(keys[..i], vals[..i], k)
    {
      assert keys[..i + 1][..i] == keys[..i] && vals[..i + 1][..i] == vals[..i];
      var key := keys[i];
      if key !in totals {
        TotalAbsent(keys[..i], vals[..i], key);
        order := order + [key];
        totals := totals[key := 0];
      }
      totals := totals[key := Add(totals[key], vals[i])];
    }
    assert keys[..|keys|] == keys && vals[..|vals|] == vals;
  }

  /** `compressed_round_terms`. */
  method CompressedRoundTerms(layer: Layer, points: (Vec, Vec), alpha: Fp, lookup: Vec) returns (ts: seq<RoundTerm>)
    requires layer.Valid() && lookup == OutWeights(layer, points.0, points.1, alpha)
    ensures ts == Compressed(layer.terms, TermWeights(layer.terms, points.0, points.1, alpha))
  {
    hide OutWeight, Order, Total;
    FitKeys(layer);
    var terms := layer.terms;
    var q: Vec := seq(|terms|, k requires 0 <= k < |terms| =>
      assert Outs(terms)[k] < |lookup|;
      Mul(terms[k].coeff, lookup[terms[k].out]));
    assert q == TermWeights(terms, points.0, points.1, alpha);
    var order, totals := GroupTotals(Pairs(terms), q);
    ghost var grouped := GroupedTerms(terms, q);
    ts := [];
    for i := 0 to |order|
      invariant ts == Nonzero(grouped[..i])
    {
      assert grouped[..i + 1][..i] == grouped[..i];
      var key := order[i];
      if totals[key] != 0 {
        ts := ts + [RoundTerm(key.0, key.1, totals[key])];
      }
    }
    assert grouped[..|order|] == grouped;
  }

  lemma GroupedLeftList(keys: seq<nat>, vals: Vec, n: nat, ts: seq<PhaseTerm>)
    requires |keys| == |vals| && AllBelow(keys, n)
    requires |ts| == |Order(keys)|
    requires forall i :: 0 <= i < |ts| ==> ts[i] == PhaseTerm(Order(keys)[i], Total(keys, vals, Order(keys)[i]), 1)
    ensures Carries(ts, Scatter(keys, vals, n), [])
  {
    hide Scatter, Order, Total;
    var same: nat -> nat := (k: nat) => k;
    var one: nat -> Fp := (k: nat) => 1;
    GroupingKeepsBuckets(keys, vals, same, one, n);
    assert Map(same, Order(keys)) == Indices(ts) && Map(same, keys) == keys;
    forall i | 0 <= i < |ts| ensures Weighted(Totals(keys, vals), one, Order(keys))[i] == Qs(ts)[i] {
      Units(Qs(ts)[i]);
    }
    assert Weighted(Totals(keys, vals), one, Order(keys)) == Qs(ts);
    forall i | 0 <= i < |keys| ensures Weighted(vals, one, keys)[i] == vals[i] {
      Units(vals[i]);
    }
    assert Weighted(vals, one, keys) == vals;
  }

  /** `left_phase_terms`. */
  method LeftPhaseTerms(terms: seq<RoundTerm>, w: Vec) returns (ts: seq<PhaseTerm>)
    requires ListFits(terms, |w|) && AllBelow(ListLefts(terms), |w|)
    ensures Carries(ts, Scatter(ListLefts(terms), ListLeftVals(terms, w), |w|), [])
    ensures forall k :: 0 <= k < |terms| ==> terms[k].l in Indices(ts)
  {
    hide Scatter, Order, Total, Carries;
    var keys, vals := ListLefts(terms), ListLeftVals(terms, w);
    var order, totals := GroupTotals(keys, vals);
    ts := seq(|order|, i requires 0 <= i < |order| && order[i] in totals => PhaseTerm(order[i], totals[order[i]], 1));
    GroupedLeftList(keys, vals, |w|, ts);
    assert Indices(ts) == order;
    forall k | 0 <= k < |terms| ensures terms[k].l in Indices(ts) {
      assert keys[k] in keys;
    }
  }

  /** `fold_one_in_place`: the folded entries overwrite the front half, the rest is cut off. */
  method FoldOneInPlace(table: Vec, c: Fp) returns (values: Vec)
    ensures values == Fold(table, c)
  {
    values := table;
    var half := |values| / 2;
    for index := 0 to half
      invariant |values| == |table|
      invariant forall j :: 0 <= j < index ==> values[j] == Fold(table, c)[j]
      invariant forall j :: index <= j < |values| ==> values[j] == table[j]
    {
      var left, right := values[index * 2], values[index * 2 + 1];
      values := values[index := Add(left, Mul(c, Sub(right, left)))];
    }
    values := values[..half];
  }

  // ----- round messages from a term list -----

  lemma LineAtTwo(w0: Fp, w1: Fp)
    ensures Sub(Add(w1, w1), w0)
       == Add(w0, Mul(2, Sub(w1, w0)))
  {
    Same(ZSub(ZAdd(w1, w1), w0),
         ZAdd(w0, ZMul(2, ZSub(w1, w0))));
    hide *;
    Ring(w0, w1);
  }

  lemma OddAtTwo(x: Fp)
    ensures Add(x, x)
       == Mul(2, x)
  {
    Same(ZAdd(x, x),
         ZMul(2, x));
    hide *;
    Ring(x);
  }

  lemma EvenAtTwo(x: Fp)
    ensures Sub(0, x)
       == Mul(Sub(1, 2), x)
  {
    Same(ZSub(0, x),
         ZMul(ZSub(1, 2), x));
    hide *;
    Ring(x);
  }

  lemma EvenAtZero(x: Fp)
    ensures x
       == Mul(Sub(1, 0), x)
  {
    Same(x,
         ZMul(ZSub(1, 0), x));
    hide *;
    Ring(x);
  }

  /** The weight the loops attach to entry x of the folded table, at 0 and at 2. */
  lemma SpreadAt(v: Vec, x: nat)
    requires x < |v| && |v| % 2 == 0
    ensures |Spread(Fold(v, 0), 0)| == |v| == |Spread(Fold(v, 2), 2)|
    ensures var j := x / 2;
            && Spread(Fold(v, 0), 0)[x] == (if x % 2 == 1 then 0 else v[2 * j])
            && Spread(Fold(v, 2), 2)[x] ==
                 var line := Sub(Add(v[2 * j + 1], v[2 * j + 1]), v[2 * j]); if x % 2 == 1 then Add(line, line) else Neg(line)
  {
    var j := x / 2;
    AtZero(v[2 * j], v[2 * j + 1]);
    LineAtTwo(v[2 * j], v[2 * j + 1]);
    var line := Sub(Add(v[2 * j + 1], v[2 * j + 1]), v[2 * j]);
    OddAtTwo(line);
    EvenAtTwo(line);
    EvenAtZero(v[2 * j]);
    Units(v[2 * j]);
  }

  /** What a term list sums for weights on the folded table. */
  lemma ListSum(ts: seq<PhaseTerm>, table: Vec, point: Vec, v: Vec, c: Fp)
    requires Carries(ts, table, point)
    requires |v| % 2 == 0 && |table| == |v| * Pow2(|point|)
    ensures |FoldAll(table, point)| == |v| == |Spread(Fold(v, c), c)|
    ensures var h := Spread(Fold(v, c), c);
            RoundPoly(FoldAll(table, point), v, c) == Dot(Qs(ts), Gather(PartialWeights(h, point, |table|), Indices(ts)))
  {
    hide Fold;
    var h := Spread(Fold(v, c), c);
    FoldAllDot(table, point, h);
    FoldSpread(FoldAll(table, point), Fold(v, c), c);
    ScatterDot(Indices(ts), Qs(ts), PartialWeights(h, point, |table|));
  }

  lemma TermTarget(t: PhaseTerm, point: Vec, h: Vec, n: nat)
    requires |h| * Pow2(|point|) == n && t.index < n && t.eq == PrefixEq(t.index, point)
    ensures Shr(t.index, |point|) < |h|
    ensures Mul(t.q, PartialWeights(h, point, n)[t.index]) == Mul(Mul(t.q, t.eq), h[Shr(t.index, |point|)])
  {
    ExpandAt(h, |point|, n, t.index);
    MulAssoc(t.q, t.eq, h[Shr(t.index, |point|)]);
  }

  /** The line through the two folded values of one slot, taken at 2 and weighted for the given bit. */
  function LineForBit(folded: Vec, pair: nat, bit: bool): Fp
    requires 2 * pair + 1 < |folded|
  {
    var line := Sub(Add(folded[2 * pair + 1], folded[2 * pair + 1]), folded[2 * pair]);
    if bit then Add(line, line) else Neg(line)
  }

  /** What one term adds to the two sums. */
  lemma TermShare(t: PhaseTerm, point: Vec, folded: Vec, n: nat)
    requires |folded| % 2 == 0 && |folded| * Pow2(|point|) == n && t.index < n && t.eq == PrefixEq(t.index, point)
    ensures var pair, bit, q := Shr(t.index, |point| + 1), Bit(t.index, |point|), Mul(t.q, t.eq);
            && 2 * pair + 1 < |folded|
            && Mul(t.q, PartialWeights(Spread(Fold(folded, 0), 0), point, n)[t.index]) == (if bit then 0 else Mul(q, folded[2 * pair]))
            && Mul(t.q, PartialWeights(Spread(Fold(folded, 2), 2), point, n)[t.index]) == Mul(q, LineForBit(folded, pair, bit))
  {
    hide Add, Sub, Mul, PartialWeights, Fold, Spread, PrefixEq;
    var h0, h2, x := Spread(Fold(folded, 0), 0), Spread(Fold(folded, 2), 2), Shr(t.index, |point|);
    TermTarget(t, point, h0, n);
    TermTarget(t, point, h2, n);
    ShrBit(t.index, |point|);
    SpreadAt(folded, x);
    Units(Mul(t.q, t.eq));
  }

  /** `left_round_evals_0_2` and `right_round_evals_0_2`: one pass over the terms. */
  method ListRoundEvals(ts: seq<PhaseTerm>, ghost table: Vec, point: Vec, folded: Vec) returns (p0: Fp, p2: Fp)
    requires Carries(ts, table, point)
    requires |folded| % 2 == 0 && |table| == |folded| * Pow2(|point|)
    ensures |FoldAll(table, point)| == |folded|
    ensures p0 == RoundPoly(FoldAll(table, point), folded, 0) && p2 == RoundPoly(FoldAll(table, point), folded, 2)
  {
    hide Add, Sub, Mul, RoundPoly, Fold, Spread, PartialWeights, Scatter, PrefixEq, Dot;
    ListSum(ts, table, point, folded, 0);
    ListSum(ts, table, point, folded, 2);
    ghost var w0 := PartialWeights(Spread(Fold(folded, 0), 0), point, |table|);
    ghost var w2 := PartialWeights(Spread(Fold(folded, 2), 2), point, |table|);
    ghost var qs, g0, g2 := Qs(ts), Gather(w0, Indices(ts)), Gather(w2, Indices(ts));
    DotNone(qs, g0);
    DotNone(qs, g2);
    p0, p2 := 0, 0;
    for k := 0 to |ts|
      invariant p0 == Dot(qs[..k], g0[..k]) && p2 == Dot(qs[..k], g2[..k])
    {
      var t := ts[k];
      assert Indices(ts)[k] < |table|;
      TermShare(t, point, folded, |table|);
      DotNext(qs, g0, k);
      DotNext(qs, g2, k);
      Units(p0);
      Units(p2);
      Units(g0[k]);
      Units(g2[k]);
      if t.q != 0 {
        var q := Mul(t.q, t.eq);
        var pair := Shr(t.index, |point| + 1);
        var bit := Bit(t.index, |point|);
        if !bit {
          p0 := Add(p0, Mul(q, folded[pair * 2]));
        }
        var line := Sub(Add(folded[pair * 2 + 1], folded[pair * 2 + 1]), folded[pair * 2]);
        line := if bit then Add(line, line) else Neg(line);
        p2 := Add(p2, Mul(q, line));
      }
    }
    assert qs[..|ts|] == qs && g0[..|ts|] == g0 && g2[..|ts|] == g2;
  }

  method AdvanceWeights(ts: seq<PhaseTerm>, ghost table: Vec, point: Vec, c: Fp) returns (r: seq<PhaseTerm>)
    requires Carries(ts, table, point)
    ensures Carries(r, table, point + [c]) && Indices(r) == Indices(ts)
  {
    hide Scatter;
    r := [];
    for k := 0 to |ts|
      invariant |r| == k
      invariant forall j :: 0 <= j < k ==> r[j].index == ts[j].index && r[j].q == ts[j].q
      invariant forall j :: 0 <= j < k ==> r[j].eq == PrefixEq(ts[j].index, point + [c])
    {
      var t := ts[k];
      PrefixEqSnoc(t.index, point, c);
      r := r + [t.(eq := Mul(t.eq, BitEq(Bit(t.index, |point|), c)))];
    }
    assert Indices(r) == Indices(ts) && Qs(r) == Qs(ts);
  }

  // ----- the switch -----

  /** `bind_right_phase_terms`: an index is listed whenever its running sum is zero. */
  method BindRight(terms: seq<RoundTerm>, leftPhase: seq<PhaseTerm>, ghost left: Vec, scalar: Fp, n: nat) returns (rightPhase: seq<PhaseTerm>)
    requires ListFits(terms, n) && AllBelow(ListRights(terms), n) && AllBelow(Indices(leftPhase), n)
    requires forall k :: 0 <= k < |leftPhase| ==> leftPhase[k].eq == PrefixEq(leftPhase[k].index, left)
    requires forall k :: 0 <= k < |terms| ==> terms[k].l in Indices(leftPhase)
    ensures Carries(rightPhase, DenseTable(ListRights(terms), ListRightVals(terms, left, scalar), n), [])
  {
    hide Scatter, PrefixEq, Active;
    forall k | 0 <= k < |leftPhase| ensures leftPhase[k].index < n {
      assert Indices(leftPhase)[k] < n;
    }
    var leftEq := Zeros(n);
    for k := 0 to |leftPhase|
      invariant |leftEq| == n
      invariant forall j :: 0 <= j < k ==> leftEq[leftPhase[j].index] == PrefixEq(leftPhase[j].index, left)
    {
      leftEq := leftEq[leftPhase[k].index := leftPhase[k].eq];
    }
    ghost var rs, vals := ListRights(terms), ListRightVals(terms, left, scalar);
    ScatterNone(rs, vals, n);
    ActiveNone(rs, vals, n);
    var byR, active := Zeros(n), [];
    for k := 0 to |terms|
      invariant byR == Scatter(rs[..k], vals[..k], n)
      invariant active == Active(rs[..k], vals[..k], n)
    {
      ScatterNext(rs, vals, k, n);
      ActiveNext(rs, vals, k, n);
      var t := terms[k];
      assert t.l in Indices(leftPhase);
      if byR[t.r] == 0 {
        active := active + [t.r];
      }
      byR := byR[t.r := Add(byR[t.r], Mul(Mul(t.q, leftEq[t.l]), scalar))];
    }
    assert rs[..|terms|] == rs && vals[..|terms|] == vals;
    rightPhase := KeepNonzero(active, byR);
  }

  method KeepNonzero(active: seq<nat>, byR: Vec) returns (ts: seq<PhaseTerm>)
    requires AllBelow(active, |byR|)
    ensures Carries(ts, Scatter(Kept(active, byR), Gather(byR, Kept(active, byR)), |byR|), [])
  {
    ts := [];
    for i := 0 to |active|
      invariant Indices(ts) == Kept(active[..i], byR)
      invariant Qs(ts) == Gather(byR, Kept(active[..i], byR))
      invariant forall k :: 0 <= k < |ts| ==> ts[k].eq == 1
    {
      assert active[..i + 1][..i] == active[..i];
      var r := active[i];
      ghost var before := ts;
      if byR[r] != 0 {
        ts := ts + [PhaseTerm(r, byR[r], 1)];
        assert Indices(ts) == Indices(before) + [r] && Qs(ts) == Qs(before) + [byR[r]];
        assert Gather(byR, Indices(ts)) == Gather(byR, Indices(before)) + [byR[r]];
      }
    }
    assert active[..|active|] == active;
  }

  // ----- the state -----

  lemma Pow2Even(k: nat)
    requires k > 0
    ensures Pow2(k) % 2 == 0
  {
  }

  lemma FoldedShape(w: Vec, point: Vec, n: nat)
    requires |w| == Pow2(n) && |point| < n
    ensures |FoldAll(w, point)| % 2 == 0 && Pow2(n) == |FoldAll(w, point)| * Pow2(|point|)
  {
    hide FoldAll, Pow2;
    assert |point| + (n - |point|) == n;
    FoldAllLength(w, point, n - |point|);
    Pow2Add(n - |point|, |point|);
    Pow2Even(n - |point|);
  }

  class LayerRoundState {
    const size: nat
    var terms: seq<RoundTerm>
    var leftPhase: seq<PhaseTerm>
    var rightPhase: seq<PhaseTerm>
    var leftFolded: Vec
    var rightFolded: Vec
    var point: Vec
    ghost const phase: Phase

    ghost predicate Valid()
      reads this
    {
      && phase.Valid() && size == phase.Size() && |point| <= 2 * size
      && terms == Compressed(phase.layer.terms, phase.q)
      && (var left := if |point| < size then point else point[..size];
          && Carries(leftPhase, LeftCoeffs(phase.layer, phase.q, phase.w), left)
          && (forall k :: 0 <= k < |terms| ==> terms[k].l in Indices(leftPhase))
          && leftFolded == FoldAll(phase.w, left)
          && (if |point| < size || size == 0 then rightFolded == phase.w
              else
                && Carries(rightPhase, DenseRightCoeffs(phase.layer, phase.q, left, EvalAt(phase.w, left)), point[size..])
                && rightFolded == FoldAll(phase.w, point[size..])))
    }

    constructor (layer: Layer, w: Vec, points: (Vec, Vec), alpha: Fp)
      requires layer.Valid() && |w| == Pow2(layer.nextLog) && |points.0| == |points.1| == layer.outLog
      ensures Valid() && phase == PhaseOf(layer, w, points, alpha) && point == []
    {
      hide Scatter, TermWeights, Compressed, Carries;
      var lookup := OutputLookup(layer, points, alpha);
      var ts := CompressedRoundTerms(layer, points, alpha, lookup);
      ghost var ph := PhaseOf(layer, w, points, alpha);
      DenseListStands(layer, ph.q, w);
      var lefts := LeftPhaseTerms(ts, w);
      size := layer.nextLog;
      phase := ph;
      terms, leftPhase, rightPhase := ts, lefts, [];
      leftFolded, rightFolded := w, w;
      point := [];
    }

    /** The two values a round message is made of. */
    method RoundEvals(roundIndex: nat) returns (p0: Fp, p2: Fp)
      requires Valid() && roundIndex == |point| < 2 * size
      ensures p0 == ProverRound(phase, true, point, 0) && p2 == ProverRound(phase, true, point, 2)
    {
      hide Scatter, Carries, RoundPoly, DenseRightCoeffs, LeftCoeffs;
      if roundIndex < size {
        ghost var a := LeftCoeffs(phase.layer, phase.q, phase.w);
        FoldedShape(phase.w, point, size);
        p0, p2 := ListRoundEvals(leftPhase, a, point, leftFolded);
      } else {
        ghost var left := point[..size];
        ghost var d := DenseRightCoeffs(phase.layer, phase.q, left, EvalAt(phase.w, left));
        FoldedShape(phase.w, point[size..], size);
        p0, p2 := ListRoundEvals(rightPhase, d, point[size..], rightFolded);
      }
    }

    /** The switch: the right list from the bound left point. */
    method StartRight()
      requires phase.Valid() && size == phase.Size() == |point| > 0 && terms == Compressed(phase.layer.terms, phase.q)
      requires Carries(leftPhase, LeftCoeffs(phase.layer, phase.q, phase.w), point)
      requires forall k :: 0 <= k < |terms| ==> terms[k].l in Indices(leftPhase)
      requires leftFolded == FoldAll(phase.w, point) && rightFolded == phase.w
      modifies this`rightPhase
      ensures Valid()
    {
      hide Scatter, Carries, Fold, EvalAt, DenseRightCoeffs, LeftCoeffs, Compressed;
      assert point[..size] == point && point[size..] == [];
      FoldAllEval(phase.w, point);
      var leftScalar := leftFolded[0];
      LeftPhaseFits(leftPhase, LeftCoeffs(phase.layer, phase.q, phase.w), point);
      CompressedFits(phase.layer, phase.q);
      rightPhase := BindRight(terms, leftPhase, point, leftScalar, Pow2(size));
      DenseCoeffs(phase.layer, phase.q, point, leftScalar);
    }

    method AbsorbChallenge(roundIndex: nat, challenge: Fp)
      requires Valid() && roundIndex == |point| < 2 * size
      modifies this
      ensures Valid() && point == old(point) + [challenge]
    {
      hide Scatter, Carries, Fold, EvalAt, DenseRightCoeffs, LeftCoeffs, RoundPoly, Compressed;
      ghost var w := phase.w;
      if roundIndex < size {
        ghost var a := LeftCoeffs(phase.layer, phase.q, w);
        leftPhase := AdvanceWeights(leftPhase, a, point, challenge);
        leftFolded := FoldOneInPlace(leftFolded, challenge);
        FoldAllSnoc(w, point, challenge);
        point := point + [challenge];
        if roundIndex + 1 == size {
          StartRight();
        }
      } else {
        ghost var left := point[..size];
        ghost var d := DenseRightCoeffs(phase.layer, phase.q, left, EvalAt(w, left));
        rightPhase := AdvanceWeights(rightPhase, d, point[size..], challenge);
        rightFolded := FoldOneInPlace(rightFolded, challenge);
        FoldAllSnoc(w, point[size..], challenge);
        ghost var next := point + [challenge];
        assert next[..size] == left && next[size..] == point[size..] + [challenge];
        point := point + [challenge];
      }
    }

    /** The opened values of the next layer. */
    method FinalClaims() returns (v: Pair)
      requires Valid() && |point| == 2 * size
      ensures v == Openings(phase.w, Halves(point, size))
    {
      hide Scatter, Carries, Fold, DenseRightCoeffs, LeftCoeffs;
      FoldAllEval(phase.w, point[..size]);
      FoldAllEval(phase.w, point[size..]);
      v := (leftFolded[0], rightFolded[0]);
    }
  }

  lemma LeftPhaseFits(ts: seq<PhaseTerm>, table: Vec, point: Vec)
    requires Carries(ts, table, point)
    ensures AllBelow(Indices(ts), |table|)
    ensures forall k :: 0 <= k < |ts| ==> ts[k].eq == PrefixEq(ts[k].index, point)
  {
  }

  lemma DenseCoeffs(layer: Layer, q: Vec, left: Vec, scalar: Fp)
    requires layer.Valid() && |q| == |layer.terms|
    ensures var ts := Compressed(layer.terms, q);
            && AllBelow(ListRights(ts), Pow2(layer.nextLog))
            && DenseRightCoeffs(layer, q, left, scalar) == DenseTable(ListRights(ts), ListRightVals(ts, left, scalar), Pow2(layer.nextLog))
  {
    CompressedFits(layer, q);
  }
}
