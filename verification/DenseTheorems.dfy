/** The dense prover: complete when every switch is safe, and rejected on a concrete circuit when one is not. */
module DenseTheorems {
  import opened Wrappers
  import opened Field
  import opened Modulus
  import opened Vectors
  import opened Bits
  import opened Multilinear
  import opened Circuits
  import opened FieldBytes
  import opened Transcripts
  import opened Rounds
  import opened LayerSums
  import opened LayerRounds
  import opened TermLists
  import opened DenseSwitch
  import opened SwitchSafety
  import opened Sumcheck
  import opened SumcheckTheorems

  /** The switch of one phase at the left point the run reaches. */
  ghost predicate SafePhase(ph: Phase, left: Vec)
    requires ph.Valid() && |left| == ph.Size()
  {
    |ph.q| <= U64_MAX && SafeSwitch(ph.layer, ph.q, left, EvalAt(ph.w, left))
  }

  /** One round: equal values up to the switch, and past a safe one. */
  lemma SameRound(ph: Phase, point: Vec)
    requires ph.Valid() && |point| <= 2 * ph.Size()
    requires ph.Size() <= |point| ==> SafePhase(ph, point[..ph.Size()])
    ensures ProverRound(ph, true, point, 0) == ProverRound(ph, false, point, 0)
    ensures ProverRound(ph, true, point, 2) == ProverRound(ph, false, point, 2)
  {
    hide ProverRound, SafeSwitch, EvalAt;
    TrueProverRound(ph, true, point, 0);
    TrueProverRound(ph, true, point, 2);
    TrueProverRound(ph, false, point, 0);
    TrueProverRound(ph, false, point, 2);
  }

  /** One more round extends the point. */
  lemma HonestPoint(o: Oracle, ph: Phase, pads: seq<Pair>, claim: Fp, tr: Transcript)
    requires ph.Valid() && 0 < |pads| <= 2 * ph.Size()
    ensures var k := |pads| - 1;
            RunRounds(o, HonestRounds(o, ph, false, pads, claim, tr), pads, claim, tr).point[..k]
            == RunRounds(o, HonestRounds(o, ph, false, pads[..k], claim, tr), pads[..k], claim, tr).point
  {
    hide Lagrange, ProverRound, HonestRounds;
    HonestRoundsPrefix(o, ph, pads, claim, tr);
  }

  /** Up to the switch both provers send the same messages; past it they do when the switch is safe. */
  lemma {:induction false} DenseRoundsAgree(o: Oracle, ph: Phase, pads: seq<Pair>, claim: Fp, tr: Transcript)
    requires ph.Valid() && |pads| <= 2 * ph.Size()
    requires |pads| > ph.Size() ==>
               SafePhase(ph, RunRounds(o, HonestRounds(o, ph, false, pads, claim, tr), pads, claim, tr).point[..ph.Size()])
    ensures HonestRounds(o, ph, true, pads, claim, tr) == HonestRounds(o, ph, false, pads, claim, tr)
    decreases |pads|
  {
    hide ProverRound, SafePhase, RunRounds;
    if pads != [] {
      var k, n := |pads| - 1, ph.Size();
      HonestPoint(o, ph, pads, claim, tr);
      var run := RunRounds(o, HonestRounds(o, ph, false, pads, claim, tr), pads, claim, tr);
      var run' := RunRounds(o, HonestRounds(o, ph, false, pads[..k], claim, tr), pads[..k], claim, tr);
      if k >= n {
        assert run'.point[..n] == run.point[..n];
      }
      DenseRoundsAgree(o, ph, pads[..k], claim, tr);
      SameRound(ph, run'.point);
    }
  }

  /** Every layer with rounds is safe at the left point of the honest run. */
  ghost predicate SafeRun(o: Oracle, index: nat, layers: seq<Layer>, trace: seq<Vec>, points: (Vec, Vec), claims: Pair, tr: Transcript)
    requires Chained(layers) && IsTrace(layers, trace)
    decreases |layers|
  {
    layers != [] ==>
      (assert StepHolds(layers, trace, 0);
       TailTrace(layers, trace);
       var layer := layers[0];
       var p := HonestLayer(o, false, index, layer, trace[1], points, claims, tr);
       var run := LayerRun(o, layer, p, claims, tr);
       var next := Halves(run.point, layer.nextLog);
       && (layer.nextLog > 0 ==> SafePhase(PhaseOf(layer, trace[1], points, Draw(o, tr)), next.0))
       && SafeRun(o, index + 1, layers[1..], trace[1..], next, Openings(trace[1], next), AfterMessage(run.tr, p.nextClaims)))
  }

  lemma DenseLayerAgrees(o: Oracle, index: nat, layer: Layer, w: Vec, points: (Vec, Vec), claims: Pair, tr: Transcript)
    requires layer.Valid() && |w| == Pow2(layer.nextLog)
    requires layer.nextLog > 0 ==>
               var run := LayerRun(o, layer, HonestLayer(o, false, index, layer, w, points, claims, tr), claims, tr);
               SafePhase(PhaseOf(layer, w, points, Draw(o, tr)), Halves(run.point, layer.nextLog).0)
    ensures HonestLayer(o, true, index, layer, w, points, claims, tr) == HonestLayer(o, false, index, layer, w, points, claims, tr)
  {
    hide HonestRounds, RunRounds, SafePhase, RoundPads;
    var alpha := Draw(o, tr);
    DenseRoundsAgree(o, PhaseOf(layer, w, points, alpha), RoundPads(o, index, 2 * layer.nextLog), Combine(alpha, claims), Drawn(tr));
  }

  lemma {:induction false} DenseLayersAgree(o: Oracle, index: nat, layers: seq<Layer>, trace: seq<Vec>, points: (Vec, Vec), claims: Pair, tr: Transcript)
    requires Chained(layers) && IsTrace(layers, trace) && SafeRun(o, index, layers, trace, points, claims, tr)
    ensures HonestLayers(o, true, index, layers, trace, points, claims, tr) == HonestLayers(o, false, index, layers, trace, points, claims, tr)
    decreases |layers|
  {
    hide EvalNext, EvalAt, HonestLayer, LayerRun, SafePhase;
    if layers != [] {
      assert StepHolds(layers, trace, 0);
      TailTrace(layers, trace);
      DenseLayerAgrees(o, index, layers[0], trace[1], points, claims, tr);
      var p := HonestLayer(o, false, index, layers[0], trace[1], points, claims, tr);
      var run := LayerRun(o, layers[0], p, claims, tr);
      var next := Halves(run.point, layers[0].nextLog);
      DenseLayersAgree(o, index + 1, layers[1..], trace[1..], next, Openings(trace[1], next), AfterMessage(run.tr, p.nextClaims));
    }
  }

  /** Under safe switches the dense prover sends the sparse prover's proof, so it is accepted too. */
  lemma DenseCompleteness(o: Oracle, layers: seq<Layer>, trace: seq<Vec>, root: Bytes, tr: Transcript)
    requires Chained(layers) && layers != [] && IsTrace(layers, trace) && AllZero(trace[0])
    requires var g := OutputPoint(o, layers, root, tr);
             SafeRun(o, 0, layers, trace, (g, g), (0, 0), AfterOutputPoint(layers, root, tr))
    ensures Prove(o, true, layers, trace, root, tr) == Prove(o, false, layers, trace, root, tr)
    ensures var (proof, t) := Prove(o, true, layers, trace, root, tr);
            Verify(o, layers, proof, root, tr) == (Ok(proof.inputClaims), t) && TrueClaims(trace[|layers|], proof.inputClaims)
  {
    hide EvalNext, HonestLayers, Verify, SafeRun, TrueClaims;
    var g := OutputPoint(o, layers, root, tr);
    DenseLayersAgree(o, 0, layers, trace, (g, g), (0, 0), AfterOutputPoint(layers, root, tr));
    Completeness(o, layers, trace, root, tr);
  }

  // ----- a condition on the circuit alone -----

  predicate OneLeftEverywhere(layers: seq<Layer>)
  {
    forall i :: 0 <= i < |layers| ==> OneLeftPerRight(layers[i].terms) && |layers[i].terms| <= U64_MAX
  }

  lemma {:induction false} OneLeftRunIsSafe(
    o: Oracle, index: nat, layers: seq<Layer>, trace: seq<Vec>, points: (Vec, Vec), claims: Pair, tr: Transcript)
    requires Chained(layers) && IsTrace(layers, trace) && OneLeftEverywhere(layers)
    ensures SafeRun(o, index, layers, trace, points, claims, tr)
    decreases |layers|
  {
    hide EvalNext, EvalAt, HonestLayer, LayerRun, SafeSwitch, TermWeights, OneLeftPerRight;
    if layers != [] {
      assert StepHolds(layers, trace, 0);
      TailTrace(layers, trace);
      var layer := layers[0];
      var p := HonestLayer(o, false, index, layer, trace[1], points, claims, tr);
      var run := LayerRun(o, layer, p, claims, tr);
      var next := Halves(run.point, layer.nextLog);
      assert OneLeftPerRight(layer.terms);
      if layer.nextLog > 0 {
        var ph := PhaseOf(layer, trace[1], points, Draw(o, tr));
        OneLeftIsSafe(layer, ph.q, next.0, EvalAt(ph.w, next.0));
      }
      assert OneLeftEverywhere(layers[1..]);
      OneLeftRunIsSafe(o, index + 1, layers[1..], trace[1..], next, Openings(trace[1], next), AfterMessage(run.tr, p.nextClaims));
    }
  }

  /** If every layer reads each right wire with one left wire only, dense proofs are accepted for all draws. */
  lemma OneLeftCompleteness(o: Oracle, layers: seq<Layer>, trace: seq<Vec>, root: Bytes, tr: Transcript)
    requires Chained(layers) && layers != [] && IsTrace(layers, trace) && AllZero(trace[0])
    requires OneLeftEverywhere(layers)
    ensures var (proof, t) := Prove(o, true, layers, trace, root, tr);
            Verify(o, layers, proof, root, tr) == (Ok(proof.inputClaims), t) && TrueClaims(trace[|layers|], proof.inputClaims)
  {
    hide EvalNext, Verify, Prove, TrueClaims, SafeRun, OneLeftEverywhere;
    var g := OutputPoint(o, layers, root, tr);
    OneLeftRunIsSafe(o, 0, layers, trace, (g, g), (0, 0), AfterOutputPoint(layers, root, tr));
    DenseCompleteness(o, layers, trace, root, tr);
  }

  // ----- the condition is needed -----

  /** Two terms that read the right wire 0; the outputs of the input (1, 1) vanish. */
  function TwiceListed(): Layer
  {
    Layer(0, 1, [QuadTerm(0, 0, 0, 1), QuadTerm(0, 1, 0, Sub(0, 1))])
  }

  function NoPoint(): Vec { [] }

  function AlwaysOne(): Oracle { stream => ToBigEndian(1, 32) }

  lemma DrawsOne(t: Transcript)
    ensures Draw(AlwaysOne(), t) == 1
  {
    hide FromBigEndian, ToBigEndian, Pow256, Hashed;
    assert Pow256(32) == 256 * Pow256(31) by { PowerNext(31); }
    EncodingRoundTrip(1, 32);
    Canonical(1);
  }

  lemma TwiceListedTrace()
    ensures TwiceListed().Valid() && Chained([TwiceListed()])
    ensures IsTrace([TwiceListed()], [[0], [1, 1]])
  {
    var layer := TwiceListed();
    assert Pow2(0) == 1 && Pow2(1) == 2;
    TwiceListedOutput();
    hide EvalNext;
    assert StepHolds([layer], [[0], [1, 1]], 0);
  }

  lemma TwiceListedValues()
    requires TwiceListed().Valid()
    ensures var terms := TwiceListed().terms;
            && Outs(terms) == [0, 0]
            && AllBelow(Lefts(terms), 2) && AllBelow(Rights(terms), 2)
            && TermValues(terms, [1, 1]) == [1, Sub(0, 1)]
  {
    Units(1); Units(Sub(0, 1));
  }

  lemma TwiceListedOutput()
    requires TwiceListed().Valid()
    ensures EvalNext(TwiceListed(), [1, 1]) == [0]
  {
    assert Pow2(0) == 1 && Pow2(1) == 2;
    TwiceListedValues();
    hide Scatter, TermValues;
    SubAdd(0, 1);
    AddComm(1, Sub(0, 1));
    TwoInOneBucket(0, 1, Sub(0, 1), 1);
  }

  lemma TwoInOneBucket(k: nat, x: Fp, y: Fp, n: nat)
    requires k < n
    ensures Scatter([k], [x], n) == Zeros(n)[k := x]
    ensures Scatter([k, k], [x, y], n) == Zeros(n)[k := Add(x, y)]
  {
    Units(x);
    assert [k][..0] == [] && [x][..0] == [] && [k, k][..1] == [k] && [x, y][..1] == [x];
  }

  lemma ListedOnce(x: Fp)
    ensures Active([0], [x], 2) == [0] && Count([0], 0) == 1
  {
    assert [0][..0] == [] && [x][..0] == [];
  }

  lemma ActiveTwice(x: Fp, y: Fp)
    requires Scatter([0], [x], 2)[0] == 0
    ensures Active([0, 0], [x, y], 2) == [0, 0] && Count([0, 0], 0) == 2
  {
    hide Scatter;
    var keys: seq<nat>, vals: Vec := [0, 0], [x, y];
    var one: seq<nat>, first: Vec := [0], [x];
    ListedOnce(x);
    assert keys[..1] == one && vals[..1] == first;
    assert Active(keys, vals, 2) == Active(one, first, 2) + [0];
    assert Count(keys, 0) == Count(one, 0) + 1;
  }

  /** With the left challenge 1 the first term contributes nothing, so the dense prover lists wire 0 twice. */
  lemma ListedTwice(x: Fp, y: Fp)
    requires x == 0 && y != 0
    ensures Scatter([0, 0], [x, y], 2) == [y, 0] && DenseTable([0, 0], [x, y], 2)[0] == Mul(2, y)
  {
    TwoInOneBucket(0, x, y, 2);
    Canonical(2);
    hide R, Scatter, DenseTable;
    Units(y);
    ActiveTwice(x, y);
    TableAt([0, 0], [x, y], 2, 0);
  }

  lemma TwiceListedWeights()
    ensures TermWeights(TwiceListed().terms, NoPoint(), NoPoint(), 1) == [1, Sub(0, 1)]
  {
    hide R;
    Units(1); Units(0); Units(Sub(0, 1));
  }

  lemma TwiceListedOrder(x: Fp, y: Fp)
    ensures var keys := Pairs(TwiceListed().terms);
            && Order(keys) == [(0, 0), (1, 0)]
            && Total(keys, [x, y], (0, 0)) == x && Total(keys, [x, y], (1, 0)) == y
  {
    var keys := Pairs(TwiceListed().terms);
    var k0: (nat, nat), k1: (nat, nat) := (0, 0), (1, 0);
    assert keys == [k0] + [k1];
    assert keys[..1] == [k0] && [x, y][..1] == [x];
    OrderOfOne(k0);
    assert k1 !in [k0];
    TotalOfOne(k0, x, k0);
    TotalOfOne(k0, x, k1);
    Units(y);
  }

  lemma OrderOfOne(k: (nat, nat))
    ensures Order([k]) == [k]
  {
    var s := [k];
    assert |s[..0]| == 0;
    assert Order(s[..0]) == s[..0];
  }

  lemma TotalOfOne(k: (nat, nat), x: Fp, k': (nat, nat))
    ensures Total([k], [x], k') == if k == k' then x else 0
  {
    var s := [k];
    assert |s[..0]| == 0;
    Units(x);
  }

  /** Grouping leaves the two terms as they are. */
  lemma TwiceListedTerms(q: Vec)
    requires q == [1, Sub(0, 1)]
    ensures Compressed(TwiceListed().terms, q) == [RoundTerm(0, 0, 1), RoundTerm(1, 0, Sub(0, 1))]
  {
    hide R, Order, Total;
    MinusOneNonzero();
    var ts := GroupedTerms(TwiceListed().terms, q);
    TwiceListedOrder(1, Sub(0, 1));
    assert ts == [RoundTerm(0, 0, 1), RoundTerm(1, 0, Sub(0, 1))];
    NothingDropped(ts);
  }

  lemma TwiceListedTables(q: Vec)
    requires TwiceListed().Valid()
    requires q == TermWeights(TwiceListed().terms, NoPoint(), NoPoint(), 1)
    ensures RightCoeffs(TwiceListed(), q, [1], 1) == [Sub(0, 1), 0]
    ensures DenseRightCoeffs(TwiceListed(), q, [1], 1)[0] == Mul(2, Sub(0, 1))
  {
    MinusOneNonzero();
    TwiceListedWeights();
    hide R, TermWeights, Scatter, DenseTable, Compressed;
    var layer, m := TwiceListed(), Sub(0, 1);
    TwiceListedTerms(q);
    LeftWeights();
    var one: Vec := [1];
    Units(1); Units(0); Units(m);
    var ts := [RoundTerm(0, 0, 1), RoundTerm(1, 0, m)];
    assert ListRights(ts) == [0, 0] && ListRightVals(ts, one, 1) == [0, m];
    assert Rights(layer.terms) == [0, 0] && RightTerms(layer.terms, q, one, 1) == [0, m];
    assert Pow2(1) == 2;
    ListedTwice(0, m);
  }

  lemma NothingDropped(ts: seq<RoundTerm>)
    requires |ts| == 2 && ts[0].q != 0 && ts[1].q != 0
    ensures Nonzero(ts) == ts
  {
    assert ts[..1] == [ts[0]] && |[ts[0]][..0]| == 0;
  }

  lemma LeftWeights()
    ensures PrefixEq(0, [1]) == 0 && PrefixEq(1, [1]) == 1
  {
    var one: Vec := [1];
    assert one[1..] == [];
    Units(1); Units(0);
  }

  lemma MinusOneNonzero()
    ensures Sub(0, 1) != 0
  {
    SmallDistinct(0, 1);
    if Sub(0, 1) == 0 { SubZero(0, 1); }
  }

  lemma PairRound(a: Vec, w: Vec)
    requires |a| == 2 && w == [1, 1]
    ensures RoundPoly(a, w, 0) == a[0]
  {
    AtZero(a[0], a[1]);
    AtZero(1, 1);
    assert Fold(a, 0) == [a[0]] && Fold(w, 0) == [1];
    DotSingle(a[0], 1);
    Units(a[0]);
  }

  /** A satisfied circuit and draws for which the verifier rejects the dense prover's proof. */
  lemma DenseProofRejected(root: Bytes, tr: Transcript)
    ensures Chained([TwiceListed()]) && IsTrace([TwiceListed()], [[0], [1, 1]])
    ensures var proof := Prove(AlwaysOne(), true, [TwiceListed()], [[0], [1, 1]], root, tr).0;
            Verify(AlwaysOne(), [TwiceListed()], proof, root, tr).0 == Err(Rejected)
  {
    TwiceListedTrace();
    hide R, EvalNext, QTilde, Lagrange, RoundPoly, LeftCoeffs, TermWeights, ProofPads, CircuitPads, RoundPads,
         DenseRightCoeffs, RightCoeffs;
    var o, layer, w: Vec := AlwaysOne(), TwiceListed(), [1, 1];
    var t := AfterOutputPoint([layer], root, tr);
    assert OutputPoint(o, [layer], root, tr) == NoPoint();
    var p := HonestLayer(o, true, 0, layer, w, (NoPoint(), NoPoint()), (0, 0), t);
    assert Prove(o, true, [layer], [[0], w], root, tr).0.layers[0] == p;
    LastRoundIsWrong(t);
    assert VerifyLayer(o, layer, p, (NoPoint(), NoPoint()), (0, 0), t).0 == Err(Rejected);
  }

  lemma LastRoundIsWrong(t: Transcript)
    requires TwiceListed().Valid()
    ensures var p := HonestLayer(AlwaysOne(), true, 0, TwiceListed(), [1, 1], (NoPoint(), NoPoint()), (0, 0), t);
            VerifyLayer(AlwaysOne(), TwiceListed(), p, (NoPoint(), NoPoint()), (0, 0), t).0 == Err(Rejected)
  {
    TwiceListedTrace();
    MinusOneNonzero();
    hide Draw, AlwaysOne, R, EvalNext, QTilde, Lagrange, RoundPoly, LeftCoeffs, TermWeights, RoundPads,
         DenseRightCoeffs, RightCoeffs, FoldAll;
    var o, layer, w: Vec, none: (Vec, Vec) := AlwaysOne(), TwiceListed(), [1, 1], (NoPoint(), NoPoint());
    forall s: Transcript ensures Draw(o, s) == 1 { DrawsOne(s); }
    var pads, ph := RoundPads(o, 0, 2), PhaseOf(layer, w, none, 1);
    var tr, claim := Drawn(t), Combine(1, (0, 0));
    assert Pow2(0) == 1 && Pow2(1) == 2;
    var zero: Vec := [0];
    TwiceListedOutput();
    ZeroOpenings(zero, none);
    FirstClaimIsTrue(layer, w, none, 1);
    HonestClaim(o, ph, pads[..1], claim, tr);
    DenseRoundsAgree(o, ph, pads[..1], claim, tr);
    var sent := HonestRounds(o, ph, true, pads, claim, tr);
    var run1 := RunRounds(o, sent[..1], pads[..1], claim, tr);
    var run := RunRounds(o, sent, pads, claim, tr);
    assert sent[..1] == HonestRounds(o, ph, true, pads[..1], claim, tr);
    var one: Vec := [1];
    assert pads[..1] == [pads[0]] && sent[..1] == [sent[0]];
    assert run1.point == one && run.point == [1, 1];
    var d, b := ProverRound(ph, true, one, 0), ph.Round(one, 0);
    SubAdd(d, pads[1].0);
    LagrangeAtNodes(d, Sub(run1.claim, d), Add(sent[1].1, pads[1].1));
    assert run.claim == Sub(ph.Claim(one), d);
    ph.RoundHalves(one);
    ph.ClaimStep(one, 1);
    assert one + [1] == run.point;
    AddSubLeft(b, ph.Round(one, 1));
    assert ph.Claim(run.point) == Sub(ph.Claim(one), b);
    DifferentMessages(ph);
    if run.claim == ph.Claim(run.point) {
      SubLeftSub(ph.Claim(one), d);
      SubLeftSub(ph.Claim(one), b);
      assert false;
    }
    LastClaimIsExpected(layer, w, none, 1, run.point);
    var p := HonestLayer(o, true, 0, layer, w, none, (0, 0), t);
    var values := Openings(w, Halves(run.point, 1));
    SubAdd(values.0, p.claimPads.0);
    SubAdd(values.1, p.claimPads.1);
  }

  lemma DifferentMessages(ph: Phase)
    requires TwiceListed().Valid()
    requires ph == PhaseOf(TwiceListed(), [1, 1], (NoPoint(), NoPoint()), 1)
    ensures ProverRound(ph, true, [1], 0) != ph.Round([1], 0)
  {
    MinusOneNonzero();
    hide R, Scatter, DenseRightCoeffs, RightCoeffs, RoundPoly, TermWeights;
    var w: Vec, one: Vec := [1, 1], [1];
    assert one[..1] == one && one[1..] == [];
    AtOne(1, 1);
    assert EvalAt(w, one) == 1 by {
      assert Fold(w, 1) == [1];
    }
    TwiceListedTables(ph.q);
    PairRound(DenseRightCoeffs(ph.layer, ph.q, one, 1), w);
    PairRound(RightCoeffs(ph.layer, ph.q, one, 1), w);
    DoubleIsDifferent(Sub(0, 1));
  }

  lemma DoubleIsDifferent(x: Fp)
    requires x != 0
    ensures Mul(2, x) != x
  {
    SmallDistinct(2, 1);
    hide R;
    Units(x);
    if Mul(2, x) == x {
      MulComm(2, x);
      MulComm(1, x);
      CancelMul(2, 1, x);
    }
  }
}
