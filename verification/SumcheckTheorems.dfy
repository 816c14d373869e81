/** What the layered sumcheck guarantees: honest proofs are accepted, and an accepted proof of a false statement
    needs a challenge from a small set. */
module SumcheckTheorems {
  import opened Wrappers
  import opened Field
  import opened Vectors
  import opened Bits
  import opened Multilinear
  import opened Circuits
  import opened FieldBytes
  import opened Transcripts
  import opened Rounds
  import opened LayerSums
  import opened LayerRounds
  import opened Sumcheck

  /** Input claims that are the multilinear values of the input at both points. */
  ghost predicate TrueClaims(input: Vec, ic: InputClaims)
  {
    |input| == Pow2(|ic.points.0|) == Pow2(|ic.points.1|) && ic.values == Openings(input, ic.points)
  }

  // ----- completeness -----

  lemma HonestRoundsPrefix(o: Oracle, ph: Phase, pads: seq<Pair>, claim: Fp, tr: Transcript)
    requires ph.Valid() && 0 < |pads| <= 2 * ph.Size()
    ensures var k := |pads| - 1;
            HonestRounds(o, ph, false, pads, claim, tr)[..k] == HonestRounds(o, ph, false, pads[..k], claim, tr)
  {
  }

  /** The verifier's running claim follows the true claim through every round of an honest proof. */
  lemma {:induction false} HonestClaim(o: Oracle, ph: Phase, pads: seq<Pair>, claim: Fp, tr: Transcript)
    requires ph.Valid() && |pads| <= 2 * ph.Size() && claim == ph.Claim([])
    ensures var run := RunRounds(o, HonestRounds(o, ph, false, pads, claim, tr), pads, claim, tr);
            run.claim == ph.Claim(run.point)
    decreases |pads|
  {
    hide Lagrange, ProverRound, ph.Claim, ph.Round, ph.Coeffs, ph.Values;
    if pads != [] {
      var k := |pads| - 1;
      HonestClaim(o, ph, pads[..k], claim, tr);
      HonestRoundsPrefix(o, ph, pads, claim, tr);
      var run := RunRounds(o, HonestRounds(o, ph, false, pads[..k], claim, tr), pads[..k], claim, tr);
      TrueProverRound(ph, false, run.point, 0);
      TrueProverRound(ph, false, run.point, 2);
      SubAdd(ph.Round(run.point, 0), pads[k].0);
      SubAdd(ph.Round(run.point, 2), pads[k].1);
      ph.RoundHalves(run.point);
      AddSubLeft(ph.Round(run.point, 0), ph.Round(run.point, 1));
      var c := RunRounds(o, HonestRounds(o, ph, false, pads, claim, tr), pads, claim, tr).point[k];
      ph.RoundDegree(run.point, c);
      ph.ClaimStep(run.point, c);
    }
  }

  lemma AddSubLeft(a: Fp, b: Fp)
    ensures Sub(Add(a, b), a)
       == b
  {
    Same(ZSub(ZAdd(a, b), a),
         b);
    hide *;
    Ring(a, b);
  }

  /** The combined output claims of a layer are the true first claim. */
  lemma FirstClaimIsTrue(layer: Layer, w: Vec, points: (Vec, Vec), alpha: Fp)
    requires layer.Valid() && |w| == Pow2(layer.nextLog) && |points.0| == |points.1| == layer.outLog
    ensures Combine(alpha, Openings(EvalNext(layer, w), points)) == PhaseOf(layer, w, points, alpha).Claim([])
  {
    hide EvalNext, LeftCoeffs;
    PhaseOf(layer, w, points, alpha).FirstClaim();
    LayerSum(layer, w, points.0, points.1, alpha);
  }

  /** After all rounds the true claim is the value the verifier expects for the true openings. */
  lemma LastClaimIsExpected(layer: Layer, w: Vec, points: (Vec, Vec), alpha: Fp, point: Vec)
    requires layer.Valid() && |w| == Pow2(layer.nextLog) && |point| == 2 * layer.nextLog
    ensures var next := Halves(point, layer.nextLog);
            PhaseOf(layer, w, points, alpha).Claim(point) ==
              Expected(layer, points, alpha, next.0, next.1, Openings(w, next))
  {
    hide QTilde, RightCoeffs, LeftCoeffs, TermWeights;
    var ph, next := PhaseOf(layer, w, points, alpha), Halves(point, layer.nextLog);
    ph.LastClaim(point);
    FinalValue(layer, points.0, points.1, alpha, next.0, next.1, EvalAt(w, next.0), EvalAt(w, next.1));
  }

  lemma HonestLayerAccepted(o: Oracle, index: nat, layer: Layer, w: Vec, points: (Vec, Vec), claims: Pair, tr: Transcript)
    requires layer.Valid() && |w| == Pow2(layer.nextLog) && |points.0| == |points.1| == layer.outLog
    requires claims == Openings(EvalNext(layer, w), points)
    ensures var p := HonestLayer(o, false, index, layer, w, points, claims, tr);
            var run := LayerRun(o, layer, p, claims, tr);
            var next := Halves(run.point, layer.nextLog);
            VerifyLayer(o, layer, p, points, claims, tr) ==
              (Ok((next, Openings(w, next))), AfterMessage(run.tr, p.nextClaims))
  {
    hide EvalNext, Expected, HonestRounds, RunRounds;
    var alpha := Draw(o, tr);
    var ph, pads := PhaseOf(layer, w, points, alpha), RoundPads(o, index, 2 * layer.nextLog);
    FirstClaimIsTrue(layer, w, points, alpha);
    HonestClaim(o, ph, pads, Combine(alpha, claims), Drawn(tr));
    var p := HonestLayer(o, false, index, layer, w, points, claims, tr);
    var run := LayerRun(o, layer, p, claims, tr);
    LastClaimIsExpected(layer, w, points, alpha, run.point);
    var values := Openings(w, Halves(run.point, layer.nextLog));
    SubAdd(values.0, p.claimPads.0);
    SubAdd(values.1, p.claimPads.1);
  }

  lemma {:induction false} HonestLayersAccepted(o: Oracle, index: nat, layers: seq<Layer>, trace: seq<Vec>, points: (Vec, Vec), tr: Transcript)
    requires Chained(layers) && IsTrace(layers, trace)
    requires layers != [] ==> |points.0| == |points.1| == layers[0].outLog
    requires layers == [] ==> |trace[0]| == Pow2(|points.0|) && |points.0| == |points.1|
    ensures |trace[0]| == Pow2(|points.0|)
    ensures var claims := Openings(trace[0], points);
            var (ps, ic, t) := HonestLayers(o, false, index, layers, trace, points, claims, tr);
            && VerifyLayers(o, layers, ps, points, claims, tr) == (Ok(ic), t)
            && TrueClaims(trace[|layers|], ic)
    decreases |layers|
  {
    hide EvalNext, HonestLayer, LayerRun, VerifyLayer, EvalAt;
    if layers != [] {
      assert StepHolds(layers, trace, 0);
      TailTrace(layers, trace);
      var claims := Openings(trace[0], points);
      var layer, w := layers[0], trace[1];
      HonestLayerAccepted(o, index, layer, w, points, claims, tr);
      var p := HonestLayer(o, false, index, layer, w, points, claims, tr);
      var run := LayerRun(o, layer, p, claims, tr);
      var next := Halves(run.point, layer.nextLog);
      HonestLayersAccepted(o, index + 1, layers[1..], trace[1..], next, AfterMessage(run.tr, p.nextClaims));
    }
  }

  lemma {:induction false} HonestPads(o: Oracle, index: nat, layers: seq<Layer>, trace: seq<Vec>, points: (Vec, Vec), claims: Pair, tr: Transcript)
    requires Chained(layers) && IsTrace(layers, trace)
    ensures var ps := HonestLayers(o, false, index, layers, trace, points, claims, tr).0;
            forall i :: 0 <= i < |layers| ==>
              ps[i].roundPads == RoundPads(o, index + i, 2 * layers[i].nextLog) && ps[i].claimPads == ClaimPads(o, index + i)
    decreases |layers|
  {
    hide EvalNext, LayerRun, EvalAt, HonestLayer, RoundPads, ClaimPads;
    if layers != [] {
      assert StepHolds(layers, trace, 0);
      TailTrace(layers, trace);
      var p := HonestLayer(o, false, index, layers[0], trace[1], points, claims, tr);
      var run := LayerRun(o, layers[0], p, claims, tr);
      var next := Halves(run.point, layers[0].nextLog);
      var after := AfterMessage(run.tr, p.nextClaims);
      var rest := HonestLayers(o, false, index + 1, layers[1..], trace[1..], next, Openings(trace[1], next), after).0;
      HonestPads(o, index + 1, layers[1..], trace[1..], next, Openings(trace[1], next), after);
      var ps := HonestLayers(o, false, index, layers, trace, points, claims, tr).0;
      assert ps == [p] + rest;
      forall i | 1 <= i < |layers|
        ensures ps[i].roundPads == RoundPads(o, index + i, 2 * layers[i].nextLog) && ps[i].claimPads == ClaimPads(o, index + i)
      {
        assert ps[i] == rest[i - 1] && layers[1..][i - 1] == layers[i] && index + 1 + (i - 1) == index + i;
      }
    }
  }

  lemma {:induction false} PadsMatch(o: Oracle, layers: seq<Layer>, ps: seq<LayerProof>)
    requires |layers| == |ps|
    requires forall i :: 0 <= i < |layers| ==>
               ps[i].roundPads == RoundPads(o, i, 2 * layers[i].nextLog) && ps[i].claimPads == ClaimPads(o, i)
    ensures ProofPads(ps) == CircuitPads(o, layers)
    decreases |layers|
  {
    hide RoundPads, ClaimPads, PadVec;
    if layers != [] {
      var n := |layers| - 1;
      PadsMatch(o, layers[..n], ps[..n]);
    }
  }

  lemma ZeroOpenings(v: Vec, points: (Vec, Vec))
    requires AllZero(v) && |v| == Pow2(|points.0|) == Pow2(|points.1|)
    ensures Openings(v, points) == (0, 0)
  {
    assert v == Zeros(|v|);
    EvalIsWeightedSum(v, points.0);
    EvalIsWeightedSum(v, points.1);
    DotZeros(EqVec(points.0));
    DotZeros(EqVec(points.1));
  }

  /** COMPLETENESS. For every circuit, every satisfied trace and every draw function, the verifier accepts the
      honest proof, ends in the prover's transcript state, and returns claims that are the multilinear values of the
      input at both points. */
  lemma Completeness(o: Oracle, layers: seq<Layer>, trace: seq<Vec>, root: Bytes, tr: Transcript)
    requires Chained(layers) && layers != [] && IsTrace(layers, trace) && AllZero(trace[0])
    ensures var (proof, t) := Prove(o, false, layers, trace, root, tr);
            var ic := proof.inputClaims;
            && Verify(o, layers, proof, root, tr) == (Ok(ic), t)
            && TrueClaims(trace[|layers|], ic)
  {
    hide EvalNext, HonestLayers, VerifyLayers, EvalAt, ProofPads, CircuitPads;
    assert StepHolds(layers, trace, 0);
    var g := OutputPoint(o, layers, root, tr);
    ZeroOpenings(trace[0], (g, g));
    HonestLayersAccepted(o, 0, layers, trace, (g, g), AfterOutputPoint(layers, root, tr));
    HonestPads(o, 0, layers, trace, (g, g), (0, 0), AfterOutputPoint(layers, root, tr));
    PadsMatch(o, layers, Prove(o, false, layers, trace, root, tr).0.layers);
  }

  // ----- soundness -----

  type Triple = (Fp, Fp, Fp)

  function TrueMessage(ph: Phase, point: Vec): Triple
    requires ph.Valid() && |point| <= 2 * ph.Size()
  {
    (ph.Round(point, 0), ph.Round(point, 1), ph.Round(point, 2))
  }

  function ValueAt(m: Triple, x: Fp): Fp { Lagrange(m.0, m.1, m.2, x) }

  /** Round k sends a polynomial other than the true one, and its challenge is a point where the two agree. */
  ghost predicate BadRound(o: Oracle, ph: Phase, rounds: seq<Pair>, pads: seq<Pair>, claim: Fp, tr: Transcript, k: nat)
    requires ph.Valid() && |rounds| == |pads| <= 2 * ph.Size() && k < |rounds|
  {
    var run := RunRounds(o, rounds[..k], pads[..k], claim, tr);
    var sent := Message(rounds[k], pads[k], run.claim);
    var c := Draw(o, AfterMessage(run.tr, rounds[k]));
    sent != TrueMessage(ph, run.point) && ValueAt(sent, c) == ValueAt(TrueMessage(ph, run.point), c)
  }

  /** alpha hides a difference between claimed and true output values. */
  ghost predicate BadAlpha(alpha: Fp, claims: Pair, values: Pair)
  {
    claims != values && Combine(alpha, claims) == Combine(alpha, values)
  }

  /** Two different quadratics agree on at most two challenges. */
  lemma FewBadChallenges(m: Triple, m': Triple, x: Fp, y: Fp, z: Fp)
    requires m != m' && x != y && x != z && y != z
    ensures !(ValueAt(m, x) == ValueAt(m', x) && ValueAt(m, y) == ValueAt(m', y) && ValueAt(m, z) == ValueAt(m', z))
  {
    hide Lagrange;
    if ValueAt(m, x) == ValueAt(m', x) && ValueAt(m, y) == ValueAt(m', y) && ValueAt(m, z) == ValueAt(m', z) {
      var d0, d1, d2 := Sub(m.0, m'.0), Sub(m.1, m'.1), Sub(m.2, m'.2);
      forall c: Fp ensures Lagrange(d0, d1, d2, c) == Sub(ValueAt(m, c), ValueAt(m', c)) {
        LagrangeSub(m.0, m.1, m.2, m'.0, m'.1, m'.2, c);
      }
      Units(ValueAt(m, x)); Units(ValueAt(m, y)); Units(ValueAt(m, z));
      AtMostTwoRoots(d0, d1, d2, x, y, z);
      SubZero(m.0, m'.0); SubZero(m.1, m'.1); SubZero(m.2, m'.2);
    }
  }

  lemma CombineDiff(a: Fp, b: Fp, c: Fp, d: Fp, e: Fp, f: Fp)
    ensures Sub(Sub(Add(Mul(a, c), Mul(Sub(1, a), d)), Add(Mul(a, e), Mul(Sub(1, a), f))), Sub(Add(Mul(b, c), Mul(Sub(1, b), d)), Add(Mul(b, e), Mul(Sub(1, b), f))))
       == Mul(Sub(a, b), Sub(Sub(c, e), Sub(d, f)))
  {
    Same(ZSub(ZSub(ZAdd(ZMul(a, c), ZMul(ZSub(1, a), d)), ZAdd(ZMul(a, e), ZMul(ZSub(1, a), f))), ZSub(ZAdd(ZMul(b, c), ZMul(ZSub(1, b), d)), ZAdd(ZMul(b, e), ZMul(ZSub(1, b), f)))),
         ZMul(ZSub(a, b), ZSub(ZSub(c, e), ZSub(d, f))));
    hide *;
    Ring(a, b, c, d, e, f);
  }

  lemma CombineTail(a: Fp, c: Fp, d: Fp, e: Fp, f: Fp)
    ensures Sub(Add(Mul(a, c), Mul(Sub(1, a), d)), Add(Mul(a, e), Mul(Sub(1, a), f)))
       == Add(Mul(a, Sub(Sub(c, e), Sub(d, f))), Sub(d, f))
  {
    Same(ZSub(ZAdd(ZMul(a, c), ZMul(ZSub(1, a), d)), ZAdd(ZMul(a, e), ZMul(ZSub(1, a), f))),
         ZAdd(ZMul(a, ZSub(ZSub(c, e), ZSub(d, f))), ZSub(d, f)));
    hide *;
    Ring(a, c, d, e, f);
  }

  /** At most one alpha hides a given difference. */
  lemma OneBadAlpha(alpha: Fp, alpha': Fp, claims: Pair, values: Pair)
    requires BadAlpha(alpha, claims, values) && BadAlpha(alpha', claims, values)
    ensures alpha == alpha'
  {
    var (c, d) := claims;
    var (e, f) := values;
    if alpha != alpha' {
      CombineDiff(alpha, alpha', c, d, e, f);
      Units(Combine(alpha, claims)); Units(Combine(alpha', claims)); Units(0);
      NoZeroDivisors(Sub(alpha, alpha'), Sub(Sub(c, e), Sub(d, f)));
      if Sub(alpha, alpha') == 0 { SubZero(alpha, alpha'); }
      CombineTail(alpha, c, d, e, f);
      Units(alpha); Units(Sub(d, f));
      SubZero(d, f);
      Units(Sub(c, e));
      SubZero(c, e);
    }
  }

  /** Without a bad round, a wrong running claim stays wrong. */
  lemma {:induction false} WrongClaimPersists(o: Oracle, ph: Phase, rounds: seq<Pair>, pads: seq<Pair>, claim: Fp, tr: Transcript)
    requires ph.Valid() && |rounds| == |pads| <= 2 * ph.Size()
    requires claim != ph.Claim([])
    requires forall k :: 0 <= k < |rounds| ==> !BadRound(o, ph, rounds, pads, claim, tr, k)
    ensures var run := RunRounds(o, rounds, pads, claim, tr); run.claim != ph.Claim(run.point)
    decreases |rounds|
  {
    hide Lagrange, ph.Claim, ph.Round, ph.Coeffs, ph.Values;
    if rounds != [] {
      var k := |rounds| - 1;
      forall i | 0 <= i < k ensures !BadRound(o, ph, rounds[..k], pads[..k], claim, tr, i) {
        assert rounds[..k][..i] == rounds[..i] && pads[..k][..i] == pads[..i];
        assert !BadRound(o, ph, rounds, pads, claim, tr, i);
      }
      WrongClaimPersists(o, ph, rounds[..k], pads[..k], claim, tr);
      var run := RunRounds(o, rounds[..k], pads[..k], claim, tr);
      var sent := Message(rounds[k], pads[k], run.claim);
      var c := Draw(o, AfterMessage(run.tr, rounds[k]));
      SubAddLeft(run.claim, sent.0);
      ph.RoundHalves(run.point);
      assert sent != TrueMessage(ph, run.point);
      assert !BadRound(o, ph, rounds, pads, claim, tr, k);
      ph.RoundDegree(run.point, c);
      ph.ClaimStep(run.point, c);
    }
  }

  ghost predicate BadLayer(o: Oracle, layer: Layer, p: LayerProof, w: Vec, points: (Vec, Vec), claims: Pair, tr: Transcript)
    requires layer.Valid() && |w| == Pow2(layer.nextLog) && |points.0| == |points.1| == layer.outLog
  {
    var alpha := Draw(o, tr);
    || BadAlpha(alpha, claims, Openings(EvalNext(layer, w), points))
    || (&& |p.rounds| == |p.roundPads| == 2 * layer.nextLog
        && exists k :: 0 <= k < |p.rounds| &&
             BadRound(o, PhaseOf(layer, w, points, alpha), p.rounds, p.roundPads, Combine(alpha, claims), Drawn(tr), k))
  }

  /** An accepted layer without a bad challenge passes wrong claims on as wrong claims. */
  lemma WrongLayerClaims(o: Oracle, layer: Layer, p: LayerProof, w: Vec, points: (Vec, Vec), claims: Pair, tr: Transcript)
    requires layer.Valid() && |w| == Pow2(layer.nextLog) && |points.0| == |points.1| == layer.outLog
    requires claims != Openings(EvalNext(layer, w), points)
    requires VerifyLayer(o, layer, p, points, claims, tr).0.Ok?
    requires !BadLayer(o, layer, p, w, points, claims, tr)
    ensures var (next, values) := VerifyLayer(o, layer, p, points, claims, tr).0.value;
            values != Openings(w, next)
  {
    hide EvalNext, Expected, RunRounds, BadRound, Combine;
    var alpha := Draw(o, tr);
    var ph := PhaseOf(layer, w, points, alpha);
    FirstClaimIsTrue(layer, w, points, alpha);
    WrongClaimPersists(o, ph, p.rounds, p.roundPads, Combine(alpha, claims), Drawn(tr));
    LastClaimIsExpected(layer, w, points, alpha, LayerRun(o, layer, p, claims, tr).point);
  }

  /** Some layer of an accepted run has a bad alpha or a bad round challenge. */
  ghost predicate BadRun(o: Oracle, layers: seq<Layer>, ps: seq<LayerProof>, trace: seq<Vec>, points: (Vec, Vec), claims: Pair, tr: Transcript)
    requires Chained(layers) && IsTrace(layers, trace) && |ps| == |layers|
    requires layers != [] ==> |points.0| == |points.1| == layers[0].outLog
    decreases |layers|
  {
    layers != [] &&
    (assert StepHolds(layers, trace, 0);
     TailTrace(layers, trace);
     || BadLayer(o, layers[0], ps[0], trace[1], points, claims, tr)
     || match VerifyLayer(o, layers[0], ps[0], points, claims, tr)
        case (Err(_), _) => false
        case (Ok((next, values)), t) => BadRun(o, layers[1..], ps[1..], trace[1..], next, values, t))
  }

  lemma {:induction false} WrongClaimsReachInput(o: Oracle, layers: seq<Layer>, ps: seq<LayerProof>, trace: seq<Vec>, points: (Vec, Vec), claims: Pair, tr: Transcript)
    requires Chained(layers) && IsTrace(layers, trace) && |ps| == |layers|
    requires layers != [] ==> |points.0| == |points.1| == layers[0].outLog
    requires |trace[0]| == Pow2(|points.0|) == Pow2(|points.1|)
    requires claims != Openings(trace[0], points)
    requires VerifyLayers(o, layers, ps, points, claims, tr).0.Ok?
    requires !BadRun(o, layers, ps, trace, points, claims, tr)
    ensures var ic := VerifyLayers(o, layers, ps, points, claims, tr).0.value;
            && |trace[|layers|]| == Pow2(|ic.points.0|) == Pow2(|ic.points.1|)
            && ic.values != Openings(trace[|layers|], ic.points)
    decreases |layers|
  {
    hide EvalNext, VerifyLayer, EvalAt, BadLayer;
    if layers != [] {
      assert StepHolds(layers, trace, 0);
      TailTrace(layers, trace);
      WrongLayerClaims(o, layers[0], ps[0], trace[1], points, claims, tr);
      var (next, values) := VerifyLayer(o, layers[0], ps[0], points, claims, tr).0.value;
      var t := VerifyLayer(o, layers[0], ps[0], points, claims, tr).1;
      WrongClaimsReachInput(o, layers[1..], ps[1..], trace[1..], next, values, t);
    }
  }

  /** SOUNDNESS. If the verifier accepts and the returned claims are the true multilinear values of an input whose
      outputs do not vanish at the drawn output point, then in some layer alpha hits its single bad value or
      some round challenge is one of the at most two points where a wrong quadratic meets the true one. */
  lemma Soundness(o: Oracle, layers: seq<Layer>, proof: CircuitProof, input: Vec, root: Bytes, tr: Transcript)
    requires Chained(layers) && layers != [] && |input| == Pow2(InputLog(layers))
    requires var g := OutputPoint(o, layers, root, tr); EvalAt(Evaluate(layers, input)[0], g) != 0
    requires Verify(o, layers, proof, root, tr).0.Ok?
    requires TrueClaims(input, Verify(o, layers, proof, root, tr).0.value)
    ensures var g := OutputPoint(o, layers, root, tr);
            && |proof.layers| == |layers| && IsTrace(layers, Evaluate(layers, input))
            && BadRun(o, layers, proof.layers, Evaluate(layers, input), (g, g), (0, 0), AfterOutputPoint(layers, root, tr))
  {
    hide EvalNext, VerifyLayer, EvalAt, BadLayer, ProofPads, CircuitPads, VerifyLayers, BadRun;
    var trace, g := Evaluate(layers, input), OutputPoint(o, layers, root, tr);
    TracesAreEvaluations(layers, trace);
    assert StepHolds(layers, trace, 0);
    var t := AfterOutputPoint(layers, root, tr);
    if !BadRun(o, layers, proof.layers, trace, (g, g), (0, 0), t) {
      WrongClaimsReachInput(o, layers, proof.layers, trace, (g, g), (0, 0), t);
    }
  }
}
