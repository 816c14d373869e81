/** Both provers' loops over layers and rounds (sumcheck.rs), against `Sumcheck.Prove`. */
module Provers {
  import opened Wrappers
  import opened Field
  import opened Bits
  import opened Multilinear
  import opened Circuits
  import opened FieldBytes
  import opened Transcripts
  import opened Rounds
  import opened LayerSums
  import opened LayerRounds
  import opened Sumcheck
  import opened SumcheckVerifier
  import opened DenseProver
  import opened SparseRounds
  import opened SumcheckTheorems

  /** One round message: masked by its pad, absorbed, answered by a challenge. */
  method SendRound(p0: Fp, p2: Fp, pad: Pair, claim: Fp, channel: CoprocessorChannel)
    returns (sent: Pair, next: Fp, challenge: Fp)
    modifies channel
    ensures sent == (Sub(p0, pad.0), Sub(p2, pad.1))
    ensures var t := AfterMessage(old(channel.State()), sent);
            var m := Message(sent, pad, claim);
            && challenge == Draw(channel.oracle, t) && channel.State() == Drawn(t)
            && next == Lagrange(m.0, m.1, m.2, challenge)
  {
    hide Lagrange, MixFp;
    var p1 := Sub(claim, p0);
    SubAddLeft(claim, p0);
    sent := (Sub(p0, pad.0), Sub(p2, pad.1));
    SubAdd(p0, pad.0);
    SubAdd(p2, pad.1);
    channel.MixElement(sent.0);
    channel.MixElement(sent.1);
    challenge := channel.DrawFp();
    next := Lagrange(p0, p1, p2, challenge);
  }

  lemma HonestRoundsSnoc(o: Oracle, ph: Phase, dense: bool, pads: seq<Pair>, k: nat, claim: Fp, tr: Transcript)
    requires ph.Valid() && k < |pads| <= 2 * ph.Size()
    ensures var sent := HonestRounds(o, ph, dense, pads[..k], claim, tr);
            HonestRounds(o, ph, dense, pads[..k + 1], claim, tr) ==
              sent + [HonestMessage(ph, dense, RunRounds(o, sent, pads[..k], claim, tr).point, pads[k])]
  {
    assert pads[..k + 1][..k] == pads[..k];
  }

  lemma RunRoundsSnoc(o: Oracle, rounds: seq<Pair>, sent: Pair, pads: seq<Pair>, k: nat, claim: Fp, tr: Transcript)
    requires |rounds| == k < |pads|
    ensures var run := RunRounds(o, rounds, pads[..k], claim, tr);
            var m := Message(sent, pads[k], run.claim);
            var t := AfterMessage(run.tr, sent);
            RunRounds(o, rounds + [sent], pads[..k + 1], claim, tr) ==
              Run(Lagrange(m.0, m.1, m.2, Draw(o, t)), run.point + [Draw(o, t)], Drawn(t))
  {
    hide Lagrange, Message;
    assert pads[..k + 1][..k] == pads[..k] && (rounds + [sent])[..k] == rounds;
  }

  /** The rounds of one layer with the dense state. */
  method DenseRounds(layer: Layer, w: Vec, points: (Vec, Vec), alpha: Fp, pads: seq<Pair>, first: Fp, channel: CoprocessorChannel)
    returns (rounds: seq<Pair>, point: Vec, values: Pair)
    requires layer.Valid() && |w| == Pow2(layer.nextLog) && |points.0| == |points.1| == layer.outLog
    requires |pads| == 2 * layer.nextLog
    modifies channel
    ensures rounds == HonestRounds(channel.oracle, PhaseOf(layer, w, points, alpha), true, pads, first, old(channel.State()))
    ensures var run := RunRounds(channel.oracle, rounds, pads, first, old(channel.State()));
            && point == run.point && channel.State() == run.tr
            && values == Openings(w, Halves(point, layer.nextLog))
  {
    hide Lagrange, MixFp, RunRounds, HonestRounds, ProverRound, Message;
    ghost var o, tr := channel.oracle, channel.State();
    var state := new LayerRoundState(layer, w, points, alpha);
    ghost var ph := state.phase;
    var claim := first;
    rounds, point := [], [];
    NoRounds(o, ph, true, pads, first, tr);
    for k := 0 to |pads|
      invariant state.Valid() && fresh(state) && state.phase == ph && state.point == point && |point| == k
      invariant rounds == HonestRounds(o, ph, true, pads[..k], first, tr)
      invariant Run(claim, point, channel.State()) == RunRounds(o, rounds, pads[..k], first, tr)
    {
      HonestRoundsSnoc(o, ph, true, pads, k, first, tr);
      var p0, p2 := state.RoundEvals(k);
      var sent, next, challenge := SendRound(p0, p2, pads[k], claim, channel);
      RunRoundsSnoc(o, rounds, sent, pads, k, first, tr);
      state.AbsorbChallenge(k, challenge);
      claim, point, rounds := next, point + [challenge], rounds + [sent];
    }
    assert pads[..|pads|] == pads;
    values := state.FinalClaims();
  }

  lemma NoRounds(o: Oracle, ph: Phase, dense: bool, pads: seq<Pair>, claim: Fp, tr: Transcript)
    requires ph.Valid()
    ensures |HonestRounds(o, ph, dense, pads[..0], claim, tr)| == 0
    ensures RunRounds(o, [], pads[..0], claim, tr) == Run(claim, [], tr)
  {
  }

  /** One turn of the sparse loop: evaluate, send, absorb. */
  method SparseTurn(state: SparseRoundState, k: nat, pad: Pair, claim: Fp, channel: CoprocessorChannel)
    returns (sent: Pair, next: Fp, challenge: Fp)
    requires state.Valid() && k == |state.point| < 2 * state.size
    modifies channel, state, state.leftCoeff, state.rightCoeff, state.leftValues, state.rightValues
    ensures state.Valid() && state.point == old(state.point) + [challenge]
    ensures state.leftCoeff == old(state.leftCoeff) && state.leftValues == old(state.leftValues)
    ensures state.rightValues == old(state.rightValues)
    ensures state.rightCoeff == old(state.rightCoeff) || fresh(state.rightCoeff)
    ensures var point := old(state.point);
            var p0, p2 := ProverRound(state.phase, false, point, 0), ProverRound(state.phase, false, point, 2);
            var t := AfterMessage(old(channel.State()), sent);
            var m := Message(sent, pad, claim);
            && sent == (Sub(p0, pad.0), Sub(p2, pad.1))
            && challenge == Draw(channel.oracle, t) && channel.State() == Drawn(t)
            && next == Lagrange(m.0, m.1, m.2, challenge)
  {
    hide Lagrange, MixFp, ProverRound, Message;
    var p0, p2 := state.RoundEvals(k);
    sent, next, challenge := SendRound(p0, p2, pad, claim, channel);
    state.AbsorbChallenge(k, challenge);
  }

  /** The rounds of one layer with the sorted-sparse state. */
  method SparseRoundsLoop(layer: Layer, w: Vec, points: (Vec, Vec), alpha: Fp, pads: seq<Pair>, first: Fp, channel: CoprocessorChannel)
    returns (rounds: seq<Pair>, point: Vec, values: Pair)
    requires layer.Valid() && |w| == Pow2(layer.nextLog) && |points.0| == |points.1| == layer.outLog
    requires |pads| == 2 * layer.nextLog
    modifies channel
    ensures rounds == HonestRounds(channel.oracle, PhaseOf(layer, w, points, alpha), false, pads, first, old(channel.State()))
    ensures var run := RunRounds(channel.oracle, rounds, pads, first, old(channel.State()));
            && point == run.point && channel.State() == run.tr
            && values == Openings(w, Halves(point, layer.nextLog))
  {
    hide Lagrange, MixFp, RunRounds, HonestRounds, ProverRound, Message;
    ghost var o, tr := channel.oracle, channel.State();
    var state := new SparseRoundState(layer, w, points, alpha);
    ghost var ph := state.phase;
    var claim := first;
    rounds, point := [], [];
    NoRounds(o, ph, false, pads, first, tr);
    for k := 0 to |pads|
      invariant state.Valid() && fresh(state) && state.phase == ph && state.point == point && |point| == k
      invariant fresh(state.leftCoeff) && fresh(state.rightCoeff) && fresh(state.leftValues) && fresh(state.rightValues)
      invariant rounds == HonestRounds(o, ph, false, pads[..k], first, tr)
      invariant Run(claim, point, channel.State()) == RunRounds(o, rounds, pads[..k], first, tr)
    {
      HonestRoundsSnoc(o, ph, false, pads, k, first, tr);
      var sent, next, challenge := SparseTurn(state, k, pads[k], claim, channel);
      RunRoundsSnoc(o, rounds, sent, pads, k, first, tr);
      claim, point, rounds := next, point + [challenge], rounds + [sent];
    }
    assert pads[..|pads|] == pads;
    values := state.FinalClaims();
  }

  /** `prove_circuit_inner` and its sorted-sparse twin: one proof per layer, from the outputs down. */
  method ProveInner(circuit: Circuit, dense: bool, trace: seq<Vec>, root: Bytes, channel: CoprocessorChannel) returns (proof: CircuitProof)
    requires circuit.Valid() && Shaped(circuit.layers, trace)
    modifies channel
    ensures (proof, channel.State()) == Prove(channel.oracle, dense, circuit.layers, trace, root, old(channel.State()))
  {
    hide HonestRounds, RunRounds, MixFp, MixDomain, DrawPoint, RoundPads, ClaimPads, HonestLayers, Following,
         TermWeights, EvalAt;
    var layers, o := circuit.layers, channel.oracle;
    MixCircuitDomain(layers, root, channel);
    var g := channel.DrawMany(layers[0].outLog);
    var points, claims: Pair, proofs: seq<LayerProof> := (g, g), (0, 0), [];
    ghost var start := channel.State();
    ghost var all := HonestLayers(o, dense, 0, layers, trace, points, claims, start);
    StartFollowing(o, dense, layers, trace, points, claims, start);
    for i := 0 to |layers|
      invariant Chained(layers[i..]) && Shaped(layers[i..], trace[i..])
      invariant |points.0| == |points.1|
      invariant i < |layers| ==> |points.0| == layers[i].outLog
      invariant Following(o, dense, i, layers, trace, points, claims, channel.State(), proofs, all)
    {
      var layer, w := layers[i], trace[i + 1];
      assert layers[i..][0] == layer && layers[i..][1..] == layers[i + 1..];
      assert trace[i..][1] == w && trace[i..][1..] == trace[i + 1..];
      assert |trace[i..][0 + 1]| == Pow2(layers[i..][0].nextLog);
      TailShape(layers[i..], trace[i..]);
      ghost var t := channel.State();
      var alpha := channel.DrawFp();
      var pads := RoundPads(o, i, 2 * layer.nextLog);
      var rounds: seq<Pair>, point: Vec, values: Pair;
      if dense {
        rounds, point, values := DenseRounds(layer, w, points, alpha, pads, Combine(alpha, claims), channel);
      } else {
        rounds, point, values := SparseRoundsLoop(layer, w, points, alpha, pads, Combine(alpha, claims), channel);
      }
      var mask := ClaimPads(o, i);
      var masked := Masked(values, mask);
      var p := LayerProof(rounds, pads, mask, masked);
      assert p == HonestLayer(o, dense, i, layer, w, points, claims, t);
      channel.MixElement(masked.0);
      channel.MixElement(masked.1);
      NextFollows(o, dense, i, layers, trace, points, claims, t, proofs, all);
      points, claims, proofs := Halves(point, layer.nextLog), values, proofs + [p];
    }
    EndFollowing(o, dense, layers, trace, points, claims, channel.State(), proofs, all);
    proof := CircuitProof(proofs, InputClaims(points, claims));
  }

  /** What has been sent so far, followed by an honest run from here, is the whole honest run. */
  ghost predicate Following(o: Oracle, dense: bool, i: nat, layers: seq<Layer>, trace: seq<Vec>, points: (Vec, Vec), claims: Pair, tr: Transcript,
                            proofs: seq<LayerProof>, all: (seq<LayerProof>, InputClaims, Transcript))
    requires i <= |layers| && |trace| == |layers| + 1
  {
    && Chained(layers[i..]) && Shaped(layers[i..], trace[i..])
    && var rest := HonestLayers(o, dense, i, layers[i..], trace[i..], points, claims, tr);
       (proofs + rest.0, rest.1, rest.2) == all
  }

  lemma StartFollowing(o: Oracle, dense: bool, layers: seq<Layer>, trace: seq<Vec>, points: (Vec, Vec), claims: Pair, tr: Transcript)
    requires Chained(layers) && Shaped(layers, trace)
    ensures layers[0..] == layers && trace[0..] == trace
    ensures Following(o, dense, 0, layers, trace, points, claims, tr, [], HonestLayers(o, dense, 0, layers, trace, points, claims, tr))
  {
    hide HonestLayers;
    assert layers[0..] == layers && trace[0..] == trace;
    var all := HonestLayers(o, dense, 0, layers, trace, points, claims, tr);
    assert [] + all.0 == all.0;
  }

  lemma EndFollowing(o: Oracle, dense: bool, layers: seq<Layer>, trace: seq<Vec>, points: (Vec, Vec), claims: Pair, tr: Transcript,
                     proofs: seq<LayerProof>, all: (seq<LayerProof>, InputClaims, Transcript))
    requires |trace| == |layers| + 1 && Following(o, dense, |layers|, layers, trace, points, claims, tr, proofs, all)
    ensures all == (proofs, InputClaims(points, claims), tr)
  {
    assert layers[|layers|..] == [];
    assert proofs + [] == proofs;
  }

  lemma HonestLayersStep(o: Oracle, dense: bool, i: nat, layers: seq<Layer>, trace: seq<Vec>, points: (Vec, Vec), claims: Pair, tr: Transcript)
    requires Chained(layers) && Shaped(layers, trace) && layers != []
    ensures |trace[1]| == Pow2(layers[0].nextLog) && Chained(layers[1..]) && Shaped(layers[1..], trace[1..])
    ensures var layer, w := layers[0], trace[1];
            var p := HonestLayer(o, dense, i, layer, w, points, claims, tr);
            var run := LayerRun(o, layer, p, claims, tr);
            var next := Halves(run.point, layer.nextLog);
            var rest := HonestLayers(o, dense, i + 1, layers[1..], trace[1..], next, Openings(w, next), AfterMessage(run.tr, p.nextClaims));
            HonestLayers(o, dense, i, layers, trace, points, claims, tr) == ([p] + rest.0, rest.1, rest.2)
  {
    hide HonestLayer, LayerRun, EvalAt;
    assert |trace[0 + 1]| == Pow2(layers[0].nextLog);
    TailShape(layers, trace);
  }

  lemma NextFollows(o: Oracle, dense: bool, i: nat, layers: seq<Layer>, trace: seq<Vec>, points: (Vec, Vec), claims: Pair, tr: Transcript,
                    proofs: seq<LayerProof>, all: (seq<LayerProof>, InputClaims, Transcript))
    requires i < |layers| && |trace| == |layers| + 1 && Following(o, dense, i, layers, trace, points, claims, tr, proofs, all)
    requires layers[i].Valid() && |trace[i + 1]| == Pow2(layers[i].nextLog)
    ensures var layer, w := layers[i], trace[i + 1];
            var p := HonestLayer(o, dense, i, layer, w, points, claims, tr);
            var run := LayerRun(o, layer, p, claims, tr);
            var next := Halves(run.point, layer.nextLog);
            Following(o, dense, i + 1, layers, trace, next, Openings(w, next), AfterMessage(run.tr, p.nextClaims), proofs + [p], all)
  {
    hide HonestLayer, LayerRun, EvalAt, HonestLayers;
    assert layers[i..][0] == layers[i] && layers[i..][1..] == layers[i + 1..];
    assert trace[i..][1] == trace[i + 1] && trace[i..][1..] == trace[i + 1..];
    HonestLayersStep(o, dense, i, layers[i..], trace[i..], points, claims, tr);
    var p := HonestLayer(o, dense, i, layers[i], trace[i + 1], points, claims, tr);
    var run := LayerRun(o, layers[i], p, claims, tr);
    var next := Halves(run.point, layers[i].nextLog);
    var rest := HonestLayers(o, dense, i + 1, layers[i + 1..], trace[i + 1..], next, Openings(trace[i + 1], next), AfterMessage(run.tr, p.nextClaims));
    assert proofs + ([p] + rest.0) == (proofs + [p]) + rest.0;
  }

  /** `prove_circuit`: the layer values are checked first. */
  method ProveCircuit(circuit: Circuit, trace: seq<Vec>, root: Bytes, channel: CoprocessorChannel) returns (r: Result<CircuitProof, SumcheckError>)
    requires circuit.Valid()
    modifies channel
    ensures r.Ok? <==> IsTrace(circuit.layers, trace) && AllZero(trace[0])
    ensures r.Ok? ==> (r.value, channel.State()) == Prove(channel.oracle, true, circuit.layers, trace, root, old(channel.State()))
    ensures r.Err? ==> channel.State() == old(channel.State())
    ensures IsTrace(circuit.layers, trace) && !AllZero(trace[0]) ==> r == Err(UnsatisfiedCircuit)
    ensures !IsTrace(circuit.layers, trace) ==>
              r.error.CircuitFailure? && IsFirstFault(circuit.layers, trace, r.error.error)
  {
    hide IsFirstFault;
    var ok := circuit.IsSatisfied(trace);
    if ok.Err? {
      return Err(CircuitFailure(ok.error));
    }
    if !ok.value {
      return Err(UnsatisfiedCircuit);
    }
    var proof := ProveInner(circuit, true, trace, root, channel);
    return Ok(proof);
  }

  /** `prove_evaluated_circuit` and its sorted-sparse form: only widths and outputs are checked
      (`validate_evaluated_witness`). */
  method ProveEvaluatedCircuit(circuit: Circuit, dense: bool, trace: seq<Vec>, root: Bytes, channel: CoprocessorChannel)
    returns (r: Result<CircuitProof, SumcheckError>)
    requires circuit.Valid()
    modifies channel
    ensures r.Ok? <==> FullShape(circuit.layers, trace) && AllZero(trace[0])
    ensures r.Ok? ==>
              && Shaped(circuit.layers, trace)
              && (r.value, channel.State()) == Prove(channel.oracle, dense, circuit.layers, trace, root, old(channel.State()))
    ensures r.Err? ==> channel.State() == old(channel.State())
    ensures FullShape(circuit.layers, trace) && !AllZero(trace[0]) ==> r == Err(UnsatisfiedCircuit)
    ensures !FullShape(circuit.layers, trace) ==> r.error.CircuitFailure? && IsShapeFault(circuit.layers, trace, r.error.error)
  {
    var layers := circuit.layers;
    if |trace| != |layers| + 1 {
      return Err(CircuitFailure(WrongWitnessDepth(|layers| + 1, |trace|)));
    }
    for i := 0 to |layers|
      invariant forall j :: 0 <= j < i ==> |trace[j]| == Pow2(layers[j].outLog)
    {
      if |trace[i]| != Pow2(layers[i].outLog) {
        return Err(CircuitFailure(WrongWitnessWidth(i, Pow2(layers[i].outLog), |trace[i]|)));
      }
    }
    var inputLog := layers[|layers| - 1].nextLog;
    if |trace[|layers|]| != Pow2(inputLog) {
      return Err(CircuitFailure(WrongWitnessWidth(|layers|, Pow2(inputLog), |trace[|layers|]|)));
    }
    if exists k :: 0 <= k < |trace[0]| && trace[0][k] != 0 {
      return Err(UnsatisfiedCircuit);
    }
    forall i | 0 <= i < |layers| ensures |trace[i + 1]| == Pow2(layers[i].nextLog) {
      if i + 1 < |layers| {
        assert |trace[i + 1]| == Pow2(layers[i + 1].outLog);
      }
    }
    var proof := ProveInner(circuit, dense, trace, root, channel);
    return Ok(proof);
  }

  function Width(layers: seq<Layer>, i: nat): nat
    requires layers != [] && i <= |layers|
  {
    Pow2(if i < |layers| then layers[i].outLog else InputLog(layers))
  }

  /** The error names the depth, or the first layer of the wrong width. */
  ghost predicate IsShapeFault(layers: seq<Layer>, trace: seq<Vec>, e: CircuitError)
    requires layers != []
  {
    if |trace| != |layers| + 1 then e == WrongWitnessDepth(|layers| + 1, |trace|)
    else
      && e.WrongWitnessWidth? && e.layer <= |layers|
      && e.expected == Width(layers, e.layer) != e.actual == |trace[e.layer]|
      && forall j :: 0 <= j < e.layer ==> |trace[j]| == Width(layers, j)
  }

  ghost predicate FullShape(layers: seq<Layer>, trace: seq<Vec>)
  {
    && |trace| == |layers| + 1 && layers != []
    && (forall i :: 0 <= i < |layers| ==> |trace[i]| == Pow2(layers[i].outLog))
    && |trace[|layers|]| == Pow2(InputLog(layers))
  }

  /** Prover and verifier end to end: for any channel both start from, the sorted-sparse proof of an evaluated input with
      zero outputs is accepted, with both channels in the same state. */
  method ProveThenVerify(circuit: Circuit, input: Vec, root: Bytes, prover: CoprocessorChannel, verifier: CoprocessorChannel)
    returns (r: Result<InputClaims, SumcheckError>)
    requires circuit.Valid() && |input| == Pow2(InputLog(circuit.layers))
    requires prover != verifier && prover.oracle == verifier.oracle && prover.State() == verifier.State()
    requires AllZero(Evaluate(circuit.layers, input)[0])
    modifies prover, verifier
    ensures r.Ok? && TrueClaims(input, r.value)
    ensures prover.State() == verifier.State()
  {
    hide Verify, Prove, Evaluate, EvalNext, TrueClaims, AllZero;
    var layers := circuit.layers;
    var trace := circuit.EvaluateInput(input);
    TracesAreEvaluations(layers, trace.value);
    Completeness(prover.oracle, layers, trace.value, root, prover.State());
    var proof := ProveInner(circuit, false, trace.value, root, prover);
    r := VerifyCircuit(circuit, proof, root, verifier);
  }
}
