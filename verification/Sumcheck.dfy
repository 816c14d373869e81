/** The layered sumcheck protocol (sumcheck.rs): what the verifier computes from a proof and a transcript, and what an
    honest prover sends. */
module Sumcheck {
  import opened Wrappers
  import opened Field
  import opened Modulus
  import opened Vectors
  import opened Bits
  import opened Multilinear
  import opened Circuits
  import opened FieldBytes
  import opened Transcripts
  import opened Rounds
  import opened LayerSums
  import opened LayerRounds
  import opened DenseSwitch

  type Pair = (Fp, Fp)

  datatype InputClaims = InputClaims(points: (Vec, Vec), values: Pair)

  datatype LayerProof = LayerProof(rounds: seq<Pair>, roundPads: seq<Pair>, claimPads: (Fp, Fp, Fp), nextClaims: Pair)

  datatype CircuitProof = CircuitProof(layers: seq<LayerProof>, inputClaims: InputClaims)

  datatype SumcheckError =
    | CircuitFailure(error: CircuitError)
    | UnsatisfiedCircuit
    | RoundCountMismatch(expected: nat, actual: nat)
    | LayerCountMismatch(expected: nat, actual: nat)
    | Rejected

  // ----- transcript layout -----

  function MixCircuit(t: Transcript, layers: seq<Layer>): Transcript
  {
    if layers == [] then t
    else
      var n := |layers| - 1;
      MixU64(MixU64(MixCircuit(t, layers[..n]), layers[n].outLog), layers[n].nextLog)
  }

  /** `mix_circuit_domain`. */
  function MixDomain(t: Transcript, layers: seq<Layer>, root: Bytes): Transcript
  {
    var t1 := MixBytes(MixBytes(t, Ascii("eu-id-ec-coproc-sumcheck-v1")), root);
    MixCircuit(MixU64(t1, |layers|), layers)
  }

  function OtpTranscript(layer: nat, kind: string, item: nat): Transcript
  {
    var domain := Ascii("eu-id-ec-coproc-otp-pad-pair-v1");
    var t := MixU64(MixBytes(FromSeed(seq(32, _ => 0), domain), domain), layer);
    MixU64(MixBytes(t, Ascii(kind)), item)
  }

  /** `otp_pad_pair`: two draws from a transcript of its own. */
  function OtpPair(o: Oracle, layer: nat, kind: string, item: nat): Pair
  {
    var t := OtpTranscript(layer, kind, item);
    (Draw(o, t), Draw(o, Drawn(t)))
  }

  function RoundPads(o: Oracle, layer: nat, count: nat): (p: seq<Pair>)
    ensures |p| == count
  {
    seq(count, k requires 0 <= k => OtpPair(o, layer, "P", k))
  }

  function ClaimPads(o: Oracle, layer: nat): (Fp, Fp, Fp)
  {
    var (l, r) := OtpPair(o, layer, "W", 0);
    (l, r, Mul(l, r))
  }

  function Flatten(pads: seq<Pair>): Vec
  {
    if pads == [] then [] else Flatten(pads[..|pads| - 1]) + [pads[|pads| - 1].0, pads[|pads| - 1].1]
  }

  function PadVec(roundPads: seq<Pair>, claimPads: (Fp, Fp, Fp)): Vec
  {
    Flatten(roundPads) + [claimPads.0, claimPads.1, claimPads.2]
  }

  /** `circuit_otp_pad_values`: the pads the circuit fixes. */
  function CircuitPads(o: Oracle, layers: seq<Layer>): Vec
  {
    if layers == [] then []
    else
      var n := |layers| - 1;
      CircuitPads(o, layers[..n]) + PadVec(RoundPads(o, n, 2 * layers[n].nextLog), ClaimPads(o, n))
  }

  /** `proof_otp_pad_values`: the pads the proof carries. */
  function ProofPads(layers: seq<LayerProof>): Vec
  {
    if layers == [] then []
    else
      var n := |layers| - 1;
      ProofPads(layers[..n]) + PadVec(layers[n].roundPads, layers[n].claimPads)
  }

  // ----- the verifier -----

  datatype Run = Run(claim: Fp, point: Vec, tr: Transcript)

  /** The polynomial a round message stands for, given the claim it has to add up to. */
  function Message(sent: Pair, pad: Pair, claim: Fp): (Fp, Fp, Fp)
  {
    var p0, p2 := Add(sent.0, pad.0), Add(sent.1, pad.1);
    (p0, Sub(claim, p0), p2)
  }

  function AfterMessage(tr: Transcript, sent: Pair): Transcript { MixFp(MixFp(tr, sent.0), sent.1) }

  function RunRounds(o: Oracle, rounds: seq<Pair>, pads: seq<Pair>, claim: Fp, tr: Transcript): (run: Run)
    requires |rounds| == |pads|
    ensures |run.point| == |rounds|
    decreases |rounds|
  {
    if rounds == [] then Run(claim, [], tr)
    else
      var k := |rounds| - 1;
      var run := RunRounds(o, rounds[..k], pads[..k], claim, tr);
      var (p0, p1, p2) := Message(rounds[k], pads[k], run.claim);
      var t := AfterMessage(run.tr, rounds[k]);
      var c := Draw(o, t);
      Run(Lagrange(p0, p1, p2, c), run.point + [c], Drawn(t))
  }

  function Combine(alpha: Fp, v: Pair): Fp { Add(Mul(alpha, v.0), Mul(Sub(1, alpha), v.1)) }

  function Unmask(p: LayerProof): Pair
  {
    (Add(p.nextClaims.0, p.claimPads.0), Add(p.nextClaims.1, p.claimPads.1))
  }

  function LayerRun(o: Oracle, layer: Layer, p: LayerProof, claims: Pair, tr: Transcript): (run: Run)
    requires |p.rounds| == |p.roundPads|
    ensures |run.point| == |p.rounds|
  {
    RunRounds(o, p.rounds, p.roundPads, Combine(Draw(o, tr), claims), Drawn(tr))
  }

  /** What the claim has to be after the rounds. */
  function Expected(layer: Layer, points: (Vec, Vec), alpha: Fp, left: Vec, right: Vec, next: Pair): Fp
  {
    Mul(Mul(Combine(alpha, (QTilde(layer, points.0, left, right), QTilde(layer, points.1, left, right))), next.0), next.1)
  }

  type State = ((Vec, Vec), Pair)

  function VerifyLayer(o: Oracle, layer: Layer, p: LayerProof, points: (Vec, Vec), claims: Pair, tr: Transcript)
    : (r: (Result<State, SumcheckError>, Transcript))
    ensures r.0.Ok? ==> |r.0.value.0.0| == |r.0.value.0.1| == layer.nextLog
  {
    var count := 2 * layer.nextLog;
    if |p.rounds| != count then (Err(RoundCountMismatch(count, |p.rounds|)), tr)
    else if |p.roundPads| != count then (Err(RoundCountMismatch(count, |p.roundPads|)), tr)
    else if Mul(p.claimPads.0, p.claimPads.1) != p.claimPads.2 then (Err(Rejected), tr)
    else
      var run := LayerRun(o, layer, p, claims, tr);
      var (left, right) := Halves(run.point, layer.nextLog);
      var next := Unmask(p);
      if run.claim != Expected(layer, points, Draw(o, tr), left, right, next) then (Err(Rejected), run.tr)
      else (Ok(((left, right), next)), AfterMessage(run.tr, p.nextClaims))
  }

  function VerifyLayers(o: Oracle, layers: seq<Layer>, proofs: seq<LayerProof>, points: (Vec, Vec), claims: Pair, tr: Transcript)
    : (Result<InputClaims, SumcheckError>, Transcript)
    requires |layers| == |proofs|
    decreases |layers|
  {
    if layers == [] then (Ok(InputClaims(points, claims)), tr)
    else
      match VerifyLayer(o, layers[0], proofs[0], points, claims, tr)
      case (Err(e), t) => (Err(e), t)
      case (Ok((next, values)), t) => VerifyLayers(o, layers[1..], proofs[1..], next, values, t)
  }

  /** The output point: both running points start there, with claims zero. */
  function OutputPoint(o: Oracle, layers: seq<Layer>, root: Bytes, tr: Transcript): (p: Vec)
    requires layers != []
    ensures |p| == layers[0].outLog
  {
    DrawPoint(o, MixDomain(tr, layers, root), layers[0].outLog)
  }

  function AfterOutputPoint(layers: seq<Layer>, root: Bytes, tr: Transcript): Transcript
    requires layers != []
  {
    DrawnPoint(MixDomain(tr, layers, root), layers[0].outLog)
  }

  /** `verify_circuit`, with the transcript it leaves behind. */
  function Verify(o: Oracle, layers: seq<Layer>, proof: CircuitProof, root: Bytes, tr: Transcript)
    : (Result<InputClaims, SumcheckError>, Transcript)
    requires layers != []
  {
    if |proof.layers| != |layers| then (Err(LayerCountMismatch(|layers|, |proof.layers|)), tr)
    else if ProofPads(proof.layers) != CircuitPads(o, layers) then (Err(Rejected), tr)
    else
      var g := OutputPoint(o, layers, root, tr);
      match VerifyLayers(o, layers, proof.layers, (g, g), (0, 0), AfterOutputPoint(layers, root, tr))
      case (Err(e), t) => (Err(e), t)
      case (Ok(claims), t) => if proof.inputClaims != claims then (Err(Rejected), t) else (Ok(claims), t)
  }

  // ----- the honest prover -----

  function PhaseOf(layer: Layer, w: Vec, points: (Vec, Vec), alpha: Fp): (ph: Phase)
    ensures layer.Valid() && |w| == Pow2(layer.nextLog) ==> ph.Valid()
    ensures ph.Size() == layer.nextLog
  {
    Phase(layer, TermWeights(layer.terms, points.0, points.1, alpha), w)
  }

  /** The coefficient table a prover works on: the dense prover replaces the right table by the one its listed
      terms denote. */
  function ProverTable(ph: Phase, dense: bool, point: Vec): Vec
    requires ph.Valid() && |point| <= 2 * ph.Size()
  {
    if dense && ph.Size() <= |point| then DenseRightTable(ph, point[..ph.Size()], point[ph.Size()..])
    else ph.Coeffs(point)
  }

  function DenseRightTable(ph: Phase, left: Vec, right: Vec): Vec
    requires ph.Valid() && |left| == ph.Size()
  {
    FoldAll(DenseRightCoeffs(ph.layer, ph.q, left, EvalAt(ph.w, left)), right)
  }

  lemma ProverShapes(ph: Phase, dense: bool, point: Vec)
    requires ph.Valid() && |point| <= 2 * ph.Size()
    ensures |ProverTable(ph, dense, point)| == |ph.Values(point)|
  {
    hide Fold, Scatter, DenseTable, DenseRightCoeffs, RightCoeffs, LeftCoeffs;
    ph.Shapes(point);
    if dense && ph.Size() <= |point| {
      var left, right := point[..ph.Size()], point[ph.Size()..];
      FoldAllLength(DenseRightCoeffs(ph.layer, ph.q, left, EvalAt(ph.w, left)), right, 2 * ph.Size() - |point|);
    }
  }

  function ProverRound(ph: Phase, dense: bool, point: Vec, x: Fp): Fp
    requires ph.Valid() && |point| <= 2 * ph.Size()
  {
    ProverShapes(ph, dense, point);
    RoundPoly(ProverTable(ph, dense, point), ph.Values(point), x)
  }

  /** The sparse prover works on the true table at every point, the dense one up to the switch. */
  lemma TrueProverRound(ph: Phase, dense: bool, point: Vec, x: Fp)
    requires ph.Valid() && |point| <= 2 * ph.Size()
    requires dense && ph.Size() <= |point| ==>
               var left := point[..ph.Size()]; SafeSwitch(ph.layer, ph.q, left, EvalAt(ph.w, left)) && |ph.q| <= U64_MAX
    ensures ProverRound(ph, dense, point, x) == ph.Round(point, x)
  {
    hide FoldAll, DenseRightCoeffs, RightCoeffs, LeftCoeffs, RoundPoly, SafeSwitch;
    if dense && ph.Size() <= |point| {
      var left := point[..ph.Size()];
      DenseSwitchIffSafe(ph.layer, ph.q, ph.w, left, EvalAt(ph.w, left));
    }
  }

  function HonestMessage(ph: Phase, dense: bool, point: Vec, pad: Pair): Pair
    requires ph.Valid() && |point| <= 2 * ph.Size()
  {
    (Sub(ProverRound(ph, dense, point, 0), pad.0), Sub(ProverRound(ph, dense, point, 2), pad.1))
  }

  function HonestRounds(o: Oracle, ph: Phase, dense: bool, pads: seq<Pair>, claim: Fp, tr: Transcript): (rounds: seq<Pair>)
    requires ph.Valid() && |pads| <= 2 * ph.Size()
    ensures |rounds| == |pads|
    decreases |pads|
  {
    if pads == [] then []
    else
      var k := |pads| - 1;
      var sent := HonestRounds(o, ph, dense, pads[..k], claim, tr);
      sent + [HonestMessage(ph, dense, RunRounds(o, sent, pads[..k], claim, tr).point, pads[k])]
  }

  function HonestLayer(o: Oracle, dense: bool, index: nat, layer: Layer, w: Vec, points: (Vec, Vec), claims: Pair, tr: Transcript): (p: LayerProof)
    requires layer.Valid() && |w| == Pow2(layer.nextLog)
    ensures |p.rounds| == |p.roundPads| == 2 * layer.nextLog
    ensures p.roundPads == RoundPads(o, index, 2 * layer.nextLog) && p.claimPads == ClaimPads(o, index)
  {
    var pads, alpha := RoundPads(o, index, 2 * layer.nextLog), Draw(o, tr);
    var ph, claim := PhaseOf(layer, w, points, alpha), Combine(alpha, claims);
    var rounds := HonestRounds(o, ph, dense, pads, claim, Drawn(tr));
    var next := Halves(RunRounds(o, rounds, pads, claim, Drawn(tr)).point, layer.nextLog);
    LayerProof(rounds, pads, ClaimPads(o, index), Masked(Openings(w, next), ClaimPads(o, index)))
  }

  function Masked(values: Pair, mask: (Fp, Fp, Fp)): Pair { (Sub(values.0, mask.0), Sub(values.1, mask.1)) }

  /** `split_sumcheck_point`. */
  function Halves(point: Vec, n: nat): (p: (Vec, Vec))
    requires |point| == 2 * n
    ensures |p.0| == |p.1| == n
  {
    (point[..n], point[n..])
  }

  function Openings(w: Vec, points: (Vec, Vec)): Pair
    requires |w| == Pow2(|points.0|) && |w| == Pow2(|points.1|)
  {
    (EvalAt(w, points.0), EvalAt(w, points.1))
  }

  function HonestLayers(o: Oracle, dense: bool, index: nat, layers: seq<Layer>, trace: seq<Vec>, points: (Vec, Vec), claims: Pair, tr: Transcript)
    : (r: (seq<LayerProof>, InputClaims, Transcript))
    requires Chained(layers) && Shaped(layers, trace)
    ensures |r.0| == |layers|
    decreases |layers|
  {
    if layers == [] then ([], InputClaims(points, claims), tr)
    else
      assert |trace[1]| == Pow2(layers[0].nextLog);
      TailShape(layers, trace);
      var p := HonestLayer(o, dense, index, layers[0], trace[1], points, claims, tr);
      var run := LayerRun(o, layers[0], p, claims, tr);
      var next := Halves(run.point, layers[0].nextLog);
      var (ps, ic, t) := HonestLayers(o, dense, index + 1, layers[1..], trace[1..], next, Openings(trace[1], next),
                                      AfterMessage(run.tr, p.nextClaims));
      ([p] + ps, ic, t)
  }

  lemma TailShape(layers: seq<Layer>, trace: seq<Vec>)
    requires Chained(layers) && layers != [] && Shaped(layers, trace)
    ensures Chained(layers[1..]) && Shaped(layers[1..], trace[1..])
  {
    forall i | 0 <= i < |layers| - 1 ensures |trace[1..][i + 1]| == Pow2(layers[1..][i].nextLog) {
      assert |trace[(i + 1) + 1]| == Pow2(layers[i + 1].nextLog);
    }
  }

  lemma TailTrace(layers: seq<Layer>, trace: seq<Vec>)
    requires Chained(layers) && layers != [] && IsTrace(layers, trace)
    ensures Chained(layers[1..]) && IsTrace(layers[1..], trace[1..])
  {
    hide EvalNext;
    TailShape(layers, trace);
    forall i | 0 <= i < |layers| - 1 ensures StepHolds(layers[1..], trace[1..], i) {
      assert StepHolds(layers, trace, i + 1);
    }
  }

  /** The proof for given layer values, and the transcript the prover leaves behind: `prove_circuit_inner` when
      dense, `prove_circuit_inner_sorted_sparse` otherwise. */
  function Prove(o: Oracle, dense: bool, layers: seq<Layer>, trace: seq<Vec>, root: Bytes, tr: Transcript): (CircuitProof, Transcript)
    requires Chained(layers) && layers != [] && Shaped(layers, trace)
  {
    var g := OutputPoint(o, layers, root, tr);
    var (ps, ic, t) := HonestLayers(o, dense, 0, layers, trace, (g, g), (0, 0), AfterOutputPoint(layers, root, tr));
    (CircuitProof(ps, ic), t)
  }
}
