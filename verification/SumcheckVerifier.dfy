/** The loops of the verifier (sumcheck.rs), against `Sumcheck.Verify`. */
module SumcheckVerifier {
  import opened Wrappers
  import opened Field
  import opened Vectors
  import opened Multilinear
  import opened Circuits
  import opened FieldBytes
  import opened Transcripts
  import opened Rounds
  import opened Sumcheck

  lemma OutSecond(c: Fp, l: Fp, r: Fp, o: Fp)
    ensures Mul(Mul(Mul(c, l), r), o) == Mul(Mul(Mul(c, o), l), r)
  {
    MulSwapLast(Mul(c, l), r, o);
    MulSwapLast(c, l, o);
  }

  /** Both sums over the terms. */
  method WiringSums(layer: Layer, points: (Vec, Vec), left: Vec, right: Vec) returns (q: Pair)
    requires layer.Valid() && |points.0| == |points.1| == layer.outLog && |left| == |right| == layer.nextLog
    ensures q == (QTilde(layer, points.0, left, right), QTilde(layer, points.1, left, right))
  {
    var out0 := EqTable(points.0);
    var out1 := EqTable(points.1);
    var leftEq := EqTable(left);
    var rightEq := EqTable(right);
    ghost var v0 := QTerms(layer.terms, points.0, left, right);
    ghost var v1 := QTerms(layer.terms, points.1, left, right);
    var q0: Fp, q1: Fp := 0, 0;
    for k := 0 to |layer.terms|
      invariant q0 == Sum(v0[..k]) && q1 == Sum(v1[..k])
    {
      var t := layer.terms[k];
      var lr := Mul(Mul(t.coeff, leftEq[t.l]), rightEq[t.r]);
      OutSecond(t.coeff, leftEq[t.l], rightEq[t.r], out0[t.out]);
      OutSecond(t.coeff, leftEq[t.l], rightEq[t.r], out1[t.out]);
      assert v0[..k + 1][..k] == v0[..k] && v1[..k + 1][..k] == v1[..k];
      q0 := Add(q0, Mul(lr, out0[t.out]));
      q1 := Add(q1, Mul(lr, out1[t.out]));
    }
    assert v0[..|v0|] == v0 && v1[..|v1|] == v1;
    q := (q0, q1);
  }

  /** Both wiring values from four weight tables (`q_tilde_eval_pair`). */
  method QTildeEvalPair(layer: Layer, points: (Vec, Vec), left: Vec, right: Vec) returns (r: Result<Pair, CircuitError>)
    requires layer.Valid()
    ensures r.Ok? <==> |points.0| == |points.1| == layer.outLog && |left| == |right| == layer.nextLog
    ensures r.Ok? ==> r.value == (QTilde(layer, points.0, left, right), QTilde(layer, points.1, left, right))
    ensures |points.0| != layer.outLog ==> r == Err(PointLength(layer.outLog, |points.0|))
    ensures |points.0| == layer.outLog && |points.1| != layer.outLog ==> r == Err(PointLength(layer.outLog, |points.1|))
    ensures |points.0| == |points.1| == layer.outLog && |left| != layer.nextLog ==> r == Err(PointLength(layer.nextLog, |left|))
    ensures |points.0| == |points.1| == layer.outLog && |left| == layer.nextLog && |right| != layer.nextLog ==>
              r == Err(PointLength(layer.nextLog, |right|))
  {
    if |points.0| != layer.outLog {
      return Err(PointLength(layer.outLog, |points.0|));
    }
    if |points.1| != layer.outLog {
      return Err(PointLength(layer.outLog, |points.1|));
    }
    if |left| != layer.nextLog {
      return Err(PointLength(layer.nextLog, |left|));
    }
    if |right| != layer.nextLog {
      return Err(PointLength(layer.nextLog, |right|));
    }
    var q := WiringSums(layer, points, left, right);
    return Ok(q);
  }

  method MixCircuitDomain(layers: seq<Layer>, root: Bytes, channel: CoprocessorChannel)
    modifies channel
    ensures channel.State() == MixDomain(old(channel.State()), layers, root)
  {
    channel.Mix(Ascii("eu-id-ec-coproc-sumcheck-v1"));
    channel.Mix(root);
    channel.Mix(ToBigEndian(|layers|, 8));
    ghost var start := channel.State();
    for i := 0 to |layers|
      invariant channel.State() == MixCircuit(start, layers[..i])
    {
      assert layers[..i + 1][..i] == layers[..i];
      channel.Mix(ToBigEndian(layers[i].outLog, 8));
      channel.Mix(ToBigEndian(layers[i].nextLog, 8));
    }
    assert layers[..|layers|] == layers;
  }

  /** One layer's rounds. */
  method RunRoundsLoop(rounds: seq<Pair>, pads: seq<Pair>, first: Fp, channel: CoprocessorChannel)
    returns (claim: Fp, point: Vec)
    requires |rounds| == |pads|
    modifies channel
    ensures Run(claim, point, channel.State()) == RunRounds(channel.oracle, rounds, pads, first, old(channel.State()))
  {
    hide Lagrange, MixFp;
    claim, point := first, [];
    for k := 0 to |rounds|
      invariant Run(claim, point, channel.State()) == RunRounds(channel.oracle, rounds[..k], pads[..k], first, old(channel.State()))
    {
      assert rounds[..k + 1][..k] == rounds[..k] && pads[..k + 1][..k] == pads[..k];
      var (p0, p1, p2) := Message(rounds[k], pads[k], claim);
      SubAddLeft(claim, p0);
      if Add(p0, p1) != claim {
        assert false;
      }
      channel.MixElement(rounds[k].0);
      channel.MixElement(rounds[k].1);
      var challenge := channel.DrawFp();
      claim := Lagrange(p0, p1, p2, challenge);
      point := point + [challenge];
    }
    assert rounds[..|rounds|] == rounds && pads[..|pads|] == pads;
  }

  /** `verify_circuit`: the result and the transcript are those of `Verify`. */
  method VerifyCircuit(circuit: Circuit, proof: CircuitProof, root: Bytes, channel: CoprocessorChannel)
    returns (r: Result<InputClaims, SumcheckError>)
    requires circuit.Valid()
    modifies channel
    ensures (r, channel.State()) == Verify(channel.oracle, circuit.layers, proof, root, old(channel.State()))
  {
    hide RunRounds, Expected, MixFp, MixDomain, DrawPoint, ProofPads, CircuitPads, QTilde;
    var layers, o := circuit.layers, channel.oracle;
    if |proof.layers| != |layers| {
      return Err(LayerCountMismatch(|layers|, |proof.layers|));
    }
    if ProofPads(proof.layers) != CircuitPads(o, layers) {
      return Err(Rejected);
    }
    MixCircuitDomain(layers, root, channel);
    var g := channel.DrawMany(layers[0].outLog);
    var points, claims: Pair := (g, g), (0, 0);
    ghost var all := VerifyLayers(o, layers, proof.layers, points, claims, channel.State());
    assert layers[0..] == layers && proof.layers[0..] == proof.layers;
    for i := 0 to |layers|
      invariant VerifyLayers(o, layers[i..], proof.layers[i..], points, claims, channel.State()) == all
      invariant |points.0| == |points.1|
      invariant i < |layers| ==> |points.0| == layers[i].outLog
    {
      var layer, p := layers[i], proof.layers[i];
      assert layers[i..][0] == layer && layers[i..][1..] == layers[i + 1..];
      assert proof.layers[i..][0] == p && proof.layers[i..][1..] == proof.layers[i + 1..];
      var expectedRounds := 2 * layer.nextLog;
      if |p.rounds| != expectedRounds {
        return Err(RoundCountMismatch(expectedRounds, |p.rounds|));
      }
      if |p.roundPads| != expectedRounds {
        return Err(RoundCountMismatch(expectedRounds, |p.roundPads|));
      }
      if Mul(p.claimPads.0, p.claimPads.1) != p.claimPads.2 {
        return Err(Rejected);
      }
      var alpha := channel.DrawFp();
      var claim, point := RunRoundsLoop(p.rounds, p.roundPads, Combine(alpha, claims), channel);
      var (left, right) := Halves(point, layer.nextLog);
      var q := QTildeEvalPair(layer, points, left, right);
      var next := Unmask(p);
      var expected := Mul(Mul(Combine(alpha, q.value), next.0), next.1);
      assert expected == Expected(layer, points, alpha, left, right, next) by { ExpectedValue(layer, points, alpha, left, right, next); }
      if claim != expected {
        return Err(Rejected);
      }
      channel.MixElement(p.nextClaims.0);
      channel.MixElement(p.nextClaims.1);
      points, claims := (left, right), next;
    }
    var inputClaims := InputClaims(points, claims);
    if proof.inputClaims != inputClaims {
      return Err(Rejected);
    }
    return Ok(inputClaims);
  }

  lemma ExpectedValue(layer: Layer, points: (Vec, Vec), alpha: Fp, left: Vec, right: Vec, next: Pair)
    ensures Expected(layer, points, alpha, left, right, next)
         == Mul(Mul(Combine(alpha, (QTilde(layer, points.0, left, right), QTilde(layer, points.1, left, right))), next.0), next.1)
  {
  }
}
