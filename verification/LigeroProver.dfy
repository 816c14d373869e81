/** The prover's answers on a commitment (ligero.rs): the claim batch for both codes and the proximity row. */
module LigeroProver {
  import opened Wrappers
  import opened Modulus
  import opened Field
  import opened Vectors
  import opened CircleGroup
  import opened CircleBasis
  import opened CircleTransform
  import opened CircleTables
  import opened CircleCode
  import opened ReedSolomon
  import opened LigeroParameters
  import opened LigeroWeights
  import opened LigeroPlan
  import opened LigeroCodes
  import opened LigeroEvaluation
  import opened Ligero
  import Merkle

  /** The first n codeword positions. */
  function Indices(n: nat): (s: seq<nat>)
    ensures |s| == n
  {
    seq(n, i requires 0 <= i => i)
  }

  ghost function RsPlaces(n: nat): (s: seq<Place>)
    ensures |s| == n
  {
    seq(n, x requires 0 <= x => AtElement(R(x)))
  }

  lemma RsPlaceOf(params: LigeroParams, tables: Option<Code>, x: nat)
    requires Fits(params, tables) && params.code == Rs && x < params.codewordLen
    ensures PlaceOf(params, tables, x) == AtElement(R(x)) && PlaceFits(params, AtElement(R(x)))
  {
    hide Fits;
  }

  /** A message of length n takes its own symbols at the first n places. */
  lemma RsMessageIs(values: Vec, q: Vec)
    requires |values| == |q| <= U64_MAX
    requires forall x :: 0 <= x < |q| ==> values[x] == MessageEval(q, AtElement(R(x)))
    ensures values == q
  {
    hide R, MessagePoly, Row;
    forall x | 0 <= x < |q| ensures values[x] == q[x] {
      EvalMessage(q, R(x));
      Interpolates(q, x);
    }
  }

  /** One row of the RS batch: weights times row, at the first `bound` positions. */
  method AddRsRow(
    params: LigeroParams, tables: Option<Code>, coefficients: Vec, weights: Vec, encodedRow: Vec, ghost message: Vec)
    returns (out: Vec)
    requires Fits(params, tables) && params.code == Rs && |coefficients| <= params.codewordLen
    requires |weights| == params.rowLen && Encodes(params, tables, message, encodedRow)
    ensures |out| == |coefficients|
    ensures forall x :: 0 <= x < |out| ==>
              PlaceFits(params, AtElement(R(x)))
              && out[x] == Add(coefficients[x], Mul(Dot(weights, WeightVector(params, tables, AtElement(R(x)))), MessageEval(message, AtElement(R(x)))))
  {
    hide R, Fits, MessageEval, WeightVector, LigeroParams.Validate, LigeroParams.Geom;
    var evals := EvalWeights(params, tables, weights, Indices(|coefficients|));
    out := coefficients;
    for x := 0 to |coefficients|
      invariant |out| == |coefficients|
      invariant forall y :: 0 <= y < x ==>
                  PlaceFits(params, AtElement(R(y)))
                  && out[y] == Add(coefficients[y], Mul(Dot(weights, WeightVector(params, tables, AtElement(R(y)))), MessageEval(message, AtElement(R(y)))))
      invariant forall y :: x <= y < |out| ==> out[y] == coefficients[y]
    {
      RsPlaceOf(params, tables, x);
      assert evals.value[x] == Dot(weights, WeightVector(params, tables, PlaceOf(params, tables, Indices(|coefficients|)[x])));
      out := out[x := Add(out[x], Mul(evals.value[x], encodedRow[x]))];
    }
  }

  method RsClaimBatch(
    c: Commitment, tables: Option<Code>, list: seq<RowWeights>, ghost h: Merkle.Hasher, ghost secret: Vec,
    ghost messages: seq<Vec>, ghost mask: Vec, ghost blind: Vec, ghost m: seq<Vec>, ghost q: Vec) returns (coefficients: Vec)
    requires Commits(h, c, tables, secret, messages, mask, blind) && c.params.code == Rs
    requires Matrix(m, |messages|, c.params.rowLen) && list == NonzeroRows(m)
    requires IsBatch(c.params, tables, m, messages, blind, q)
    ensures coefficients == q
  {
    var params := c.params;
    hide R, Fits, MessageEval, WeightVector, LigeroParams.Validate, LigeroParams.Geom, PlaceFits, IsBatch, Extraction,
         Carries, Merkle.IsTree, Column;
    FitsFacts(params, tables);
    var bound := params.ClaimDegreeBound();
    var blindRow := c.encodedRows[c.claimBlindRow];
    coefficients := blindRow[..bound];
    ghost var places := RsPlaces(bound);
    forall x | 0 <= x < bound ensures PlaceFits(params, places[x]) && coefficients[x] == MessageEval(blind, places[x]) {
      RsPlaceOf(params, tables, x);
    }
    ResidualShape(m, |messages|, params.rowLen);
    PartialStart(params, tables, messages, blind, places, coefficients);
    assert list[..0] == [];
    for k := 0 to |list|
      invariant PartialBatch(params, tables, list[..k], messages, blind, places, coefficients)
    {
      ghost var before := coefficients;
      var row := list[k].row;
      coefficients := AddRsRow(params, tables, coefficients, list[k].weights, c.encodedRows[row], messages[row]);
      PartialStep(params, tables, list, k, messages, blind, places, before, coefficients);
    }
    assert list[..|list|] == list;
    assert |q| == bound by { BatchLength(params, tables, m, messages, blind, q); }
    forall x | 0 <= x < bound ensures coefficients[x] == MessageEval(q, AtElement(R(x))) {
      PartialDone(params, tables, m, messages, blind, places, coefficients, q, x);
    }
    RsMessageIs(coefficients, q);
  }

  lemma BatchLength(params: LigeroParams, tables: Option<Code>, m: seq<Vec>, messages: seq<Vec>, blind: Vec, q: Vec)
    requires Fits(params, tables) && Matrix(m, |messages|, params.rowLen) && IsBatch(params, tables, m, messages, blind, q)
    ensures |q| == params.ClaimDegreeBound()
  {
    hide Fits;
  }

  // ----- the circle batch -----

  ghost function CirclePlaces(points: seq<Point>): (s: seq<Place>)
    ensures |s| == |points|
  {
    seq(|points|, j requires 0 <= j < |points| => AtPoint(points[j]))
  }

  lemma ProductPlaces(params: LigeroParams, tables: Option<Code>, j: nat)
    requires Fits(params, tables) && params.code == Circle && j < |tables.value.product.domain|
    ensures PlaceFits(params, AtPoint(tables.value.product.domain[j]))
  {
    hide Fits, OnCircle, DoubleN, LigeroParams.Validate, LigeroParams.Geom, BasisSums;
    FitsFacts(params, tables);
    CanonicalPoint(tables.value.product, tables.value.geom.productDomainLen, j);
  }

  /** One row of the circle batch: interpolated weights times row, on the product domain. */
  method AddCircleRow(params: LigeroParams, tables: Option<Code>, values: Vec, weights: Vec, message: Vec) returns (out: Vec)
    requires Fits(params, tables) && params.code == Circle
    requires |values| == tables.value.geom.productDomainLen && |weights| == params.rowLen && |message| == params.degreeBound
    ensures |out| == |values| == |tables.value.product.domain|
    ensures forall j :: 0 <= j < |out| ==>
              PlaceFits(params, AtPoint(tables.value.product.domain[j]))
              && out[j] == Add(values[j], Mul(Dot(weights, WeightVector(params, tables, AtPoint(tables.value.product.domain[j]))), MessageEval(message, AtPoint(tables.value.product.domain[j]))))
  {
    hide Fits, EvalC, OnCircle, LigeroParams.Validate, LigeroParams.Geom, BasisSums, Tables.Valid, Code.DataPoly,
         WeightVector;
    FitsFacts(params, tables);
    var domain := tables.value.product.domain;
    var wCoeffs := tables.value.WeightCoeffs(weights);
    var wValues := tables.value.ProductFft(wCoeffs.value);
    var rValues := tables.value.ProductFft(message);
    out := values;
    for j := 0 to |values|
      invariant |out| == |values|
      invariant forall i :: 0 <= i < j ==>
                  out[i] == Add(values[i], Mul(EvalC(tables.value.DataPoly(weights), domain[i]), EvalC(message, domain[i])))
      invariant forall i :: j <= i < |out| ==> out[i] == values[i]
    {
      out := out[j := Add(out[j], Mul(wValues.value[j], rValues.value[j]))];
    }
    forall j | 0 <= j < |out|
      ensures PlaceFits(params, AtPoint(domain[j]))
      ensures out[j] == Add(values[j], Mul(Dot(weights, WeightVector(params, tables, AtPoint(domain[j]))), MessageEval(message, AtPoint(domain[j]))))
    {
      ProductPlaces(params, tables, j);
      WeightEval(params, tables, weights, domain[j]);
    }
  }

  /** What a circle commitment stores of its rows. */
  lemma StoredRows(
    h: Merkle.Hasher, c: Commitment, tables: Option<Code>, secret: Vec, messages: seq<Vec>, mask: Vec, blind: Vec)
    requires Commits(h, c, tables, secret, messages, mask, blind) && c.params.code == Circle
    ensures |c.coefficientRows| == |messages| + 2 && c.claimBlindRow == |messages| + 1
    ensures c.coefficientRows[|messages| + 1] == blind && |blind| == c.params.ClaimDegreeBound()
    ensures forall r :: 0 <= r < |messages| ==> c.coefficientRows[r] == messages[r] && |messages[r]| == c.params.degreeBound
  {
    hide Fits, Encodes, Carries, DataRows, DivCeil, Merkle.MerkleCommitment.Valid;
  }

  /** One row of the circle batch: weights times row, on the product domain. */
  method CircleBatchRow(
    params: LigeroParams, tables: Option<Code>, list: seq<RowWeights>, k: nat, message: Vec, values: Vec,
    ghost messages: seq<Vec>, ghost blind: Vec, ghost places: seq<Place>) returns (after: Vec)
    requires Fits(params, tables) && params.code == Circle && |values| == tables.value.geom.productDomainLen
    requires k < |list| && ListShaped(list, params.rowLen) && ListBelow(list, |messages|)
    requires message == messages[list[k].row] && |message| == params.degreeBound
    requires places == CirclePlaces(tables.value.product.domain)
    requires forall x :: 0 <= x < |places| ==> PlaceFits(params, places[x])
    requires ListShaped(list[..k], params.rowLen) && ListBelow(list[..k], |messages|)
    requires PartialBatch(params, tables, list[..k], messages, blind, places, values)
    ensures |after| == |values|
    ensures ListShaped(list[..k + 1], params.rowLen) && ListBelow(list[..k + 1], |messages|)
    ensures PartialBatch(params, tables, list[..k + 1], messages, blind, places, after)
  {
    hide Fits, MessageEval, WeightVector, PlaceFits, PartialBatch, Tables.Valid;
    FitsFacts(params, tables);
    after := AddCircleRow(params, tables, values, list[k].weights, message);
    PartialStep(params, tables, list, k, messages, blind, places, values, after);
  }

  /** The values of the batch on the product domain. */
  method CircleBatchValues(
    c: Commitment, tables: Option<Code>, list: seq<RowWeights>, ghost h: Merkle.Hasher, ghost secret: Vec,
    ghost messages: seq<Vec>, ghost mask: Vec, ghost blind: Vec, ghost m: seq<Vec>, ghost q: Vec) returns (values: Vec)
    requires Commits(h, c, tables, secret, messages, mask, blind) && c.params.code == Circle
    requires Matrix(m, |messages|, c.params.rowLen) && list == NonzeroRows(m)
    requires IsBatch(c.params, tables, m, messages, blind, q)
    ensures values == Evaluations(q, tables.value.product.domain)
  {
    var params := c.params;
    hide Fits, EvalC, OnCircle, LigeroParams.Validate, LigeroParams.Geom, BasisSums, Tables.Valid, WeightVector,
         PlaceFits, IsBatch, CommittedRows, Merkle.MerkleCommitment.Valid, PartialBatch, NonzeroRows, DivCeil;
    FitsFacts(params, tables);
    StoredRows(h, c, tables, secret, messages, mask, blind);
    ghost var domain := tables.value.product.domain;
    ghost var places := CirclePlaces(domain);
    var blindValues := tables.value.ProductFft(c.coefficientRows[c.claimBlindRow]);
    values := blindValues.value;
    forall j | 0 <= j < |places| ensures PlaceFits(params, places[j]) && values[j] == MessageEval(blind, places[j]) {
      ProductPlaces(params, tables, j);
    }
    ResidualShape(m, |messages|, params.rowLen);
    PartialStart(params, tables, messages, blind, places, values);
    assert list[..0] == [];
    for k := 0 to |list|
      invariant |values| == |domain| && PartialBatch(params, tables, list[..k], messages, blind, places, values)
    {
      values := CircleBatchRow(params, tables, list, k, c.coefficientRows[list[k].row], values, messages, blind, places);
    }
    assert list[..|list|] == list;
    forall j | 0 <= j < |domain| ensures values[j] == Evaluations(q, domain)[j] {
      PartialDone(params, tables, m, messages, blind, places, values, q, j);
    }
    assert values == Evaluations(q, domain);
  }

  /** The tail-zero assertion never fires, and the batch is the one owed. */
  method CircleClaimBatch(
    c: Commitment, tables: Option<Code>, list: seq<RowWeights>, ghost h: Merkle.Hasher, ghost secret: Vec,
    ghost messages: seq<Vec>, ghost mask: Vec, ghost blind: Vec, ghost m: seq<Vec>, ghost q: Vec) returns (coefficients: Vec)
    requires Commits(h, c, tables, secret, messages, mask, blind) && c.params.code == Circle
    requires Matrix(m, |messages|, c.params.rowLen) && list == NonzeroRows(m)
    requires IsBatch(c.params, tables, m, messages, blind, q)
    ensures coefficients == q
  {
    var params := c.params;
    hide Fits, EvalC, LigeroParams.Validate, LigeroParams.Geom, BasisSums, Tables.Valid, IsBatch, CommittedRows,
         Merkle.MerkleCommitment.Valid, NonzeroRows, Matrix;
    FitsFacts(params, tables);
    var bound := params.ClaimDegreeBound();
    var values := CircleBatchValues(c, tables, list, h, secret, messages, mask, blind, m, q);
    BatchLength(params, tables, m, messages, blind, q);
    var full := tables.value.ProductIfft(values);
    assert full.value == q + Zeros(|full.value| - bound);
    assert forall i :: bound <= i < |full.value| ==> full.value[i] == 0;
    coefficients := full.value[..bound];
  }

  method ClaimBatchFor(
    h: Merkle.Hasher, c: Commitment, tables: Option<Code>, claims: seq<LinearClaim>, gamma: Vec, ghost secret: Vec,
    ghost messages: seq<Vec>, ghost mask: Vec, ghost blind: Vec) returns (r: Result<ClaimBatch, LigeroError>)
    requires Commits(h, c, tables, secret, messages, mask, blind) && Extraction(c.params, tables, blind) == 0
    ensures claims == [] || gamma == [] ==> r == Err(EmptyGamma)
    ensures claims != [] && gamma != [] && |claims| != |gamma| ==> r == Err(WrongGammaLength)
    ensures claims != [] && |claims| == |gamma| && !AllValid(c.params.rowLen, c.witnessRows, claims) ==>
              r == Err(LigeroError.WrongPointLength)
    ensures claims != [] && |claims| == |gamma| && AllValid(c.params.rowLen, c.witnessRows, claims) ==>
              r.Ok? && OwedBatch(c.params, tables, secret, messages, blind, claims, gamma, r.value)
  {
    var params := c.params;
    hide Fits, LigeroParams.Validate, LigeroParams.Geom, DenseRows, IsBatch, Extraction, Carries, Merkle.IsTree,
         Encodes, DataRows, AllValid;
    FitsFacts(params, tables);
    if claims == [] || gamma == [] {
      return Err(EmptyGamma);
    }
    if |claims| != |gamma| {
      return Err(WrongGammaLength);
    }
    var weights := BatchedRowWeights(params.rowLen, c.witnessRows, claims, gamma);
    if weights.Err? {
      return Err(weights.error);
    }
    ghost var m := DenseRows(claims, gamma, params.rowLen, |messages|);
    ghost var data := DataRows(secret, params.rowLen, |messages|);
    ghost var q := BatchExists(params, tables, m, messages, data, blind);
    Units(Pairing(m, data, params.rowLen));
    BatchLength(params, tables, m, messages, blind, q);
    if params.code == Circle {
      var coefficients := CircleClaimBatch(c, tables, weights.value, h, secret, messages, mask, blind, m, q);
      return Ok(ClaimBatch(coefficients, 0));
    }
    var coefficients := RsClaimBatch(c, tables, weights.value, h, secret, messages, mask, blind, m, q);
    var blindClaim := BlindPrefixSum(params, tables, c.encodedRows[c.claimBlindRow], blind);
    r := Ok(ClaimBatch(coefficients, blindClaim));
  }

  method BlindPrefixSum(params: LigeroParams, ghost tables: Option<Code>, codeword: Vec, ghost blind: Vec) returns (sum: Fp)
    requires Fits(params, tables) && params.code == Rs && |blind| >= params.rowLen
    requires Encodes(params, tables, blind, codeword)
    ensures sum == Extraction(params, tables, blind)
  {
    hide Fits, MessageEval;
    FitsFacts(params, tables);
    assert codeword[..params.rowLen] == blind[..params.rowLen] by {
      assert codeword[..|blind|][..params.rowLen] == codeword[..params.rowLen];
    }
    sum := 0;
    for i := 0 to params.rowLen
      invariant sum == Sum(codeword[..i])
    {
      assert codeword[..i + 1][..i] == codeword[..i];
      sum := Add(sum, codeword[i]);
    }
  }

  // ----- the proximity row -----

  /** mask plus gamma times rows, coefficient by coefficient. */
  function CombinedRow(mask: Vec, rows: seq<Vec>, gamma: Vec): (v: Vec)
    requires |rows| == |gamma| && Matrix(rows, |rows|, |mask|)
    ensures |v| == |mask|
  {
    if rows == [] then mask
    else
      var n := |rows| - 1;
      VAdd(CombinedRow(mask, rows[..n], gamma[..n]), Scale(gamma[n], rows[n]))
  }

  /** The same combination of column entries. */
  function CombinedEntry(mask: Fp, column: Vec, gamma: Vec): Fp
    requires |column| == |gamma|
  {
    if gamma == [] then mask
    else
      var n := |gamma| - 1;
      Add(CombinedEntry(mask, column[..n], gamma[..n]), Mul(gamma[n], column[n]))
  }

  lemma MessageEvalScale(s: Fp, a: Vec, place: Place)
    ensures MessageEval(Scale(s, a), place) == Mul(s, MessageEval(a, place))
  {
    match place
    case AtElement(x) => DotScale(s, a, Row(|a|, x));
    case AtPoint(p) => EvalCScale(s, a, p);
  }

  /** Combining rows and evaluating commute. */
  lemma {:induction false} CombinedRowEval(mask: Vec, rows: seq<Vec>, gamma: Vec, place: Place)
    requires |rows| == |gamma| && Matrix(rows, |rows|, |mask|)
    ensures MessageEval(CombinedRow(mask, rows, gamma), place)
         == CombinedEntry(MessageEval(mask, place), Column(rows, place), gamma)
    decreases |rows|
  {
    hide MessageEval;
    if rows != [] {
      var n := |rows| - 1;
      CombinedRowEval(mask, rows[..n], gamma[..n], place);
      assert Column(rows, place)[..n] == Column(rows[..n], place);
      MessageEvalAdd(CombinedRow(mask, rows[..n], gamma[..n]), Scale(gamma[n], rows[n]), place);
      MessageEvalScale(gamma[n], rows[n], place);
    }
  }

  method AddScaled(before: Vec, coeff: Fp, row: Vec) returns (out: Vec)
    requires |before| == |row|
    ensures out == VAdd(before, Scale(coeff, row))
  {
    out := before;
    for x := 0 to |before|
      invariant |out| == |before|
      invariant forall y :: 0 <= y < x ==> out[y] == Add(before[y], Mul(coeff, row[y]))
      invariant forall y :: x <= y < |out| ==> out[y] == before[y]
    {
      out := out[x := Add(out[x], Mul(coeff, row[x]))];
    }
  }

  method ProximityClaim(
    c: Commitment, gamma: Vec, ghost h: Merkle.Hasher, ghost tables: Option<Code>, ghost secret: Vec,
    ghost messages: seq<Vec>, ghost mask: Vec, ghost blind: Vec) returns (r: Result<Vec, LigeroError>)
    requires Commits(h, c, tables, secret, messages, mask, blind)
    ensures gamma == [] ==> r == Err(EmptyGamma)
    ensures gamma != [] && |gamma| != c.witnessRows ==> r == Err(WrongGammaLength)
    ensures gamma != [] && |gamma| == c.witnessRows ==>
              Matrix(messages, |gamma|, |mask|) && r == Ok(CombinedRow(mask, messages, gamma))
  {
    hide Fits, LigeroParams.Validate, LigeroParams.Geom, Extraction, Carries, Merkle.IsTree, MessageEval, DataRows;
    FitsFacts(c.params, tables);
    if gamma == [] {
      return Err(EmptyGamma);
    }
    if |gamma| != c.witnessRows {
      return Err(WrongGammaLength);
    }
    var combined := c.RowMessage(c.proximityMaskRow);
    assert combined == mask;
    for k := 0 to |gamma|
      invariant |combined| == |mask| && Matrix(messages, |gamma|, |mask|)
      invariant combined == CombinedRow(mask, messages[..k], gamma[..k])
    {
      var row := c.RowMessage(k);
      assert row == messages[k];
      combined := AddScaled(combined, gamma[k], row);
      assert messages[..k + 1][..k] == messages[..k] && gamma[..k + 1][..k] == gamma[..k];
    }
    assert messages[..|gamma|] == messages && gamma[..|gamma|] == gamma;
    r := Ok(combined);
  }
}
