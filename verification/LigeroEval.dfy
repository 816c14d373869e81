/** Evaluating messages and weights at the opened columns (ligero.rs), and the extraction functional. */
module LigeroEvaluation {
  import opened Wrappers
  import opened Modulus
  import opened Field
  import opened Vectors
  import opened CircleGroup
  import opened CircleBasis
  import opened CircleTables
  import opened CircleCode
  import opened ReedSolomon
  import opened LigeroParameters
  import opened LigeroCodes

  predicate AllBelowLength(indices: seq<nat>, n: nat) { forall t :: 0 <= t < |indices| ==> indices[t] < n }

  lemma RsSymbol(message: Vec, n: nat, index: nat)
    requires index < n
    ensures Values(MessagePoly(message), n)[index] == MessageEval(message, AtElement(R(index)))
  {
    EvalMessage(message, R(index));
  }

  method RsEvaluate(message: Vec, codewordLen: nat, index: nat) returns (r: Result<Fp, LigeroError>)
    requires codewordLen <= U64_MAX
    ensures message == [] ==> r == Err(RsFailure(RsError.EmptyMessage))
    ensures message != [] && codewordLen < |message| ==> r == Err(RsFailure(RsError.CodewordTooShort))
    ensures 1 <= |message| <= codewordLen <= index ==> r == Err(RsFailure(RsError.IndexOutOfRange))
    ensures 1 <= |message| <= codewordLen && index < codewordLen ==>
              r == Ok(MessageEval(message, AtElement(R(index))))
  {
    hide R, MessagePoly, Row, MessageEval;
    var encoder := RsEncoder.New(|message|, codewordLen);
    if encoder.Err? {
      return Err(RsFailure(encoder.error));
    }
    var v := encoder.value.Evaluate(message, index);
    if v.Err? {
      return Err(RsFailure(v.error));
    }
    RsSymbol(message, codewordLen, index);
    r := Ok(v.value);
  }

  /** The value of a message at one codeword position. */
  method CodeEvaluate(params: LigeroParams, tables: Option<Code>, message: Vec, index: nat)
    returns (r: Result<Fp, LigeroError>)
    requires Fits(params, tables) && 1 <= |message| <= params.codewordLen
    ensures index < params.codewordLen ==> r == Ok(MessageEval(message, PlaceOf(params, tables, index)))
    ensures index >= params.codewordLen ==>
              r == Err(if params.code == Rs then RsFailure(RsError.IndexOutOfRange) else CircleFailure(CircleRsError.IndexOutOfRange))
  {
    hide R, MessagePoly, Row, EvalC, Fits, BasisSums, Tables.Valid, LigeroParams.Validate, LigeroParams.Geom;
    FitsFacts(params, tables);
    if params.code == Rs {
      r := RsEvaluate(message, params.codewordLen, index);
    } else {
      var v := tables.value.Evaluate(message, index);
      if v.Err? {
        return Err(CircleFailure(v.error));
      }
      r := Ok(v.value);
    }
  }

  ghost predicate EvaluatedAt(
    params: LigeroParams, tables: Option<Code>, message: Vec, indices: seq<nat>, values: Vec)
    requires Fits(params, tables) && AllBelowLength(indices, params.codewordLen)
  {
    && |values| == |indices|
    && forall t :: 0 <= t < |indices| ==> values[t] == MessageEval(message, PlaceOf(params, tables, indices[t]))
  }

  function OutOfRangeError(params: LigeroParams): LigeroError
  {
    if params.code == Rs then RsFailure(RsError.IndexOutOfRange) else Panic
  }

  /** One value per opened column: Lagrange coefficients (RS), or one transform and a gather (circle). */
  method EvalCoeffs(params: LigeroParams, tables: Option<Code>, coeffs: Vec, degreeBound: nat, indices: seq<nat>)
    returns (r: Result<Vec, LigeroError>)
    requires Fits(params, tables) && 1 <= |coeffs| <= degreeBound <= params.codewordLen
    ensures AllBelowLength(indices, params.codewordLen) ==>
              r.Ok? && EvaluatedAt(params, tables, coeffs, indices, r.value)
    ensures !AllBelowLength(indices, params.codewordLen) ==> r == Err(OutOfRangeError(params))
  {
    hide R, MessagePoly, Row, EvalC, Fits, BasisSums, Tables.Valid, LigeroParams.Validate, LigeroParams.Geom;
    FitsFacts(params, tables);
    var values: Vec := [];
    var codeword: Vec := [];
    if params.code == Circle {
      var encoded := tables.value.Encode(coeffs, degreeBound);
      codeword := encoded.value;
    }
    for t := 0 to |indices|
      invariant AllBelowLength(indices[..t], params.codewordLen) && |values| == t
      invariant forall s :: 0 <= s < t ==> values[s] == MessageEval(coeffs, PlaceOf(params, tables, indices[s]))
    {
      var v: Fp := 0;
      if params.code == Rs {
        var e := RsEvaluate(coeffs, params.codewordLen, indices[t]);
        if e.Err? {
          return Err(e.error);
        }
        v := e.value;
      } else {
        if indices[t] >= |codeword| {
          return Err(Panic);
        }
        v := codeword[indices[t]];
      }
      values := values + [v];
    }
    assert indices[..|indices|] == indices;
    r := Ok(values);
  }

  ghost predicate WeightsAt(
    params: LigeroParams, tables: Option<Code>, weights: Vec, indices: seq<nat>, values: Vec)
    requires Fits(params, tables) && AllBelowLength(indices, params.codewordLen) && |weights| == params.rowLen
  {
    && |values| == |indices|
    && forall t :: 0 <= t < |indices| ==>
         (PlaceOfFits(params, tables, indices[t]);
          values[t] == Dot(weights, WeightVector(params, tables, PlaceOf(params, tables, indices[t]))))
  }

  /** A row's weights at every opened column: the weights are a message (RS), or are interpolated on the window first. */
  method EvalWeights(params: LigeroParams, tables: Option<Code>, weights: Vec, indices: seq<nat>)
    returns (r: Result<Vec, LigeroError>)
    requires Fits(params, tables) && |weights| == params.rowLen && AllBelowLength(indices, params.codewordLen)
    ensures r.Ok? && WeightsAt(params, tables, weights, indices, r.value)
  {
    hide R, MessagePoly, Row, EvalC, Fits, BasisSums, Tables.Valid, LigeroParams.Validate, LigeroParams.Geom, OnCircle;
    FitsFacts(params, tables);
    if params.code == Rs {
      r := EvalCoeffs(params, tables, weights, |weights|, indices);
    } else {
      var coeffs := tables.value.WeightCoeffs(weights);
      r := EvalCoeffs(params, tables, coeffs.value, params.rowLen, indices);
      forall t | 0 <= t < |indices|
        ensures
          (PlaceOfFits(params, tables, indices[t]);
           r.value[t] == Dot(weights, WeightVector(params, tables, PlaceOf(params, tables, indices[t]))))
      {
        PlaceOfFits(params, tables, indices[t]);
        WeightEval(params, tables, weights, PlaceOf(params, tables, indices[t]).p);
      }
    }
  }

  /** The sum over the systematic prefix, or over the data window. */
  method ClaimExtractionSum(params: LigeroParams, tables: Option<Code>, coefficients: Vec) returns (sum: Fp)
    requires Fits(params, tables) && |coefficients| >= params.rowLen
    ensures sum == Extraction(params, tables, coefficients)
  {
    hide EvalC, Fits, BasisSums, Tables.Valid, LigeroParams.Validate, LigeroParams.Geom;
    FitsFacts(params, tables);
    if params.code == Rs {
      sum := 0;
      for i := 0 to params.rowLen
        invariant sum == Sum(coefficients[..i])
      {
        assert coefficients[..i + 1][..i] == coefficients[..i];
        sum := Add(sum, coefficients[i]);
      }
    } else {
      sum := tables.value.DataSum(coefficients);
    }
  }
}
