/** The verifiers that walk the openings in order (ligero.rs): the proximity check, and the claim batch split over two
    commitments, whose structured weight plan never changes the verdict. */
module LigeroSplit {
  import opened Wrappers
  import opened Modulus
  import opened Field
  import opened Vectors
  import opened CircleCode
  import opened LigeroParameters
  import opened LigeroWeights
  import opened LigeroPlan
  import opened LigeroCodes
  import opened LigeroEvaluation
  import opened Ligero
  import opened LigeroProver
  import opened LigeroVerifier
  import Merkle

  // ----- proximity -----

  /** The openings in order: the first failure decides. */
  ghost function ProximityFrom(
    h: Merkle.Hasher, root: Merkle.Digest, params: LigeroParams, tables: Option<Code>,
    openings: seq<Merkle.ColumnOpening>, combinedRow: Vec, gamma: Vec): Result<bool, LigeroError>
    requires Fits(params, tables)
  {
    if openings == [] then Ok(true)
    else
      var o := openings[0];
      if o.index >= params.codewordLen then Err(LigeroError.ColumnOutOfRange)
      else if |o.column| != |gamma| + 2 then Err(WrongGammaLength)
      else if !Merkle.Accepts(h, root, o) then Ok(false)
      else if MessageEval(combinedRow, PlaceOf(params, tables, o.index))
              != CombinedEntry(o.column[|gamma|], o.column[..|gamma|], gamma) then Ok(false)
      else ProximityFrom(h, root, params, tables, openings[1..], combinedRow, gamma)
  }

  method CombineEntries(start: Fp, gamma: Vec, column: Vec) returns (combined: Fp)
    requires |gamma| <= |column|
    ensures combined == CombinedEntry(start, column[..|gamma|], gamma)
  {
    combined := start;
    for k := 0 to |gamma|
      invariant combined == CombinedEntry(start, column[..k], gamma[..k])
    {
      assert column[..k + 1][..k] == column[..k] && gamma[..k + 1][..k] == gamma[..k];
      combined := Add(combined, Mul(gamma[k], column[k]));
    }
    assert gamma[..|gamma|] == gamma;
  }

  method VerifyOpenings(
    h: Merkle.Hasher, root: Merkle.Digest, params: LigeroParams, tables: Option<Code>,
    openings: seq<Merkle.ColumnOpening>, combinedRow: Vec, gamma: Vec) returns (r: Result<bool, LigeroError>)
    requires params.codewordLen <= U64_MAX && (params.Validate().Ok? ==> Fits(params, tables))
    ensures params.Validate().Err? ==> r == Err(params.Validate().error)
    ensures params.Validate().Ok? && |openings| != params.openings ==> r == Err(WrongOpeningCount)
    ensures params.Validate().Ok? && |openings| == params.openings && gamma == [] ==> r == Err(EmptyGamma)
    ensures params.Validate().Ok? && |openings| == params.openings && gamma != [] && |combinedRow| != params.degreeBound ==>
              r == Err(WrongClaimLength)
    ensures params.Validate().Ok? && |openings| == params.openings && gamma != [] && |combinedRow| == params.degreeBound ==>
              r == ProximityFrom(h, root, params, tables, openings, combinedRow, gamma)
  {
    hide Fits, MessageEval, PlaceOf, Merkle.Accepts, LigeroParams.Validate, LigeroParams.Geom, CombinedEntry;
    var valid := params.Validate();
    if valid.Err? {
      return Err(valid.error);
    }
    if |openings| != params.openings {
      return Err(WrongOpeningCount);
    }
    if gamma == [] {
      return Err(EmptyGamma);
    }
    if |combinedRow| != params.degreeBound {
      return Err(WrongClaimLength);
    }
    FitsFacts(params, tables);
    assert openings[0..] == openings;
    for t := 0 to |openings|
      invariant ProximityFrom(h, root, params, tables, openings, combinedRow, gamma)
             == ProximityFrom(h, root, params, tables, openings[t..], combinedRow, gamma)
    {
      var o := openings[t];
      assert openings[t..][0] == o && openings[t..][1..] == openings[t + 1..];
      if o.index >= params.codewordLen {
        return Err(LigeroError.ColumnOutOfRange);
      }
      if |o.column| != |gamma| + 2 {
        return Err(WrongGammaLength);
      }
      var verified := Merkle.VerifyColumn(h, root, o);
      if !verified {
        return Ok(false);
      }
      var combined := CombineEntries(o.column[|gamma|], gamma, o.column);
      var expected := CodeEvaluate(params, tables, combinedRow, o.index);
      if expected.value != combined {
        return Ok(false);
      }
    }
    r := Ok(true);
  }

  /** Completeness: the honest combination of rows passes at every honest opening. */
  lemma {:induction false} HonestProximityAccepted(
    h: Merkle.Hasher, c: Commitment, tables: Option<Code>, secret: Vec, messages: seq<Vec>, mask: Vec, blind: Vec,
    gamma: Vec, openings: seq<Merkle.ColumnOpening>)
    requires Commits(h, c, tables, secret, messages, mask, blind)
    requires |gamma| == c.witnessRows && Honest(h, c, openings)
    ensures Matrix(messages, |gamma|, |mask|)
    ensures ProximityFrom(h, c.merkle.root, c.params, tables, openings, CombinedRow(mask, messages, gamma), gamma) == Ok(true)
    decreases |openings|
  {
    hide Fits, MessageEval, PlaceOf, Merkle.Accepts, Merkle.IsTree, Extraction, Carries, CombinedEntry, CombinedRow,
         DataRows, DivCeil;
    if openings != [] {
      var o := openings[0];
      forall t | 0 <= t < |openings[1..]| ensures openings[1..][t] == openings[t + 1] {}
      HonestProximityAccepted(h, c, tables, secret, messages, mask, blind, gamma, openings[1..]);
      var place := PlaceOf(c.params, tables, o.index);
      var n := |gamma|;
      CombinedRowEval(mask, messages, gamma, place);
      forall r | 0 <= r < n ensures o.column[..n][r] == Column(messages, place)[r] {
        assert Encodes(c.params, tables, messages[r], c.encodedRows[r]);
      }
      assert o.column[..n] == Column(messages, place);
      assert Encodes(c.params, tables, mask, c.encodedRows[n]);
    }
  }

  // ----- the split claim batch -----

  /** The two halves of an opened column, without their mask and blind entries. */
  function JoinedColumn(a: Vec, b: Vec, rowsA: nat, rowsB: nat): (c: Vec)
    requires rowsA <= |a| && rowsB <= |b|
    ensures |c| == rowsA + rowsB
  {
    a[..rowsA] + b[..rowsB]
  }

  ghost function SplitExpected(
    params: LigeroParams, tables: Option<Code>, m: seq<Vec>, index: nat, a: Vec, b: Vec, rowsA: nat, rowsB: nat): Fp
    requires Fits(params, tables) && index < params.codewordLen && Matrix(m, rowsA + rowsB, params.rowLen)
    requires |a| == rowsA + 2 && |b| == rowsB + 2
  {
    PlaceOfFits(params, tables, index);
    Add(Add(a[rowsA + 1], b[rowsB + 1]), RowsCombined(m, params.rowLen, WeightVector(params, tables, PlaceOf(params, tables, index)), JoinedColumn(a, b, rowsA, rowsB)))
  }

  /** The pairs of openings in order; `sumOk` is the final sum check. */
  ghost function SplitFrom(
    h: Merkle.Hasher, rootA: Merkle.Digest, rootB: Merkle.Digest, params: LigeroParams, tables: Option<Code>,
    m: seq<Vec>, rowsA: nat, rowsB: nat, coefficients: Vec, openingsA: seq<Merkle.ColumnOpening>,
    openingsB: seq<Merkle.ColumnOpening>, sumOk: bool): Result<bool, LigeroError>
    requires Fits(params, tables) && Matrix(m, rowsA + rowsB, params.rowLen) && |openingsA| == |openingsB|
  {
    if openingsA == [] then Ok(sumOk)
    else
      var a, b := openingsA[0], openingsB[0];
      if a.index != b.index then Err(LigeroError.ColumnOutOfRange)
      else if a.index >= params.codewordLen then Err(LigeroError.ColumnOutOfRange)
      else if |a.column| != rowsA + 2 || |b.column| != rowsB + 2 then Err(WrongGammaLength)
      else if !Merkle.Accepts(h, rootA, a) || !Merkle.Accepts(h, rootB, b) then Ok(false)
      else if MessageEval(coefficients, PlaceOf(params, tables, a.index))
              != SplitExpected(params, tables, m, a.index, a.column, b.column, rowsA, rowsB) then Ok(false)
      else SplitFrom(h, rootA, rootB, params, tables, m, rowsA, rowsB, coefficients, openingsA[1..], openingsB[1..], sumOk)
  }

  /** The part of the verdict that looks at claims and columns. */
  ghost function SplitBodyVerdict(
    h: Merkle.Hasher, rootA: Merkle.Digest, rootB: Merkle.Digest, params: LigeroParams, tables: Option<Code>,
    rowsA: nat, rowsB: nat, openingsA: seq<Merkle.ColumnOpening>, openingsB: seq<Merkle.ColumnOpening>, batch: ClaimBatch,
    claims: seq<LinearClaim>, gamma: Vec): Result<bool, LigeroError>
    requires Fits(params, tables) && |claims| == |gamma| && |batch.coefficients| == params.ClaimDegreeBound()
    requires |openingsA| == |openingsB|
  {
    FitsFacts(params, tables);
    if !AllBelowLength(OpeningIndices(openingsA), params.codewordLen) then Err(OutOfRangeError(params))
    else if !AllValid(params.rowLen, rowsA + rowsB, claims) then Err(LigeroError.WrongPointLength)
    else
      SplitFrom(h, rootA, rootB, params, tables, DenseRows(claims, gamma, params.rowLen, rowsA + rowsB), rowsA, rowsB,
                batch.coefficients, openingsA, openingsB,
                Extraction(params, tables, batch.coefficients) == ClaimSum(claims, gamma, batch.blindClaim))
  }

  /** The verdict on a split batch: it mentions the dense weights only. */
  ghost function SplitVerdict(
    h: Merkle.Hasher, rootA: Merkle.Digest, rootB: Merkle.Digest, params: LigeroParams, tables: Option<Code>,
    lenA: nat, lenB: nat, openingsA: seq<Merkle.ColumnOpening>, openingsB: seq<Merkle.ColumnOpening>, batch: ClaimBatch,
    claims: seq<LinearClaim>, gamma: Vec): Result<bool, LigeroError>
    requires params.codewordLen <= U64_MAX && (params.Validate().Ok? ==> Fits(params, tables))
  {
    if params.Validate().Err? then Err(params.Validate().error)
    else if |openingsA| != params.openings || |openingsB| != params.openings then Err(WrongOpeningCount)
    else if claims == [] || gamma == [] then Err(EmptyGamma)
    else if |claims| != |gamma| then Err(WrongGammaLength)
    else if |batch.coefficients| != params.ClaimDegreeBound() then Err(WrongClaimLength)
    else if batch.blindClaim != 0 then Ok(false)
    else
      FitsFacts(params, tables);
      SplitBodyVerdict(h, rootA, rootB, params, tables, Rows(lenA, params.rowLen), Rows(lenB, params.rowLen), openingsA,
                       openingsB, batch, claims, gamma)
  }

  ghost predicate TemplatesAt(
    params: LigeroParams, tables: Option<Code>, ts: seq<Template>, indices: seq<nat>, values: seq<Vec>)
    requires Fits(params, tables) && AllBelowLength(indices, params.codewordLen)
    requires forall k :: 0 <= k < |ts| ==> |ts[k].values| == params.rowLen
  {
    |values| == |ts| && forall k :: 0 <= k < |ts| ==> WeightsAt(params, tables, ts[k].values, indices, values[k])
  }

  method EvaluateTemplates(params: LigeroParams, tables: Option<Code>, ts: seq<Template>, indices: seq<nat>)
    returns (values: seq<Vec>)
    requires Fits(params, tables) && AllBelowLength(indices, params.codewordLen)
    requires forall k :: 0 <= k < |ts| ==> |ts[k].values| == params.rowLen
    ensures TemplatesAt(params, tables, ts, indices, values)
  {
    hide Fits, WeightsAt;
    values := [];
    for k := 0 to |ts|
      invariant |values| == k
      invariant forall i :: 0 <= i < k ==> WeightsAt(params, tables, ts[i].values, indices, values[i])
    {
      var v := EvalWeights(params, tables, ts[k].values, indices);
      values := values + [v.value];
    }
  }

  method OpenTemplate(rs: seq<RowScale>, a: Vec, b: Vec, rowsA: nat, rowsB: nat) returns (sum: Fp)
    requires rowsA <= |a| && rowsB <= |b|
    requires forall i :: 0 <= i < |rs| ==> rs[i].row < rowsA + rowsB
    ensures sum == Opened(rs, JoinedColumn(a, b, rowsA, rowsB))
  {
    sum := 0;
    ghost var column := JoinedColumn(a, b, rowsA, rowsB);
    for i := 0 to |rs|
      invariant sum == Opened(rs[..i], column)
    {
      assert rs[..i + 1][..i] == rs[..i];
      var row := rs[i].row;
      var value := if row < rowsA then a[row] else b[row - rowsA];
      sum := Add(sum, Mul(rs[i].scale, value));
    }
    assert rs[..|rs|] == rs;
  }

  /** start plus the templates' evaluations times their opened combinations. */
  method CombineTemplates(
    params: LigeroParams, ghost tables: Option<Code>, ts: seq<Template>, values: seq<Vec>, indices: seq<nat>, t: nat,
    start: Fp, a: Vec, b: Vec, rowsA: nat, rowsB: nat, ghost place: Place) returns (combined: Fp)
    requires Fits(params, tables) && AllBelowLength(indices, params.codewordLen) && t < |indices|
    requires rowsA <= |a| && rowsB <= |b| && Shaped(ts, rowsA + rowsB, params.rowLen)
    requires TemplatesAt(params, tables, ts, indices, values)
    requires place == PlaceOf(params, tables, indices[t]) && PlaceFits(params, place)
    ensures combined == Add(start, TemplatesCombined(ts, params.rowLen, WeightVector(params, tables, place), JoinedColumn(a, b, rowsA, rowsB)))
  {
    hide Fits, WeightVector, PlaceFits, PlaceOf, Opened;
    combined := start;
    Units(start);
    ghost var at, column := WeightVector(params, tables, place), JoinedColumn(a, b, rowsA, rowsB);
    for k := 0 to |ts|
      invariant combined == Add(start, TemplatesCombined(ts[..k], params.rowLen, at, column))
    {
      assert ts[..k + 1][..k] == ts[..k];
      var sum := OpenTemplate(ts[k].rowScales, a, b, rowsA, rowsB);
      assert WeightsAt(params, tables, ts[k].values, indices, values[k]);
      AddAssoc(start, TemplatesCombined(ts[..k], params.rowLen, at, column), Mul(Dot(ts[k].values, at), sum));
      combined := Add(combined, Mul(values[k][t], sum));
    }
    assert ts[..|ts|] == ts;
  }

  /** The plan's value at one column is the dense rows' value. */
  method CombinePlan(
    params: LigeroParams, tables: Option<Code>, plan: WeightPlan, residualValues: seq<Vec>, templateValues: seq<Vec>,
    indices: seq<nat>, t: nat, a: Vec, b: Vec, rowsA: nat, rowsB: nat, ghost m: seq<Vec>) returns (combined: Fp)
    requires Fits(params, tables) && AllBelowLength(indices, params.codewordLen) && t < |indices|
    requires |a| == rowsA + 2 && |b| == rowsB + 2 && Matrix(m, rowsA + rowsB, params.rowLen)
    requires PlanShaped(plan, rowsA + rowsB, params.rowLen)
    requires forall r :: 0 <= r < rowsA + rowsB ==> m[r] == PlanRow(plan, rowsA + rowsB, params.rowLen, r)
    requires |residualValues| == |plan.residualRows|
    requires forall k :: 0 <= k < |plan.residualRows| ==>
               WeightsAt(params, tables, plan.residualRows[k].weights, indices, residualValues[k])
    requires TemplatesAt(params, tables, plan.templates, indices, templateValues)
    ensures combined == SplitExpected(params, tables, m, indices[t], a, b, rowsA, rowsB)
  {
    hide Fits, WeightVector, PlaceFits, PlaceOf, PlanRow, TemplatesAt, WeightsAt;
    PlaceOfFits(params, tables, indices[t]);
    ghost var place := PlaceOf(params, tables, indices[t]);
    ghost var at := WeightVector(params, tables, place);
    var column := JoinedColumn(a, b, rowsA, rowsB);
    var blindValue := Add(a[rowsA + 1], b[rowsB + 1]);
    combined := CombineRows(params, tables, plan.residualRows, residualValues, indices, t, blindValue, column, place);
    combined := CombineTemplates(params, tables, plan.templates, templateValues, indices, t, combined, a, b, rowsA, rowsB, place);
    PlanCombined(plan, params.rowLen, at, column, m);
    AddAssoc(blindValue, ListCombined(plan.residualRows, params.rowLen, at, column),
             TemplatesCombined(plan.templates, params.rowLen, at, column));
  }

  /** One pair of openings: the verdict if it is decided here, none if the next pair decides. */
  method CheckPair(
    h: Merkle.Hasher, rootA: Merkle.Digest, rootB: Merkle.Digest, params: LigeroParams, tables: Option<Code>,
    plan: WeightPlan, residualValues: seq<Vec>, templateValues: seq<Vec>, indices: seq<nat>, rowsA: nat, rowsB: nat,
    ghost coefficients: Vec, batchAt: Vec, openingsA: seq<Merkle.ColumnOpening>, openingsB: seq<Merkle.ColumnOpening>, t: nat,
    ghost m: seq<Vec>, ghost sumOk: bool) returns (r: Option<Result<bool, LigeroError>>)
    requires Fits(params, tables) && t < |openingsA| == |openingsB| && indices == OpeningIndices(openingsA)
    requires AllBelowLength(indices, params.codewordLen)
    requires Matrix(m, rowsA + rowsB, params.rowLen) && PlanShaped(plan, rowsA + rowsB, params.rowLen)
    requires forall k :: 0 <= k < rowsA + rowsB ==> m[k] == PlanRow(plan, rowsA + rowsB, params.rowLen, k)
    requires EvaluatedAt(params, tables, coefficients, indices, batchAt)
    requires |residualValues| == |plan.residualRows| && TemplatesAt(params, tables, plan.templates, indices, templateValues)
    requires forall k :: 0 <= k < |plan.residualRows| ==>
               WeightsAt(params, tables, plan.residualRows[k].weights, indices, residualValues[k])
    ensures SplitFrom(h, rootA, rootB, params, tables, m, rowsA, rowsB, coefficients, openingsA[t..], openingsB[t..], sumOk)
         == if r.Some? then r.value
            else SplitFrom(h, rootA, rootB, params, tables, m, rowsA, rowsB, coefficients, openingsA[t + 1..], openingsB[t + 1..], sumOk)
  {
    hide Fits, WeightsAt, TemplatesAt, MessageEval, PlaceOf, Merkle.Accepts, SplitExpected, PlanRow, PlanShaped;
    var a, b := openingsA[t], openingsB[t];
    assert openingsA[t..][0] == a && openingsA[t..][1..] == openingsA[t + 1..];
    assert openingsB[t..][0] == b && openingsB[t..][1..] == openingsB[t + 1..];
    assert a.index == indices[t];
    if a.index != b.index {
      return Some(Err(LigeroError.ColumnOutOfRange));
    }
    if |a.column| != rowsA + 2 || |b.column| != rowsB + 2 {
      return Some(Err(WrongGammaLength));
    }
    var okA := Merkle.VerifyColumn(h, rootA, a);
    if !okA {
      return Some(Ok(false));
    }
    var okB := Merkle.VerifyColumn(h, rootB, b);
    if !okB {
      return Some(Ok(false));
    }
    var combined := CombinePlan(params, tables, plan, residualValues, templateValues, indices, t, a.column, b.column, rowsA, rowsB, m);
    if batchAt[t] != combined {
      return Some(Ok(false));
    }
    return None;
  }

  /** The loop over pairs of openings. */
  method CheckPairs(
    h: Merkle.Hasher, rootA: Merkle.Digest, rootB: Merkle.Digest, params: LigeroParams, tables: Option<Code>,
    plan: WeightPlan, rowsA: nat, rowsB: nat, batch: ClaimBatch, batchAt: Vec, openingsA: seq<Merkle.ColumnOpening>,
    openingsB: seq<Merkle.ColumnOpening>, claims: seq<LinearClaim>, gamma: Vec, ghost m: seq<Vec>)
    returns (r: Result<bool, LigeroError>)
    requires Fits(params, tables) && |openingsA| == |openingsB| && |claims| == |gamma|
    requires AllBelowLength(OpeningIndices(openingsA), params.codewordLen)
    requires Matrix(m, rowsA + rowsB, params.rowLen) && PlanShaped(plan, rowsA + rowsB, params.rowLen)
    requires forall k :: 0 <= k < rowsA + rowsB ==> m[k] == PlanRow(plan, rowsA + rowsB, params.rowLen, k)
    requires |batch.coefficients| == params.ClaimDegreeBound()
    requires EvaluatedAt(params, tables, batch.coefficients, OpeningIndices(openingsA), batchAt)
    ensures |batch.coefficients| >= params.rowLen
    ensures r == SplitFrom(h, rootA, rootB, params, tables, m, rowsA, rowsB, batch.coefficients, openingsA, openingsB,
                           Extraction(params, tables, batch.coefficients) == ClaimSum(claims, gamma, batch.blindClaim))
  {
    hide Fits, WeightsAt, TemplatesAt, MessageEval, PlaceOf, Merkle.Accepts, LigeroParams.Validate, LigeroParams.Geom,
         Extraction, ClaimSum, SplitExpected, PlanRow, Shaped, AllBelowLength, EvaluatedAt;
    FitsFacts(params, tables);
    ghost var sumOk := Extraction(params, tables, batch.coefficients) == ClaimSum(claims, gamma, batch.blindClaim);
    var indices := OpeningIndices(openingsA);
    TemplateLengths(plan, rowsA + rowsB, params.rowLen);
    var residualValues := EvaluateRows(params, tables, plan.residualRows, indices);
    var templateValues := EvaluateTemplates(params, tables, plan.templates, indices);
    assert openingsA[0..] == openingsA && openingsB[0..] == openingsB;
    for t := 0 to |openingsA|
      invariant SplitFrom(h, rootA, rootB, params, tables, m, rowsA, rowsB, batch.coefficients, openingsA, openingsB, sumOk)
             == SplitFrom(h, rootA, rootB, params, tables, m, rowsA, rowsB, batch.coefficients, openingsA[t..], openingsB[t..], sumOk)
    {
      var decided := CheckPair(h, rootA, rootB, params, tables, plan, residualValues, templateValues, indices, rowsA, rowsB,
                               batch.coefficients, batchAt, openingsA, openingsB, t, m, sumOk);
      if decided.Some? {
        return decided.value;
      }
    }
    var qSum := ClaimExtractionSum(params, tables, batch.coefficients);
    var claimSum := SumClaims(claims, gamma, batch.blindClaim);
    r := Ok(qSum == claimSum);
  }

  lemma TemplateLengths(plan: WeightPlan, rows: nat, rowLen: nat)
    requires PlanShaped(plan, rows, rowLen)
    ensures forall k :: 0 <= k < |plan.templates| ==> |plan.templates[k].values| == rowLen
    ensures ListShaped(plan.residualRows, rowLen)
  {
  }

  /** Batch values at the opened columns, weights, and the pairs of columns. */
  method VerifySplitBody(
    h: Merkle.Hasher, rootA: Merkle.Digest, rootB: Merkle.Digest, params: LigeroParams, tables: Option<Code>,
    rowsA: nat, rowsB: nat, openingsA: seq<Merkle.ColumnOpening>, openingsB: seq<Merkle.ColumnOpening>, batch: ClaimBatch,
    claims: seq<LinearClaim>, gamma: Vec, structured: bool) returns (r: Result<bool, LigeroError>)
    requires Fits(params, tables) && |claims| == |gamma| && |batch.coefficients| == params.ClaimDegreeBound()
    requires |openingsA| == |openingsB|
    ensures r == SplitBodyVerdict(h, rootA, rootB, params, tables, rowsA, rowsB, openingsA, openingsB, batch, claims, gamma)
  {
    hide Fits, EvaluatedAt, MessageEval, PlaceOf, LigeroParams.Validate, LigeroParams.Geom, Extraction, ClaimSum,
         SplitFrom, AllValid, PlanRow, DenseRow, PlanShaped, AllBelowLength, OutOfRangeError, ValidateLinearClaim;
    FitsFacts(params, tables);
    var indices := OpeningIndices(openingsA);
    var batchAt := EvalCoeffs(params, tables, batch.coefficients, |batch.coefficients|, indices);
    if batchAt.Err? {
      return Err(batchAt.error);
    }
    var plan := ClaimWeightPlan(params, rowsA + rowsB, claims, gamma, structured);
    if plan.Err? {
      return Err(plan.error);
    }
    ghost var m := DenseRows(claims, gamma, params.rowLen, rowsA + rowsB);
    r := CheckPairs(h, rootA, rootB, params, tables, plan.value, rowsA, rowsB, batch, batchAt.value, openingsA, openingsB, claims, gamma, m);
  }

  method VerifySplitClaimBatch(
    h: Merkle.Hasher, rootA: Merkle.Digest, rootB: Merkle.Digest, params: LigeroParams, tables: Option<Code>,
    lenA: nat, lenB: nat, openingsA: seq<Merkle.ColumnOpening>, openingsB: seq<Merkle.ColumnOpening>, batch: ClaimBatch,
    claims: seq<LinearClaim>, gamma: Vec, structured: bool) returns (r: Result<bool, LigeroError>)
    requires params.codewordLen <= U64_MAX && (params.Validate().Ok? ==> Fits(params, tables))
    ensures r == SplitVerdict(h, rootA, rootB, params, tables, lenA, lenB, openingsA, openingsB, batch, claims, gamma)
    ensures params.Validate().Err? ==> r == Err(params.Validate().error)
    ensures params.Validate().Ok? && (|openingsA| != params.openings || |openingsB| != params.openings) ==> r == Err(WrongOpeningCount)
    ensures params.Validate().Ok? && |openingsA| == |openingsB| == params.openings && (claims == [] || gamma == []) ==> r == Err(EmptyGamma)
    ensures params.Validate().Ok? && |openingsA| == |openingsB| == params.openings && claims != [] && gamma != [] && |claims| != |gamma| ==>
              r == Err(WrongGammaLength)
    ensures (&& params.Validate().Ok? && |openingsA| == |openingsB| == params.openings && claims != [] && |claims| == |gamma|
             && |batch.coefficients| != params.ClaimDegreeBound()) ==> r == Err(WrongClaimLength)
  {
    hide Fits, MessageEval, PlaceOf, LigeroParams.Validate, LigeroParams.Geom, Extraction, ClaimSum, AllValid, DenseRow,
         DivCeil, SplitBodyVerdict;
    var valid := params.Validate();
    if valid.Err? {
      return Err(valid.error);
    }
    if |openingsA| != params.openings || |openingsB| != params.openings {
      return Err(WrongOpeningCount);
    }
    if claims == [] || gamma == [] {
      return Err(EmptyGamma);
    }
    if |claims| != |gamma| {
      return Err(WrongGammaLength);
    }
    FitsFacts(params, tables);
    if |batch.coefficients| != params.ClaimDegreeBound() {
      return Err(WrongClaimLength);
    }
    if batch.blindClaim != 0 {
      return Ok(false);
    }
    r := VerifySplitBody(h, rootA, rootB, params, tables, Rows(lenA, params.rowLen), Rows(lenB, params.rowLen), openingsA,
                         openingsB, batch, claims, gamma, structured);
  }
}
