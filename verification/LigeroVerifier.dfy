/** The verifier of claim batches and proximity rows (ligero.rs), and what the pipeline guarantees: honest claims are
    accepted under both codes, and the structured weight plan never changes a verdict. */
module LigeroVerifier {
  import opened Wrappers
  import opened Modulus
  import opened Field
  import opened Vectors
  import opened Bits
  import opened Multilinear
  import opened CircleCode
  import opened LigeroParameters
  import opened LigeroWeights
  import opened LigeroPlan
  import opened LigeroCodes
  import opened LigeroEvaluation
  import opened Ligero
  import opened LigeroProver
  import Merkle

  // ----- what a linear claim claims -----

  function ClaimedCell(secret: Vec, claim: LinearClaim, i: nat): Fp { WitnessCell(secret, claim.offset + i) }

  function ClaimedCells(secret: Vec, claim: LinearClaim): (v: Vec)
    ensures |v| == claim.len
  {
    seq(claim.len, i requires 0 <= i => ClaimedCell(secret, claim, i))
  }

  /** The multilinear extension of the claimed cells, padded with zeros, at the claim's point. */
  function TrueValue(secret: Vec, claim: LinearClaim): Fp
    requires claim.len <= Pow2(|claim.point|)
  {
    EvalAt(ClaimedCells(secret, claim) + Zeros(Pow2(|claim.point|) - claim.len), claim.point)
  }

  lemma TruncatedEval(v: Vec, point: Vec)
    requires |v| <= Pow2(|point|)
    ensures EvalAt(v + Zeros(Pow2(|point|) - |v|), point) == Dot(v, EqVec(point)[..|v|])
  {
    hide EvalAt, Pow2, Dot, PrefixEq;
    var z := Zeros(Pow2(|point|) - |v|);
    var e := EqVec(point);
    EvalIsWeightedSum(v + z, point);
    assert e == e[..|v|] + e[|v|..];
    DotConcat(v, e[..|v|], z, e[|v|..]);
    DotZeros(e[|v|..]);
    Units(Dot(v, e[..|v|]));
  }

  // ----- weights against the witness -----

  function WeightCells(claims: seq<LinearClaim>, gamma: Vec, n: nat): (w: Vec)
    requires |claims| == |gamma|
    ensures |w| == n
  {
    seq(n, g requires 0 <= g => CellSum(claims, gamma, g))
  }

  function WitnessCells(secret: Vec, n: nat): (d: Vec)
    ensures |d| == n
  {
    seq(n, g requires 0 <= g => WitnessCell(secret, g))
  }

  /** The cells of one more row. */
  lemma NextRowCells(claims: seq<LinearClaim>, gamma: Vec, secret: Vec, rowLen: nat, p: nat)
    requires |claims| == |gamma|
    ensures var k := CellNumber(p, rowLen, 0);
            && WeightCells(claims, gamma, k + rowLen) == WeightCells(claims, gamma, k) + DenseRow(claims, gamma, rowLen, p)
            && WitnessCells(secret, k + rowLen) == WitnessCells(secret, k) + DataRow(secret, rowLen, p)
  {
    hide CellSum, WitnessCell, CellNumber;
    forall c: nat ensures CellNumber(p, rowLen, c) == CellNumber(p, rowLen, 0) + c { CellOffset(p, rowLen, c); }
  }

  /** Row by row or all cells at once. */
  lemma {:induction false} PairingIsFlat(claims: seq<LinearClaim>, gamma: Vec, secret: Vec, rowLen: nat, n: nat)
    requires |claims| == |gamma|
    ensures Pairing(DenseRows(claims, gamma, rowLen, n), DataRows(secret, rowLen, n), rowLen)
         == Dot(WeightCells(claims, gamma, CellNumber(n, rowLen, 0)), WitnessCells(secret, CellNumber(n, rowLen, 0)))
    decreases n
  {
    hide CellNumber, Dot, DenseRow, DataRow, WeightCells, WitnessCells;
    if n > 0 {
      var p := n - 1;
      PairingIsFlat(claims, gamma, secret, rowLen, p);
      NextStart(p, rowLen);
      NextRowCells(claims, gamma, secret, rowLen, p);
      var k := CellNumber(p, rowLen, 0);
      var m, d := DenseRows(claims, gamma, rowLen, n), DataRows(secret, rowLen, n);
      assert m[..p] == DenseRows(claims, gamma, rowLen, p) && d[..p] == DataRows(secret, rowLen, p);
      DotConcat(WeightCells(claims, gamma, k), WitnessCells(secret, k), m[p], d[p]);
    } else {
      NextStart(0, rowLen);
      DotZeros(WitnessCells(secret, 0));
      assert WeightCells(claims, gamma, 0) == Zeros(0);
    }
  }

  function ClaimCells(claim: LinearClaim, gamma: Fp, n: nat): (w: Vec)
    ensures |w| == n
  {
    seq(n, g requires 0 <= g => ClaimCell(claim, gamma, g))
  }

  lemma ClaimCellsShape(claim: LinearClaim, gamma: Fp, n: nat)
    requires claim.offset + claim.len <= n && claim.len <= Pow2(|claim.point|)
    ensures ClaimCells(claim, gamma, n)
         == Zeros(claim.offset)
            + (Scale(gamma, EqVec(claim.point)[..claim.len]) + Zeros(n - (claim.offset + claim.len)))
  {
    hide PrefixEq, Pow2;
  }

  /** Zeros on both sides contribute nothing. */
  lemma DotWindow(b: Vec, x: Vec, y: Vec, z: Vec, padded: Vec, rest: Vec)
    requires |b| == |y| && padded == b + Zeros(|z|) && rest == y + z
    ensures Dot(Zeros(|x|) + padded, x + rest) == Dot(b, y)
  {
    hide Dot, Zeros;
    assert |padded| == |rest|;
    DotConcat(b, y, Zeros(|z|), z);
    DotConcat(Zeros(|x|), x, padded, rest);
    DotZeros(x);
    DotZeros(z);
    Units(Dot(b, y));
  }

  lemma WitnessWindow(secret: Vec, claim: LinearClaim, n: nat)
    requires claim.offset + claim.len <= n
    ensures var d := WitnessCells(secret, n);
            d == d[..claim.offset] + (ClaimedCells(secret, claim) + d[claim.offset + claim.len..])
  {
    hide WitnessCell;
  }

  lemma ClaimPairing(claim: LinearClaim, gamma: Fp, secret: Vec, n: nat)
    requires claim.offset + claim.len <= n && claim.len <= Pow2(|claim.point|)
    ensures Dot(ClaimCells(claim, gamma, n), WitnessCells(secret, n)) == Mul(gamma, TrueValue(secret, claim))
  {
    hide PrefixEq, WitnessCell, EvalAt, Pow2, ClaimCell, ClaimCells, WitnessCells, Scale, Dot, ClaimedCells;
    var e := EqVec(claim.point)[..claim.len];
    var d := WitnessCells(secret, n);
    var cells := ClaimedCells(secret, claim);
    ClaimCellsShape(claim, gamma, n);
    WitnessWindow(secret, claim, n);
    var tail := d[claim.offset + claim.len..];
    DotWindow(Scale(gamma, e), d[..claim.offset], cells, tail, Scale(gamma, e) + Zeros(|tail|), cells + tail);
    DotScale(gamma, e, cells);
    DotComm(e, cells);
    TruncatedEval(cells, claim.point);
  }

  /** The batched values: from `start`, gamma times each claimed value. */
  function ClaimSum(claims: seq<LinearClaim>, gamma: Vec, start: Fp): Fp
    requires |claims| == |gamma|
  {
    if claims == [] then start
    else
      var k := |claims| - 1;
      Add(ClaimSum(claims[..k], gamma[..k], start), Mul(gamma[k], claims[k].value))
  }

  ghost predicate TrueClaims(secret: Vec, claims: seq<LinearClaim>)
  {
    forall k :: 0 <= k < |claims| ==>
      claims[k].len <= Pow2(|claims[k].point|) && claims[k].value == TrueValue(secret, claims[k])
  }

  /** Weights against the witness give the batched values. */
  lemma {:induction false} WeightsPairToValues(claims: seq<LinearClaim>, gamma: Vec, secret: Vec, n: nat)
    requires |claims| == |gamma| && TrueClaims(secret, claims)
    requires forall k :: 0 <= k < |claims| ==> claims[k].offset + claims[k].len <= n
    ensures Dot(WeightCells(claims, gamma, n), WitnessCells(secret, n)) == ClaimSum(claims, gamma, 0)
  {
    hide ClaimCell, WitnessCell, TrueValue, Pow2;
    var d := WitnessCells(secret, n);
    if claims == [] {
      assert WeightCells(claims, gamma, n) == Zeros(n);
      DotZeros(d);
    } else {
      var k := |claims| - 1;
      WeightsPairToValues(claims[..k], gamma[..k], secret, n);
      var init, last := WeightCells(claims[..k], gamma[..k], n), ClaimCells(claims[k], gamma[k], n);
      assert WeightCells(claims, gamma, n) == VAdd(init, last);
      DotAdd(init, last, d);
      ClaimPairing(claims[k], gamma[k], secret, n);
    }
  }

  // ----- verification of a batch -----

  /** The first opening that is out of range or has the wrong height. */
  function BadOpening(openings: seq<Merkle.ColumnOpening>, codewordLen: nat, height: nat): Option<LigeroError>
  {
    if openings == [] then None
    else if openings[0].index >= codewordLen then Some(LigeroError.ColumnOutOfRange)
    else if |openings[0].column| != height then Some(WrongGammaLength)
    else BadOpening(openings[1..], codewordLen, height)
  }

  lemma {:induction false} GoodOpenings(openings: seq<Merkle.ColumnOpening>, codewordLen: nat, height: nat)
    ensures BadOpening(openings, codewordLen, height).None? <==>
              forall t :: 0 <= t < |openings| ==> openings[t].index < codewordLen && |openings[t].column| == height
  {
    if openings != [] {
      GoodOpenings(openings[1..], codewordLen, height);
      var good := openings[0].index < codewordLen && |openings[0].column| == height;
      if good && forall t :: 0 <= t < |openings[1..]| ==> openings[1..][t].index < codewordLen && |openings[1..][t].column| == height {
        forall t | 0 <= t < |openings| ensures openings[t].index < codewordLen && |openings[t].column| == height {
          if t > 0 { assert openings[t] == openings[1..][t - 1]; }
        }
      } else if good {
        var t :| 0 <= t < |openings[1..]| && !(openings[1..][t].index < codewordLen && |openings[1..][t].column| == height);
        assert openings[t + 1] == openings[1..][t];
      }
    }
  }

  /** What the batch must equal at an opened column: the blind entry plus weights times entries. */
  ghost function Expected(
    params: LigeroParams, tables: Option<Code>, m: seq<Vec>, index: nat, column: Vec): Fp
    requires Fits(params, tables) && Matrix(m, |m|, params.rowLen)
    requires index < params.codewordLen && |column| == |m| + 2
  {
    PlaceOfFits(params, tables, index);
    Add(column[|m| + 1],
        RowsCombined(m, params.rowLen, WeightVector(params, tables, PlaceOf(params, tables, index)), column[..|m|]))
  }

  ghost predicate ColumnChecks(
    h: Merkle.Hasher, root: Merkle.Digest, params: LigeroParams, tables: Option<Code>, m: seq<Vec>, coefficients: Vec,
    opening: Merkle.ColumnOpening)
    requires Fits(params, tables) && Matrix(m, |m|, params.rowLen)
    requires opening.index < params.codewordLen && |opening.column| == |m| + 2
  {
    && Merkle.Accepts(h, root, opening)
    && MessageEval(coefficients, PlaceOf(params, tables, opening.index))
       == Expected(params, tables, m, opening.index, opening.column)
  }

  /** Every column check, and the sum check. */
  ghost predicate OpeningsPass(
    h: Merkle.Hasher, root: Merkle.Digest, params: LigeroParams, tables: Option<Code>, m: seq<Vec>,
    openings: seq<Merkle.ColumnOpening>, batch: ClaimBatch, claims: seq<LinearClaim>, gamma: Vec)
    requires Fits(params, tables) && Matrix(m, |m|, params.rowLen) && |claims| == |gamma|
    requires |batch.coefficients| >= params.rowLen
    requires forall t :: 0 <= t < |openings| ==> openings[t].index < params.codewordLen && |openings[t].column| == |m| + 2
  {
    && (forall t :: 0 <= t < |openings| ==> ColumnChecks(h, root, params, tables, m, batch.coefficients, openings[t]))
    && Extraction(params, tables, batch.coefficients) == ClaimSum(claims, gamma, batch.blindClaim)
  }

  /** The part of the verdict that looks at claims and columns. */
  ghost function BodyVerdict(
    h: Merkle.Hasher, root: Merkle.Digest, params: LigeroParams, tables: Option<Code>, rows: nat,
    openings: seq<Merkle.ColumnOpening>, batch: ClaimBatch, claims: seq<LinearClaim>, gamma: Vec)
    : Result<bool, LigeroError>
    requires Fits(params, tables) && |claims| == |gamma| && |batch.coefficients| == params.ClaimDegreeBound()
  {
    FitsFacts(params, tables);
    if !AllValid(params.rowLen, rows, claims) then Err(LigeroError.WrongPointLength)
    else
      var bad := BadOpening(openings, params.codewordLen, rows + 2);
      if bad.Some? then Err(bad.value)
      else
        GoodOpenings(openings, params.codewordLen, rows + 2);
        var m := DenseRows(claims, gamma, params.rowLen, rows);
        Ok(OpeningsPass(h, root, params, tables, m, openings, batch, claims, gamma))
  }

  /** The verdict on a claim batch, in the order of the checks. */
  ghost function Verdict(
    h: Merkle.Hasher, root: Merkle.Digest, params: LigeroParams, tables: Option<Code>, committedLen: nat,
    openings: seq<Merkle.ColumnOpening>, batch: ClaimBatch, claims: seq<LinearClaim>, gamma: Vec)
    : Result<bool, LigeroError>
    requires params.codewordLen <= U64_MAX && (params.Validate().Ok? ==> Fits(params, tables))
  {
    if params.Validate().Err? then Err(params.Validate().error)
    else if |openings| != params.openings then Err(WrongOpeningCount)
    else if claims == [] || gamma == [] then Err(EmptyGamma)
    else if |claims| != |gamma| then Err(WrongGammaLength)
    else if |batch.coefficients| != params.ClaimDegreeBound() then Err(WrongClaimLength)
    else if batch.blindClaim != 0 then Ok(false)
    else
      FitsFacts(params, tables);
      BodyVerdict(h, root, params, tables, Rows(committedLen, params.rowLen), openings, batch, claims, gamma)
  }

  lemma {:induction false} SameBadOpening(openings: seq<Merkle.ColumnOpening>, codewordLen: nat, height: nat, t: nat)
    requires t < |openings|
    requires forall s :: 0 <= s < t ==> openings[s].index < codewordLen && |openings[s].column| == height
    requires openings[t].index >= codewordLen || |openings[t].column| != height
    ensures BadOpening(openings, codewordLen, height)
         == Some(if openings[t].index >= codewordLen then LigeroError.ColumnOutOfRange else WrongGammaLength)
  {
    if t > 0 {
      forall s | 0 <= s < t - 1
        ensures openings[1..][s].index < codewordLen && |openings[1..][s].column| == height
      {
        assert openings[1..][s] == openings[s + 1];
      }
      SameBadOpening(openings[1..], codewordLen, height, t - 1);
    }
  }

  /** The weights of every listed row, at every opened column. */
  method EvaluateRows(params: LigeroParams, tables: Option<Code>, list: seq<RowWeights>, indices: seq<nat>)
    returns (values: seq<Vec>)
    requires Fits(params, tables) && ListShaped(list, params.rowLen) && AllBelowLength(indices, params.codewordLen)
    ensures |values| == |list|
    ensures forall k :: 0 <= k < |list| ==> WeightsAt(params, tables, list[k].weights, indices, values[k])
  {
    hide Fits, WeightsAt;
    values := [];
    for k := 0 to |list|
      invariant |values| == k
      invariant forall i :: 0 <= i < k ==> WeightsAt(params, tables, list[i].weights, indices, values[i])
    {
      var v := EvalWeights(params, tables, list[k].weights, indices);
      values := values + [v.value];
    }
  }

  /** start plus the listed rows' weights times the column entries. */
  method CombineRows(
    params: LigeroParams, ghost tables: Option<Code>, list: seq<RowWeights>, values: seq<Vec>, indices: seq<nat>, t: nat,
    start: Fp, column: Vec, ghost place: Place) returns (combined: Fp)
    requires Fits(params, tables) && ListShaped(list, params.rowLen) && AllBelowLength(indices, params.codewordLen)
    requires |values| == |list| && t < |indices| && ListBelow(list, |column|)
    requires forall k :: 0 <= k < |list| ==> WeightsAt(params, tables, list[k].weights, indices, values[k])
    requires place == PlaceOf(params, tables, indices[t]) && PlaceFits(params, place)
    ensures combined == Add(start, ListCombined(list, params.rowLen, WeightVector(params, tables, place), column))
  {
    hide Fits, WeightVector, PlaceFits, PlaceOf;
    combined := start;
    Units(start);
    ghost var at := WeightVector(params, tables, place);
    assert list[..0] == [];
    for k := 0 to |list|
      invariant combined == Add(start, ListCombined(list[..k], params.rowLen, at, column))
    {
      assert list[..k + 1] == list[..k] + [list[k]];
      ListSnoc(list[..k], list[k], params.rowLen, at, column);
      assert WeightsAt(params, tables, list[k].weights, indices, values[k]);
      AddAssoc(start, ListCombined(list[..k], params.rowLen, at, column), Mul(Dot(list[k].weights, at), column[list[k].row]));
      combined := Add(combined, Mul(values[k][t], column[list[k].row]));
    }
    assert list[..|list|] == list;
  }

  method SumClaims(claims: seq<LinearClaim>, gamma: Vec, start: Fp) returns (sum: Fp)
    requires |claims| == |gamma|
    ensures sum == ClaimSum(claims, gamma, start)
  {
    sum := start;
    for k := 0 to |claims|
      invariant sum == ClaimSum(claims[..k], gamma[..k], start)
    {
      assert claims[..k + 1][..k] == claims[..k] && gamma[..k + 1][..k] == gamma[..k];
      sum := Add(sum, Mul(gamma[k], claims[k].value));
    }
    assert claims[..|claims|] == claims && gamma[..|gamma|] == gamma;
  }

  function OpeningIndices(openings: seq<Merkle.ColumnOpening>): (s: seq<nat>)
    ensures |s| == |openings|
  {
    seq(|openings|, t requires 0 <= t < |openings| => openings[t].index)
  }

  lemma {:induction false} ListPrefixColumn(list: seq<RowWeights>, rowLen: nat, at: Vec, column: Vec, n: nat)
    requires ListShaped(list, rowLen) && |at| == rowLen && ListBelow(list, n) && n <= |column|
    ensures ListCombined(list, rowLen, at, column) == ListCombined(list, rowLen, at, column[..n])
  {
    if list != [] {
      ListPrefixColumn(list[..|list| - 1], rowLen, at, column, n);
    }
  }

  /** One opened column against the batch. */
  method CheckColumn(
    h: Merkle.Hasher, root: Merkle.Digest, params: LigeroParams, tables: Option<Code>, list: seq<RowWeights>,
    values: seq<Vec>, indices: seq<nat>, t: nat, batchValue: Fp, opening: Merkle.ColumnOpening, rows: nat,
    ghost m: seq<Vec>, ghost coefficients: Vec) returns (ok: bool)
    requires Fits(params, tables) && Matrix(m, rows, params.rowLen) && list == NonzeroRows(m)
    requires ListShaped(list, params.rowLen) && AllBelowLength(indices, params.codewordLen)
    requires |values| == |list| && t < |indices| && opening.index == indices[t] && |opening.column| == rows + 2
    requires forall k :: 0 <= k < |list| ==> WeightsAt(params, tables, list[k].weights, indices, values[k])
    requires batchValue == MessageEval(coefficients, PlaceOf(params, tables, opening.index))
    ensures ok == ColumnChecks(h, root, params, tables, m, coefficients, opening)
  {
    hide Fits, WeightsAt, MessageEval, PlaceOf, WeightVector, PlaceFits, Merkle.Accepts;
    var verified := Merkle.VerifyColumn(h, root, opening);
    if !verified {
      return false;
    }
    PlaceOfFits(params, tables, opening.index);
    ghost var place := PlaceOf(params, tables, opening.index);
    ghost var at := WeightVector(params, tables, place);
    var combined := CombineRows(params, tables, list, values, indices, t, opening.column[rows + 1], opening.column, place);
    NonzeroCombined(m, params.rowLen, at, opening.column[..rows]);
    ListPrefixColumn(list, params.rowLen, at, opening.column, rows);
    ok := batchValue == combined;
  }

  /** The pass over the openings before anything is evaluated. */
  method FindBadOpening(openings: seq<Merkle.ColumnOpening>, codewordLen: nat, height: nat) returns (bad: Option<LigeroError>)
    ensures bad == BadOpening(openings, codewordLen, height)
  {
    for t := 0 to |openings|
      invariant forall s :: 0 <= s < t ==> openings[s].index < codewordLen && |openings[s].column| == height
    {
      if openings[t].index >= codewordLen {
        SameBadOpening(openings, codewordLen, height, t);
        return Some(LigeroError.ColumnOutOfRange);
      }
      if |openings[t].column| != height {
        SameBadOpening(openings, codewordLen, height, t);
        return Some(WrongGammaLength);
      }
    }
    GoodOpenings(openings, codewordLen, height);
    return None;
  }

  /** Weights, shape of the openings, column checks and sum check. */
  method VerifyBody(
    h: Merkle.Hasher, root: Merkle.Digest, params: LigeroParams, tables: Option<Code>, rows: nat,
    openings: seq<Merkle.ColumnOpening>, batch: ClaimBatch, claims: seq<LinearClaim>, gamma: Vec)
    returns (r: Result<bool, LigeroError>)
    requires Fits(params, tables) && claims != [] && |claims| == |gamma|
    requires |batch.coefficients| == params.ClaimDegreeBound()
    ensures r == BodyVerdict(h, root, params, tables, rows, openings, batch, claims, gamma)
  {
    hide Fits, WeightsAt, LigeroParams.Validate, LigeroParams.Geom, DenseRows, Extraction, AllValid, ColumnChecks,
         ClaimSum, MessageEval, PlaceOf, BadOpening, OpeningsPass;
    FitsFacts(params, tables);
    var weights := BatchedRowWeights(params.rowLen, rows, claims, gamma);
    if weights.Err? {
      return Err(weights.error);
    }
    ghost var m := DenseRows(claims, gamma, params.rowLen, rows);
    var bad := FindBadOpening(openings, params.codewordLen, rows + 2);
    if bad.Some? {
      return Err(bad.value);
    }
    GoodOpenings(openings, params.codewordLen, rows + 2);
    r := CheckOpenings(h, root, params, tables, weights.value, rows, openings, batch, claims, gamma, m);
  }

  method VerifyClaimBatch(
    h: Merkle.Hasher, root: Merkle.Digest, params: LigeroParams, tables: Option<Code>, committedLen: nat,
    openings: seq<Merkle.ColumnOpening>, batch: ClaimBatch, claims: seq<LinearClaim>, gamma: Vec)
    returns (r: Result<bool, LigeroError>)
    requires params.codewordLen <= U64_MAX && (params.Validate().Ok? ==> Fits(params, tables))
    ensures r == Verdict(h, root, params, tables, committedLen, openings, batch, claims, gamma)
    ensures params.Validate().Err? ==> r == Err(params.Validate().error)
    ensures params.Validate().Ok? && |openings| != params.openings ==> r == Err(WrongOpeningCount)
    ensures params.Validate().Ok? && |openings| == params.openings && (claims == [] || gamma == []) ==> r == Err(EmptyGamma)
    ensures params.Validate().Ok? && |openings| == params.openings && claims != [] && gamma != [] && |claims| != |gamma| ==>
              r == Err(WrongGammaLength)
    ensures (&& params.Validate().Ok? && |openings| == params.openings && claims != [] && |claims| == |gamma|
             && |batch.coefficients| != params.ClaimDegreeBound()) ==> r == Err(WrongClaimLength)
  {
    hide Fits, WeightsAt, LigeroParams.Validate, LigeroParams.Geom, DenseRows, Extraction, AllValid, DivCeil,
         ColumnChecks, ClaimSum, MessageEval, PlaceOf, BodyVerdict;
    var valid := params.Validate();
    if valid.Err? {
      return Err(valid.error);
    }
    if |openings| != params.openings {
      return Err(WrongOpeningCount);
    }
    if claims == [] || gamma == [] {
      return Err(EmptyGamma);
    }
    if |claims| != |gamma| {
      return Err(WrongGammaLength);
    }
    FitsFacts(params, tables);
    if |batch.coefficients| != params.ClaimDegreeBound() {
      return Err(WrongClaimLength);
    }
    if batch.blindClaim != 0 {
      return Ok(false);
    }
    r := VerifyBody(h, root, params, tables, Rows(committedLen, params.rowLen), openings, batch, claims, gamma);
  }

  method CheckColumns(
    h: Merkle.Hasher, root: Merkle.Digest, params: LigeroParams, tables: Option<Code>, list: seq<RowWeights>,
    values: seq<Vec>, indices: seq<nat>, batchAt: Vec, openings: seq<Merkle.ColumnOpening>, rows: nat, ghost m: seq<Vec>,
    ghost coefficients: Vec) returns (ok: bool)
    requires Fits(params, tables) && Matrix(m, rows, params.rowLen) && list == NonzeroRows(m)
    requires ListShaped(list, params.rowLen) && AllBelowLength(indices, params.codewordLen)
    requires forall t :: 0 <= t < |openings| ==> openings[t].index < params.codewordLen && |openings[t].column| == rows + 2
    requires indices == OpeningIndices(openings) && EvaluatedAt(params, tables, coefficients, indices, batchAt)
    requires |values| == |list|
    requires forall k :: 0 <= k < |list| ==> WeightsAt(params, tables, list[k].weights, indices, values[k])
    ensures ok == forall t :: 0 <= t < |openings| ==> ColumnChecks(h, root, params, tables, m, coefficients, openings[t])
  {
    hide Fits, WeightsAt, ColumnChecks, MessageEval, PlaceOf, NonzeroRows, ListShaped, AllBelowLength;
    for t := 0 to |openings|
      invariant forall s :: 0 <= s < t ==> ColumnChecks(h, root, params, tables, m, coefficients, openings[s])
    {
      ok := CheckColumn(h, root, params, tables, list, values, indices, t, batchAt[t], openings[t], rows, m, coefficients);
      if !ok {
        return false;
      }
    }
    return true;
  }

  /** The checks that can only accept or reject. */
  method CheckOpenings(
    h: Merkle.Hasher, root: Merkle.Digest, params: LigeroParams, tables: Option<Code>, list: seq<RowWeights>, rows: nat,
    openings: seq<Merkle.ColumnOpening>, batch: ClaimBatch, claims: seq<LinearClaim>, gamma: Vec, ghost m: seq<Vec>)
    returns (r: Result<bool, LigeroError>)
    requires Fits(params, tables) && Matrix(m, rows, params.rowLen) && list == NonzeroRows(m) && |claims| == |gamma|
    requires |batch.coefficients| == params.ClaimDegreeBound()
    requires forall t :: 0 <= t < |openings| ==> openings[t].index < params.codewordLen && |openings[t].column| == rows + 2
    ensures |batch.coefficients| >= params.rowLen
    ensures r == Ok(OpeningsPass(h, root, params, tables, m, openings, batch, claims, gamma))
  {
    hide Fits, WeightsAt, LigeroParams.Validate, LigeroParams.Geom, Extraction, ColumnChecks, ClaimSum, MessageEval,
         PlaceOf;
    FitsFacts(params, tables);
    var indices := OpeningIndices(openings);
    var batchAt := EvalCoeffs(params, tables, batch.coefficients, |batch.coefficients|, indices);
    ResidualShape(m, rows, params.rowLen);
    var values := EvaluateRows(params, tables, list, indices);
    var good := CheckColumns(h, root, params, tables, list, values, indices, batchAt.value, openings, rows, m, batch.coefficients);
    if !good {
      return Ok(false);
    }
    var qSum := ClaimExtractionSum(params, tables, batch.coefficients);
    var claimSum := SumClaims(claims, gamma, batch.blindClaim);
    r := Ok(qSum == claimSum);
  }

  // ----- completeness -----

  lemma ClaimsInside(rowLen: nat, rows: nat, claims: seq<LinearClaim>, k: nat)
    requires AllValid(rowLen, rows, claims) && k < |claims|
    ensures claims[k].offset + claims[k].len <= CellNumber(rows, rowLen, 0)
  {
    assert ValidateLinearClaim(rowLen, rows, claims[k]).Ok?;
  }

  /** An honestly opened column holds the values of all rows at its place. */
  lemma HonestEntries(
    h: Merkle.Hasher, c: Commitment, tables: Option<Code>, secret: Vec, messages: seq<Vec>, mask: Vec, blind: Vec,
    opening: Merkle.ColumnOpening)
    requires Commits(h, c, tables, secret, messages, mask, blind) && Honest(h, c, [opening])
    ensures opening.index < c.params.codewordLen && |opening.column| == |messages| + 2
    ensures var place := PlaceOf(c.params, tables, opening.index);
            && (forall r :: 0 <= r < |messages| ==> opening.column[r] == MessageEval(messages[r], place))
            && opening.column[|messages| + 1] == MessageEval(blind, place)
  {
    var params, n := c.params, |messages|;
    hide Fits, MessageEval, Merkle.MerkleCommitment.Valid, Merkle.Accepts, AllCarry, Extraction, DivCeil;
    assert [opening][0] == opening;
    forall r | 0 <= r < n ensures opening.column[r] == MessageEval(messages[r], PlaceOf(params, tables, opening.index)) {
      assert Encodes(params, tables, messages[r], c.encodedRows[r]);
    }
    assert Encodes(params, tables, blind, c.encodedRows[n + 1]);
  }

  /** At an honestly opened column the owed batch is what the verifier expects. */
  lemma HonestColumn(
    h: Merkle.Hasher, c: Commitment, tables: Option<Code>, secret: Vec, messages: seq<Vec>, mask: Vec, blind: Vec,
    m: seq<Vec>, q: Vec, opening: Merkle.ColumnOpening)
    requires Commits(h, c, tables, secret, messages, mask, blind) && Matrix(m, |messages|, c.params.rowLen)
    requires IsBatch(c.params, tables, m, messages, blind, q) && Honest(h, c, [opening])
    ensures opening.index < c.params.codewordLen && |opening.column| == |m| + 2
    ensures ColumnChecks(h, c.merkle.root, c.params, tables, m, q, opening)
  {
    var params, n := c.params, |messages|;
    hide Fits, MessageEval, WeightVector, PlaceFits, PlaceOf, CommittedRows, Merkle.MerkleCommitment.Valid,
         Merkle.Accepts, IsBatch, DivCeil;
    assert [opening][0] == opening;
    HonestEntries(h, c, tables, secret, messages, mask, blind, opening);
    PlaceOfFits(params, tables, opening.index);
    var place := PlaceOf(params, tables, opening.index);
    assert opening.column[..n] == Column(messages, place);
    BatchAt(params, tables, m, messages, blind, q, place);
  }

  lemma BatchAt(
    params: LigeroParams, tables: Option<Code>, m: seq<Vec>, messages: seq<Vec>, blind: Vec, q: Vec, place: Place)
    requires Fits(params, tables) && Matrix(m, |messages|, params.rowLen) && IsBatch(params, tables, m, messages, blind, q)
    requires PlaceFits(params, place)
    ensures MessageEval(q, place)
         == Add(MessageEval(blind, place),
                RowsCombined(m, params.rowLen, WeightVector(params, tables, place), Column(messages, place)))
  {
    hide Fits, MessageEval, WeightVector, PlaceFits;
  }

  /** Completeness: the batch owed for true claims is accepted at every honest set of openings, under both codes. */
  lemma HonestBatchAccepted(
    h: Merkle.Hasher, c: Commitment, tables: Option<Code>, secret: Vec, messages: seq<Vec>, mask: Vec, blind: Vec,
    claims: seq<LinearClaim>, gamma: Vec, batch: ClaimBatch, openings: seq<Merkle.ColumnOpening>)
    requires c.params.codewordLen <= U64_MAX && Commits(h, c, tables, secret, messages, mask, blind)
    requires claims != [] && |claims| == |gamma| && AllValid(c.params.rowLen, c.witnessRows, claims)
    requires TrueClaims(secret, claims)
    requires OwedBatch(c.params, tables, secret, messages, blind, claims, gamma, batch)
    requires |openings| == c.params.openings && Honest(h, c, openings)
    ensures Verdict(h, c.merkle.root, c.params, tables, |secret|, openings, batch, claims, gamma) == Ok(true)
  {
    var params := c.params;
    hide Fits, MessageEval, WeightVector, PlaceFits, Merkle.IsTree, Merkle.Accepts, AllCarry, Extraction, ColumnChecks,
         AllValid, DenseRows, DataRows, IsBatch, Pairing, WeightCells, WitnessCells, CellNumber, TrueClaims,
         LigeroParams.Validate, LigeroParams.Geom, DivCeil, ClaimSum;
    FitsFacts(params, tables);
    FitsValidates(params, tables);
    var n := |messages|;
    var m := DenseRows(claims, gamma, params.rowLen, n);
    BatchLength(params, tables, m, messages, blind, batch.coefficients);
    forall t | 0 <= t < |openings|
      ensures openings[t].index < params.codewordLen && |openings[t].column| == n + 2
      ensures ColumnChecks(h, c.merkle.root, params, tables, m, batch.coefficients, openings[t])
    {
      HonestColumn(h, c, tables, secret, messages, mask, blind, m, batch.coefficients, openings[t]);
    }
    GoodOpenings(openings, params.codewordLen, n + 2);
    PairingIsFlat(claims, gamma, secret, params.rowLen, n);
    forall k | 0 <= k < |claims| ensures claims[k].offset + claims[k].len <= CellNumber(n, params.rowLen, 0) {
      ClaimsInside(params.rowLen, n, claims, k);
    }
    WeightsPairToValues(claims, gamma, secret, CellNumber(n, params.rowLen, 0));
  }

  lemma FitsValidates(params: LigeroParams, tables: Option<Code>)
    requires Fits(params, tables)
    ensures params.Validate().Ok?
  {
    hide LigeroParams.Validate;
  }

  /** The pipeline end to end: commit, open, batch, verify. */
  method CommitBatchVerify(
    h: Merkle.Hasher, secret: Vec, params: LigeroParams, tables: Option<Code>, pads: Pads, claims: seq<LinearClaim>,
    gamma: Vec, indices: seq<nat>) returns (accepted: bool)
    requires Fits(params, tables) && params.rowLen > 0 && PadsFit(params, |secret|, pads) && secret != []
    requires claims != [] && |claims| == |gamma|
    requires AllValid(params.rowLen, Rows(|secret|, params.rowLen), claims) && TrueClaims(secret, claims)
    requires |indices| == params.openings && AllBelowLength(indices, params.codewordLen)
    ensures accepted
  {
    hide Fits, TrueClaims, AllValid, LigeroParams.Validate, LigeroParams.Geom, Honest, OwedBatch, DivCeil, PadsFit,
         CommittedRows, Merkle.IsTree, PaddedRow, Verdict, DataRow;
    FitsFacts(params, tables);
    FitsValidates(params, tables);
    var commitment, messages, blind := CommitWitness(h, secret, params, tables, pads);
    var c := commitment.value;
    var openings := OpenColumns(h, c, indices);
    var batch := ClaimBatchFor(h, c, tables, claims, gamma, secret, messages, pads.mask, blind);
    var verdict := VerifyClaimBatch(h, c.merkle.root, params, tables, |secret|, openings.value, batch.value, claims, gamma);
    HonestBatchAccepted(h, c, tables, secret, messages, pads.mask, blind, claims, gamma, batch.value, openings.value);
    accepted := verdict == Ok(true);
  }
}
