/** Committing a witness as encoded rows under a Merkle tree, and batches of linear claims on it (ligero.rs). */
module Ligero {
  import opened Wrappers
  import opened Modulus
  import opened Field
  import opened Vectors
  import opened Polynomials
  import opened CircleGroup
  import opened CircleBasis
  import opened CircleTransform
  import opened CircleTables
  import opened CircleCode
  import opened ReedSolomon
  import opened LigeroParameters
  import opened LigeroWeights
  import opened LigeroPlan
  import opened LigeroCodes
  import opened LigeroEvaluation
  import Merkle

  // ----- the committed matrix -----

  function Rows(len: nat, rowLen: nat): nat
    requires rowLen > 0
  {
    DivCeil(len, rowLen)
  }

  /** The witness with zeros after its end. */
  function WitnessCell(secret: Vec, g: nat): Fp { if g < |secret| then secret[g] else 0 }

  function DataRow(secret: Vec, rowLen: nat, r: nat): (d: Vec)
    ensures |d| == rowLen
  {
    seq(rowLen, c requires 0 <= c => WitnessCell(secret, CellNumber(r, rowLen, c)))
  }

  function DataRows(secret: Vec, rowLen: nat, rows: nat): (m: seq<Vec>)
    ensures Matrix(m, rows, rowLen)
  {
    seq(rows, r requires 0 <= r => DataRow(secret, rowLen, r))
  }

  /** The random draws of a commitment, as parameters: pads per row, the mask row, the blind row. */
  datatype Pads = Pads(rows: seq<Vec>, mask: Vec, blind: Vec)

  predicate PadsFit(params: LigeroParams, witnessLen: nat, pads: Pads)
    requires params.rowLen > 0
  {
    && |pads.rows| == Rows(witnessLen, params.rowLen)
    && (forall r :: 0 <= r < |pads.rows| ==> |pads.rows[r]| == params.degreeBound - params.rowLen)
    && |pads.mask| == params.degreeBound
    && |pads.blind| == params.ClaimDegreeBound()
  }

  datatype Commitment = Commitment(
    params: LigeroParams, witnessRows: nat, proximityMaskRow: nat, claimBlindRow: nat,
    encodedRows: seq<Vec>, coefficientRows: seq<Vec>, merkle: Merkle.MerkleCommitment)
  {
    /** The systematic codeword prefix (RS), or the stored coefficients (circle). */
    function RowMessage(row: nat): Vec
      requires params.code == Rs ==> row < |encodedRows| && params.degreeBound <= |encodedRows[row]|
      requires params.code == Circle ==> row < |coefficientRows|
    {
      if params.code == Rs then encodedRows[row][..params.degreeBound] else coefficientRows[row]
    }
  }

  /** A codeword is the evaluation of its message at every position. */
  ghost predicate Encodes(params: LigeroParams, tables: Option<Code>, message: Vec, codeword: Vec)
    requires Fits(params, tables)
  {
    && |codeword| == params.codewordLen
    && (forall i :: 0 <= i < params.codewordLen ==> codeword[i] == MessageEval(message, PlaceOf(params, tables, i)))
    && (params.code == Rs ==> |message| <= |codeword| && codeword[..|message|] == message)
  }

  /** The messages and codewords of all rows, before the tree. */
  ghost predicate CommittedRows(
    params: LigeroParams, tables: Option<Code>, secret: Vec, messages: seq<Vec>, mask: Vec, blind: Vec,
    encoded: seq<Vec>, coefficients: seq<Vec>)
    requires Fits(params, tables)
  {
    var n := |messages|;
    && AllCarry(params, tables, messages, DataRows(secret, params.rowLen, n))
    && |encoded| == n + 2
    && (forall r :: 0 <= r < n ==> Encodes(params, tables, messages[r], encoded[r]))
    && |mask| == params.degreeBound && Encodes(params, tables, mask, encoded[n])
    && |blind| == params.ClaimDegreeBound() >= params.rowLen && Encodes(params, tables, blind, encoded[n + 1])
    && (params.code == Circle ==> coefficients == messages + [mask, blind])
  }

  ghost predicate Commits(
    h: Merkle.Hasher, c: Commitment, tables: Option<Code>, secret: Vec, messages: seq<Vec>, mask: Vec, blind: Vec)
  {
    && Fits(c.params, tables)
    && c.witnessRows == |messages| == Rows(|secret|, c.params.rowLen)
    && c.proximityMaskRow == c.witnessRows && c.claimBlindRow == c.witnessRows + 1
    && CommittedRows(c.params, tables, secret, messages, mask, blind, c.encodedRows, c.coefficientRows)
    && c.merkle.Valid(h)
    && |c.merkle.columns| == c.params.codewordLen
    && (forall i :: 0 <= i < c.params.codewordLen ==>
          && |c.merkle.columns[i]| == |c.encodedRows|
          && forall r :: 0 <= r < |c.encodedRows| ==> c.merkle.columns[i][r] == c.encodedRows[r][i])
  }

  method EncodeRsRow(params: LigeroParams, ghost tables: Option<Code>, message: Vec, bound: nat) returns (codeword: Vec)
    requires Fits(params, tables) && params.code == Rs && 1 <= |message| == bound <= params.codewordLen
    ensures Encodes(params, tables, message, codeword)
  {
    hide R, MessagePoly, Row, Eval, Fits, LigeroParams.Validate, LigeroParams.Geom, MessageEval;
    FitsFacts(params, tables);
    var encoder := RsEncoder.New(bound, params.codewordLen);
    assert message + Zeros(bound - |message|) == message;
    var encoded := encoder.value.EncodePadded(message);
    codeword := encoded.value;
    forall i | 0 <= i < params.codewordLen ensures codeword[i] == MessageEval(message, PlaceOf(params, tables, i)) {
      RsSymbol(message, params.codewordLen, i);
    }
    forall i | 0 <= i < |message| ensures codeword[i] == message[i] {
      Interpolates(message, i);
    }
  }

  method EncodeCircleRow(params: LigeroParams, tables: Option<Code>, message: Vec, bound: nat) returns (codeword: Vec)
    requires Fits(params, tables) && params.code == Circle && 1 <= |message| == bound <= params.codewordLen
    ensures Encodes(params, tables, message, codeword)
  {
    hide EvalC, Fits, LigeroParams.Validate, LigeroParams.Geom, Tables.Valid, BasisSums;
    FitsFacts(params, tables);
    var encoded := tables.value.Encode(message, bound);
    codeword := encoded.value;
  }

  /** `witness.chunks(rowLen)`: the r-th chunk. */
  function ChunkOf(secret: Vec, rowLen: nat, r: nat): (c: Vec)
    requires CellNumber(r, rowLen, 0) <= |secret|
    ensures |c| <= rowLen
  {
    var from := CellNumber(r, rowLen, 0);
    if from + rowLen <= |secret| then secret[from..from + rowLen] else secret[from..]
  }

  lemma ChunkIsRow(secret: Vec, rowLen: nat, r: nat)
    requires CellNumber(r, rowLen, 0) <= |secret|
    ensures ChunkOf(secret, rowLen, r) + Zeros(rowLen - |ChunkOf(secret, rowLen, r)|) == DataRow(secret, rowLen, r)
  {
    var from := CellNumber(r, rowLen, 0);
    forall c: nat ensures CellNumber(r, rowLen, c) == from + c { CellOffset(r, rowLen, c); }
    hide CellNumber;
    var padded := ChunkOf(secret, rowLen, r) + Zeros(rowLen - |ChunkOf(secret, rowLen, r)|);
    forall c | 0 <= c < rowLen ensures padded[c] == DataRow(secret, rowLen, r)[c] {
    }
  }

  /** The committed message of a row: data and pads side by side (RS), or data masked by pads off the window (circle). */
  ghost predicate PaddedRow(params: LigeroParams, tables: Option<Code>, data: Vec, pads: Vec, message: Vec)
    requires Fits(params, tables) && |data| == params.rowLen
  {
    if params.code == Rs then message == data + pads
    else
      FitsFacts(params, tables);
      tables.value.MaskedRow(data, pads, message)
  }

  method EncodeWitnessRow(params: LigeroParams, tables: Option<Code>, chunk: Vec, pads: Vec)
    returns (message: Vec, codeword: Vec)
    requires Fits(params, tables) && |chunk| <= params.rowLen && |pads| == params.degreeBound - params.rowLen
    ensures |message| == params.degreeBound && Encodes(params, tables, message, codeword)
    ensures Carries(params, tables, message, chunk + Zeros(params.rowLen - |chunk|))
    ensures PaddedRow(params, tables, chunk + Zeros(params.rowLen - |chunk|), pads, message)
  {
    hide EvalC, Fits, LigeroParams.Validate, LigeroParams.Geom, Tables.Valid, BasisSums, Encodes, PlaceOf, OnCircle;
    FitsFacts(params, tables);
    var padded := chunk + Zeros(params.rowLen - |chunk|);
    if params.code == Rs {
      message := padded + pads;
      codeword := EncodeRsRow(params, tables, message, params.degreeBound);
    } else {
      var row := tables.value.EncodeRow(chunk, pads);
      message := row.value.0;
      codeword := row.value.1;
      assert Evaluations(message, tables.value.window.domain) == padded;
      CircleEncodes(params, tables, message, codeword);
    }
  }

  lemma CircleEncodes(params: LigeroParams, tables: Option<Code>, message: Vec, codeword: Vec)
    requires Fits(params, tables) && params.code == Circle && codeword == Evaluations(message, tables.value.codeword.domain)
    ensures Encodes(params, tables, message, codeword)
  {
    hide Fits, EvalC, BasisSums, Tables.Valid, LigeroParams.Validate, LigeroParams.Geom;
    FitsFacts(params, tables);
  }

  /** The rows differ in their first entry at most. */
  predicate SameTail(a: Vec, b: Vec)
  {
    |a| == |b| && forall i :: 1 <= i < |a| ==> a[i] == b[i]
  }

  /** Shift the blind row so that its extraction is zero. */
  method ZeroSumBlind(params: LigeroParams, tables: Option<Code>, blindRow: Vec) returns (blind: Vec)
    requires Fits(params, tables) && |blindRow| == params.ClaimDegreeBound()
    ensures |blind| == |blindRow| && |blind| >= params.rowLen && Extraction(params, tables, blind) == 0
    ensures SameTail(blind, blindRow)
  {
    hide R, EvalC, Inv, Fits, LigeroParams.Validate, LigeroParams.Geom, Tables.Valid, BasisSums, Extraction;
    FitsFacts(params, tables);
    var sum := ClaimExtractionSum(params, tables, blindRow);
    if params.code == Rs {
      blind := blindRow[0 := Sub(blindRow[0], sum)];
      RsShift(params, tables, blindRow, sum);
    } else {
      var slots := R(params.rowLen);
      SmallDistinct(params.rowLen, 0);
      InvMul(slots);
      var slotsInv := Inv(slots);
      blind := blindRow[0 := Sub(blindRow[0], Mul(sum, slotsInv))];
      CircleShift(params, tables, blindRow, sum, slotsInv);
    }
  }

  lemma {:induction false} SumShift(a: Vec, d: Fp)
    requires |a| >= 1
    ensures Sum(a[0 := Sub(a[0], d)]) == Sub(Sum(a), d)
    decreases |a|
  {
    var n := |a| - 1;
    var b := a[0 := Sub(a[0], d)];
    if n == 0 {
      assert b[..0] == [] && a[..0] == [];
      Units(b[0]);
      Units(a[0]);
    } else {
      SumShift(a[..n], d);
      assert b[..n] == a[..n][0 := Sub(a[0], d)];
      ShiftLast(Sum(a[..n]), d, a[n]);
    }
  }

  lemma ShiftLast(s: Fp, d: Fp, x: Fp)
    ensures Add(Sub(s, d), x)
       == Sub(Add(s, x), d)
  {
    Same(ZAdd(ZSub(s, d), x),
         ZSub(ZAdd(s, x), d));
    hide *;
    Ring(s, d, x);
  }

  lemma RsShift(params: LigeroParams, tables: Option<Code>, row: Vec, sum: Fp)
    requires Fits(params, tables) && params.code == Rs && |row| >= params.rowLen >= 1
    requires sum == Extraction(params, tables, row)
    ensures Extraction(params, tables, row[0 := Sub(row[0], sum)]) == 0
  {
    hide Fits;
    var n := params.rowLen;
    SumShift(row[..n], sum);
    assert row[0 := Sub(row[0], sum)][..n] == row[..n][0 := Sub(row[0], sum)];
    Units(sum);
  }

  lemma EvalShiftConstant(c: Vec, d: Fp, p: Point)
    requires |c| >= 1
    ensures EvalC(c[0 := Sub(c[0], d)], p) == Sub(EvalC(c, p), d)
  {
    hide XBasis;
    var row := BasisRow(|c|, p);
    assert row[0] == 1 by { BasisPair(0, p); XBasisZero(p.x); }
    var e := c[0 := Sub(c[0], d)];
    SubAdd(c[0], d);
    assert e[0 := Add(e[0], d)] == c;
    DotBump(e, row, 0, d);
    Units(d);
    AddSub(EvalC(e, p), d);
  }

  lemma XBasisZero(u: Fp)
    ensures XBasis(0, u) == 1
  {
  }

  /** The constant coefficient counts once per window point. */
  lemma {:induction false} SumOverShift(c: Vec, d: Fp, points: seq<Point>)
    requires |c| >= 1 && |points| <= U64_MAX
    ensures SumOver(c[0 := Sub(c[0], d)], points) == Sub(SumOver(c, points), Mul(R(|points|), d))
    decreases |points|
  {
    hide R, EvalC;
    if points == [] {
      Canonical(0);
      Units(d);
      Units(0);
    } else {
      var n := |points| - 1;
      SumOverShift(c, d, points[..n]);
      EvalShiftConstant(c, d, points[n]);
      RAdd(n, 1);
      Canonical(1);
      OneMoreShift(SumOver(c, points[..n]), R(n), d, EvalC(c, points[n]));
    }
  }

  lemma OneMoreShift(s: Fp, n: Fp, d: Fp, e: Fp)
    ensures Add(Sub(s, Mul(n, d)), Sub(e, d))
       == Sub(Add(s, e), Mul(Add(n, 1), d))
  {
    Same(ZAdd(ZSub(s, ZMul(n, d)), ZSub(e, d)),
         ZSub(ZAdd(s, e), ZMul(ZAdd(n, 1), d)));
    hide *;
    Ring(s, n, d, e);
  }

  lemma UndoShare(n: Fp, s: Fp, v: Fp)
    ensures Mul(n, Mul(s, v))
       == Mul(s, Mul(n, v))
  {
    Same(ZMul(n, ZMul(s, v)),
         ZMul(s, ZMul(n, v)));
    hide *;
    Ring(n, s, v);
  }

  lemma CircleShift(params: LigeroParams, tables: Option<Code>, row: Vec, sum: Fp, slotsInv: Fp)
    requires Fits(params, tables) && params.code == Circle && |row| >= params.rowLen >= 1
    requires sum == Extraction(params, tables, row) && Mul(R(params.rowLen), slotsInv) == 1
    ensures Extraction(params, tables, row[0 := Sub(row[0], Mul(sum, slotsInv))]) == 0
  {
    hide R, EvalC, Fits, Tables.Valid, BasisSums, LigeroParams.Validate, LigeroParams.Geom;
    FitsFacts(params, tables);
    var points := tables.value.window.domain;
    SumOverShift(row, Mul(sum, slotsInv), points);
    UndoShare(R(params.rowLen), sum, slotsInv);
    Units(sum);
  }

  /** The drawn row determines the committed one: two rows with its tail that extract to the same value are equal. */
  lemma BlindDetermined(params: LigeroParams, tables: Option<Code>, row: Vec, row': Vec)
    requires Fits(params, tables) && |row| >= params.rowLen >= 1 && SameTail(row, row')
    requires Extraction(params, tables, row) == Extraction(params, tables, row')
    ensures row == row'
  {
    hide R, EvalC, Fits, Tables.Valid, BasisSums, LigeroParams.Validate, LigeroParams.Geom;
    FitsFacts(params, tables);
    var n, d := params.rowLen, Sub(row[0], row'[0]);
    SubLeftSub(row[0], row'[0]);
    assert row' == row[0 := Sub(row[0], d)];
    var s := Extraction(params, tables, row);
    if params.code == Rs {
      SumShift(row[..n], d);
      assert row'[..n] == row[..n][0 := Sub(row[0], d)];
      SubLeftSub(s, d);
      Units(s);
    } else {
      var points := tables.value.window.domain;
      SumOverShift(row, d, points);
      SubLeftSub(s, Mul(R(n), d));
      Units(s);
      SmallDistinct(n, 0);
      NoZeroDivisors(R(n), d);
    }
    SubZero(row[0], row'[0]);
  }

  // ----- committing -----

  lemma CarryOneMore(params: LigeroParams, tables: Option<Code>, secret: Vec, messages: seq<Vec>, message: Vec)
    requires Fits(params, tables) && AllCarry(params, tables, messages, DataRows(secret, params.rowLen, |messages|))
    requires |message| == params.degreeBound
    requires Carries(params, tables, message, DataRow(secret, params.rowLen, |messages|))
    ensures AllCarry(params, tables, messages + [message], DataRows(secret, params.rowLen, |messages| + 1))
  {
    hide Fits, Carries, DataRow;
  }

  /** One chunk of the witness, padded with zeros and pads and encoded. */
  method EncodeChunk(secret: Vec, params: LigeroParams, tables: Option<Code>, i: nat, pads: Vec)
    returns (message: Vec, codeword: Vec)
    requires Fits(params, tables) && params.rowLen > 0 && i < Rows(|secret|, params.rowLen)
    requires |pads| == params.degreeBound - params.rowLen
    ensures |message| == params.degreeBound && Encodes(params, tables, message, codeword)
    ensures Carries(params, tables, message, DataRow(secret, params.rowLen, i))
    ensures PaddedRow(params, tables, DataRow(secret, params.rowLen, i), pads, message)
  {
    hide Fits, Carries, DataRow, Encodes, PaddedRow, DivCeil, CellNumber, ChunkOf;
    BlocksBound(|secret|, params.rowLen, i);
    ChunkIsRow(secret, params.rowLen, i);
    message, codeword := EncodeWitnessRow(params, tables, ChunkOf(secret, params.rowLen, i), pads);
  }

  /** Rows carry the first cells of the witness and their pads, and are encoded. */
  ghost predicate RowsEncoded(
    params: LigeroParams, tables: Option<Code>, secret: Vec, pads: Pads, messages: seq<Vec>, encodedRows: seq<Vec>)
    requires Fits(params, tables)
  {
    && |messages| == |encodedRows| <= |pads.rows|
    && AllCarry(params, tables, messages, DataRows(secret, params.rowLen, |messages|))
    && (forall k :: 0 <= k < |messages| ==> Encodes(params, tables, messages[k], encodedRows[k]))
    && (forall k :: 0 <= k < |messages| ==>
          PaddedRow(params, tables, DataRow(secret, params.rowLen, k), pads.rows[k], messages[k]))
  }

  lemma NothingEncoded(params: LigeroParams, tables: Option<Code>, secret: Vec, pads: Pads)
    requires Fits(params, tables)
    ensures RowsEncoded(params, tables, secret, pads, [], [])
  {
    hide Fits;
  }

  lemma EncodeOneMore(
    params: LigeroParams, tables: Option<Code>, secret: Vec, pads: Pads, messages: seq<Vec>, encodedRows: seq<Vec>,
    message: Vec, codeword: Vec)
    requires Fits(params, tables) && RowsEncoded(params, tables, secret, pads, messages, encodedRows)
    requires |messages| < |pads.rows| && |message| == params.degreeBound && Encodes(params, tables, message, codeword)
    requires var d := DataRow(secret, params.rowLen, |messages|);
             Carries(params, tables, message, d) && PaddedRow(params, tables, d, pads.rows[|messages|], message)
    ensures RowsEncoded(params, tables, secret, pads, messages + [message], encodedRows + [codeword])
  {
    hide Fits, AllCarry, Carries, DataRow, DataRows, Encodes, PaddedRow;
    CarryOneMore(params, tables, secret, messages, message);
  }

  /** The witness rows: chunk, pad, encode. */
  method EncodeWitness(secret: Vec, params: LigeroParams, tables: Option<Code>, pads: Pads)
    returns (encodedRows: seq<Vec>, messages: seq<Vec>)
    requires Fits(params, tables) && PadsFit(params, |secret|, pads)
    ensures |messages| == |pads.rows| && RowsEncoded(params, tables, secret, pads, messages, encodedRows)
  {
    hide Fits, LigeroParams.Validate, LigeroParams.Geom, Carries, DataRow, Encodes, PaddedRow, DivCeil, RowsEncoded;
    FitsFacts(params, tables);
    encodedRows, messages := [], [];
    NothingEncoded(params, tables, secret, pads);
    for i := 0 to Rows(|secret|, params.rowLen)
      invariant |messages| == i && RowsEncoded(params, tables, secret, pads, messages, encodedRows)
    {
      var message, codeword := EncodeChunk(secret, params, tables, i, pads.rows[i]);
      EncodeOneMore(params, tables, secret, pads, messages, encodedRows, message, codeword);
      messages := messages + [message];
      encodedRows := encodedRows + [codeword];
    }
  }

  method EncodeRow(params: LigeroParams, tables: Option<Code>, message: Vec, bound: nat) returns (codeword: Vec)
    requires Fits(params, tables) && 1 <= |message| == bound <= params.codewordLen
    ensures Encodes(params, tables, message, codeword)
  {
    if params.code == Rs {
      codeword := EncodeRsRow(params, tables, message, bound);
    } else {
      codeword := EncodeCircleRow(params, tables, message, bound);
    }
  }

  /** All rows of a commitment: the witness rows, the proximity mask and the shifted blind row. */
  method CommitRows(secret: Vec, params: LigeroParams, tables: Option<Code>, pads: Pads)
    returns (encodedRows: seq<Vec>, coefficientRows: seq<Vec>, ghost messages: seq<Vec>, ghost blind: Vec)
    requires Fits(params, tables) && PadsFit(params, |secret|, pads)
    ensures CommittedRows(params, tables, secret, messages, pads.mask, blind, encodedRows, coefficientRows)
    ensures |blind| >= params.rowLen && Extraction(params, tables, blind) == 0 && SameTail(blind, pads.blind)
    ensures Merkle.Rectangular(encodedRows, params.codewordLen) && |messages| == |pads.rows|
    ensures forall k :: 0 <= k < |messages| ==>
              PaddedRow(params, tables, DataRow(secret, params.rowLen, k), pads.rows[k], messages[k])
  {
    hide Fits, LigeroParams.Validate, LigeroParams.Geom, Carries, DataRow, DataRows, Encodes, PaddedRow, Extraction,
         DivCeil;
    FitsFacts(params, tables);
    encodedRows, coefficientRows := EncodeWitness(secret, params, tables, pads);
    messages := coefficientRows;
    var maskCodeword := EncodeRow(params, tables, pads.mask, params.degreeBound);
    var blindRow := ZeroSumBlind(params, tables, pads.blind);
    blind := blindRow;
    var blindCodeword := EncodeRow(params, tables, blindRow, params.ClaimDegreeBound());
    encodedRows := encodedRows + [maskCodeword, blindCodeword];
    coefficientRows := if params.code == Circle then coefficientRows + [pads.mask, blindRow] else [];
    RowsRectangular(params, tables, messages, pads.mask, blind, encodedRows);
  }

  /** The tree over the columns: column i holds symbol i of every row. */
  method CommitMatrix(h: Merkle.Hasher, encodedRows: seq<Vec>, length: nat) returns (merkle: Merkle.MerkleCommitment)
    requires encodedRows != [] && length > 0 && Merkle.Rectangular(encodedRows, length)
    ensures merkle.Valid(h) && |merkle.columns| == length
    ensures forall i :: 0 <= i < length ==>
              && |merkle.columns[i]| == |encodedRows|
              && forall r :: 0 <= r < |encodedRows| ==> merkle.columns[i][r] == encodedRows[r][i]
  {
    hide Merkle.MerkleCommitment.Valid;
    assert |encodedRows[0]| == length;
    var committed := Merkle.CommitColumns(h, encodedRows);
    merkle := committed.value;
  }

  method CommitWitness(
    h: Merkle.Hasher, secret: Vec, params: LigeroParams, tables: Option<Code>, pads: Pads)
    returns (r: Result<Commitment, LigeroError>, ghost messages: seq<Vec>, ghost blind: Vec)
    requires params.codewordLen <= U64_MAX
    requires params.Validate().Ok? ==> Fits(params, tables) && PadsFit(params, |secret|, pads)
    ensures params.Validate().Err? ==> r == Err(params.Validate().error)
    ensures params.Validate().Ok? && secret == [] ==> r == Err(EmptyWitness)
    ensures params.Validate().Ok? && secret != [] ==>
              && r.Ok? && r.value.params == params
              && Commits(h, r.value, tables, secret, messages, pads.mask, blind)
              && Extraction(params, tables, blind) == 0 && SameTail(blind, pads.blind)
              && |messages| == |pads.rows|
              && forall i :: 0 <= i < |messages| ==>
                   PaddedRow(params, tables, DataRow(secret, params.rowLen, i), pads.rows[i], messages[i])
  {
    hide Fits, LigeroParams.Validate, LigeroParams.Geom, AllCarry, DataRow, DataRows, Encodes, PaddedRow, Extraction,
         DivCeil, Merkle.MerkleCommitment.Valid;
    messages, blind := [], [];
    var valid := params.Validate();
    if valid.Err? {
      return Err(valid.error), messages, blind;
    }
    if secret == [] {
      return Err(EmptyWitness), messages, blind;
    }
    FitsFacts(params, tables);
    var encodedRows, coefficientRows;
    encodedRows, coefficientRows, messages, blind := CommitRows(secret, params, tables, pads);
    var witnessRows := |encodedRows| - 2;
    var merkle := CommitMatrix(h, encodedRows, params.codewordLen);
    r := Ok(Commitment(params, witnessRows, witnessRows, witnessRows + 1, encodedRows, coefficientRows, merkle));
  }

  lemma RowsRectangular(
    params: LigeroParams, tables: Option<Code>, messages: seq<Vec>, mask: Vec, blind: Vec, encoded: seq<Vec>)
    requires Fits(params, tables) && |encoded| == |messages| + 2
    requires forall r :: 0 <= r < |messages| ==> Encodes(params, tables, messages[r], encoded[r])
    requires Encodes(params, tables, mask, encoded[|messages|]) && Encodes(params, tables, blind, encoded[|messages| + 1])
    ensures Merkle.Rectangular(encoded, params.codewordLen)
  {
    hide Fits, MessageEval;
    forall r | 0 <= r < |encoded| ensures |encoded[r]| == params.codewordLen {
      if r < |messages| { assert Encodes(params, tables, messages[r], encoded[r]); }
    }
  }

  // ----- opening columns -----

  /** Openings of committed columns that verify. */
  ghost predicate Honest(h: Merkle.Hasher, c: Commitment, openings: seq<Merkle.ColumnOpening>)
  {
    forall t :: 0 <= t < |openings| ==>
      && openings[t].index < |c.merkle.columns|
      && openings[t].column == c.merkle.columns[openings[t].index]
      && Merkle.Accepts(h, c.merkle.root, openings[t])
  }

  method OpenColumns(h: Merkle.Hasher, c: Commitment, indices: seq<nat>)
    returns (r: Result<seq<Merkle.ColumnOpening>, LigeroError>)
    requires c.merkle.Valid(h)
    ensures |indices| != c.params.openings ==> r == Err(WrongOpeningCount)
    ensures |indices| == c.params.openings && !AllBelowLength(indices, |c.merkle.columns|) ==>
              r == Err(MerkleFailure(Merkle.MerkleError.ColumnOutOfRange))
    ensures |indices| == c.params.openings && AllBelowLength(indices, |c.merkle.columns|) ==>
              && r.Ok? && |r.value| == |indices| && Honest(h, c, r.value)
              && forall t :: 0 <= t < |indices| ==> r.value[t].index == indices[t]
  {
    hide Merkle.IsTree, Merkle.Accepts;
    if |indices| != c.params.openings {
      return Err(WrongOpeningCount);
    }
    var openings: seq<Merkle.ColumnOpening> := [];
    for t := 0 to |indices|
      invariant |openings| == t && AllBelowLength(indices[..t], |c.merkle.columns|)
      invariant Honest(h, c, openings) && forall s :: 0 <= s < t ==> openings[s].index == indices[s]
    {
      var o := c.merkle.Open(h, indices[t]);
      if o.Err? {
        return Err(MerkleFailure(o.error));
      }
      openings := openings + [o.value];
    }
    assert indices[..|indices|] == indices;
    r := Ok(openings);
  }

  // ----- claim batches -----

  datatype ClaimBatch = ClaimBatch(coefficients: Vec, blindClaim: Fp)

  /** The batch the prover owes for these claims. */
  ghost predicate OwedBatch(
    params: LigeroParams, tables: Option<Code>, secret: Vec, messages: seq<Vec>, blind: Vec, claims: seq<LinearClaim>,
    gamma: Vec, batch: ClaimBatch)
    requires Fits(params, tables) && |claims| == |gamma|
  {
    var m := DenseRows(claims, gamma, params.rowLen, |messages|);
    && batch.blindClaim == 0
    && IsBatch(params, tables, m, messages, blind, batch.coefficients)
    && |batch.coefficients| >= params.rowLen
    && Extraction(params, tables, batch.coefficients)
       == Pairing(m, DataRows(secret, params.rowLen, |messages|), params.rowLen)
  }

  ghost predicate PartialBatch(
    params: LigeroParams, tables: Option<Code>, list: seq<RowWeights>, messages: seq<Vec>, blind: Vec,
    places: seq<Place>, values: Vec)
    requires Fits(params, tables) && ListShaped(list, params.rowLen) && ListBelow(list, |messages|)
    requires forall x :: 0 <= x < |places| ==> PlaceFits(params, places[x])
  {
    && |values| == |places|
    && forall x :: 0 <= x < |places| ==>
         values[x] == Add(MessageEval(blind, places[x]),
                          ListCombined(list, params.rowLen, WeightVector(params, tables, places[x]), Column(messages, places[x])))
  }

  lemma PartialStart(
    params: LigeroParams, tables: Option<Code>, messages: seq<Vec>, blind: Vec, places: seq<Place>, values: Vec)
    requires Fits(params, tables) && forall x :: 0 <= x < |places| ==> PlaceFits(params, places[x])
    requires |values| == |places| && forall x :: 0 <= x < |places| ==> values[x] == MessageEval(blind, places[x])
    ensures PartialBatch(params, tables, [], messages, blind, places, values)
  {
    hide Fits, MessageEval, WeightVector, PlaceFits;
    forall x | 0 <= x < |places| ensures Add(MessageEval(blind, places[x]), 0) == MessageEval(blind, places[x]) {
      Units(MessageEval(blind, places[x]));
    }
  }

  /** Adding one row's product at every place. */
  lemma PartialStep(
    params: LigeroParams, tables: Option<Code>, list: seq<RowWeights>, k: nat, messages: seq<Vec>, blind: Vec,
    places: seq<Place>, before: Vec, after: Vec)
    requires Fits(params, tables) && k < |list| && ListShaped(list, params.rowLen) && ListBelow(list, |messages|)
    requires forall x :: 0 <= x < |places| ==> PlaceFits(params, places[x])
    requires PartialBatch(params, tables, list[..k], messages, blind, places, before) && |after| == |before|
    requires forall x :: 0 <= x < |places| ==>
               after[x] == Add(before[x], Mul(Dot(list[k].weights, WeightVector(params, tables, places[x])), MessageEval(messages[list[k].row], places[x])))
    ensures PartialBatch(params, tables, list[..k + 1], messages, blind, places, after)
  {
    hide Fits, MessageEval, WeightVector, PlaceFits;
    assert list[..k + 1] == list[..k] + [list[k]];
    forall x | 0 <= x < |places|
      ensures after[x] == Add(MessageEval(blind, places[x]),
                              ListCombined(list[..k + 1], params.rowLen, WeightVector(params, tables, places[x]), Column(messages, places[x])))
    {
      var at, column := WeightVector(params, tables, places[x]), Column(messages, places[x]);
      ListSnoc(list[..k], list[k], params.rowLen, at, column);
      AddAssoc(MessageEval(blind, places[x]), ListCombined(list[..k], params.rowLen, at, column),
               Mul(Dot(list[k].weights, at), column[list[k].row]));
    }
  }

  /** After all rows, the values are those of the batch. */
  lemma PartialDone(
    params: LigeroParams, tables: Option<Code>, m: seq<Vec>, messages: seq<Vec>, blind: Vec, places: seq<Place>,
    values: Vec, q: Vec, x: nat)
    requires Fits(params, tables) && Matrix(m, |messages|, params.rowLen) && x < |places|
    requires forall y :: 0 <= y < |places| ==> PlaceFits(params, places[y])
    requires ListShaped(NonzeroRows(m), params.rowLen) && ListBelow(NonzeroRows(m), |messages|)
    requires PartialBatch(params, tables, NonzeroRows(m), messages, blind, places, values)
    requires IsBatch(params, tables, m, messages, blind, q)
    ensures values[x] == MessageEval(q, places[x])
  {
    hide Fits, MessageEval, WeightVector, PlaceFits;
    var at, column := WeightVector(params, tables, places[x]), Column(messages, places[x]);
    NonzeroCombined(m, params.rowLen, at, column);
  }
}
