/** What the split verifier decides (ligero.rs): the batch owed for true claims on two commitments is accepted at every pair
    of honest openings, a pair of columns passes exactly where the batch has the value of both blind rows and all weighted
    rows, and an accepted batch over any two matrices is the owed one or agrees with it at few columns. */
module LigeroSplitTheorems {
  import opened Wrappers
  import opened Modulus
  import opened Field
  import opened Vectors
  import opened Bits
  import opened CircleCode
  import opened LigeroParameters
  import opened LigeroWeights
  import opened LigeroPlan
  import opened LigeroCodes
  import opened LigeroEvaluation
  import opened Ligero
  import opened LigeroProver
  import opened LigeroVerifier
  import opened LigeroSplit
  import opened LigeroSoundness
  import Merkle

  // ----- the verdict, pair by pair -----

  ghost predicate PairShaped(params: LigeroParams, rowsA: nat, rowsB: nat, a: Merkle.ColumnOpening, b: Merkle.ColumnOpening)
  {
    a.index == b.index && a.index < params.codewordLen && |a.column| == rowsA + 2 && |b.column| == rowsB + 2
  }

  ghost predicate PairChecks(
    h: Merkle.Hasher, rootA: Merkle.Digest, rootB: Merkle.Digest, params: LigeroParams, tables: Option<Code>, m: seq<Vec>,
    rowsA: nat, rowsB: nat, coefficients: Vec, a: Merkle.ColumnOpening, b: Merkle.ColumnOpening)
    requires Fits(params, tables) && Matrix(m, rowsA + rowsB, params.rowLen) && PairShaped(params, rowsA, rowsB, a, b)
  {
    && Merkle.Accepts(h, rootA, a) && Merkle.Accepts(h, rootB, b)
    && MessageEval(coefficients, PlaceOf(params, tables, a.index))
       == SplitExpected(params, tables, m, a.index, a.column, b.column, rowsA, rowsB)
  }

  lemma {:induction false} SplitFromAccepts(
    h: Merkle.Hasher, rootA: Merkle.Digest, rootB: Merkle.Digest, params: LigeroParams, tables: Option<Code>, m: seq<Vec>,
    rowsA: nat, rowsB: nat, coefficients: Vec, openingsA: seq<Merkle.ColumnOpening>, openingsB: seq<Merkle.ColumnOpening>,
    sumOk: bool)
    requires Fits(params, tables) && Matrix(m, rowsA + rowsB, params.rowLen) && |openingsA| == |openingsB|
    ensures SplitFrom(h, rootA, rootB, params, tables, m, rowsA, rowsB, coefficients, openingsA, openingsB, sumOk) == Ok(true)
       <==> sumOk && forall t :: 0 <= t < |openingsA| ==>
              && PairShaped(params, rowsA, rowsB, openingsA[t], openingsB[t])
              && PairChecks(h, rootA, rootB, params, tables, m, rowsA, rowsB, coefficients, openingsA[t], openingsB[t])
    decreases |openingsA|
  {
    hide Fits, MessageEval, PlaceOf, Merkle.Accepts, SplitExpected;
    if openingsA != [] {
      SplitFromAccepts(h, rootA, rootB, params, tables, m, rowsA, rowsB, coefficients, openingsA[1..], openingsB[1..], sumOk);
      var restA, restB := openingsA[1..], openingsB[1..];
      forall t | 1 <= t < |openingsA| ensures openingsA[t] == restA[t - 1] && openingsB[t] == restB[t - 1] {}
      forall t | 0 <= t < |restA| ensures restA[t] == openingsA[t + 1] && restB[t] == openingsB[t + 1] {}
    }
  }

  // ----- pairs on code -----

  lemma ColumnConcat(messagesA: seq<Vec>, messagesB: seq<Vec>, place: Place)
    ensures Column(messagesA + messagesB, place) == Column(messagesA, place) + Column(messagesB, place)
  {
    hide MessageEval;
  }

  /** What a pair of columns on code has to agree with: both blind rows and all weighted rows. */
  ghost function OwedValue(
    params: LigeroParams, tables: Option<Code>, claims: seq<LinearClaim>, gamma: Vec, messages: seq<Vec>, blindA: Vec,
    blindB: Vec, place: Place): Fp
    requires Fits(params, tables) && |claims| == |gamma| && PlaceFits(params, place)
  {
    Add(Add(MessageEval(blindA, place), MessageEval(blindB, place)), RowsCombined(DenseRows(claims, gamma, params.rowLen, |messages|), params.rowLen, WeightVector(params, tables, place),
                    Column(messages, place)))
  }

  lemma ExpectedOnCode(
    params: LigeroParams, tables: Option<Code>, claims: seq<LinearClaim>, gamma: Vec, columnsA: seq<Vec>, columnsB: seq<Vec>,
    messagesA: seq<Vec>, messagesB: seq<Vec>, blindA: Vec, blindB: Vec, i: nat)
    requires Fits(params, tables) && |claims| == |gamma|
    requires OnCode(params, tables, columnsA, messagesA, blindA, i) && OnCode(params, tables, columnsB, messagesB, blindB, i)
    ensures i < params.codewordLen && PlaceFits(params, PlaceOf(params, tables, i))
    ensures var m := DenseRows(claims, gamma, params.rowLen, |messagesA| + |messagesB|);
            SplitExpected(params, tables, m, i, columnsA[i], columnsB[i], |messagesA|, |messagesB|)
            == OwedValue(params, tables, claims, gamma, messagesA + messagesB, blindA, blindB, PlaceOf(params, tables, i))
  {
    hide Fits, MessageEval, WeightVector, PlaceFits, PlaceOf, Column, RowsCombined, DenseRows;
    PlaceOfFits(params, tables, i);
    ColumnConcat(messagesA, messagesB, PlaceOf(params, tables, i));
  }

  /** A pair of committed columns on code passes if and only if the batch has the owed value there. */
  lemma SplitPairPassesIff(
    h: Merkle.Hasher, rootA: Merkle.Digest, rootB: Merkle.Digest, params: LigeroParams, tables: Option<Code>,
    claims: seq<LinearClaim>, gamma: Vec, columnsA: seq<Vec>, columnsB: seq<Vec>, messagesA: seq<Vec>, messagesB: seq<Vec>,
    blindA: Vec, blindB: Vec, coefficients: Vec, a: Merkle.ColumnOpening, b: Merkle.ColumnOpening)
    requires Fits(params, tables) && |claims| == |gamma| && a.index == b.index
    requires OnCode(params, tables, columnsA, messagesA, blindA, a.index) && a.column == columnsA[a.index]
    requires OnCode(params, tables, columnsB, messagesB, blindB, b.index) && b.column == columnsB[b.index]
    requires Merkle.Accepts(h, rootA, a) && Merkle.Accepts(h, rootB, b)
    ensures PlaceFits(params, PlaceOf(params, tables, a.index))
    ensures var m := DenseRows(claims, gamma, params.rowLen, |messagesA| + |messagesB|);
            var place := PlaceOf(params, tables, a.index);
            SplitFrom(h, rootA, rootB, params, tables, m, |messagesA|, |messagesB|, coefficients, [a], [b], true) == Ok(true)
            <==> MessageEval(coefficients, place)
                 == Add(Add(MessageEval(blindA, place), MessageEval(blindB, place)), RowsCombined(m, params.rowLen, WeightVector(params, tables, place), Column(messagesA + messagesB, place)))
  {
    hide Fits, MessageEval, WeightVector, PlaceFits, PlaceOf, Merkle.Accepts, SplitExpected, Column, RowsCombined,
         DenseRows;
    ExpectedOnCode(params, tables, claims, gamma, columnsA, columnsB, messagesA, messagesB, blindA, blindB, a.index);
    assert [a][1..] == [] && [b][1..] == [];
  }

  // ----- the batch owed for two commitments -----

  /** The joined messages with the sum of the blind rows owe a batch that has the owed value everywhere. */
  lemma OwedBatchValue(
    params: LigeroParams, tables: Option<Code>, claims: seq<LinearClaim>, gamma: Vec, messages: seq<Vec>, blindA: Vec,
    blindB: Vec, q: Vec, place: Place)
    requires Fits(params, tables) && |claims| == |gamma| && PlaceFits(params, place) && |blindA| == |blindB|
    requires IsBatch(params, tables, DenseRows(claims, gamma, params.rowLen, |messages|), messages, VAdd(blindA, blindB), q)
    ensures MessageEval(q, place) == OwedValue(params, tables, claims, gamma, messages, blindA, blindB, place)
  {
    hide Fits, MessageEval, WeightVector, PlaceFits, IsBatch, Column, RowsCombined, DenseRows;
    BatchAt(params, tables, DenseRows(claims, gamma, params.rowLen, |messages|), messages, VAdd(blindA, blindB), q, place);
    MessageEvalAdd(blindA, blindB, place);
  }

  /** At a pair on code the check compares the batch with the owed one. */
  lemma PairAgrees(
    h: Merkle.Hasher, rootA: Merkle.Digest, rootB: Merkle.Digest, params: LigeroParams, tables: Option<Code>,
    claims: seq<LinearClaim>, gamma: Vec, columnsA: seq<Vec>, columnsB: seq<Vec>, messagesA: seq<Vec>, messagesB: seq<Vec>,
    blindA: Vec, blindB: Vec, q: Vec, coefficients: Vec, a: Merkle.ColumnOpening, b: Merkle.ColumnOpening)
    requires Fits(params, tables) && |claims| == |gamma| && |blindA| == |blindB| && a.index == b.index
    requires OnCode(params, tables, columnsA, messagesA, blindA, a.index) && a.column == columnsA[a.index]
    requires OnCode(params, tables, columnsB, messagesB, blindB, b.index) && b.column == columnsB[b.index]
    requires Merkle.Accepts(h, rootA, a) && Merkle.Accepts(h, rootB, b)
    requires IsBatch(params, tables, DenseRows(claims, gamma, params.rowLen, |messagesA| + |messagesB|), messagesA + messagesB,
                     VAdd(blindA, blindB), q)
    ensures PairShaped(params, |messagesA|, |messagesB|, a, b)
    ensures PairChecks(h, rootA, rootB, params, tables, DenseRows(claims, gamma, params.rowLen, |messagesA| + |messagesB|),
                       |messagesA|, |messagesB|, coefficients, a, b)
       <==> AgreeAt(params, tables, coefficients, q, a.index)
  {
    hide Fits, MessageEval, WeightVector, PlaceFits, PlaceOf, Merkle.Accepts, SplitExpected, IsBatch, Column,
         RowsCombined, DenseRows, OwedValue;
    ExpectedOnCode(params, tables, claims, gamma, columnsA, columnsB, messagesA, messagesB, blindA, blindB, a.index);
    OwedBatchValue(params, tables, claims, gamma, messagesA + messagesB, blindA, blindB, q, PlaceOf(params, tables, a.index));
  }

  // ----- the joined witness -----

  /** The cells of two commitments in a row: the second starts on a row of its own. */
  function JoinedCells(secretA: Vec, secretB: Vec, rowsA: nat, rowLen: nat): (w: Vec)
    requires |secretA| <= CellNumber(rowsA, rowLen, 0)
  {
    secretA + Zeros(CellNumber(rowsA, rowLen, 0) - |secretA|) + secretB
  }

  lemma JoinedRow(secretA: Vec, secretB: Vec, rowsA: nat, rowLen: nat, r: nat)
    requires |secretA| <= CellNumber(rowsA, rowLen, 0)
    ensures DataRow(JoinedCells(secretA, secretB, rowsA, rowLen), rowLen, r)
         == if r < rowsA then DataRow(secretA, rowLen, r) else DataRow(secretB, rowLen, r - rowsA)
  {
    hide CellNumber;
    var w, start := JoinedCells(secretA, secretB, rowsA, rowLen), CellNumber(rowsA, rowLen, 0);
    if r < rowsA {
      RowsApart(r, rowsA, rowLen);
      forall c: nat | c < rowLen ensures WitnessCell(w, CellNumber(r, rowLen, c)) == WitnessCell(secretA, CellNumber(r, rowLen, c)) {
        CellOffset(r, rowLen, c);
      }
    } else {
      forall c: nat | c < rowLen
        ensures WitnessCell(w, CellNumber(r, rowLen, c)) == WitnessCell(secretB, CellNumber(r - rowsA, rowLen, c))
      {
        LaterRow(rowsA, r, rowLen, c);
      }
    }
  }

  lemma LaterRow(rowsA: nat, r: nat, rowLen: nat, c: nat)
    requires rowsA <= r
    ensures CellNumber(r, rowLen, c) == CellNumber(rowsA, rowLen, 0) + CellNumber(r - rowsA, rowLen, c)
  {
    assert r * rowLen == rowsA * rowLen + (r - rowsA) * rowLen;
  }

  lemma JoinedRows(secretA: Vec, secretB: Vec, rowsA: nat, rowsB: nat, rowLen: nat)
    requires |secretA| <= CellNumber(rowsA, rowLen, 0)
    ensures DataRows(JoinedCells(secretA, secretB, rowsA, rowLen), rowLen, rowsA + rowsB)
         == DataRows(secretA, rowLen, rowsA) + DataRows(secretB, rowLen, rowsB)
  {
    hide CellNumber, DataRow, JoinedCells;
    forall r: nat | r < rowsA + rowsB { JoinedRow(secretA, secretB, rowsA, rowLen, r); }
  }

  lemma AllCarryJoined(params: LigeroParams, tables: Option<Code>, a: seq<Vec>, da: seq<Vec>, b: seq<Vec>, db: seq<Vec>)
    requires Fits(params, tables) && AllCarry(params, tables, a, da) && AllCarry(params, tables, b, db)
    ensures AllCarry(params, tables, a + b, da + db)
  {
    hide Fits, Carries;
  }

  lemma CommitFacts(
    h: Merkle.Hasher, c: Commitment, tables: Option<Code>, secret: Vec, messages: seq<Vec>, mask: Vec, blind: Vec)
    requires Commits(h, c, tables, secret, messages, mask, blind)
    ensures Fits(c.params, tables) && 1 <= c.params.rowLen && c.merkle.Valid(h)
    ensures AllCarry(c.params, tables, messages, DataRows(secret, c.params.rowLen, |messages|))
    ensures |messages| == Rows(|secret|, c.params.rowLen) && |secret| <= CellNumber(|messages|, c.params.rowLen, 0)
    ensures |blind| == c.params.ClaimDegreeBound() >= c.params.rowLen && |c.merkle.columns| == c.params.codewordLen
  {
    hide Fits, MessageEval, Merkle.MerkleCommitment.Valid, AllCarry, CellNumber;
    FitsFacts(c.params, tables);
    BlocksBound(|secret|, c.params.rowLen, |messages|);
  }

  // ----- completeness -----

  /** Honest openings at equal indices pass every check against the owed batch. */
  lemma HonestPairs(
    h: Merkle.Hasher, cA: Commitment, cB: Commitment, tables: Option<Code>, secretA: Vec, secretB: Vec, messagesA: seq<Vec>,
    messagesB: seq<Vec>, maskA: Vec, maskB: Vec, blindA: Vec, blindB: Vec, claims: seq<LinearClaim>, gamma: Vec, q: Vec,
    openingsA: seq<Merkle.ColumnOpening>, openingsB: seq<Merkle.ColumnOpening>)
    requires Commits(h, cA, tables, secretA, messagesA, maskA, blindA) && Commits(h, cB, tables, secretB, messagesB, maskB, blindB)
    requires cA.params == cB.params && Fits(cA.params, tables) && |claims| == |gamma| && |blindA| == |blindB|
    requires IsBatch(cA.params, tables, DenseRows(claims, gamma, cA.params.rowLen, |messagesA| + |messagesB|),
                     messagesA + messagesB, VAdd(blindA, blindB), q)
    requires |openingsA| == |openingsB| && Honest(h, cA, openingsA) && Honest(h, cB, openingsB)
    requires forall t :: 0 <= t < |openingsA| ==> openingsA[t].index == openingsB[t].index
    ensures forall t :: 0 <= t < |openingsA| ==>
              && PairShaped(cA.params, |messagesA|, |messagesB|, openingsA[t], openingsB[t])
              && PairChecks(h, cA.merkle.root, cB.merkle.root, cA.params, tables,
                            DenseRows(claims, gamma, cA.params.rowLen, |messagesA| + |messagesB|), |messagesA|, |messagesB|, q,
                            openingsA[t], openingsB[t])
  {
    hide Fits, Commits, MessageEval, Merkle.Accepts, Merkle.MerkleCommitment.Valid, DenseRows, IsBatch, PairChecks,
         AgreeAt, OnCode, Honest;
    var params := cA.params;
    var m := DenseRows(claims, gamma, params.rowLen, |messagesA| + |messagesB|);
    forall t | 0 <= t < |openingsA|
      ensures PairShaped(params, |messagesA|, |messagesB|, openingsA[t], openingsB[t])
      ensures PairChecks(h, cA.merkle.root, cB.merkle.root, params, tables, m, |messagesA|, |messagesB|, q, openingsA[t], openingsB[t])
    {
      HonestOpening(h, cA, tables, secretA, messagesA, maskA, blindA, openingsA, t);
      HonestOpening(h, cB, tables, secretB, messagesB, maskB, blindB, openingsB, t);
      PairAgrees(h, cA.merkle.root, cB.merkle.root, params, tables, claims, gamma, cA.merkle.columns, cB.merkle.columns,
                 messagesA, messagesB, blindA, blindB, q, q, openingsA[t], openingsB[t]);
      AgreesWithItself(params, tables, q, openingsA[t].index);
    }
  }

  /** The batch owed for true claims on the joined cells is accepted at every pair of honest openings. */
  lemma HonestSplitBatchAccepted(
    h: Merkle.Hasher, cA: Commitment, cB: Commitment, tables: Option<Code>, secretA: Vec, secretB: Vec, messagesA: seq<Vec>,
    messagesB: seq<Vec>, maskA: Vec, maskB: Vec, blindA: Vec, blindB: Vec, claims: seq<LinearClaim>, gamma: Vec,
    batch: ClaimBatch, openingsA: seq<Merkle.ColumnOpening>, openingsB: seq<Merkle.ColumnOpening>)
    requires Commits(h, cA, tables, secretA, messagesA, maskA, blindA) && Commits(h, cB, tables, secretB, messagesB, maskB, blindB)
    requires cA.params == cB.params && Fits(cA.params, tables) && |blindA| >= cA.params.rowLen && |blindB| >= cA.params.rowLen
    requires Extraction(cA.params, tables, blindA) == Extraction(cA.params, tables, blindB) == 0
    requires claims != [] && |claims| == |gamma| && AllValid(cA.params.rowLen, |messagesA| + |messagesB|, claims)
    requires |secretA| <= CellNumber(|messagesA|, cA.params.rowLen, 0)
    requires TrueClaims(JoinedCells(secretA, secretB, |messagesA|, cA.params.rowLen), claims)
    requires |blindA| == |blindB| && batch.blindClaim == 0
    requires IsBatch(cA.params, tables, DenseRows(claims, gamma, cA.params.rowLen, |messagesA| + |messagesB|),
                     messagesA + messagesB, VAdd(blindA, blindB), batch.coefficients)
    requires |openingsA| == |openingsB| == cA.params.openings && Honest(h, cA, openingsA) && Honest(h, cB, openingsB)
    requires forall t :: 0 <= t < |openingsA| ==> openingsA[t].index == openingsB[t].index
    ensures cA.params.codewordLen <= U64_MAX
    ensures SplitVerdict(h, cA.merkle.root, cB.merkle.root, cA.params, tables, |secretA|, |secretB|, openingsA, openingsB, batch,
                         claims, gamma) == Ok(true)
  {
    hide Fits, Commits, MessageEval, Merkle.Accepts, Merkle.MerkleCommitment.Valid, AllCarry, Extraction, AllValid,
         DenseRows, DataRows, IsBatch, TrueClaims, LigeroParams.Validate, LigeroParams.Geom, DivCeil, ClaimSum,
         PairChecks, PairShaped, AgreeAt, JoinedCells, SplitVerdict, CellNumber, Honest;
    var params := cA.params;
    FitsFacts(params, tables);
    FitsValidates(params, tables);
    CommitFacts(h, cA, tables, secretA, messagesA, maskA, blindA);
    CommitFacts(h, cB, tables, secretB, messagesB, maskB, blindB);
    var m := DenseRows(claims, gamma, params.rowLen, |messagesA| + |messagesB|);
    BatchLength(params, tables, m, messagesA + messagesB, VAdd(blindA, blindB), batch.coefficients);
    HonestPairs(h, cA, cB, tables, secretA, secretB, messagesA, messagesB, maskA, maskB, blindA, blindB, claims, gamma,
                batch.coefficients, openingsA, openingsB);
    OwedSum(params, tables, secretA, secretB, messagesA, messagesB, blindA, blindB, claims, gamma, batch.coefficients);
    SplitPasses(h, cA.merkle.root, cB.merkle.root, params, tables, |messagesA|, |messagesB|, |secretA|, |secretB|, claims, gamma,
                batch, openingsA, openingsB);
  }

  /** A batch that meets all checks is accepted. */
  lemma SplitPasses(
    h: Merkle.Hasher, rootA: Merkle.Digest, rootB: Merkle.Digest, params: LigeroParams, tables: Option<Code>, rowsA: nat,
    rowsB: nat, lenA: nat, lenB: nat, claims: seq<LinearClaim>, gamma: Vec, batch: ClaimBatch,
    openingsA: seq<Merkle.ColumnOpening>, openingsB: seq<Merkle.ColumnOpening>)
    requires Fits(params, tables) && params.rowLen > 0
    requires rowsA == Rows(lenA, params.rowLen) && rowsB == Rows(lenB, params.rowLen)
    requires |openingsA| == |openingsB| == params.openings && claims != [] && |claims| == |gamma| && batch.blindClaim == 0
    requires AllValid(params.rowLen, rowsA + rowsB, claims)
    requires |batch.coefficients| == params.ClaimDegreeBound() >= params.rowLen
    requires Extraction(params, tables, batch.coefficients) == ClaimSum(claims, gamma, 0)
    requires forall t :: 0 <= t < |openingsA| ==>
               && PairShaped(params, rowsA, rowsB, openingsA[t], openingsB[t])
               && PairChecks(h, rootA, rootB, params, tables, DenseRows(claims, gamma, params.rowLen, rowsA + rowsB), rowsA,
                             rowsB, batch.coefficients, openingsA[t], openingsB[t])
    ensures params.codewordLen <= U64_MAX
    ensures SplitVerdict(h, rootA, rootB, params, tables, lenA, lenB, openingsA, openingsB, batch, claims, gamma) == Ok(true)
  {
    hide Fits, MessageEval, Merkle.Accepts, Extraction, PairChecks, AllValid, DenseRows, LigeroParams.Validate,
         LigeroParams.Geom, DivCeil, ClaimSum, SplitFrom;
    FitsFacts(params, tables);
    FitsValidates(params, tables);
    IndicesBelow(openingsA, params.codewordLen);
    SplitFromAccepts(h, rootA, rootB, params, tables, DenseRows(claims, gamma, params.rowLen, rowsA + rowsB), rowsA, rowsB,
                     batch.coefficients, openingsA, openingsB, true);
  }

  lemma AgreesWithItself(params: LigeroParams, tables: Option<Code>, q: Vec, i: nat)
    requires Fits(params, tables) && i < params.codewordLen
    ensures AgreeAt(params, tables, q, q, i)
  {
    hide Fits;
  }

  lemma IndicesBelow(openings: seq<Merkle.ColumnOpening>, n: nat)
    requires forall t :: 0 <= t < |openings| ==> openings[t].index < n
    ensures AllBelowLength(OpeningIndices(openings), n)
  {
  }

  lemma HonestOpening(
    h: Merkle.Hasher, c: Commitment, tables: Option<Code>, secret: Vec, messages: seq<Vec>, mask: Vec, blind: Vec,
    openings: seq<Merkle.ColumnOpening>, t: nat)
    requires Commits(h, c, tables, secret, messages, mask, blind) && Honest(h, c, openings) && t < |openings|
    ensures Fits(c.params, tables) && OnCode(c.params, tables, c.merkle.columns, messages, blind, openings[t].index)
    ensures openings[t].column == c.merkle.columns[openings[t].index] && openings[t].index < c.params.codewordLen
    ensures Merkle.Accepts(h, c.merkle.root, openings[t])
  {
    hide Fits, Commits, MessageEval, Merkle.Accepts, Merkle.MerkleCommitment.Valid, AllCarry, OnCode, DivCeil,
         CellNumber;
    CommitFacts(h, c, tables, secret, messages, mask, blind);
    CommittedOnCode(h, c, tables, secret, messages, mask, blind, openings[t].index);
  }

  /** The owed batch of true claims passes the sum check. */
  lemma OwedSum(
    params: LigeroParams, tables: Option<Code>, secretA: Vec, secretB: Vec, messagesA: seq<Vec>, messagesB: seq<Vec>,
    blindA: Vec, blindB: Vec, claims: seq<LinearClaim>, gamma: Vec, q: Vec)
    requires Fits(params, tables) && |claims| == |gamma| && AllValid(params.rowLen, |messagesA| + |messagesB|, claims)
    requires AllCarry(params, tables, messagesA, DataRows(secretA, params.rowLen, |messagesA|))
    requires AllCarry(params, tables, messagesB, DataRows(secretB, params.rowLen, |messagesB|))
    requires |blindA| == |blindB| == params.ClaimDegreeBound() >= params.rowLen
    requires Extraction(params, tables, blindA) == Extraction(params, tables, blindB) == 0
    requires |secretA| <= CellNumber(|messagesA|, params.rowLen, 0)
    requires TrueClaims(JoinedCells(secretA, secretB, |messagesA|, params.rowLen), claims)
    requires IsBatch(params, tables, DenseRows(claims, gamma, params.rowLen, |messagesA| + |messagesB|), messagesA + messagesB,
                     VAdd(blindA, blindB), q)
    ensures |q| >= params.rowLen && Extraction(params, tables, q) == ClaimSum(claims, gamma, 0)
  {
    hide Fits, AllCarry, Extraction, AllValid, DenseRows, DataRows, IsBatch, ClaimSum, Errors, Dot, OwedFor,
         JoinedCells, CellNumber, TrueClaims;
    var messages, secret, blind := messagesA + messagesB, JoinedCells(secretA, secretB, |messagesA|, params.rowLen), VAdd(blindA, blindB);
    JoinedRows(secretA, secretB, |messagesA|, |messagesB|, params.rowLen);
    AllCarryJoined(params, tables, messagesA, DataRows(secretA, params.rowLen, |messagesA|), messagesB, DataRows(secretB, params.rowLen, |messagesB|));
    ValidClaimsFit(params.rowLen, |messages|, claims);
    var owed := OwedMessage(params, tables, secret, messages, blind, claims, gamma);
    OwedParts(params, tables, secret, messages, blind, claims, gamma, owed);
    BatchUnique(params, tables, DenseRows(claims, gamma, params.rowLen, |messages|), messages, blind, owed, q);
    OwedSumIff(params, tables, secret, messages, blind, claims, gamma, q);
    ExtractionAdd(params, tables, blindA, blindB);
    Units(0);
    NoErrors(claims, secret, gamma);
  }

  lemma {:induction false} NoErrors(claims: seq<LinearClaim>, secret: Vec, gamma: Vec)
    requires |claims| == |gamma| && ClaimsFit(claims) && TrueClaims(secret, claims)
    ensures Dot(gamma, Errors(claims, secret)) == 0
  {
    hide TrueValue, Pow2;
    forall k | 0 <= k < |claims| ensures Errors(claims, secret)[k] == Zeros(|claims|)[k] {
      Units(claims[k].value);
    }
    assert Errors(claims, secret) == Zeros(|gamma|);
    hide Errors;
    DotZeros(gamma);
    DotComm(gamma, Zeros(|gamma|));
  }

  // ----- soundness -----

  /** An accepted split batch over any two committed matrices, compared with any messages and blind rows: it is the batch
      owed to them, and the batched claim errors equal the sum of both blind rows, or every opened pair departs from the
      codewords in one of the matrices or lies among few columns. */
  lemma SplitBatchSoundness(
    h: Merkle.Hasher, merkleA: Merkle.MerkleCommitment, merkleB: Merkle.MerkleCommitment, params: LigeroParams,
    tables: Option<Code>, lenA: nat, lenB: nat, messagesA: seq<Vec>, messagesB: seq<Vec>, blindA: Vec, blindB: Vec,
    claims: seq<LinearClaim>, gamma: Vec, batch: ClaimBatch, openingsA: seq<Merkle.ColumnOpening>,
    openingsB: seq<Merkle.ColumnOpening>) returns (q: Vec)
    requires h.Ideal() && merkleA.Valid(h) && merkleB.Valid(h) && Fits(params, tables) && params.rowLen > 0
    requires Matrix(messagesA, Rows(lenA, params.rowLen), params.degreeBound)
    requires Matrix(messagesB, Rows(lenB, params.rowLen), params.degreeBound)
    requires |blindA| == |blindB| == params.ClaimDegreeBound() >= params.rowLen
    requires SplitVerdict(h, merkleA.root, merkleB.root, params, tables, lenA, lenB, openingsA, openingsB, batch, claims, gamma) == Ok(true)
    ensures |openingsA| == |openingsB| == params.openings && claims != [] && |claims| == |gamma| && ClaimsFit(claims)
    ensures OwedFor(params, tables, WitnessOf(params, tables, messagesA + messagesB), messagesA + messagesB, VAdd(blindA, blindB),
                    claims, gamma, q)
    ensures batch.coefficients == q ==>
              Dot(gamma, Errors(claims, WitnessOf(params, tables, messagesA + messagesB)))
              == Add(Extraction(params, tables, blindA), Extraction(params, tables, blindB))
    ensures batch.coefficients != q ==>
              && |Agreement(params, tables, batch.coefficients, q)| <= params.ClaimDegreeBound()
              && forall t :: 0 <= t < |openingsA| ==>
                   || openingsA[t].index in Agreement(params, tables, batch.coefficients, q)
                   || !OnCode(params, tables, merkleA.columns, messagesA, blindA, openingsA[t].index)
                   || !OnCode(params, tables, merkleB.columns, messagesB, blindB, openingsA[t].index)
  {
    hide Fits, MessageEval, Merkle.Accepts, Merkle.MerkleCommitment.Valid, Extraction, PairChecks, AllValid, DenseRows,
         DataRows, IsBatch, DivCeil, ClaimSum, Errors, Dot, Agreement, WitnessOf, OnCode, AllCarry, OwedFor,
         SplitVerdict, Merkle.Hasher.Ideal;
    var messages, blind := messagesA + messagesB, VAdd(blindA, blindB);
    var secret, n := WitnessOf(params, tables, messages), |messages|;
    SplitParts(h, merkleA.root, merkleB.root, params, tables, |messagesA|, |messagesB|, lenA, lenB, claims, gamma, batch, openingsA, openingsB);
    ValidClaimsFit(params.rowLen, n, claims);
    MessagesCarry(params, tables, messages);
    q := OwedMessage(params, tables, secret, messages, blind, claims, gamma);
    OwedParts(params, tables, secret, messages, blind, claims, gamma, q);
    OwedSumIff(params, tables, secret, messages, blind, claims, gamma, q);
    ExtractionAdd(params, tables, blindA, blindB);
    if batch.coefficients != q {
      AgreementBound(params, tables, batch.coefficients, q);
      forall t | 0 <= t < |openingsA| && OnCode(params, tables, merkleA.columns, messagesA, blindA, openingsA[t].index)
                 && OnCode(params, tables, merkleB.columns, messagesB, blindB, openingsA[t].index)
        ensures openingsA[t].index in Agreement(params, tables, batch.coefficients, q)
      {
        PairCaught(h, merkleA, merkleB, params, tables, claims, gamma, messagesA, messagesB, blindA, blindB, q, batch.coefficients,
                   openingsA[t], openingsB[t]);
      }
    }
  }

  lemma PairCaught(
    h: Merkle.Hasher, merkleA: Merkle.MerkleCommitment, merkleB: Merkle.MerkleCommitment, params: LigeroParams,
    tables: Option<Code>, claims: seq<LinearClaim>, gamma: Vec, messagesA: seq<Vec>, messagesB: seq<Vec>, blindA: Vec,
    blindB: Vec, q: Vec, coefficients: Vec, a: Merkle.ColumnOpening, b: Merkle.ColumnOpening)
    requires h.Ideal() && merkleA.Valid(h) && merkleB.Valid(h) && Fits(params, tables) && |claims| == |gamma| && |blindA| == |blindB|
    requires IsBatch(params, tables, DenseRows(claims, gamma, params.rowLen, |messagesA| + |messagesB|), messagesA + messagesB,
                     VAdd(blindA, blindB), q)
    requires PairShaped(params, |messagesA|, |messagesB|, a, b)
    requires PairChecks(h, merkleA.root, merkleB.root, params, tables,
                        DenseRows(claims, gamma, params.rowLen, |messagesA| + |messagesB|), |messagesA|, |messagesB|, coefficients, a, b)
    requires OnCode(params, tables, merkleA.columns, messagesA, blindA, a.index)
    requires OnCode(params, tables, merkleB.columns, messagesB, blindB, a.index)
    ensures a.index in Agreement(params, tables, coefficients, q)
  {
    hide Fits, MessageEval, Merkle.Accepts, Merkle.MerkleCommitment.Valid, Merkle.Hasher.Ideal, SplitExpected, IsBatch,
         DenseRows, AgreeAt, OnCode;
    Merkle.Binding(h, merkleA, a);
    Merkle.Binding(h, merkleB, b);
    PairAgrees(h, merkleA.root, merkleB.root, params, tables, claims, gamma, merkleA.columns, merkleB.columns, messagesA,
               messagesB, blindA, blindB, q, coefficients, a, b);
  }

  /** What the verifier has checked when it accepts. */
  lemma SplitParts(
    h: Merkle.Hasher, rootA: Merkle.Digest, rootB: Merkle.Digest, params: LigeroParams, tables: Option<Code>, rowsA: nat,
    rowsB: nat, lenA: nat, lenB: nat, claims: seq<LinearClaim>, gamma: Vec, batch: ClaimBatch,
    openingsA: seq<Merkle.ColumnOpening>, openingsB: seq<Merkle.ColumnOpening>)
    requires Fits(params, tables) && params.rowLen > 0
    requires rowsA == Rows(lenA, params.rowLen) && rowsB == Rows(lenB, params.rowLen)
    requires SplitVerdict(h, rootA, rootB, params, tables, lenA, lenB, openingsA, openingsB, batch, claims, gamma) == Ok(true)
    ensures |openingsA| == |openingsB| == params.openings && claims != [] && |claims| == |gamma|
    ensures AllValid(params.rowLen, rowsA + rowsB, claims)
    ensures |batch.coefficients| == params.ClaimDegreeBound() >= params.rowLen
    ensures Extraction(params, tables, batch.coefficients) == ClaimSum(claims, gamma, 0)
    ensures forall t :: 0 <= t < |openingsA| ==>
              && PairShaped(params, rowsA, rowsB, openingsA[t], openingsB[t])
              && PairChecks(h, rootA, rootB, params, tables, DenseRows(claims, gamma, params.rowLen, rowsA + rowsB), rowsA, rowsB,
                            batch.coefficients, openingsA[t], openingsB[t])
  {
    hide Fits, MessageEval, Merkle.Accepts, Extraction, PairChecks, AllValid, DenseRow, LigeroParams.Validate,
         LigeroParams.Geom, DivCeil, ClaimSum, SplitFrom;
    FitsFacts(params, tables);
    FitsValidates(params, tables);
    SplitFromAccepts(h, rootA, rootB, params, tables, DenseRows(claims, gamma, params.rowLen, rowsA + rowsB), rowsA, rowsB,
                     batch.coefficients, openingsA, openingsB,
                     Extraction(params, tables, batch.coefficients) == ClaimSum(claims, gamma, batch.blindClaim));
  }
}
