/** What an accepted claim batch proves about an arbitrary committed matrix (ligero.rs). Compare the matrix with any messages:
    either the batch is the one owed by these messages, and the batched claim errors equal a constant that only the blind
    row determines, or every opened column is one where the matrix departs from the messages or lies among the few
    positions where two different messages agree. Accepted proximity rows give such messages. */
module LigeroSoundness {
  import opened Wrappers
  import opened Modulus
  import opened Field
  import opened Vectors
  import opened Bits
  import opened Polynomials
  import opened CircleBasis
  import opened CircleTransform
  import opened CircleTables
  import opened CircleCode
  import opened ReedSolomon
  import opened LigeroParameters
  import opened LigeroWeights
  import opened LigeroPlan
  import opened LigeroCodes
  import opened Ligero
  import opened LigeroProver
  import opened LigeroVerifier
  import opened LigeroSplit

  // ----- positions at which two messages agree -----

  ghost predicate AgreeAt(params: LigeroParams, tables: Option<Code>, a: Vec, b: Vec, i: nat)
    requires Fits(params, tables)
  {
    i < params.codewordLen && MessageEval(a, PlaceOf(params, tables, i)) == MessageEval(b, PlaceOf(params, tables, i))
  }

  ghost function Agreement(params: LigeroParams, tables: Option<Code>, a: Vec, b: Vec): (s: set<nat>)
    requires Fits(params, tables)
  {
    set i: nat | i < params.codewordLen && AgreeAt(params, tables, a, b, i)
  }

  /** The elements of a set below n, in increasing order. */
  function Listed(s: set<nat>, n: nat): (l: seq<nat>)
    ensures IncreasingIndices(l, n) && forall i :: i in l <==> i in s && i < n
  {
    if n == 0 then [] else if n - 1 in s then Listed(s, n - 1) + [n - 1] else Listed(s, n - 1)
  }

  lemma {:induction false} ListedLength(s: set<nat>, n: nat)
    requires forall i :: i in s ==> i < n
    ensures |Listed(s, n)| == |s|
  {
    if n == 0 {
      assert s == {};
    } else if n - 1 in s {
      var rest := s - {n - 1};
      assert |s| == |rest| + 1;
      ListedLength(rest, n - 1);
      SameList(s, rest, n - 1);
      assert Listed(s, n) == Listed(rest, n - 1) + [n - 1] by { LastListed(s, n); }
    } else {
      ListedLength(s, n - 1);
    }
  }

  lemma LastListed(s: set<nat>, n: nat)
    requires n > 0 && n - 1 in s
    ensures Listed(s, n) == Listed(s, n - 1) + [n - 1]
  {
  }

  lemma {:induction false} SameList(s: set<nat>, t: set<nat>, n: nat)
    requires forall i :: i < n ==> (i in s <==> i in t)
    ensures Listed(s, n) == Listed(t, n)
  {
    if n > 0 { SameList(s, t, n - 1); }
  }

  lemma MessagePolyInjective(a: Vec, b: Vec)
    requires |a| == |b| <= U64_MAX && MessagePoly(a) == MessagePoly(b)
    ensures a == b
  {
    hide R, Eval, MessagePoly;
    forall j | 0 <= j < |a| ensures a[j] == b[j] {
      Interpolates(a, j);
      Interpolates(b, j);
    }
  }

  lemma RsAgreement(params: LigeroParams, tables: Option<Code>, a: Vec, b: Vec)
    requires Fits(params, tables) && params.code == Rs && |a| == |b| == params.ClaimDegreeBound() && a != b
    ensures |Agreement(params, tables, a, b)| < |a|
  {
    hide R, Eval, MessagePoly, Row, Fits;
    FitsFacts(params, tables);
    var s := Agreement(params, tables, a, b);
    var agree, n, p, q := Listed(s, params.codewordLen), params.codewordLen, MessagePoly(a), MessagePoly(b);
    ListedLength(s, n);
    if p == q {
      MessagePolyInjective(a, b);
    }
    forall i | 0 <= i < |agree| ensures Values(p, n)[agree[i]] == Values(q, n)[agree[i]] {
      assert agree[i] in agree;
      assert AgreeAt(params, tables, a, b, agree[i]);
      EvalMessage(a, R(agree[i]));
      EvalMessage(b, R(agree[i]));
    }
    CodeDistance(p, q, n, agree);
  }

  lemma CircleAgreement(params: LigeroParams, tables: Option<Code>, a: Vec, b: Vec)
    requires Fits(params, tables) && params.code == Circle && |a| == |b| == params.ClaimDegreeBound() && a != b
    ensures |Agreement(params, tables, a, b)| <= |a|
  {
    hide Fits, EvalC, Tables.Valid, BasisSums, LigeroParams.Validate, LigeroParams.Geom;
    FitsFacts(params, tables);
    var s := Agreement(params, tables, a, b);
    forall i | i in s
      ensures i < tables.value.geom.codewordLen
      ensures EvalC(a, tables.value.codeword.domain[i]) == EvalC(b, tables.value.codeword.domain[i])
    {
      assert AgreeAt(params, tables, a, b, i);
    }
    tables.value.MinimumDistance(a, b, s);
  }

  /** Different messages of the claim bound agree in at most that many positions. */
  lemma AgreementBound(params: LigeroParams, tables: Option<Code>, a: Vec, b: Vec)
    requires Fits(params, tables) && |a| == |b| == params.ClaimDegreeBound() && a != b
    ensures |Agreement(params, tables, a, b)| <= |a|
  {
    hide Fits, AgreeAt;
    if params.code == Rs {
      RsAgreement(params, tables, a, b);
    } else {
      CircleAgreement(params, tables, a, b);
    }
  }

  // ----- claim errors -----

  ghost predicate ClaimsFit(claims: seq<LinearClaim>)
  {
    forall k :: 0 <= k < |claims| ==> claims[k].len <= Pow2(|claims[k].point|)
  }

  lemma ValidClaimsFit(rowLen: nat, rows: nat, claims: seq<LinearClaim>)
    requires AllValid(rowLen, rows, claims)
    ensures ClaimsFit(claims)
  {
    hide Pow2, CeilLog;
    forall k | 0 <= k < |claims| ensures claims[k].len <= Pow2(|claims[k].point|) {
      assert ValidateLinearClaim(rowLen, rows, claims[k]).Ok?;
      CeilLogBounds(claims[k].len);
    }
  }

  /** How far each claimed value is from the true one. */
  ghost function Errors(claims: seq<LinearClaim>, secret: Vec): (e: Vec)
    requires ClaimsFit(claims)
    ensures |e| == |claims|
  {
    seq(|claims|, k requires 0 <= k < |claims| => Sub(claims[k].value, TrueValue(secret, claims[k])))
  }

  /** The claims with their true values. */
  ghost function Corrected(claims: seq<LinearClaim>, secret: Vec): (c: seq<LinearClaim>)
    requires ClaimsFit(claims)
    ensures |c| == |claims|
  {
    seq(|claims|, k requires 0 <= k < |claims| => claims[k].(value := TrueValue(secret, claims[k])))
  }

  lemma CorrectedIsTrue(claims: seq<LinearClaim>, secret: Vec)
    requires ClaimsFit(claims)
    ensures TrueClaims(secret, Corrected(claims, secret))
  {
    hide Pow2;
    forall k | 0 <= k < |claims| ensures TrueValue(secret, Corrected(claims, secret)[k]) == TrueValue(secret, claims[k]) {
      assert ClaimedCells(secret, Corrected(claims, secret)[k]) == ClaimedCells(secret, claims[k]);
    }
  }

  /** Weights do not depend on the claimed values. */
  lemma {:induction false} CorrectedCells(claims: seq<LinearClaim>, secret: Vec, gamma: Vec, g: nat)
    requires ClaimsFit(claims) && |claims| == |gamma|
    ensures CellSum(Corrected(claims, secret), gamma, g) == CellSum(claims, gamma, g)
  {
    hide TrueValue, Pow2;
    if claims != [] {
      var k := |claims| - 1;
      CorrectedCells(claims[..k], secret, gamma[..k], g);
      assert Corrected(claims, secret)[..k] == Corrected(claims[..k], secret);
    }
  }

  lemma ErrorStep(t: Fp, e: Fp, g: Fp, v: Fp, u: Fp)
    ensures Add(Add(t, e), Mul(g, v))
       == Add(Add(t, Mul(g, u)), Add(e, Mul(g, Sub(v, u))))
  {
    Same(ZAdd(ZAdd(t, e), ZMul(g, v)),
         ZAdd(ZAdd(t, ZMul(g, u)), ZAdd(e, ZMul(g, ZSub(v, u)))));
    hide *;
    Ring(t, e, g, v, u);
  }

  lemma ClaimsPrefix(claims: seq<LinearClaim>, secret: Vec, k: nat)
    requires ClaimsFit(claims) && k == |claims| - 1
    ensures claims[k].len <= Pow2(|claims[k].point|) && ClaimsFit(claims[..k])
    ensures Corrected(claims, secret) == Corrected(claims[..k], secret) + [claims[k].(value := TrueValue(secret, claims[k]))]
    ensures Corrected(claims, secret)[..k] == Corrected(claims[..k], secret)
    ensures Errors(claims, secret)[..k] == Errors(claims[..k], secret)
    ensures Errors(claims, secret)[k] == Sub(claims[k].value, TrueValue(secret, claims[k]))
  {
    hide TrueValue, Pow2;
  }

  /** The batched values exceed the true ones by the batched errors. */
  lemma {:induction false} SumOfErrors(claims: seq<LinearClaim>, secret: Vec, gamma: Vec)
    requires ClaimsFit(claims) && |claims| == |gamma|
    ensures ClaimSum(claims, gamma, 0) == Add(ClaimSum(Corrected(claims, secret), gamma, 0), Dot(gamma, Errors(claims, secret)))
  {
    hide TrueValue, Pow2;
    if claims == [] {
      Units(0);
    } else {
      var k := |claims| - 1;
      ClaimsPrefix(claims, secret, k);
      hide Corrected, Errors, ClaimsFit;
      SumOfErrors(claims[..k], secret, gamma[..k]);
      ErrorStep(ClaimSum(Corrected(claims[..k], secret), gamma[..k], 0), Dot(gamma[..k], Errors(claims[..k], secret)),
                gamma[k], claims[k].value, TrueValue(secret, claims[k]));
    }
  }

  /** For a wrong claim, with all other weights fixed, at most one weight brings the errors to a constant fixed before. */
  lemma OneBadGamma(claims: seq<LinearClaim>, secret: Vec, gamma: Vec, k: nat, x: Fp, b: Fp)
    requires ClaimsFit(claims) && |claims| == |gamma| && k < |claims|
    requires claims[k].value != TrueValue(secret, claims[k])
    requires Dot(gamma, Errors(claims, secret)) == b && Dot(gamma[k := x], Errors(claims, secret)) == b
    ensures x == gamma[k]
  {
    hide TrueValue, Pow2, Dot;
    var e, d := Errors(claims, secret), Sub(x, gamma[k]);
    SubAddLeft(x, gamma[k]);
    assert Add(gamma[k], d) == x;
    DotBump(gamma, e, k, d);
    AddComm(b, Mul(d, e[k]));
    AddSub(Mul(d, e[k]), b);
    Units(b);
    NoZeroDivisors(d, e[k]);
    if e[k] == 0 {
      SubZero(claims[k].value, TrueValue(secret, claims[k]));
      assert false;
    }
    SubZero(x, gamma[k]);
  }

  // ----- the witness of arbitrary messages -----

  /** The cells a message carries. */
  ghost function MessageData(params: LigeroParams, tables: Option<Code>, message: Vec): (d: Vec)
    requires Fits(params, tables) && |message| == params.degreeBound
    ensures |d| == params.rowLen && Carries(params, tables, message, d)
  {
    FitsFacts(params, tables);
    if params.code == Rs then message[..params.rowLen] else Evaluations(message, tables.value.window.domain)
  }

  /** The witness of any messages: the cells of all rows in order. */
  ghost function WitnessOf(params: LigeroParams, tables: Option<Code>, messages: seq<Vec>): (w: Vec)
    requires Fits(params, tables) && Matrix(messages, |messages|, params.degreeBound)
  {
    if messages == [] then []
    else
      var n := |messages| - 1;
      WitnessOf(params, tables, messages[..n]) + MessageData(params, tables, messages[n])
  }

  lemma {:induction false} WitnessLength(params: LigeroParams, tables: Option<Code>, messages: seq<Vec>)
    requires Fits(params, tables) && Matrix(messages, |messages|, params.degreeBound)
    ensures |WitnessOf(params, tables, messages)| == CellNumber(|messages|, params.rowLen, 0)
  {
    hide Fits, CellNumber, MessageData;
    if messages == [] {
      NextStart(0, params.rowLen);
    } else {
      var n := |messages| - 1;
      WitnessLength(params, tables, messages[..n]);
      NextStart(n, params.rowLen);
    }
  }

  lemma {:induction false} WitnessRow(params: LigeroParams, tables: Option<Code>, messages: seq<Vec>, r: nat)
    requires Fits(params, tables) && Matrix(messages, |messages|, params.degreeBound) && r < |messages|
    ensures DataRow(WitnessOf(params, tables, messages), params.rowLen, r) == MessageData(params, tables, messages[r])
  {
    hide Fits, CellNumber, MessageData;
    var n := |messages| - 1;
    var before, w := WitnessOf(params, tables, messages[..n]), WitnessOf(params, tables, messages);
    WitnessLength(params, tables, messages[..n]);
    forall c: nat | c < params.rowLen ensures WitnessCell(w, CellNumber(r, params.rowLen, c)) == MessageData(params, tables, messages[r])[c] {
      CellOffset(r, params.rowLen, c);
      if r < n {
        WitnessRow(params, tables, messages[..n], r);
        RowsApart(r, n, params.rowLen);
        assert DataRow(before, params.rowLen, r)[c] == WitnessCell(before, CellNumber(r, params.rowLen, c));
      }
    }
  }

  lemma RowsApart(r: nat, n: nat, rowLen: nat)
    requires r < n
    ensures CellNumber(r, rowLen, 0) + rowLen <= CellNumber(n, rowLen, 0)
  {
    assert n * rowLen == r * rowLen + rowLen + (n - r - 1) * rowLen;
    assert (n - r - 1) * rowLen >= 0;
  }

  /** Any messages of the row length carry their witness. */
  lemma MessagesCarry(params: LigeroParams, tables: Option<Code>, messages: seq<Vec>)
    requires Fits(params, tables) && Matrix(messages, |messages|, params.degreeBound)
    ensures AllCarry(params, tables, messages, DataRows(WitnessOf(params, tables, messages), params.rowLen, |messages|))
  {
    hide Fits, WitnessOf, DataRow, Carries;
    var secret := WitnessOf(params, tables, messages);
    forall r | 0 <= r < |messages| ensures Carries(params, tables, messages[r], DataRow(secret, params.rowLen, r)) {
      WitnessRow(params, tables, messages, r);
    }
  }

  // ----- the owed batch of arbitrary claims -----

  ghost predicate OwedFor(
    params: LigeroParams, tables: Option<Code>, secret: Vec, messages: seq<Vec>, blind: Vec, claims: seq<LinearClaim>,
    gamma: Vec, q: Vec)
    requires Fits(params, tables) && |claims| == |gamma| && ClaimsFit(claims) && |blind| >= params.rowLen
  {
    && IsBatch(params, tables, DenseRows(claims, gamma, params.rowLen, |messages|), messages, blind, q)
    && |q| == params.ClaimDegreeBound() && |q| >= params.rowLen
    && Extraction(params, tables, q)
       == Add(Extraction(params, tables, blind), ClaimSum(Corrected(claims, secret), gamma, 0))
  }

  lemma OwedMessage(
    params: LigeroParams, tables: Option<Code>, secret: Vec, messages: seq<Vec>, blind: Vec, claims: seq<LinearClaim>,
    gamma: Vec) returns (q: Vec)
    requires Fits(params, tables) && AllCarry(params, tables, messages, DataRows(secret, params.rowLen, |messages|))
    requires |blind| == params.ClaimDegreeBound() >= params.rowLen
    requires |claims| == |gamma| && AllValid(params.rowLen, |messages|, claims) && ClaimsFit(claims)
    ensures OwedFor(params, tables, secret, messages, blind, claims, gamma, q)
  {
    hide Fits, Extraction, DenseRows, DataRows, IsBatch, Pairing, CellNumber, ClaimSum, DivCeil, AllValid, AllCarry,
         Corrected;
    var n := |messages|;
    var m, data := DenseRows(claims, gamma, params.rowLen, n), DataRows(secret, params.rowLen, n);
    q := BatchExists(params, tables, m, messages, data, blind);
    BatchLength(params, tables, m, messages, blind, q);
    var fixed, cells := Corrected(claims, secret), CellNumber(n, params.rowLen, 0);
    CorrectedIsTrue(claims, secret);
    CorrectedRows(claims, secret, gamma, params.rowLen, n);
    PairingIsFlat(fixed, gamma, secret, params.rowLen, n);
    forall k | 0 <= k < |claims| ensures fixed[k].offset + fixed[k].len <= cells {
      ClaimsInside(params.rowLen, n, claims, k);
      CorrectedRange(claims, secret, k);
    }
    WeightsPairToValues(fixed, gamma, secret, cells);
  }

  lemma CorrectedRange(claims: seq<LinearClaim>, secret: Vec, k: nat)
    requires ClaimsFit(claims) && k < |claims|
    ensures Corrected(claims, secret)[k].offset == claims[k].offset && Corrected(claims, secret)[k].len == claims[k].len
  {
  }

  lemma CorrectedRows(claims: seq<LinearClaim>, secret: Vec, gamma: Vec, rowLen: nat, n: nat)
    requires ClaimsFit(claims) && |claims| == |gamma|
    ensures DenseRows(Corrected(claims, secret), gamma, rowLen, n) == DenseRows(claims, gamma, rowLen, n)
  {
    hide CellSum, Corrected;
    forall r: nat | r < n ensures DenseRow(Corrected(claims, secret), gamma, rowLen, r) == DenseRow(claims, gamma, rowLen, r) {
      forall i: nat | i < rowLen { CorrectedCells(claims, secret, gamma, CellNumber(r, rowLen, i)); }
    }
  }

  /** Messages, blind row and weights determine the batch. */
  lemma BatchUnique(
    params: LigeroParams, tables: Option<Code>, m: seq<Vec>, messages: seq<Vec>, blind: Vec, q: Vec, q': Vec)
    requires Fits(params, tables) && Matrix(m, |messages|, params.rowLen)
    requires IsBatch(params, tables, m, messages, blind, q) && IsBatch(params, tables, m, messages, blind, q')
    ensures q == q'
  {
    hide R, Fits, MessageEval, WeightVector, PlaceFits, IsBatch, Tables.Valid, BasisSums, LigeroParams.Validate,
         LigeroParams.Geom;
    FitsFacts(params, tables);
    BatchLength(params, tables, m, messages, blind, q);
    BatchLength(params, tables, m, messages, blind, q');
    forall place | PlaceFits(params, place) ensures MessageEval(q, place) == MessageEval(q', place) {
      BatchAt(params, tables, m, messages, blind, q, place);
      BatchAt(params, tables, m, messages, blind, q', place);
    }
    if params.code == Rs {
      RsBatchUnique(params, tables, q, q');
    } else {
      CircleBatchUnique(params, tables, q, q');
    }
  }

  lemma RsBatchUnique(params: LigeroParams, tables: Option<Code>, q: Vec, q': Vec)
    requires Fits(params, tables) && params.code == Rs && |q| == |q'| <= params.codewordLen
    requires forall place :: PlaceFits(params, place) ==> MessageEval(q, place) == MessageEval(q', place)
    ensures q == q'
  {
    hide R, Fits, MessagePoly, Row, Dot, LigeroParams.Validate, LigeroParams.Geom;
    FitsFacts(params, tables);
    forall x | 0 <= x < |q| ensures q'[x] == MessageEval(q, AtElement(R(x))) {
      RsPlaceOf(params, tables, x);
      EvalMessage(q', R(x));
      Interpolates(q', x);
    }
    RsMessageIs(q', q);
  }

  lemma CircleBatchUnique(params: LigeroParams, tables: Option<Code>, q: Vec, q': Vec)
    requires Fits(params, tables) && params.code == Circle && |q| == |q'| == params.ClaimDegreeBound()
    requires forall place :: PlaceFits(params, place) ==> MessageEval(q, place) == MessageEval(q', place)
    ensures q == q'
  {
    hide Fits, EvalC, PlaceFits, Tables.Valid, BasisSums, LigeroParams.Validate, LigeroParams.Geom;
    FitsFacts(params, tables);
    var domain := tables.value.product.domain;
    forall j | 0 <= j < |domain| ensures EvalC(q, domain[j]) == EvalC(q', domain[j]) {
      ProductPlaces(params, tables, j);
      assert MessageEval(q, AtPoint(domain[j])) == MessageEval(q', AtPoint(domain[j]));
    }
    assert Evaluations(q, domain) == Evaluations(q', domain);
    var n := tables.value.geom.productDomainLen;
    Interpolant(q, tables.value.product, n);
    Interpolant(q', tables.value.product, n);
    assert (q + Zeros(n - |q|))[..|q|] == q && (q' + Zeros(n - |q|))[..|q|] == q';
  }

  // ----- what acceptance means -----

  /** Column i of the matrix holds the symbols of the messages ... */
  ghost predicate RowsOnCode(params: LigeroParams, tables: Option<Code>, columns: seq<Vec>, messages: seq<Vec>, i: nat)
    requires Fits(params, tables)
  {
    && i < params.codewordLen && i < |columns| && |columns[i]| == |messages| + 2
    && columns[i][..|messages|] == Column(messages, PlaceOf(params, tables, i))
  }

  /** ... and of the blind row. */
  ghost predicate OnCode(
    params: LigeroParams, tables: Option<Code>, columns: seq<Vec>, messages: seq<Vec>, blind: Vec, i: nat)
    requires Fits(params, tables)
  {
    && RowsOnCode(params, tables, columns, messages, i)
    && columns[i][|messages| + 1] == MessageEval(blind, PlaceOf(params, tables, i))
  }

  /** The columns of a commitment are on code everywhere. */
  lemma CommittedOnCode(
    h: Merkle.Hasher, c: Commitment, tables: Option<Code>, secret: Vec, messages: seq<Vec>, mask: Vec, blind: Vec, i: nat)
    requires Commits(h, c, tables, secret, messages, mask, blind) && i < c.params.codewordLen
    ensures OnCode(c.params, tables, c.merkle.columns, messages, blind, i)
  {
    hide Fits, MessageEval, Merkle.MerkleCommitment.Valid, AllCarry, DivCeil;
    var n, column, place := |messages|, c.merkle.columns[i], PlaceOf(c.params, tables, i);
    forall r | 0 <= r < n ensures column[..n][r] == Column(messages, place)[r] {
      assert Encodes(c.params, tables, messages[r], c.encodedRows[r]);
    }
    assert Encodes(c.params, tables, blind, c.encodedRows[n + 1]);
  }

  /** At a column on code the column check passes exactly where the batch agrees with the owed one. */
  lemma ColumnPassesIff(
    h: Merkle.Hasher, root: Merkle.Digest, params: LigeroParams, tables: Option<Code>, columns: seq<Vec>, messages: seq<Vec>,
    blind: Vec, m: seq<Vec>, q: Vec, coefficients: Vec, opening: Merkle.ColumnOpening)
    requires Fits(params, tables) && Matrix(m, |messages|, params.rowLen) && IsBatch(params, tables, m, messages, blind, q)
    requires OnCode(params, tables, columns, messages, blind, opening.index) && opening.column == columns[opening.index]
    requires Merkle.Accepts(h, root, opening)
    ensures opening.index < params.codewordLen && |opening.column| == |m| + 2
    ensures ColumnChecks(h, root, params, tables, m, coefficients, opening)
       <==> AgreeAt(params, tables, coefficients, q, opening.index)
  {
    hide Fits, MessageEval, WeightVector, PlaceFits, Merkle.Accepts, PlaceOf, IsBatch, Column;
    PlaceOfFits(params, tables, opening.index);
    BatchAt(params, tables, m, messages, blind, q, PlaceOf(params, tables, opening.index));
  }

  /** The owed batch passes the sum check exactly if the batched claim errors equal the sum of the blind row. */
  lemma OwedSumIff(
    params: LigeroParams, tables: Option<Code>, secret: Vec, messages: seq<Vec>, blind: Vec, claims: seq<LinearClaim>,
    gamma: Vec, q: Vec)
    requires Fits(params, tables) && |claims| == |gamma| && ClaimsFit(claims) && |blind| >= params.rowLen
    requires OwedFor(params, tables, secret, messages, blind, claims, gamma, q)
    ensures Extraction(params, tables, q) == ClaimSum(claims, gamma, 0)
       <==> Dot(gamma, Errors(claims, secret)) == Extraction(params, tables, blind)
  {
    hide Fits, Extraction, ClaimSum, IsBatch, Corrected, Errors, Dot, DenseRows;
    SumOfErrors(claims, secret, gamma);
    var t, e, b := ClaimSum(Corrected(claims, secret), gamma, 0), Dot(gamma, Errors(claims, secret)), Extraction(params, tables, blind);
    AddComm(t, e);
    AddSub(e, t);
    AddSub(b, t);
  }

  /** What the verifier has checked when it accepts. */
  lemma AcceptedParts(
    h: Merkle.Hasher, root: Merkle.Digest, params: LigeroParams, tables: Option<Code>, rows: nat, committedLen: nat,
    claims: seq<LinearClaim>, gamma: Vec, batch: ClaimBatch, openings: seq<Merkle.ColumnOpening>)
    requires Fits(params, tables) && params.rowLen > 0 && rows == Rows(committedLen, params.rowLen)
    requires Verdict(h, root, params, tables, committedLen, openings, batch, claims, gamma) == Ok(true)
    ensures |openings| == params.openings && claims != [] && |claims| == |gamma| && AllValid(params.rowLen, rows, claims)
    ensures |batch.coefficients| == params.ClaimDegreeBound() >= params.rowLen
    ensures Extraction(params, tables, batch.coefficients) == ClaimSum(claims, gamma, 0)
    ensures forall t :: 0 <= t < |openings| ==>
              && openings[t].index < params.codewordLen && |openings[t].column| == rows + 2
              && ColumnChecks(h, root, params, tables, DenseRows(claims, gamma, params.rowLen, rows), batch.coefficients, openings[t])
  {
    hide Fits, MessageEval, Merkle.Accepts, Extraction, ColumnChecks, AllValid, DenseRow, LigeroParams.Validate,
         LigeroParams.Geom, DivCeil, ClaimSum, BadOpening;
    FitsFacts(params, tables);
    FitsValidates(params, tables);
    GoodOpenings(openings, params.codewordLen, rows + 2);
  }

  /** A passed opening of a batch that is not the owed one is off code or in the agreement set. */
  lemma OpeningCaught(
    h: Merkle.Hasher, merkle: Merkle.MerkleCommitment, params: LigeroParams, tables: Option<Code>, messages: seq<Vec>,
    blind: Vec, m: seq<Vec>, q: Vec, coefficients: Vec, opening: Merkle.ColumnOpening)
    requires h.Ideal() && merkle.Valid(h) && Fits(params, tables)
    requires Matrix(m, |messages|, params.rowLen) && IsBatch(params, tables, m, messages, blind, q)
    requires opening.index < params.codewordLen && |opening.column| == |m| + 2
    requires ColumnChecks(h, merkle.root, params, tables, m, coefficients, opening)
    requires OnCode(params, tables, merkle.columns, messages, blind, opening.index)
    ensures opening.index in Agreement(params, tables, coefficients, q)
  {
    hide Fits, MessageEval, Merkle.Accepts, Merkle.IsTree, Merkle.MerkleCommitment.Valid, ColumnChecks, IsBatch,
         AgreeAt, OnCode;
    OpeningBinds(h, merkle, params, tables, m, coefficients, opening);
    ColumnPassesIff(h, merkle.root, params, tables, merkle.columns, messages, blind, m, q, coefficients, opening);
  }

  /** An accepted batch over any committed matrix, compared with any messages and blind row fixed before the challenges. */
  lemma BatchSoundness(
    h: Merkle.Hasher, merkle: Merkle.MerkleCommitment, params: LigeroParams, tables: Option<Code>, committedLen: nat,
    messages: seq<Vec>, blind: Vec, claims: seq<LinearClaim>, gamma: Vec, batch: ClaimBatch,
    openings: seq<Merkle.ColumnOpening>) returns (q: Vec)
    requires h.Ideal() && merkle.Valid(h) && Fits(params, tables) && params.rowLen > 0
    requires |blind| == params.ClaimDegreeBound() >= params.rowLen
    requires Matrix(messages, Rows(committedLen, params.rowLen), params.degreeBound)
    requires Verdict(h, merkle.root, params, tables, committedLen, openings, batch, claims, gamma) == Ok(true)
    ensures |openings| == params.openings && claims != [] && |claims| == |gamma| && ClaimsFit(claims)
    ensures OwedFor(params, tables, WitnessOf(params, tables, messages), messages, blind, claims, gamma, q)
    ensures batch.coefficients == q ==>
              Dot(gamma, Errors(claims, WitnessOf(params, tables, messages))) == Extraction(params, tables, blind)
    ensures batch.coefficients != q ==>
              && |Agreement(params, tables, batch.coefficients, q)| <= params.ClaimDegreeBound()
              && forall t :: 0 <= t < |openings| ==>
                   || openings[t].index in Agreement(params, tables, batch.coefficients, q)
                   || !OnCode(params, tables, merkle.columns, messages, blind, openings[t].index)
  {
    hide Fits, Merkle.Accepts, Merkle.MerkleCommitment.Valid, Extraction, ColumnChecks, AllValid, DenseRows, DataRows,
         IsBatch, DivCeil, ClaimSum, Errors, Dot, Agreement, WitnessOf, OnCode, AllCarry, OwedFor, Verdict,
         Merkle.Hasher.Ideal;
    var n, secret := |messages|, WitnessOf(params, tables, messages);
    AcceptedParts(h, merkle.root, params, tables, n, committedLen, claims, gamma, batch, openings);
    ValidClaimsFit(params.rowLen, n, claims);
    MessagesCarry(params, tables, messages);
    q := OwedMessage(params, tables, secret, messages, blind, claims, gamma);
    OwedParts(params, tables, secret, messages, blind, claims, gamma, q);
    OwedSumIff(params, tables, secret, messages, blind, claims, gamma, q);
    if batch.coefficients != q {
      AgreementBound(params, tables, batch.coefficients, q);
      forall t | 0 <= t < |openings| && OnCode(params, tables, merkle.columns, messages, blind, openings[t].index)
        ensures openings[t].index in Agreement(params, tables, batch.coefficients, q)
      {
        OpeningCaught(h, merkle, params, tables, messages, blind, DenseRows(claims, gamma, params.rowLen, n), q, batch.coefficients, openings[t]);
      }
    }
  }

  lemma OwedParts(
    params: LigeroParams, tables: Option<Code>, secret: Vec, messages: seq<Vec>, blind: Vec, claims: seq<LinearClaim>,
    gamma: Vec, q: Vec)
    requires Fits(params, tables) && |claims| == |gamma| && ClaimsFit(claims) && |blind| >= params.rowLen
    requires OwedFor(params, tables, secret, messages, blind, claims, gamma, q)
    ensures IsBatch(params, tables, DenseRows(claims, gamma, params.rowLen, |messages|), messages, blind, q)
    ensures |q| == params.ClaimDegreeBound() && |q| >= params.rowLen
  {
    hide Fits, IsBatch, Extraction;
  }

  /** A column that passes is a committed one. */
  lemma OpeningBinds(
    h: Merkle.Hasher, merkle: Merkle.MerkleCommitment, params: LigeroParams, tables: Option<Code>, m: seq<Vec>,
    coefficients: Vec, opening: Merkle.ColumnOpening)
    requires h.Ideal() && merkle.Valid(h) && Fits(params, tables) && Matrix(m, |m|, params.rowLen)
    requires opening.index < params.codewordLen && |opening.column| == |m| + 2
    requires ColumnChecks(h, merkle.root, params, tables, m, coefficients, opening)
    ensures Merkle.Accepts(h, merkle.root, opening)
    ensures opening.index < |merkle.columns| && opening.column == merkle.columns[opening.index]
  {
    hide Fits, MessageEval, Expected;
    Merkle.Binding(h, merkle, opening);
  }

  // ----- messages from proximity rows -----

  /** The proximity check of a row at column i. */
  ghost predicate ProximityAt(
    params: LigeroParams, tables: Option<Code>, columns: seq<Vec>, row: Vec, gamma: Vec, i: nat)
    requires Fits(params, tables)
  {
    && i < params.codewordLen && i < |columns| && |columns[i]| == |gamma| + 2
    && MessageEval(row, PlaceOf(params, tables, i))
       == CombinedEntry(columns[i][|gamma|], columns[i][..|gamma|], gamma)
  }

  /** An accepted proximity row passes at every opened column of the commitment. */
  lemma {:induction false} AcceptedProximity(
    h: Merkle.Hasher, merkle: Merkle.MerkleCommitment, params: LigeroParams, tables: Option<Code>,
    openings: seq<Merkle.ColumnOpening>, row: Vec, gamma: Vec, t: nat)
    requires h.Ideal() && merkle.Valid(h) && Fits(params, tables) && t < |openings|
    requires ProximityFrom(h, merkle.root, params, tables, openings, row, gamma) == Ok(true)
    ensures ProximityAt(params, tables, merkle.columns, row, gamma, openings[t].index)
    decreases t
  {
    hide Fits, MessageEval, PlaceOf, CombinedEntry, Merkle.Accepts, Merkle.MerkleCommitment.Valid, Merkle.Hasher.Ideal;
    if t == 0 {
      Merkle.Binding(h, merkle, openings[0]);
    } else {
      AcceptedProximity(h, merkle, params, tables, openings[1..], row, gamma, t - 1);
    }
  }

  lemma {:induction false} CombinedIsDot(mask: Fp, column: Vec, gamma: Vec)
    requires |column| == |gamma|
    ensures CombinedEntry(mask, column, gamma) == Add(mask, Dot(gamma, column))
  {
    if gamma == [] {
      Units(mask);
    } else {
      var n := |gamma| - 1;
      CombinedIsDot(mask, column[..n], gamma[..n]);
      AddAssoc(mask, Dot(gamma[..n], column[..n]), Mul(gamma[n], column[n]));
    }
  }

  lemma RowGap(a: Fp, b: Fp, v: Fp, d: Fp)
    ensures Add(Mul(v, Add(a, Mul(d, b))), Mul(Sub(0, v), a))
       == Mul(Mul(v, d), b)
  {
    Same(ZAdd(ZMul(v, ZAdd(a, ZMul(d, b))), ZMul(ZSub(0, v), a)),
         ZMul(ZMul(v, d), b));
    hide *;
    Ring(a, b, v, d);
  }

  /** The message of row k in two proximity rows whose weights differ there. */
  function RowMessage(gamma: Vec, k: nat, x: Fp, row: Vec, row': Vec): (z: Vec)
    requires k < |gamma| && x != gamma[k] && |row| == |row'|
    ensures |z| == |row|
  {
    NonzeroGap(x, gamma[k]);
    var v := Inv(Sub(x, gamma[k]));
    VAdd(Scale(v, row'), Scale(Neg(v), row))
  }

  lemma NonzeroGap(x: Fp, y: Fp)
    requires x != y
    ensures Sub(x, y) != 0
  {
    if Sub(x, y) == 0 { SubZero(x, y); }
  }

  /** Where both rows pass, row k of the matrix holds the symbol of that message. */
  lemma ProximityRow(
    params: LigeroParams, tables: Option<Code>, columns: seq<Vec>, gamma: Vec, k: nat, x: Fp, row: Vec, row': Vec, i: nat)
    requires Fits(params, tables) && k < |gamma| && x != gamma[k] && |row| == |row'|
    requires ProximityAt(params, tables, columns, row, gamma, i)
    requires ProximityAt(params, tables, columns, row', gamma[k := x], i)
    ensures columns[i][k] == MessageEval(RowMessage(gamma, k, x, row, row'), PlaceOf(params, tables, i))
  {
    hide Fits, MessageEval, PlaceOf, Inv, Dot;
    var place, n, d := PlaceOf(params, tables, i), |gamma|, Sub(x, gamma[k]);
    NonzeroGap(x, gamma[k]);
    var v, mask, column := Inv(d), columns[i][n], columns[i][..n];
    MessageEvalAdd(Scale(v, row'), Scale(Neg(v), row), place);
    MessageEvalScale(v, row', place);
    MessageEvalScale(Neg(v), row, place);
    CombinedIsDot(mask, column, gamma);
    CombinedIsDot(mask, column, gamma[k := x]);
    SubAddLeft(x, gamma[k]);
    DotBump(gamma, column, k, d);
    AddAssoc(mask, Dot(gamma, column), Mul(d, column[k]));
    RowGap(MessageEval(row, place), column[k], v, d);
    InvMul(d);
    Units(column[k]);
  }

  /** The proximity check at column i of a row for gamma, and of one row for every single change of gamma. */
  ghost predicate AllProximityAt(
    params: LigeroParams, tables: Option<Code>, columns: seq<Vec>, gamma: Vec, row: Vec, xs: Vec, rows: seq<Vec>, i: nat)
    requires Fits(params, tables) && |xs| == |rows| == |gamma|
  {
    && ProximityAt(params, tables, columns, row, gamma, i)
    && forall k :: 0 <= k < |gamma| ==> ProximityAt(params, tables, columns, rows[k], gamma[k := xs[k]], i)
  }

  /** The messages that such rows determine, whatever the matrix is. */
  function ExtractedMessages(gamma: Vec, row: Vec, xs: Vec, rows: seq<Vec>): (messages: seq<Vec>)
    requires |xs| == |rows| == |gamma| && Matrix(rows, |gamma|, |row|)
    requires forall k :: 0 <= k < |gamma| ==> xs[k] != gamma[k]
    ensures Matrix(messages, |gamma|, |row|)
  {
    seq(|gamma|, k requires 0 <= k < |gamma| => RowMessage(gamma, k, xs[k], row, rows[k]))
  }

  /** Wherever all these rows pass, the matrix holds the symbols of the extracted messages. */
  lemma ProximityExtracts(
    params: LigeroParams, tables: Option<Code>, columns: seq<Vec>, gamma: Vec, row: Vec, xs: Vec, rows: seq<Vec>, i: nat)
    requires Fits(params, tables) && |xs| == |rows| == |gamma| && Matrix(rows, |gamma|, |row|)
    requires forall k :: 0 <= k < |gamma| ==> xs[k] != gamma[k]
    requires AllProximityAt(params, tables, columns, gamma, row, xs, rows, i)
    ensures RowsOnCode(params, tables, columns, ExtractedMessages(gamma, row, xs, rows), i)
  {
    hide Fits, MessageEval, PlaceOf, RowMessage, CombinedEntry;
    var n, place := |gamma|, PlaceOf(params, tables, i);
    forall k | 0 <= k < n
      ensures columns[i][..n][k] == Column(ExtractedMessages(gamma, row, xs, rows), place)[k]
    {
      ProximityRow(params, tables, columns, gamma, k, xs[k], row, rows[k], i);
    }
  }

  // ----- two batches -----

  /** The equation of a batch at column i. */
  ghost predicate BatchHolds(
    params: LigeroParams, tables: Option<Code>, columns: seq<Vec>, m: seq<Vec>, coefficients: Vec, i: nat)
    requires Fits(params, tables) && Matrix(m, |m|, params.rowLen)
  {
    && i < params.codewordLen && i < |columns| && |columns[i]| == |m| + 2
    && MessageEval(coefficients, PlaceOf(params, tables, i)) == Expected(params, tables, m, i, columns[i])
  }

  lemma TakeOff(b: Fp, q: Fp)
    ensures Add(Add(b, Mul(Sub(0, 1), q)), q)
       == b
  {
    Same(ZAdd(ZAdd(b, ZMul(ZSub(0, 1), q)), q),
         b);
    hide *;
    Ring(b, q);
  }

  lemma OnlyBlind(b: Fp, s: Fp)
    ensures Add(Add(b, s), Mul(Sub(0, 1), s))
       == b
  {
    Same(ZAdd(ZAdd(b, s), ZMul(ZSub(0, 1), s)),
         b);
    hide *;
    Ring(b, s);
  }

  /** The blind row that makes a given batch the one owed by the messages. */
  lemma BlindFromBatch(
    params: LigeroParams, tables: Option<Code>, m: seq<Vec>, messages: seq<Vec>, coefficients: Vec) returns (blind: Vec)
    requires Fits(params, tables) && Matrix(messages, |messages|, params.degreeBound)
    requires Matrix(m, |messages|, params.rowLen) && |coefficients| == params.ClaimDegreeBound() >= params.rowLen
    ensures |blind| == params.ClaimDegreeBound() && IsBatch(params, tables, m, messages, blind, coefficients)
  {
    hide Fits, MessageEval, WeightVector, PlaceFits, Extraction, AllCarry, Pairing, DataRows, WitnessOf, RowsCombined;
    var zeros := Zeros(params.ClaimDegreeBound());
    MessagesCarry(params, tables, messages);
    var data := DataRows(WitnessOf(params, tables, messages), params.rowLen, |messages|);
    var q := BatchExists(params, tables, m, messages, data, zeros);
    blind := VAdd(coefficients, Scale(Neg(1), q));
    forall place | PlaceFits(params, place)
      ensures MessageEval(coefficients, place)
           == Add(MessageEval(blind, place),
                  RowsCombined(m, params.rowLen, WeightVector(params, tables, place), Column(messages, place)))
    {
      var b, s := MessageEval(coefficients, place), MessageEval(q, place);
      MessageEvalAdd(coefficients, Scale(Neg(1), q), place);
      MessageEvalScale(Neg(1), q, place);
      TakeOff(b, s);
      ZerosEval(params.ClaimDegreeBound(), place);
      Units(RowsCombined(m, params.rowLen, WeightVector(params, tables, place), Column(messages, place)));
    }
  }

  lemma ZerosEval(n: nat, place: Place)
    ensures MessageEval(Zeros(n), place) == 0
  {
    match place
    case AtElement(x) => DotZeros(Row(n, x));
    case AtPoint(p) => DotZeros(BasisRow(n, p));
  }

  /** Where the matrix is on code and the batch holds, the blind row's symbol is the one of that message. */
  lemma BlindOnCode(
    params: LigeroParams, tables: Option<Code>, columns: seq<Vec>, m: seq<Vec>, messages: seq<Vec>, blind: Vec,
    coefficients: Vec, i: nat)
    requires Fits(params, tables) && Matrix(m, |messages|, params.rowLen)
    requires IsBatch(params, tables, m, messages, blind, coefficients)
    requires RowsOnCode(params, tables, columns, messages, i) && BatchHolds(params, tables, columns, m, coefficients, i)
    ensures OnCode(params, tables, columns, messages, blind, i)
  {
    hide Fits, MessageEval, WeightVector, PlaceFits, PlaceOf, IsBatch, Column, RowsCombined;
    PlaceOfFits(params, tables, i);
    var place := PlaceOf(params, tables, i);
    BatchAt(params, tables, m, messages, blind, coefficients, place);
    var s := RowsCombined(m, params.rowLen, WeightVector(params, tables, place), Column(messages, place));
    OnlyBlind(MessageEval(blind, place), s);
    OnlyBlind(columns[i][|messages| + 1], s);
  }

  /** A batch that is owed to its own blind row and accepted has errors that equal the sum of that row. */
  lemma OwnBlindSum(
    params: LigeroParams, tables: Option<Code>, messages: seq<Vec>, blind: Vec, claims: seq<LinearClaim>, gamma: Vec, b: Vec)
    requires Fits(params, tables) && Matrix(messages, |messages|, params.degreeBound)
    requires |blind| == params.ClaimDegreeBound() >= params.rowLen && |b| >= params.rowLen
    requires |claims| == |gamma| && AllValid(params.rowLen, |messages|, claims) && ClaimsFit(claims)
    requires IsBatch(params, tables, DenseRows(claims, gamma, params.rowLen, |messages|), messages, blind, b)
    requires Extraction(params, tables, b) == ClaimSum(claims, gamma, 0)
    ensures Dot(gamma, Errors(claims, WitnessOf(params, tables, messages))) == Extraction(params, tables, blind)
  {
    hide Fits, Extraction, DenseRows, DataRows, IsBatch, ClaimSum, Errors, Dot, WitnessOf, AllCarry, OwedFor, AllValid;
    var secret := WitnessOf(params, tables, messages);
    MessagesCarry(params, tables, messages);
    var q := OwedMessage(params, tables, secret, messages, blind, claims, gamma);
    OwedParts(params, tables, secret, messages, blind, claims, gamma, q);
    BatchUnique(params, tables, DenseRows(claims, gamma, params.rowLen, |messages|), messages, blind, q, b);
    OwedSumIff(params, tables, secret, messages, blind, claims, gamma, q);
  }

  /** The first batch determines the blind row it is owed to. */
  lemma BlindUnique(
    params: LigeroParams, tables: Option<Code>, m: seq<Vec>, messages: seq<Vec>, coefficients: Vec, blind: Vec, blind': Vec)
    requires Fits(params, tables) && Matrix(m, |messages|, params.rowLen)
    requires |blind| == |blind'| == params.ClaimDegreeBound()
    requires IsBatch(params, tables, m, messages, blind, coefficients)
    requires IsBatch(params, tables, m, messages, blind', coefficients)
    ensures blind == blind'
  {
    hide R, Fits, MessageEval, WeightVector, PlaceFits, IsBatch, RowsCombined, Column;
    FitsFacts(params, tables);
    forall place | PlaceFits(params, place) ensures MessageEval(blind, place) == MessageEval(blind', place) {
      BatchAt(params, tables, m, messages, blind, coefficients, place);
      BatchAt(params, tables, m, messages, blind', coefficients, place);
      var s := RowsCombined(m, params.rowLen, WeightVector(params, tables, place), Column(messages, place));
      OnlyBlind(MessageEval(blind, place), s);
      OnlyBlind(MessageEval(blind', place), s);
    }
    if params.code == Rs {
      RsBatchUnique(params, tables, blind, blind');
    } else {
      CircleBatchUnique(params, tables, blind, blind');
    }
  }

  /** Two accepted batches whose weights differ for one claim. The first determines a blind row, and that row with the
      messages the batch q owed for the second weights, neither of which depends on the opened columns. If the second batch
      is q, the claim is true of the witness of the messages. If not, every opened column of the second is off code, breaks
      the equation of the first, or is one of the few where the second batch agrees with q. */
  lemma TwoBatches(
    h: Merkle.Hasher, merkle: Merkle.MerkleCommitment, params: LigeroParams, tables: Option<Code>, committedLen: nat,
    messages: seq<Vec>, claims: seq<LinearClaim>, gamma: Vec, k: nat, x: Fp, batch: ClaimBatch,
    openings: seq<Merkle.ColumnOpening>, batch': ClaimBatch, openings': seq<Merkle.ColumnOpening>)
    returns (blind: Vec, q: Vec)
    requires h.Ideal() && merkle.Valid(h) && Fits(params, tables) && params.rowLen > 0
    requires Matrix(messages, Rows(committedLen, params.rowLen), params.degreeBound)
    requires k < |gamma| && x != gamma[k]
    requires Verdict(h, merkle.root, params, tables, committedLen, openings, batch, claims, gamma) == Ok(true)
    requires Verdict(h, merkle.root, params, tables, committedLen, openings', batch', claims, gamma[k := x]) == Ok(true)
    ensures |claims| == |gamma| && ClaimsFit(claims) && |blind| == params.ClaimDegreeBound() >= params.rowLen
    ensures IsBatch(params, tables, DenseRows(claims, gamma, params.rowLen, |messages|), messages, blind, batch.coefficients)
    ensures OwedFor(params, tables, WitnessOf(params, tables, messages), messages, blind, claims, gamma[k := x], q)
    ensures batch'.coefficients == q ==> claims[k].value == TrueValue(WitnessOf(params, tables, messages), claims[k])
    ensures batch'.coefficients != q ==>
              && |Agreement(params, tables, batch'.coefficients, q)| <= params.ClaimDegreeBound()
              && forall t :: 0 <= t < |openings'| ==>
                   || openings'[t].index in Agreement(params, tables, batch'.coefficients, q)
                   || !RowsOnCode(params, tables, merkle.columns, messages, openings'[t].index)
                   || !BatchHolds(params, tables, merkle.columns, DenseRows(claims, gamma, params.rowLen, |messages|),
                                  batch.coefficients, openings'[t].index)
  {
    hide Fits, Merkle.MerkleCommitment.Valid, Merkle.Hasher.Ideal, Extraction, AllValid, DenseRows, IsBatch, DivCeil,
         ClaimSum, Errors, Dot, Agreement, WitnessOf, RowsOnCode, BatchHolds, OnCode, OwedFor, Verdict, TrueValue;
    var n := |messages|;
    AcceptedParts(h, merkle.root, params, tables, n, committedLen, claims, gamma, batch, openings);
    ValidClaimsFit(params.rowLen, n, claims);
    var m := DenseRows(claims, gamma, params.rowLen, n);
    blind := BlindFromBatch(params, tables, m, messages, batch.coefficients);
    OwnBlindSum(params, tables, messages, blind, claims, gamma, batch.coefficients);
    q := BatchSoundness(h, merkle, params, tables, committedLen, messages, blind, claims, gamma[k := x], batch', openings');
    if batch'.coefficients != q {
      forall t | 0 <= t < |openings'| && RowsOnCode(params, tables, merkle.columns, messages, openings'[t].index)
                 && BatchHolds(params, tables, merkle.columns, m, batch.coefficients, openings'[t].index)
        ensures openings'[t].index in Agreement(params, tables, batch'.coefficients, q)
      {
        BlindOnCode(params, tables, merkle.columns, m, messages, blind, batch.coefficients, openings'[t].index);
      }
    } else if claims[k].value != TrueValue(WitnessOf(params, tables, messages), claims[k]) {
      OneBadGamma(claims, WitnessOf(params, tables, messages), gamma, k, x, Extraction(params, tables, blind));
    }
  }

  ghost predicate AcceptsBatch(
    h: Merkle.Hasher, root: Merkle.Digest, params: LigeroParams, tables: Option<Code>, committedLen: nat, batch: ClaimBatch,
    claims: seq<LinearClaim>, gamma: Vec, openings: seq<Merkle.ColumnOpening>)
    requires Fits(params, tables)
  {
    Verdict(h, root, params, tables, committedLen, openings, batch, claims, gamma) == Ok(true)
  }

  /** Column i departs from the codewords of the messages or breaks the equation of the batch. */
  ghost predicate OffCode(
    params: LigeroParams, tables: Option<Code>, columns: seq<Vec>, messages: seq<Vec>, m: seq<Vec>, coefficients: Vec, i: nat)
    requires Fits(params, tables) && Matrix(m, |m|, params.rowLen)
  {
    !RowsOnCode(params, tables, columns, messages, i) || !BatchHolds(params, tables, columns, m, coefficients, i)
  }

  /** For fixed batches and a false claim there are few columns, fixed before the second opening, such that every opening
      accepted for the second batch stays among them and the columns off code or off the first batch. */
  lemma FalseClaimColumns(
    h: Merkle.Hasher, merkle: Merkle.MerkleCommitment, params: LigeroParams, tables: Option<Code>, committedLen: nat,
    messages: seq<Vec>, claims: seq<LinearClaim>, gamma: Vec, k: nat, x: Fp, batch: ClaimBatch,
    openings: seq<Merkle.ColumnOpening>, batch': ClaimBatch) returns (few: set<nat>)
    requires h.Ideal() && merkle.Valid(h) && Fits(params, tables) && params.rowLen > 0
    requires Matrix(messages, Rows(committedLen, params.rowLen), params.degreeBound)
    requires k < |gamma| == |claims| && x != gamma[k] && ClaimsFit(claims)
    requires claims[k].value != TrueValue(WitnessOf(params, tables, messages), claims[k])
    requires AcceptsBatch(h, merkle.root, params, tables, committedLen, batch, claims, gamma, openings)
    ensures |few| <= params.ClaimDegreeBound()
    ensures forall openings': seq<Merkle.ColumnOpening>, t: nat ::
              AcceptsBatch(h, merkle.root, params, tables, committedLen, batch', claims, gamma[k := x], openings')
              && t < |openings'| ==>
                || openings'[t].index in few
                || OffCode(params, tables, merkle.columns, messages, DenseRows(claims, gamma, params.rowLen, |messages|),
                           batch.coefficients, openings'[t].index)
  {
    hide Fits, Merkle.MerkleCommitment.Valid, Merkle.Hasher.Ideal, Extraction, DenseRows, IsBatch, DivCeil, Agreement,
         WitnessOf, RowsOnCode, BatchHolds, OwedFor, Verdict, TrueValue, ClaimsFit;
    few := {};
    FitsFacts(params, tables);
    var m, gamma' := DenseRows(claims, gamma, params.rowLen, |messages|), gamma[k := x];
    if openings0: seq<Merkle.ColumnOpening> :|
      AcceptsBatch(h, merkle.root, params, tables, committedLen, batch', claims, gamma', openings0)
    {
      var blind0, q0 := TwoBatches(h, merkle, params, tables, committedLen, messages, claims, gamma, k, x, batch, openings,
                                   batch', openings0);
      few := Agreement(params, tables, batch'.coefficients, q0);
      forall openings': seq<Merkle.ColumnOpening>, t: nat |
        AcceptsBatch(h, merkle.root, params, tables, committedLen, batch', claims, gamma', openings') && t < |openings'|
        ensures || openings'[t].index in few
                || OffCode(params, tables, merkle.columns, messages, m, batch.coefficients, openings'[t].index)
      {
        var blind, q := TwoBatches(h, merkle, params, tables, committedLen, messages, claims, gamma, k, x, batch, openings,
                                   batch', openings');
        BlindUnique(params, tables, m, messages, batch.coefficients, blind, blind0);
        OwedUnique(params, tables, WitnessOf(params, tables, messages), messages, blind, claims, gamma', q, q0);
      }
    }
  }

  lemma OwedUnique(
    params: LigeroParams, tables: Option<Code>, secret: Vec, messages: seq<Vec>, blind: Vec, claims: seq<LinearClaim>,
    gamma: Vec, q: Vec, q': Vec)
    requires Fits(params, tables) && |claims| == |gamma| && ClaimsFit(claims) && |blind| >= params.rowLen
    requires OwedFor(params, tables, secret, messages, blind, claims, gamma, q)
    requires OwedFor(params, tables, secret, messages, blind, claims, gamma, q')
    ensures q == q'
  {
    hide Fits, IsBatch, Extraction, OwedFor, ClaimsFit;
    OwedParts(params, tables, secret, messages, blind, claims, gamma, q);
    OwedParts(params, tables, secret, messages, blind, claims, gamma, q');
    BatchUnique(params, tables, DenseRows(claims, gamma, params.rowLen, |messages|), messages, blind, q, q');
  }
}
