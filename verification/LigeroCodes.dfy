/** The two row codes behind one interface (ligero.rs): evaluating messages and weight vectors at opened columns, the
    extraction functional, and why a batch of products of weights and rows is itself a message. */
module LigeroCodes {
  import opened Wrappers
  import opened Modulus
  import opened Field
  import opened Vectors
  import opened Polynomials
  import opened CircleGroup
  import opened CircleBasis
  import opened CircleTransform
  import opened CircleTables
  import opened CircleSpaces
  import opened CircleCode
  import opened ReedSolomon
  import opened LigeroParameters
  import opened LigeroWeights
  import opened LigeroPlan

  /** Validated parameters with the tables of their circle geometry. */
  ghost predicate Fits(params: LigeroParams, tables: Option<Code>)
  {
    && params.Validate().Ok? && params.codewordLen <= U64_MAX
    && (params.code == Circle ==>
          tables.Some? && tables.value.Valid() && params.Geom() == Some(tables.value.geom))
  }

  lemma FitsFacts(params: LigeroParams, tables: Option<Code>)
    requires Fits(params, tables)
    ensures 1 <= params.rowLen <= params.degreeBound <= params.ClaimDegreeBound() <= params.codewordLen <= U64_MAX
    ensures params.rowLen + params.openings <= params.degreeBound
    ensures params.code == Rs ==> params.ClaimDegreeBound() == params.rowLen + params.degreeBound - 1
    ensures params.code == Circle ==> tables.Some? && tables.value.Valid()
    ensures params.code == Circle ==>
              var geom := tables.value.geom;
              && params.rowLen == geom.dataSlots && params.degreeBound == geom.rowMessageLen
              && params.codewordLen == geom.codewordLen && params.ClaimDegreeBound() <= geom.productDomainLen
              && params.ClaimDegreeBound() == params.rowLen + params.degreeBound + 2
              && params.rowLen % 2 == 0 && params.degreeBound % 2 == 0 && params.rowLen >= 2
  {
    ValidParams(params);
    if params.code == Circle {
      tables.value.EvenRow();
    }
  }

  /** Where a message is evaluated: at a field element (RS) or at a point of the circle. */
  datatype Place = AtElement(x: Fp) | AtPoint(p: Point)

  ghost predicate PlaceFits(params: LigeroParams, place: Place)
  {
    if params.code == Rs then place.AtElement? else place.AtPoint? && OnCircle(place.p)
  }

  ghost function MessageEval(message: Vec, place: Place): Fp
  {
    match place
    case AtElement(x) => Dot(message, Row(|message|, x))
    case AtPoint(p) => EvalC(message, p)
  }

  /** The place of a codeword position. */
  ghost function PlaceOf(params: LigeroParams, tables: Option<Code>, index: nat): Place
    requires Fits(params, tables) && index < params.codewordLen
  {
    FitsFacts(params, tables);
    if params.code == Rs then AtElement(R(index)) else AtPoint(tables.value.codeword.domain[index])
  }

  lemma PlaceOfFits(params: LigeroParams, tables: Option<Code>, index: nat)
    requires Fits(params, tables) && index < params.codewordLen
    ensures PlaceFits(params, PlaceOf(params, tables, index))
  {
    FitsFacts(params, tables);
    if params.code == Circle {
      CanonicalPoint(tables.value.codeword, params.codewordLen, index);
    }
  }

  /** The value at p of the window interpolant that is one in slot c and zero in the others. */
  ghost function UnitWeight(code: Code, c: nat, p: Point): Fp
    requires code.Valid() && c < code.geom.dataSlots
  {
    EvalC(code.DataPoly(Unit(code.geom.dataSlots, c)), p)
  }

  ghost function CircleWeights(code: Code, p: Point): (v: Vec)
    requires code.Valid()
    ensures |v| == code.geom.dataSlots
  {
    var n := code.geom.dataSlots;
    seq(n, c requires 0 <= c < n => UnitWeight(code, c, p))
  }

  /** Evaluating a weight vector is a linear functional; its coefficients. */
  ghost function WeightVector(params: LigeroParams, tables: Option<Code>, place: Place): (v: Vec)
    requires Fits(params, tables) && PlaceFits(params, place)
    ensures |v| == params.rowLen
  {
    FitsFacts(params, tables);
    match place
    case AtElement(x) => Row(params.rowLen, x)
    case AtPoint(p) => CircleWeights(tables.value, p)
  }

  // ----- the window interpolant is linear in the data -----

  lemma DataPolyAdd(code: Code, a: Vec, b: Vec)
    requires code.Valid() && |a| == |b| == code.geom.dataSlots
    ensures code.DataPoly(VAdd(a, b)) == VAdd(code.DataPoly(a), code.DataPoly(b))
  {
    hide EvalC, BasisSums;
    var t := code.window;
    var c := VAdd(code.DataPoly(a), code.DataPoly(b));
    code.DataPolyInterpolates(a);
    code.DataPolyInterpolates(b);
    forall i | 0 <= i < |a| ensures Evaluations(c, t.domain)[i] == VAdd(a, b)[i] {
      EvalCAdd(code.DataPoly(a), code.DataPoly(b), t.domain[i]);
      assert Evaluations(code.DataPoly(a), t.domain)[i] == a[i] && Evaluations(code.DataPoly(b), t.domain)[i] == b[i];
    }
    assert Evaluations(c, t.domain) == VAdd(a, b);
    t.FftEvaluates(c);
    t.IfftFft(c);
  }

  lemma DataPolyScale(code: Code, s: Fp, a: Vec)
    requires code.Valid() && |a| == code.geom.dataSlots
    ensures code.DataPoly(Scale(s, a)) == Scale(s, code.DataPoly(a))
  {
    hide EvalC, BasisSums;
    var t := code.window;
    var c := Scale(s, code.DataPoly(a));
    code.DataPolyInterpolates(a);
    forall i | 0 <= i < |a| ensures Evaluations(c, t.domain)[i] == Scale(s, a)[i] {
      EvalCScale(s, code.DataPoly(a), t.domain[i]);
      assert Evaluations(code.DataPoly(a), t.domain)[i] == a[i];
    }
    assert Evaluations(c, t.domain) == Scale(s, a);
    t.FftEvaluates(c);
    t.IfftFft(c);
  }

  lemma EvalCScale(s: Fp, c: Vec, p: Point)
    ensures EvalC(Scale(s, c), p) == Mul(s, EvalC(c, p))
  {
    DotScale(s, c, BasisRow(|c|, p));
  }

  /** The first k weights, the rest zero. */
  function Head(w: Vec, k: nat): (h: Vec)
    requires k <= |w|
    ensures |h| == |w|
  {
    w[..k] + Zeros(|w| - k)
  }

  lemma HeadAll(w: Vec)
    ensures Head(w, |w|) == w
  {
  }

  lemma HeadStep(w: Vec, k: nat)
    requires k < |w|
    ensures Head(w, k + 1) == VAdd(Head(w, k), Scale(w[k], Unit(|w|, k)))
  {
    var r := VAdd(Head(w, k), Scale(w[k], Unit(|w|, k)));
    forall i | 0 <= i < |w| ensures Head(w, k + 1)[i] == r[i] {
      Units(w[k]);
      Units(w[i]);
      Units(0);
    }
  }

  lemma {:induction false} HeadEval(code: Code, w: Vec, k: nat, p: Point, at: Vec)
    requires code.Valid() && |w| == code.geom.dataSlots == |at| && k <= |w|
    requires forall c :: 0 <= c < |at| ==> at[c] == EvalC(code.DataPoly(Unit(|w|, c)), p)
    ensures EvalC(code.DataPoly(Head(w, k)), p) == Dot(w[..k], at[..k])
    decreases k
  {
    hide EvalC, BasisSums, Unit, Code.DataPoly, Tables.Valid;
    if k == 0 {
      var z := Head(w, 0);
      assert z == Scale(0, z) by {
        forall i | 0 <= i < |z| ensures z[i] == Mul(0, z[i]) { Units(z[i]); }
      }
      hide Head;
      DataPolyScale(code, 0, z);
      EvalCScale(0, code.DataPoly(z), p);
      Units(EvalC(code.DataPoly(z), p));
    } else {
      hide Head;
      var u := Unit(|w|, k - 1);
      HeadEval(code, w, k - 1, p, at);
      HeadStep(w, k - 1);
      DataPolyAdd(code, Head(w, k - 1), Scale(w[k - 1], u));
      DataPolyScale(code, w[k - 1], u);
      EvalCAdd(code.DataPoly(Head(w, k - 1)), Scale(w[k - 1], code.DataPoly(u)), p);
      EvalCScale(w[k - 1], code.DataPoly(u), p);
      assert w[..k][..k - 1] == w[..k - 1] && at[..k][..k - 1] == at[..k - 1];
    }
  }

  /** The value of the window interpolant of w is linear in w. */
  lemma WeightEval(params: LigeroParams, tables: Option<Code>, w: Vec, p: Point)
    requires Fits(params, tables) && params.code == Circle && OnCircle(p) && |w| == params.rowLen
    ensures |w| == tables.value.geom.dataSlots
    ensures EvalC(tables.value.DataPoly(w), p) == Dot(w, WeightVector(params, tables, AtPoint(p)))
  {
    hide EvalC, BasisSums, OnCircle, Fits, Head, Unit, Code.DataPoly, LigeroParams.Validate, LigeroParams.Geom,
         Tables.Valid;
    FitsFacts(params, tables);
    HeadAll(w);
    var at := WeightVector(params, tables, AtPoint(p));
    HeadEval(tables.value, w, |w|, p, at);
    assert w[..|w|] == w && at[..|w|] == at;
  }

  // ----- products -----

  /** The first `rowLen` cells of a message: a prefix (RS) or the values on the data window (circle). */
  ghost predicate Carries(params: LigeroParams, tables: Option<Code>, message: Vec, data: Vec)
    requires Fits(params, tables)
  {
    if params.code == Rs then |message| >= params.rowLen && message[..params.rowLen] == data
    else Evaluations(message, tables.value.window.domain) == data
  }

  ghost function Extraction(params: LigeroParams, tables: Option<Code>, message: Vec): Fp
    requires Fits(params, tables) && |message| >= params.rowLen
  {
    if params.code == Rs then Sum(message[..params.rowLen]) else SumOver(message, tables.value.window.domain)
  }

  lemma {:induction false} SumAdd(a: Vec, b: Vec)
    requires |a| == |b|
    ensures Sum(VAdd(a, b)) == Add(Sum(a), Sum(b))
  {
    if a == [] {
      Units(0);
    } else {
      var n := |a| - 1;
      SumAdd(a[..n], b[..n]);
      assert VAdd(a, b)[..n] == VAdd(a[..n], b[..n]);
      AddSwap(Sum(a[..n]), Sum(b[..n]), a[n], b[n]);
    }
  }

  lemma {:induction false} SumOverAdd(c: Vec, d: Vec, points: seq<Point>)
    requires |c| == |d|
    ensures SumOver(VAdd(c, d), points) == Add(SumOver(c, points), SumOver(d, points))
  {
    hide EvalC;
    if points == [] {
      Units(0);
    } else {
      var n := |points| - 1;
      SumOverAdd(c, d, points[..n]);
      EvalCAdd(c, d, points[n]);
      AddSwap(SumOver(c, points[..n]), SumOver(d, points[..n]), EvalC(c, points[n]), EvalC(d, points[n]));
    }
  }

  lemma MessageEvalAdd(a: Vec, b: Vec, place: Place)
    requires |a| == |b|
    ensures MessageEval(VAdd(a, b), place) == Add(MessageEval(a, place), MessageEval(b, place))
  {
    match place
    case AtElement(x) => DotAdd(a, b, Row(|a|, x));
    case AtPoint(p) => EvalCAdd(a, b, p);
  }

  lemma ExtractionAdd(params: LigeroParams, tables: Option<Code>, a: Vec, b: Vec)
    requires Fits(params, tables) && |a| == |b| >= params.rowLen
    ensures Extraction(params, tables, VAdd(a, b)) == Add(Extraction(params, tables, a), Extraction(params, tables, b))
  {
    hide Fits;
    FitsFacts(params, tables);
    if params.code == Rs {
      assert VAdd(a, b)[..params.rowLen] == VAdd(a[..params.rowLen], b[..params.rowLen]);
      SumAdd(a[..params.rowLen], b[..params.rowLen]);
    } else {
      SumOverAdd(a, b, tables.value.window.domain);
    }
  }

  ghost predicate IsRowProduct(
    params: LigeroParams, tables: Option<Code>, w: Vec, message: Vec, data: Vec, q: Vec)
    requires Fits(params, tables) && |w| == params.rowLen == |data|
  {
    && |q| == params.ClaimDegreeBound() && |q| >= params.rowLen
    && (forall place :: PlaceFits(params, place) ==>
          MessageEval(q, place) == Mul(Dot(w, WeightVector(params, tables, place)), MessageEval(message, place)))
    && Extraction(params, tables, q) == Dot(w, data)
  }

  lemma RsRowProduct(params: LigeroParams, tables: Option<Code>, w: Vec, message: Vec, data: Vec) returns (q: Vec)
    requires Fits(params, tables) && params.code == Rs
    requires |w| == params.rowLen == |data| && |message| == params.degreeBound && Carries(params, tables, message, data)
    ensures IsRowProduct(params, tables, w, message, data, q)
  {
    hide R, Eval, MessagePoly, Row, PMul, Fits;
    FitsFacts(params, tables);
    var n := params.ClaimDegreeBound();
    var g := PMul(MessagePoly(w), MessagePoly(message));
    q := Values(g, n);
    assert Values(g, |q|) == q;
    MessagePolyUnique(q, g);
    forall place | PlaceFits(params, place)
      ensures MessageEval(q, place) == Mul(Dot(w, WeightVector(params, tables, place)), MessageEval(message, place))
    {
      EvalMessage(q, place.x);
      EvalMessage(w, place.x);
      EvalMessage(message, place.x);
      EvalMul(MessagePoly(w), MessagePoly(message), place.x);
    }
    var head := q[..params.rowLen];
    forall i | 0 <= i < params.rowLen ensures head[i] == Mul(w[i], data[i]) {
      EvalMul(MessagePoly(w), MessagePoly(message), R(i));
      Interpolates(w, i);
      Interpolates(message, i);
      assert data[i] == message[..params.rowLen][i];
    }
    SumIsDot(w, data, head);
  }

  lemma CircleRowProduct(params: LigeroParams, tables: Option<Code>, w: Vec, message: Vec, data: Vec) returns (q: Vec)
    requires Fits(params, tables) && params.code == Circle
    requires |w| == params.rowLen == |data| && |message| == params.degreeBound && Carries(params, tables, message, data)
    ensures IsRowProduct(params, tables, w, message, data, q)
  {
    hide EvalC, Product, BasisSums, OnCircle, Fits, WeightVector, Code.DataPoly, LigeroParams.Validate,
         LigeroParams.Geom, Tables.Valid;
    FitsFacts(params, tables);
    var code := tables.value;
    q := Product(code.DataPoly(w), message);
    forall place | PlaceFits(params, place)
      ensures MessageEval(q, place) == Mul(Dot(w, WeightVector(params, tables, place)), MessageEval(message, place))
    {
      ProductEvaluates(code.DataPoly(w), message, place.p);
      WeightEval(params, tables, w, place.p);
    }
    code.WindowSumOfProduct(w, data, message);
  }

  lemma RowProduct(params: LigeroParams, tables: Option<Code>, w: Vec, message: Vec, data: Vec) returns (q: Vec)
    requires Fits(params, tables)
    requires |w| == params.rowLen == |data| && |message| == params.degreeBound && Carries(params, tables, message, data)
    ensures IsRowProduct(params, tables, w, message, data, q)
  {
    if params.code == Rs {
      q := RsRowProduct(params, tables, w, message, data);
    } else {
      q := CircleRowProduct(params, tables, w, message, data);
    }
  }

  // ----- batches -----

  ghost function Column(messages: seq<Vec>, place: Place): (c: Vec)
    ensures |c| == |messages|
  {
    seq(|messages|, r requires 0 <= r < |messages| => MessageEval(messages[r], place))
  }

  function Pairing(m: seq<Vec>, data: seq<Vec>, rowLen: nat): Fp
    requires Matrix(m, |data|, rowLen) && Matrix(data, |data|, rowLen)
  {
    if data == [] then 0
    else
      var n := |data| - 1;
      Add(Pairing(m[..n], data[..n], rowLen), Dot(m[n], data[n]))
  }

  /** Committed messages with the data rows they carry. */
  ghost predicate AllCarry(params: LigeroParams, tables: Option<Code>, messages: seq<Vec>, data: seq<Vec>)
    requires Fits(params, tables)
  {
    && |messages| == |data| && Matrix(data, |data|, params.rowLen)
    && forall r :: 0 <= r < |messages| ==>
         |messages[r]| == params.degreeBound && Carries(params, tables, messages[r], data[r])
  }

  /** The batch: blind plus weights times rows. */
  ghost predicate IsBatch(
    params: LigeroParams, tables: Option<Code>, m: seq<Vec>, messages: seq<Vec>, blind: Vec, q: Vec)
    requires Fits(params, tables) && Matrix(m, |messages|, params.rowLen)
  {
    && |q| == params.ClaimDegreeBound()
    && (forall place :: PlaceFits(params, place) ==>
          MessageEval(q, place)
          == Add(MessageEval(blind, place),
                 RowsCombined(m, params.rowLen, WeightVector(params, tables, place), Column(messages, place))))
  }

  /** A batch is a message of the claim bound, and extracts to the paired weights and data. */
  lemma {:induction false} BatchExists(
    params: LigeroParams, tables: Option<Code>, m: seq<Vec>, messages: seq<Vec>, data: seq<Vec>, blind: Vec)
    returns (q: Vec)
    requires Fits(params, tables) && AllCarry(params, tables, messages, data)
    requires Matrix(m, |messages|, params.rowLen) && |blind| == params.ClaimDegreeBound() >= params.rowLen
    ensures IsBatch(params, tables, m, messages, blind, q)
    ensures Extraction(params, tables, q) == Add(Extraction(params, tables, blind), Pairing(m, data, params.rowLen))
    decreases |messages|
  {
    hide Fits, MessageEval, WeightVector, Extraction, Carries, PlaceFits;
    if messages == [] {
      q := blind;
      Units(Extraction(params, tables, blind));
      forall place | PlaceFits(params, place)
        ensures MessageEval(q, place)
             == Add(MessageEval(blind, place),
                    RowsCombined(m, params.rowLen, WeightVector(params, tables, place), Column(messages, place)))
      {
        Units(MessageEval(blind, place));
      }
    } else {
      var n := |messages| - 1;
      var before := BatchExists(params, tables, m[..n], messages[..n], data[..n], blind);
      var product := RowProduct(params, tables, m[n], messages[n], data[n]);
      q := VAdd(before, product);
      ExtractionAdd(params, tables, before, product);
      AddAssoc(Extraction(params, tables, blind), Pairing(m[..n], data[..n], params.rowLen), Dot(m[n], data[n]));
      forall place | PlaceFits(params, place)
        ensures MessageEval(q, place)
             == Add(MessageEval(blind, place),
                    RowsCombined(m, params.rowLen, WeightVector(params, tables, place), Column(messages, place)))
      {
        var at := WeightVector(params, tables, place);
        MessageEvalAdd(before, product, place);
        assert Column(messages, place)[..n] == Column(messages[..n], place);
        RowsCombinedSnoc(m, params.rowLen, at, Column(messages, place));
        AddAssoc(MessageEval(blind, place), RowsCombined(m[..n], params.rowLen, at, Column(messages[..n], place)),
                 Mul(Dot(m[n], at), MessageEval(messages[n], place)));
      }
    }
  }

  lemma RowsCombinedSnoc(m: seq<Vec>, rowLen: nat, at: Vec, column: Vec)
    requires m != [] && Matrix(m, |m|, rowLen) && |at| == rowLen && |m| == |column|
    ensures var n := |m| - 1;
            RowsCombined(m, rowLen, at, column)
            == Add(RowsCombined(m[..n], rowLen, at, column[..n]), Mul(Dot(m[n], at), column[n]))
  {
    RowsCombinedPrefix(m[..|m| - 1], rowLen, at, column);
  }

  lemma {:induction false} RowsCombinedPrefix(m: seq<Vec>, rowLen: nat, at: Vec, column: Vec)
    requires Matrix(m, |m|, rowLen) && |at| == rowLen && |m| <= |column|
    ensures RowsCombined(m, rowLen, at, column) == RowsCombined(m, rowLen, at, column[..|m|])
    decreases |m|
  {
    if m != [] {
      var n := |m| - 1;
      RowsCombinedPrefix(m[..n], rowLen, at, column);
      RowsCombinedPrefix(m[..n], rowLen, at, column[..|m|]);
      assert column[..|m|][..n] == column[..n];
    }
  }
}
