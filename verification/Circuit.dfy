/** Layered quadratic circuits (circuit.rs). */
module Circuits {
  import opened Wrappers
  import opened Field
  import opened Vectors
  import opened Bits
  import opened Multilinear

  datatype QuadTerm = QuadTerm(out: nat, l: nat, r: nat, coeff: Fp)

  datatype CircuitError =
    | EmptyCircuit
    | InvalidTermIndex
    | PointLength(expected: nat, actual: nat)
    | WrongWitnessDepth(expected: nat, actual: nat)
    | WrongWitnessWidth(layer: nat, expected: nat, actual: nat)
    | RecurrenceMismatch(layer: nat, index: nat)

  datatype Layer = Layer(outLog: nat, nextLog: nat, terms: seq<QuadTerm>) {
    ghost predicate Valid()
    {
      outLog < 32 && nextLog < 32 && TermsFit(terms, outLog, nextLog)
    }

    /** A 32-bit shift bounds the log sizes; every term index must be inside its layer. */
    static method New(outLog: nat, nextLog: nat, terms: seq<QuadTerm>) returns (r: Result<Layer, CircuitError>)
      ensures r.Ok? <==> Layer(outLog, nextLog, terms).Valid()
      ensures r == if Layer(outLog, nextLog, terms).Valid() then Ok(Layer(outLog, nextLog, terms))
                   else Err(InvalidTermIndex)
    {
      if outLog >= 32 || nextLog >= 32 {
        return Err(InvalidTermIndex);
      }
      var outWidth, nextWidth := Pow2(outLog), Pow2(nextLog);
      for k := 0 to |terms|
        invariant TermsFit(terms[..k], outLog, nextLog)
      {
        if terms[k].out >= outWidth || terms[k].l >= nextWidth || terms[k].r >= nextWidth {
          return Err(InvalidTermIndex);
        }
      }
      return Ok(Layer(outLog, nextLog, terms));
    }
  }

  ghost predicate TermsFit(terms: seq<QuadTerm>, outLog: nat, nextLog: nat)
  {
    forall k :: 0 <= k < |terms| ==>
      terms[k].out < Pow2(outLog) && terms[k].l < Pow2(nextLog) && terms[k].r < Pow2(nextLog)
  }

  function Outs(terms: seq<QuadTerm>): (s: seq<nat>)
    ensures |s| == |terms|
  {
    seq(|terms|, k requires 0 <= k < |terms| => terms[k].out)
  }

  function Lefts(terms: seq<QuadTerm>): (s: seq<nat>)
    ensures |s| == |terms|
  {
    seq(|terms|, k requires 0 <= k < |terms| => terms[k].l)
  }

  function Rights(terms: seq<QuadTerm>): (s: seq<nat>)
    ensures |s| == |terms|
  {
    seq(|terms|, k requires 0 <= k < |terms| => terms[k].r)
  }

  /** The contribution of every term: coeff * next[l] * next[r]. */
  function TermValues(terms: seq<QuadTerm>, next: Vec): (v: Vec)
    requires AllBelow(Lefts(terms), |next|) && AllBelow(Rights(terms), |next|)
    ensures |v| == |terms|
  {
    seq(|terms|, k requires 0 <= k < |terms| =>
      assert Lefts(terms)[k] < |next| && Rights(terms)[k] < |next|;
      Mul(Mul(terms[k].coeff, next[terms[k].l]), next[terms[k].r]))
  }

  lemma FitKeys(layer: Layer)
    requires layer.Valid()
    ensures AllBelow(Outs(layer.terms), Pow2(layer.outLog))
    ensures AllBelow(Lefts(layer.terms), Pow2(layer.nextLog))
    ensures AllBelow(Rights(layer.terms), Pow2(layer.nextLog))
  {
  }

  /** The layer above: every output sums its own terms. */
  function EvalNext(layer: Layer, next: Vec): (out: Vec)
    requires layer.Valid() && |next| == Pow2(layer.nextLog)
    ensures |out| == Pow2(layer.outLog)
  {
    FitKeys(layer);
    Scatter(Outs(layer.terms), TermValues(layer.terms, next), Pow2(layer.outLog))
  }

  method EvalNextLoop(layer: Layer, next: Vec) returns (r: Result<Vec, CircuitError>)
    requires layer.Valid()
    ensures |next| != Pow2(layer.nextLog) ==> r == Err(WrongWitnessWidth(0, Pow2(layer.nextLog), |next|))
    ensures |next| == Pow2(layer.nextLog) ==> r == Ok(EvalNext(layer, next))
  {
    if |next| != Pow2(layer.nextLog) {
      return Err(WrongWitnessWidth(0, Pow2(layer.nextLog), |next|));
    }
    FitKeys(layer);
    var terms := layer.terms;
    ghost var keys, vals := Outs(terms), TermValues(terms, next);
    var out := Zeros(Pow2(layer.outLog));
    for k := 0 to |terms|
      invariant out == Scatter(keys[..k], vals[..k], Pow2(layer.outLog))
    {
      assert keys[..k + 1][..k] == keys[..k] && vals[..k + 1][..k] == vals[..k];
      var t := terms[k];
      out := out[t.out := Add(out[t.out], Mul(Mul(t.coeff, next[t.l]), next[t.r]))];
    }
    assert keys[..|terms|] == keys && vals[..|terms|] == vals;
    return Ok(out);
  }

  datatype Circuit = Circuit(layers: seq<Layer>) {
    ghost predicate Valid() { layers != [] && Chained(layers) }

    static method New(layers: seq<Layer>) returns (r: Result<Circuit, CircuitError>)
      requires forall i :: 0 <= i < |layers| ==> layers[i].Valid()
      ensures r.Ok? <==> Circuit(layers).Valid()
      ensures r.Ok? ==> r.value == Circuit(layers)
      ensures layers == [] ==> r == Err(EmptyCircuit)
      ensures layers != [] && r.Err? ==> r.error == InvalidTermIndex
    {
      if |layers| == 0 {
        return Err(EmptyCircuit);
      }
      for i := 0 to |layers| - 1
        invariant forall j :: 0 <= j < i ==> layers[j].nextLog == layers[j + 1].outLog
      {
        if layers[i].nextLog != layers[i + 1].outLog {
          assert !Chained(layers);
          return Err(InvalidTermIndex);
        }
      }
      return Ok(Circuit(layers));
    }

    /** All layer values for one input, from the outputs down to the input itself. */
    method EvaluateInput(input: Vec) returns (r: Result<seq<Vec>, CircuitError>)
      requires Valid()
      ensures |input| != Pow2(InputLog(layers)) ==>
                r == Err(WrongWitnessWidth(|layers|, Pow2(InputLog(layers)), |input|))
      ensures |input| == Pow2(InputLog(layers)) ==> r == Ok(Evaluate(layers, input))
    {
      hide Scatter, Pow2, EvalNext;
      var expected := Pow2(layers[|layers| - 1].nextLog);
      if |input| != expected {
        return Err(WrongWitnessWidth(|layers|, expected, |input|));
      }
      var reversed := [input];
      for i := |layers| downto 0
        invariant |reversed| == |layers| - i + 1
        invariant Chained(layers[i..])
        invariant i < |layers| ==> InputLog(layers[i..]) == InputLog(layers)
        invariant Reverse(reversed) == Evaluate(layers[i..], input)
        invariant |reversed[|reversed| - 1]| == if i == |layers| then expected else Pow2(layers[i].outLog)
      {
        assert layers[i..][1..] == layers[i + 1..];
        var next := EvalNextLoop(layers[i], reversed[|reversed| - 1]);
        ReverseHead(reversed);
        match next {
          case Err(_) =>
            assert false;
          case Ok(values) =>
            ReverseSnoc(reversed, values);
            reversed := reversed + [values];
        }
      }
      assert layers[0..] == layers;
      return Ok(Reverse(reversed));
    }

    /** The values must be a full evaluation trace; the answer is whether all outputs are zero. */
    method IsSatisfied(trace: seq<Vec>) returns (r: Result<bool, CircuitError>)
      requires Valid()
      ensures r.Ok? <==> IsTrace(layers, trace)
      ensures r.Ok? ==> r.value == AllZero(trace[0])
      ensures r.Err? ==> IsFirstFault(layers, trace, r.error)
    {
      hide Scatter, Evaluate, EvalNext;
      if |trace| != |layers| + 1 {
        return Err(WrongWitnessDepth(|layers| + 1, |trace|));
      }
      for i := 0 to |layers|
        invariant forall j :: 0 <= j < i ==> StepHolds(layers, trace, j)
      {
        var expectedOut := Pow2(layers[i].outLog);
        if |trace[i]| != expectedOut {
          assert !StepHolds(layers, trace, i);
          assert StepFault(layers, trace, i, WrongWitnessWidth(i, expectedOut, |trace[i]|));
          return Err(WrongWitnessWidth(i, expectedOut, |trace[i]|));
        }
        var expected := EvalNextLoop(layers[i], trace[i + 1]);
        if expected.Err? {
          assert !StepHolds(layers, trace, i);
          assert StepFault(layers, trace, i, expected.error);
          return Err(expected.error);
        }
        for index := 0 to |trace[i]|
          invariant forall k :: 0 <= k < index ==> trace[i][k] == expected.value[k]
        {
          if trace[i][index] != expected.value[index] {
            assert !StepHolds(layers, trace, i);
            assert StepFault(layers, trace, i, RecurrenceMismatch(i, index));
            return Err(RecurrenceMismatch(i, index));
          }
        }
        assert trace[i] == expected.value;
      }
      assert forall j :: 0 <= j < |layers| && StepHolds(layers, trace, j) ==> |trace[j + 1]| == Pow2(layers[j].nextLog);
      return Ok(forall k :: 0 <= k < |trace[0]| ==> trace[0][k] == 0);
    }
  }

  /** The error names the first thing that is wrong with a witness: its depth, the width of a layer or of the layer below
      it (always reported as layer 0), or the first entry that differs from the evaluation. */
  ghost predicate IsFirstFault(layers: seq<Layer>, trace: seq<Vec>, e: CircuitError)
    requires Chained(layers)
  {
    if |trace| != |layers| + 1 then e == WrongWitnessDepth(|layers| + 1, |trace|)
    else exists i: nat :: i < |layers| && (forall j :: 0 <= j < i ==> StepHolds(layers, trace, j)) && StepFault(layers, trace, i, e)
  }

  ghost predicate StepFault(layers: seq<Layer>, trace: seq<Vec>, i: nat, e: CircuitError)
    requires Chained(layers) && |trace| == |layers| + 1 && i < |layers|
  {
    var out, below := Pow2(layers[i].outLog), Pow2(layers[i].nextLog);
    if |trace[i]| != out then e == WrongWitnessWidth(i, out, |trace[i]|)
    else if |trace[i + 1]| != below then e == WrongWitnessWidth(0, below, |trace[i + 1]|)
    else
      && e.RecurrenceMismatch? && e.layer == i && e.index < out
      && trace[i][e.index] != EvalNext(layers[i], trace[i + 1])[e.index]
      && trace[i][..e.index] == EvalNext(layers[i], trace[i + 1])[..e.index]
  }

  ghost predicate Chained(layers: seq<Layer>)
  {
    && (forall i :: 0 <= i < |layers| ==> layers[i].Valid())
    && (forall i :: 0 <= i < |layers| - 1 ==> layers[i].nextLog == layers[i + 1].outLog)
  }

  function InputLog(layers: seq<Layer>): nat
    requires layers != []
  {
    layers[|layers| - 1].nextLog
  }

  predicate AllZero(v: Vec) { forall i :: 0 <= i < |v| ==> v[i] == 0 }

  function Reverse<T>(s: seq<T>): (r: seq<T>)
    ensures |r| == |s|
  {
    if s == [] then [] else [s[|s| - 1]] + Reverse(s[..|s| - 1])
  }

  lemma ReverseHead<T>(s: seq<T>)
    requires s != []
    ensures Reverse(s)[0] == s[|s| - 1]
  {
  }

  lemma ReverseSnoc<T>(s: seq<T>, x: T)
    ensures Reverse(s + [x]) == [x] + Reverse(s)
  {
    assert (s + [x])[..|s|] == s;
  }

  function Evaluate(layers: seq<Layer>, input: Vec): (w: seq<Vec>)
    requires Chained(layers)
    requires layers != [] ==> |input| == Pow2(InputLog(layers))
    ensures |w| == |layers| + 1 && w[|layers|] == input
    ensures layers != [] ==> |w[0]| == Pow2(layers[0].outLog)
    decreases |layers|
  {
    if layers == [] then [input]
    else
      var rest := Evaluate(layers[1..], input);
      assert |layers| > 1 ==> layers[1..][0] == layers[1];
      [EvalNext(layers[0], rest[0])] + rest
  }

  ghost predicate StepHolds(layers: seq<Layer>, trace: seq<Vec>, i: nat)
    requires Chained(layers) && i < |layers| && |trace| == |layers| + 1
  {
    |trace[i + 1]| == Pow2(layers[i].nextLog) && trace[i] == EvalNext(layers[i], trace[i + 1])
  }

  /** Every layer's values have the layer's width. */
  ghost predicate Shaped(layers: seq<Layer>, trace: seq<Vec>)
  {
    |trace| == |layers| + 1 && forall i :: 0 <= i < |layers| ==> |trace[i + 1]| == Pow2(layers[i].nextLog)
  }

  ghost predicate IsTrace(layers: seq<Layer>, trace: seq<Vec>)
    requires Chained(layers)
  {
    Shaped(layers, trace) && forall i :: 0 <= i < |layers| ==> StepHolds(layers, trace, i)
  }

  /** `is_satisfied` and `evaluate_input` agree: the accepted witnesses are exactly the evaluations. */
  lemma {:induction false} TracesAreEvaluations(layers: seq<Layer>, trace: seq<Vec>)
    requires Chained(layers) && layers != [] && |trace| == |layers| + 1
    ensures IsTrace(layers, trace) <==>
              |trace[|layers|]| == Pow2(InputLog(layers)) && trace == Evaluate(layers, trace[|layers|])
    decreases |layers|
  {
    hide EvalNext;
    var rest, tail := layers[1..], trace[1..];
    assert StepHolds(layers, trace, 0) <==>
           |trace[1]| == Pow2(layers[0].nextLog) && trace[0] == EvalNext(layers[0], trace[1]);
    if rest == [] {
    } else {
      TracesAreEvaluations(rest, tail);
      assert forall i :: 0 <= i < |rest| ==> StepHolds(rest, tail, i) == StepHolds(layers, trace, i + 1);
      if IsTrace(layers, trace) {
        assert trace == [trace[0]] + tail;
      } else if |trace[|layers|]| == Pow2(InputLog(layers)) && trace == Evaluate(layers, trace[|layers|]) {
        assert tail == Evaluate(rest, trace[|layers|]);
        forall i | 0 <= i < |layers| ensures StepHolds(layers, trace, i) {
          if i > 0 {
            assert StepHolds(rest, tail, i - 1);
          }
        }
      }
    }
  }

  /** The wiring polynomial q~ of a layer, at one output point and a pair of input points. */
  function QTilde(layer: Layer, out: Vec, left: Vec, right: Vec): Fp
  {
    Sum(QTerms(layer.terms, out, left, right))
  }

  function QTerms(terms: seq<QuadTerm>, out: Vec, left: Vec, right: Vec): (v: Vec)
    ensures |v| == |terms|
  {
    seq(|terms|, k requires 0 <= k < |terms| =>
      Mul(Mul(Mul(terms[k].coeff, PrefixEq(terms[k].out, out)), PrefixEq(terms[k].l, left)), PrefixEq(terms[k].r, right)))
  }

  function BitVec(index: nat, width: nat): (v: Vec)
    ensures |v| == width
  {
    seq(width, k requires 0 <= k => if Bit(index, k) then 1 else 0)
  }

  /** `eq_eval`: the product over coordinates of a b + (1 - a)(1 - b). */
  function EqEval(a: Vec, b: Vec): Fp
    requires |a| == |b|
  {
    if a == [] then 1
    else
      var n := |a| - 1;
      Mul(EqEval(a[..n], b[..n]), Add(Mul(a[n], b[n]), Mul(Sub(1, a[n]), Sub(1, b[n]))))
  }

  lemma {:induction false} EqEvalOfBits(index: nat, point: Vec)
    ensures EqEval(BitVec(index, |point|), point) == PrefixEq(index, point)
    decreases |point|
  {
    if point != [] {
      var n := |point| - 1;
      EqEvalOfBits(index, point[..n]);
      assert BitVec(index, |point|)[..n] == BitVec(index, n);
      assert point == point[..n] + [point[n]];
      PrefixEqSnoc(index, point[..n], point[n]);
      BitFactor(point[n]);
    }
  }

  lemma BitFactor(c: Fp)
    ensures Add(Mul(1, c), Mul(Sub(1, 1), Sub(1, c))) == c
    ensures Add(Mul(0, c), Mul(Sub(1, 0), Sub(1, c))) == Sub(1, c)
  {
    Units(c); Units(1); Units(0); Units(Sub(1, c));
  }

  method QTildeEval(layer: Layer, rOut: Vec, left: Vec, right: Vec) returns (r: Result<Fp, CircuitError>)
    ensures |rOut| != layer.outLog ==> r == Err(PointLength(layer.outLog, |rOut|))
    ensures |rOut| == layer.outLog && |left| != layer.nextLog ==> r == Err(PointLength(layer.nextLog, |left|))
    ensures |rOut| == layer.outLog && |left| == layer.nextLog && |right| != layer.nextLog ==>
              r == Err(PointLength(layer.nextLog, |right|))
    ensures |rOut| == layer.outLog && |left| == |right| == layer.nextLog ==>
              r == Ok(QTilde(layer, rOut, left, right))
  {
    if |rOut| != layer.outLog {
      return Err(PointLength(layer.outLog, |rOut|));
    }
    if |left| != layer.nextLog {
      return Err(PointLength(layer.nextLog, |left|));
    }
    if |right| != layer.nextLog {
      return Err(PointLength(layer.nextLog, |right|));
    }
    ghost var values := QTerms(layer.terms, rOut, left, right);
    var acc: Fp := 0;
    for k := 0 to |layer.terms|
      invariant acc == Sum(values[..k])
    {
      var t := layer.terms[k];
      EqEvalOfBits(t.out, rOut);
      EqEvalOfBits(t.l, left);
      EqEvalOfBits(t.r, right);
      var out := EqEval(BitVec(t.out, layer.outLog), rOut);
      var l := EqEval(BitVec(t.l, layer.nextLog), left);
      var r := EqEval(BitVec(t.r, layer.nextLog), right);
      assert values[..k + 1][..k] == values[..k];
      acc := Add(acc, Mul(Mul(Mul(t.coeff, out), l), r));
    }
    assert values[..|values|] == values;
    return Ok(acc);
  }
}
