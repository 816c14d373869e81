/** The Reed-Solomon code over the points 0, 1, 2, ... (rs.rs): a message is the values of a polynomial at the first
    points, its codeword the values at all of them. The encoder extends the table with backward differences, the
    evaluator with precomputed Lagrange coefficients; both are evaluations of one polynomial. */
module ReedSolomon {
  import opened Wrappers
  import opened Modulus
  import opened Field
  import opened Vectors
  import opened Polynomials

  // ----- Lagrange interpolation at 0, 1, ..., k - 1 -----

  /** The product of x - j over j < k, leaving out i. */
  function Others(i: nat, k: nat, x: Fp): Fp
  {
    if k == 0 then 1
    else if k - 1 == i then Others(i, k - 1, x)
    else Mul(Others(i, k - 1, x), Sub(x, R(k - 1)))
  }

  function OthersPoly(i: nat, k: nat): (p: Vec)
    ensures |p| == if i < k then k else k + 1
  {
    if k == 0 then [1]
    else if k - 1 == i then OthersPoly(i, k - 1)
    else PMul(OthersPoly(i, k - 1), [Neg(R(k - 1)), 1])
  }

  lemma LinearFactor(a: Fp, x: Fp)
    ensures Add(Sub(0, a), Mul(x, 1))
       == Sub(x, a)
  {
    Same(ZAdd(ZSub(0, a), ZMul(x, 1)),
         ZSub(x, a));
    hide *;
    Ring(a, x);
  }

  lemma {:induction false} EvalOthers(i: nat, k: nat, x: Fp)
    ensures Eval(OthersPoly(i, k), x) == Others(i, k, x)
  {
    hide R;
    if k == 0 {
      EvalConstant(1, x);
    } else {
      EvalOthers(i, k - 1, x);
      if k - 1 != i {
        var a := R(k - 1);
        var f := [Neg(a), 1];
        EvalMul(OthersPoly(i, k - 1), f, x);
        assert f[1..] == [1];
        EvalConstant(1, x);
        LinearFactor(a, x);
      }
    }
  }

  lemma EvalConstant(c: Fp, x: Fp)
    ensures Eval([c], x) == c
  {
    assert [c][1..] == [];
    Units(x);
    Units(c);
  }

  lemma {:induction false} OthersVanishes(i: nat, k: nat, j: nat)
    requires j < k && j != i
    ensures Others(i, k, R(j)) == 0
  {
    hide R;
    if j < k - 1 {
      OthersVanishes(i, k - 1, j);
    }
    Units(Sub(R(j), R(k - 1)));
    Units(R(j));
    Units(Others(i, k - 1, R(j)));
  }

  lemma {:induction false} OthersNonzero(i: nat, k: nat)
    requires i <= U64_MAX && k <= U64_MAX + 1
    ensures Others(i, k, R(i)) != 0
  {
    hide R;
    if k > 0 {
      OthersNonzero(i, k - 1);
      if k - 1 != i && Others(i, k, R(i)) == 0 {
        NoZeroDivisors(Others(i, k - 1, R(i)), Sub(R(i), R(k - 1)));
        SubZero(R(i), R(k - 1));
        SmallDistinct(i, k - 1);
      }
    }
  }

  function Weight(i: nat, k: nat): Fp { InvOrZero(Others(i, k, R(i))) }

  /** The values at x of the k Lagrange basis polynomials. */
  function Row(k: nat, x: Fp): (r: Vec)
    ensures |r| == k
  {
    seq(k, i requires 0 <= i => Mul(Weight(i, k), Others(i, k, x)))
  }

  lemma RowAtPoint(k: nat, j: nat)
    requires j < k <= U64_MAX + 1
    ensures Row(k, R(j)) == Unit(k, j)
  {
    hide R, Others;
    forall i | 0 <= i < k ensures Row(k, R(j))[i] == Unit(k, j)[i] {
      OthersNonzero(i, k);
      InvMul(Others(i, k, R(i)));
      if i != j {
        OthersVanishes(i, k, j);
        Units(Weight(i, k));
      }
    }
  }

  function Combination(cs: Vec, k: nat): (p: Vec)
    requires |cs| <= k
    ensures |p| == k
  {
    if cs == [] then Zeros(k)
    else
      var i := |cs| - 1;
      VAdd(Combination(cs[..i], k), Scale(cs[i], Scale(Weight(i, k), OthersPoly(i, k))))
  }

  lemma {:induction false} EvalCombination(cs: Vec, k: nat, x: Fp)
    requires |cs| <= k
    ensures Eval(Combination(cs, k), x) == Dot(cs, Row(k, x)[..|cs|])
  {
    hide R, Eval, Weight;
    if cs == [] {
      EvalZero(Zeros(k), x);
    } else {
      var i := |cs| - 1;
      EvalCombination(cs[..i], k, x);
      var base := OthersPoly(i, k);
      EvalAdd(Combination(cs[..i], k), Scale(cs[i], Scale(Weight(i, k), base)), x);
      EvalScale(cs[i], Scale(Weight(i, k), base), x);
      EvalScale(Weight(i, k), base, x);
      EvalOthers(i, k, x);
      assert Row(k, x)[..|cs|][..i] == Row(k, x)[..i];
    }
  }

  /** The polynomial of a message: as many coefficients as the message has symbols. */
  function MessagePoly(message: Vec): (p: Vec)
    ensures |p| == |message|
  {
    Combination(message, |message|)
  }

  lemma EvalMessage(message: Vec, x: Fp)
    ensures Eval(MessagePoly(message), x) == Dot(message, Row(|message|, x))
  {
    EvalCombination(message, |message|, x);
    assert Row(|message|, x)[..|message|] == Row(|message|, x);
  }

  /** It takes the message's values at the first points. */
  lemma Interpolates(message: Vec, j: nat)
    requires j < |message| <= U64_MAX + 1
    ensures Eval(MessagePoly(message), R(j)) == message[j]
  {
    hide R, Eval;
    EvalMessage(message, R(j));
    RowAtPoint(|message|, j);
    DotUnit(message, j);
  }

  function Points(n: nat): (s: seq<Fp>)
    ensures |s| == n
  {
    seq(n, i requires 0 <= i => R(i))
  }

  lemma PointsDistinct(n: nat)
    requires n <= U64_MAX + 1
    ensures Distinct(Points(n))
  {
    forall i, j | 0 <= i < j < n ensures Points(n)[i] != Points(n)[j] {
      SmallDistinct(i, j);
    }
  }

  /** The codeword of a polynomial: its values at the first n points. */
  function Values(p: Vec, n: nat): (c: Vec)
    ensures |c| == n
  {
    seq(n, i requires 0 <= i => Eval(p, R(i)))
  }

  /** No other polynomial of that length takes the message's values. */
  lemma MessagePolyUnique(message: Vec, p: Vec)
    requires |p| == |message| <= U64_MAX + 1 && Values(p, |message|) == message
    ensures p == MessagePoly(message)
  {
    hide R, Eval, MessagePoly;
    PointsDistinct(|message|);
    forall i | 0 <= i < |message| ensures Eval(p, Points(|message|)[i]) == Eval(MessagePoly(message), Points(|message|)[i]) {
      assert Values(p, |message|)[i] == message[i];
      Interpolates(message, i);
    }
    Unique(p, MessagePoly(message), Points(|message|));
  }

  predicate IncreasingIndices(at: seq<nat>, n: nat)
  {
    && (forall i :: 0 <= i < |at| ==> at[i] < n)
    && (forall i, j :: 0 <= i < j < |at| ==> at[i] < at[j])
  }

  /** The minimum distance: codewords that agree at as many positions as the message has symbols are equal. */
  lemma CodeDistance(p: Vec, q: Vec, n: nat, agree: seq<nat>)
    requires |p| == |q| && n <= U64_MAX + 1 && IncreasingIndices(agree, n)
    requires forall i :: 0 <= i < |agree| ==> Values(p, n)[agree[i]] == Values(q, n)[agree[i]]
    requires p != q
    ensures |agree| < |p|
  {
    hide R, Eval;
    var points := seq(|agree|, i requires 0 <= i < |agree| => R(agree[i]));
    forall i, j | 0 <= i < j < |points| ensures points[i] != points[j] {
      SmallDistinct(agree[i], agree[j]);
    }
    forall i | 0 <= i < |points| ensures Eval(p, points[i]) == Eval(q, points[i]) {
      assert Values(p, n)[agree[i]] == Eval(p, points[i]);
      assert Values(q, n)[agree[i]] == Eval(q, points[i]);
    }
    if |agree| >= |p| {
      Unique(p, q, points);
    }
  }

  // ----- backward differences -----

  /** p(X - 1). */
  function Delay(p: Vec): (r: Vec)
    ensures |r| == |p|
  {
    if p == [] then [] else VSub([p[0]] + Delay(p[1..]), Delay(p[1..]) + [0])
  }

  lemma DelayStep(p0: Fp, x: Fp, s: Fp)
    ensures Sub(Add(p0, Mul(x, s)), s)
       == Add(p0, Mul(Sub(x, 1), s))
  {
    Same(ZSub(ZAdd(p0, ZMul(x, s)), s),
         ZAdd(p0, ZMul(ZSub(x, 1), s)));
    hide *;
    Ring(p0, x, s);
  }

  lemma {:induction false} EvalDelay(p: Vec, x: Fp)
    ensures Eval(Delay(p), x) == Eval(p, Sub(x, 1))
  {
    if p != [] {
      var s := Delay(p[1..]);
      EvalDelay(p[1..], x);
      EvalSub([p[0]] + s, s + [0], x);
      assert ([p[0]] + s)[1..] == s;
      EvalPad(s, [0], x);
      DelayStep(p[0], x, Eval(s, x));
    }
  }

  /** p(X) - p(X - 1): one coefficient fewer. */
  function Back(p: Vec): (r: Vec)
    ensures |r| == if p == [] then 0 else |p| - 1
  {
    if |p| <= 1 then [] else VAdd([0] + Back(p[1..]), Delay(p[1..]))
  }

  lemma BackStep(p0: Fp, x: Fp, q: Fp, d: Fp)
    ensures Add(Mul(x, Sub(q, d)), d)
       == Sub(Add(p0, Mul(x, q)), Add(p0, Mul(Sub(x, 1), d)))
  {
    Same(ZAdd(ZMul(x, ZSub(q, d)), d),
         ZSub(ZAdd(p0, ZMul(x, q)), ZAdd(p0, ZMul(ZSub(x, 1), d))));
    hide *;
    Ring(p0, x, q, d);
  }

  lemma {:induction false} EvalBack(p: Vec, x: Fp, y: Fp)
    requires y == Sub(x, 1)
    ensures Eval(Back(p), x) == Sub(Eval(p, x), Eval(p, y))
  {
    if p == [] {
      Units(0);
    } else if |p| == 1 {
      assert p == [p[0]];
      EvalConstant(p[0], x);
      EvalConstant(p[0], y);
      Units(p[0]);
    } else {
      var q := p[1..];
      EvalBack(q, x, y);
      EvalAdd([0] + Back(q), Delay(q), x);
      EvalShift(Back(q), x);
      EvalDelay(q, x);
      BackStep(p[0], x, Eval(q, x), Eval(q, y));
    }
  }

  function BackN(p: Vec, l: nat): (r: Vec)
    ensures |r| == if |p| <= l then 0 else |p| - l
  {
    if l == 0 then p else Back(BackN(p, l - 1))
  }

  lemma BackNothing(p: Vec)
    ensures BackN(p, 0) == p
  {
  }

  lemma Previous(i: nat)
    requires i > 0
    ensures Sub(R(i), 1) == R(i - 1)
  {
    hide R;
    RSub(i, 1);
    Canonical(1);
  }

  /** The l-th difference of the values of p that ends at point i + l. */
  function Difference(p: Vec, l: nat, i: nat): Fp { Eval(BackN(p, l), R(i + l)) }

  lemma ZerothDifferences(p: Vec, n: nat)
    ensures forall i :: 0 <= i < n ==> Values(p, n)[i] == Difference(p, 0, i)
  {
    BackNothing(p);
  }

  lemma NextDifference(p: Vec, l: nat, i: nat)
    ensures Difference(p, l + 1, i) == Sub(Difference(p, l, i + 1), Difference(p, l, i))
  {
    hide R, Eval, Back;
    Previous(i + l + 1);
    EvalBack(BackN(p, l), R(i + l + 1), R(i + l));
  }

  /** The differences of every order of a polynomial, ending at point i. */
  function Tail(p: Vec, i: nat): (t: Vec)
    ensures |t| == |p|
  {
    seq(|p|, l requires 0 <= l => Eval(BackN(p, l), R(i)))
  }

  lemma TailIs(p: Vec, i: nat)
    requires |p| <= i + 1
    ensures forall l :: 0 <= l < |p| ==> Tail(p, i)[l] == Difference(p, l, i - l)
  {
  }

  method TailDifferences(values: Vec, ghost p: Vec) returns (tailDiffs: Vec)
    requires |values| >= 1 && |p| == |values| && values == Values(p, |values|)
    ensures tailDiffs == Tail(p, |values| - 1)
  {
    hide R, Eval, BackN, Difference;
    var diffs := values;
    tailDiffs := [diffs[|diffs| - 1]];
    ZerothDifferences(p, |values|);
    for level := 1 to |diffs|
      invariant |diffs| == |values|
      invariant |tailDiffs| == level
      invariant forall i :: 0 <= i <= |diffs| - level ==> diffs[i] == Difference(p, level - 1, i)
      invariant forall l :: 0 <= l < level ==> tailDiffs[l] == Difference(p, l, |values| - 1 - l)
    {
      for index := 0 to |diffs| - level
        invariant |diffs| == |values|
        invariant forall i :: 0 <= i < index ==> diffs[i] == Difference(p, level, i)
        invariant forall i :: index <= i <= |diffs| - level ==> diffs[i] == Difference(p, level - 1, i)
      {
        NextDifference(p, level - 1, index);
        diffs := diffs[index := Sub(diffs[index + 1], diffs[index])];
      }
      tailDiffs := tailDiffs + [diffs[|diffs| - level - 1]];
    }
    TailIs(p, |values| - 1);
  }

  lemma NextTail(p: Vec, l: nat, i: nat)
    ensures l + 1 < |p| ==> Tail(p, i + 1)[l] == Add(Tail(p, i)[l], Tail(p, i + 1)[l + 1])
    ensures l + 1 == |p| ==> Tail(p, i + 1)[l] == Tail(p, i)[l]
  {
    hide R, Eval, Back;
    if l + 1 < |p| {
      var here, there := Eval(BackN(p, l), R(i)), Eval(BackN(p, l), R(i + 1));
      Previous(i + 1);
      EvalBack(BackN(p, l), R(i + 1), R(i));
      AddComm(here, Sub(there, here));
      SubAdd(there, here);
    } else if l + 1 == |p| {
      var c := BackN(p, l);
      assert c == [c[0]];
      EvalConstant(c[0], R(i));
      EvalConstant(c[0], R(i + 1));
    }
  }

  /** One step along the codeword, in place: the highest difference is constant, each other one grows by the next. */
  method AdvanceTailDifferencesOne(tailDiffs: array<Fp>, ghost p: Vec, ghost i: nat)
    requires |p| >= 1 && tailDiffs[..] == Tail(p, i)
    modifies tailDiffs
    ensures tailDiffs[..] == Tail(p, i + 1)
  {
    hide Tail;
    NextTail(p, |p| - 1, i);
    assert forall l :: 0 <= l < |p| ==> tailDiffs[..][l] == tailDiffs[l];
    var level := tailDiffs.Length - 1;
    while level >= 1
      invariant 0 <= level < tailDiffs.Length == |p|
      invariant forall l :: 0 <= l < level ==> tailDiffs[l] == Tail(p, i)[l]
      invariant forall l :: level <= l < |p| ==> tailDiffs[l] == Tail(p, i + 1)[l]
    {
      NextTail(p, level - 1, i);
      tailDiffs[level - 1] := Add(tailDiffs[level - 1], tailDiffs[level]);
      level := level - 1;
    }
  }

  method EquispacedCodeword(message: Vec, codewordLen: nat) returns (values: Vec)
    requires 1 <= |message| <= codewordLen <= U64_MAX + 1
    ensures values == Values(MessagePoly(message), codewordLen)
  {
    hide R, Eval, MessagePoly, BackN;
    ghost var p := MessagePoly(message);
    forall i | 0 <= i < |message| ensures message[i] == Values(p, |message|)[i] {
      Interpolates(message, i);
    }
    assert message == Values(p, |message|);
    values := message;
    if |values| == codewordLen {
      return;
    }
    var diffs := TailDifferences(values, p);
    var tailDiffs := new Fp[|diffs|](i requires 0 <= i < |diffs| => diffs[i]);
    assert tailDiffs[..] == diffs;
    while |values| < codewordLen
      invariant |message| <= |values| <= codewordLen
      invariant tailDiffs[..] == Tail(p, |values| - 1)
      invariant values == Values(p, |values|)
    {
      AdvanceTailDifferencesOne(tailDiffs, p, |values| - 1);
      assert tailDiffs[0] == tailDiffs[..][0];
      BackNothing(p);
      values := values + [tailDiffs[0]];
    }
  }

  // ----- the encoder -----

  datatype RsError = EmptyMessage | WrongMessageLength | CodewordTooShort | IndexOutOfRange

  /** The denominators of the basis polynomials, inverted all at once. */
  method LagrangeWeights(len: nat) returns (weights: Vec)
    ensures |weights| == len && forall i :: 0 <= i < len ==> weights[i] == Weight(i, len)
  {
    hide R, InvOrZero;
    var denominators: Vec := [];
    for i := 0 to len
      invariant |denominators| == i
      invariant forall k :: 0 <= k < i ==> denominators[k] == Others(k, len, R(k))
    {
      var acc: Fp := 1;
      for j := 0 to len
        invariant acc == Others(i, j, R(i))
      {
        if j != i {
          acc := Mul(acc, Sub(R(i), R(j)));
        }
      }
      denominators := denominators + [acc];
    }
    weights := BatchInverse(denominators);
  }

  lemma {:induction false} FullProduct(i: nat, k: nat, x: Fp)
    requires i < k
    ensures Others(k, k, x) == Mul(Others(i, k, x), Sub(x, R(i)))
  {
    hide R;
    if k - 1 == i {
      OthersAbove(i, k - 1, x);
      OthersAbove(k, k - 1, x);
    } else {
      FullProduct(i, k - 1, x);
      OthersAbove(k, k - 1, x);
      OthersAbove(k - 1, k - 1, x);
      var o, u, v := Others(i, k - 1, x), Sub(x, R(i)), Sub(x, R(k - 1));
      MulAssoc(o, u, v);
      MulComm(u, v);
      MulAssoc(o, v, u);
    }
  }

  /** Leaving out an index that is not there leaves out nothing. */
  lemma {:induction false} OthersAbove(i: nat, k: nat, x: Fp)
    requires i >= k
    ensures Others(i, k, x) == Others(k, k, x)
  {
    hide R;
    if k > 0 {
      OthersAbove(i, k - 1, x);
      OthersAbove(k, k - 1, x);
    }
  }

  lemma Reorder(o: Fp, d: Fp, v: Fp, w: Fp)
    ensures Mul(Mul(Mul(o, d), v), w)
       == Mul(Mul(w, o), Mul(d, v))
  {
    Same(ZMul(ZMul(ZMul(o, d), v), w),
         ZMul(ZMul(w, o), ZMul(d, v)));
    hide *;
    Ring(o, d, v, w);
  }

  lemma Coefficient(i: nat, k: nat, x: Fp)
    requires i < k && x != R(i)
    ensures Mul(Mul(Others(k, k, x), InvOrZero(Sub(x, R(i)))), Weight(i, k)) == Row(k, x)[i]
  {
    hide R, Others, Weight;
    FullProduct(i, k, x);
    var d := Sub(x, R(i));
    if d == 0 {
      SubZero(x, R(i));
    } else {
      InvMul(d);
      Reorder(Others(i, k, x), d, Inv(d), Weight(i, k));
      Units(Mul(Weight(i, k), Others(i, k, x)));
    }
  }

  method ExtensionCoefficients(messageLen: nat, weights: Vec, x: Fp) returns (coefficients: Vec)
    requires |weights| == messageLen
    requires forall i :: 0 <= i < messageLen ==> weights[i] == Weight(i, messageLen) && x != R(i)
    ensures coefficients == Row(messageLen, x)
  {
    hide R, InvOrZero, Weight;
    var offsets := seq(messageLen, i requires 0 <= i => Sub(x, R(i)));
    var numerator: Fp := 1;
    for j := 0 to messageLen
      invariant numerator == Others(j, j, x)
    {
      numerator := Mul(numerator, offsets[j]);
      OthersAbove(j + 1, j, x);
    }
    var inverses := BatchInverse(offsets);
    coefficients := seq(messageLen, i requires 0 <= i < messageLen => Mul(Mul(numerator, inverses[i]), weights[i]));
    forall i | 0 <= i < messageLen ensures coefficients[i] == Row(messageLen, x)[i] {
      Coefficient(i, messageLen, x);
    }
  }

  datatype RsEncoder = RsEncoder(messageLen: nat, codewordLen: nat, extensionCoefficients: seq<Vec>) {
    ghost predicate Valid()
    {
      && 1 <= messageLen <= codewordLen <= U64_MAX + 1
      && |extensionCoefficients| == codewordLen - messageLen
      && forall x :: messageLen <= x < codewordLen ==> extensionCoefficients[x - messageLen] == Row(messageLen, R(x))
    }

    static method New(messageLen: nat, codewordLen: nat) returns (r: Result<RsEncoder, RsError>)
      requires codewordLen <= U64_MAX + 1
      ensures messageLen == 0 ==> r == Err(EmptyMessage)
      ensures codewordLen < messageLen ==> r == Err(CodewordTooShort)
      ensures 0 < messageLen <= codewordLen ==>
                && r.Ok? && r.value.Valid()
                && r.value.messageLen == messageLen && r.value.codewordLen == codewordLen
    {
      hide R, Weight, Row;
      if messageLen == 0 {
        return Err(EmptyMessage);
      }
      if codewordLen < messageLen {
        return Err(CodewordTooShort);
      }
      var weights := LagrangeWeights(messageLen);
      var coefficients: seq<Vec> := [];
      for x := messageLen to codewordLen
        invariant |coefficients| == x - messageLen
        invariant forall y :: messageLen <= y < x ==> coefficients[y - messageLen] == Row(messageLen, R(y))
      {
        forall i | 0 <= i < messageLen ensures R(x) != R(i) {
          SmallDistinct(x, i);
        }
        var row := ExtensionCoefficients(messageLen, weights, R(x));
        coefficients := coefficients + [row];
      }
      r := Ok(RsEncoder(messageLen, codewordLen, coefficients));
    }

    /** Shorter messages are padded with zeros. */
    method EncodePadded(messagePrefix: Vec) returns (r: Result<Vec, RsError>)
      requires Valid()
      ensures |messagePrefix| > messageLen ==> r == Err(WrongMessageLength)
      ensures |messagePrefix| <= messageLen ==>
                r == Ok(Values(MessagePoly(messagePrefix + Zeros(messageLen - |messagePrefix|)), codewordLen))
    {
      hide R, MessagePoly;
      if |messagePrefix| > messageLen {
        return Err(WrongMessageLength);
      }
      var codeword := EquispacedCodeword(messagePrefix + Zeros(messageLen - |messagePrefix|), codewordLen);
      r := Ok(codeword);
    }

    method Encode(message: Vec) returns (r: Result<Vec, RsError>)
      requires Valid()
      ensures |message| != messageLen ==> r == Err(WrongMessageLength)
      ensures |message| == messageLen ==> r == Ok(Values(MessagePoly(message), codewordLen))
    {
      hide R, MessagePoly;
      if |message| != messageLen {
        return Err(WrongMessageLength);
      }
      assert message + Zeros(messageLen - |message|) == message;
      r := EncodePadded(message);
    }

    /** One symbol of the codeword: the symbol `Encode` puts there. */
    method Evaluate(message: Vec, index: nat) returns (r: Result<Fp, RsError>)
      requires Valid()
      ensures |message| != messageLen ==> r == Err(WrongMessageLength)
      ensures |message| == messageLen && index >= codewordLen ==> r == Err(IndexOutOfRange)
      ensures |message| == messageLen && index < codewordLen ==>
                r == Ok(Values(MessagePoly(message), codewordLen)[index])
    {
      hide R, MessagePoly, Row, Eval;
      if |message| != messageLen {
        return Err(WrongMessageLength);
      }
      if index >= codewordLen {
        return Err(IndexOutOfRange);
      }
      if index < messageLen {
        Interpolates(message, index);
        return Ok(message[index]);
      }
      var row := extensionCoefficients[index - messageLen];
      assert row == Row(messageLen, R(index));
      var acc: Fp := 0;
      for i := 0 to messageLen
        invariant acc == Dot(message[..i], row[..i])
      {
        assert message[..i + 1][..i] == message[..i] && row[..i + 1][..i] == row[..i];
        acc := Add(acc, Mul(message[i], row[i]));
      }
      assert message[..messageLen] == message && row[..messageLen] == row;
      EvalMessage(message, R(index));
      r := Ok(acc);
    }
  }

  /** Membership in the code: being the values of some polynomial of the message's length. */
  method IsCodeword(codeword: Vec, messageLen: nat) returns (r: Result<bool, RsError>)
    requires |codeword| <= U64_MAX + 1
    ensures messageLen == 0 ==> r == Err(EmptyMessage)
    ensures 0 < messageLen && |codeword| < messageLen ==> r == Err(CodewordTooShort)
    ensures 0 < messageLen <= |codeword| ==>
              && r.Ok?
              && (r.value <==> exists p: Vec :: |p| == messageLen && Values(p, |codeword|) == codeword)
  {
    hide R, MessagePoly, Eval;
    if messageLen == 0 {
      return Err(EmptyMessage);
    }
    if |codeword| < messageLen {
      return Err(CodewordTooShort);
    }
    var message := codeword[..messageLen];
    var encoder := RsEncoder.New(messageLen, |codeword|);
    var encoded := encoder.value.Encode(message);
    forall p: Vec | |p| == messageLen && Values(p, |codeword|) == codeword ensures p == MessagePoly(message) {
      assert Values(p, messageLen) == Values(p, |codeword|)[..messageLen];
      MessagePolyUnique(message, p);
    }
    r := Ok(encoded.value == codeword);
  }
}
