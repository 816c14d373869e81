/** The claims that tie committed bits and split inputs to their values (ecdsa.rs): the eq point whose weights are
    proportional to the powers of two, and claims on the two halves of a split input. */
module Recomposition {
  import opened Wrappers
  import opened Modulus
  import opened Integers
  import opened Field
  import opened Vectors
  import opened Bits
  import opened Multilinear
  import opened LigeroWeights

  const GF128_BITS: nat := 128
  const X_BITS_START: nat := 1
  const GROUP_A_INPUT_LOG_SIZE: nat := 13
  const GROUP_B_INPUT_LOG_SIZE: nat := 13
  const INPUT_LOG_SIZE: nat := 14

  /** Bits against the powers of two. */
  function Weighted(bits: Vec, n: nat): Fp
    requires n <= |bits|
  {
    if n == 0 then 0 else Add(Weighted(bits, n - 1), Mul(R(Pow2(n - 1)), bits[n - 1]))
  }

  lemma DoublePower(n: nat)
    ensures Add(R(Pow2(n)), R(Pow2(n))) == R(Pow2(n + 1))
  {
    hide R;
    RAdd(Pow2(n), Pow2(n));
  }

  /** None where a bit is missing. */
  method RecomposedValue(values: Vec, offset: nat) returns (r: Option<Fp>)
    ensures offset + X_BITS_START + GF128_BITS > |values| ==> r == None
    ensures offset + X_BITS_START + GF128_BITS <= |values| ==>
              r == Some(Weighted(values[offset + X_BITS_START..offset + X_BITS_START + GF128_BITS], GF128_BITS))
  {
    hide R, Pow2;
    var out: Fp := 0;
    var power: Fp := 1;
    var from := offset + X_BITS_START;
    assert power == R(Pow2(0)) by { PowerZero(); }
    for bit := 0 to GF128_BITS
      invariant from + bit <= |values| || bit == 0
      invariant power == R(Pow2(bit))
      invariant from + GF128_BITS <= |values| ==> out == Weighted(values[from..from + GF128_BITS], bit)
    {
      if from + bit >= |values| {
        return None;
      }
      out := Add(out, Mul(power, values[from + bit]));
      DoublePower(bit);
      power := Add(power, power);
    }
    r := Some(out);
  }

  lemma PowerZero()
    ensures R(Pow2(0)) == 1
  {
    Canonical(1);
  }

  lemma PowerEight()
    ensures Pow2(8) == 256
  {
  }

  lemma PowerSixtyFour()
    ensures Pow2(64) == U64_MAX + 1
  {
    PowerEight();
    hide Pow2;
    Pow2Add(8, 8);
    Pow2Add(16, 16);
    Pow2Add(32, 32);
  }

  /** The modulus is 3 modulo 4, so 2^64 + 1 is still below it. */
  lemma FitsBelowModulus(e: nat)
    requires e <= 64
    ensures 0 < 1 + Pow2(e) < P
  {
    ModulusFacts();
    Pow2Mono(e, 64);
    PowerSixtyFour();
    hide Pow2;
  }

  /** No 1 + 2^e with e at most 64 is a multiple of the modulus. */
  lemma DenominatorNonzero(e: nat)
    requires e <= 64
    ensures Add(1, R(Pow2(e))) != 0
  {
    hide R, Pow2;
    FitsBelowModulus(e);
    Canonical(1);
    RAdd(1, Pow2(e));
    NonzeroBelow(1 + Pow2(e));
  }

  lemma NonzeroBelow(n: int)
    requires 0 < n < P
    ensures R(n) != 0
  {
    ReduceLaw(n);
    assert n == 0 * P + n;
    ModUnique(P, n, 0, n);
  }

  lemma OneMinusShare(r: Fp, d: Fp)
    ensures Sub(1, Mul(r, d))
       == Add(Sub(Mul(Add(1, r), d), Mul(r, d)), Sub(1, Mul(Add(1, r), d)))
  {
    Same(ZSub(1, ZMul(r, d)),
         ZAdd(ZSub(ZMul(ZAdd(1, r), d), ZMul(r, d)), ZSub(1, ZMul(ZAdd(1, r), d))));
    hide *;
    Ring(r, d);
  }

  lemma KeepShare(r: Fp, d: Fp)
    ensures Sub(Mul(Add(1, r), d), Mul(r, d))
       == d
  {
    Same(ZSub(ZMul(ZAdd(1, r), d), ZMul(r, d)),
         d);
    hide *;
    Ring(r, d);
  }

  lemma MoveRatio(s: Fp, w: Fp, r: Fp, d: Fp)
    ensures Mul(Mul(s, w), Mul(r, d))
       == Mul(Mul(s, d), Mul(w, r))
  {
    Same(ZMul(ZMul(s, w), ZMul(r, d)),
         ZMul(ZMul(s, d), ZMul(w, r)));
    hide *;
    Ring(s, w, r, d);
  }

  /** The eq weights at the point are scale times the powers of two. */
  ghost predicate PowerWeights(point: Vec, scale: Fp)
  {
    forall i: nat :: i < Pow2(|point|) ==> PrefixEq(i, point) == Mul(scale, R(Pow2(i)))
  }

  lemma OneMoreVariable(point: Vec, scale: Fp, ratio: Fp, d: Fp)
    requires PowerWeights(point, scale) && ratio == R(Pow2(Pow2(|point|))) && Mul(Add(1, ratio), d) == 1
    ensures PowerWeights(point + [Mul(ratio, d)], Mul(scale, d))
  {
    hide R, PrefixEq;
    var k, c := |point|, Mul(ratio, d);
    assert Sub(1, c) == d by {
      OneMinusShare(ratio, d);
      KeepShare(ratio, d);
      Units(1);
      Units(d);
    }
    forall i: nat | i < Pow2(k + 1) ensures PrefixEq(i, point + [c]) == Mul(Mul(scale, d), R(Pow2(i))) {
      if i < Pow2(k) {
        PrefixEqDouble(i, point, c);
        MulSwapLast(scale, R(Pow2(i)), d);
      } else {
        var j := i - Pow2(k);
        PrefixEqDouble(j, point, c);
        MoveRatio(scale, R(Pow2(j)), ratio, d);
        RMul(Pow2(j), Pow2(Pow2(k)));
        Pow2Add(j, Pow2(k));
      }
    }
  }

  method RecomposeClaimPoint() returns (point: Vec, scale: Fp)
    ensures |point| == 7 && PowerWeights(point, scale) && scale != 0
  {
    hide R, Inv, PowerWeights;
    point := [];
    scale := 1;
    assert PowerWeights([], 1) by { NoVariables(); }
    for bit := 0 to 7
      invariant |point| == bit && PowerWeights(point, scale) && scale != 0
    {
      var ratio: Fp := 1;
      PowerZero();
      for n := 0 to Pow2(bit)
        invariant ratio == R(Pow2(n))
      {
        DoublePower(n);
        ratio := Add(ratio, ratio);
      }
      Pow2Mono(bit, 6);
      assert Pow2(6) == 64;
      DenominatorNonzero(Pow2(bit));
      var denomInv := Inv(Add(1, ratio));
      InvMul(Add(1, ratio));
      OneMoreVariable(point, scale, ratio, denomInv);
      point := point + [Mul(ratio, denomInv)];
      if Mul(scale, denomInv) == 0 {
        NoZeroDivisors(scale, denomInv);
        assert false;
      }
      scale := Mul(scale, denomInv);
    }
  }

  lemma NoVariables()
    ensures PowerWeights([], 1)
  {
    hide R;
    PowerZero();
    forall i: nat | i < Pow2(0) ensures PrefixEq(i, []) == Mul(1, R(Pow2(i))) {
      Units(1);
    }
  }

  lemma PullScale(s: Fp, t: Fp, p: Fp, b: Fp)
    ensures Add(Mul(s, t), Mul(b, Mul(s, p)))
       == Mul(s, Add(t, Mul(p, b)))
  {
    Same(ZAdd(ZMul(s, t), ZMul(b, ZMul(s, p))),
         ZMul(s, ZAdd(t, ZMul(p, b))));
    hide *;
    Ring(s, t, p, b);
  }

  lemma {:induction false} ScaledWeights(bits: Vec, point: Vec, scale: Fp, n: nat)
    requires PowerWeights(point, scale) && n <= |bits| == Pow2(|point|)
    ensures Dot(bits[..n], EqVec(point)[..n]) == Mul(scale, Weighted(bits, n))
  {
    hide R, PrefixEq, Pow2;
    if n == 0 {
      Units(scale);
    } else {
      ScaledWeights(bits, point, scale, n - 1);
      assert bits[..n][..n - 1] == bits[..n - 1] && EqVec(point)[..n][..n - 1] == EqVec(point)[..n - 1];
      assert PrefixEq(n - 1, point) == Mul(scale, R(Pow2(n - 1)));
      PullScale(scale, Weighted(bits, n - 1), R(Pow2(n - 1)), bits[n - 1]);
    }
  }

  /** A linear claim at that point opens the recomposed number, up to the public scale. */
  lemma RecomposeOpens(bits: Vec, point: Vec, scale: Fp)
    requires PowerWeights(point, scale) && |bits| == Pow2(|point|)
    ensures EvalAt(bits, point) == Mul(scale, Weighted(bits, |bits|))
  {
    hide R, PrefixEq, EvalAt, PowerWeights, Weighted;
    EvalIsWeightedSum(bits, point);
    ScaledWeights(bits, point, scale, |bits|);
    assert bits[..|bits|] == bits && EqVec(point)[..|bits|] == EqVec(point);
  }

  /** The scaled claim determines the number: it holds of a vector of bits for one value only. */
  lemma ScaledClaimDetermines(bits: Vec, point: Vec, scale: Fp, value: Fp)
    requires PowerWeights(point, scale) && scale != 0 && |bits| == Pow2(|point|)
    ensures Mul(value, scale) == EvalAt(bits, point) <==> value == Weighted(bits, |bits|)
  {
    hide R, PrefixEq, EvalAt, PowerWeights, Weighted;
    RecomposeOpens(bits, point, scale);
    MulComm(value, scale);
    if Mul(scale, value) == Mul(scale, Weighted(bits, |bits|)) {
      CancelMul(value, Weighted(bits, |bits|), scale);
    }
  }

  /** The claim that opens `value` at the x bits of a half, up to the scale of its point. */
  ghost predicate IsRecomposeClaim(c: LinearClaim, start: nat, value: Fp)
  {
    && c.offset == start && c.len == GF128_BITS && Pow2(|c.point|) == GF128_BITS
    && exists scale :: PowerWeights(c.point, scale) && scale != 0 && c.value == Mul(value, scale)
  }

  /** Such a claim is true of the bits exactly if the value is the number they stand for. */
  lemma RecomposeClaimDetermines(c: LinearClaim, start: nat, value: Fp, bits: Vec)
    requires IsRecomposeClaim(c, start, value) && |bits| == GF128_BITS
    ensures c.value == EvalAt(bits, c.point) <==> value == Weighted(bits, GF128_BITS)
  {
    hide EvalAt, PowerWeights, Weighted;
    var scale :| PowerWeights(c.point, scale) && scale != 0 && c.value == Mul(value, scale);
    ScaledClaimDetermines(bits, c.point, scale, value);
  }

  method RecomposeClaim(start: nat, value: Fp) returns (c: LinearClaim)
    ensures IsRecomposeClaim(c, start, value)
  {
    hide PowerWeights;
    var point, scale := RecomposeClaimPoint();
    assert Pow2(7) == 128;
    c := LinearClaim(start, GF128_BITS, point, Mul(value, scale));
  }

  /** The prover's claim on the x bits of one half, and the value it carries into the consistency list. */
  method AddRecomposeClaim(claims: seq<LinearClaim>, consistency: Vec, inputOffset: nat, values: Vec, halfOffset: nat)
    returns (r: Option<Fp>, outClaims: seq<LinearClaim>, outConsistency: Vec)
    ensures halfOffset + X_BITS_START + GF128_BITS > |values| ==> r == None && outClaims == claims && outConsistency == consistency
    ensures halfOffset + X_BITS_START + GF128_BITS <= |values| ==>
              var bits := values[halfOffset + X_BITS_START..halfOffset + X_BITS_START + GF128_BITS];
              && r == Some(Weighted(bits, GF128_BITS)) && outConsistency == consistency + [r.value]
              && |outClaims| == |claims| + 1 && outClaims[..|claims|] == claims
              && var c := outClaims[|claims|];
                 IsRecomposeClaim(c, inputOffset + halfOffset + X_BITS_START, r.value) && c.value == EvalAt(bits, c.point)
  {
    hide Weighted, EvalAt, IsRecomposeClaim;
    outClaims, outConsistency := claims, consistency;
    r := RecomposedValue(values, halfOffset);
    if r.None? {
      return;
    }
    var c := RecomposeClaim(inputOffset + halfOffset + X_BITS_START, r.value);
    ghost var bits := values[halfOffset + X_BITS_START..halfOffset + X_BITS_START + GF128_BITS];
    RecomposeClaimDetermines(c, inputOffset + halfOffset + X_BITS_START, r.value, bits);
    outClaims, outConsistency := claims + [c], consistency + [r.value];
  }

  /** The verifier's claim: the value comes from the proof, the point and the scale are its own. */
  method TakeRecomposeClaim(claims: seq<LinearClaim>, consistency: Vec, cursor: nat, inputOffset: nat, halfOffset: nat)
    returns (r: Option<Fp>, outClaims: seq<LinearClaim>)
    ensures r == if cursor < |consistency| then Some(consistency[cursor]) else None
    ensures r.None? ==> outClaims == claims
    ensures r.Some? ==>
              && |outClaims| == |claims| + 1 && outClaims[..|claims|] == claims
              && IsRecomposeClaim(outClaims[|claims|], inputOffset + halfOffset + X_BITS_START, r.value)
  {
    hide IsRecomposeClaim;
    if cursor >= |consistency| {
      return None, claims;
    }
    var c := RecomposeClaim(inputOffset + halfOffset + X_BITS_START, consistency[cursor]);
    return Some(consistency[cursor]), claims + [c];
  }

  // ----- split inputs -----

  lemma SplitWeights(point: Vec, t: Fp)
    ensures |EqVec(point + [t])| == 2 * Pow2(|point|)
    ensures EqVec(point + [t]) == Scale(Sub(1, t), EqVec(point)) + Scale(t, EqVec(point))
  {
    hide PrefixEq, Pow2;
    Pow2Next(|point|);
    var n := Pow2(|point|);
    var e, w := EqVec(point + [t]), EqVec(point);
    assert |e| == 2 * n;
    var low, high := Scale(Sub(1, t), w), Scale(t, w);
    forall i | 0 <= i < n ensures e[i] == low[i] && e[n + i] == high[i] {
      PrefixEqDouble(i, point, t);
      MulComm(w[i], Sub(1, t));
      MulComm(w[i], t);
    }
    hide *;
    assert e[..n] == low;
    assert e[n..] == high;
    assert e == e[..n] + e[n..];
  }

  /** The extension of two halves is the interpolation of their extensions. */
  lemma SplitEval(a: Vec, b: Vec, point: Vec, t: Fp)
    requires |a| == |b| == Pow2(|point|)
    ensures |a + b| == Pow2(|point + [t]|)
    ensures EvalAt(a + b, point + [t]) == Add(Mul(Sub(1, t), EvalAt(a, point)), Mul(t, EvalAt(b, point)))
  {
    Pow2Next(|point|);
    hide EvalAt, PrefixEq, Pow2, EqVec, Dot, Scale;
    EvalIsWeightedSum(a + b, point + [t]);
    EvalIsWeightedSum(a, point);
    EvalIsWeightedSum(b, point);
    var w := EqVec(point);
    SplitWeights(point, t);
    DotConcat(a, Scale(Sub(1, t), w), b, Scale(t, w));
    DotComm(a, Scale(Sub(1, t), w));
    DotComm(b, Scale(t, w));
    DotScale(Sub(1, t), w, a);
    DotScale(t, w, b);
    DotComm(a, w);
    DotComm(b, w);
  }

  /** A claim at 14 coordinates is true of the two halves, each padded with zeros to 2^13 entries. */
  ghost predicate SplitTrue(valuesA: Vec, valuesB: Vec, point: Vec, value: Fp)
  {
    && |point| == INPUT_LOG_SIZE
    && Mle.New(valuesA).numVars == Mle.New(valuesB).numVars == GROUP_A_INPUT_LOG_SIZE
    && |Mle.New(valuesA).values + Mle.New(valuesB).values| == Pow2(|point|)
    && value == EvalAt(Mle.New(valuesA).values + Mle.New(valuesB).values, point)
  }

  /** The check both sides make: the half values interpolate to the claimed one. */
  predicate Interpolates(point: Vec, valueA: Fp, valueB: Fp, value: Fp)
  {
    && |point| == INPUT_LOG_SIZE
    && var split := point[GROUP_A_INPUT_LOG_SIZE]; Add(Mul(Sub(1, split), valueA), Mul(split, valueB)) == value
  }

  function SubPoint(point: Vec): (s: Vec)
    requires |point| == INPUT_LOG_SIZE
    ensures |s| == GROUP_A_INPUT_LOG_SIZE
  {
    point[..GROUP_A_INPUT_LOG_SIZE]
  }

  function HalfClaims(offsetA: nat, lenA: nat, offsetB: nat, lenB: nat, point: Vec, valueA: Fp, valueB: Fp): seq<LinearClaim>
    requires |point| == INPUT_LOG_SIZE
  {
    [LinearClaim(offsetA, lenA, SubPoint(point), valueA), LinearClaim(offsetB, lenB, SubPoint(point), valueB)]
  }

  /** For true half values the check passes exactly for true claims. */
  lemma InterpolatesIffTrue(valuesA: Vec, valuesB: Vec, point: Vec, value: Fp)
    requires |point| == INPUT_LOG_SIZE
    requires Mle.New(valuesA).numVars == Mle.New(valuesB).numVars == GROUP_A_INPUT_LOG_SIZE
    ensures |Mle.New(valuesA).values| == |Mle.New(valuesB).values| == Pow2(GROUP_A_INPUT_LOG_SIZE)
    ensures Interpolates(point, EvalAt(Mle.New(valuesA).values, SubPoint(point)), EvalAt(Mle.New(valuesB).values, SubPoint(point)), value)
       <==> SplitTrue(valuesA, valuesB, point, value)
  {
    hide EvalAt, Pow2, Mle.New;
    var a, b := Mle.New(valuesA), Mle.New(valuesB);
    assert point == SubPoint(point) + [point[GROUP_A_INPUT_LOG_SIZE]];
    SplitEval(a.values, b.values, SubPoint(point), point[GROUP_A_INPUT_LOG_SIZE]);
  }

  /** One claim on the prover's side: the half values, or none where the claim is refused. */
  method SplitInputClaim(valuesA: Vec, valuesB: Vec, point: Vec, value: Fp) returns (r: Option<(Fp, Fp)>)
    ensures r.Some? <==> SplitTrue(valuesA, valuesB, point, value)
    ensures r.Some? ==>
              && |Mle.New(valuesA).values| == |Mle.New(valuesB).values| == Pow2(GROUP_A_INPUT_LOG_SIZE)
              && r.value.0 == EvalAt(Mle.New(valuesA).values, SubPoint(point))
              && r.value.1 == EvalAt(Mle.New(valuesB).values, SubPoint(point))
  {
    hide EvalAt, Pow2, Mle.New, SplitTrue;
    var mleA, mleB := Mle.New(valuesA), Mle.New(valuesB);
    if |point| != INPUT_LOG_SIZE {
      NeverTrue(valuesA, valuesB, point, value);
      return None;
    }
    var subpoint := SubPoint(point);
    var valueA := mleA.Eval(subpoint);
    var valueB := mleB.Eval(subpoint);
    if valueA.Err? || valueB.Err? {
      NeverTrue(valuesA, valuesB, point, value);
      return None;
    }
    EvalIsWeightedSum(mleA.values, subpoint);
    EvalIsWeightedSum(mleB.values, subpoint);
    InterpolatesIffTrue(valuesA, valuesB, point, value);
    if !Interpolates(point, valueA.value, valueB.value, value) {
      return None;
    }
    r := Some((valueA.value, valueB.value));
  }

  lemma NeverTrue(valuesA: Vec, valuesB: Vec, point: Vec, value: Fp)
    requires |point| != INPUT_LOG_SIZE || Mle.New(valuesA).numVars != GROUP_A_INPUT_LOG_SIZE || Mle.New(valuesB).numVars != GROUP_A_INPUT_LOG_SIZE
    ensures !SplitTrue(valuesA, valuesB, point, value)
  {
  }

  // ----- all split claims of a proof, on both sides -----

  ghost predicate AllSplitTrue(valuesA: Vec, valuesB: Vec, points: seq<Vec>, values: Vec, n: nat)
    requires n <= |points| == |values|
  {
    forall k :: 0 <= k < n ==> SplitTrue(valuesA, valuesB, points[k], values[k])
  }

  /** The half values the prover sends: two for every claim. */
  ghost function SentValues(valuesA: Vec, valuesB: Vec, points: seq<Vec>, values: Vec, n: nat): (v: Vec)
    requires n <= |points| == |values| && AllSplitTrue(valuesA, valuesB, points, values, n)
    ensures |v| == 2 * n
  {
    if n == 0 then []
    else
      InterpolatesIffTrue(valuesA, valuesB, points[n - 1], values[n - 1]);
      SentValues(valuesA, valuesB, points, values, n - 1)
      + [EvalAt(Mle.New(valuesA).values, SubPoint(points[n - 1])), EvalAt(Mle.New(valuesB).values, SubPoint(points[n - 1]))]
  }

  /** The linear claims that go with sent half values. */
  ghost function SplitClaims(offsetA: nat, lenA: nat, offsetB: nat, lenB: nat, points: seq<Vec>, sent: Vec, n: nat): (c: seq<LinearClaim>)
    requires n <= |points| && 2 * n <= |sent| && forall k :: 0 <= k < n ==> |points[k]| == INPUT_LOG_SIZE
    ensures |c| == 2 * n
  {
    if n == 0 then []
    else
      SplitClaims(offsetA, lenA, offsetB, lenB, points, sent, n - 1)
      + HalfClaims(offsetA, lenA, offsetB, lenB, points[n - 1], sent[2 * n - 2], sent[2 * n - 1])
  }

  lemma {:induction false} SplitClaimsPrefix(
    offsetA: nat, lenA: nat, offsetB: nat, lenB: nat, points: seq<Vec>, sent: Vec, more: Vec, n: nat)
    requires n <= |points| && 2 * n <= |sent| && forall k :: 0 <= k < n ==> |points[k]| == INPUT_LOG_SIZE
    ensures SplitClaims(offsetA, lenA, offsetB, lenB, points, sent + more, n) == SplitClaims(offsetA, lenA, offsetB, lenB, points, sent, n)
  {
    if n > 0 { SplitClaimsPrefix(offsetA, lenA, offsetB, lenB, points, sent, more, n - 1); }
  }

  lemma SplitClaimsNext(
    offsetA: nat, lenA: nat, offsetB: nat, lenB: nat, points: seq<Vec>, sent: Vec, pair: Vec, n: nat)
    requires n < |points| && |sent| == 2 * n && |pair| == 2 && forall k :: 0 <= k <= n ==> |points[k]| == INPUT_LOG_SIZE
    ensures SplitClaims(offsetA, lenA, offsetB, lenB, points, sent + pair, n + 1)
         == SplitClaims(offsetA, lenA, offsetB, lenB, points, sent, n) + HalfClaims(offsetA, lenA, offsetB, lenB, points[n], pair[0], pair[1])
  {
    SplitClaimsPrefix(offsetA, lenA, offsetB, lenB, points, sent, pair, n);
  }

  lemma SentNext(valuesA: Vec, valuesB: Vec, points: seq<Vec>, values: Vec, n: nat, halves: (Fp, Fp))
    requires n < |points| == |values| && AllSplitTrue(valuesA, valuesB, points, values, n)
    requires SplitTrue(valuesA, valuesB, points[n], values[n])
    requires |Mle.New(valuesA).values| == |Mle.New(valuesB).values| == Pow2(GROUP_A_INPUT_LOG_SIZE)
    requires |points[n]| == INPUT_LOG_SIZE
    requires halves == (EvalAt(Mle.New(valuesA).values, SubPoint(points[n])), EvalAt(Mle.New(valuesB).values, SubPoint(points[n])))
    ensures AllSplitTrue(valuesA, valuesB, points, values, n + 1)
    ensures SentValues(valuesA, valuesB, points, values, n + 1)
         == SentValues(valuesA, valuesB, points, values, n) + [halves.0, halves.1]
  {
    hide SplitTrue, EvalAt, Mle.New;
  }

  lemma NothingSent(
    valuesA: Vec, valuesB: Vec, points: seq<Vec>, values: Vec, offsetA: nat, lenA: nat, offsetB: nat)
    requires |points| == |values|
    ensures SentValues(valuesA, valuesB, points, values, 0) == []
    ensures SplitClaims(offsetA, lenA, offsetB, |valuesB|, points, [], 0) == []
  {
  }

  /** `add_mac_split_input_claims`: none where one of the claims is refused. */
  method AddSplitInputClaims(
    claims: seq<LinearClaim>, consistency: Vec, offsetA: nat, lenA: nat, offsetB: nat, valuesA: Vec, valuesB: Vec,
    points: seq<Vec>, values: Vec) returns (r: Option<(seq<LinearClaim>, Vec)>)
    requires |points| == |values|
    ensures r.Some? <==> AllSplitTrue(valuesA, valuesB, points, values, |points|)
    ensures r.Some? ==>
              var sent := SentValues(valuesA, valuesB, points, values, |points|);
              && r.value.1 == consistency + sent
              && r.value.0 == claims + SplitClaims(offsetA, lenA, offsetB, |valuesB|, points, sent, |points|)
  {
    hide SplitTrue, EvalAt, Mle.New, SentValues, SplitClaims, HalfClaims;
    NothingSent(valuesA, valuesB, points, values, offsetA, lenA, offsetB);
    var outClaims, outValues := claims, consistency;
    ghost var sent: Vec := [];
    for n := 0 to |points|
      invariant AllSplitTrue(valuesA, valuesB, points, values, n)
      invariant forall k :: 0 <= k < n ==> |points[k]| == INPUT_LOG_SIZE
      invariant sent == SentValues(valuesA, valuesB, points, values, n) && outValues == consistency + sent
      invariant outClaims == claims + SplitClaims(offsetA, lenA, offsetB, |valuesB|, points, sent, n)
    {
      var halves := SplitInputClaim(valuesA, valuesB, points[n], values[n]);
      if halves.None? {
        return None;
      }
      TrueShape(valuesA, valuesB, points[n], values[n]);
      var pair := [halves.value.0, halves.value.1];
      SentNext(valuesA, valuesB, points, values, n, halves.value);
      SplitClaimsNext(offsetA, lenA, offsetB, |valuesB|, points, sent, pair, n);
      sent := sent + pair;
      outValues := outValues + pair;
      outClaims := outClaims + HalfClaims(offsetA, lenA, offsetB, |valuesB|, points[n], halves.value.0, halves.value.1);
    }
    return Some((outClaims, outValues));
  }

  lemma TrueShape(valuesA: Vec, valuesB: Vec, point: Vec, value: Fp)
    requires SplitTrue(valuesA, valuesB, point, value)
    ensures |point| == INPUT_LOG_SIZE
    ensures Mle.New(valuesA).numVars == Mle.New(valuesB).numVars == GROUP_A_INPUT_LOG_SIZE
  {
  }

  /** What the verifier asks of the sent values from the cursor on. */
  predicate AllInterpolate(points: seq<Vec>, values: Vec, sent: Vec, cursor: nat, n: nat)
    requires n <= |points| == |values|
  {
    && cursor + 2 * n <= |sent|
    && forall k :: 0 <= k < n ==> Interpolates(points[k], sent[cursor + 2 * k], sent[cursor + 2 * k + 1], values[k])
  }

  /** `take_mac_split_input_claims`: none where values are missing or do not interpolate. */
  method TakeSplitInputClaims(
    claims: seq<LinearClaim>, sent: Vec, cursor: nat, offsetA: nat, lenA: nat, offsetB: nat, points: seq<Vec>, values: Vec)
    returns (r: Option<(seq<LinearClaim>, nat)>)
    requires |points| == |values| && cursor <= |sent|
    ensures r.Some? <==> AllInterpolate(points, values, sent, cursor, |points|)
    ensures r.Some? ==>
              && r.value.1 == cursor + 2 * |points|
              && r.value.0 == claims + SplitClaims(offsetA, lenA, offsetB, Pow2(GROUP_B_INPUT_LOG_SIZE), points, sent[cursor..], |points|)
  {
    hide HalfClaims, SubPoint, Pow2;
    var out, at := claims, cursor;
    for n := 0 to |points|
      invariant at == cursor + 2 * n <= |sent|
      invariant AllInterpolate(points, values, sent, cursor, n)
      invariant out == claims + SplitClaims(offsetA, lenA, offsetB, Pow2(GROUP_B_INPUT_LOG_SIZE), points, sent[cursor..], n)
    {
      if |points[n]| != INPUT_LOG_SIZE || at + 1 >= |sent| {
        return None;
      }
      var valueA, valueB := sent[at], sent[at + 1];
      at := at + 2;
      if !Interpolates(points[n], valueA, valueB, values[n]) {
        assert !Interpolates(points[n], sent[cursor + 2 * n], sent[cursor + 2 * n + 1], values[n]);
        return None;
      }
      assert sent[cursor..][2 * n] == valueA && sent[cursor..][2 * n + 1] == valueB;
      out := out + HalfClaims(offsetA, lenA, offsetB, Pow2(GROUP_B_INPUT_LOG_SIZE), points[n], valueA, valueB);
    }
    r := Some((out, at));
  }

  /** Accepted values that are true of the two halves make the split claims true. */
  lemma TakenClaimsSound(valuesA: Vec, valuesB: Vec, points: seq<Vec>, values: Vec, sent: Vec, cursor: nat, n: nat)
    requires Mle.New(valuesA).numVars == Mle.New(valuesB).numVars == GROUP_A_INPUT_LOG_SIZE
    requires |Mle.New(valuesA).values| == |Mle.New(valuesB).values| == Pow2(GROUP_A_INPUT_LOG_SIZE)
    requires n <= |points| == |values| && AllInterpolate(points, values, sent, cursor, n)
    requires forall k :: 0 <= k < n ==>
               && sent[cursor + 2 * k] == EvalAt(Mle.New(valuesA).values, SubPoint(points[k]))
               && sent[cursor + 2 * k + 1] == EvalAt(Mle.New(valuesB).values, SubPoint(points[k]))
    ensures AllSplitTrue(valuesA, valuesB, points, values, n)
  {
    hide EvalAt, Pow2, Mle.New, SplitTrue;
    forall k | 0 <= k < n ensures SplitTrue(valuesA, valuesB, points[k], values[k]) {
      assert Interpolates(points[k], sent[cursor + 2 * k], sent[cursor + 2 * k + 1], values[k]);
      InterpolatesIffTrue(valuesA, valuesB, points[k], values[k]);
    }
  }

  lemma {:induction false} SentValuesAt(valuesA: Vec, valuesB: Vec, points: seq<Vec>, values: Vec, n: nat, k: nat)
    requires k < n <= |points| == |values| && AllSplitTrue(valuesA, valuesB, points, values, n)
    ensures |points[k]| == INPUT_LOG_SIZE
    ensures |Mle.New(valuesA).values| == |Mle.New(valuesB).values| == Pow2(GROUP_A_INPUT_LOG_SIZE)
    ensures var sent := SentValues(valuesA, valuesB, points, values, n);
            && sent[2 * k] == EvalAt(Mle.New(valuesA).values, SubPoint(points[k]))
            && sent[2 * k + 1] == EvalAt(Mle.New(valuesB).values, SubPoint(points[k]))
  {
    hide EvalAt, Pow2, Mle.New;
    if k < n - 1 {
      SentValuesAt(valuesA, valuesB, points, values, n - 1, k);
    } else {
      InterpolatesIffTrue(valuesA, valuesB, points[k], values[k]);
    }
  }

  /** The verifier accepts what the prover sends, wherever in the list it stands. */
  lemma SentValuesAccepted(valuesA: Vec, valuesB: Vec, points: seq<Vec>, values: Vec, before: Vec, after: Vec)
    requires |points| == |values| && AllSplitTrue(valuesA, valuesB, points, values, |points|)
    ensures AllInterpolate(points, values, before + SentValues(valuesA, valuesB, points, values, |points|) + after, |before|, |points|)
  {
    hide EvalAt, Pow2, Mle.New, SentValues, Interpolates, SplitTrue;
    var n := |points|;
    var sent := SentValues(valuesA, valuesB, points, values, n);
    var all := before + sent + after;
    forall k | 0 <= k < n ensures Interpolates(points[k], all[|before| + 2 * k], all[|before| + 2 * k + 1], values[k]) {
      SentValuesAt(valuesA, valuesB, points, values, n, k);
      assert all[|before| + 2 * k] == sent[2 * k] && all[|before| + 2 * k + 1] == sent[2 * k + 1];
      assert SplitTrue(valuesA, valuesB, points[k], values[k]);
      TrueShape(valuesA, valuesB, points[k], values[k]);
      InterpolatesIffTrue(valuesA, valuesB, points[k], values[k]);
    }
  }
}
