/** What opened claims say about a committed vector (ecdsa.rs): the split claims of two inputs hold exactly for the true
    values of the committed cells, and a recompose claim on a committed half exactly for the number x of that half. */
module OpenedInputs {
  import opened Field
  import opened Vectors
  import opened Bits
  import opened Multilinear
  import opened LigeroWeights
  import opened LigeroVerifier
  import opened Recomposition
  import Gf128
  import MacTheorems
  import MacHalves

  /** Committed cells, zero beyond the end of the vector. */
  function Cells(w: Vec, start: nat, len: nat): (v: Vec)
    ensures |v| == len
  {
    ClaimedCells(w, LinearClaim(start, len, [], 0))
  }

  lemma TrueConcat(w: Vec, a: seq<LinearClaim>, b: seq<LinearClaim>)
    ensures TrueClaims(w, a + b) <==> TrueClaims(w, a) && TrueClaims(w, b)
  {
    hide TrueValue, Pow2;
    var s := a + b;
    forall k | 0 <= k < |b| ensures b[k] == s[|a| + k] {}
    forall k | 0 <= k < |a| ensures a[k] == s[k] {}
  }

  lemma OneClaim(w: Vec, c: LinearClaim)
    requires c.len <= Pow2(|c.point|)
    ensures TrueClaims(w, [c]) <==> c.value == TrueValue(w, c)
  {
    hide TrueValue, Pow2;
    assert [c][0] == c;
  }

  // ----- the claims on two inputs -----

  ghost predicate IsInput(values: Vec) { Mle.New(values).numVars == GROUP_A_INPUT_LOG_SIZE }

  ghost function Opened(values: Vec, point: Vec): Fp
    requires IsInput(values) && |point| == INPUT_LOG_SIZE
  {
    EvalAt(Mle.New(values).values, SubPoint(point))
  }

  /** A claim on one input is true exactly for the extension of its cells at the point. */
  lemma HalfClaimTrueIff(w: Vec, offset: nat, len: nat, point: Vec, value: Fp)
    requires IsInput(Cells(w, offset, len)) && |point| == INPUT_LOG_SIZE
    ensures TrueClaims(w, [LinearClaim(offset, len, SubPoint(point), value)]) <==> value == Opened(Cells(w, offset, len), point)
  {
    hide Pow2, EvalAt, Mle.New, TrueClaims;
    var cells, c, m := Cells(w, offset, len), LinearClaim(offset, len, SubPoint(point), value), Mle.New(Cells(w, offset, len));
    assert ClaimedCells(w, c) == cells;
    assert m.values == cells + Zeros(Pow2(|c.point|) - len);
    OneClaim(w, c);
  }

  /** The claims that go with sent half values are true exactly where the values are. */
  lemma {:induction false} SplitClaimsTrueIff(
    w: Vec, offsetA: nat, lenA: nat, offsetB: nat, lenB: nat, points: seq<Vec>, sent: Vec, n: nat)
    requires IsInput(Cells(w, offsetA, lenA)) && IsInput(Cells(w, offsetB, lenB))
    requires n <= |points| && 2 * n <= |sent| && forall k :: 0 <= k < n ==> |points[k]| == INPUT_LOG_SIZE
    ensures TrueClaims(w, SplitClaims(offsetA, lenA, offsetB, lenB, points, sent, n)) <==>
              forall k :: 0 <= k < n ==>
                && sent[2 * k] == Opened(Cells(w, offsetA, lenA), points[k])
                && sent[2 * k + 1] == Opened(Cells(w, offsetB, lenB), points[k])
  {
    hide TrueClaims, Cells, IsInput, Opened;
    if n == 0 {
      NoClaims(w);
    } else {
      var k := n - 1;
      SplitClaimsTrueIff(w, offsetA, lenA, offsetB, lenB, points, sent, k);
      var a := LinearClaim(offsetA, lenA, SubPoint(points[k]), sent[2 * k]);
      var b := LinearClaim(offsetB, lenB, SubPoint(points[k]), sent[2 * k + 1]);
      HalfClaimTrueIff(w, offsetA, lenA, points[k], sent[2 * k]);
      HalfClaimTrueIff(w, offsetB, lenB, points[k], sent[2 * k + 1]);
      TrueConcat(w, [a], [b]);
      assert [a] + [b] == HalfClaims(offsetA, lenA, offsetB, lenB, points[k], sent[2 * k], sent[2 * k + 1]);
      TrueConcat(w, SplitClaims(offsetA, lenA, offsetB, lenB, points, sent, k), [a] + [b]);
    }
  }

  lemma NoClaims(w: Vec)
    ensures TrueClaims(w, [])
  {
  }

  /** The prover: on a commitment that holds both inputs, the claims it adds for true input claims are true. */
  lemma AddedClaimsTrue(w: Vec, offsetA: nat, valuesA: Vec, offsetB: nat, valuesB: Vec, points: seq<Vec>, values: Vec)
    requires |points| == |values| && AllSplitTrue(valuesA, valuesB, points, values, |points|)
    requires Cells(w, offsetA, |valuesA|) == valuesA && Cells(w, offsetB, |valuesB|) == valuesB
    ensures forall k :: 0 <= k < |points| ==> |points[k]| == INPUT_LOG_SIZE
    ensures TrueClaims(w, SplitClaims(offsetA, |valuesA|, offsetB, |valuesB|, points,
                                      SentValues(valuesA, valuesB, points, values, |points|), |points|))
  {
    hide TrueClaims, Cells, SplitTrue, Mle.New, EvalAt, SentValues, SplitClaims, Pow2;
    var n, sent := |points|, SentValues(valuesA, valuesB, points, values, |points|);
    forall k | 0 <= k < n
      ensures |points[k]| == INPUT_LOG_SIZE && IsInput(valuesA) && IsInput(valuesB)
      ensures sent[2 * k] == Opened(valuesA, points[k]) && sent[2 * k + 1] == Opened(valuesB, points[k])
    {
      TrueShape(valuesA, valuesB, points[k], values[k]);
      SentValuesAt(valuesA, valuesB, points, values, n, k);
    }
    if n == 0 {
      NothingSent(valuesA, valuesB, points, values, offsetA, |valuesA|, offsetB);
      NoClaims(w);
    } else {
      assert IsInput(valuesA) && IsInput(valuesB) by { assert 0 <= 0 < n; TrueShape(valuesA, valuesB, points[0], values[0]); }
      SplitClaimsTrueIff(w, offsetA, |valuesA|, offsetB, |valuesB|, points, sent, n);
    }
  }

  /** The verifier: where the claims it takes are true of a commitment, every input claim is true of the cells read as two
      inputs. */
  lemma TakenClaimsOpened(
    w: Vec, offsetA: nat, lenA: nat, offsetB: nat, lenB: nat, points: seq<Vec>, values: Vec, sent: Vec, cursor: nat)
    requires IsInput(Cells(w, offsetA, lenA)) && IsInput(Cells(w, offsetB, lenB))
    requires |points| == |values| && AllInterpolate(points, values, sent, cursor, |points|)
    requires TrueClaims(w, SplitClaims(offsetA, lenA, offsetB, lenB, points, sent[cursor..], |points|))
    ensures AllSplitTrue(Cells(w, offsetA, lenA), Cells(w, offsetB, lenB), points, values, |points|)
  {
    hide TrueClaims, Cells, Mle.New, EvalAt, Pow2, SplitClaims, SplitTrue;
    var a, b, n, rest := Cells(w, offsetA, lenA), Cells(w, offsetB, lenB), |points|, sent[cursor..];
    SplitClaimsTrueIff(w, offsetA, lenA, offsetB, lenB, points, rest, n);
    forall k | 0 <= k < n
      ensures sent[cursor + 2 * k] == EvalAt(Mle.New(a).values, SubPoint(points[k]))
      ensures sent[cursor + 2 * k + 1] == EvalAt(Mle.New(b).values, SubPoint(points[k]))
    {
      assert rest[2 * k] == Opened(a, points[k]) && rest[2 * k + 1] == Opened(b, points[k]);
    }
    TakenClaimsSound(a, b, points, values, sent, cursor, n);
  }

  // ----- recompose claims -----

  /** A recompose claim is true of a commitment exactly if its value is the number of the 128 cells it names. */
  lemma RecomposeClaimTrueIff(w: Vec, c: LinearClaim, start: nat, value: Fp)
    requires IsRecomposeClaim(c, start, value)
    ensures TrueClaims(w, [c]) <==> value == Weighted(Cells(w, start, 128), 128)
  {
    hide Pow2, EvalAt, PowerWeights, Weighted, TrueClaims;
    OneClaim(w, c);
    assert ClaimedCells(w, c) == Cells(w, start, 128);
    assert ClaimedCells(w, c) + Zeros(0) == ClaimedCells(w, c);
    RecomposeClaimDetermines(c, start, value, Cells(w, start, 128));
  }

  /** On a commitment that holds the first 129 wires of a half's input, it is true exactly if its value is the number x of
      that half. */
  lemma HalfRecomposes(
    w: Vec, at: nat, input: Vec, apBits: Gf128.Bools, xBits: Gf128.Bools, q: seq<Gf128.Bools>, c: LinearClaim, value: Fp)
    requires |apBits| == |xBits| == |q| == 128 && forall b :: 0 <= b < 128 ==> |q[b]| == 9
    requires MacTheorems.InputLayout(input, apBits, xBits, q) && Cells(w, at, 129) == input[..129]
    requires IsRecomposeClaim(c, at + X_BITS_START, value)
    ensures TrueClaims(w, [c]) <==> value == R(Gf128.Value(xBits))
  {
    hide TrueClaims, R, Gf128.Value, Weighted, IsRecomposeClaim;
    RecomposeClaimTrueIff(w, c, at + X_BITS_START, value);
    var bits := Cells(w, at + X_BITS_START, 128);
    forall i | 0 <= i < 128 ensures bits[i] == MacTheorems.BitField(xBits[i]) {
      assert Cells(w, at, 129)[1 + i] == input[..129][1 + i];
    }
    MacHalves.WeightedBits(bits, xBits, 128);
    assert xBits[..128] == xBits;
  }
}
