/** Multilinear extensions (mle.rs) and the equality weights they are sums of (sumcheck.rs, ligero.rs). */
module Multilinear {
  import opened Wrappers
  import opened Field
  import opened Vectors
  import opened Bits

  /** Bind the lowest variable: adjacent entries are interpolated (`fix_first_values`, `fold_adjacent`). */
  function Fold(v: Vec, c: Fp): (r: Vec)
    ensures |r| == |v| / 2
  {
    seq(|v| / 2, j requires 0 <= j < |v| / 2 => Add(v[2 * j], Mul(c, Sub(v[2 * j + 1], v[2 * j]))))
  }

  /** Evaluation by binding the variables one after the other. */
  function EvalAt(v: Vec, point: Vec): Fp
    requires |v| == Pow2(|point|)
    decreases |point|
  {
    if point == [] then v[0] else EvalAt(Fold(v, point[0]), point[1..])
  }

  /** Binding several variables at once. */
  function FoldAll(v: Vec, point: Vec): (r: Vec)
    decreases |point|
  {
    if point == [] then v else FoldAll(Fold(v, point[0]), point[1..])
  }

  function BitEq(bit: bool, c: Fp): Fp { if bit then c else Sub(1, c) }

  /** The weight of index i at a point: c or 1 - c for every binary digit. */
  function PrefixEq(i: nat, point: Vec): Fp
  {
    if point == [] then 1 else Mul(BitEq(i % 2 == 1, point[0]), PrefixEq(i / 2, point[1..]))
  }

  function EqVec(point: Vec): (e: Vec)
    ensures |e| == Pow2(|point|)
    ensures forall i :: 0 <= i < |e| ==> e[i] == PrefixEq(i, point)
  {
    seq(Pow2(|point|), i requires 0 <= i => PrefixEq(i, point))
  }

  /** The transpose of folding. */
  function Spread(h: Vec, c: Fp): (r: Vec)
    ensures |r| == 2 * |h|
  {
    seq(2 * |h|, i requires 0 <= i < 2 * |h| => Mul(BitEq(i % 2 == 1, c), h[i / 2]))
  }

  lemma FoldStep(s: Fp, v0: Fp, v1: Fp, c: Fp, h: Fp)
    ensures Add(Add(s, Mul(v0, Mul(Sub(1, c), h))), Mul(v1, Mul(c, h)))
       == Add(s, Mul(Add(v0, Mul(c, Sub(v1, v0))), h))
  {
    Same(ZAdd(ZAdd(s, ZMul(v0, ZMul(ZSub(1, c), h))), ZMul(v1, ZMul(c, h))),
         ZAdd(s, ZMul(ZAdd(v0, ZMul(c, ZSub(v1, v0))), h)));
    hide *;
    Ring(s, v0, v1, c, h);
  }

  lemma {:induction false} FoldSpread(v: Vec, h: Vec, c: Fp)
    requires |v| == 2 * |h|
    ensures Dot(Fold(v, c), h) == Dot(v, Spread(h, c))
  {
    hide Fold, Spread;
    if h != [] {
      hide Dot;
      var n := |h| - 1;
      var v', h' := v[..2 * n], h[..n];
      FoldSpread(v', h', c);
      var s, f := Spread(h, c), Fold(v, c);
      SpreadLast(h, c);
      FoldLast(v, c);
      DotLastTwo(v, s);
      DotNext(f, h, n);
      assert f[..n + 1] == f && h[..n + 1] == h;
      FoldStep(Dot(v', s[..2 * n]), v[2 * n], v[2 * n + 1], c, h[n]);
    }
  }

  lemma SpreadLast(h: Vec, c: Fp)
    requires h != []
    ensures var n, s := |h| - 1, Spread(h, c);
            s[..2 * n] == Spread(h[..n], c) && s[2 * n] == Mul(BitEq(false, c), h[n]) && s[2 * n + 1] == Mul(BitEq(true, c), h[n])
  {
    var n := |h| - 1;
    assert (2 * n) / 2 == n && (2 * n + 1) / 2 == n;
    assert (2 * n) % 2 == 0 && (2 * n + 1) % 2 == 1;
  }

  lemma FoldLast(v: Vec, c: Fp)
    requires |v| % 2 == 0 && v != []
    ensures var n, f := |v| / 2 - 1, Fold(v, c);
            f[..n] == Fold(v[..2 * n], c) && f[n] == Add(v[2 * n], Mul(c, Sub(v[2 * n + 1], v[2 * n])))
  {
  }

  lemma DotLastTwo(a: Vec, b: Vec)
    requires |a| == |b| >= 2
    ensures var n := |a| - 2; Dot(a, b) == Add(Add(Dot(a[..n], b[..n]), Mul(a[n], b[n])), Mul(a[n + 1], b[n + 1]))
  {
    var n := |a| - 2;
    assert a[..n + 1][..n] == a[..n] && b[..n + 1][..n] == b[..n];
  }

  lemma EqVecSpread(point: Vec)
    requires point != []
    ensures EqVec(point) == Spread(EqVec(point[1..]), point[0])
  {
    forall i | 0 <= i < |EqVec(point)|
      ensures EqVec(point)[i] == Spread(EqVec(point[1..]), point[0])[i]
    {
    }
  }

  /** Evaluation is the weighted sum of the table: the meaning of a multilinear extension. */
  lemma {:induction false} EvalIsWeightedSum(v: Vec, point: Vec)
    requires |v| == Pow2(|point|)
    ensures EvalAt(v, point) == Dot(v, EqVec(point))
    decreases |point|
  {
    if point == [] {
      assert v == [v[0]] && EqVec(point) == [1];
      assert v[..0] == [] && EqVec(point)[..0] == [];
      Units(v[0]);
    } else {
      EvalIsWeightedSum(Fold(v, point[0]), point[1..]);
      FoldSpread(v, EqVec(point[1..]), point[0]);
      EqVecSpread(point);
    }
  }

  lemma {:induction false} PrefixEqSnoc(i: nat, point: Vec, c: Fp)
    ensures PrefixEq(i, point + [c]) == Mul(PrefixEq(i, point), BitEq(Bit(i, |point|), c))
    decreases |point|
  {
    var p := point + [c];
    if point == [] {
      assert p[1..] == [];
      Units(BitEq(i % 2 == 1, c));
    } else {
      assert p[1..] == point[1..] + [c];
      PrefixEqSnoc(i / 2, point[1..], c);
      MulAssoc(BitEq(i % 2 == 1, point[0]), PrefixEq(i / 2, point[1..]), BitEq(Bit(i / 2, |point| - 1), c));
    }
  }

  /** The weight at k coordinates looks at the k lowest digits only. */
  lemma {:induction false} PrefixEqHigh(i: nat, point: Vec, k: nat)
    requires |point| <= k
    ensures PrefixEq(i + Pow2(k), point) == PrefixEq(i, point)
    decreases |point|
  {
    if point != [] {
      PrefixEqHigh(i / 2, point[1..], k - 1);
      assert (i + Pow2(k)) / 2 == i / 2 + Pow2(k - 1);
      assert (i + Pow2(k)) % 2 == i % 2;
    }
  }

  lemma PrefixEqDouble(i: nat, point: Vec, c: Fp)
    requires i < Pow2(|point|)
    ensures PrefixEq(i, point + [c]) == Mul(PrefixEq(i, point), Sub(1, c))
    ensures PrefixEq(i + Pow2(|point|), point + [c]) == Mul(PrefixEq(i, point), c)
  {
    PrefixEqSnoc(i, point, c);
    PrefixEqSnoc(i + Pow2(|point|), point, c);
    PrefixEqHigh(i, point, |point|);
    BitHigh(i, |point|);
  }

  // ----- the loops of the source -----

  method PrefixEqLoop(index: nat, point: Vec) returns (acc: Fp)
    ensures acc == PrefixEq(index, point)
  {
    acc := 1;
    var rest := index;
    for bit := 0 to |point|
      invariant acc == PrefixEq(index, point[..bit])
      invariant rest == Shr(index, bit)
    {
      ShrBit(index, bit);
      PrefixEqSnoc(index, point[..bit], point[bit]);
      assert point[..bit + 1] == point[..bit] + [point[bit]];
      acc := if rest % 2 == 1 then Mul(acc, point[bit]) else Mul(acc, Sub(1, point[bit]));
      rest := rest / 2;
    }
    assert point[..|point|] == point;
  }

  /** `eq_table`: the weights of all indices, doubled once per coordinate. */
  method EqTable(point: Vec) returns (values: Vec)
    ensures values == EqVec(point)
  {
    values := [1];
    for k := 0 to |point|
      invariant |values| == Pow2(k)
      invariant forall i :: 0 <= i < |values| ==> values[i] == PrefixEq(i, point[..k])
    {
      var challenge := point[k];
      var keep := Sub(1, challenge);
      var len := |values|;
      var p, p' := point[..k], point[..k + 1];
      assert p' == p + [challenge];
      for index := 0 to len
        invariant |values| == len + index
        invariant forall i :: 0 <= i < index ==> values[i] == PrefixEq(i, p')
        invariant forall i :: index <= i < len ==> values[i] == PrefixEq(i, p)
        invariant forall i :: len <= i < len + index ==> values[i] == PrefixEq(i, p')
      {
        PrefixEqDouble(index, p, challenge);
        var value := values[index];
        values := values[index := Mul(value, keep)] + [Mul(value, challenge)];
      }
    }
    assert point[..|point|] == point;
  }

  /** `eq_tensor`: the same weights written into a table of the final size. */
  method EqTensor(point: Vec) returns (eq: Vec)
    ensures eq == EqVec(point)
  {
    eq := seq(Pow2(|point|), _ => 1);
    Pow2Mono(0, |point|);
    var half := 1;
    for k := 0 to |point|
      invariant |eq| == Pow2(|point|) && half == Pow2(k) <= |eq|
      invariant forall i :: 0 <= i < half ==> eq[i] == PrefixEq(i, point[..k])
    {
      var challenge := point[k];
      var oneMinus := Sub(1, challenge);
      var p, p' := point[..k], point[..k + 1];
      assert p' == p + [challenge];
      Pow2Mono(k + 1, |point|);
      assert 2 * half <= |eq|;
      for i := 0 to half
        invariant |eq| == Pow2(|point|)
        invariant forall j :: 0 <= j < i ==> eq[j] == PrefixEq(j, p')
        invariant forall j :: i <= j < half ==> eq[j] == PrefixEq(j, p)
        invariant forall j :: half <= j < half + i ==> eq[j] == PrefixEq(j, p')
      {
        PrefixEqDouble(i, p, challenge);
        var hi := Mul(eq[i], challenge);
        eq := eq[i := Mul(eq[i], oneMinus)];
        eq := eq[i + half := hi];
      }
      half := 2 * half;
    }
    assert point[..|point|] == point;
  }

  lemma EvalStep(table: Vec, point: Vec, k: nat)
    requires k < |point| && |table| == Pow2(|point| - k)
    ensures |Fold(table, point[k])| == Pow2(|point| - (k + 1))
    ensures EvalAt(table, point[k..]) == EvalAt(Fold(table, point[k]), point[k + 1..])
  {
    hide Fold;
    assert point[k..][1..] == point[k + 1..];
  }

  lemma EvalDone(table: Vec)
    requires |table| == Pow2(0)
    ensures |table| == 1 && EvalAt(table, []) == table[0]
  {
  }

  datatype MleError = WrongPointLength(expected: nat, actual: nat)

  datatype Mle = Mle(values: Vec, numVars: nat) {
    ghost predicate Valid() { |values| == Pow2(numVars) }

    /** A table padded with zeros to the next power of two. */
    static function New(values: Vec): (m: Mle)
      ensures m.Valid() && |values| <= |m.values|
      ensures m.values[..|values|] == values
      ensures forall i :: |values| <= i < |m.values| ==> m.values[i] == 0
    {
      CeilLogBounds(|values|);
      var k := CeilLog(|values|);
      Mle(values + Zeros(Pow2(k) - |values|), k)
    }

    method Eval(point: Vec) returns (r: Result<Fp, MleError>)
      requires Valid()
      ensures |point| != numVars ==> r == Err(WrongPointLength(numVars, |point|))
      ensures |point| == numVars ==> r == Ok(Dot(values, EqVec(point)))
    {
      hide PrefixEq, EqVec, Dot, EvalAt, Fold, Pow2;
      if |point| != numVars {
        return Err(WrongPointLength(numVars, |point|));
      }
      var table := values;
      for k := 0 to |point|
        invariant |table| == Pow2(|point| - k)
        invariant EvalAt(table, point[k..]) == EvalAt(values, point)
      {
        EvalStep(table, point, k);
        table := Fold(table, point[k]);
      }
      assert point[|point|..] == [] && point[0..] == point;
      EvalDone(table);
      EvalIsWeightedSum(values, point);
      return Ok(table[0]);
    }
  }

  // ----- partial evaluation -----

  lemma {:induction false} FoldAllLength(v: Vec, point: Vec, m: nat)
    requires |v| == Pow2(|point| + m)
    ensures |FoldAll(v, point)| == Pow2(m)
    decreases |point|
  {
    if point != [] {
      FoldAllLength(Fold(v, point[0]), point[1..], m);
    }
  }

  lemma {:induction false} FoldAllSnoc(v: Vec, point: Vec, c: Fp)
    ensures FoldAll(v, point + [c]) == Fold(FoldAll(v, point), c)
    decreases |point|
  {
    var p := point + [c];
    if point == [] {
      assert p[1..] == [];
    } else {
      assert p[1..] == point[1..] + [c];
      FoldAllSnoc(Fold(v, point[0]), point[1..], c);
    }
  }

  lemma {:induction false} FoldAllEval(v: Vec, point: Vec)
    requires |v| == Pow2(|point|)
    ensures FoldAll(v, point) == [EvalAt(v, point)]
    decreases |point|
  {
    if point != [] {
      FoldAllEval(Fold(v, point[0]), point[1..]);
    }
  }

  /** Entry i of h is read once for every index that shifts to i. */
  function Expand(h: Vec, k: nat, n: nat): (r: Vec)
    requires |h| * Pow2(k) == n
    ensures |r| == n
  {
    if k == 0 then h
    else
      assert 2 * (|h| * Pow2(k - 1)) == |h| * Pow2(k);
      var r := Expand(h, k - 1, |h| * Pow2(k - 1));
      seq(n, i requires 0 <= i < n => r[i / 2])
  }

  lemma {:induction false} ExpandAt(h: Vec, k: nat, n: nat, i: nat)
    requires |h| * Pow2(k) == n && i < n
    ensures Shr(i, k) < |h| && Expand(h, k, n)[i] == h[Shr(i, k)]
  {
    if k > 0 {
      assert 2 * (|h| * Pow2(k - 1)) == |h| * Pow2(k);
      ExpandAt(h, k - 1, |h| * Pow2(k - 1), i / 2);
    }
  }

  /** Weights of the bound digits times an entry of the folded table: what a term list sums after k
      rounds, against the folded vectors. */
  function PartialWeights(h: Vec, point: Vec, n: nat): (r: Vec)
    requires |h| * Pow2(|point|) == n
    ensures |r| == n
  {
    seq(n, i requires 0 <= i < n => Mul(PrefixEq(i, point), Expand(h, |point|, n)[i]))
  }

  lemma SizeHalves(h: nat, k: nat)
    requires k > 0
    ensures h * Pow2(k) == 2 * (h * Pow2(k - 1))
  {
  }

  lemma ExpandStep(h: Vec, k: nat, n: nat, i: nat)
    requires k > 0 && |h| * Pow2(k) == n && i < n
    ensures |h| * Pow2(k - 1) == n / 2 && i / 2 < n / 2 && Expand(h, k, n)[i] == Expand(h, k - 1, n / 2)[i / 2]
  {
    SizeHalves(|h|, k);
  }

  lemma SpreadPartial(h: Vec, point: Vec, n: nat)
    requires point != [] && |h| * Pow2(|point|) == n
    ensures |h| * Pow2(|point[1..]|) == n / 2 && n % 2 == 0
    ensures Spread(PartialWeights(h, point[1..], n / 2), point[0]) == PartialWeights(h, point, n)
  {
    hide Expand, Pow2;
    var k := |point|;
    SizeHalves(|h|, k);
    var w := PartialWeights(h, point[1..], n / 2);
    forall i | 0 <= i < n ensures Spread(w, point[0])[i] == PartialWeights(h, point, n)[i] {
      ExpandStep(h, k, n, i);
      MulAssoc(BitEq(i % 2 == 1, point[0]), PrefixEq(i / 2, point[1..]), Expand(h, k, n)[i]);
    }
  }

  lemma {:induction false} FoldAllDot(v: Vec, point: Vec, h: Vec)
    requires |v| == |h| * Pow2(|point|)
    ensures |FoldAll(v, point)| == |h|
    ensures Dot(FoldAll(v, point), h) == Dot(v, PartialWeights(h, point, |v|))
    decreases |point|
  {
    hide Fold, Spread;
    if point == [] {
      forall i | 0 <= i < |h| ensures PartialWeights(h, point, |v|)[i] == h[i] { Units(h[i]); }
      assert PartialWeights(h, point, |v|) == h;
    } else {
      hide PartialWeights;
      SpreadPartial(h, point, |v|);
      FoldAllDot(Fold(v, point[0]), point[1..], h);
      FoldSpread(v, PartialWeights(h, point[1..], |v| / 2), point[0]);
    }
  }
}
