/** The sorted-sparse prover's round state (sumcheck.rs): tables kept as their non-zero entries in index order. */
module SparseProver {
  import opened Field
  import opened Vectors
  import opened Multilinear
  import opened Rounds
  import opened DenseProver

  datatype Entry = Entry(index: nat, value: Fp)

  /** The non-zero entries of a table, in index order. */
  function Sparse(v: Vec): (s: seq<Entry>)
    ensures |s| <= |v|
  {
    if v == [] then []
    else
      var n := |v| - 1;
      if v[n] == 0 then Sparse(v[..n]) else Sparse(v[..n]) + [Entry(n, v[n])]
  }

  /** How many entries lie below index k. */
  function Below(v: Vec, k: nat): nat
    requires k <= |v|
  {
    |Sparse(v[..k])|
  }

  lemma SparseStep(v: Vec, k: nat)
    requires k < |v|
    ensures Below(v, k + 1) == Below(v, k) + (if v[k] == 0 then 0 else 1)
  {
    assert v[..k + 1][..k] == v[..k];
  }

  lemma {:induction false} SparsePrefix(v: Vec, k: nat)
    requires k <= |v|
    ensures Below(v, k) <= |Sparse(v)| && Sparse(v)[..Below(v, k)] == Sparse(v[..k])
    decreases |v|
  {
    if k == |v| {
      assert v[..k] == v;
    } else {
      var n := |v| - 1;
      SparsePrefix(v[..n], k);
      assert v[..n][..k] == v[..k];
    }
  }

  /** The entry a cursor points at: the first non-zero entry at or after the position the cursor stands for. */
  lemma {:induction false} NextEntry(v: Vec, q: nat)
    requires q <= |v|
    ensures Below(v, q) <= |Sparse(v)|
    ensures Below(v, q) == |Sparse(v)| ==> forall i :: q <= i < |v| ==> v[i] == 0
    ensures Below(v, q) < |Sparse(v)| ==>
              var Entry(e, x) := Sparse(v)[Below(v, q)];
              && q <= e < |v| && v[e] == x && x != 0
              && (forall i :: q <= i < e ==> v[i] == 0)
              && Below(v, e) == Below(v, q)
    decreases |v| - q
  {
    SparsePrefix(v, q);
    if q == |v| {
      assert v[..q] == v;
    } else {
      SparseStep(v, q);
      NextEntry(v, q + 1);
      if v[q] != 0 {
        SparsePrefix(v, q + 1);
        assert v[..q + 1][..q] == v[..q];
        assert Sparse(v[..q + 1])[Below(v, q)] == Entry(q, v[q]);
      }
    }
  }

  /** Positions that are all zero do not move the cursor. */
  lemma {:induction false} SkipZeros(v: Vec, q: nat, e: nat)
    requires q <= e <= |v| && forall i :: q <= i < e ==> v[i] == 0
    ensures Below(v, e) == Below(v, q)
    decreases e - q
  {
    if q < e {
      SparseStep(v, q);
      SkipZeros(v, q + 1, e);
    }
  }

  /** `from_dense_nonzero`. */
  method FromDense(values: Vec) returns (entries: seq<Entry>)
    ensures entries == Sparse(values)
  {
    entries := [];
    for index := 0 to |values|
      invariant entries == Sparse(values[..index])
    {
      assert values[..index + 1][..index] == values[..index];
      if values[index] != 0 {
        entries := entries + [Entry(index, values[index])];
      }
    }
    assert values[..|values|] == values;
  }

  /** Cursor i stands for position q of the table. */
  ghost predicate Cursor(v: Vec, q: nat, i: nat)
  {
    && q <= |v| && i == Below(v, q) <= |Sparse(v)|
    && (i == |Sparse(v)| ==> forall k :: q <= k < |v| ==> v[k] == 0)
    && (i < |Sparse(v)| ==>
          var Entry(e, x) := Sparse(v)[i];
          q <= e < |v| && v[e] == x && x != 0 && forall k :: q <= k < e ==> v[k] == 0)
  }

  lemma CursorStart(v: Vec, q: nat)
    requires q <= |v|
    ensures Cursor(v, q, Below(v, q))
  {
    NextEntry(v, q);
  }

  lemma CursorStep(v: Vec, q: nat, i: nat)
    requires Cursor(v, q, i) && i < |Sparse(v)|
    ensures Cursor(v, Sparse(v)[i].index + 1, i + 1)
  {
    var e := Sparse(v)[i].index;
    SkipZeros(v, q, e);
    SparseStep(v, e);
    NextEntry(v, e + 1);
  }

  lemma CursorSkip(v: Vec, q: nat, i: nat, q': nat)
    requires Cursor(v, q, i) && q <= q' <= |v| && (i < |Sparse(v)| ==> q' <= Sparse(v)[i].index)
    ensures Cursor(v, q', i) && forall k :: q <= k < q' ==> v[k] == 0
  {
    SkipZeros(v, q, q');
  }

  /** `take_sparse_pair`: read both entries of a pair and move the cursor past it. */
  method TakePair(entries: seq<Entry>, ghost v: Vec, start: nat, pair: nat) returns (even: Fp, odd: Fp, index: nat)
    requires entries == Sparse(v) && 2 * pair + 1 < |v| && Cursor(v, 2 * pair, start)
    ensures even == v[2 * pair] && odd == v[2 * pair + 1] && Cursor(v, 2 * pair + 2, index)
    ensures start <= index
    ensures even != 0 || odd != 0 ==> start < index
  {
    hide Sparse, Below;
    even, odd, index := 0, 0, start;
    ghost var q := 2 * pair;
    while index < |entries| && entries[index].index / 2 == pair
      invariant 2 * pair <= q <= 2 * pair + 2 && Cursor(v, q, index) && start <= index
      invariant even == if q > 2 * pair then v[2 * pair] else 0
      invariant odd == if q > 2 * pair + 1 then v[2 * pair + 1] else 0
      invariant even != 0 || odd != 0 ==> start < index
      decreases |entries| - index
    {
      var Entry(e, x) := entries[index];
      CursorStep(v, q, index);
      if e % 2 == 0 { even := x; } else { odd := x; }
      index := index + 1;
      q := e + 1;
    }
    CursorSkip(v, q, index, 2 * pair + 2);
  }

  lemma {:induction false} ZeroPairsFold(v: Vec, c: Fp, p: nat, p': nat)
    requires p <= p' <= |v| / 2 && forall i :: 2 * p <= i < 2 * p' ==> v[i] == 0
    ensures forall j :: p <= j < p' ==> Fold(v, c)[j] == 0
  {
    Units(0);
    Units(c);
  }

  lemma {:induction false} SkipZeroFold(v: Vec, p: nat, p': nat)
    requires p <= p' <= |v| && forall j :: p <= j < p' ==> v[j] == 0
    ensures Sparse(v[..p']) == Sparse(v[..p])
    decreases p'
  {
    if p < p' {
      SkipZeroFold(v, p, p' - 1);
      assert v[..p'][..p' - 1] == v[..p' - 1];
    }
  }

  lemma StartFold(v: Vec, f: Vec)
    ensures Cursor(v, 0, 0) && Sparse(f[..0]) == []
  {
    CursorStart(v, 0);
  }

  /** The folded table up to and including a pair, after a gap of zero pairs. */
  lemma ExtendFold(v: Vec, c: Fp, p: nat, pair: nat)
    requires p <= pair < |v| / 2 && forall i :: 2 * p <= i < 2 * pair ==> v[i] == 0
    ensures var f := Fold(v, c);
            Sparse(f[..pair + 1]) == Sparse(f[..p]) + (if f[pair] == 0 then [] else [Entry(pair, f[pair])])
  {
    hide Fold;
    var f := Fold(v, c);
    ZeroPairsFold(v, c, p, pair);
    SkipZeroFold(f, p, pair);
    assert f[..pair + 1][..pair] == f[..pair];
  }

  class SortedSparseVec {
    var entries: seq<Entry>
    var scratch: seq<Entry>

    constructor FromDenseNonzero(values: Vec)
      ensures entries == Sparse(values)
    {
      var es := FromDense(values);
      entries, scratch := es, [];
    }

    constructor Default()
      ensures entries == []
    {
      entries, scratch := [], [];
    }

    /** Bind the lowest variable; entries that fold to zero are dropped. */
    method Fold(ghost v: Vec, challenge: Fp)
      requires entries == Sparse(v) && |v| % 2 == 0
      modifies this
      ensures entries == Sparse(Multilinear.Fold(v, challenge))
    {
      hide Multilinear.Fold;
      hide Sparse, Below;
      scratch := [];
      var index: nat := 0;
      ghost var p: nat := 0;
      ghost var f := Multilinear.Fold(v, challenge);
      StartFold(v, f);
      while index < |entries|
        invariant entries == Sparse(v)
        invariant p <= |v| / 2 && Cursor(v, 2 * p, index)
        invariant scratch == Sparse(f[..p])
        decreases |entries| - index
      {
        var pair := entries[index].index / 2;
        CursorSkip(v, 2 * p, index, 2 * pair);
        var even, odd, next := TakePair(entries, v, index, pair);
        var folded := Add(even, Mul(challenge, Sub(odd, even)));
        FoldEntry(v, challenge, pair);
        ExtendFold(v, challenge, p, pair);
        if folded != 0 {
          scratch := scratch + [Entry(pair, folded)];
        }
        index := next;
        p := pair + 1;
      }
      ZeroPairsFold(v, challenge, p, |v| / 2);
      SkipZeroFold(f, p, |f|);
      assert f[..|f|] == f;
      entries, scratch := scratch, entries;
    }

    /** The single remaining value; no entry means zero. */
    method FinalValue(ghost v: Vec) returns (x: Fp)
      requires entries == Sparse(v) && |v| == 1
      ensures x == v[0]
    {
      assert v[..0] == [];
      x := 0;
      Units(v[0]);
      for i := 0 to |entries|
        invariant x == if i == 0 then 0 else v[0]
      {
        x := Add(x, entries[i].value);
      }
    }
  }

  lemma FoldEntry(v: Vec, c: Fp, j: nat)
    requires 2 * j + 1 < |v|
    ensures Fold(v, c)[j] == Add(v[2 * j], Mul(c, Sub(v[2 * j + 1], v[2 * j])))
  {
  }

  // ----- round messages by merging two sparse tables -----

  lemma {:induction false} GapDot(a: Vec, b: Vec, p: nat, p': nat)
    requires |a| == |b| && p <= p' <= |a| && forall j :: p <= j < p' ==> a[j] == 0
    ensures Dot(a[..p'], b[..p']) == Dot(a[..p], b[..p])
    decreases p'
  {
    if p < p' {
      var n := p' - 1;
      GapDot(a, b, p, n);
      assert a[..p'][..n] == a[..n] && b[..p'][..n] == b[..n];
      Units(b[n]);
      Units(Dot(a[..n], b[..n]));
    }
  }

  lemma MergeTerm(e: Fp, a0: Fp, a1: Fp, x: Fp)
    ensures Add(Add(e, Mul(a0, Sub(0, x))), Mul(a1, Add(x, x)))
       == Add(e, Mul(Add(a0, Mul(2, Sub(a1, a0))), x))
  {
    Same(ZAdd(ZAdd(e, ZMul(a0, ZSub(0, x))), ZMul(a1, ZAdd(x, x))),
         ZAdd(e, ZMul(ZAdd(a0, ZMul(2, ZSub(a1, a0))), x)));
    hide *;
    Ring(e, a0, a1, x);
  }

  /** The round polynomial restricted to the first p pairs. */
  function Partial(a: Vec, w: Vec, c: Fp, p: nat): Fp
    requires |a| == |w| && p <= |a| / 2
  {
    Dot(Fold(a, c)[..p], Fold(w, c)[..p])
  }

  lemma PartialStep(a: Vec, w: Vec, c: Fp, p: nat, pair: nat)
    requires |a| == |w| && p <= pair < |a| / 2 && forall i :: 2 * p <= i < 2 * pair ==> a[i] == 0
    ensures Partial(a, w, c, pair + 1) == Add(Partial(a, w, c, p), Mul(Fold(a, c)[pair], Fold(w, c)[pair]))
  {
    hide Fold;
    var x, y := Fold(a, c), Fold(w, c);
    ZeroPairsFold(a, c, p, pair);
    GapDot(x, y, p, pair);
    assert x[..pair + 1][..pair] == x[..pair] && y[..pair + 1][..pair] == y[..pair];
  }

  lemma PartialGap(a: Vec, w: Vec, c: Fp, p: nat, p': nat)
    requires |a| == |w| && p <= p' <= |a| / 2 && forall i :: 2 * p <= i < 2 * p' ==> a[i] == 0
    ensures Partial(a, w, c, p') == Partial(a, w, c, p)
  {
    hide Fold;
    ZeroPairsFold(a, c, p, p');
    GapDot(Fold(a, c), Fold(w, c), p, p');
  }

  lemma WholePartial(a: Vec, w: Vec, c: Fp)
    requires |a| == |w|
    ensures Partial(a, w, c, |a| / 2) == RoundPoly(a, w, c) && Partial(a, w, c, 0) == 0
  {
    hide Fold;
    assert Fold(a, c)[..|a| / 2] == Fold(a, c) && Fold(w, c)[..|a| / 2] == Fold(w, c);
  }

  /** One merged pair, in the form the loop adds it. */
  lemma MergedPair(a: Vec, w: Vec, p: nat, pair: nat)
    requires |a| == |w| && p <= pair < |a| / 2 && forall i :: 2 * p <= i < 2 * pair ==> a[i] == 0
    ensures var a0, a1, w0, w1 := a[2 * pair], a[2 * pair + 1], w[2 * pair], w[2 * pair + 1];
            var line := Sub(Add(w1, w1), w0);
            && Partial(a, w, 0, pair + 1) == Add(Partial(a, w, 0, p), Mul(a0, w0))
            && Partial(a, w, 2, pair + 1) == Add(Add(Partial(a, w, 2, p), Mul(a0, Neg(line))), Mul(a1, Add(line, line)))
  {
    hide Fold, Partial;
    var a0, a1, w0, w1 := a[2 * pair], a[2 * pair + 1], w[2 * pair], w[2 * pair + 1];
    PartialStep(a, w, 0, p, pair);
    PartialStep(a, w, 2, p, pair);
    FoldEntry(a, 0, pair); FoldEntry(w, 0, pair);
    FoldEntry(a, 2, pair); FoldEntry(w, 2, pair);
    AtZero(a0, a1);
    AtZero(w0, w1);
    LineAtTwo(w0, w1);
    MergeTerm(Partial(a, w, 2, p), a0, a1, Sub(Add(w1, w1), w0));
  }

  /** `sorted_sparse_round_evals_0_2`: both tables are walked pair by pair. */
  method MergedRoundEvals(coeff: seq<Entry>, values: seq<Entry>, ghost a: Vec, ghost w: Vec) returns (p0: Fp, p2: Fp)
    requires coeff == Sparse(a) && values == Sparse(w) && |a| == |w| && |a| % 2 == 0
    ensures p0 == RoundPoly(a, w, 0) && p2 == RoundPoly(a, w, 2)
  {
    hide Fold, Sparse, Below, Partial, RoundPoly;
    var i: nat, j: nat := 0, 0;
    p0, p2 := 0, 0;
    ghost var p: nat := 0;
    StartFold(a, a);
    StartFold(w, w);
    WholePartial(a, w, 0);
    WholePartial(a, w, 2);
    while i < |coeff| || j < |values|
      invariant p <= |a| / 2 && Cursor(a, 2 * p, i) && Cursor(w, 2 * p, j)
      invariant p0 == Partial(a, w, 0, p) && p2 == Partial(a, w, 2, p)
      decreases |coeff| - i + |values| - j
    {
      var pair := if i < |coeff| then coeff[i].index / 2 else values[j].index / 2;
      if j < |values| && values[j].index / 2 < pair {
        pair := values[j].index / 2;
      }
      CursorSkip(a, 2 * p, i, 2 * pair);
      CursorSkip(w, 2 * p, j, 2 * pair);
      var a0, a1, i' := TakePair(coeff, a, i, pair);
      var w0, w1, j' := TakePair(values, w, j, pair);
      MergedPair(a, w, p, pair);
      ghost var start: nat := p;
      i, j := i', j';
      p := pair + 1;
      if a0 == 0 && a1 == 0 {
        PartialGap(a, w, 0, start, p);
        PartialGap(a, w, 2, start, p);
        continue;
      }
      p0 := Add(p0, Mul(a0, w0));
      var line := Sub(Add(w1, w1), w0);
      p2 := Add(Add(p2, Mul(a0, Neg(line))), Mul(a1, Add(line, line)));
    }
    PartialGap(a, w, 0, p, |a| / 2);
    PartialGap(a, w, 2, p, |a| / 2);
  }
}
