/** The term lists the two provers keep (sumcheck.rs): grouped by wire pair in the dense prover, unmerged in the
    sparse one. Both give the tables of `LayerSums`, except where the dense prover lists a right index twice. */
module TermLists {
  import opened Field
  import opened Vectors
  import opened Bits
  import opened Multilinear
  import opened Circuits
  import opened LayerSums

  datatype RoundTerm = RoundTerm(l: nat, r: nat, q: Fp)

  // ----- grouping by key, as the hash maps with their key vectors do -----

  /** Keys in the order of their first occurrence. */
  function Order<T(==, !new)>(keys: seq<T>): (o: seq<T>)
    ensures forall i, j :: 0 <= i < j < |o| ==> o[i] != o[j]
    ensures forall k :: k in keys <==> k in o
  {
    if keys == [] then []
    else
      var o, k := Order(keys[..|keys| - 1]), keys[|keys| - 1];
      assert keys == keys[..|keys| - 1] + [k];
      if k in o then o else o + [k]
  }

  /** What all values of one key add up to. */
  function Total<T(==, !new)>(keys: seq<T>, vals: Vec, k: T): Fp
    requires |keys| == |vals|
  {
    if keys == [] then 0
    else
      var n := |keys| - 1;
      if keys[n] == k then Add(Total(keys[..n], vals[..n], k), vals[n]) else Total(keys[..n], vals[..n], k)
  }

  function Map<T, U>(f: T -> U, s: seq<T>): (m: seq<U>)
    ensures |m| == |s|
  {
    seq(|s|, i requires 0 <= i < |s| => f(s[i]))
  }

  function Weighted<T>(vals: Vec, weight: T -> Fp, keys: seq<T>): (m: Vec)
    requires |vals| == |keys|
    ensures |m| == |keys|
  {
    seq(|keys|, i requires 0 <= i < |keys| => Mul(vals[i], weight(keys[i])))
  }

  function Totals<T(==, !new)>(keys: seq<T>, vals: Vec): (t: Vec)
    requires |keys| == |vals|
    ensures |t| == |Order(keys)|
  {
    var o := Order(keys);
    seq(|o|, i requires 0 <= i < |o| => Total(keys, vals, o[i]))
  }

  lemma {:induction false} TotalAbsent<T(!new)>(keys: seq<T>, vals: Vec, k: T)
    requires |keys| == |vals| && k !in keys
    ensures Total(keys, vals, k) == 0
  {
    if keys != [] {
      var n := |keys| - 1;
      assert keys[n] in keys;
      TotalAbsent(keys[..n], vals[..n], k);
    }
  }

  /** Raising one listed value raises its bucket. */
  lemma {:induction false} ScatterRaise(keys: seq<nat>, vals: Vec, n: nat, j: nat, v: Fp)
    requires |keys| == |vals| && AllBelow(keys, n) && j < |keys|
    ensures Scatter(keys, vals[j := Add(vals[j], v)], n)
         == var b := Scatter(keys, vals, n); b[keys[j] := Add(b[keys[j]], v)]
  {
    var m := |keys| - 1;
    var vals' := vals[j := Add(vals[j], v)];
    var b := Scatter(keys[..m], vals[..m], n);
    if j == m {
      assert vals'[..m] == vals[..m];
      AddAssoc(b[keys[m]], vals[m], v);
    } else {
      ScatterRaise(keys[..m], vals[..m], n, j, v);
      assert vals'[..m] == vals[..m][j := Add(vals[j], v)];
      if keys[j] == keys[m] {
        AddSwapLast(b[keys[m]], v, vals[m]);
      }
    }
  }

  function GroupedBuckets<T(==, !new)>(keys: seq<T>, vals: Vec, bucket: T -> nat, weight: T -> Fp, n: nat): (b: Vec)
    requires |keys| == |vals| && AllBelow(Map(bucket, Order(keys)), n)
    ensures |b| == n
  {
    Scatter(Map(bucket, Order(keys)), Weighted(Totals(keys, vals), weight, Order(keys)), n)
  }

  lemma GroupOldKey<T(!new)>(keys: seq<T>, vals: Vec, k: T, v: Fp, bucket: T -> nat, weight: T -> Fp, n: nat)
    requires |keys| == |vals| && AllBelow(Map(bucket, Order(keys)), n) && k in Order(keys)
    ensures Order(keys + [k]) == Order(keys) && bucket(k) < n
    ensures GroupedBuckets(keys + [k], vals + [v], bucket, weight, n)
         == var b := GroupedBuckets(keys, vals, bucket, weight, n); b[bucket(k) := Add(b[bucket(k)], Mul(v, weight(k)))]
  {
    hide Scatter;
    var keys', vals', o := keys + [k], vals + [v], Order(keys);
    assert keys'[..|keys|] == keys && vals'[..|vals|] == vals;
    var bs, ws := Map(bucket, o), Weighted(Totals(keys, vals), weight, o);
    var j :| 0 <= j < |o| && o[j] == k;
    assert bs[j] < n;
    DistribRight(Total(keys, vals, k), v, weight(k));
    assert Weighted(Totals(keys', vals'), weight, o) == ws[j := Add(ws[j], Mul(v, weight(k)))];
    ScatterRaise(bs, ws, n, j, Mul(v, weight(k)));
  }

  lemma GroupNewKey<T(!new)>(keys: seq<T>, vals: Vec, k: T, v: Fp, bucket: T -> nat, weight: T -> Fp, n: nat)
    requires |keys| == |vals| && AllBelow(Map(bucket, Order(keys)), n) && k !in Order(keys) && bucket(k) < n
    ensures Order(keys + [k]) == Order(keys) + [k] && AllBelow(Map(bucket, Order(keys + [k])), n)
    ensures GroupedBuckets(keys + [k], vals + [v], bucket, weight, n)
         == var b := GroupedBuckets(keys, vals, bucket, weight, n); b[bucket(k) := Add(b[bucket(k)], Mul(v, weight(k)))]
  {
    hide Scatter;
    var keys', vals', o := keys + [k], vals + [v], Order(keys);
    assert keys'[..|keys|] == keys && vals'[..|vals|] == vals;
    TotalAbsent(keys, vals, k);
    Units(v);
    ScatterSnoc(Map(bucket, o), Weighted(Totals(keys, vals), weight, o), bucket(k), Mul(v, weight(k)), n);
    assert Order(keys') == o + [k];
    assert Map(bucket, o + [k]) == Map(bucket, o) + [bucket(k)];
    assert Weighted(Totals(keys', vals'), weight, o + [k]) == Weighted(Totals(keys, vals), weight, o) + [Mul(v, weight(k))];
  }

  /** Grouping does not change any bucketed, weighted sum. */
  lemma {:induction false} GroupingKeepsBuckets<T(!new)>(keys: seq<T>, vals: Vec, bucket: T -> nat, weight: T -> Fp, n: nat)
    requires |keys| == |vals| && forall k :: k in keys ==> bucket(k) < n
    ensures AllBelow(Map(bucket, Order(keys)), n) && AllBelow(Map(bucket, keys), n)
    ensures GroupedBuckets(keys, vals, bucket, weight, n) == Scatter(Map(bucket, keys), Weighted(vals, weight, keys), n)
  {
    hide GroupedBuckets;
    assert forall i :: 0 <= i < |Order(keys)| ==> Order(keys)[i] in keys;
    if keys == [] {
      EmptyGroups(keys, vals, bucket, weight, n);
    } else {
      var m := |keys| - 1;
      var keys', vals', k, v := keys[..m], vals[..m], keys[m], vals[m];
      assert keys == keys' + [k] && vals == vals' + [v];
      GroupingKeepsBuckets(keys', vals', bucket, weight, n);
      assert Map(bucket, keys)[..m] == Map(bucket, keys');
      assert Weighted(vals, weight, keys)[..m] == Weighted(vals', weight, keys');
      if k in Order(keys') {
        GroupOldKey(keys', vals', k, v, bucket, weight, n);
      } else {
        GroupNewKey(keys', vals', k, v, bucket, weight, n);
      }
    }
  }

  lemma EmptyGroups<T(!new)>(keys: seq<T>, vals: Vec, bucket: T -> nat, weight: T -> Fp, n: nat)
    requires keys == [] && vals == []
    ensures GroupedBuckets(keys, vals, bucket, weight, n) == Zeros(n)
  {
  }

  // ----- term lists and their tables -----

  function ListLefts(ts: seq<RoundTerm>): (s: seq<nat>)
    ensures |s| == |ts|
  {
    seq(|ts|, i requires 0 <= i < |ts| => ts[i].l)
  }

  function ListRights(ts: seq<RoundTerm>): (s: seq<nat>)
    ensures |s| == |ts|
  {
    seq(|ts|, i requires 0 <= i < |ts| => ts[i].r)
  }

  ghost predicate ListFits(ts: seq<RoundTerm>, n: nat)
  {
    forall i :: 0 <= i < |ts| ==> ts[i].l < n && ts[i].r < n
  }

  function ListLeftVals(ts: seq<RoundTerm>, w: Vec): (v: Vec)
    requires ListFits(ts, |w|)
    ensures |v| == |ts|
  {
    seq(|ts|, i requires 0 <= i < |ts| => Mul(ts[i].q, w[ts[i].r]))
  }

  function ListRightVals(ts: seq<RoundTerm>, left: Vec, scalar: Fp): (v: Vec)
    ensures |v| == |ts|
  {
    seq(|ts|, i requires 0 <= i < |ts| => Mul(Mul(ts[i].q, PrefixEq(ts[i].l, left)), scalar))
  }

  /** Every circuit term with its q. */
  function RawTerms(terms: seq<QuadTerm>, q: Vec): (ts: seq<RoundTerm>)
    requires |terms| == |q|
    ensures |ts| == |terms|
  {
    seq(|terms|, i requires 0 <= i < |terms| => RoundTerm(terms[i].l, terms[i].r, q[i]))
  }

  function Pairs(terms: seq<QuadTerm>): (s: seq<(nat, nat)>)
    ensures |s| == |terms|
  {
    seq(|terms|, i requires 0 <= i < |terms| => (terms[i].l, terms[i].r))
  }

  /** One term per wire pair, in the order of first occurrence. */
  function GroupedTerms(terms: seq<QuadTerm>, q: Vec): (ts: seq<RoundTerm>)
    requires |terms| == |q|
    ensures |ts| == |Order(Pairs(terms))|
  {
    var o := Order(Pairs(terms));
    seq(|o|, i requires 0 <= i < |o| => RoundTerm(o[i].0, o[i].1, Total(Pairs(terms), q, o[i])))
  }

  /** Terms whose q is zero are dropped. */
  function Nonzero(ts: seq<RoundTerm>): (r: seq<RoundTerm>)
    ensures |r| <= |ts|
    ensures forall i :: 0 <= i < |r| ==> r[i] in ts
  {
    if ts == [] then []
    else
      var n := |ts| - 1;
      assert ts == ts[..n] + [ts[n]];
      if ts[n].q == 0 then Nonzero(ts[..n]) else Nonzero(ts[..n]) + [ts[n]]
  }

  lemma NonzeroFits(ts: seq<RoundTerm>, n: nat)
    requires ListFits(ts, n)
    ensures ListFits(Nonzero(ts), n)
    ensures AllBelow(ListLefts(ts), n) && AllBelow(ListRights(ts), n)
    ensures AllBelow(ListLefts(Nonzero(ts)), n) && AllBelow(ListRights(Nonzero(ts)), n)
  {
  }

  lemma LeftsSnoc(ts: seq<RoundTerm>, t: RoundTerm, w: Vec)
    requires ListFits(ts, |w|) && AllBelow(ListLefts(ts), |w|) && t.l < |w| && t.r < |w|
    ensures ListFits(ts + [t], |w|) && AllBelow(ListLefts(ts + [t]), |w|)
    ensures Scatter(ListLefts(ts + [t]), ListLeftVals(ts + [t], w), |w|)
         == var b := Scatter(ListLefts(ts), ListLeftVals(ts, w), |w|); b[t.l := Add(b[t.l], Mul(t.q, w[t.r]))]
  {
    hide Scatter;
    var ts', v := ts + [t], Mul(t.q, w[t.r]);
    assert ListFits(ts', |w|);
    assert ListLefts(ts') == ListLefts(ts) + [t.l];
    assert ListLeftVals(ts', w) == ListLeftVals(ts, w) + [v];
    hide *;
    ScatterSnoc(ListLefts(ts), ListLeftVals(ts, w), t.l, v, |w|);
  }

  lemma RightsSnoc(ts: seq<RoundTerm>, t: RoundTerm, left: Vec, scalar: Fp, n: nat)
    requires ListFits(ts, n) && t.l < n && t.r < n
    ensures AllBelow(ListRights(ts), n) && AllBelow(ListRights(ts + [t]), n)
    ensures Scatter(ListRights(ts + [t]), ListRightVals(ts + [t], left, scalar), n)
         == var b := Scatter(ListRights(ts), ListRightVals(ts, left, scalar), n);
            b[t.r := Add(b[t.r], Mul(Mul(t.q, PrefixEq(t.l, left)), scalar))]
  {
    hide Scatter, PrefixEq;
    ScatterSnoc(ListRights(ts), ListRightVals(ts, left, scalar), t.r, Mul(Mul(t.q, PrefixEq(t.l, left)), scalar), n);
    assert ListRights(ts + [t]) == ListRights(ts) + [t.r];
    assert ListRightVals(ts + [t], left, scalar) == ListRightVals(ts, left, scalar) + [Mul(Mul(t.q, PrefixEq(t.l, left)), scalar)];
  }

  lemma {:induction false} DropZeroLefts(ts: seq<RoundTerm>, w: Vec)
    requires ListFits(ts, |w|)
    ensures ListFits(Nonzero(ts), |w|) && AllBelow(ListLefts(ts), |w|) && AllBelow(ListLefts(Nonzero(ts)), |w|)
    ensures Scatter(ListLefts(Nonzero(ts)), ListLeftVals(Nonzero(ts), w), |w|)
         == Scatter(ListLefts(ts), ListLeftVals(ts, w), |w|)
  {
    hide Scatter, ListLefts, ListLeftVals;
    NonzeroFits(ts, |w|);
    if ts != [] {
      var init, t := ts[..|ts| - 1], ts[|ts| - 1];
      DropZeroLefts(init, w);
      LeftsSnoc(init, t, w);
      assert ts == init + [t];
      if t.q == 0 {
        Units(w[t.r]);
        Units(Scatter(ListLefts(init), ListLeftVals(init, w), |w|)[t.l]);
      } else {
        LeftsSnoc(Nonzero(init), t, w);
      }
    }
  }

  lemma {:induction false} DropZeroRights(ts: seq<RoundTerm>, left: Vec, scalar: Fp, n: nat)
    requires ListFits(ts, n)
    ensures ListFits(Nonzero(ts), n) && AllBelow(ListRights(ts), n) && AllBelow(ListRights(Nonzero(ts)), n)
    ensures Scatter(ListRights(Nonzero(ts)), ListRightVals(Nonzero(ts), left, scalar), n)
         == Scatter(ListRights(ts), ListRightVals(ts, left, scalar), n)
  {
    hide Scatter, ListRights, ListRightVals, PrefixEq;
    NonzeroFits(ts, n);
    if ts != [] {
      var init, t := ts[..|ts| - 1], ts[|ts| - 1];
      DropZeroRights(init, left, scalar, n);
      RightsSnoc(init, t, left, scalar, n);
      assert ts == init + [t];
      if t.q == 0 {
        Units(PrefixEq(t.l, left));
        Units(scalar);
        Units(Scatter(ListRights(init), ListRightVals(init, left, scalar), n)[t.r]);
      } else {
        RightsSnoc(Nonzero(init), t, left, scalar, n);
      }
    }
  }

  /** A term list stands for a layer: it has the layer's tables in both phases. */
  ghost predicate StandsFor(ts: seq<RoundTerm>, layer: Layer, q: Vec, w: Vec)
    requires layer.Valid() && |q| == |layer.terms| && |w| == Pow2(layer.nextLog)
  {
    && ListFits(ts, |w|) && AllBelow(ListLefts(ts), |w|) && AllBelow(ListRights(ts), |w|)
    && Scatter(ListLefts(ts), ListLeftVals(ts, w), |w|) == LeftCoeffs(layer, q, w)
    && forall left: Vec, scalar: Fp ::
         Scatter(ListRights(ts), ListRightVals(ts, left, scalar), |w|) == RightCoeffs(layer, q, left, scalar)
  }

  /** The sparse prover's list: all terms with non-zero q (`round_terms_for_sparse_layer`). */
  lemma SparseListStands(layer: Layer, q: Vec, w: Vec)
    requires layer.Valid() && |q| == |layer.terms| && |w| == Pow2(layer.nextLog)
    ensures StandsFor(Nonzero(RawTerms(layer.terms, q)), layer, q, w)
  {
    hide Scatter;
    FitKeys(layer);
    var ts := RawTerms(layer.terms, q);
    DropZeroLefts(ts, w);
    assert ListLefts(ts) == Lefts(layer.terms) && ListRights(ts) == Rights(layer.terms);
    assert ListLeftVals(ts, w) == LeftTerms(layer.terms, q, w);
    NonzeroFits(ts, |w|);
    forall left: Vec, scalar: Fp
      ensures Scatter(ListRights(Nonzero(ts)), ListRightVals(Nonzero(ts), left, scalar), |w|) == RightCoeffs(layer, q, left, scalar)
    {
      DropZeroRights(ts, left, scalar, |w|);
      assert ListRightVals(ts, left, scalar) == RightTerms(layer.terms, q, left, scalar);
    }
  }

  /** The dense prover's list: one term per wire pair (`compressed_round_terms`). */
  function Compressed(terms: seq<QuadTerm>, q: Vec): seq<RoundTerm>
    requires |terms| == |q|
  {
    Nonzero(GroupedTerms(terms, q))
  }

  lemma GroupedFits(layer: Layer, q: Vec)
    requires layer.Valid() && |q| == |layer.terms|
    ensures ListFits(GroupedTerms(layer.terms, q), Pow2(layer.nextLog))
  {
    var o := Order(Pairs(layer.terms));
    forall i | 0 <= i < |o| ensures o[i].0 < Pow2(layer.nextLog) && o[i].1 < Pow2(layer.nextLog) {
      assert o[i] in Pairs(layer.terms);
    }
  }

  lemma DenseListStands(layer: Layer, q: Vec, w: Vec)
    requires layer.Valid() && |q| == |layer.terms| && |w| == Pow2(layer.nextLog)
    ensures StandsFor(Compressed(layer.terms, q), layer, q, w)
  {
    hide Scatter, Order, Total;
    FitKeys(layer);
    GroupedFits(layer, q);
    var terms, n := layer.terms, |w|;
    var ts, keys := GroupedTerms(terms, q), Pairs(terms);
    DropZeroLefts(ts, w);
    NonzeroFits(ts, n);
    var toLeft: ((nat, nat)) -> nat := (k: (nat, nat)) => k.0;
    var toRight: ((nat, nat)) -> nat := (k: (nat, nat)) => k.1;
    var byValue: ((nat, nat)) -> Fp := (k: (nat, nat)) => if k.1 < n then w[k.1] else 0;
    GroupingKeepsBuckets(keys, q, toLeft, byValue, n);
    assert Map(toLeft, Order(keys)) == ListLefts(ts) && Map(toLeft, keys) == Lefts(terms);
    assert Weighted(Totals(keys, q), byValue, Order(keys)) == ListLeftVals(ts, w);
    assert Weighted(q, byValue, keys) == LeftTerms(terms, q, w);
    forall left: Vec, scalar: Fp
      ensures Scatter(ListRights(Nonzero(ts)), ListRightVals(Nonzero(ts), left, scalar), n) == RightCoeffs(layer, q, left, scalar)
    {
      DropZeroRights(ts, left, scalar, n);
      var byWeight: ((nat, nat)) -> Fp := (k: (nat, nat)) => Mul(PrefixEq(k.0, left), scalar);
      GroupingKeepsBuckets(keys, q, toRight, byWeight, n);
      assert Map(toRight, Order(keys)) == ListRights(ts) && Map(toRight, keys) == Rights(terms);
      forall i | 0 <= i < |ts| ensures ListRightVals(ts, left, scalar)[i] == Weighted(Totals(keys, q), byWeight, Order(keys))[i] {
        MulAssoc(ts[i].q, PrefixEq(ts[i].l, left), scalar);
      }
      assert Weighted(Totals(keys, q), byWeight, Order(keys)) == ListRightVals(ts, left, scalar);
      forall i | 0 <= i < |terms| ensures RightTerms(terms, q, left, scalar)[i] == Weighted(q, byWeight, keys)[i] {
        MulAssoc(q[i], PrefixEq(terms[i].l, left), scalar);
      }
      assert Weighted(q, byWeight, keys) == RightTerms(terms, q, left, scalar);
    }
  }
}
