/** When the dense prover's switch is safe whatever the challenges are: a condition on the wiring alone. */
module SwitchSafety {
  import opened Field
  import opened Vectors
  import opened Bits
  import opened Multilinear
  import opened Circuits
  import opened TermLists
  import opened DenseSwitch

  // ----- bit vectors as points -----

  /** At the corner of index j every weight is zero except that of j. */
  lemma {:induction false} CornerWeight(i: nat, j: nat, k: nat)
    requires i < Pow2(k) && j < Pow2(k)
    ensures PrefixEq(i, BitVec(j, k)) == if i == j then 1 else 0
    decreases k
  {
    if k > 0 {
      var point := BitVec(j, k);
      forall b | 0 <= b < k - 1 ensures point[1..][b] == BitVec(j / 2, k - 1)[b] {
        assert Bit(j, b + 1) == Bit(j / 2, b);
      }
      assert point[1..] == BitVec(j / 2, k - 1);
      CornerWeight(i / 2, j / 2, k - 1);
      Units(0);
      Units(1);
    }
  }

  // ----- buckets of a list in which one value per key is not zero -----

  lemma {:induction false} EmptyBucket(keys: seq<nat>, vals: Vec, n: nat, r: nat)
    requires |keys| == |vals| && AllBelow(keys, n) && r < n
    requires forall m :: 0 <= m < |keys| && keys[m] == r ==> vals[m] == 0
    ensures Scatter(keys, vals, n)[r] == 0
  {
    if keys != [] {
      var m := |keys| - 1;
      EmptyBucket(keys[..m], vals[..m], n, r);
      Units(0);
    }
  }

  lemma {:induction false} OneValueBucket(keys: seq<nat>, vals: Vec, n: nat, j: nat)
    requires |keys| == |vals| && AllBelow(keys, n) && j < |keys|
    requires forall m :: 0 <= m < |keys| && keys[m] == keys[j] && m != j ==> vals[m] == 0
    ensures Scatter(keys, vals, n)[keys[j]] == vals[j]
  {
    var m := |keys| - 1;
    Units(vals[j]);
    if m == j {
      EmptyBucket(keys[..m], vals[..m], n, keys[j]);
    } else {
      OneValueBucket(keys[..m], vals[..m], n, j);
    }
  }

  // ----- lists -----

  /** A merged list: wires in range, no wire pair twice, no zero coefficient. */
  ghost predicate Merged(ts: seq<RoundTerm>, k: nat)
  {
    ListFits(ts, Pow2(k)) && DistinctPairs(ts) && forall i :: 0 <= i < |ts| ==> ts[i].q != 0
  }

  predicate SamePair(t: RoundTerm, u: RoundTerm) { t.l == u.l && t.r == u.r }

  predicate DistinctPairs(ts: seq<RoundTerm>)
  {
    forall i, j :: 0 <= i < j < |ts| ==> !SamePair(ts[i], ts[j])
  }

  ghost predicate DistinctRights(ts: seq<RoundTerm>)
  {
    forall i, j :: 0 <= i < j < |ts| ==> ts[i].r != ts[j].r
  }

  ghost predicate SafeAt(ts: seq<RoundTerm>, left: Vec, scalar: Fp, k: nat)
    requires ListFits(ts, Pow2(k)) && AllBelow(ListRights(ts), Pow2(k))
  {
    SafeOrder(ListRights(ts), ListRightVals(ts, left, scalar), Pow2(k))
  }

  ghost predicate SafeEverywhere(ts: seq<RoundTerm>, k: nat)
    requires ListFits(ts, Pow2(k)) && AllBelow(ListRights(ts), Pow2(k))
  {
    forall left: Vec, scalar: Fp :: |left| == k ==> SafeAt(ts, left, scalar, k)
  }

  /** At the corner of the left wire of term j only that term is left of all with its right wire. */
  lemma CornerSwitch(ts: seq<RoundTerm>, k: nat, i: nat, j: nat)
    requires Merged(ts, k) && AllBelow(ListRights(ts), Pow2(k)) && i < j < |ts| && ts[i].r == ts[j].r
    ensures !SafeOrder(ListRights(ts), ListRightVals(ts, BitVec(ts[j].l, k), 1), Pow2(k))
  {
    hide Scatter, PrefixEq, BitVec, Pow2;
    var rs, vals, n := ListRights(ts), ListRightVals(ts, BitVec(ts[j].l, k), 1), Pow2(k);
    forall m | 0 <= m < |ts| && rs[m] == rs[j] ensures vals[m] == if m == j then ts[j].q else 0 {
      assert m < j ==> !SamePair(ts[m], ts[j]);
      assert j < m ==> !SamePair(ts[j], ts[m]);
      CornerWeight(ts[m].l, ts[j].l, k);
      Units(ts[m].q);
      Units(0);
    }
    EmptyBucket(rs[..j], vals[..j], n, rs[j]);
    OneValueBucket(rs, vals, n, j);
    assert rs[..j][i] == rs[j];
    assert ReturnsToZero(rs, vals, n, j);
  }

  /** A merged list is safe at every left point and scalar if and only if no right wire occurs twice in it. */
  lemma SafeEverywhereIff(ts: seq<RoundTerm>, k: nat)
    requires Merged(ts, k) && AllBelow(ListRights(ts), Pow2(k))
    ensures SafeEverywhere(ts, k) <==> DistinctRights(ts)
  {
    hide Scatter, PrefixEq, Pow2;
    var rs, n := ListRights(ts), Pow2(k);
    if SafeEverywhere(ts, k) {
      forall i, j | 0 <= i < j < |ts| ensures ts[i].r != ts[j].r {
        if ts[i].r == ts[j].r {
          assert SafeAt(ts, BitVec(ts[j].l, k), 1, k);
          CornerSwitch(ts, k, i, j);
        }
      }
    }
    if DistinctRights(ts) {
      forall left: Vec, scalar: Fp | |left| == k ensures SafeAt(ts, left, scalar, k) {
        var vals := ListRightVals(ts, left, scalar);
        forall j | 0 <= j < |ts| ensures !ReturnsToZero(rs, vals, n, j) {
          assert forall i :: 0 <= i < j ==> rs[..j][i] == ts[i].r;
        }
      }
    }
  }

  // ----- layers -----

  lemma {:induction false} NonzeroMerged(ts: seq<RoundTerm>)
    requires DistinctPairs(ts)
    ensures DistinctPairs(Nonzero(ts)) && forall i :: 0 <= i < |Nonzero(ts)| ==> Nonzero(ts)[i].q != 0
  {
    if ts != [] {
      var n := |ts| - 1;
      NonzeroMerged(ts[..n]);
      var before := Nonzero(ts[..n]);
      forall i | 0 <= i < |before| ensures !SamePair(before[i], ts[n]) {
        assert before[i] in ts[..n];
        var m :| 0 <= m < n && ts[..n][m] == before[i];
        assert ts[m] == before[i];
      }
      assert Nonzero(ts) == if ts[n].q == 0 then before else before + [ts[n]];
    }
  }

  /** The dense prover's list is merged. */
  lemma CompressedMerged(layer: Layer, q: Vec)
    requires layer.Valid() && |q| == |layer.terms|
    ensures AllBelow(ListRights(Compressed(layer.terms, q)), Pow2(layer.nextLog))
    ensures Merged(Compressed(layer.terms, q), layer.nextLog)
  {
    CompressedFits(layer, q);
    var grouped, o := GroupedTerms(layer.terms, q), Order(Pairs(layer.terms));
    forall i, j | 0 <= i < j < |grouped| ensures !SamePair(grouped[i], grouped[j]) {
      assert o[i] != o[j];
    }
    NonzeroMerged(grouped);
  }

  /** The switch of a layer is safe for all left points and scalars exactly if, after merging, every right wire is read
      together with one left wire only. */
  lemma SwitchSafeEverywhereIff(layer: Layer, q: Vec)
    requires layer.Valid() && |q| == |layer.terms|
    ensures (forall left: Vec, scalar: Fp :: |left| == layer.nextLog ==> SafeSwitch(layer, q, left, scalar))
       <==> DistinctRights(Compressed(layer.terms, q))
  {
    hide Compressed, SafeOrder, ListFits, DistinctRights;
    CompressedMerged(layer, q);
    CompressedFits(layer, q);
    var ts, k := Compressed(layer.terms, q), layer.nextLog;
    SafeEverywhereIff(ts, k);
    if SafeEverywhere(ts, k) {
      forall left: Vec, scalar: Fp | |left| == k ensures SafeSwitch(layer, q, left, scalar) {
        assert SafeAt(ts, left, scalar, k);
      }
    } else {
      var left: Vec, scalar: Fp :| |left| == k && !SafeAt(ts, left, scalar, k);
      assert !SafeSwitch(layer, q, left, scalar);
    }
  }

  /** Every right wire of the layer is read together with one left wire only. */
  predicate OneLeftPerRight(terms: seq<QuadTerm>)
  {
    forall i, j :: 0 <= i < j < |terms| && terms[i].r == terms[j].r ==> terms[i].l == terms[j].l
  }

  /** Then no weights, left point or scalar can make its switch unsafe. */
  lemma OneLeftIsSafe(layer: Layer, q: Vec, left: Vec, scalar: Fp)
    requires layer.Valid() && |q| == |layer.terms| && OneLeftPerRight(layer.terms) && |left| == layer.nextLog
    ensures SafeSwitch(layer, q, left, scalar)
  {
    hide SafeSwitch;
    CompressedMerged(layer, q);
    var ts := Compressed(layer.terms, q);
    forall i | 0 <= i < |ts| ensures exists k :: 0 <= k < |layer.terms| && layer.terms[k].l == ts[i].l && layer.terms[k].r == ts[i].r {
      FromTerm(layer, q, ts[i]);
    }
    forall i, j | 0 <= i < j < |ts| ensures ts[i].r != ts[j].r {
      assert !SamePair(ts[i], ts[j]);
    }
    SwitchSafeEverywhereIff(layer, q);
  }

  lemma FromTerm(layer: Layer, q: Vec, t: RoundTerm)
    requires layer.Valid() && |q| == |layer.terms| && t in Compressed(layer.terms, q)
    ensures exists k :: 0 <= k < |layer.terms| && layer.terms[k].l == t.l && layer.terms[k].r == t.r
  {
    var grouped, o := GroupedTerms(layer.terms, q), Order(Pairs(layer.terms));
    assert t in grouped;
    var g :| 0 <= g < |grouped| && grouped[g] == t;
    assert o[g] in Pairs(layer.terms);
    var k :| 0 <= k < |layer.terms| && Pairs(layer.terms)[k] == o[g];
  }
}
