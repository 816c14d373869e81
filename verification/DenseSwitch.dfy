/** The dense prover's switch to the right phase (`bind_right_phase_terms` in sumcheck.rs).

    It lists a right index whenever the running sum of that index is zero, so an index whose sum returns to
    zero before a later term is listed twice and counted twice. The table it denotes is the true one exactly when
    no such index ends with a non-zero sum. */
module DenseSwitch {
  import opened Field
  import opened Modulus
  import opened Vectors
  import opened Bits
  import opened Circuits
  import opened LayerSums
  import opened TermLists

  /** The indices the loop pushes: one for every term that finds its running sum at zero. */
  function Active(rs: seq<nat>, vals: Vec, n: nat): (a: seq<nat>)
    requires |rs| == |vals| && AllBelow(rs, n)
    ensures AllBelow(a, n) && |a| <= |rs|
  {
    if rs == [] then []
    else
      var m := |rs| - 1;
      var a := Active(rs[..m], vals[..m], n);
      if Scatter(rs[..m], vals[..m], n)[rs[m]] == 0 then a + [rs[m]] else a
  }

  lemma ActiveNone(rs: seq<nat>, vals: Vec, n: nat)
    ensures Active(rs[..0], vals[..0], n) == []
  {
  }

  lemma ActiveNext(rs: seq<nat>, vals: Vec, k: nat, n: nat)
    requires |rs| == |vals| && AllBelow(rs, n) && k < |rs|
    ensures var a := Active(rs[..k], vals[..k], n);
            Active(rs[..k + 1], vals[..k + 1], n) == if Scatter(rs[..k], vals[..k], n)[rs[k]] == 0 then a + [rs[k]] else a
  {
    hide Scatter;
    assert rs[..k + 1][..k] == rs[..k] && vals[..k + 1][..k] == vals[..k];
  }

  /** The pushed indices whose final sum is not zero. */
  function Kept(a: seq<nat>, b: Vec): (k: seq<nat>)
    requires AllBelow(a, |b|)
    ensures AllBelow(k, |b|) && |k| <= |a|
  {
    if a == [] then []
    else
      var m := |a| - 1;
      if b[a[m]] != 0 then Kept(a[..m], b) + [a[m]] else Kept(a[..m], b)
  }

  /** The table that the listed right-phase terms denote. */
  function DenseTable(rs: seq<nat>, vals: Vec, n: nat): (d: Vec)
    requires |rs| == |vals| && AllBelow(rs, n)
    ensures |d| == n
  {
    var b := Scatter(rs, vals, n);
    var kept := Kept(Active(rs, vals, n), b);
    Scatter(kept, Gather(b, kept), n)
  }

  /** Term k finds a zero sum although its index was seen before. */
  ghost predicate ReturnsToZero(rs: seq<nat>, vals: Vec, n: nat, k: nat)
    requires |rs| == |vals| && AllBelow(rs, n) && k < |rs|
  {
    rs[k] in rs[..k] && Scatter(rs[..k], vals[..k], n)[rs[k]] == 0
  }

  /** Every index whose running sum returned to zero before a later term also ends at zero. */
  ghost predicate SafeOrder(rs: seq<nat>, vals: Vec, n: nat)
    requires |rs| == |vals| && AllBelow(rs, n)
  {
    forall k :: 0 <= k < |rs| && ReturnsToZero(rs, vals, n, k) ==> Scatter(rs, vals, n)[rs[k]] == 0
  }

  function Count(s: seq<nat>, r: nat): (c: nat)
    ensures c <= |s|
  {
    if s == [] then 0 else Count(s[..|s| - 1], r) + (if s[|s| - 1] == r then 1 else 0)
  }

  lemma NoCount(r: nat)
    ensures Count([], r) == 0
  {
  }

  /** What the last push does to the count of r, to the sum of r ... */
  lemma LastPush(rs: seq<nat>, vals: Vec, n: nat, r: nat)
    requires |rs| == |vals| && AllBelow(rs, n) && rs != [] && r < n
    ensures var m := |rs| - 1;
            var listed := rs[m] == r && Scatter(rs[..m], vals[..m], n)[r] == 0;
            && Count(Active(rs, vals, n), r) == Count(Active(rs[..m], vals[..m], n), r) + (if listed then 1 else 0)
            && (rs[m] != r ==> Scatter(rs, vals, n)[r] == Scatter(rs[..m], vals[..m], n)[r])
  {
    var m := |rs| - 1;
    var a' := Active(rs[..m], vals[..m], n);
    assert (a' + [rs[m]])[..|a'|] == a';
  }

  /** ... and to the returns of r. */
  lemma ReturnsNext(rs: seq<nat>, vals: Vec, n: nat, r: nat)
    requires |rs| == |vals| && AllBelow(rs, n) && rs != [] && r < n
    ensures var m := |rs| - 1;
            (exists k :: 0 <= k < |rs| && rs[k] == r && ReturnsToZero(rs, vals, n, k))
            <==> (exists k :: 0 <= k < m && rs[..m][k] == r && ReturnsToZero(rs[..m], vals[..m], n, k))
                 || (rs[m] == r && r in rs[..m] && Scatter(rs[..m], vals[..m], n)[r] == 0)
  {
    hide Scatter;
    var m := |rs| - 1;
    forall k | 0 <= k < m ensures ReturnsToZero(rs, vals, n, k) == ReturnsToZero(rs[..m], vals[..m], n, k) {
      assert rs[..m][..k] == rs[..k] && vals[..m][..k] == vals[..k];
    }
    assert ReturnsToZero(rs, vals, n, m) == (rs[m] in rs[..m] && Scatter(rs[..m], vals[..m], n)[rs[m]] == 0);
    forall k | 0 <= k < m && rs[..m][k] == r && ReturnsToZero(rs[..m], vals[..m], n, k)
      ensures rs[k] == r && ReturnsToZero(rs, vals, n, k)
    {
    }
  }

  lemma {:induction false} ActiveCount(rs: seq<nat>, vals: Vec, n: nat, r: nat)
    requires |rs| == |vals| && AllBelow(rs, n) && r < n
    ensures r !in rs ==> Count(Active(rs, vals, n), r) == 0 && Scatter(rs, vals, n)[r] == 0
    ensures r in rs ==> Count(Active(rs, vals, n), r) >= 1
    ensures Count(Active(rs, vals, n), r) >= 2 <==>
              exists k :: 0 <= k < |rs| && rs[k] == r && ReturnsToZero(rs, vals, n, k)
  {
    hide Scatter, ReturnsToZero, Count;
    if rs == [] {
      assert Count([], r) == 0 by { NoCount(r); }
      ScatterNone(rs, vals, n);
    } else {
      var m := |rs| - 1;
      ActiveCount(rs[..m], vals[..m], n, r);
      LastPush(rs, vals, n, r);
      ReturnsNext(rs, vals, n, r);
      assert r in rs <==> r in rs[..m] || rs[m] == r by { assert rs == rs[..m] + [rs[m]]; }
    }
  }

  lemma {:induction false} KeptCount(a: seq<nat>, b: Vec, r: nat)
    requires AllBelow(a, |b|) && r < |b|
    ensures Count(Kept(a, b), r) == if b[r] == 0 then 0 else Count(a, r)
  {
    if a != [] {
      var m := |a| - 1;
      KeptCount(a[..m], b, r);
      var k := Kept(a, b);
      assert b[a[m]] != 0 ==> k[..|k| - 1] == Kept(a[..m], b);
    }
  }

  lemma OneMore(c: Fp, x: Fp)
    ensures Add(Mul(c, x), x)
       == Mul(Add(c, 1), x)
  {
    Same(ZAdd(ZMul(c, x), x),
         ZMul(ZAdd(c, 1), x));
    hide *;
    Ring(c, x);
  }

  /** Listing an index c times counts its value c times. */
  lemma {:induction false} ListedTimes(keys: seq<nat>, b: Vec, r: nat)
    requires AllBelow(keys, |b|) && r < |b|
    ensures Scatter(keys, Gather(b, keys), |b|)[r] == Mul(R(Count(keys, r)), b[r])
  {
    hide R;
    if keys == [] {
      Canonical(0);
      Units(b[r]);
    } else {
      var m := |keys| - 1;
      ListedTimes(keys[..m], b, r);
      assert Gather(b, keys)[..m] == Gather(b, keys[..m]);
      var c := Count(keys[..m], r);
      OneMore(R(c), b[r]);
      RAdd(c, 1);
      Canonical(1);
    }
  }

  lemma TableAt(rs: seq<nat>, vals: Vec, n: nat, r: nat)
    requires |rs| == |vals| && AllBelow(rs, n) && r < n
    ensures var b := Scatter(rs, vals, n);
            DenseTable(rs, vals, n)[r] == if b[r] == 0 then 0 else Mul(R(Count(Active(rs, vals, n), r)), b[r])
  {
    hide R, Scatter;
    var b := Scatter(rs, vals, n);
    var kept := Kept(Active(rs, vals, n), b);
    ListedTimes(kept, b, r);
    KeptCount(Active(rs, vals, n), b, r);
    Units(R(Count(kept, r)));
  }

  lemma OnlyOnce(c: nat, x: Fp)
    requires c <= U64_MAX && x != 0
    ensures Mul(R(c), x) == x <==> c == 1
  {
    SmallDistinct(c, 1);
    hide R;
    Units(x);
    if Mul(R(c), x) == x {
      MulComm(R(c), x);
      MulComm(1, x);
      CancelMul(R(c), 1, x);
    }
  }

  /** The listed terms denote the true table if and only if the order of terms is safe. */
  lemma TableIsTrueIffSafe(rs: seq<nat>, vals: Vec, n: nat)
    requires |rs| == |vals| <= U64_MAX && AllBelow(rs, n)
    ensures DenseTable(rs, vals, n) == Scatter(rs, vals, n) <==> SafeOrder(rs, vals, n)
  {
    hide R, DenseTable, Scatter;
    var b, d := Scatter(rs, vals, n), DenseTable(rs, vals, n);
    forall r | 0 <= r < n
      ensures d[r] == b[r] <==> (b[r] == 0 || Count(Active(rs, vals, n), r) == 1)
      ensures b[r] != 0 ==> Count(Active(rs, vals, n), r) >= 1
      ensures Count(Active(rs, vals, n), r) >= 2 <==> exists k :: 0 <= k < |rs| && rs[k] == r && ReturnsToZero(rs, vals, n, k)
    {
      TableAt(rs, vals, n, r);
      ActiveCount(rs, vals, n, r);
      if b[r] != 0 {
        OnlyOnce(Count(Active(rs, vals, n), r), b[r]);
      }
    }
    if d == b {
      forall k | 0 <= k < |rs| && ReturnsToZero(rs, vals, n, k) ensures b[rs[k]] == 0 {
        assert Count(Active(rs, vals, n), rs[k]) >= 2;
      }
    }
    if SafeOrder(rs, vals, n) {
      forall r | 0 <= r < n ensures d[r] == b[r] {
        if Count(Active(rs, vals, n), r) >= 2 {
          var k :| 0 <= k < |rs| && rs[k] == r && ReturnsToZero(rs, vals, n, k);
        }
      }
    }
  }

  // ----- the same for a layer -----

  function DenseRightCoeffs(layer: Layer, q: Vec, left: Vec, scalar: Fp): (d: Vec)
    requires layer.Valid() && |q| == |layer.terms|
    ensures |d| == Pow2(layer.nextLog)
  {
    var ts := Compressed(layer.terms, q);
    CompressedFits(layer, q);
    DenseTable(ListRights(ts), ListRightVals(ts, left, scalar), Pow2(layer.nextLog))
  }

  lemma CompressedFits(layer: Layer, q: Vec)
    requires layer.Valid() && |q| == |layer.terms|
    ensures var ts := Compressed(layer.terms, q);
            && ListFits(ts, Pow2(layer.nextLog)) && AllBelow(ListRights(ts), Pow2(layer.nextLog))
            && |ts| <= |layer.terms|
  {
    GroupedFits(layer, q);
    NonzeroFits(GroupedTerms(layer.terms, q), Pow2(layer.nextLog));
    OrderLength(Pairs(layer.terms));
  }

  lemma {:induction false} OrderLength<T(!new)>(keys: seq<T>)
    ensures |Order(keys)| <= |keys|
  {
    if keys != [] {
      OrderLength(keys[..|keys| - 1]);
    }
  }

  /** What the dense prover needs at the switch: after merging, no right index returns to zero and then ends
      elsewhere. */
  ghost predicate SafeSwitch(layer: Layer, q: Vec, left: Vec, scalar: Fp)
    requires layer.Valid() && |q| == |layer.terms|
  {
    var ts := Compressed(layer.terms, q);
    CompressedFits(layer, q);
    SafeOrder(ListRights(ts), ListRightVals(ts, left, scalar), Pow2(layer.nextLog))
  }

  lemma DenseSwitchIffSafe(layer: Layer, q: Vec, w: Vec, left: Vec, scalar: Fp)
    requires layer.Valid() && |q| == |layer.terms| <= U64_MAX && |w| == Pow2(layer.nextLog)
    ensures DenseRightCoeffs(layer, q, left, scalar) == RightCoeffs(layer, q, left, scalar)
       <==> SafeSwitch(layer, q, left, scalar)
  {
    hide R, Scatter, DenseTable, Compressed;
    var ts := Compressed(layer.terms, q);
    CompressedFits(layer, q);
    DenseListStands(layer, q, w);
    TableIsTrueIffSafe(ListRights(ts), ListRightVals(ts, left, scalar), Pow2(layer.nextLog));
  }
}
