/** Vectors over the field: the sums and bucket arrays every part of the proof system is built from. */
module Vectors {
  import opened Field

  function Zeros(n: nat): (v: Vec)
    ensures |v| == n && forall i :: 0 <= i < n ==> v[i] == 0
  {
    seq(n, _ => 0)
  }

  /** Inner product, accumulated from left to right. */
  function Dot(a: Vec, b: Vec): Fp
    requires |a| == |b|
  {
    if a == [] then 0
    else
      var n := |a| - 1;
      Add(Dot(a[..n], b[..n]), Mul(a[n], b[n]))
  }

  function Sum(a: Vec): Fp
  {
    if a == [] then 0 else Add(Sum(a[..|a| - 1]), a[|a| - 1])
  }

  function Scale(c: Fp, a: Vec): (r: Vec)
    ensures |r| == |a|
  {
    seq(|a|, i requires 0 <= i < |a| => Mul(c, a[i]))
  }

  function VAdd(a: Vec, b: Vec): (r: Vec)
    requires |a| == |b|
    ensures |r| == |a|
  {
    seq(|a|, i requires 0 <= i < |a| => Add(a[i], b[i]))
  }

  function VMul(a: Vec, b: Vec): (r: Vec)
    requires |a| == |b|
    ensures |r| == |a|
  {
    seq(|a|, i requires 0 <= i < |a| => Mul(a[i], b[i]))
  }

  lemma DotSnoc(a: Vec, b: Vec, x: Fp, y: Fp)
    requires |a| == |b|
    ensures Dot(a + [x], b + [y]) == Add(Dot(a, b), Mul(x, y))
  {
    assert (a + [x])[..|a|] == a && (b + [y])[..|b|] == b;
  }

  lemma {:induction false} DotConcat(a: Vec, b: Vec, a': Vec, b': Vec)
    requires |a| == |b| && |a'| == |b'|
    ensures Dot(a + a', b + b') == Add(Dot(a, b), Dot(a', b'))
  {
    if a' == [] {
      assert a + a' == a && b + b' == b;
      Units(Dot(a, b));
    } else {
      var n := |a'| - 1;
      DotConcat(a, b, a'[..n], b'[..n]);
      assert a + a' == (a + a'[..n]) + [a'[n]];
      assert b + b' == (b + b'[..n]) + [b'[n]];
      DotSnoc(a + a'[..n], b + b'[..n], a'[n], b'[n]);
      AddAssoc(Dot(a, b), Dot(a'[..n], b'[..n]), Mul(a'[n], b'[n]));
    }
  }

  lemma {:induction false} DotComm(a: Vec, b: Vec)
    requires |a| == |b|
    ensures Dot(a, b) == Dot(b, a)
  {
    if a != [] {
      var n := |a| - 1;
      DotComm(a[..n], b[..n]);
      MulComm(a[n], b[n]);
    }
  }

  lemma ScaleStep(c: Fp, s: Fp, x: Fp, y: Fp)
    ensures Add(Mul(c, s), Mul(Mul(c, x), y))
       == Mul(c, Add(s, Mul(x, y)))
  {
    Same(ZAdd(ZMul(c, s), ZMul(ZMul(c, x), y)),
         ZMul(c, ZAdd(s, ZMul(x, y))));
    hide *;
    Ring(c, s, x, y);
  }

  lemma {:induction false} DotScale(c: Fp, a: Vec, b: Vec)
    requires |a| == |b|
    ensures Dot(Scale(c, a), b) == Mul(c, Dot(a, b))
  {
    if a == [] {
      Units(c);
    } else {
      var n := |a| - 1;
      DotScale(c, a[..n], b[..n]);
      assert Scale(c, a)[..n] == Scale(c, a[..n]);
      ScaleStep(c, Dot(a[..n], b[..n]), a[n], b[n]);
    }
  }

  lemma AddStep(s: Fp, t: Fp, x: Fp, y: Fp, z: Fp)
    ensures Add(Add(s, t), Mul(Add(x, y), z))
       == Add(Add(s, Mul(x, z)), Add(t, Mul(y, z)))
  {
    Same(ZAdd(ZAdd(s, t), ZMul(ZAdd(x, y), z)),
         ZAdd(ZAdd(s, ZMul(x, z)), ZAdd(t, ZMul(y, z))));
    hide *;
    Ring(s, t, x, y, z);
  }

  lemma {:induction false} DotAdd(a: Vec, a': Vec, b: Vec)
    requires |a| == |a'| == |b|
    ensures Dot(VAdd(a, a'), b) == Add(Dot(a, b), Dot(a', b))
  {
    if a == [] {
      Units(0);
    } else {
      var n := |a| - 1;
      DotAdd(a[..n], a'[..n], b[..n]);
      assert VAdd(a, a')[..n] == VAdd(a[..n], a'[..n]);
      AddStep(Dot(a[..n], b[..n]), Dot(a'[..n], b[..n]), a[n], a'[n], b[n]);
    }
  }

  lemma {:induction false} DotZeros(b: Vec)
    ensures Dot(Zeros(|b|), b) == 0
  {
    if b != [] {
      var n := |b| - 1;
      DotZeros(b[..n]);
      assert Zeros(|b|)[..n] == Zeros(n);
      Units(b[n]);
      Units(0);
    }
  }

  lemma BumpLast(s: Fp, x: Fp, v: Fp, y: Fp)
    ensures Add(s, Mul(Add(x, v), y))
       == Add(Add(s, Mul(x, y)), Mul(v, y))
  {
    Same(ZAdd(s, ZMul(ZAdd(x, v), y)),
         ZAdd(ZAdd(s, ZMul(x, y)), ZMul(v, y)));
    hide *;
    Ring(s, x, v, y);
  }

  lemma {:induction false} SumIsDot(a: Vec, b: Vec, c: Vec)
    requires |a| == |b| == |c|
    requires forall i :: 0 <= i < |c| ==> c[i] == Mul(a[i], b[i])
    ensures Sum(c) == Dot(a, b)
  {
    if c != [] {
      var n := |c| - 1;
      SumIsDot(a[..n], b[..n], c[..n]);
    }
  }

  lemma DotNone(a: Vec, b: Vec)
    ensures Dot(a[..0], b[..0]) == 0
  {
  }

  lemma DotNext(a: Vec, b: Vec, k: nat)
    requires |a| == |b| && k < |a|
    ensures Dot(a[..k + 1], b[..k + 1]) == Add(Dot(a[..k], b[..k]), Mul(a[k], b[k]))
  {
    assert a[..k + 1][..k] == a[..k] && b[..k + 1][..k] == b[..k];
  }

  /** Adding v to one entry adds v times the matching entry to an inner product. */
  lemma {:induction false} DotBump(a: Vec, b: Vec, k: nat, v: Fp)
    requires |a| == |b| && k < |a|
    ensures Dot(a[k := Add(a[k], v)], b) == Add(Dot(a, b), Mul(v, b[k]))
  {
    var n := |a| - 1;
    var a' := a[k := Add(a[k], v)];
    if k == n {
      assert a'[..n] == a[..n];
      BumpLast(Dot(a[..n], b[..n]), a[n], v, b[n]);
    } else {
      DotBump(a[..n], b[..n], k, v);
      assert a'[..n] == a[..n][k := Add(a[k], v)];
      AddSwapLast(Dot(a[..n], b[..n]), Mul(v, b[k]), Mul(a[n], b[n]));
    }
  }

  // ----- bucket arrays -----

  predicate AllBelow(keys: seq<nat>, n: nat)
  {
    forall i :: 0 <= i < |keys| ==> keys[i] < n
  }

  /** Accumulate each value into the bucket its key names. */
  function Scatter(keys: seq<nat>, vals: Vec, n: nat): (b: Vec)
    requires |keys| == |vals| && AllBelow(keys, n)
    ensures |b| == n
  {
    if keys == [] then Zeros(n)
    else
      var m := |keys| - 1;
      var b := Scatter(keys[..m], vals[..m], n);
      b[keys[m] := Add(b[keys[m]], vals[m])]
  }

  lemma ScatterSnoc(keys: seq<nat>, vals: Vec, k: nat, v: Fp, n: nat)
    requires |keys| == |vals| && AllBelow(keys, n) && k < n
    ensures AllBelow(keys + [k], n)
    ensures Scatter(keys + [k], vals + [v], n) == var b := Scatter(keys, vals, n); b[k := Add(b[k], v)]
  {
    assert (keys + [k])[..|keys|] == keys && (vals + [v])[..|vals|] == vals;
  }

  lemma ScatterNone(keys: seq<nat>, vals: Vec, n: nat)
    ensures Scatter(keys[..0], vals[..0], n) == Zeros(n)
  {
  }

  lemma ScatterNext(keys: seq<nat>, vals: Vec, k: nat, n: nat)
    requires |keys| == |vals| && AllBelow(keys, n) && k < |keys|
    ensures Scatter(keys[..k + 1], vals[..k + 1], n)
         == var b := Scatter(keys[..k], vals[..k], n); b[keys[k] := Add(b[keys[k]], vals[k])]
  {
    assert keys[..k + 1][..k] == keys[..k] && vals[..k + 1][..k] == vals[..k];
  }

  /** Read the bucket each key names. */
  function Gather(w: Vec, keys: seq<nat>): (g: Vec)
    requires AllBelow(keys, |w|)
    ensures |g| == |keys|
  {
    seq(|keys|, i requires 0 <= i < |keys| => w[keys[i]])
  }

  /** Scatter and Gather are adjoint. */
  lemma {:induction false} ScatterDot(keys: seq<nat>, vals: Vec, w: Vec)
    requires |keys| == |vals| && AllBelow(keys, |w|)
    ensures Dot(Scatter(keys, vals, |w|), w) == Dot(vals, Gather(w, keys))
  {
    if keys == [] {
      DotZeros(w);
    } else {
      var m := |keys| - 1;
      ScatterDot(keys[..m], vals[..m], w);
      DotBump(Scatter(keys[..m], vals[..m], |w|), w, keys[m], vals[m]);
      assert Gather(w, keys)[..m] == Gather(w, keys[..m]);
    }
  }

  /** The indicator vector of position k. */
  function Unit(n: nat, k: nat): (u: Vec)
    requires k < n
    ensures |u| == n
  {
    Zeros(n)[k := 1]
  }

  lemma DotUnit(a: Vec, k: nat)
    requires k < |a|
    ensures Dot(a, Unit(|a|, k)) == a[k]
  {
    DotComm(a, Unit(|a|, k));
    Units(1);
    DotBump(Zeros(|a|), a, k, 1);
    DotZeros(a);
    Units(a[k]);
  }
}
