/** The circle Fourier transform and its inverse as functions on vectors (circle_fft.rs): the butterflies, the twiddle
    tower of a mirror-paired domain, and what the transform computes. */
module CircleTransform {
  import opened Field
  import opened Vectors
  import opened Bits
  import opened CircleGroup
  import opened CircleBasis

  // ----- bit reversal -----

  function Reverse(i: nat, k: nat): (r: nat)
    ensures r < Pow2(k)
    decreases k
  {
    if k == 0 then 0 else (if i % 2 == 1 then Pow2(k - 1) else 0) + Reverse(i / 2, k - 1)
  }

  lemma {:induction false} ReverseHalves(i: nat, k: nat)
    requires i < Pow2(k)
    ensures Reverse(i, k + 1) == 2 * Reverse(i, k)
    ensures Reverse(i + Pow2(k), k + 1) == 2 * Reverse(i, k) + 1
    decreases k
  {
    if k > 0 {
      ReverseHalves(i / 2, k - 1);
      assert (i + Pow2(k)) / 2 == i / 2 + Pow2(k - 1);
      assert (i + Pow2(k)) % 2 == i % 2;
    }
  }

  lemma {:induction false} ReverseTwice(i: nat, k: nat)
    requires i < Pow2(k)
    ensures Reverse(Reverse(i, k), k) == i
    decreases k
  {
    if k > 0 {
      ReverseTwice(i / 2, k - 1);
      ReverseHalves(Reverse(i / 2, k - 1), k - 1);
    }
  }

  function BitReversed(v: Vec, k: nat): (r: Vec)
    requires |v| == Pow2(k)
    ensures |r| == |v|
  {
    seq(|v|, i requires 0 <= i < |v| => v[Reverse(i, k)])
  }

  lemma BitReversedTwice(v: Vec, k: nat)
    requires |v| == Pow2(k)
    ensures BitReversed(BitReversed(v, k), k) == v
  {
    forall i | 0 <= i < |v| ensures BitReversed(BitReversed(v, k), k)[i] == v[i] {
      ReverseTwice(i, k);
    }
  }

  lemma BitReversedScale(c: Fp, v: Vec, k: nat)
    requires |v| == Pow2(k)
    ensures BitReversed(Scale(c, v), k) == Scale(c, BitReversed(v, k))
  {
  }

  lemma BitReversedSplitAt(v: Vec, k: nat, i: nat)
    requires |v| == Pow2(k + 1) && i < Pow2(k)
    ensures BitReversed(v, k + 1)[i] == BitReversed(Evens(v), k)[i]
    ensures BitReversed(v, k + 1)[i + Pow2(k)] == BitReversed(Odds(v), k)[i]
  {
    hide Reverse, Pow2;
    var r := Reverse(i, k);
    ReverseHalves(i, k);
    assert |v| == 2 * Pow2(k) by { Pow2Next(k); }
    assert Evens(v)[r] == v[2 * r] && Odds(v)[r] == v[2 * r + 1];
  }

  lemma BitReversedSplit(v: Vec, k: nat)
    requires |v| == Pow2(k + 1)
    ensures BitReversed(v, k + 1)[..Pow2(k)] == BitReversed(Evens(v), k)
    ensures BitReversed(v, k + 1)[Pow2(k)..] == BitReversed(Odds(v), k)
  {
    assert |v| == 2 * Pow2(k);
    hide BitReversed, Evens, Odds, Pow2;
    var r := BitReversed(v, k + 1);
    forall i | 0 <= i < Pow2(k) ensures r[..Pow2(k)][i] == BitReversed(Evens(v), k)[i] {
      BitReversedSplitAt(v, k, i);
    }
    forall i | 0 <= i < Pow2(k) ensures r[Pow2(k)..][i] == BitReversed(Odds(v), k)[i] {
      BitReversedSplitAt(v, k, i);
    }
  }

  // ----- butterflies -----

  function ButterflySlot(lo: Vec, hi: Vec, tw: Vec, i: nat): Fp
    requires |lo| == |hi| == |tw| && i < 2 * |lo|
  {
    if i < |lo| then Add(lo[i], Mul(tw[i], hi[i]))
    else
      var j := 2 * |lo| - 1 - i;
      Sub(lo[j], Mul(tw[j], hi[j]))
  }

  /** Slot i gets lo + tw hi, its mirror slot lo - tw hi. */
  function Butterfly(lo: Vec, hi: Vec, tw: Vec): (b: Vec)
    requires |lo| == |hi| == |tw|
    ensures |b| == 2 * |lo|
    ensures forall i :: 0 <= i < |b| ==> b[i] == ButterflySlot(lo, hi, tw, i)
  {
    seq(2 * |lo|, i requires 0 <= i < 2 * |lo| => ButterflySlot(lo, hi, tw, i))
  }

  function UnbutterflySlot(b: Vec, itw: Vec, i: nat): Fp
    requires |b| == 2 * |itw| && i < |b|
  {
    var h := |itw|;
    if i < h then Add(b[i], b[2 * h - 1 - i])
    else
      var j := i - h;
      Mul(Sub(b[j], b[2 * h - 1 - j]), itw[j])
  }

  /** The sums in the lower half, the differences over their twiddles in the upper half. */
  function Unbutterfly(b: Vec, itw: Vec): (r: Vec)
    requires |b| == 2 * |itw|
    ensures |r| == |b|
    ensures forall i :: 0 <= i < |b| ==> r[i] == UnbutterflySlot(b, itw, i)
  {
    seq(|b|, i requires 0 <= i < |b| => UnbutterflySlot(b, itw, i))
  }

  predicate Inverses(tw: Vec, itw: Vec)
  {
    |tw| == |itw| && forall i :: 0 <= i < |tw| ==> Mul(tw[i], itw[i]) == 1
  }

  lemma SumOfPair(l: Fp, t: Fp)
    ensures Add(Add(l, t), Sub(l, t))
       == Mul(2, l)
  {
    Same(ZAdd(ZAdd(l, t), ZSub(l, t)),
         ZMul(2, l));
    hide *;
    Ring(l, t);
  }

  lemma DifferenceOfPair(l: Fp, w: Fp, h: Fp, v: Fp)
    ensures Mul(Sub(Add(l, Mul(w, h)), Sub(l, Mul(w, h))), v)
       == Mul(Mul(2, h), Mul(w, v))
  {
    Same(ZMul(ZSub(ZAdd(l, ZMul(w, h)), ZSub(l, ZMul(w, h))), v),
         ZMul(ZMul(2, h), ZMul(w, v)));
    hide *;
    Ring(l, w, h, v);
  }

  lemma RebuildPlus(p: Fp, q: Fp, w: Fp, v: Fp)
    ensures Add(Add(p, q), Mul(w, Mul(Sub(p, q), v)))
       == Add(Add(p, q), Mul(Sub(p, q), Mul(w, v)))
  {
    Same(ZAdd(ZAdd(p, q), ZMul(w, ZMul(ZSub(p, q), v))),
         ZAdd(ZAdd(p, q), ZMul(ZSub(p, q), ZMul(w, v))));
    hide *;
    Ring(p, q, w, v);
  }

  lemma RebuildMinus(p: Fp, q: Fp, w: Fp, v: Fp)
    ensures Sub(Add(p, q), Mul(w, Mul(Sub(p, q), v)))
       == Sub(Add(p, q), Mul(Sub(p, q), Mul(w, v)))
  {
    Same(ZSub(ZAdd(p, q), ZMul(w, ZMul(ZSub(p, q), v))),
         ZSub(ZAdd(p, q), ZMul(ZSub(p, q), ZMul(w, v))));
    hide *;
    Ring(p, q, w, v);
  }

  lemma MinusPair(p: Fp, q: Fp)
    ensures Sub(Add(p, q), Sub(p, q))
       == Mul(2, q)
  {
    Same(ZSub(ZAdd(p, q), ZSub(p, q)),
         ZMul(2, q));
    hide *;
    Ring(p, q);
  }

  lemma ScaleMinus(c: Fp, l: Fp, w: Fp, h: Fp)
    ensures Sub(Mul(c, l), Mul(w, Mul(c, h)))
       == Mul(c, Sub(l, Mul(w, h)))
  {
    Same(ZSub(ZMul(c, l), ZMul(w, ZMul(c, h))),
         ZMul(c, ZSub(l, ZMul(w, h))));
    hide *;
    Ring(c, l, w, h);
  }

  lemma ScaleDifference(c: Fp, p: Fp, q: Fp, v: Fp)
    ensures Mul(Sub(Mul(c, p), Mul(c, q)), v)
       == Mul(c, Mul(Sub(p, q), v))
  {
    Same(ZMul(ZSub(ZMul(c, p), ZMul(c, q)), v),
         ZMul(c, ZMul(ZSub(p, q), v)));
    hide *;
    Ring(c, p, q, v);
  }

  lemma UnbutterflyButterfly(lo: Vec, hi: Vec, tw: Vec, itw: Vec)
    requires |lo| == |hi| == |tw| && Inverses(tw, itw)
    ensures Unbutterfly(Butterfly(lo, hi, tw), itw) == Scale(2, lo + hi)
  {
    hide Butterfly, Unbutterfly;
    var h := |lo|;
    var b := Butterfly(lo, hi, tw);
    forall i | 0 <= i < 2 * h ensures Unbutterfly(b, itw)[i] == Scale(2, lo + hi)[i] {
      var j := if i < h then i else i - h;
      SumOfPair(lo[j], Mul(tw[j], hi[j]));
      DifferenceOfPair(lo[j], tw[j], hi[j], itw[j]);
      Units(Mul(2, hi[j]));
      assert b[j] == ButterflySlot(lo, hi, tw, j);
      assert b[2 * h - 1 - j] == ButterflySlot(lo, hi, tw, 2 * h - 1 - j);
    }
  }

  lemma ButterflyUnbutterfly(b: Vec, tw: Vec, itw: Vec)
    requires |b| == 2 * |tw| && Inverses(tw, itw)
    ensures var r := Unbutterfly(b, itw); Butterfly(r[..|tw|], r[|tw|..], tw) == Scale(2, b)
  {
    hide Butterfly, Unbutterfly;
    var h := |tw|;
    var r := Unbutterfly(b, itw);
    var s := Butterfly(r[..h], r[h..], tw);
    forall i | 0 <= i < 2 * h ensures s[i] == Scale(2, b)[i] {
      var j := if i < h then i else 2 * h - 1 - i;
      var p, q := b[j], b[2 * h - 1 - j];
      assert r[..h][j] == r[j] == UnbutterflySlot(b, itw, j) == Add(p, q);
      assert r[h..][j] == r[h + j] == UnbutterflySlot(b, itw, h + j) == Mul(Sub(p, q), itw[j]);
      RebuildPlus(p, q, tw[j], itw[j]);
      RebuildMinus(p, q, tw[j], itw[j]);
      Units(Sub(p, q));
      SumOfPair(p, q);
      MinusPair(p, q);
    }
  }

  lemma ButterflyScale(c: Fp, lo: Vec, hi: Vec, tw: Vec)
    requires |lo| == |hi| == |tw|
    ensures Butterfly(Scale(c, lo), Scale(c, hi), tw) == Scale(c, Butterfly(lo, hi, tw))
  {
    hide Butterfly;
    var h := |lo|;
    forall i | 0 <= i < 2 * h
      ensures Butterfly(Scale(c, lo), Scale(c, hi), tw)[i] == Scale(c, Butterfly(lo, hi, tw))[i]
    {
      var j := if i < h then i else 2 * h - 1 - i;
      PullFactor(c, lo[j], tw[j], hi[j]);
      ScaleMinus(c, lo[j], tw[j], hi[j]);
    }
  }

  lemma UnbutterflyScale(c: Fp, b: Vec, itw: Vec)
    requires |b| == 2 * |itw|
    ensures Unbutterfly(Scale(c, b), itw) == Scale(c, Unbutterfly(b, itw))
  {
    hide Unbutterfly;
    var h := |itw|;
    forall i | 0 <= i < 2 * h ensures Unbutterfly(Scale(c, b), itw)[i] == Scale(c, Unbutterfly(b, itw))[i] {
      var j := if i < h then i else i - h;
      Distrib(c, b[j], b[2 * h - 1 - j]);
      ScaleDifference(c, b[j], b[2 * h - 1 - j], itw[j]);
      assert UnbutterflySlot(Scale(c, b), itw, i) == Mul(c, UnbutterflySlot(b, itw, i));
    }
  }

  // ----- the transform of a twiddle tower -----

  /** Level l holds 2^(k - 1 - l) twiddles: as many as half a block of that level. */
  predicate Tower(tws: seq<Vec>)
  {
    forall l :: 0 <= l < |tws| ==> |tws[l]| == Pow2(|tws| - 1 - l)
  }

  lemma TowerTail(tws: seq<Vec>)
    requires tws != [] && Tower(tws)
    ensures Tower(tws[1..]) && Pow2(|tws|) == 2 * |tws[0]| && |tws[0]| == Pow2(|tws[1..]|)
  {
    forall l | 0 <= l < |tws[1..]| ensures |tws[1..][l]| == Pow2(|tws[1..]| - 1 - l) {
      assert tws[1..][l] == tws[l + 1];
    }
  }

  function Forward(v: Vec, tws: seq<Vec>): (r: Vec)
    requires Tower(tws) && |v| == Pow2(|tws|)
    ensures |r| == |v|
    decreases |tws|
  {
    if tws == [] then v
    else
      TowerTail(tws);
      var h := |tws[0]|;
      Butterfly(Forward(v[..h], tws[1..]), Forward(v[h..], tws[1..]), tws[0])
  }

  function Backward(v: Vec, itws: seq<Vec>): (r: Vec)
    requires Tower(itws) && |v| == Pow2(|itws|)
    ensures |r| == |v|
    decreases |itws|
  {
    if itws == [] then v
    else
      TowerTail(itws);
      var h := |itws[0]|;
      var b := Unbutterfly(v, itws[0]);
      Backward(b[..h], itws[1..]) + Backward(b[h..], itws[1..])
  }

  ghost predicate InverseTowers(tws: seq<Vec>, itws: seq<Vec>)
  {
    && Tower(tws) && Tower(itws) && |tws| == |itws|
    && forall l :: 0 <= l < |tws| ==> Inverses(tws[l], itws[l])
  }

  lemma InverseTail(tws: seq<Vec>, itws: seq<Vec>)
    requires tws != [] && InverseTowers(tws, itws)
    ensures InverseTowers(tws[1..], itws[1..]) && Inverses(tws[0], itws[0])
  {
    TowerTail(tws);
    TowerTail(itws);
    forall l | 0 <= l < |tws[1..]| ensures Inverses(tws[1..][l], itws[1..][l]) {
      assert tws[1..][l] == tws[l + 1] && itws[1..][l] == itws[l + 1];
    }
  }

  lemma {:induction false} ForwardScale(c: Fp, v: Vec, tws: seq<Vec>)
    requires Tower(tws) && |v| == Pow2(|tws|)
    ensures Forward(Scale(c, v), tws) == Scale(c, Forward(v, tws))
    decreases |tws|
  {
    if tws != [] {
      TowerTail(tws);
      var h := |tws[0]|;
      assert Scale(c, v)[..h] == Scale(c, v[..h]) && Scale(c, v)[h..] == Scale(c, v[h..]);
      ForwardScale(c, v[..h], tws[1..]);
      ForwardScale(c, v[h..], tws[1..]);
      ButterflyScale(c, Forward(v[..h], tws[1..]), Forward(v[h..], tws[1..]), tws[0]);
    }
  }

  lemma {:induction false} BackwardScale(c: Fp, v: Vec, itws: seq<Vec>)
    requires Tower(itws) && |v| == Pow2(|itws|)
    ensures Backward(Scale(c, v), itws) == Scale(c, Backward(v, itws))
    decreases |itws|
  {
    hide Unbutterfly;
    if itws != [] {
      TowerTail(itws);
      var h := |itws[0]|;
      UnbutterflyScale(c, v, itws[0]);
      var b := Unbutterfly(v, itws[0]);
      assert Scale(c, b)[..h] == Scale(c, b[..h]) && Scale(c, b)[h..] == Scale(c, b[h..]);
      BackwardScale(c, b[..h], itws[1..]);
      BackwardScale(c, b[h..], itws[1..]);
    }
  }

  /** 2^k in the field. */
  function Two(k: nat): Fp { if k == 0 then 1 else Mul(2, Two(k - 1)) }

  lemma ScaleScale(a: Fp, b: Fp, v: Vec)
    ensures Scale(a, Scale(b, v)) == Scale(Mul(b, a), v) == Scale(Mul(a, b), v)
  {
    MulComm(a, b);
    forall i | 0 <= i < |v| ensures Mul(a, Mul(b, v[i])) == Mul(Mul(a, b), v[i]) {
      MulAssoc(a, b, v[i]);
    }
  }

  lemma ScaleOne(v: Vec)
    ensures Scale(1, v) == v
  {
    forall i | 0 <= i < |v| ensures Mul(1, v[i]) == v[i] { Units(v[i]); }
  }

  lemma {:induction false} BackwardForward(v: Vec, tws: seq<Vec>, itws: seq<Vec>)
    requires InverseTowers(tws, itws) && |v| == Pow2(|tws|)
    ensures Backward(Forward(v, tws), itws) == Scale(Two(|tws|), v)
    decreases |tws|
  {
    hide Butterfly, Unbutterfly, Pow2, Tower, Inverses, Scale;
    if tws == [] {
      ScaleOne(v);
    } else {
      TowerTail(tws);
      TowerTail(itws);
      InverseTail(tws, itws);
      var h := |tws[0]|;
      var lo, hi := Forward(v[..h], tws[1..]), Forward(v[h..], tws[1..]);
      UnbutterflyButterfly(lo, hi, tws[0], itws[0]);
      ScaleHalves(2, lo + hi, h);
      BackwardScale(2, lo, itws[1..]);
      BackwardScale(2, hi, itws[1..]);
      BackwardForward(v[..h], tws[1..], itws[1..]);
      BackwardForward(v[h..], tws[1..], itws[1..]);
      ScaleScale(2, Two(|tws| - 1), v[..h]);
      ScaleScale(2, Two(|tws| - 1), v[h..]);
      ScaleHalves(Two(|tws|), v, h);
    }
  }

  lemma ScaleHalves(c: Fp, v: Vec, h: nat)
    requires h <= |v|
    ensures Scale(c, v)[..h] == Scale(c, v[..h]) && Scale(c, v)[h..] == Scale(c, v[h..])
    ensures Scale(c, v[..h]) + Scale(c, v[h..]) == Scale(c, v)
  {
  }

  lemma ForwardJoin(lo: Vec, hi: Vec, tws: seq<Vec>)
    requires tws != [] && Tower(tws) && |lo| == |hi| == |tws[0]|
    ensures Tower(tws[1..]) && Pow2(|tws[1..]|) == |lo| && |lo + hi| == Pow2(|tws|)
    ensures Forward(lo + hi, tws) == Butterfly(Forward(lo, tws[1..]), Forward(hi, tws[1..]), tws[0])
  {
    hide Butterfly;
    TowerTail(tws);
    assert (lo + hi)[..|lo|] == lo && (lo + hi)[|lo|..] == hi;
  }

  lemma ForwardNone(v: Vec)
    requires |v| == 1
    ensures Forward(v, []) == Backward(v, []) == v && Two(0) == 1
  {
  }

  lemma {:induction false} ForwardBackward(v: Vec, tws: seq<Vec>, itws: seq<Vec>)
    requires InverseTowers(tws, itws) && |v| == Pow2(|tws|)
    ensures Forward(Backward(v, itws), tws) == Scale(Two(|tws|), v)
    decreases |tws|
  {
    hide Butterfly, Unbutterfly, Forward, Scale, Tower, Inverses;
    if tws == [] {
      ForwardNone(v);
      ScaleOne(v);
    } else {
      TowerTail(tws);
      TowerTail(itws);
      InverseTail(tws, itws);
      var h := |tws[0]|;
      var b := Unbutterfly(v, itws[0]);
      var lo, hi := Backward(b[..h], itws[1..]), Backward(b[h..], itws[1..]);
      ForwardJoin(lo, hi, tws);
      ForwardBackward(b[..h], tws[1..], itws[1..]);
      ForwardBackward(b[h..], tws[1..], itws[1..]);
      var c := Two(|tws| - 1);
      ButterflyScale(c, b[..h], b[h..], tws[0]);
      ButterflyUnbutterfly(v, tws[0], itws[0]);
      ScaleScale(c, 2, v);
    }
  }

  // ----- the tower of a grid, and what its transform computes -----

  function Halve(us: Vec): (r: Vec)
    ensures |r| == |us| / 2
  {
    seq(|us| / 2, i requires 0 <= i < |us| / 2 => Pi(us[i]))
  }

  /** The grid is closed under negation by mirroring, and so are the grids below it. */
  predicate Paired(us: Vec)
    decreases |us|
  {
    |us| <= 1
    || (&& (forall i :: 0 <= i < |us| / 2 ==> us[|us| - 1 - i] == Neg(us[i]))
        && Paired(Halve(us)))
  }

  function XTower(us: Vec): (tws: seq<Vec>)
    decreases |us|
  {
    if |us| <= 1 then [] else [us[..|us| / 2]] + XTower(Halve(us))
  }

  lemma {:induction false} XTowerShape(us: Vec, k: nat)
    requires |us| == Pow2(k)
    ensures |XTower(us)| == k && Tower(XTower(us))
    decreases k
  {
    hide Pi;
    if k > 0 {
      XTowerShape(Halve(us), k - 1);
      var tws := XTower(us);
      forall l | 0 <= l < |tws| ensures |tws[l]| == Pow2(k - 1 - l) {
        if l > 0 { assert tws[l] == XTower(Halve(us))[l - 1]; }
      }
    }
  }

  lemma MinusOdd(e: Fp, u: Fp, o: Fp)
    ensures Add(e, Mul(Sub(0, u), o))
       == Sub(e, Mul(u, o))
  {
    Same(ZAdd(e, ZMul(ZSub(0, u), o)),
         ZSub(e, ZMul(u, o)));
    hide *;
    Ring(e, u, o);
  }

  /** The first level joins the transforms of both halves. */
  lemma ForwardSplit(c: Vec, tws: seq<Vec>, k: nat)
    requires k > 0 && |c| == Pow2(k) && |tws| == k && Tower(tws)
    ensures Tower(tws[1..]) && |tws[0]| == Pow2(k - 1)
    ensures |Evens(c)| == |Odds(c)| == Pow2(k - 1)
    ensures Forward(BitReversed(c, k), tws)
         == Butterfly(Forward(BitReversed(Evens(c), k - 1), tws[1..]), Forward(BitReversed(Odds(c), k - 1), tws[1..]), tws[0])
  {
    hide Butterfly;
    TowerTail(tws);
    BitReversedSplit(c, k - 1);
  }

  /** On a paired grid the transform of the bit-reversed coefficients is direct evaluation. */
  lemma {:induction false} ForwardEvaluatesX(c: Vec, us: Vec, k: nat)
    requires |c| == |us| == Pow2(k) && Paired(us)
    ensures |XTower(us)| == k && Tower(XTower(us))
    ensures forall i :: 0 <= i < |us| ==> Forward(BitReversed(c, k), XTower(us))[i] == EvalX(c, us[i])
    decreases k
  {
    hide Pi, EvalX, Butterfly;
    XTowerShape(us, k);
    if k == 0 {
      EvalXOne(c, us[0]);
    } else {
      var h := |us| / 2;
      var vs := Halve(us);
      var tws := XTower(us);
      assert tws[1..] == XTower(vs) && tws[0] == us[..h];
      ForwardEvaluatesX(Evens(c), vs, k - 1);
      ForwardEvaluatesX(Odds(c), vs, k - 1);
      ForwardSplit(c, tws, k);
      hide Evens, Odds, BitReversed, XTower, Forward;
      ButterflyEvaluatesX(c, us, Forward(BitReversed(Evens(c), k - 1), tws[1..]), Forward(BitReversed(Odds(c), k - 1), tws[1..]));
    }
  }

  lemma ButterflyEvaluatesX(c: Vec, us: Vec, lo: Vec, hi: Vec)
    requires |us| % 2 == 0 && |us| > 0 && Paired(us) && |lo| == |hi| == |us| / 2
    requires forall i :: 0 <= i < |lo| ==> lo[i] == EvalX(Evens(c), Halve(us)[i]) && hi[i] == EvalX(Odds(c), Halve(us)[i])
    ensures forall i :: 0 <= i < |us| ==> Butterfly(lo, hi, us[..|us| / 2])[i] == EvalX(c, us[i])
  {
    hide Pi, EvalX, Evens, Odds, Paired;
    forall i | 0 <= i < |us| ensures Butterfly(lo, hi, us[..|us| / 2])[i] == EvalX(c, us[i]) {
      EvalXSplit(c, us[i]);
      if i >= |lo| {
        var j := |us| - 1 - i;
        PairedAt(us, j);
        PiEven(us[j]);
        MinusOdd(lo[j], us[j], hi[j]);
      }
    }
  }

  lemma PairedAt(us: Vec, j: nat)
    requires Paired(us) && j < |us| / 2
    ensures us[|us| - 1 - j] == Neg(us[j])
  {
  }

  predicate Mirrored(domain: seq<Point>)
  {
    forall i :: 0 <= i < |domain| / 2 ==> domain[|domain| - 1 - i] == Mirror(domain[i])
  }

  function Ys(ps: seq<Point>): (v: Vec)
    ensures |v| == |ps|
  {
    seq(|ps|, i requires 0 <= i < |ps| => ps[i].y)
  }

  function Xs(ps: seq<Point>): (v: Vec)
    ensures |v| == |ps|
  {
    seq(|ps|, i requires 0 <= i < |ps| => ps[i].x)
  }

  function CircleTower(domain: seq<Point>): (tws: seq<Vec>)
  {
    var h := |domain| / 2;
    [Ys(domain[..h])] + XTower(Xs(domain[..h]))
  }

  lemma CircleTowerShape(domain: seq<Point>, k: nat)
    requires |domain| == Pow2(k) && k >= 1
    ensures |CircleTower(domain)| == k && Tower(CircleTower(domain))
  {
    hide XTower;
    var xs := Xs(domain[..|domain| / 2]);
    XTowerShape(xs, k - 1);
    var tws := CircleTower(domain);
    forall l | 0 <= l < |tws| ensures |tws[l]| == Pow2(k - 1 - l) {
      if l > 0 { assert tws[l] == XTower(xs)[l - 1]; }
    }
  }

  /** The values of the coefficient vector at the points. */
  function Evaluations(c: Vec, points: seq<Point>): (v: Vec)
    ensures |v| == |points|
  {
    seq(|points|, i requires 0 <= i < |points| => EvalC(c, points[i]))
  }

  /** On a mirrored domain the transform is direct evaluation. */
  lemma ForwardEvaluates(c: Vec, domain: seq<Point>, k: nat)
    requires |c| == |domain| == Pow2(k) && k >= 1
    requires Mirrored(domain) && Paired(Xs(domain[..|domain| / 2]))
    ensures |CircleTower(domain)| == k && Tower(CircleTower(domain))
    ensures Forward(BitReversed(c, k), CircleTower(domain)) == Evaluations(c, domain)
  {
    hide Pi, EvalX, EvalC, XTower, Paired, Butterfly, Mirrored;
    CircleTowerShape(domain, k);
    var h := |domain| / 2;
    var xs := Xs(domain[..h]);
    var tws := CircleTower(domain);
    assert tws[1..] == XTower(xs) && tws[0] == Ys(domain[..h]);
    BitReversedSplit(c, k - 1);
    ForwardEvaluatesX(Evens(c), xs, k - 1);
    ForwardEvaluatesX(Odds(c), xs, k - 1);
    hide Evens, Odds, BitReversed;
    var lo, hi := Forward(BitReversed(Evens(c), k - 1), tws[1..]), Forward(BitReversed(Odds(c), k - 1), tws[1..]);
    assert Forward(BitReversed(c, k), tws) == Butterfly(lo, hi, tws[0]);
    hide Forward;
    ButterflyEvaluatesC(c, domain, lo, hi);
  }

  lemma ButterflyEvaluatesC(c: Vec, domain: seq<Point>, lo: Vec, hi: Vec)
    requires |domain| % 2 == 0 && Mirrored(domain) && |lo| == |hi| == |domain| / 2
    requires forall i :: 0 <= i < |lo| ==> lo[i] == EvalX(Evens(c), domain[i].x) && hi[i] == EvalX(Odds(c), domain[i].x)
    ensures Butterfly(lo, hi, Ys(domain[..|domain| / 2])) == Evaluations(c, domain)
  {
    hide EvalX, EvalC, Evens, Odds;
    forall i | 0 <= i < |domain| ensures Butterfly(lo, hi, Ys(domain[..|domain| / 2]))[i] == EvalC(c, domain[i]) {
      EvalCSplit(c, domain[i]);
      if i >= |lo| {
        var j := |domain| - 1 - i;
        MinusOdd(lo[j], domain[j].y, hi[j]);
        assert domain[i] == Mirror(domain[j]) by { assert domain[|domain| - 1 - j] == Mirror(domain[j]); }
      }
    }
  }

  // ----- the canonical domain meets every requirement -----

  function Domain(q: Point, logN: nat): (d: seq<Point>)
    ensures |d| == Pow2(logN)
  {
    seq(Pow2(logN), i requires 0 <= i => DomainPoint(q, i))
  }

  /** The x-grid of level l. */
  function Grid(q: Point, logN: nat, l: nat): (g: Vec)
    requires 1 <= l <= logN
    ensures |g| == Pow2(logN - l)
  {
    seq(Pow2(logN - l), k requires 0 <= k => PiN(DomainPoint(q, k).x, l - 1))
  }

  ghost predicate AllNonzero(tws: seq<Vec>)
  {
    forall l :: 0 <= l < |tws| ==> forall i :: 0 <= i < |tws[l]| ==> tws[l][i] != 0
  }

  lemma {:induction false} GridTower(q: Point, logN: nat, l: nat)
    requires IsGenerator(q, logN) && 1 <= l <= logN
    ensures Paired(Grid(q, logN, l)) && AllNonzero(XTower(Grid(q, logN, l)))
    decreases logN - l
  {
    hide Pi, PiN, IsGenerator, DomainPoint;
    var g := Grid(q, logN, l);
    if l < logN {
      GridTower(q, logN, l + 1);
      forall k | 0 <= k < |g| / 2 ensures g[|g| - 1 - k] == Neg(g[k]) {
        GridMirror(q, logN, l, k);
      }
      forall k | 0 <= k < |g| / 2 ensures Halve(g)[k] == Grid(q, logN, l + 1)[k] {
        PiNNext(DomainPoint(q, k).x, l - 1);
      }
      assert Halve(g) == Grid(q, logN, l + 1);
      forall k | 0 <= k < |g| ensures g[k] != 0 {
        GridNonzero(q, logN, l, k);
      }
      var tws := XTower(g);
      forall i | 0 <= i < |tws| ensures forall j :: 0 <= j < |tws[i]| ==> tws[i][j] != 0 {
        if i > 0 { assert tws[i] == XTower(Halve(g))[i - 1]; }
      }
    }
  }

  lemma CanonicalDomain(q: Point, logN: nat)
    requires IsGenerator(q, logN) && logN >= 1
    ensures var d := Domain(q, logN); Mirrored(d) && Paired(Xs(d[..|d| / 2])) && AllNonzero(CircleTower(d))
  {
    hide Pi, IsGenerator, DomainPoint, XTower, Paired;
    var d := Domain(q, logN);
    var h := |d| / 2;
    forall i | 0 <= i < h ensures d[|d| - 1 - i] == Mirror(d[i]) {
      DomainMirror(q, logN, i);
    }
    assert Xs(d[..h]) == Grid(q, logN, 1);
    GridTower(q, logN, 1);
    var tws := CircleTower(d);
    forall l | 0 <= l < |tws| ensures forall i :: 0 <= i < |tws[l]| ==> tws[l][i] != 0 {
      if l == 0 {
        forall i | 0 <= i < |tws[0]| ensures tws[0][i] != 0 { DomainYNonzero(q, logN, i); }
      } else {
        assert tws[l] == XTower(Xs(d[..h]))[l - 1];
      }
    }
  }
}
