/** The precomputed tables of a domain and the in-place transforms (circle_fft.rs): `bit_reverse`, `combine`,
    `icombine`, `fft` and `ifft` on arrays, proved against the functions of CircleTransform. */
module CircleTables {
  import opened Wrappers
  import opened Modulus
  import opened Field
  import opened Vectors
  import opened Bits
  import opened Squares
  import opened FieldBytes
  import opened CircleGroup
  import opened Frobenius
  import opened CircleTransform

  // ----- finding a point of exact order 2^(logN + 1) -----

  lemma {:induction false} ShrBelow(i: nat, k: nat)
    requires i < Pow2(k)
    ensures Shr(i, k) == 0
  {
    if k > 0 { ShrBelow(i / 2, k - 1); }
  }

  /** One more bit of the scalar, most significant first. */
  lemma ScalarStep(v: nat, byte: nat, bit: nat, k: nat)
    ensures v * Pow2(k + 1) + Shr(byte, bit)
         == 2 * (v * Pow2(k) + Shr(byte, bit + 1)) + if Bit(byte, bit) then 1 else 0
  {
    ShrBit(byte, bit);
    assert v * Pow2(k + 1) == 2 * (v * Pow2(k));
  }

  /** Double and add over the bits of one byte. */
  method ScalarByte(point: Point, start: Point, byte: Byte, ghost v: nat) returns (acc: Point)
    requires start == Times(v, point)
    ensures acc == Times(256 * v + byte, point)
  {
    hide Plus, Shr, Bit, Pow2, Times;
    ByteBits();
    ShrBelow(byte, 8);
    acc := start;
    for bit := 8 downto 0
      invariant acc == Times(v * Pow2(8 - bit) + Shr(byte, bit), point)
    {
      ghost var before := v * Pow2(7 - bit) + Shr(byte, bit + 1);
      ScalarStep(v, byte, bit, 7 - bit);
      acc := Double(acc);
      TimesAdd(before, before, point);
      if Bit(byte, bit) {
        acc := Plus(acc, point);
        NextPower(2 * before, point);
      }
    }
  }

  /** Double and add, byte by byte and bit by bit, most significant first. */
  method ScalarMul(point: Point, scalar: Bytes) returns (acc: Point)
    ensures acc == Times(FromBigEndian(scalar), point)
  {
    hide Plus, FromBigEndian;
    acc := IDENTITY;
    NoBytes();
    for i := 0 to |scalar|
      invariant acc == Times(FromBigEndian(scalar[..i]), point)
    {
      acc := ScalarByte(point, acc, scalar[i], FromBigEndian(scalar[..i]));
      LastByte(scalar[..i], scalar[i]);
      assert scalar[..i + 1] == scalar[..i] + [scalar[i]];
    }
    assert scalar[..|scalar|] == scalar;
  }

  lemma UnitSquares(s: Fp, t: Fp, v: Fp)
    ensures Add(Mul(Mul(Sub(1, s), v), Mul(Sub(1, s), v)), Mul(Mul(Add(t, t), v), Mul(Add(t, t), v)))
       == Mul(Add(Mul(Sub(1, s), Sub(1, s)), Add(Add(Mul(t, t), Mul(t, t)), Add(Mul(t, t), Mul(t, t)))), Mul(v, v))
  {
    Same(ZAdd(ZMul(ZMul(ZSub(1, s), v), ZMul(ZSub(1, s), v)), ZMul(ZMul(ZAdd(t, t), v), ZMul(ZAdd(t, t), v))),
         ZMul(ZAdd(ZMul(ZSub(1, s), ZSub(1, s)), ZAdd(ZAdd(ZMul(t, t), ZMul(t, t)), ZAdd(ZMul(t, t), ZMul(t, t)))), ZMul(v, v)));
    hide *;
    Ring(s, t, v);
  }

  lemma SquareOfSum(s: Fp)
    ensures Add(Mul(Sub(1, s), Sub(1, s)), Add(Add(s, s), Add(s, s)))
       == Mul(Add(1, s), Add(1, s))
  {
    Same(ZAdd(ZMul(ZSub(1, s), ZSub(1, s)), ZAdd(ZAdd(s, s), ZAdd(s, s))),
         ZMul(ZAdd(1, s), ZAdd(1, s)));
    hide *;
    Ring(s);
  }

  /** The rational parametrization lands on the circle. */
  lemma ParametrizedPoint(t: Fp, v: Fp)
    requires Mul(Add(1, Mul(t, t)), v) == 1
    ensures OnCircle(Parametrized(t, v))
  {
    var s := Mul(t, t);
    UnitSquares(s, t, v);
    SquareOfSum(s);
    MulSwap(Add(1, s), Add(1, s), v, v);
    Units(1);
  }

  method RepeatDouble(p: Point, n: nat) returns (r: Point)
    ensures r == DoubleN(p, n)
  {
    hide Plus;
    r := p;
    for i := 0 to n
      invariant r == DoubleN(p, i)
    {
      DoubleNAdd(p, i, 1);
      assert DoubleN(r, 1) == DoubleN(Double(r), 0);
      r := Double(r);
    }
  }

  /** The numbers the search can start from. */
  ghost predicate Usable(t: nat) { 1 <= t < 64 && !IsSquare(Add(1, Mul(R(t), R(t)))) }

  ghost predicate FirstUsable(t: nat) { Usable(t) && forall s: nat :: Usable(s) ==> s >= t }

  /** The point of t: parametrized, freed from the odd part of its order, and doubled down. */
  function PointFrom(t: nat, cofactor: nat, doublings: nat): Point
  {
    SumNonzero(R(t));
    DoubleN(Times(cofactor, Parametrized(R(t), Inv(Add(1, Mul(R(t), R(t)))))), doublings)
  }

  /** The point at the end of all but one doubling of a projected point is half the group order times the point. */
  lemma ProbeIsHalfOrder(base: Point, cofactor: nat, logN: nat, twoAdicity: nat)
    requires logN < twoAdicity && cofactor * Pow2(twoAdicity) == P + 1
    ensures DoubleN(DoubleN(Times(cofactor, base), twoAdicity - logN - 1), logN) == Times(HalfOrder(), base)
  {
    hide Plus, Times, DoubleN;
    var g, k := Times(cofactor, base), twoAdicity - 1;
    DoubleNAdd(g, twoAdicity - logN - 1, logN);
    DoubleNIsTimes(g, k);
    PowerOfPower(Pow2(k), cofactor, base);
    assert 2 * (Pow2(k) * cofactor) == cofactor * Pow2(twoAdicity);
  }

  /** Scans t = 1 .. 63 for a point whose projection to the 2-part of the group has full order.
      None where the source panics: no such t, or a group order that is not 2^twoAdicity times the cofactor. With the right
      cofactor the search succeeds exactly if 1 + t^2 is not a square for some t, and returns the point of the least one. */
  method FindGenerator(logN: nat, oddCofactor: Bytes, twoAdicity: nat) returns (r: Option<Point>)
    requires logN < twoAdicity
    ensures r.Some? ==> IsGenerator(r.value, logN)
    ensures FromBigEndian(oddCofactor) * Pow2(twoAdicity) == P + 1 ==> (r.Some? <==> exists t: nat :: Usable(t))
    ensures FromBigEndian(oddCofactor) * Pow2(twoAdicity) == P + 1 ==>
              forall t: nat :: FirstUsable(t) ==> r == Some(PointFrom(t, FromBigEndian(oddCofactor), twoAdicity - logN - 1))
  {
    hide Plus, Times, DoubleN, Inv, FromBigEndian, Pow2, IsSquare, OnCircle;
    ghost var cofactor := FromBigEndian(oddCofactor);
    for t := 1 to 64
      invariant cofactor * Pow2(twoAdicity) == P + 1 ==> forall s: nat :: Usable(s) ==> s >= t
    {
      var tf := R(t);
      var t2 := Mul(tf, tf);
      SumNonzero(tf);
      if Add(1, t2) != 0 {
        var inv := Inv(Add(1, t2));
        InvMul(Add(1, t2));
        var base := Parametrized(tf, inv);
        ParametrizedPoint(tf, inv);
        HalfOrderOfParametrized(tf, inv);
        var g := ScalarMul(base, oddCofactor);
        TimesOnCircle(cofactor, base);
        var h := RepeatDouble(g, twoAdicity - logN - 1);
        DoubleNOnCircle(g, twoAdicity - logN - 1);
        var probe := RepeatDouble(h, logN);
        HalfTurnFacts();
        if cofactor * Pow2(twoAdicity) == P + 1 {
          ProbeIsHalfOrder(base, cofactor, logN, twoAdicity);
        }
        if probe != IDENTITY {
          DoubleNAdd(h, logN, 1);
          OneDouble(probe);
          if Double(probe) != IDENTITY {
            return None;
          }
          assert cofactor * Pow2(twoAdicity) == P + 1 ==> FirstUsable(t);
          assert h == PointFrom(t, cofactor, twoAdicity - logN - 1);
          return Some(h);
        }
      }
    }
    r := None;
  }

  lemma SumNonzero(t: Fp)
    ensures Add(1, Mul(t, t)) != 0
  {
    if Add(1, Mul(t, t)) == 0 {
      Units(1);
      SumOfSquares(1, t);
    }
  }

  lemma NoBytes()
    ensures FromBigEndian([]) == 0
  {
  }

  lemma ByteBits()
    ensures Pow2(0) == 1 && Pow2(8) == 256 && forall byte: nat :: Shr(byte, 0) == byte
  {
  }

  lemma OneDouble(p: Point)
    ensures DoubleN(p, 1) == Double(p)
  {
    assert DoubleN(p, 1) == DoubleN(Double(p), 0);
  }

  // ----- tables -----

  datatype Tables = Tables(logN: nat, domain: seq<Point>, tw: seq<Vec>, invTw: seq<Vec>, nInv: Fp) {
    ghost predicate Valid()
    {
      && logN >= 1
      && |domain| == Pow2(logN)
      && Mirrored(domain) && Paired(Xs(domain[..|domain| / 2]))
      && tw == CircleTower(domain) && |tw| == logN
      && InverseTowers(tw, invTw)
      && Mul(nInv, Two(logN)) == 1
    }

    /** Evaluation on the domain of the coefficients c. */
    function Fft(c: Vec): (v: Vec)
      requires Valid() && |c| == Pow2(logN)
      ensures |v| == |c|
    {
      Forward(BitReversed(c, logN), tw)
    }

    function Ifft(v: Vec): (c: Vec)
      requires Valid() && |v| == Pow2(logN)
      ensures |c| == |v|
    {
      Scale(nInv, BitReversed(Backward(v, invTw), logN))
    }

    /** The transform is direct evaluation at every domain point. */
    lemma FftEvaluates(c: Vec)
      requires Valid() && |c| == Pow2(logN)
      ensures Fft(c) == Evaluations(c, domain)
    {
      ForwardEvaluates(c, domain, logN);
    }

    lemma IfftFft(c: Vec)
      requires Valid() && |c| == Pow2(logN)
      ensures Ifft(Fft(c)) == c
    {
      hide Forward, Backward, BitReversed, CircleTower, Paired;
      BackwardForward(BitReversed(c, logN), tw, invTw);
      BitReversedScale(Two(logN), BitReversed(c, logN), logN);
      BitReversedTwice(c, logN);
      ScaleScale(nInv, Two(logN), c);
      ScaleOne(c);
    }

    lemma FftIfft(v: Vec)
      requires Valid() && |v| == Pow2(logN)
      ensures Fft(Ifft(v)) == v
    {
      hide Forward, Backward, BitReversed, CircleTower, Paired;
      var b := Backward(v, invTw);
      BitReversedScale(nInv, BitReversed(b, logN), logN);
      BitReversedTwice(b, logN);
      ForwardScale(nInv, b, tw);
      ForwardBackward(v, tw, invTw);
      ScaleScale(nInv, Two(logN), v);
      ScaleOne(v);
    }

    /** The twiddle tower of an explicit domain, its inverses and 1 / n. */
    static method FromDomain(logN: nat, domain: seq<Point>) returns (t: Tables)
      requires logN >= 1 && |domain| == Pow2(logN) && Pow2(logN) <= U64_MAX
      requires Mirrored(domain) && Paired(Xs(domain[..|domain| / 2])) && AllNonzero(CircleTower(domain))
      ensures t.Valid() && t.logN == logN && t.domain == domain
    {
      hide Paired, XTower, Inv;
      var half := |domain| / 2;
      var tw: seq<Vec> := [Ys(domain[..half])];
      var cur := Xs(domain[..half]);
      ghost var tower := CircleTower(domain);
      for level := 1 to logN
        invariant |cur| == Pow2(logN - level)
        invariant tower == tw + XTower(cur)
      {
        var count := |cur| / 2;
        XTowerStep(cur);
        tw := tw + [cur[..count]];
        cur := Halve(cur);
      }
      XTowerEnd(cur);
      assert tower == tw;
      CircleTowerShape(domain, logN);
      var invTw: seq<Vec> := [];
      for l := 0 to |tw|
        invariant |invTw| == l
        invariant forall i :: 0 <= i < l ==> Inverses(tw[i], invTw[i])
      {
        var inverses := BatchInverse(tw[l]);
        forall i | 0 <= i < |tw[l]| ensures Mul(tw[l][i], inverses[i]) == 1 {
          InvMul(tw[l][i]);
        }
        invTw := invTw + [inverses];
      }
      TwoIsPow2(logN);
      var n := R(Pow2(logN));
      InvMul(n);
      t := Tables(logN, domain, tw, invTw, Inv(n));
    }

    static method New(logN: nat, q: Point) returns (t: Tables)
      requires logN >= 1 && IsGenerator(q, logN) && Pow2(logN) <= U64_MAX
      ensures t.Valid() && t.logN == logN && t.domain == Domain(q, logN)
    {
      hide Plus, Paired, XTower;
      var step := Double(q);
      var domain: seq<Point> := [];
      var point := q;
      assert Times(1, q) == q by {
        assert Times(1, q) == Plus(Times(0, q), q);
        PlusIdentity(q);
      }
      for i := 0 to Pow2(logN)
        invariant |domain| == i
        invariant forall j :: 0 <= j < i ==> domain[j] == DomainPoint(q, j)
        invariant point == DomainPoint(q, i)
      {
        domain := domain + [point];
        TimesAdd(2 * i + 1, 2, q);
        TimesAdd(1, 1, q);
        point := Plus(point, step);
      }
      assert domain == Domain(q, logN);
      assert point == q by {
        TimesAdd(Pow2(logN + 1), 1, q);
        DoubleNIsTimes(q, logN + 1);
        PlusIdentity(q);
      }
      CanonicalDomain(q, logN);
      t := FromDomain(logN, domain);
    }
  }

  lemma XTowerStep(us: Vec)
    requires |us| >= 2
    ensures XTower(us) == [us[..|us| / 2]] + XTower(Halve(us))
  {
  }

  lemma XTowerEnd(us: Vec)
    requires |us| <= 1
    ensures XTower(us) == []
  {
  }

  lemma {:induction false} TwoIsPow2(k: nat)
    ensures Two(k) == R(Pow2(k)) && Two(k) != 0
  {
    hide R;
    Canonical(1);
    Canonical(2);
    if k > 0 {
      TwoIsPow2(k - 1);
      RMul(2, Pow2(k - 1));
      if Two(k) == 0 {
        NoZeroDivisors(2, Two(k - 1));
        assert false;
      }
    }
  }

  // ----- in-place operations -----

  method BitReverse(values: array<Fp>, logN: nat)
    requires values.Length == Pow2(logN)
    modifies values
    ensures values[..] == BitReversed(old(values[..]), logN)
  {
    hide Reverse;
    ghost var was := values[..];
    forall x | 0 <= x < Pow2(logN) ensures Reverse(Reverse(x, logN), logN) == x {
      ReverseTwice(x, logN);
    }
    for i := 0 to values.Length
      invariant forall x :: 0 <= x < values.Length ==>
                  values[x] == if x < i || Reverse(x, logN) < i then was[Reverse(x, logN)] else was[x]
    {
      var j := Reverse(i, logN);
      if i < j {
        values[i], values[j] := values[j], values[i];
      }
    }
  }

  lemma ButterflySlots(lo: Vec, hi: Vec, tw: Vec, i: nat)
    requires |lo| == |hi| == |tw| && i < |lo|
    ensures ButterflySlot(lo, hi, tw, i) == Add(lo[i], Mul(tw[i], hi[i]))
    ensures ButterflySlot(lo, hi, tw, 2 * |lo| - 1 - i) == Sub(lo[i], Mul(tw[i], hi[i]))
  {
  }

  lemma UnbutterflySlots(b: Vec, itw: Vec, i: nat)
    requires |b| == 2 * |itw| && i < |itw|
    ensures UnbutterflySlot(b, itw, i) == Add(b[i], b[|b| - 1 - i])
    ensures UnbutterflySlot(b, itw, |itw| + i) == Mul(Sub(b[i], b[|b| - 1 - i]), itw[i])
  {
  }

  lemma ButterflyFromSlots(lo: Vec, hi: Vec, tw: Vec, r: Vec)
    requires |lo| == |hi| == |tw| && |r| == 2 * |lo|
    requires forall i :: 0 <= i < |r| ==> r[i] == ButterflySlot(lo, hi, tw, i)
    ensures r == Butterfly(lo, hi, tw)
  {
    hide ButterflySlot;
  }

  lemma UnbutterflyFromSlots(b: Vec, itw: Vec, r: Vec)
    requires |b| == 2 * |itw| == |r|
    requires forall i :: 0 <= i < |r| ==> r[i] == UnbutterflySlot(b, itw, i)
    ensures r == Unbutterfly(b, itw)
  {
    hide UnbutterflySlot;
  }

  /** The slots the first k turns have written: k from each end of each half block. */
  predicate Done(i: int, half: nat, k: nat)
  {
    0 <= i < k || half - k <= i < half + k || 2 * half - k <= i < 2 * half
  }

  /** One turn of `Combine`: the mirror pairs at k and r. */
  method CombineTurn(a: array<Fp>, start: nat, tw: Vec, k: nat, r: nat, ghost was: Vec, ghost lo: Vec, ghost hi: Vec)
    requires k < r && k + r == |tw| - 1 && start + 2 * |tw| <= a.Length == |was|
    requires lo == was[start..start + |tw|] && hi == was[start + |tw|..start + 2 * |tw|]
    requires forall p :: 0 <= p < a.Length ==>
               a[p] == if Done(p - start, |tw|, k) then ButterflySlot(lo, hi, tw, p - start) else was[p]
    modifies a
    ensures forall p :: 0 <= p < a.Length ==>
              a[p] == if Done(p - start, |tw|, k + 1) then ButterflySlot(lo, hi, tw, p - start) else was[p]
  {
    hide Add, Sub, Mul, ButterflySlot;
    var half := |tw|;
    var m := 2 * half;
    assert m - 1 - k == half + r && m - 1 - r == half + k;
    ButterflySlots(lo, hi, tw, k);
    ButterflySlots(lo, hi, tw, r);
    var loK, hiK := a[start + k], a[start + half + k];
    var loR, hiR := a[start + r], a[start + m - 1 - k];
    var tK, tR := Mul(tw[k], hiK), Mul(tw[r], hiR);
    a[start + k] := Add(loK, tK);
    a[start + m - 1 - k] := Sub(loK, tK);
    a[start + r] := Add(loR, tR);
    a[start + half + k] := Sub(loR, tR);
  }

  /** The pair in the middle of a half block of odd length. */
  method CombineMiddle(a: array<Fp>, start: nat, tw: Vec, k: nat, ghost was: Vec, ghost lo: Vec, ghost hi: Vec)
    requires 2 * k + 1 == |tw| && start + 2 * |tw| <= a.Length == |was|
    requires lo == was[start..start + |tw|] && hi == was[start + |tw|..start + 2 * |tw|]
    requires forall p :: 0 <= p < a.Length ==>
               a[p] == if Done(p - start, |tw|, k) then ButterflySlot(lo, hi, tw, p - start) else was[p]
    modifies a
    ensures forall p :: 0 <= p < a.Length ==>
              a[p] == if 0 <= p - start < 2 * |tw| then ButterflySlot(lo, hi, tw, p - start) else was[p]
  {
    hide Add, Sub, Mul, ButterflySlot;
    ButterflySlots(lo, hi, tw, k);
    var l, h := a[start + k], a[start + |tw| + k];
    var t := Mul(tw[k], h);
    a[start + k] := Add(l, t);
    a[start + 2 * |tw| - 1 - k] := Sub(l, t);
  }

  /** Two mirror pairs per turn, from both ends of the half block inwards. */
  method Combine(a: array<Fp>, start: nat, tw: Vec)
    requires |tw| >= 1 && start + 2 * |tw| <= a.Length
    modifies a
    ensures var h := |tw|;
            a[start..start + 2 * h] == Butterfly(old(a[start..start + h]), old(a[start + h..start + 2 * h]), tw)
    ensures a[..start] == old(a[..start]) && a[start + 2 * |tw|..] == old(a[start + 2 * |tw|..])
  {
    hide Add, Sub, Mul, Butterfly, ButterflySlot;
    var half := |tw|;
    var m := 2 * half;
    ghost var was := a[..];
    ghost var lo, hi := a[start..start + half], a[start + half..start + m];
    var k, r := 0, half - 1;
    while k < r
      invariant 0 <= k <= r + 1 && k + r == half - 1
      invariant forall p :: 0 <= p < a.Length ==>
                  a[p] == if Done(p - start, half, k) then ButterflySlot(lo, hi, tw, p - start) else was[p]
    {
      CombineTurn(a, start, tw, k, r, was, lo, hi);
      k, r := k + 1, r - 1;
    }
    if k == r {
      CombineMiddle(a, start, tw, k, was, lo, hi);
    }
    assert forall p :: start <= p < start + m ==> a[p] == ButterflySlot(lo, hi, tw, p - start);
    ButterflyFromSlots(lo, hi, tw, a[start..start + m]);
  }

  /** One turn of `Icombine`: the mirror pairs at k and r. */
  method IcombineTurn(a: array<Fp>, start: nat, itw: Vec, k: nat, r: nat, ghost was: Vec, ghost b: Vec)
    requires k < r && k + r == |itw| - 1 && start + 2 * |itw| <= a.Length == |was|
    requires b == was[start..start + 2 * |itw|]
    requires forall p :: 0 <= p < a.Length ==>
               a[p] == if Done(p - start, |itw|, k) then UnbutterflySlot(b, itw, p - start) else was[p]
    modifies a
    ensures forall p :: 0 <= p < a.Length ==>
              a[p] == if Done(p - start, |itw|, k + 1) then UnbutterflySlot(b, itw, p - start) else was[p]
  {
    hide Add, Sub, Mul, UnbutterflySlot;
    var half := |itw|;
    var m := 2 * half;
    assert m - 1 - k == half + r && m - 1 - r == half + k;
    UnbutterflySlots(b, itw, k);
    UnbutterflySlots(b, itw, r);
    var pK, qK := a[start + k], a[start + m - 1 - k];
    var pR, qR := a[start + r], a[start + half + k];
    a[start + k] := Add(pK, qK);
    a[start + half + k] := Mul(Sub(pK, qK), itw[k]);
    a[start + r] := Add(pR, qR);
    a[start + m - 1 - k] := Mul(Sub(pR, qR), itw[r]);
  }

  method Icombine(a: array<Fp>, start: nat, itw: Vec)
    requires |itw| >= 1 && start + 2 * |itw| <= a.Length
    modifies a
    ensures a[start..start + 2 * |itw|] == Unbutterfly(old(a[start..start + 2 * |itw|]), itw)
    ensures a[..start] == old(a[..start]) && a[start + 2 * |itw|..] == old(a[start + 2 * |itw|..])
  {
    hide Add, Sub, Mul, Unbutterfly, UnbutterflySlot;
    var half := |itw|;
    var m := 2 * half;
    ghost var was := a[..];
    ghost var b := a[start..start + m];
    var k, r := 0, half - 1;
    while k < r
      invariant 0 <= k <= r + 1 && k + r == half - 1
      invariant forall p :: 0 <= p < a.Length ==>
                  a[p] == if Done(p - start, half, k) then UnbutterflySlot(b, itw, p - start) else was[p]
    {
      IcombineTurn(a, start, itw, k, r, was, b);
      k, r := k + 1, r - 1;
    }
    if k == r {
      UnbutterflySlots(b, itw, k);
      var p, q := a[start + k], a[start + m - 1 - k];
      a[start + k] := Add(p, q);
      a[start + half + k] := Mul(Sub(p, q), itw[k]);
    }
    assert forall p :: start <= p < start + m ==> a[p] == UnbutterflySlot(b, itw, p - start);
    UnbutterflyFromSlots(b, itw, a[start..start + m]);
  }

  // ----- all levels -----

  /** Where block c of size m starts. */
  function At(c: nat, m: nat): nat { c * m }

  /** Block c of size m. */
  function Chunk(s: Vec, c: nat, m: nat): (r: Vec)
    requires At(c, m) + m <= |s|
    ensures |r| == m
  {
    s[At(c, m)..At(c, m) + m]
  }

  lemma ChunkFits(c: nat, count: nat, m: nat, n: nat)
    requires c < count && count * m == n
    ensures At(c, m) + m <= n
  {
    var rest: nat := count - 1 - c;
    SplitProduct(c, rest, m);
    assert count == c + 1 + rest;
  }

  lemma SplitProduct(c: nat, rest: nat, m: nat)
    ensures (c + 1 + rest) * m == c * m + m + rest * m && rest * m >= 0
  {
  }

  lemma AtHalves(c: nat, h: nat)
    ensures At(c, 2 * h) == At(2 * c, h) && At(2 * c + 1, h) == At(2 * c, h) + h
  {
    assert c * (2 * h) == (2 * c) * h && (2 * c + 1) * h == (2 * c) * h + h;
  }

  lemma AtNext(c: nat, m: nat)
    ensures At(c + 1, m) == At(c, m) + m
  {
  }

  lemma ChunkHalves(s: Vec, c: nat, h: nat)
    requires At(c, 2 * h) + 2 * h <= |s|
    ensures At(2 * c, h) + h <= |s| && At(2 * c + 1, h) + h <= |s|
    ensures Chunk(s, c, 2 * h)[..h] == Chunk(s, 2 * c, h)
    ensures Chunk(s, c, 2 * h)[h..] == Chunk(s, 2 * c + 1, h)
  {
    AtHalves(c, h);
  }

  /** A change inside block c leaves every block that lies before or after it alone. */
  lemma ChunkFrame(s: Vec, t: Vec, from: nat, to: nat, c: nat, m: nat)
    requires |s| == |t| && from <= to <= |s| && s[..from] == t[..from] && s[to..] == t[to..]
    requires At(c, m) + m <= |s| && (At(c, m) + m <= from || to <= At(c, m))
    ensures Chunk(s, c, m) == Chunk(t, c, m)
  {
    var lo, hi := At(c, m), At(c, m) + m;
    if hi <= from {
      assert s[lo..hi] == s[..from][lo..hi] && t[lo..hi] == t[..from][lo..hi];
    } else {
      assert s[lo..hi] == s[to..][lo - to..hi - to] && t[lo..hi] == t[to..][lo - to..hi - to];
    }
  }

  /** Where block c starts and ends relative to block d. */
  lemma ChunkOrder(c: nat, d: nat, m: nat)
    requires c < d
    ensures At(c, m) + m <= At(d, m)
  {
    assert (d - 1 - c) * m >= 0;
    assert (d - 1 - c) * m == d * m - c * m - m;
  }

  /** A level of a tower: its blocks of size 2h tile a vector of the tower's size. */
  lemma LevelFacts(tws: seq<Vec>, l: nat)
    requires Tower(tws) && l < |tws|
    ensures var h := |tws[l]|;
            && h >= 1 && Pow2(l) * (2 * h) == Pow2(|tws|) && (2 * Pow2(l)) * h == Pow2(|tws|)
            && Tower(tws[l..]) && Tower(tws[l + 1..])
            && Pow2(|tws[l..]|) == 2 * h && Pow2(|tws[l + 1..]|) == h
  {
    Pow2Add(l, |tws| - l);
    forall i | 0 <= i < |tws[l..]| ensures |tws[l..][i]| == Pow2(|tws[l..]| - 1 - i) {
      assert tws[l..][i] == tws[l + i];
    }
    TowerTail(tws[l..]);
    assert tws[l..][1..] == tws[l + 1..];
    assert Pow2(l) * (2 * |tws[l]|) == (2 * Pow2(l)) * |tws[l]|;
  }

  ghost predicate ForwardBlock(s: Vec, w: Vec, tws: seq<Vec>, c: nat, m: nat)
    requires |s| == |w| && Tower(tws) && Pow2(|tws|) == m
  {
    At(c, m) + m <= |s| ==> Chunk(s, c, m) == Forward(Chunk(w, c, m), tws)
  }

  /** The first `done` blocks of level l are transformed, the later ones have their halves transformed. */
  ghost predicate ForwardState(s: Vec, w: Vec, tws: seq<Vec>, l: nat, done: nat)
    requires Tower(tws) && |w| == |s| == Pow2(|tws|) && l < |tws|
  {
    var h, upper, lower := |tws[l]|, tws[l..], tws[l + 1..];
    var m := 2 * h;
    LevelFacts(tws, l);
    && (forall c :: 0 <= c < done ==> ForwardBlock(s, w, upper, c, m))
    && (forall c :: 2 * done <= c ==> ForwardBlock(s, w, lower, c, h))
  }

  lemma ForwardOneBlock(s: Vec, t: Vec, w: Vec, tws: seq<Vec>, l: nat, c: nat)
    requires Tower(tws) && |s| == |w| == |t| == Pow2(|tws|) && l < |tws| && c < Pow2(l)
    requires ForwardState(s, w, tws, l, c)
    requires var m := 2 * |tws[l]|; At(c, m) + m <= |s|
    requires var h := |tws[l]|;
             Chunk(t, c, 2 * h) == Butterfly(Chunk(s, c, 2 * h)[..h], Chunk(s, c, 2 * h)[h..], tws[l])
    ensures Tower(tws[l..]) && Pow2(|tws[l..]|) == 2 * |tws[l]| && ForwardBlock(t, w, tws[l..], c, 2 * |tws[l]|)
  {
    hide Butterfly, Chunk, At;
    LevelFacts(tws, l);
    var h := |tws[l]|;
    ChunkHalves(s, c, h);
    ChunkHalves(w, c, h);
    assert ForwardBlock(s, w, tws[l + 1..], 2 * c, h) && ForwardBlock(s, w, tws[l + 1..], 2 * c + 1, h);
    assert tws[l..][0] == tws[l] && tws[l..][1..] == tws[l + 1..];
  }

  lemma ForwardFrame(s: Vec, t: Vec, w: Vec, tws: seq<Vec>, c: nat, m: nat, from: nat, to: nat)
    requires |s| == |w| == |t| && Tower(tws) && Pow2(|tws|) == m
    requires from <= to <= |s| && s[..from] == t[..from] && s[to..] == t[to..]
    requires At(c, m) + m <= from || to <= At(c, m)
    requires ForwardBlock(s, w, tws, c, m)
    ensures ForwardBlock(t, w, tws, c, m)
  {
    if At(c, m) + m <= |s| {
      ChunkFrame(s, t, from, to, c, m);
    }
  }

  lemma ForwardFrameBefore(s: Vec, t: Vec, w: Vec, tws: seq<Vec>, count: nat, m: nat, from: nat, to: nat)
    requires |s| == |w| == |t| && Tower(tws) && Pow2(|tws|) == m
    requires from <= to <= |s| && s[..from] == t[..from] && s[to..] == t[to..] && At(count, m) <= from
    requires forall d :: 0 <= d < count ==> ForwardBlock(s, w, tws, d, m)
    ensures forall d :: 0 <= d < count ==> ForwardBlock(t, w, tws, d, m)
  {
    hide ForwardBlock, Tower, Pow2, At;
    forall d | 0 <= d < count ensures ForwardBlock(t, w, tws, d, m) {
      ChunkOrder(d, count, m);
      ForwardFrame(s, t, w, tws, d, m, from, to);
    }
  }

  lemma ForwardFrameAfter(s: Vec, t: Vec, w: Vec, tws: seq<Vec>, first: nat, m: nat, from: nat, to: nat)
    requires |s| == |w| == |t| && Tower(tws) && Pow2(|tws|) == m
    requires from <= to <= |s| && s[..from] == t[..from] && s[to..] == t[to..] && to <= At(first, m)
    requires forall d :: first <= d ==> ForwardBlock(s, w, tws, d, m)
    ensures forall d :: first <= d ==> ForwardBlock(t, w, tws, d, m)
  {
    hide ForwardBlock, Tower, Pow2, At;
    forall d | first <= d ensures ForwardBlock(t, w, tws, d, m) {
      if first < d { ChunkOrder(first, d, m); }
      ForwardFrame(s, t, w, tws, d, m, from, to);
    }
  }

  lemma ForwardStep(s: Vec, t: Vec, w: Vec, tws: seq<Vec>, l: nat, c: nat)
    requires Tower(tws) && |s| == |w| == |t| == Pow2(|tws|) && l < |tws| && c < Pow2(l)
    requires ForwardState(s, w, tws, l, c)
    requires var m := 2 * |tws[l]|; At(c, m) + m <= |s| && s[..At(c, m)] == t[..At(c, m)] && s[At(c, m) + m..] == t[At(c, m) + m..]
    requires var h := |tws[l]|;
             Chunk(t, c, 2 * h) == Butterfly(Chunk(s, c, 2 * h)[..h], Chunk(s, c, 2 * h)[h..], tws[l])
    ensures ForwardState(t, w, tws, l, c + 1)
  {
    hide Butterfly, Forward, Chunk, ForwardBlock, Pow2, Tower, At;
    LevelFacts(tws, l);
    ForwardOneBlock(s, t, w, tws, l, c);
    var h, upper, lower := |tws[l]|, tws[l..], tws[l + 1..];
    var m := 2 * h;
    var from, to := At(c, m), At(c, m) + m;
    AtHalves(c + 1, h);
    AtNext(c, m);
    ForwardFrameBefore(s, t, w, upper, c, m, from, to);
    assert forall d :: 2 * (c + 1) <= d ==> ForwardBlock(s, w, lower, d, h);
    ForwardFrameAfter(s, t, w, lower, 2 * (c + 1), h, from, to);
  }

  lemma ForwardCombined(s: Vec, t: Vec, w: Vec, tws: seq<Vec>, l: nat, c: nat, start: nat)
    requires Tower(tws) && |s| == |w| == |t| == Pow2(|tws|) && l < |tws| && c < Pow2(l)
    requires ForwardState(s, w, tws, l, c)
    requires start == At(c, 2 * |tws[l]|) && start + 2 * |tws[l]| <= |s|
    requires s[..start] == t[..start] && s[start + 2 * |tws[l]|..] == t[start + 2 * |tws[l]|..]
    requires var h := |tws[l]|; t[start..start + 2 * h] == Butterfly(s[start..start + h], s[start + h..start + 2 * h], tws[l])
    ensures ForwardState(t, w, tws, l, c + 1)
  {
    hide Butterfly, ForwardState, At, Tower, Pow2;
    var h := |tws[l]|;
    assert Chunk(s, c, 2 * h)[..h] == s[start..start + h];
    assert Chunk(s, c, 2 * h)[h..] == s[start + h..start + 2 * h];
    ForwardStep(s, t, w, tws, l, c);
  }

  lemma ForwardNextLevel(s: Vec, w: Vec, tws: seq<Vec>, l: nat)
    requires Tower(tws) && |s| == |w| == Pow2(|tws|) && 0 < l < |tws|
    requires ForwardState(s, w, tws, l, Pow2(l))
    ensures ForwardState(s, w, tws, l - 1, 0)
  {
    hide Forward, Chunk;
    LevelFacts(tws, l);
    LevelFacts(tws, l - 1);
    var h := |tws[l - 1]|;
    forall c: nat ensures ForwardBlock(s, w, tws[l..], c, h) {
      if c >= Pow2(l) {
        BlockPastEnd(c, Pow2(l), h);
      }
    }
  }

  lemma BlockPastEnd(c: nat, count: nat, m: nat)
    requires c >= count && m >= 1
    ensures At(c, m) + m > count * m
  {
    assert (c - count) * m >= 0;
    assert (c - count) * m == c * m - count * m;
  }

  lemma ForwardStart(w: Vec, tws: seq<Vec>)
    requires Tower(tws) && |w| == Pow2(|tws|) && |tws| >= 1
    ensures ForwardState(w, w, tws, |tws| - 1, 0)
  {
    LevelFacts(tws, |tws| - 1);
    assert tws[|tws|..] == [];
  }

  lemma ForwardDone(s: Vec, w: Vec, tws: seq<Vec>)
    requires Tower(tws) && |s| == |w| == Pow2(|tws|) && |tws| >= 1
    requires ForwardState(s, w, tws, 0, 1)
    ensures s == Forward(w, tws)
  {
    hide Forward;
    LevelFacts(tws, 0);
    assert ForwardBlock(s, w, tws[0..], 0, 2 * |tws[0]|);
    assert tws[0..] == tws;
    assert Chunk(s, 0, |s|) == s && Chunk(w, 0, |w|) == w;
  }

  /** One block of a level. */
  method ForwardBlockAt(values: array<Fp>, tws: seq<Vec>, level: nat, c: nat, ghost w: Vec)
    requires Tower(tws) && |w| == values.Length == Pow2(|tws|) && level < |tws| && c < Pow2(level)
    requires ForwardState(values[..], w, tws, level, c)
    modifies values
    ensures ForwardState(values[..], w, tws, level, c + 1)
  {
    hide Butterfly, Forward, ForwardState, At, Tower, Pow2;
    LevelFacts(tws, level);
    var h := |tws[level]|;
    ChunkFits(c, Pow2(level), 2 * h, values.Length);
    ghost var before := values[..];
    var start := At(c, 2 * h);
    Combine(values, start, tws[level]);
    ForwardCombined(before, values[..], w, tws, level, c, start);
  }

  /** All blocks of one level. */
  method ForwardLevel(values: array<Fp>, tws: seq<Vec>, level: nat, ghost w: Vec)
    requires Tower(tws) && |w| == values.Length == Pow2(|tws|) && level < |tws|
    requires ForwardState(values[..], w, tws, level, 0)
    modifies values
    ensures ForwardState(values[..], w, tws, level, Pow2(level))
  {
    hide Butterfly, Forward, ForwardState, At, Tower, Pow2;
    for c := 0 to Pow2(level)
      invariant ForwardState(values[..], w, tws, level, c)
    {
      ForwardBlockAt(values, tws, level, c, w);
    }
  }

  /** In place: coefficients in, values on the domain out. */
  method FftInPlace(values: array<Fp>, tables: Tables)
    requires tables.Valid() && values.Length == Pow2(tables.logN)
    modifies values
    ensures values[..] == tables.Fft(old(values[..]))
  {
    hide Butterfly, Forward, BitReversed, CircleTower, Paired, ForwardState, At;
    BitReverse(values, tables.logN);
    ghost var w := values[..];
    var tws := tables.tw;
    ForwardStart(w, tws);
    for level := tables.logN downto 0
      invariant level > 0 ==> ForwardState(values[..], w, tws, level - 1, 0)
      invariant level == 0 ==> ForwardState(values[..], w, tws, 0, 1)
    {
      ForwardLevel(values, tws, level, w);
      if level > 0 {
        ForwardNextLevel(values[..], w, tws, level);
      }
    }
    ForwardDone(values[..], w, tws);
  }

  // ----- and back -----

  ghost predicate BackwardBlock(s: Vec, goal: Vec, itws: seq<Vec>, c: nat, m: nat)
    requires |s| == |goal| && Tower(itws) && Pow2(|itws|) == m
  {
    At(c, m) + m <= |s| ==> Chunk(goal, c, m) == Backward(Chunk(s, c, m), itws)
  }

  /** What remains to be done: whole blocks of level l from `done` on, their halves before. */
  ghost predicate BackwardState(s: Vec, goal: Vec, itws: seq<Vec>, l: nat, done: nat)
    requires Tower(itws) && |goal| == |s| == Pow2(|itws|) && l < |itws|
  {
    var h, upper, lower := |itws[l]|, itws[l..], itws[l + 1..];
    var m := 2 * h;
    LevelFacts(itws, l);
    && (forall c :: done <= c ==> BackwardBlock(s, goal, upper, c, m))
    && (forall c :: 0 <= c < 2 * done ==> BackwardBlock(s, goal, lower, c, h))
  }

  lemma BackwardOneBlock(s: Vec, t: Vec, goal: Vec, itws: seq<Vec>, l: nat, c: nat)
    requires Tower(itws) && |s| == |goal| == |t| == Pow2(|itws|) && l < |itws| && c < Pow2(l)
    requires BackwardState(s, goal, itws, l, c)
    requires var m := 2 * |itws[l]|; At(c, m) + m <= |s| && Chunk(t, c, m) == Unbutterfly(Chunk(s, c, m), itws[l])
    ensures Tower(itws[l + 1..]) && Pow2(|itws[l + 1..]|) == |itws[l]|
    ensures BackwardBlock(t, goal, itws[l + 1..], 2 * c, |itws[l]|)
    ensures BackwardBlock(t, goal, itws[l + 1..], 2 * c + 1, |itws[l]|)
  {
    hide Unbutterfly, Chunk, At;
    LevelFacts(itws, l);
    var h := |itws[l]|;
    ChunkHalves(t, c, h);
    ChunkHalves(goal, c, h);
    assert BackwardBlock(s, goal, itws[l..], c, 2 * h);
    assert itws[l..][0] == itws[l] && itws[l..][1..] == itws[l + 1..];
    var b := Chunk(t, c, 2 * h);
    assert Chunk(goal, c, 2 * h) == Backward(b[..h], itws[l + 1..]) + Backward(b[h..], itws[l + 1..]);
  }

  lemma BackwardFrame(s: Vec, t: Vec, goal: Vec, itws: seq<Vec>, c: nat, m: nat, from: nat, to: nat)
    requires |s| == |goal| == |t| && Tower(itws) && Pow2(|itws|) == m
    requires from <= to <= |s| && s[..from] == t[..from] && s[to..] == t[to..]
    requires At(c, m) + m <= from || to <= At(c, m)
    requires BackwardBlock(s, goal, itws, c, m)
    ensures BackwardBlock(t, goal, itws, c, m)
  {
    if At(c, m) + m <= |s| {
      ChunkFrame(s, t, from, to, c, m);
    }
  }

  lemma BackwardFrameBefore(s: Vec, t: Vec, goal: Vec, itws: seq<Vec>, count: nat, m: nat, from: nat, to: nat)
    requires |s| == |goal| == |t| && Tower(itws) && Pow2(|itws|) == m
    requires from <= to <= |s| && s[..from] == t[..from] && s[to..] == t[to..] && At(count, m) <= from
    requires forall d :: 0 <= d < count ==> BackwardBlock(s, goal, itws, d, m)
    ensures forall d :: 0 <= d < count ==> BackwardBlock(t, goal, itws, d, m)
  {
    hide BackwardBlock, Tower, Pow2, At;
    forall d | 0 <= d < count ensures BackwardBlock(t, goal, itws, d, m) {
      ChunkOrder(d, count, m);
      BackwardFrame(s, t, goal, itws, d, m, from, to);
    }
  }

  lemma BackwardFrameAfter(s: Vec, t: Vec, goal: Vec, itws: seq<Vec>, first: nat, m: nat, from: nat, to: nat)
    requires |s| == |goal| == |t| && Tower(itws) && Pow2(|itws|) == m
    requires from <= to <= |s| && s[..from] == t[..from] && s[to..] == t[to..] && to <= At(first, m)
    requires forall d :: first <= d ==> BackwardBlock(s, goal, itws, d, m)
    ensures forall d :: first <= d ==> BackwardBlock(t, goal, itws, d, m)
  {
    hide BackwardBlock, Tower, Pow2, At;
    forall d | first <= d ensures BackwardBlock(t, goal, itws, d, m) {
      if first < d { ChunkOrder(first, d, m); }
      BackwardFrame(s, t, goal, itws, d, m, from, to);
    }
  }

  lemma BackwardStep(s: Vec, t: Vec, goal: Vec, itws: seq<Vec>, l: nat, c: nat)
    requires Tower(itws) && |s| == |goal| == |t| == Pow2(|itws|) && l < |itws| && c < Pow2(l)
    requires BackwardState(s, goal, itws, l, c)
    requires var m := 2 * |itws[l]|; At(c, m) + m <= |s| && s[..At(c, m)] == t[..At(c, m)] && s[At(c, m) + m..] == t[At(c, m) + m..]
    requires var m := 2 * |itws[l]|; Chunk(t, c, m) == Unbutterfly(Chunk(s, c, m), itws[l])
    ensures BackwardState(t, goal, itws, l, c + 1)
  {
    hide Unbutterfly, Backward, Chunk, BackwardBlock, Pow2, Tower, At;
    LevelFacts(itws, l);
    BackwardOneBlock(s, t, goal, itws, l, c);
    var h, upper, lower := |itws[l]|, itws[l..], itws[l + 1..];
    var m := 2 * h;
    var from, to := At(c, m), At(c, m) + m;
    AtHalves(c, h);
    AtNext(c, m);
    assert forall d :: c + 1 <= d ==> BackwardBlock(s, goal, upper, d, m);
    BackwardFrameAfter(s, t, goal, upper, c + 1, m, from, to);
    BackwardFrameBefore(s, t, goal, lower, 2 * c, h, from, to);
    forall d | 0 <= d < 2 * (c + 1) ensures BackwardBlock(t, goal, lower, d, h) {
      assert d < 2 * c || d == 2 * c || d == 2 * c + 1;
    }
  }

  lemma BackwardCombined(s: Vec, t: Vec, goal: Vec, itws: seq<Vec>, l: nat, c: nat, start: nat)
    requires Tower(itws) && |s| == |goal| == |t| == Pow2(|itws|) && l < |itws| && c < Pow2(l)
    requires BackwardState(s, goal, itws, l, c)
    requires start == At(c, 2 * |itws[l]|) && start + 2 * |itws[l]| <= |s|
    requires s[..start] == t[..start] && s[start + 2 * |itws[l]|..] == t[start + 2 * |itws[l]|..]
    requires t[start..start + 2 * |itws[l]|] == Unbutterfly(s[start..start + 2 * |itws[l]|], itws[l])
    ensures BackwardState(t, goal, itws, l, c + 1)
  {
    hide Unbutterfly, BackwardState, At, Tower, Pow2;
    BackwardStep(s, t, goal, itws, l, c);
  }

  lemma BackwardNextLevel(s: Vec, goal: Vec, itws: seq<Vec>, l: nat)
    requires Tower(itws) && |s| == |goal| == Pow2(|itws|) && l + 1 < |itws|
    requires BackwardState(s, goal, itws, l, Pow2(l))
    ensures BackwardState(s, goal, itws, l + 1, 0)
  {
    hide Backward, Chunk;
    LevelFacts(itws, l);
    LevelFacts(itws, l + 1);
    var h, lower := |itws[l]|, itws[l + 1..];
    forall c: nat ensures BackwardBlock(s, goal, lower, c, h) {
      if c >= 2 * Pow2(l) {
        BlockPastEnd(c, 2 * Pow2(l), h);
      }
    }
  }

  lemma BackwardStart(s: Vec, itws: seq<Vec>)
    requires Tower(itws) && |s| == Pow2(|itws|) && |itws| >= 1
    ensures BackwardState(s, Backward(s, itws), itws, 0, 0)
  {
    hide Backward;
    LevelFacts(itws, 0);
    var goal := Backward(s, itws);
    assert itws[0..] == itws;
    forall c: nat ensures BackwardBlock(s, goal, itws, c, |s|) {
      if c == 0 {
        assert Chunk(s, 0, |s|) == s && Chunk(goal, 0, |s|) == goal;
      } else {
        BlockPastEnd(c, 1, |s|);
      }
    }
  }

  lemma BackwardDone(s: Vec, goal: Vec, itws: seq<Vec>)
    requires Tower(itws) && |s| == |goal| == Pow2(|itws|) && |itws| >= 1
    requires BackwardState(s, goal, itws, |itws| - 1, Pow2(|itws| - 1))
    ensures s == goal
  {
    var l := |itws| - 1;
    LevelFacts(itws, l);
    assert itws[|itws|..] == [];
    forall i | 0 <= i < |s| ensures s[i] == goal[i] {
      assert BackwardBlock(s, goal, itws[l + 1..], i, 1);
      assert Chunk(s, i, 1)[0] == s[i] && Chunk(goal, i, 1)[0] == goal[i];
    }
  }

  /** The level loops of `ifft`. */
  method UndoLevels(values: array<Fp>, tables: Tables)
    requires tables.Valid() && values.Length == Pow2(tables.logN)
    modifies values
    ensures values[..] == Backward(old(values[..]), tables.invTw)
  {
    hide Unbutterfly, Backward, CircleTower, Paired, BackwardState, At;
    var itws := tables.invTw;
    ghost var goal := Backward(values[..], itws);
    BackwardStart(values[..], itws);
    for level := 0 to tables.logN
      invariant level < tables.logN ==> BackwardState(values[..], goal, itws, level, 0)
      invariant level == tables.logN ==> BackwardState(values[..], goal, itws, level - 1, Pow2(level - 1))
    {
      LevelFacts(itws, level);
      var h := |itws[level]|;
      for c := 0 to Pow2(level)
        invariant BackwardState(values[..], goal, itws, level, c)
      {
        ChunkFits(c, Pow2(level), 2 * h, values.Length);
        ghost var before := values[..];
        var start := At(c, 2 * h);
        Icombine(values, start, itws[level]);
        BackwardCombined(before, values[..], goal, itws, level, c, start);
      }
      if level + 1 < tables.logN {
        BackwardNextLevel(values[..], goal, itws, level);
      }
    }
    BackwardDone(values[..], goal, itws);
  }

  /** In place: values on the domain in, coefficients out. */
  method IfftInPlace(values: array<Fp>, tables: Tables)
    requires tables.Valid() && values.Length == Pow2(tables.logN)
    modifies values
    ensures values[..] == tables.Ifft(old(values[..]))
  {
    hide Backward, BitReversed;
    UndoLevels(values, tables);
    BitReverse(values, tables.logN);
    ScaleInPlace(values, tables.nInv);
  }

  /** The last loop of `ifft`. */
  method ScaleInPlace(values: array<Fp>, factor: Fp)
    modifies values
    ensures values[..] == Scale(factor, old(values[..]))
  {
    ghost var was := values[..];
    for i := 0 to values.Length
      invariant forall j :: 0 <= j < i ==> values[j] == Mul(factor, was[j])
      invariant forall j :: i <= j < values.Length ==> values[j] == was[j]
    {
      MulComm(factor, values[i]);
      values[i] := Mul(values[i], factor);
    }
  }
}
