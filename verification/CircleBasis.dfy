/** The universal basis of functions on the circle (circle_fft.rs): element j is y to the lowest bit of j times, for
    every higher bit k that is set, the (k - 1)-fold doubling map of x. */
module CircleBasis {
  import opened Field
  import opened Vectors
  import opened Bits
  import opened CircleGroup

  function Evens(c: Vec): (e: Vec)
    ensures |e| == (|c| + 1) / 2
  {
    seq((|c| + 1) / 2, i requires 0 <= i < (|c| + 1) / 2 => c[2 * i])
  }

  function Odds(c: Vec): (o: Vec)
    ensures |o| == |c| / 2
  {
    seq(|c| / 2, i requires 0 <= i < |c| / 2 => c[2 * i + 1])
  }

  lemma SplitSnoc(a: Vec, n: nat)
    requires |a| == n + 1
    ensures n % 2 == 0 ==> Evens(a) == Evens(a[..n]) + [a[n]] && Odds(a) == Odds(a[..n])
    ensures n % 2 == 1 ==> Odds(a) == Odds(a[..n]) + [a[n]] && Evens(a) == Evens(a[..n])
  {
  }

  lemma {:induction false} DotSplit(a: Vec, b: Vec)
    requires |a| == |b|
    ensures Dot(a, b) == Add(Dot(Evens(a), Evens(b)), Dot(Odds(a), Odds(b)))
  {
    if a == [] {
      Units(0);
    } else {
      var n := |a| - 1;
      DotSplit(a[..n], b[..n]);
      SplitSnoc(a, n);
      SplitSnoc(b, n);
      hide Evens, Odds, Dot;
      assert Dot(a, b) == Add(Dot(a[..n], b[..n]), Mul(a[n], b[n])) by { DotSnoc(a[..n], b[..n], a[n], b[n]); assert a[..n] + [a[n]] == a && b[..n] + [b[n]] == b; }
      var e, o := Dot(Evens(a[..n]), Evens(b[..n])), Dot(Odds(a[..n]), Odds(b[..n]));
      if n % 2 == 0 {
        DotSnoc(Evens(a[..n]), Evens(b[..n]), a[n], b[n]);
        AddSwapLast(e, o, Mul(a[n], b[n]));
      } else {
        DotSnoc(Odds(a[..n]), Odds(b[..n]), a[n], b[n]);
        AddAssoc(e, o, Mul(a[n], b[n]));
      }
    }
  }

  /** The part of a basis element that depends on x alone. */
  function XBasis(m: nat, u: Fp): Fp
    decreases m
  {
    if m == 0 then 1 else Mul(if m % 2 == 1 then u else 1, XBasis(m / 2, Pi(u)))
  }

  function XRow(n: nat, u: Fp): (r: Vec)
    ensures |r| == n
  {
    seq(n, m requires 0 <= m => XBasis(m, u))
  }

  function EvalX(c: Vec, u: Fp): Fp { Dot(c, XRow(|c|, u)) }

  /** Basis element j of the circle. */
  function Basis(j: nat, p: Point): Fp { Mul(if j % 2 == 1 then p.y else 1, XBasis(j / 2, p.x)) }

  function BasisRow(n: nat, p: Point): (r: Vec)
    ensures |r| == n
  {
    seq(n, j requires 0 <= j => Basis(j, p))
  }

  /** The function with coefficients c, at p. */
  function EvalC(c: Vec, p: Point): Fp { Dot(c, BasisRow(|c|, p)) }

  lemma XRowSplit(n: nat, u: Fp)
    ensures Evens(XRow(n, u)) == XRow((n + 1) / 2, Pi(u))
    ensures Odds(XRow(n, u)) == Scale(u, XRow(n / 2, Pi(u)))
  {
    hide Pi;
    forall i | 0 <= i < (n + 1) / 2 ensures XBasis(2 * i, u) == XBasis(i, Pi(u)) {
      Units(XBasis(i, Pi(u)));
    }
  }

  /** Even and odd coefficients separate. */
  lemma EvalXSplit(c: Vec, u: Fp)
    ensures EvalX(c, u) == Add(EvalX(Evens(c), Pi(u)), Mul(u, EvalX(Odds(c), Pi(u))))
  {
    hide Pi;
    DotSplit(c, XRow(|c|, u));
    XRowSplit(|c|, u);
    var odd := XRow(|c| / 2, Pi(u));
    DotComm(Odds(c), Scale(u, odd));
    DotScale(u, odd, Odds(c));
    DotComm(Odds(c), odd);
  }

  lemma BasisPair(i: nat, p: Point)
    ensures Basis(2 * i, p) == XBasis(i, p.x)
    ensures Basis(2 * i + 1, p) == Mul(p.y, XBasis(i, p.x))
  {
    var e, o := 2 * i, 2 * i + 1;
    assert e % 2 == 0 && e / 2 == i && o % 2 == 1 && o / 2 == i;
    hide XBasis;
    Units(XBasis(i, p.x));
    assert Basis(e, p) == XBasis(i, p.x);
    assert Basis(o, p) == Mul(p.y, XBasis(i, p.x));
  }

  lemma BasisRowSplit(n: nat, p: Point)
    ensures Evens(BasisRow(n, p)) == XRow((n + 1) / 2, p.x)
    ensures Odds(BasisRow(n, p)) == Scale(p.y, XRow(n / 2, p.x))
  {
    hide XBasis, Basis;
    forall i: nat ensures Basis(2 * i, p) == XBasis(i, p.x) && Basis(2 * i + 1, p) == Mul(p.y, XBasis(i, p.x)) {
      BasisPair(i, p);
    }
  }

  lemma EvalCSplit(c: Vec, p: Point)
    ensures EvalC(c, p) == Add(EvalX(Evens(c), p.x), Mul(p.y, EvalX(Odds(c), p.x)))
  {
    hide XBasis, Basis;
    DotSplit(c, BasisRow(|c|, p));
    BasisRowSplit(|c|, p);
    var odd := XRow(|c| / 2, p.x);
    DotComm(Odds(c), Scale(p.y, odd));
    DotScale(p.y, odd, Odds(c));
    DotComm(Odds(c), odd);
  }

  lemma EvalXOne(c: Vec, u: Fp)
    requires |c| == 1
    ensures EvalX(c, u) == c[0]
  {
    assert c == [] + [c[0]] && XRow(1, u) == [] + [1];
    DotSnoc([], [], c[0], 1);
    Units(c[0]);
  }

  /** Padding with zero coefficients changes nothing. */
  lemma EvalCPad(c: Vec, n: nat, p: Point)
    ensures EvalC(c + Zeros(n), p) == EvalC(c, p)
  {
    hide Dot, Basis;
    var row := BasisRow(|c| + n, p);
    assert row == row[..|c|] + row[|c|..];
    assert row[..|c|] == BasisRow(|c|, p);
    DotConcat(c, row[..|c|], Zeros(n), row[|c|..]);
    DotZeros(row[|c|..]);
    Units(EvalC(c, p));
  }

  lemma EvalCAdd(c: Vec, d: Vec, p: Point)
    requires |c| == |d|
    ensures EvalC(VAdd(c, d), p) == Add(EvalC(c, p), EvalC(d, p))
  {
    DotAdd(c, d, BasisRow(|c|, p));
  }

  // ----- evaluation at one point, as a loop over the coefficients -----

  /** How many doublings of x the first n basis elements use. */
  function PiCount(n: nat): nat { if n <= 2 then 0 else FloorLog(n - 1) }

  function FloorLog(n: nat): (k: nat)
    requires n >= 1
  {
    if n == 1 then 0 else 1 + FloorLog(n / 2)
  }

  lemma {:induction false} FloorLogBounds(n: nat)
    requires n >= 1
    ensures Pow2(FloorLog(n)) <= n < Pow2(FloorLog(n) + 1)
  {
    if n > 1 {
      FloorLogBounds(n / 2);
    } else {
      assert Pow2(1) == 2 * Pow2(0);
    }
  }

  method PiTable(x: Fp, count: nat) returns (pis: Vec)
    ensures |pis| == count && forall k :: 0 <= k < count ==> pis[k] == PiN(x, k)
  {
    hide Pi;
    pis := [];
    if count > 0 {
      pis := pis + [x];
      for k := 1 to count
        invariant |pis| == k
        invariant forall i :: 0 <= i < k ==> pis[i] == PiN(x, i)
      {
        var last := pis[|pis| - 1];
        PiNNext(x, k - 1);
        pis := pis + [Sub(Add(Mul(last, last), Mul(last, last)), 1)];
        PiUnfold(last);
      }
    }
  }

  lemma PiUnfold(x: Fp)
    ensures Pi(x) == Sub(Add(Mul(x, x), Mul(x, x)), 1)
  {
  }

  /** What is left of the x-part after the first k doublings. */
  function Rest(m: nat, x: Fp, k: nat): Fp { XBasis(Shr(m, k), PiN(x, k)) }

  lemma RestStep(m: nat, x: Fp, k: nat)
    ensures Rest(m, x, k) == if Bit(m, k) then Mul(PiN(x, k), Rest(m, x, k + 1)) else Rest(m, x, k + 1)
  {
    hide Pi;
    ShrBit(m, k);
    PiNNext(x, k);
    Units(Rest(m, x, k + 1));
  }

  lemma {:induction false} ShrBig(m: nat, k: nat)
    requires m < Pow2(k)
    ensures Shr(m, k) == 0
    decreases k
  {
    if k > 0 { ShrBig(m / 2, k - 1); }
  }

  method BasisElement(j: nat, p: Point, pis: Vec) returns (basis: Fp)
    requires forall k :: 0 <= k < |pis| ==> pis[k] == PiN(p.x, k)
    requires j / 2 < Pow2(|pis|)
    ensures basis == Basis(j, p)
  {
    hide Pi;
    basis := if j % 2 == 1 then p.y else 1;
    assert Rest(j / 2, p.x, 0) == XBasis(j / 2, p.x);
    for k := 0 to |pis|
      invariant Mul(basis, Rest(j / 2, p.x, k)) == Basis(j, p)
    {
      RestStep(j / 2, p.x, k);
      assert Bit(j, k + 1) == Bit(j / 2, k);
      if Bit(j, k + 1) {
        MulAssoc(basis, pis[k], Rest(j / 2, p.x, k + 1));
        basis := Mul(basis, pis[k]);
      }
    }
    ShrBig(j / 2, |pis|);
    Units(basis);
  }

  lemma PiCountCovers(n: nat, j: nat)
    requires j < n
    ensures j / 2 < Pow2(PiCount(n))
  {
    if n > 2 { FloorLogBounds(n - 1); }
  }

  method EvaluateAt(messagePrefix: Vec, point: Point) returns (acc: Fp)
    ensures acc == EvalC(messagePrefix, point)
  {
    hide Basis, PiN;
    var pis := PiTable(point.x, PiCount(|messagePrefix|));
    acc := 0;
    var n := |messagePrefix|;
    for j := 0 to n
      invariant acc == Dot(messagePrefix[..j], BasisRow(n, point)[..j])
    {
      PiCountCovers(n, j);
      var basis := BasisElement(j, point, pis);
      assert messagePrefix[..j + 1][..j] == messagePrefix[..j];
      assert BasisRow(n, point)[..j + 1][..j] == BasisRow(n, point)[..j];
      acc := Add(acc, Mul(messagePrefix[j], basis));
    }
    assert messagePrefix[..n] == messagePrefix && BasisRow(n, point)[..n] == BasisRow(n, point);
  }

  // ----- sums over a set of points, by linearity -----

  function SumOver(c: Vec, points: seq<Point>): Fp
  {
    if points == [] then 0
    else Add(SumOver(c, points[..|points| - 1]), EvalC(c, points[|points| - 1]))
  }

  function BasisSums(points: seq<Point>, n: nat): (s: Vec)
    ensures |s| == n
  {
    if points == [] then Zeros(n)
    else VAdd(BasisSums(points[..|points| - 1], n), BasisRow(n, points[|points| - 1]))
  }

  /** A dot product with the basis sums is the sum of the values. */
  lemma {:induction false} SumByBasis(c: Vec, points: seq<Point>, n: nat)
    requires |c| <= n
    ensures Dot(c, BasisSums(points, n)[..|c|]) == SumOver(c, points)
  {
    hide Basis;
    var s := BasisSums(points, n)[..|c|];
    DotComm(c, s);
    if points == [] {
      assert s == Zeros(|c|);
      DotZeros(c);
    } else {
      var k := |points| - 1;
      SumByBasis(c, points[..k], n);
      var t := BasisSums(points[..k], n)[..|c|];
      assert s == VAdd(t, BasisRow(|c|, points[k]));
      DotAdd(t, BasisRow(|c|, points[k]), c);
      DotComm(c, t);
      DotComm(c, BasisRow(|c|, points[k]));
    }
  }

  method BuildBasisSums(domain: seq<Point>, len: nat) returns (sums: Vec)
    ensures sums == BasisSums(domain, len)
  {
    hide Basis, PiN;
    sums := Zeros(len);
    if len == 0 {
      BasisSumsEmpty(domain);
      return;
    }
    var piCount := PiCount(len);
    for i := 0 to |domain|
      invariant sums == BasisSums(domain[..i], len)
    {
      var pis := PiTable(domain[i].x, piCount);
      var before := sums;
      for j := 0 to len
        invariant |sums| == len
        invariant forall k :: 0 <= k < j ==> sums[k] == Add(before[k], Basis(k, domain[i]))
        invariant forall k :: j <= k < len ==> sums[k] == before[k]
      {
        PiCountCovers(len, j);
        var basis := BasisElement(j, domain[i], pis);
        sums := sums[j := Add(sums[j], basis)];
      }
      assert domain[..i + 1][..i] == domain[..i];
      assert sums == VAdd(before, BasisRow(len, domain[i]));
    }
    assert domain[..|domain|] == domain;
  }

  lemma BasisSumsEmpty(points: seq<Point>)
    ensures BasisSums(points, 0) == []
  {
  }
}
