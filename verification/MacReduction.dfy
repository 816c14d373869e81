/** The bit counts behind the MAC circuit (ecdsa.rs): reduced monomials, the folded public key share, parity counts with
    their quotients, and the bound that keeps nine quotient bits enough. */
module MacReduction {
  import opened Bits
  import opened Sums
  import opened Gf128
  import opened Gf128Forms

  const PARITY_Q_BITS: nat := 9
  const PARITY_MAX_S: nat := 632

  // ----- reduced monomials -----

  /** The coefficients below `high`, the rest cleared. */
  function Below(c: Bools, high: nat): (r: Bools)
    requires high <= |c|
    ensures |r| == |c|
  {
    c[..high] + NoBits(|c| - high)
  }

  /** The out bits of x^power. High coefficients are left standing, but never read again. */
  method MonomialReductionBits(power: nat) returns (bits: Bools)
    requires power < PRODUCT_COEFFS
    ensures bits == Monomial(power)
  {
    hide Monomial, Residue;
    var coeffs := OneBit(PRODUCT_COEFFS, power);
    OneResidue(PRODUCT_COEFFS, power, 0);
    assert Below(coeffs, PRODUCT_COEFFS) == coeffs;
    for high := PRODUCT_COEFFS downto GF128_BITS
      invariant |coeffs| == PRODUCT_COEFFS
      invariant Residue(Below(coeffs, high), 0) == Monomial(power)
    {
      ghost var before := Below(coeffs, high + 1);
      if coeffs[high] {
        ReduceStepResidue(before, high);
        var k := high - GF128_BITS;
        coeffs := coeffs[k := !coeffs[k]];
        coeffs := coeffs[k + 1 := !coeffs[k + 1]];
        coeffs := coeffs[k + 2 := !coeffs[k + 2]];
        coeffs := coeffs[k + 7 := !coeffs[k + 7]];
        assert Below(coeffs, high) == ReduceStep(before, high);
      } else {
        assert Below(coeffs, high) == before;
      }
    }
    bits := coeffs[..GF128_BITS];
    ResiduePad(bits, 127, 0);
    ResidueLow(bits);
    assert bits + NoBits(0) == bits;
  }

  /** slots[out][j]: does bit j of x reach out bit `out` through the public share? */
  method AvLinearFoldSlots(avBits: Bools) returns (slots: seq<Bools>)
    requires |avBits| == GF128_BITS
    ensures |slots| == GF128_BITS && forall o :: 0 <= o < GF128_BITS ==> |slots[o]| == GF128_BITS
    ensures forall o, j :: 0 <= o < GF128_BITS && 0 <= j < GF128_BITS ==> slots[o][j] == Residue(avBits, j)[o]
  {
    hide Monomial, Residue;
    slots := seq(GF128_BITS, _ => NoBits(GF128_BITS));
    assert avBits[..0] == [];
    forall j: nat ensures Residue(avBits[..0], j) == NoBits(GF128_BITS) { EmptyResidue(j); }
    for i := 0 to GF128_BITS
      invariant |slots| == GF128_BITS && forall o :: 0 <= o < GF128_BITS ==> |slots[o]| == GF128_BITS
      invariant forall o, j :: 0 <= o < GF128_BITS && 0 <= j < GF128_BITS ==> slots[o][j] == Residue(avBits[..i], j)[o]
    {
      ghost var before := slots;
      if avBits[i] {
        slots := FoldAvBit(avBits, i, slots);
      }
      forall o, j | 0 <= o < GF128_BITS && 0 <= j < GF128_BITS ensures slots[o][j] == Residue(avBits[..i + 1], j)[o] {
        ResidueSnoc(avBits, i, j);
        assert before[o][j] == Residue(avBits[..i], j)[o];
        XorAt(Residue(avBits[..i], j), Monomial(j + i), o);
      }
    }
    assert avBits[..GF128_BITS] == avBits;
  }

  lemma ResidueSnoc(c: Bools, i: nat, base: nat)
    requires i < |c|
    ensures Residue(c[..i + 1], base)
         == if c[i] then Xor(Residue(c[..i], base), Monomial(base + i)) else Residue(c[..i], base)
  {
    hide Monomial;
    assert c[..i + 1][..i] == c[..i];
  }

  method FoldAvBit(ghost avBits: Bools, i: nat, before: seq<Bools>) returns (slots: seq<Bools>)
    requires i < GF128_BITS
    requires |before| == GF128_BITS && forall o :: 0 <= o < GF128_BITS ==> |before[o]| == GF128_BITS
    ensures |slots| == GF128_BITS && forall o :: 0 <= o < GF128_BITS ==> |slots[o]| == GF128_BITS
    ensures forall o, j :: 0 <= o < GF128_BITS && 0 <= j < GF128_BITS ==>
              slots[o][j] == (before[o][j] != Monomial(j + i)[o])
  {
    hide Monomial;
    slots := before;
    for j := 0 to GF128_BITS
      invariant |slots| == GF128_BITS && forall o :: 0 <= o < GF128_BITS ==> |slots[o]| == GF128_BITS
      invariant forall o, k :: 0 <= o < GF128_BITS && 0 <= k < j ==> slots[o][k] == (before[o][k] != Monomial(k + i)[o])
      invariant forall o, k :: 0 <= o < GF128_BITS && j <= k < GF128_BITS ==> slots[o][k] == before[o][k]
    {
      var reduced := MonomialReductionBits(j + i);
      for o := 0 to GF128_BITS
        invariant |slots| == GF128_BITS && forall p :: 0 <= p < GF128_BITS ==> |slots[p]| == GF128_BITS
        invariant forall p, k :: 0 <= p < GF128_BITS && 0 <= k < GF128_BITS && k != j ==>
                    slots[p][k] == if k < j then before[p][k] != Monomial(k + i)[p] else before[p][k]
        invariant forall p :: 0 <= p < o ==> slots[p][j] == (before[p][j] != reduced[p])
        invariant forall p :: o <= p < GF128_BITS ==> slots[p][j] == before[p][j]
      {
        if reduced[o] {
          var row := slots[o];
          row := row[j := !row[j]];
          slots := slots[o := row];
        }
      }
    }
  }

  // ----- counts -----

  /** Does the pair (i, j) of set bits reach out bit b? */
  function Hit(a: Bools, x: Bools, b: nat, i: nat, j: nat): int
    requires b < GF128_BITS
  {
    if i < |a| && j < |x| && a[i] && x[j] && Monomial(i + j)[b] then 1 else 0
  }

  function RowCount(a: Bools, x: Bools, b: nat, i: nat, n: nat): int
    requires b < GF128_BITS
  {
    ISum(n, (j: nat) => Hit(a, x, b, i, j))
  }

  function ProductCount(a: Bools, x: Bools, b: nat, n: nat): int
    requires b < GF128_BITS
  {
    ISum(n, (i: nat) => RowCount(a, x, b, i, GF128_BITS))
  }

  function FoldHit(av: Bools, x: Bools, b: nat, j: nat): int
    requires b < GF128_BITS
  {
    if j < |x| && x[j] && Residue(av, j)[b] then 1 else 0
  }

  function FoldCount(av: Bools, x: Bools, b: nat, n: nat): int
    requires b < GF128_BITS
  {
    ISum(n, (j: nat) => FoldHit(av, x, b, j))
  }

  /** How many ones are added up at out bit b. */
  function Count(ap: Bools, av: Bools, x: Bools, b: nat): int
    requires b < GF128_BITS
  {
    ProductCount(ap, x, b, GF128_BITS) + FoldCount(av, x, b, GF128_BITS)
  }

  function Odd(n: int): bool { n % 2 == 1 }

  lemma OddAdd(m: int, n: int)
    ensures Odd(m + n) == (Odd(m) != Odd(n))
  {
  }

  lemma {:induction false} RowParity(a: Bools, x: Bools, b: nat, i: nat, n: nat)
    requires b < GF128_BITS && n <= |x| && i < |a|
    ensures Odd(RowCount(a, x, b, i, n)) == (a[i] && Residue(x[..n], i)[b])
  {
    hide Monomial, Odd;
    if n == 0 {
      assert x[..0] == [];
      EvenZero();
    } else {
      RowParity(a, x, b, i, n - 1);
      ResidueSnoc(x, n - 1, i);
      OddAdd(RowCount(a, x, b, i, n - 1), Hit(a, x, b, i, n - 1));
      EvenZero();
    }
  }

  lemma EvenZero()
    ensures !Odd(0) && Odd(1)
  {
  }

  lemma {:induction false} ProductParity(a: Bools, x: Bools, b: nat, n: nat)
    requires b < GF128_BITS && |x| == GF128_BITS && n <= |a|
    ensures Odd(ProductCount(a, x, b, n)) == Product(a[..n], x)[b]
  {
    hide Monomial, Residue, Odd, RowCount;
    EvenZero();
    if n == 0 {
      assert a[..0] == [];
    } else {
      ProductParity(a, x, b, n - 1);
      RowParity(a, x, b, n - 1, GF128_BITS);
      assert x[..GF128_BITS] == x && a[..n][..n - 1] == a[..n - 1];
      OddAdd(ProductCount(a, x, b, n - 1), RowCount(a, x, b, n - 1, GF128_BITS));
    }
  }

  lemma {:induction false} FoldParity(av: Bools, x: Bools, b: nat, n: nat)
    requires b < GF128_BITS && n <= |x|
    ensures Odd(FoldCount(av, x, b, n)) == Product(x[..n], av)[b]
  {
    hide Monomial, Residue, Odd;
    EvenZero();
    if n == 0 {
      assert x[..0] == [];
    } else {
      FoldParity(av, x, b, n - 1);
      assert x[..n][..n - 1] == x[..n - 1];
      OddAdd(FoldCount(av, x, b, n - 1), FoldHit(av, x, b, n - 1));
    }
  }

  /** The parity of the count is the tag bit. */
  lemma CountParity(ap: Bools, av: Bools, x: Bools, b: nat)
    requires |ap| == |av| == |x| == GF128_BITS && b < GF128_BITS
    ensures Odd(Count(ap, av, x, b)) == Product(Xor(ap, av), x)[b]
  {
    hide Product, Odd, ProductCount, FoldCount;
    ProductParity(ap, x, b, GF128_BITS);
    FoldParity(av, x, b, GF128_BITS);
    assert ap[..GF128_BITS] == ap && x[..GF128_BITS] == x;
    ProductComm(x, av);
    ProductXor(ap, av, x);
    OddAdd(ProductCount(ap, x, b, GF128_BITS), FoldCount(av, x, b, GF128_BITS));
  }

  // ----- the bound -----

  /** How many pairs of indices below 128 add up to c. */
  function Pairs(c: nat): nat
  {
    if c < 128 then c + 1 else if c <= 254 then 255 - c else 0
  }

  function IsPower(p: nat, c: nat): int { if p == c then 1 else 0 }

  function InRow(c: nat, i: nat): int { if i <= c < i + 128 then 1 else 0 }

  lemma RowHits(c: nat, i: nat)
    ensures ISum(GF128_BITS, (j: nat) => IsPower(i + j, c)) == InRow(c, i)
  {
    var f := (j: nat) => IsPower(i + j, c);
    forall j: nat ensures f(j) == if i + j == c then 1 else 0 {
      assert IsPower(i + j, c) == if i + j == c then 1 else 0;
    }
    if i <= c < i + 128 {
      ISumSingle(GF128_BITS, f, c - i);
      assert f(c - i) == 1;
    } else {
      ISumZero(GF128_BITS, f);
    }
  }

  lemma {:induction false} RowsHit(c: nat, n: nat)
    requires n <= GF128_BITS
    ensures ISum(n, (i: nat) => InRow(c, i))
         == if c < 128 then (if n <= c then n else c + 1) else if c < n + 127 && c <= 254 then n + 127 - c else 0
  {
    if n > 0 { RowsHit(c, n - 1); }
  }

  /** Multiplicity of p in a list. */
  function Occurs(list: seq<nat>, p: nat): int
  {
    if list == [] then 0 else Occurs(list[..|list| - 1], p) + IsPower(p, list[|list| - 1])
  }

  function Total(list: seq<nat>): int
  {
    if list == [] then 0 else Total(list[..|list| - 1]) + Pairs(list[|list| - 1])
  }

  function PairRow(f: nat -> int, i: nat): int { ISum(GF128_BITS, (j: nat) => f(i + j)) }

  function PairSum(f: nat -> int): int { ISum(GF128_BITS, (i: nat) => PairRow(f, i)) }

  lemma PairSumAdd(f: nat -> int, g: nat -> int, h: nat -> int)
    requires forall p: nat :: h(p) == f(p) + g(p)
    ensures PairSum(h) == PairSum(f) + PairSum(g)
  {
    forall i: nat ensures PairRow(h, i) == PairRow(f, i) + PairRow(g, i) {
      ISumAdd(GF128_BITS, (j: nat) => f(i + j), (j: nat) => g(i + j), (j: nat) => h(i + j));
    }
    ISumAdd(GF128_BITS, (i: nat) => PairRow(f, i), (i: nat) => PairRow(g, i), (i: nat) => PairRow(h, i));
  }

  lemma PairSumSame(f: nat -> int, c: nat)
    requires forall p: nat :: f(p) == IsPower(p, c)
    ensures PairSum(f) == Pairs(c)
  {
    hide IsPower;
    forall i: nat ensures PairRow(f, i) == InRow(c, i) {
      RowHits(c, i);
      ISumSame(GF128_BITS, (j: nat) => f(i + j), (j: nat) => IsPower(i + j, c));
    }
    ISumSame(GF128_BITS, (i: nat) => PairRow(f, i), (i: nat) => InRow(c, i));
    RowsHit(c, GF128_BITS);
  }

  lemma PairSumNone(h: nat -> int)
    requires forall p: nat :: h(p) == 0
    ensures PairSum(h) == 0
  {
    forall i: nat ensures PairRow(h, i) == 0 { ISumZero(GF128_BITS, (j: nat) => h(i + j)); }
    ISumZero(GF128_BITS, (i: nat) => PairRow(h, i));
  }

  lemma {:induction false} PairSumList(list: seq<nat>, h: nat -> int)
    requires forall p: nat :: h(p) == Occurs(list, p)
    ensures PairSum(h) == Total(list)
  {
    if list == [] {
      PairSumNone(h);
    } else {
      hide PairSum;
      var n := |list| - 1;
      var f, g := (p: nat) => Occurs(list[..n], p), (p: nat) => IsPower(p, list[n]);
      PairSumList(list[..n], f);
      PairSumSame(g, list[n]);
      PairSumAdd(f, g, h);
    }
  }

  function Maybe(b: bool, c: nat): seq<nat> { if b then [c] else [] }

  /** Every power whose reduction has bit b: itself, the four folds, and the folds of folds. */
  function Cover(b: nat): seq<nat>
  {
    [b, b + 128] + Maybe(b >= 1, b + 127) + Maybe(b >= 2, b + 126) + Maybe(b >= 7, b + 121)
    + Maybe(b <= 4, 249 + b) + Maybe(1 <= b <= 5, 248 + b) + Maybe(2 <= b <= 6, 247 + b) + Maybe(7 <= b <= 11, 242 + b)
    + Maybe(b == 0 || b == 1 || b == 2 || b == 5 || b == 6 || b == 12, 254)
  }

  lemma LowBit(k: nat, b: nat)
    requires k < GF128_BITS && b < GF128_BITS
    ensures Monomial(k)[b] == (b == k)
  {
    LowMonomial(k);
  }

  lemma FoldBit(k: nat, b: nat)
    requires b < GF128_BITS
    ensures Monomial(k + 128)[b]
         == ((Monomial(k)[b] != Monomial(k + 1)[b]) != (Monomial(k + 2)[b] != Monomial(k + 7)[b]))
  {
    hide Monomial;
    Fold(k);
  }

  lemma FirstFold(k: nat, b: nat)
    requires k <= 120 && b < GF128_BITS
    ensures Monomial(k + 128)[b] == (b == k || b == k + 1 || b == k + 2 || b == k + 7)
  {
    hide Monomial;
    FoldBit(k, b);
    LowBit(k, b); LowBit(k + 1, b); LowBit(k + 2, b); LowBit(k + 7, b);
  }

  /** The exact reductions of the powers 249 to 254. */
  lemma SecondFold(m: nat, b: nat)
    requires m <= 5 && b < GF128_BITS
    ensures m < 5 ==> (Monomial(m + 249)[b] <==>
                         b == m + 121 || b == m + 122 || b == m + 123 || b == m || b == m + 1 || b == m + 2 || b == m + 7)
    ensures m == 5 ==> (Monomial(m + 249)[b] <==>
                          b == 126 || b == 127 || b == 0 || b == 1 || b == 2 || b == 5 || b == 6 || b == 12)
  {
    hide Monomial;
    FoldBit(m + 121, b);
    FirstFold(m, b);
    LowBit(m + 121, b); LowBit(m + 122, b);
    if m < 5 { LowBit(m + 123, b); } else { FirstFold(0, b); }
  }

  lemma Covered(p: nat, b: nat)
    requires p <= 254 && b < GF128_BITS && Monomial(p)[b]
    ensures p in Cover(b)
  {
    hide Monomial;
    if p < 128 {
      LowBit(p, b);
    } else if p <= 248 {
      FirstFold(p - 128, b);
    } else {
      SecondFold(p - 249, b);
    }
  }

  lemma {:induction false} OccursAtLeastOnce(list: seq<nat>, p: nat)
    ensures Occurs(list, p) >= if p in list then 1 else 0
  {
    if list != [] {
      OccursAtLeastOnce(list[..|list| - 1], p);
      if p in list && p != list[|list| - 1] { assert p in list[..|list| - 1]; }
    }
  }

  lemma TotalSnoc(list: seq<nat>, b: bool, c: nat)
    ensures Total(list + Maybe(b, c)) == Total(list) + if b then Pairs(c) else 0
  {
    if b {
      assert (list + [c])[..|list|] == list;
    } else {
      assert list + [] == list;
    }
  }

  lemma CoverTotal(b: nat)
    requires b < GF128_BITS
    ensures Total(Cover(b)) <= 504
  {
    hide Total;
    var l2 := [b, b + 128];
    assert Total(l2) == Pairs(b) + Pairs(b + 128) by {
      TotalSnoc([], true, b);
      TotalSnoc([b], true, b + 128);
      TotalNothing();
      assert [] + [b] == [b] && [b] + [b + 128] == l2;
    }
    var l3 := l2 + Maybe(b >= 1, b + 127);
    var l4 := l3 + Maybe(b >= 2, b + 126);
    var l5 := l4 + Maybe(b >= 7, b + 121);
    var l6 := l5 + Maybe(b <= 4, 249 + b);
    var l7 := l6 + Maybe(1 <= b <= 5, 248 + b);
    var l8 := l7 + Maybe(2 <= b <= 6, 247 + b);
    var l9 := l8 + Maybe(7 <= b <= 11, 242 + b);
    hide Maybe;
    TotalSnoc(l2, b >= 1, b + 127);
    TotalSnoc(l3, b >= 2, b + 126);
    TotalSnoc(l4, b >= 7, b + 121);
    TotalSnoc(l5, b <= 4, 249 + b);
    TotalSnoc(l6, 1 <= b <= 5, 248 + b);
    TotalSnoc(l7, 2 <= b <= 6, 247 + b);
    TotalSnoc(l8, 7 <= b <= 11, 242 + b);
    TotalSnoc(l9, b == 0 || b == 1 || b == 2 || b == 5 || b == 6 || b == 12, 254);
  }

  lemma TotalNothing()
    ensures Total([]) == 0
  {
  }

  lemma HitCovered(ap: Bools, x: Bools, b: nat, i: nat, j: nat)
    requires b < GF128_BITS && i < GF128_BITS && j < GF128_BITS
    ensures Hit(ap, x, b, i, j) <= Occurs(Cover(b), i + j)
  {
    hide Monomial, Cover, Occurs;
    OccursAtLeastOnce(Cover(b), i + j);
    if Monomial(i + j)[b] { Covered(i + j, b); }
  }

  lemma RowBound(ap: Bools, x: Bools, b: nat, i: nat, f: nat -> int)
    requires b < GF128_BITS && i < GF128_BITS && forall p: nat :: f(p) == Occurs(Cover(b), p)
    ensures 0 <= RowCount(ap, x, b, i, GF128_BITS) <= PairRow(f, i)
  {
    hide Cover, Occurs;
    var hits := (j: nat) => Hit(ap, x, b, i, j);
    forall j: nat | j < GF128_BITS ensures hits(j) <= f(i + j) {
      HitCovered(ap, x, b, i, j);
    }
    ISumMono(GF128_BITS, hits, (j: nat) => f(i + j));
    ISumBounds(GF128_BITS, hits, 0, 1);
  }

  /** No count exceeds 632. */
  lemma CountBound(ap: Bools, av: Bools, x: Bools, b: nat)
    requires b < GF128_BITS
    ensures 0 <= Count(ap, av, x, b) <= PARITY_MAX_S
  {
    hide Monomial, Cover, Occurs, Total, RowCount, PairRow, FoldHit;
    var list := Cover(b);
    var rows := (i: nat) => RowCount(ap, x, b, i, GF128_BITS);
    var f := (p: nat) => Occurs(list, p);
    var bounds := (i: nat) => PairRow(f, i);
    forall i: nat | i < GF128_BITS ensures 0 <= rows(i) <= bounds(i) {
      RowBound(ap, x, b, i, f);
    }
    ISumMono(GF128_BITS, rows, bounds);
    ISumMono(GF128_BITS, (i: nat) => 0, rows);
    ISumZero(GF128_BITS, (i: nat) => 0);
    PairSumList(list, f);
    CoverTotal(b);
    FoldBound(av, x, b);
  }

  lemma FoldBound(av: Bools, x: Bools, b: nat)
    requires b < GF128_BITS
    ensures 0 <= FoldCount(av, x, b, GF128_BITS) <= GF128_BITS
  {
    hide Monomial, Residue;
    ISumBounds(GF128_BITS, (j: nat) => FoldHit(av, x, b, j), 0, 1);
  }

  // ----- the quotient witness -----

  /** The counts of the products alone. */
  method CountProducts(apBits: Bools, xBits: Bools) returns (counts: seq<int>)
    requires |apBits| == |xBits| == GF128_BITS
    ensures |counts| == GF128_BITS
    ensures forall b :: 0 <= b < GF128_BITS ==> counts[b] == ProductCount(apBits, xBits, b, GF128_BITS)
  {
    hide Monomial, Hit;
    counts := seq(GF128_BITS, _ => 0);
    for i := 0 to GF128_BITS
      invariant |counts| == GF128_BITS
      invariant forall b :: 0 <= b < GF128_BITS ==> counts[b] == ProductCount(apBits, xBits, b, i)
    {
      if apBits[i] {
        counts := CountRow(apBits, xBits, i, counts);
      } else {
        forall b | 0 <= b < GF128_BITS ensures RowCount(apBits, xBits, b, i, GF128_BITS) == 0 {
          NoHits(apBits, xBits, b, i);
        }
      }
    }
  }

  lemma NoHits(a: Bools, x: Bools, b: nat, i: nat)
    requires b < GF128_BITS && i < |a| && !a[i]
    ensures RowCount(a, x, b, i, GF128_BITS) == 0
  {
    hide Monomial;
    var f := (j: nat) => Hit(a, x, b, i, j);
    forall j: nat ensures f(j) == 0 {
      assert Hit(a, x, b, i, j) == 0;
    }
    ISumZero(GF128_BITS, f);
  }

  method CountRow(apBits: Bools, xBits: Bools, i: nat, before: seq<int>) returns (counts: seq<int>)
    requires |apBits| == |xBits| == GF128_BITS && i < GF128_BITS && apBits[i] && |before| == GF128_BITS
    ensures |counts| == GF128_BITS
    ensures forall b :: 0 <= b < GF128_BITS ==> counts[b] == before[b] + RowCount(apBits, xBits, b, i, GF128_BITS)
  {
    hide Monomial;
    counts := before;
    for j := 0 to GF128_BITS
      invariant |counts| == GF128_BITS
      invariant forall b :: 0 <= b < GF128_BITS ==> counts[b] == before[b] + RowCount(apBits, xBits, b, i, j)
    {
      ghost var start := counts;
      if xBits[j] {
        var reduced := MonomialReductionBits(i + j);
        for o := 0 to GF128_BITS
          invariant |counts| == GF128_BITS
          invariant forall b :: 0 <= b < o ==> counts[b] == start[b] + if reduced[b] then 1 else 0
          invariant forall b :: o <= b < GF128_BITS ==> counts[b] == start[b]
        {
          if reduced[o] {
            counts := counts[o := counts[o] + 1];
          }
        }
      }
      forall b | 0 <= b < GF128_BITS ensures counts[b] == start[b] + Hit(apBits, xBits, b, i, j) {
      }
    }
  }

  lemma CountParts(ap: Bools, av: Bools, x: Bools, b: nat)
    requires b < GF128_BITS
    ensures FoldCount(av, x, b, 0) == 0
    ensures Count(ap, av, x, b) == ProductCount(ap, x, b, GF128_BITS) + FoldCount(av, x, b, GF128_BITS)
  {
  }

  lemma FoldCountNext(av: Bools, x: Bools, b: nat, j: nat)
    requires b < GF128_BITS && j < |x|
    ensures FoldCount(av, x, b, j + 1) == FoldCount(av, x, b, j) + if Residue(av, j)[b] && x[j] then 1 else 0
  {
  }

  method QWitness(apBits: Bools, avBits: Bools, xBits: Bools, tagBits: Bools) returns (q: seq<Bools>)
    requires |apBits| == |avBits| == |xBits| == |tagBits| == GF128_BITS
    requires forall b :: 0 <= b < GF128_BITS ==> tagBits[b] == Odd(Count(apBits, avBits, xBits, b))
    ensures |q| == GF128_BITS
    ensures forall b :: 0 <= b < GF128_BITS ==>
              |q[b]| == PARITY_Q_BITS && Count(apBits, avBits, xBits, b) == 2 * Value(q[b]) + if tagBits[b] then 1 else 0
  {
    hide Monomial, Residue, Value, ProductCount, FoldCount, Count;
    var counts := CountProducts(apBits, xBits);
    var avFold := AvLinearFoldSlots(avBits);
    for o := 0 to GF128_BITS
      invariant |counts| == GF128_BITS
      invariant forall b :: 0 <= b < o ==> counts[b] == Count(apBits, avBits, xBits, b)
      invariant forall b :: o <= b < GF128_BITS ==> counts[b] == ProductCount(apBits, xBits, b, GF128_BITS)
    {
      CountParts(apBits, avBits, xBits, o);
      for j := 0 to GF128_BITS
        invariant |counts| == GF128_BITS
        invariant counts[o] == ProductCount(apBits, xBits, o, GF128_BITS) + FoldCount(avBits, xBits, o, j)
        invariant forall b :: 0 <= b < o ==> counts[b] == Count(apBits, avBits, xBits, b)
        invariant forall b :: o < b < GF128_BITS ==> counts[b] == ProductCount(apBits, xBits, b, GF128_BITS)
      {
        FoldCountNext(avBits, xBits, o, j);
        if avFold[o][j] && xBits[j] {
          counts := counts[o := counts[o] + 1];
        }
      }
    }
    q := [];
    for b := 0 to GF128_BITS
      invariant |q| == b
      invariant forall k :: 0 <= k < b ==>
                  |q[k]| == PARITY_Q_BITS && Count(apBits, avBits, xBits, k) == 2 * Value(q[k]) + if tagBits[k] then 1 else 0
    {
      CountBound(apBits, avBits, xBits, b);
      var quotient := (counts[b] - if tagBits[b] then 1 else 0) / 2;
      var bits := QuotientBits(quotient);
      q := q + [bits];
    }
  }

  method QuotientBits(quotient: nat) returns (bits: Bools)
    requires quotient <= PARITY_MAX_S / 2
    ensures |bits| == PARITY_Q_BITS && Value(bits) == quotient
  {
    bits := seq(PARITY_Q_BITS, k requires 0 <= k => Bit(quotient, k));
    assert Pow2(9) == 512;
    ValueOfBits(quotient, PARITY_Q_BITS, bits);
  }
}
