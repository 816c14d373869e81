/** What the MAC circuit proves (ecdsa.rs): for an input with constant one, all outputs are zero exactly when the wires
    are bits and the tag is (ap + av) x in GF(2^128). */
module MacTheorems {
  import opened Modulus
  import opened Integers
  import opened Field
  import opened Vectors
  import opened Bits
  import opened Circuits
  import opened Sums
  import opened Gf128
  import opened MacReduction
  import opened MacCircuit

  lemma OtherWire(t: QuadTerm, w: nat, next: Vec)
    requires t.out != w
    ensures TermAt(t, w, next) == 0
  {
  }

  lemma UnitTerm(t: QuadTerm, next: Vec)
    requires t.coeff == 1 && t.r == 0 && Get(next, 0) == 1
    ensures TermAt(t, t.out, next) == Get(next, t.l)
  {
    Units(Get(next, t.l));
  }

  // ----- parts that miss a wire -----

  lemma ProductPartMisses(w: nat, next: Vec)
    requires w == 0 || w >= 256
    ensures ProductPart(GF128_BITS, w, next) == 0
  {
    forall i: nat | i < GF128_BITS ensures ProductRow(i, GF128_BITS, w, next) == 0 {
      forall j: nat | j < GF128_BITS ensures TermAt(ProductTerm(i, j), w, next) == 0 { OtherWire(ProductTerm(i, j), w, next); }
      FSumZero(GF128_BITS, (j: nat) => TermAt(ProductTerm(i, j), w, next));
    }
    FSumZero(GF128_BITS, (i: nat) => ProductRow(i, GF128_BITS, w, next));
  }

  lemma FoldRowMisses(slots: seq<Bools>, o: nat, w: nat, next: Vec)
    requires w != TREE_L_START + o
    ensures FoldRow(slots, o, GF128_BITS, w, next) == 0
  {
    forall j: nat ensures FoldTermAt(slots, o, j, w, next) == 0 { OtherWire(FoldTerm(o, j), w, next); }
    FSumZero(GF128_BITS, (j: nat) => FoldTermAt(slots, o, j, w, next));
  }

  lemma FoldPartAt(slots: seq<Bools>, w: nat, next: Vec)
    ensures FoldPart(slots, GF128_BITS, w, next)
         == if TREE_L_START <= w < TREE_L_START + GF128_BITS then FoldRow(slots, w - TREE_L_START, GF128_BITS, w, next) else 0
  {
    hide FoldRow;
    var f := (o: nat) => FoldRow(slots, o, GF128_BITS, w, next);
    forall o: nat | w != TREE_L_START + o ensures f(o) == 0 { FoldRowMisses(slots, o, w, next); }
    if TREE_L_START <= w < TREE_L_START + GF128_BITS {
      FSumSingle(GF128_BITS, f, w - TREE_L_START);
    } else {
      FSumZero(GF128_BITS, f);
    }
  }

  lemma QRowMisses(b: nat, w: nat, next: Vec)
    requires w != TREE_QSUM_START + b
    ensures QRow(b, PARITY_Q_BITS, w, next) == 0
  {
    hide R;
    forall k: nat ensures TermAt(QTerm(b, k), w, next) == 0 { OtherWire(QTerm(b, k), w, next); }
    FSumZero(PARITY_Q_BITS, (k: nat) => TermAt(QTerm(b, k), w, next));
  }

  lemma QPartAt(w: nat, next: Vec)
    ensures QPart(GF128_BITS, w, next)
         == if TREE_QSUM_START <= w < TREE_QSUM_START + GF128_BITS then QRow(w - TREE_QSUM_START, PARITY_Q_BITS, w, next) else 0
  {
    hide R, QRow;
    var f := (b: nat) => QRow(b, PARITY_Q_BITS, w, next);
    forall b: nat | w != TREE_QSUM_START + b ensures f(b) == 0 { QRowMisses(b, w, next); }
    if TREE_QSUM_START <= w < TREE_QSUM_START + GF128_BITS {
      FSumSingle(GF128_BITS, f, w - TREE_QSUM_START);
    } else {
      FSumZero(GF128_BITS, f);
    }
  }

  lemma BoolAtMisses(out: nat, wire: nat, w: nat, next: Vec)
    requires w != out
    ensures BoolAt(out, wire, w, next) == 0
  {
    OtherWire(QuadTerm(out, wire, wire, 1), w, next);
    OtherWire(QuadTerm(out, wire, 0, Neg(1)), w, next);
    Units(0);
  }

  /** The wire behind local constraint s of bit position b: x, ap, then the quotient bits. */
  function LocalSource(b: nat, s: nat): nat
  {
    if s == 0 then X_BITS_START + b else if s == 1 then AP_BITS_START + b else QBitIndex(b, s - 2)
  }

  lemma BoolRowAt(b: nat, s: nat, w: nat, next: Vec)
    requires s < 11 && w == LOCAL_START + 11 * b + s
    ensures BoolRow(b, w, next) == BoolAt(w, LocalSource(b, s), w, next)
  {
    hide BoolAt;
    var base := LOCAL_START + 11 * b;
    var f := (k: nat) => BoolAt(base + 2 + k, QBitIndex(b, k), w, next);
    forall k: nat | s != k + 2 ensures f(k) == 0 { BoolAtMisses(base + 2 + k, QBitIndex(b, k), w, next); }
    if s != 0 { BoolAtMisses(base, X_BITS_START + b, w, next); }
    if s != 1 { BoolAtMisses(base + 1, AP_BITS_START + b, w, next); }
    if s < 2 { FSumZero(PARITY_Q_BITS, f); } else { FSumSingle(PARITY_Q_BITS, f, s - 2); }
    Units(BoolAt(w, LocalSource(b, s), w, next));
    Units(0);
  }

  lemma BoolRowMisses(b: nat, w: nat, next: Vec)
    requires w < LOCAL_START + 11 * b || LOCAL_START + 11 * b + 11 <= w
    ensures BoolRow(b, w, next) == 0
  {
    hide BoolAt;
    var base := LOCAL_START + 11 * b;
    var f := (k: nat) => BoolAt(base + 2 + k, QBitIndex(b, k), w, next);
    forall k: nat | k < PARITY_Q_BITS ensures f(k) == 0 { BoolAtMisses(base + 2 + k, QBitIndex(b, k), w, next); }
    BoolAtMisses(base, X_BITS_START + b, w, next);
    BoolAtMisses(base + 1, AP_BITS_START + b, w, next);
    FSumZero(PARITY_Q_BITS, f);
    Units(0);
  }

  lemma BoolPartAt(b: nat, s: nat, w: nat, next: Vec)
    requires b < GF128_BITS && s < 11 && w == LOCAL_START + 11 * b + s
    ensures BoolPart(GF128_BITS, w, next) == BoolAt(w, LocalSource(b, s), w, next)
  {
    hide BoolAt, BoolRow;
    var f := (c: nat) => BoolRow(c, w, next);
    forall c: nat | c != b ensures f(c) == 0 { BoolRowMisses(c, w, next); }
    FSumSingle(GF128_BITS, f, b);
    BoolRowAt(b, s, w, next);
  }

  lemma BoolPartMisses(w: nat, next: Vec)
    requires w < LOCAL_START || TAG_PIN_START <= w
    ensures BoolPart(GF128_BITS, w, next) == 0
  {
    hide BoolRow;
    var f := (c: nat) => BoolRow(c, w, next);
    forall c: nat | c < GF128_BITS ensures f(c) == 0 { BoolRowMisses(c, w, next); }
    FSumZero(GF128_BITS, f);
  }

  // ----- the wires above the inputs -----

  lemma InputWires(slots: seq<Bools>, w: nat, next: Vec)
    requires Get(next, 0) == 1
    ensures w == 0 ==> InputLayerPart(slots, w, next) == 1
    ensures 1 <= w < 256 ==> InputLayerPart(slots, w, next) == ProductPart(GF128_BITS, w, next)
    ensures TREE_L_START <= w < TREE_QSUM_START ==>
              InputLayerPart(slots, w, next) == FoldRow(slots, w - TREE_L_START, GF128_BITS, w, next)
    ensures TREE_QSUM_START <= w < LOCAL_START ==>
              InputLayerPart(slots, w, next) == QRow(w - TREE_QSUM_START, PARITY_Q_BITS, w, next)
    ensures LOCAL_START <= w < TAG_PIN_START ==>
              InputLayerPart(slots, w, next)
              == BoolAt(w, LocalSource((w - LOCAL_START) / 11, (w - LOCAL_START) % 11), w, next)
    ensures TAG_PIN_START <= w ==> InputLayerPart(slots, w, next) == 0
  {
    hide ProductPart, FoldPart, QPart, BoolPart, FoldRow, QRow, BoolAt;
    if w == 0 { UnitTerm(ConstTerm(), next); } else { OtherWire(ConstTerm(), w, next); }
    if w == 0 || w >= 256 { ProductPartMisses(w, next); }
    FoldPartAt(slots, w, next);
    QPartAt(w, next);
    if LOCAL_START <= w < TAG_PIN_START {
      BoolPartAt((w - LOCAL_START) / 11, (w - LOCAL_START) % 11, w, next);
    } else {
      BoolPartMisses(w, next);
    }
    Units(0);
    Units(1);
    Units(InputLayerPart(slots, w, next));
    Units(ProductPart(GF128_BITS, w, next));
    Units(FoldPart(slots, GF128_BITS, w, next));
    Units(QPart(GF128_BITS, w, next));
    Units(BoolPart(GF128_BITS, w, next));
  }

  // ----- the wires of the other two layers -----

  lemma CarryAt(to: nat, w: nat, next: Vec)
    requires Get(next, 0) == 1
    ensures CarryPart(to, LOCAL_CONSTRAINTS, w, next)
         == if to <= w < to + LOCAL_CONSTRAINTS then Get(next, LOCAL_START + (w - to)) else 0
  {
    var f := (i: nat) => TermAt(QuadTerm(to + i, LOCAL_START + i, 0, 1), w, next);
    forall i: nat | w != to + i ensures f(i) == 0 { OtherWire(QuadTerm(to + i, LOCAL_START + i, 0, 1), w, next); }
    if to <= w < to + LOCAL_CONSTRAINTS {
      FSumSingle(LOCAL_CONSTRAINTS, f, w - to);
      UnitTerm(QuadTerm(w, LOCAL_START + (w - to), 0, 1), next);
    } else {
      FSumZero(LOCAL_CONSTRAINTS, f);
    }
  }

  lemma PinRowMisses(b: nat, tagBit: bool, w: nat, next: Vec)
    requires w != TAG_PIN_START + b
    ensures PinRow(b, tagBit, w, next) == 0
  {
    hide Monomial, TermAt;
    forall p: nat ensures ReduceTermAt(b, p, w, next) == 0 { OtherWire(QuadTerm(TAG_PIN_START + b, 1 + p, 0, 1), w, next); }
    FSumZero(PRODUCT_COEFFS, (p: nat) => ReduceTermAt(b, p, w, next));
    OtherWire(QuadTerm(TAG_PIN_START + b, TREE_L_START + b, 0, 1), w, next);
    OtherWire(QuadTerm(TAG_PIN_START + b, TREE_QSUM_START + b, 0, Neg(2)), w, next);
    OtherWire(QuadTerm(TAG_PIN_START + b, 0, 0, Neg(1)), w, next);
    Units(0);
  }

  lemma PinPartAt(tagBits: Bools, w: nat, next: Vec)
    requires |tagBits| == GF128_BITS
    ensures PinPart(tagBits, GF128_BITS, w, next)
         == if TAG_PIN_START <= w < WIDTH then PinRow(w - TAG_PIN_START, tagBits[w - TAG_PIN_START], w, next) else 0
  {
    hide PinRow;
    var f := (b: nat) => PinAt(tagBits, b, w, next);
    forall b: nat | w != TAG_PIN_START + b ensures f(b) == 0 {
      if b < GF128_BITS { PinRowMisses(b, tagBits[b], w, next); }
    }
    if TAG_PIN_START <= w < WIDTH {
      FSumSingle(GF128_BITS, f, w - TAG_PIN_START);
    } else {
      FSumZero(GF128_BITS, f);
    }
  }

  lemma ReduceWires(tagBits: Bools, w: nat, next: Vec)
    requires |tagBits| == GF128_BITS && Get(next, 0) == 1
    ensures w == 0 ==> ReduceLayerPart(tagBits, w, next) == 1
    ensures LOCAL_START <= w < TAG_PIN_START ==> ReduceLayerPart(tagBits, w, next) == Get(next, w)
    ensures TAG_PIN_START <= w < WIDTH ==>
              ReduceLayerPart(tagBits, w, next)
              == Add(PinRow(w - TAG_PIN_START, tagBits[w - TAG_PIN_START], w, next), Get(next, w))
  {
    hide PinPart, CarryPart, PinRow;
    if w == 0 { UnitTerm(ConstTerm(), next); } else { OtherWire(ConstTerm(), w, next); }
    PinPartAt(tagBits, w, next);
    CarryAt(LOCAL_START, w, next);
    Units(0);
    Units(1);
    Units(Get(next, w));
    Units(PinPart(tagBits, GF128_BITS, w, next));
  }

  // ----- bits and integers -----

  predicate IsBit(v: Fp) { v == 0 || v == 1 }

  function BitsAt(v: Vec, from: nat): (b: Bools)
    ensures |b| == GF128_BITS
  {
    seq(GF128_BITS, i requires 0 <= i => Get(v, from + i) == 1)
  }

  function QuotientAt(v: Vec, b: nat): (q: Bools)
    ensures |q| == PARITY_Q_BITS
  {
    seq(PARITY_Q_BITS, k requires 0 <= k => Get(v, QBitIndex(b, k)) == 1)
  }

  /** Every x, ap and quotient wire holds a bit. */
  predicate AllBits(v: Vec)
  {
    forall b, s :: 0 <= b < GF128_BITS && 0 <= s < 11 ==> IsBit(Get(v, LocalSource(b, s)))
  }

  function AsInt(b: bool): int { if b then 1 else 0 }

  lemma BitImage(v: Fp)
    requires IsBit(v)
    ensures v == R(AsInt(v == 1))
  {
    Canonical(0);
    Canonical(1);
  }

  lemma BitsHold(v: Vec, b: nat, k: nat)
    requires AllBits(v) && b < GF128_BITS
    ensures IsBit(Get(v, X_BITS_START + b)) && IsBit(Get(v, AP_BITS_START + b))
    ensures k < PARITY_Q_BITS ==> IsBit(Get(v, QBitIndex(b, k)))
  {
    assert LocalSource(b, 0) == X_BITS_START + b && LocalSource(b, 1) == AP_BITS_START + b;
    if k < PARITY_Q_BITS { assert LocalSource(b, k + 2) == QBitIndex(b, k); }
  }

  lemma SquareMinus(v: Fp)
    ensures Add(Mul(Mul(1, v), v), Mul(Mul(Sub(0, 1), v), 1))
       == Mul(v, Sub(v, 1))
  {
    Same(ZAdd(ZMul(ZMul(1, v), v), ZMul(ZMul(ZSub(0, 1), v), 1)),
         ZMul(v, ZSub(v, 1)));
    hide *;
    Ring(v);
  }

  /** The constraint x^2 - x = 0. */
  lemma BoolConstraint(w: nat, wire: nat, next: Vec)
    requires Get(next, 0) == 1
    ensures BoolAt(w, wire, w, next) == 0 <==> IsBit(Get(next, wire))
  {
    var v := Get(next, wire);
    SquareMinus(v);
    if Mul(v, Sub(v, 1)) == 0 {
      NoZeroDivisors(v, Sub(v, 1));
      if Sub(v, 1) == 0 { SubZero(v, 1); }
    }
    if v == 1 { Units(1); }
    Units(Sub(v, 1));
    Units(0);
  }

  function PairAt(a: Bools, x: Bools, p: nat, i: nat, j: nat): int
  {
    if i < |a| && j < |x| && i + j == p && a[i] && x[j] then 1 else 0
  }

  function PairRowAt(a: Bools, x: Bools, p: nat, i: nat): int { ISum(GF128_BITS, (j: nat) => PairAt(a, x, p, i, j)) }

  /** How many pairs of set bits meet at power p. */
  function PairsAt(a: Bools, x: Bools, p: nat): int { ISum(GF128_BITS, (i: nat) => PairRowAt(a, x, p, i)) }

  lemma BitProduct(u: Fp, v: Fp, m: bool, n: bool)
    requires u == R(AsInt(m)) && v == R(AsInt(n))
    ensures Mul(Mul(1, u), v) == R(AsInt(m && n))
  {
    hide R;
    Units(u);
    RMul(AsInt(m), AsInt(n));
  }

  /** A product wire counts its pairs. */
  lemma ProductWire(v: Vec, p: nat)
    requires AllBits(v) && |v| == WIDTH
    ensures ProductPart(GF128_BITS, 1 + p, v) == R(PairsAt(BitsAt(v, AP_BITS_START), BitsAt(v, X_BITS_START), p))
  {
    hide R, AllBits;
    var a, x := BitsAt(v, AP_BITS_START), BitsAt(v, X_BITS_START);
    Canonical(0);
    forall i: nat | i < GF128_BITS ensures ProductRow(i, GF128_BITS, 1 + p, v) == R(PairRowAt(a, x, p, i)) {
      var f, g := (j: nat) => TermAt(ProductTerm(i, j), 1 + p, v), (j: nat) => PairAt(a, x, p, i, j);
      forall j: nat | j < GF128_BITS ensures f(j) == R(g(j)) {
        BitsHold(v, i, 0);
        BitsHold(v, j, 0);
        BitImage(Get(v, AP_BITS_START + i));
        BitImage(Get(v, X_BITS_START + j));
        BitProduct(Get(v, AP_BITS_START + i), Get(v, X_BITS_START + j), a[i], x[j]);
      }
      FSumImage(GF128_BITS, f, g);
    }
    FSumImage(GF128_BITS, (i: nat) => ProductRow(i, GF128_BITS, 1 + p, v), (i: nat) => PairRowAt(a, x, p, i));
  }

  lemma FoldWire(slots: seq<Bools>, avBits: Bools, v: Vec, o: nat)
    requires AllBits(v) && |v| == WIDTH && Get(v, 0) == 1 && FoldsShare(slots, avBits) && o < GF128_BITS
    ensures FoldRow(slots, o, GF128_BITS, TREE_L_START + o, v)
         == R(FoldCount(avBits, BitsAt(v, X_BITS_START), o, GF128_BITS))
  {
    hide R, AllBits, Residue;
    var x := BitsAt(v, X_BITS_START);
    Canonical(0);
    var f, g := (j: nat) => FoldTermAt(slots, o, j, TREE_L_START + o, v), (j: nat) => FoldHit(avBits, x, o, j);
    forall j: nat | j < GF128_BITS ensures f(j) == R(g(j)) {
      BitsHold(v, j, 0);
      BitImage(Get(v, X_BITS_START + j));
      UnitTerm(FoldTerm(o, j), v);
    }
    FSumImage(GF128_BITS, f, g);
  }

  lemma {:induction false} ValueSum(bits: Bools, n: nat)
    requires n <= |bits|
    ensures ISum(n, (k: nat) => if k < |bits| && bits[k] then Pow2(k) else 0) == Value(bits[..n])
  {
    hide Value;
    if n == 0 {
      assert bits[..0] == [];
      NoValue();
    } else {
      ValueSum(bits, n - 1);
      assert bits[..n] == bits[..n - 1] + [bits[n - 1]];
      ValueSnoc(bits[..n - 1], bits[n - 1]);
    }
  }

  lemma NoValue()
    ensures Value([]) == 0
  {
  }

  lemma WeightedBit(v: Fp, k: nat)
    requires IsBit(v)
    ensures Mul(Mul(R(Pow2(k)), v), 1) == R(if v == 1 then Pow2(k) else 0)
  {
    hide R, Pow2;
    Units(R(Pow2(k)));
    Units(0);
    Canonical(0);
  }

  lemma QuotientWire(v: Vec, b: nat)
    requires AllBits(v) && |v| == WIDTH && Get(v, 0) == 1 && b < GF128_BITS
    ensures QRow(b, PARITY_Q_BITS, TREE_QSUM_START + b, v) == R(Value(QuotientAt(v, b)))
  {
    hide R, AllBits, Value, Pow2;
    var q := QuotientAt(v, b);
    var f, g := (k: nat) => TermAt(QTerm(b, k), TREE_QSUM_START + b, v), (k: nat) => if k < |q| && q[k] then Pow2(k) else 0;
    forall k: nat | k < PARITY_Q_BITS ensures f(k) == R(g(k)) {
      BitsHold(v, b, k);
      WeightedBit(Get(v, QBitIndex(b, k)), k);
    }
    FSumImage(PARITY_Q_BITS, f, g);
    ValueSum(q, PARITY_Q_BITS);
    assert q[..PARITY_Q_BITS] == q;
  }

  // ----- the tag pins -----

  function ReachedPairs(a: Bools, x: Bools, b: nat, p: nat): int
    requires b < GF128_BITS
  {
    if Monomial(p)[b] then PairsAt(a, x, p) else 0
  }

  function ReachedPair(a: Bools, x: Bools, b: nat, p: nat, i: nat, j: nat): int
    requires b < GF128_BITS
  {
    if Monomial(p)[b] then PairAt(a, x, p, i, j) else 0
  }

  function ReachedRow(a: Bools, x: Bools, b: nat, p: nat, i: nat): int
    requires b < GF128_BITS
  {
    ISum(GF128_BITS, (j: nat) => ReachedPair(a, x, b, p, i, j))
  }

  lemma ReachedRows(a: Bools, x: Bools, b: nat, p: nat)
    requires b < GF128_BITS
    ensures ReachedPairs(a, x, b, p) == ISum(GF128_BITS, (i: nat) => ReachedRow(a, x, b, p, i))
  {
    hide Monomial;
    var rows := (i: nat) => ReachedRow(a, x, b, p, i);
    if Monomial(p)[b] {
      forall i: nat ensures rows(i) == PairRowAt(a, x, p, i) {
        ISumSame(GF128_BITS, (j: nat) => ReachedPair(a, x, b, p, i, j), (j: nat) => PairAt(a, x, p, i, j));
      }
      ISumSame(GF128_BITS, rows, (i: nat) => PairRowAt(a, x, p, i));
    } else {
      forall i: nat ensures rows(i) == 0 { ISumZero(GF128_BITS, (j: nat) => ReachedPair(a, x, b, p, i, j)); }
      ISumZero(GF128_BITS, rows);
    }
  }

  lemma PairToHit(a: Bools, x: Bools, b: nat, i: nat, j: nat)
    requires b < GF128_BITS && |a| == |x| == GF128_BITS
    ensures ISum(PRODUCT_COEFFS, (p: nat) => ReachedPair(a, x, b, p, i, j)) == Hit(a, x, b, i, j)
  {
    hide Monomial;
    var f := (p: nat) => ReachedPair(a, x, b, p, i, j);
    forall p: nat | p != i + j ensures f(p) == 0 { assert ReachedPair(a, x, b, p, i, j) == 0; }
    if i + j < PRODUCT_COEFFS {
      ISumSingle(PRODUCT_COEFFS, f, i + j);
      assert f(i + j) == ReachedPair(a, x, b, i + j, i, j);
    } else {
      ISumZero(PRODUCT_COEFFS, f);
    }
  }

  lemma RowToHits(a: Bools, x: Bools, b: nat, i: nat)
    requires b < GF128_BITS && |a| == |x| == GF128_BITS
    ensures ISum(PRODUCT_COEFFS, (p: nat) => ReachedRow(a, x, b, p, i)) == RowCount(a, x, b, i, GF128_BITS)
  {
    hide Monomial, ReachedPair, Hit;
    var f := (p: nat, j: nat) => ReachedPair(a, x, b, p, i, j);
    var rows, columns := (p: nat) => ReachedRow(a, x, b, p, i), (j: nat) => Hit(a, x, b, i, j);
    forall p: nat ensures rows(p) == RowSum(f, GF128_BITS, p) {
      ISumSame(GF128_BITS, (j: nat) => ReachedPair(a, x, b, p, i, j), (j: nat) => f(p, j));
    }
    forall j: nat ensures columns(j) == ColumnSum(f, PRODUCT_COEFFS, j) {
      PairToHit(a, x, b, i, j);
      ISumSame(PRODUCT_COEFFS, (p: nat) => ReachedPair(a, x, b, p, i, j), (p: nat) => f(p, j));
    }
    ISumSwap(PRODUCT_COEFFS, GF128_BITS, f, rows, columns);
  }

  /** Counting by powers or by pairs. */
  lemma PairsToCount(a: Bools, x: Bools, b: nat)
    requires b < GF128_BITS && |a| == |x| == GF128_BITS
    ensures ISum(PRODUCT_COEFFS, (p: nat) => ReachedPairs(a, x, b, p)) == ProductCount(a, x, b, GF128_BITS)
  {
    hide Monomial, ReachedRow, ReachedPairs, RowCount;
    var f := (p: nat, i: nat) => ReachedRow(a, x, b, p, i);
    var rows, columns := (p: nat) => ReachedPairs(a, x, b, p), (i: nat) => RowCount(a, x, b, i, GF128_BITS);
    forall p: nat ensures rows(p) == RowSum(f, GF128_BITS, p) {
      ReachedRows(a, x, b, p);
      ISumSame(GF128_BITS, (i: nat) => ReachedRow(a, x, b, p, i), (i: nat) => f(p, i));
    }
    forall i: nat ensures columns(i) == ColumnSum(f, PRODUCT_COEFFS, i) {
      RowToHits(a, x, b, i);
      ISumSame(PRODUCT_COEFFS, (p: nat) => ReachedRow(a, x, b, p, i), (p: nat) => f(p, i));
    }
    ISumSwap(PRODUCT_COEFFS, GF128_BITS, f, rows, columns);
  }

  /** The values above the inputs that a tag pin reads. */
  ghost predicate AboveInput(next: Vec, v: Vec, avBits: Bools)
    requires |avBits| == GF128_BITS
  {
    var a, x := BitsAt(v, AP_BITS_START), BitsAt(v, X_BITS_START);
    && Get(next, 0) == 1
    && (forall p: nat :: p < PRODUCT_COEFFS ==> Get(next, 1 + p) == R(PairsAt(a, x, p)))
    && (forall b: nat :: b < GF128_BITS ==> Get(next, TREE_L_START + b) == R(FoldCount(avBits, x, b, GF128_BITS)))
    && (forall b: nat :: b < GF128_BITS ==> Get(next, TREE_QSUM_START + b) == R(Value(QuotientAt(v, b))))
  }

  lemma PinTailImage(b: nat, tagBit: bool, next: Vec, fold: int, quotient: int)
    requires Get(next, 0) == 1 && Get(next, TREE_L_START + b) == R(fold) && Get(next, TREE_QSUM_START + b) == R(quotient)
    ensures PinTail(b, tagBit, TAG_PIN_START + b, next) == R(fold - 2 * quotient - AsInt(tagBit))
  {
    hide R;
    UnitTerm(QuadTerm(TAG_PIN_START + b, TREE_L_START + b, 0, 1), next);
    Canonical(0); Canonical(1); Canonical(2);
    RSub(0, 2);
    RSub(0, 1);
    RMul(-2, quotient);
    Units(R(-2 * quotient));
    RAdd(fold, -2 * quotient);
    if tagBit {
      RAdd(fold - 2 * quotient, -1);
      Units(Neg(1));
    } else {
      Units(R(fold - 2 * quotient));
    }
  }

  /** A tag pin carries count minus twice the quotient minus the tag bit. */
  lemma PinImage(next: Vec, v: Vec, avBits: Bools, tagBit: bool, b: nat)
    requires |avBits| == GF128_BITS && b < GF128_BITS && AboveInput(next, v, avBits)
    ensures PinRow(b, tagBit, TAG_PIN_START + b, next)
         == R(Count(BitsAt(v, AP_BITS_START), avBits, BitsAt(v, X_BITS_START), b) - 2 * Value(QuotientAt(v, b)) - AsInt(tagBit))
  {
    hide R, Monomial, PairsAt, FoldCount, ProductCount, Value, PinTail, BitsAt, QuotientAt;
    var a, x := BitsAt(v, AP_BITS_START), BitsAt(v, X_BITS_START);
    var f, g := (p: nat) => ReduceTermAt(b, p, TAG_PIN_START + b, next), (p: nat) => ReachedPairs(a, x, b, p);
    Canonical(0);
    forall p: nat | p < PRODUCT_COEFFS ensures f(p) == R(g(p)) {
      UnitTerm(QuadTerm(TAG_PIN_START + b, 1 + p, 0, 1), next);
    }
    FSumImage(PRODUCT_COEFFS, f, g);
    PairsToCount(a, x, b);
    var fold, quotient := FoldCount(avBits, x, b, GF128_BITS), Value(QuotientAt(v, b));
    PinTailImage(b, tagBit, next, fold, quotient);
    RAdd(ProductCount(a, x, b, GF128_BITS), fold - 2 * quotient - AsInt(tagBit));
  }

  /** No small integer wraps around to zero. */
  lemma SmallZero(n: int)
    requires R(n) == 0 && -U64_MAX <= n <= U64_MAX
    ensures n == 0
  {
    ModulusFacts();
    if n >= 0 {
      SmallDistinct(n, 0);
    } else {
      ReduceLaw(n);
      assert n == (-1) * P + (n + P);
      ModUnique(P, n, -1, n + P);
    }
  }

  // ----- the whole circuit -----

  /** The wire of local constraint i, and of the tag pin of bit b. */
  function Local(v: Vec, i: nat): Fp { Get(v, LOCAL_START + i) }

  function Pin(v: Vec, b: nat): Fp { Get(v, TAG_PIN_START + b) }

  lemma RealizedWire(layer: Layer, part: (nat, Vec) -> Fp, next: Vec, w: nat)
    requires Realizes(layer, part) && |next| == WIDTH && w < WIDTH
    ensures Pow2(LOG_SIZE) == WIDTH && EvalNext(layer, next)[w] == part(w, next)
  {
    hide WireSum, EvalNext;
    assert Pow2(LOG_SIZE) == WIDTH;
    EvalWire(layer, next, w);
  }

  lemma EvaluateThree(layers: seq<Layer>, v: Vec)
    requires Chained(layers) && |layers| == 3 && |v| == Pow2(InputLog(layers))
    ensures |v| == Pow2(layers[2].nextLog)
    ensures |EvalNext(layers[2], v)| == Pow2(layers[1].nextLog)
    ensures |EvalNext(layers[1], EvalNext(layers[2], v))| == Pow2(layers[0].nextLog)
    ensures Evaluate(layers, v)[0] == EvalNext(layers[0], EvalNext(layers[1], EvalNext(layers[2], v)))
  {
    hide EvalNext;
    var rest := layers[1..];
    var last := rest[1..];
    assert last == [layers[2]] && rest == [layers[1], layers[2]];
    assert last[1..] == [];
    assert Evaluate(last, v) == [EvalNext(layers[2], v)] + [v];
    assert Evaluate(rest, v)[0] == EvalNext(layers[1], Evaluate(last, v)[0]);
  }

  /** The first layer up: local wires test the bits, the others carry the counts. */
  lemma FirstLayer(layer: Layer, slots: seq<Bools>, avBits: Bools, v: Vec, up: Vec)
    requires |avBits| == GF128_BITS && FoldsShare(slots, avBits)
    requires Realizes(layer, (w: nat, next: Vec) => InputLayerPart(slots, w, next))
    requires |v| == WIDTH == |up| && Get(v, 0) == 1 && |v| == Pow2(layer.nextLog) && up == EvalNext(layer, v)
    ensures Get(up, 0) == 1
    ensures (forall i: nat :: i < BOOL_CONSTRAINTS ==> Local(up, i) == 0) <==> AllBits(v)
    ensures forall b: nat :: b < GF128_BITS ==> Pin(up, b) == 0
    ensures AllBits(v) ==> AboveInput(up, v, avBits)
  {
    hide R, InputLayerPart, EvalNext, WireSum, PairsAt, FoldCount, Value, ProductPart, FoldRow, QRow, BoolAt, Residue,
         FoldsShare, BitsAt, QuotientAt;
    forall w: nat | w < WIDTH ensures Get(up, w) == InputLayerPart(slots, w, v) {
      RealizedWire(layer, (w: nat, next: Vec) => InputLayerPart(slots, w, next), v, w);
    }
    InputWires(slots, 0, v);
    forall b: nat | b < GF128_BITS ensures Pin(up, b) == 0 { InputWires(slots, TAG_PIN_START + b, v); }
    forall i: nat | i < BOOL_CONSTRAINTS
      ensures Local(up, i) == 0 <==> IsBit(Get(v, LocalSource(i / 11, i % 11)))
    {
      InputWires(slots, LOCAL_START + i, v);
      BoolConstraint(LOCAL_START + i, LocalSource(i / 11, i % 11), v);
    }
    LocalsAreBits(up, v);
    if AllBits(v) {
      var a, x := BitsAt(v, AP_BITS_START), BitsAt(v, X_BITS_START);
      forall p: nat | p < PRODUCT_COEFFS ensures Get(up, 1 + p) == R(PairsAt(a, x, p)) {
        InputWires(slots, 1 + p, v);
        ProductWire(v, p);
      }
      forall b: nat | b < GF128_BITS ensures Get(up, TREE_L_START + b) == R(FoldCount(avBits, x, b, GF128_BITS)) {
        InputWires(slots, TREE_L_START + b, v);
        FoldWire(slots, avBits, v, b);
      }
      forall b: nat | b < GF128_BITS ensures Get(up, TREE_QSUM_START + b) == R(Value(QuotientAt(v, b))) {
        InputWires(slots, TREE_QSUM_START + b, v);
        QuotientWire(v, b);
      }
    }
  }

  lemma LocalsAreBits(up: Vec, v: Vec)
    requires forall i: nat :: i < BOOL_CONSTRAINTS ==>
               (Local(up, i) == 0 <==> IsBit(Get(v, LocalSource(i / 11, i % 11))))
    ensures (forall i: nat :: i < BOOL_CONSTRAINTS ==> Local(up, i) == 0) <==> AllBits(v)
  {
    hide Get, LocalSource, IsBit, Local;
    if forall i: nat :: i < BOOL_CONSTRAINTS ==> Local(up, i) == 0 {
      forall b, s | 0 <= b < GF128_BITS && 0 <= s < 11 ensures IsBit(Get(v, LocalSource(b, s))) {
        var i := 11 * b + s;
        assert i / 11 == b && i % 11 == s;
        assert Local(up, i) == 0;
      }
    }
    if AllBits(v) {
      forall i: nat | i < BOOL_CONSTRAINTS ensures Local(up, i) == 0 {
        assert IsBit(Get(v, LocalSource(i / 11, i % 11)));
      }
    }
  }

  /** The second layer up: local wires are carried, the last ones become the tag pins. */
  lemma SecondLayer(layer: Layer, tagBits: Bools, next: Vec, up: Vec)
    requires |tagBits| == GF128_BITS && Realizes(layer, (w: nat, n: Vec) => ReduceLayerPart(tagBits, w, n))
    requires |next| == WIDTH == |up| && |next| == Pow2(layer.nextLog) && up == EvalNext(layer, next)
    requires Get(next, 0) == 1 && forall b: nat :: b < GF128_BITS ==> Pin(next, b) == 0
    ensures Get(up, 0) == 1
    ensures forall i: nat :: i < BOOL_CONSTRAINTS ==> Local(up, i) == Local(next, i)
    ensures forall b: nat :: b < GF128_BITS ==>
              Pin(up, b) == PinRow(b, tagBits[b], TAG_PIN_START + b, next)
  {
    hide ReduceLayerPart, EvalNext, WireSum, PinRow;
    forall w: nat | w < WIDTH ensures Get(up, w) == ReduceLayerPart(tagBits, w, next) {
      RealizedWire(layer, (w: nat, n: Vec) => ReduceLayerPart(tagBits, w, n), next, w);
    }
    ReduceWires(tagBits, 0, next);
    forall i: nat | i < BOOL_CONSTRAINTS ensures Local(up, i) == Local(next, i) {
      ReduceWires(tagBits, LOCAL_START + i, next);
    }
    forall b: nat | b < GF128_BITS ensures Pin(up, b) == PinRow(b, tagBits[b], TAG_PIN_START + b, next) {
      ReduceWires(tagBits, TAG_PIN_START + b, next);
      assert Pin(next, b) == 0;
      Units(PinRow(b, tagBits[b], TAG_PIN_START + b, next));
    }
  }

  /** The outputs are the local wires. */
  lemma FinalLayer(layer: Layer, next: Vec, out: Vec)
    requires Realizes(layer, (w: nat, n: Vec) => CarryPart(0, LOCAL_CONSTRAINTS, w, n))
    requires |next| == WIDTH == |out| && |next| == Pow2(layer.nextLog) && out == EvalNext(layer, next) && Get(next, 0) == 1
    ensures AllZero(out) <==> forall i: nat :: i < LOCAL_CONSTRAINTS ==> Local(next, i) == 0
  {
    hide CarryPart, EvalNext, WireSum;
    forall w: nat | w < WIDTH ensures out[w] == if w < LOCAL_CONSTRAINTS then Local(next, w) else 0 {
      RealizedWire(layer, (w: nat, n: Vec) => CarryPart(0, LOCAL_CONSTRAINTS, w, n), next, w);
      CarryAt(0, w, next);
    }
    if AllZero(out) {
      forall i: nat | i < LOCAL_CONSTRAINTS ensures Local(next, i) == 0 {
        assert out[i] == 0;
      }
    }
  }

  /** The quotient wires hold the halved counts, with the tag bit as remainder. */
  ghost predicate CountsMatch(v: Vec, avBits: Bools, tagBits: Bools)
    requires |avBits| == |tagBits| == GF128_BITS
  {
    forall b: nat :: b < GF128_BITS ==>
      Count(BitsAt(v, AP_BITS_START), avBits, BitsAt(v, X_BITS_START), b)
      == 2 * Value(QuotientAt(v, b)) + AsInt(tagBits[b])
  }

  lemma PinZero(next: Vec, v: Vec, avBits: Bools, tagBit: bool, b: nat)
    requires |avBits| == GF128_BITS && b < GF128_BITS && AboveInput(next, v, avBits)
    ensures PinRow(b, tagBit, TAG_PIN_START + b, next) == 0
       <==> Count(BitsAt(v, AP_BITS_START), avBits, BitsAt(v, X_BITS_START), b) == 2 * Value(QuotientAt(v, b)) + AsInt(tagBit)
  {
    hide R, PinRow, AboveInput, Value, BitsAt, QuotientAt, Count;
    var a, x, q := BitsAt(v, AP_BITS_START), BitsAt(v, X_BITS_START), QuotientAt(v, b);
    var n := Count(a, avBits, x, b) - 2 * Value(q) - AsInt(tagBit);
    PinImage(next, v, avBits, tagBit, b);
    CountBound(a, avBits, x, b);
    ValueBit(q, 0);
    assert Pow2(PARITY_Q_BITS) == 512;
    if R(n) == 0 { SmallZero(n); }
    Canonical(0);
  }

  /** The circuit, exactly: with constant one, all outputs are zero if and only if every wire holds a bit and every count
      is twice its quotient plus the tag bit. */
  lemma MacCircuitExact(circuit: Circuit, avBits: Bools, tagBits: Bools, v: Vec)
    requires |avBits| == |tagBits| == GF128_BITS && IsMacCircuit(circuit, avBits, tagBits)
    requires |v| == WIDTH && v[0] == 1
    ensures |v| == Pow2(InputLog(circuit.layers))
    ensures AllZero(Evaluate(circuit.layers, v)[0]) <==> AllBits(v) && CountsMatch(v, avBits, tagBits)
  {
    hide R, EvalNext, Evaluate, Value, BitsAt, QuotientAt, Count, AboveInput, PinRow, CarryPart, ReduceLayerPart,
         InputLayerPart, WireSum, AllBits, FoldsShare, Get, Local, Pin;
    var layers := circuit.layers;
    assert Pow2(LOG_SIZE) == WIDTH;
    EvaluateThree(layers, v);
    var v1 := EvalNext(layers[2], v);
    var v2 := EvalNext(layers[1], v1);
    var v3 := EvalNext(layers[0], v2);
    var slots :| FoldsShare(slots, avBits) && Realizes(layers[2], (w: nat, next: Vec) => InputLayerPart(slots, w, next));
    ConstantWire(v);
    FirstLayer(layers[2], slots, avBits, v, v1);
    SecondLayer(layers[1], tagBits, v1, v2);
    FinalLayer(layers[0], v2, v3);
    SplitLocals(v2);
    if AllBits(v) {
      forall b: nat | b < GF128_BITS
        ensures Pin(v2, b) == 0
           <==> Count(BitsAt(v, AP_BITS_START), avBits, BitsAt(v, X_BITS_START), b) == 2 * Value(QuotientAt(v, b)) + AsInt(tagBits[b])
      {
        PinZero(v1, v, avBits, tagBits[b], b);
      }
    }
  }

  lemma ConstantWire(v: Vec)
    requires |v| == WIDTH && v[0] == 1
    ensures Get(v, 0) == 1
  {
  }

  lemma PinIsLocal(v: Vec)
    ensures forall b: nat :: Pin(v, b) == Local(v, BOOL_CONSTRAINTS + b)
  {
  }

  lemma SplitLocals(v: Vec)
    ensures (forall i: nat :: i < LOCAL_CONSTRAINTS ==> Local(v, i) == 0)
       <==> (forall i: nat :: i < BOOL_CONSTRAINTS ==> Local(v, i) == 0)
            && (forall b: nat :: b < GF128_BITS ==> Pin(v, b) == 0)
  {
    PinIsLocal(v);
    hide Get, Local, Pin;
    if forall i: nat :: i < LOCAL_CONSTRAINTS ==> Local(v, i) == 0 {
      forall b: nat | b < GF128_BITS ensures Pin(v, b) == 0 {
        assert Local(v, BOOL_CONSTRAINTS + b) == 0;
      }
    }
    if (forall i: nat :: i < BOOL_CONSTRAINTS ==> Local(v, i) == 0)
       && (forall b: nat :: b < GF128_BITS ==> Pin(v, b) == 0) {
      forall i: nat | i < LOCAL_CONSTRAINTS ensures Local(v, i) == 0 {
        if i >= BOOL_CONSTRAINTS {
          assert Pin(v, i - BOOL_CONSTRAINTS) == 0;
        }
      }
    }
  }

  /** Soundness: zero outputs force bits on all wires and the tag (ap + av) x. */
  lemma MacSoundness(circuit: Circuit, avBits: Bools, tagBits: Bools, v: Vec)
    requires |avBits| == |tagBits| == GF128_BITS && IsMacCircuit(circuit, avBits, tagBits)
    requires |v| == WIDTH == Pow2(InputLog(circuit.layers)) && v[0] == 1 && AllZero(Evaluate(circuit.layers, v)[0])
    ensures AllBits(v)
    ensures tagBits == Product(Xor(BitsAt(v, AP_BITS_START), avBits), BitsAt(v, X_BITS_START))
  {
    hide Evaluate, IsMacCircuit, AllBits, Product, Value, Count, BitsAt, QuotientAt, Odd;
    MacCircuitExact(circuit, avBits, tagBits, v);
    var a, x := BitsAt(v, AP_BITS_START), BitsAt(v, X_BITS_START);
    forall b: nat | b < GF128_BITS ensures tagBits[b] == Product(Xor(a, avBits), x)[b] {
      CountParity(a, avBits, x, b);
      OddRemainder(Value(QuotientAt(v, b)), tagBits[b]);
    }
  }

  lemma OddRemainder(q: int, bit: bool)
    ensures Odd(2 * q + AsInt(bit)) == bit
  {
  }

  /** The layers of the circuit, by position, for an input of bits: the middle layer holds one, the product coefficients, the
      folds, the quotients and zero constraints; the next one the tag pins behind the constraints; the outputs repeat both. */
  lemma MacWires(circuit: Circuit, avBits: Bools, tagBits: Bools, v: Vec)
    requires |avBits| == |tagBits| == GF128_BITS && IsMacCircuit(circuit, avBits, tagBits)
    requires |v| == WIDTH && v[0] == 1 && AllBits(v)
    ensures |v| == Pow2(circuit.layers[2].nextLog) && |EvalNext(circuit.layers[2], v)| == Pow2(circuit.layers[1].nextLog) == 2048
    ensures var a, x, up := BitsAt(v, 129), BitsAt(v, 1), EvalNext(circuit.layers[2], v);
            && up[0] == 1
            && (forall p :: 0 <= p < 255 ==> up[1 + p] == R(PairsAt(a, x, p)))
            && (forall b :: 0 <= b < 128 ==> up[256 + b] == R(FoldCount(avBits, x, b, 128)))
            && (forall b :: 0 <= b < 128 ==> up[384 + b] == R(Value(QuotientAt(v, b))))
            && (forall w :: 512 <= w < 2048 ==> up[w] == 0)
    ensures var pins := EvalNext(circuit.layers[1], EvalNext(circuit.layers[2], v));
            && |pins| == Pow2(circuit.layers[0].nextLog) == 2048
            && (forall b :: 0 <= b < 128 ==>
                  pins[1920 + b] == R(Count(BitsAt(v, 129), avBits, BitsAt(v, 1), b) - 2 * Value(QuotientAt(v, b)) - AsInt(tagBits[b])))
  {
    hide R, EvalNext, Evaluate, Value, BitsAt, QuotientAt, Count, PairsAt, FoldCount, AboveInput, PinRow, CarryPart,
         ReduceLayerPart, InputLayerPart, WireSum, AllBits, FoldsShare;
    var layers := circuit.layers;
    assert Pow2(LOG_SIZE) == WIDTH;
    EvaluateThree(layers, v);
    var v1 := EvalNext(layers[2], v);
    var v2 := EvalNext(layers[1], v1);
    var slots :| FoldsShare(slots, avBits) && Realizes(layers[2], (w: nat, next: Vec) => InputLayerPart(slots, w, next));
    ConstantWire(v);
    FirstLayer(layers[2], slots, avBits, v, v1);
    SecondLayer(layers[1], tagBits, v1, v2);
    MiddleWires(v1, v, avBits);
    forall b | 0 <= b < 128
      ensures v2[1920 + b] == R(Count(BitsAt(v, 129), avBits, BitsAt(v, 1), b) - 2 * Value(QuotientAt(v, b)) - AsInt(tagBits[b]))
    {
      PinImage(v1, v, avBits, tagBits[b], b);
      assert Pin(v2, b) == v2[1920 + b];
    }
  }

  lemma MiddleWires(up: Vec, v: Vec, avBits: Bools)
    requires |avBits| == GF128_BITS && |up| == WIDTH && AboveInput(up, v, avBits)
    requires forall i: nat :: i < BOOL_CONSTRAINTS ==> Local(up, i) == 0
    requires forall b: nat :: b < GF128_BITS ==> Pin(up, b) == 0
    ensures up[0] == 1
    ensures forall p :: 0 <= p < 255 ==> up[1 + p] == R(PairsAt(BitsAt(v, 129), BitsAt(v, 1), p))
    ensures forall b :: 0 <= b < 128 ==> up[256 + b] == R(FoldCount(avBits, BitsAt(v, 1), b, 128))
    ensures forall b :: 0 <= b < 128 ==> up[384 + b] == R(Value(QuotientAt(v, b)))
    ensures forall w :: 512 <= w < 2048 ==> up[w] == 0
  {
    hide R, PairsAt, FoldCount, Value, BitsAt, QuotientAt;
    forall p: nat | p < 255 ensures up[1 + p] == R(PairsAt(BitsAt(v, 129), BitsAt(v, 1), p)) {
      assert Get(up, 1 + p) == up[1 + p];
    }
    forall b: nat | b < 128
      ensures up[256 + b] == R(FoldCount(avBits, BitsAt(v, 1), b, 128)) && up[384 + b] == R(Value(QuotientAt(v, b)))
    {
      assert Get(up, 256 + b) == up[256 + b] && Get(up, 384 + b) == up[384 + b];
    }
    forall w: nat | 512 <= w < 2048 ensures up[w] == 0 {
      if w < 1920 {
        assert Local(up, w - 512) == up[w];
      } else {
        assert Pin(up, w - 1920) == up[w];
      }
    }
  }

  // ----- the honest input -----

  function BitField(b: bool): Fp { if b then 1 else 0 }

  predicate QuotientWireIs(input: Vec, q: seq<Bools>, b: nat, k: nat)
    requires |input| == 2048 && b < |q| && k < |q[b]|
  {
    512 + 9 * b + k < 2048 && input[512 + 9 * b + k] == BitField(q[b][k])
  }

  /** The input vector, by position: constant one, x, ap, zeros, nine quotient bits per tag bit, zeros. */
  ghost predicate InputLayout(input: Vec, apBits: Bools, xBits: Bools, q: seq<Bools>)
    requires |apBits| == |xBits| == |q| == GF128_BITS && forall b :: 0 <= b < GF128_BITS ==> |q[b]| == PARITY_Q_BITS
  {
    && |input| == 2048 && input[0] == 1
    && (forall i :: 0 <= i < 128 ==> input[1 + i] == BitField(xBits[i]) && input[129 + i] == BitField(apBits[i]))
    && (forall w :: 257 <= w < 512 || 1664 <= w < 2048 ==> input[w] == 0)
    && (forall b: nat, k: nat :: b < 128 && k < 9 ==> QuotientWireIs(input, q, b, k))
  }

  method MacHalfInput(ap: seq<nat>, av: seq<nat>, x: seq<nat>) returns (input: Vec, tag: seq<nat>)
    requires IsBytes(ap) && IsBytes(av) && IsBytes(x)
    ensures |input| == WIDTH && input[0] == 1 && IsBytes(tag)
    ensures BitsOf(tag) == Product(Xor(BitsOf(ap), BitsOf(av)), BitsOf(x))
    ensures BitsAt(input, AP_BITS_START) == BitsOf(ap) && BitsAt(input, X_BITS_START) == BitsOf(x)
    ensures AllBits(input) && CountsMatch(input, BitsOf(av), BitsOf(tag))
    ensures InputLayout(input, BitsOf(ap), BitsOf(x), Quotients(input))
  {
    hide Product, Count, Residue, Monomial, BitsOf, Xor, Odd, Value, InputLayout;
    tag := Gf128Tag(ap, av, x);
    var apBits := BytesToBits(ap);
    var avBits := BytesToBits(av);
    var xBits := BytesToBits(x);
    var tagBits := BytesToBits(tag);
    forall b | 0 <= b < GF128_BITS ensures tagBits[b] == Odd(Count(apBits, avBits, xBits, b)) {
      CountParity(apBits, avBits, xBits, b);
    }
    var q := QWitness(apBits, avBits, xBits, tagBits);
    input := FillInput(apBits, xBits, q);
    InputReads(input, apBits, xBits, q);
  }

  /** The quotient bits of all tag bits. */
  function Quotients(v: Vec): (q: seq<Bools>)
    ensures |q| == GF128_BITS && forall b :: 0 <= b < |q| ==> |q[b]| == PARITY_Q_BITS
  {
    seq(GF128_BITS, b requires 0 <= b => QuotientAt(v, b))
  }

  /** What the circuit reads from that layout. */
  lemma InputReads(input: Vec, apBits: Bools, xBits: Bools, q: seq<Bools>)
    requires |apBits| == |xBits| == |q| == GF128_BITS && forall b :: 0 <= b < GF128_BITS ==> |q[b]| == PARITY_Q_BITS
    requires InputLayout(input, apBits, xBits, q)
    ensures |input| == WIDTH && input[0] == 1 && AllBits(input)
    ensures BitsAt(input, AP_BITS_START) == apBits && BitsAt(input, X_BITS_START) == xBits
    ensures Quotients(input) == q
  {
    forall b | 0 <= b < GF128_BITS ensures QuotientAt(input, b) == q[b] {
      forall k | 0 <= k < PARITY_Q_BITS ensures QuotientAt(input, b)[k] == q[b][k] {
        assert QBitIndex(b, k) == 512 + 9 * b + k;
        assert QuotientWireIs(input, q, b, k);
      }
    }
    forall i | 0 <= i < GF128_BITS ensures BitsAt(input, AP_BITS_START)[i] == apBits[i] && BitsAt(input, X_BITS_START)[i] == xBits[i] {
      assert input[1 + i] == BitField(xBits[i]) && input[129 + i] == BitField(apBits[i]);
    }
    forall b, s | 0 <= b < GF128_BITS && 0 <= s < 11 ensures IsBit(Get(input, LocalSource(b, s))) {
      if s < 2 {
        assert input[1 + b] == BitField(xBits[b]) && input[129 + b] == BitField(apBits[b]);
      } else {
        assert LocalSource(b, s) == 512 + 9 * b + (s - 2);
        assert QuotientWireIs(input, q, b, s - 2);
      }
    }
  }

  /** Writing one quotient bit keeps the ones before it. */
  lemma KeepQuotients(before: Vec, after: Vec, q: seq<Bools>, b: nat, k: nat)
    requires |before| == |after| == 2048 && b < 128 <= |q| && k < 9 && forall c :: 0 <= c < |q| ==> |q[c]| == PARITY_Q_BITS
    requires after == before[512 + 9 * b + k := BitField(q[b][k])]
    requires forall c: nat, l: nat :: c < b && l < 9 ==> QuotientWireIs(before, q, c, l)
    requires forall l: nat :: l < k ==> QuotientWireIs(before, q, b, l)
    ensures forall c: nat, l: nat :: c < b && l < 9 ==> QuotientWireIs(after, q, c, l)
    ensures forall l: nat :: l < k + 1 ==> QuotientWireIs(after, q, b, l)
  {
    forall c: nat, l: nat | c < b && l < 9 ensures QuotientWireIs(after, q, c, l) {
      assert QuotientWireIs(before, q, c, l);
    }
    forall l: nat | l < k ensures QuotientWireIs(after, q, b, l) {
      assert QuotientWireIs(before, q, b, l);
    }
  }

  method FillInput(apBits: Bools, xBits: Bools, q: seq<Bools>) returns (input: Vec)
    requires |apBits| == |xBits| == |q| == GF128_BITS && forall b :: 0 <= b < GF128_BITS ==> |q[b]| == PARITY_Q_BITS
    ensures InputLayout(input, apBits, xBits, q)
  {
    input := FillShares(apBits, xBits);
    ghost var shares := input;
    for b := 0 to GF128_BITS
      invariant |input| == 2048 && input[..512] == shares[..512]
      invariant forall w :: 512 + 9 * b <= w < 2048 ==> input[w] == 0
      invariant forall c: nat, k: nat :: c < b && k < 9 ==> QuotientWireIs(input, q, c, k)
    {
      for k := 0 to PARITY_Q_BITS
        invariant |input| == 2048 && input[..512] == shares[..512]
        invariant forall w :: 512 + 9 * b + k <= w < 2048 ==> input[w] == 0
        invariant forall c: nat, l: nat :: c < b && l < 9 ==> QuotientWireIs(input, q, c, l)
        invariant forall l: nat :: l < k ==> QuotientWireIs(input, q, b, l)
      {
        assert QBitIndex(b, k) == 512 + 9 * b + k;
        ghost var before := input;
        input := input[QBitIndex(b, k) := BitField(q[b][k])];
        KeepQuotients(before, input, q, b, k);
      }
    }
    assert forall w :: 0 <= w < 512 ==> input[w] == input[..512][w];
    assert forall w :: 0 <= w < 512 ==> shares[w] == shares[..512][w];
  }

  /** Constant one, x and ap. */
  method FillShares(apBits: Bools, xBits: Bools) returns (input: Vec)
    requires |apBits| == |xBits| == GF128_BITS
    ensures |input| == 2048 && input[0] == 1
    ensures forall i :: 0 <= i < 128 ==> input[1 + i] == BitField(xBits[i]) && input[129 + i] == BitField(apBits[i])
    ensures forall w :: 257 <= w < 2048 ==> input[w] == 0
  {
    input := Zeros(WIDTH);
    input := input[0 := 1];
    for i := 0 to GF128_BITS
      invariant |input| == 2048 && input[0] == 1
      invariant forall j :: 0 <= j < i ==> input[1 + j] == BitField(xBits[j]) && input[129 + j] == BitField(apBits[j])
      invariant forall w :: 257 <= w < 2048 ==> input[w] == 0
    {
      input := input[X_BITS_START + i := BitField(xBits[i])];
      input := input[AP_BITS_START + i := BitField(apBits[i])];
    }
  }

  /** Completeness: the honest input satisfies the circuit built for its tag. */
  method BuildAndSatisfy(ap: seq<nat>, av: seq<nat>, x: seq<nat>) returns (circuit: Circuit, input: Vec)
    requires IsBytes(ap) && IsBytes(av) && IsBytes(x)
    ensures IsMacCircuit(circuit, BitsOf(av), Product(Xor(BitsOf(ap), BitsOf(av)), BitsOf(x)))
    ensures |input| == Pow2(InputLog(circuit.layers)) && input[0] == 1
    ensures BitsAt(input, AP_BITS_START) == BitsOf(ap) && BitsAt(input, X_BITS_START) == BitsOf(x)
    ensures AllZero(Evaluate(circuit.layers, input)[0])
  {
    hide Evaluate, AllBits, CountsMatch, BitsOf, Product, Xor;
    var tag;
    input, tag := MacHalfInput(ap, av, x);
    circuit := BuildMacHalfCircuit(av, tag);
    MacCircuitExact(circuit, BitsOf(av), BitsOf(tag), input);
  }
}
