/** The circuit of one MAC half (ecdsa.rs): the builders that push its terms, layer by layer, with the value every wire
    gets from every input. */
module MacCircuit {
  import opened Field
  import opened Vectors
  import opened Bits
  import opened Circuits
  import opened Sums
  import opened Gf128
  import opened MacReduction

  // ----- layout -----

  const LOG_SIZE: nat := 11
  const WIDTH: nat := 2048
  const X_BITS_START: nat := 1
  const AP_BITS_START: nat := 129
  const Q_BITS_START: nat := 512
  const BOOL_CONSTRAINTS: nat := 1408
  const LOCAL_CONSTRAINTS: nat := 1536
  const TREE_L_START: nat := 256
  const TREE_QSUM_START: nat := 384
  const LOCAL_START: nat := 512
  const TAG_PIN_START: nat := 1920

  function QBitIndex(bit: nat, q: nat): nat { Q_BITS_START + bit * PARITY_Q_BITS + q }

  // ----- the value a list of terms gives a wire -----

  function Get(v: Vec, i: nat): Fp { if i < |v| then v[i] else 0 }

  function TermAt(t: QuadTerm, w: nat, next: Vec): Fp
  {
    if t.out == w then Mul(Mul(t.coeff, Get(next, t.l)), Get(next, t.r)) else 0
  }

  function WireSum(terms: seq<QuadTerm>, w: nat, next: Vec): Fp
  {
    if terms == [] then 0
    else
      var k := |terms| - 1;
      Add(WireSum(terms[..k], w, next), TermAt(terms[k], w, next))
  }

  lemma {:induction false} ScatterWire(layer: Layer, next: Vec, w: nat, k: nat)
    requires layer.Valid() && |next| == Pow2(layer.nextLog) && w < Pow2(layer.outLog) && k <= |layer.terms|
    requires AllBelow(Outs(layer.terms), Pow2(layer.outLog))
    requires AllBelow(Lefts(layer.terms), |next|) && AllBelow(Rights(layer.terms), |next|)
    ensures Scatter(Outs(layer.terms)[..k], TermValues(layer.terms, next)[..k], Pow2(layer.outLog))[w]
         == WireSum(layer.terms[..k], w, next)
    decreases k
  {
    if k > 0 {
      ScatterWire(layer, next, w, k - 1);
      var keys, vals := Outs(layer.terms), TermValues(layer.terms, next);
      assert keys[..k][..k - 1] == keys[..k - 1] && vals[..k][..k - 1] == vals[..k - 1];
      assert layer.terms[..k][..k - 1] == layer.terms[..k - 1];
      Units(WireSum(layer.terms[..k - 1], w, next));
    }
  }

  lemma EvalWire(layer: Layer, next: Vec, w: nat)
    requires layer.Valid() && |next| == Pow2(layer.nextLog) && w < Pow2(layer.outLog)
    ensures EvalNext(layer, next)[w] == WireSum(layer.terms, w, next)
  {
    hide Scatter, WireSum;
    FitKeys(layer);
    var n := |layer.terms|;
    ScatterWire(layer, next, w, n);
    assert Outs(layer.terms)[..n] == Outs(layer.terms) && layer.terms[..n] == layer.terms;
    assert TermValues(layer.terms, next)[..n] == TermValues(layer.terms, next);
  }

  predicate Fits(t: QuadTerm) { t.out < WIDTH && t.l < WIDTH && t.r < WIDTH }

  predicate AllFit(terms: seq<QuadTerm>) { forall k :: 0 <= k < |terms| ==> Fits(terms[k]) }

  /** `after` adds `part` to every wire, for every input. */
  ghost predicate Grew(before: seq<QuadTerm>, after: seq<QuadTerm>, part: (nat, Vec) -> Fp)
  {
    && AllFit(after)
    && forall w: nat, next: Vec :: WireSum(after, w, next) == Add(WireSum(before, w, next), part(w, next))
  }

  lemma GrewNone(terms: seq<QuadTerm>, part: (nat, Vec) -> Fp)
    requires AllFit(terms) && forall w: nat, next: Vec :: part(w, next) == 0
    ensures Grew(terms, terms, part)
  {
    forall w: nat, next: Vec ensures WireSum(terms, w, next) == Add(WireSum(terms, w, next), part(w, next)) {
      Units(WireSum(terms, w, next));
    }
  }

  lemma GrewPush(before: seq<QuadTerm>, middle: seq<QuadTerm>, p: (nat, Vec) -> Fp, t: QuadTerm, q: (nat, Vec) -> Fp)
    requires Grew(before, middle, p) && Fits(t)
    requires forall w: nat, next: Vec :: q(w, next) == Add(p(w, next), TermAt(t, w, next))
    ensures Grew(before, middle + [t], q)
  {
    hide TermAt;
    var after := middle + [t];
    assert after[..|middle|] == middle;
    forall w: nat, next: Vec ensures WireSum(after, w, next) == Add(WireSum(before, w, next), q(w, next)) {
      assert WireSum(after, w, next) == Add(WireSum(middle, w, next), TermAt(t, w, next));
      AddAssoc(WireSum(before, w, next), p(w, next), TermAt(t, w, next));
    }
  }

  lemma GrewChain(
    before: seq<QuadTerm>, middle: seq<QuadTerm>, after: seq<QuadTerm>, p: (nat, Vec) -> Fp, q: (nat, Vec) -> Fp,
    s: (nat, Vec) -> Fp)
    requires Grew(before, middle, p) && Grew(middle, after, q)
    requires forall w: nat, next: Vec :: s(w, next) == Add(p(w, next), q(w, next))
    ensures Grew(before, after, s)
  {
    hide WireSum;
    forall w: nat, next: Vec ensures WireSum(after, w, next) == Add(WireSum(before, w, next), s(w, next)) {
      assert WireSum(after, w, next) == Add(WireSum(middle, w, next), q(w, next));
      assert WireSum(middle, w, next) == Add(WireSum(before, w, next), p(w, next));
      AddAssoc(WireSum(before, w, next), p(w, next), q(w, next));
    }
  }

  // ----- the input layer -----

  function ConstTerm(): QuadTerm { QuadTerm(0, 0, 0, 1) }

  function ProductTerm(i: nat, j: nat): QuadTerm { QuadTerm(1 + i + j, AP_BITS_START + i, X_BITS_START + j, 1) }

  function ProductRow(i: nat, n: nat, w: nat, next: Vec): Fp
  {
    FSum(n, (j: nat) => TermAt(ProductTerm(i, j), w, next))
  }

  function ProductPart(n: nat, w: nat, next: Vec): Fp
  {
    FSum(n, (i: nat) => ProductRow(i, GF128_BITS, w, next))
  }

  method AddProducts(terms: seq<QuadTerm>) returns (out: seq<QuadTerm>)
    requires AllFit(terms)
    ensures Grew(terms, out, (w: nat, next: Vec) => ProductPart(GF128_BITS, w, next))
  {
    hide WireSum, TermAt;
    out := terms;
    GrewNone(terms, (w: nat, next: Vec) => ProductPart(0, w, next));
    for i := 0 to GF128_BITS
      invariant Grew(terms, out, (w: nat, next: Vec) => ProductPart(i, w, next))
    {
      ghost var middle := out;
      GrewNone(out, (w: nat, next: Vec) => ProductRow(i, 0, w, next));
      for j := 0 to GF128_BITS
        invariant Grew(middle, out, (w: nat, next: Vec) => ProductRow(i, j, w, next))
      {
        GrewPush(middle, out, (w: nat, next: Vec) => ProductRow(i, j, w, next), ProductTerm(i, j),
                 (w: nat, next: Vec) => ProductRow(i, j + 1, w, next));
        out := out + [ProductTerm(i, j)];
      }
      GrewChain(terms, middle, out, (w: nat, next: Vec) => ProductPart(i, w, next),
                (w: nat, next: Vec) => ProductRow(i, GF128_BITS, w, next),
                (w: nat, next: Vec) => ProductPart(i + 1, w, next));
    }
  }

  lemma GrewSame(before: seq<QuadTerm>, middle: seq<QuadTerm>, p: (nat, Vec) -> Fp, q: (nat, Vec) -> Fp)
    requires Grew(before, middle, p) && forall w: nat, next: Vec :: q(w, next) == p(w, next)
    ensures Grew(before, middle, q)
  {
    hide WireSum;
    forall w: nat, next: Vec ensures WireSum(middle, w, next) == Add(WireSum(before, w, next), q(w, next)) {
      assert WireSum(middle, w, next) == Add(WireSum(before, w, next), p(w, next));
    }
  }

  function FoldTerm(o: nat, j: nat): QuadTerm { QuadTerm(TREE_L_START + o, X_BITS_START + j, 0, 1) }

  function FoldTermAt(slots: seq<Bools>, o: nat, j: nat, w: nat, next: Vec): Fp
  {
    if o < |slots| && j < |slots[o]| && slots[o][j] then TermAt(FoldTerm(o, j), w, next) else 0
  }

  function FoldRow(slots: seq<Bools>, o: nat, n: nat, w: nat, next: Vec): Fp
  {
    FSum(n, (j: nat) => FoldTermAt(slots, o, j, w, next))
  }

  function FoldPart(slots: seq<Bools>, n: nat, w: nat, next: Vec): Fp
  {
    FSum(n, (o: nat) => FoldRow(slots, o, GF128_BITS, w, next))
  }

  method AddFold(terms: seq<QuadTerm>, slots: seq<Bools>) returns (out: seq<QuadTerm>)
    requires AllFit(terms) && |slots| == GF128_BITS && forall o :: 0 <= o < GF128_BITS ==> |slots[o]| == GF128_BITS
    ensures Grew(terms, out, (w: nat, next: Vec) => FoldPart(slots, GF128_BITS, w, next))
  {
    hide WireSum, TermAt;
    out := terms;
    GrewNone(terms, (w: nat, next: Vec) => FoldPart(slots, 0, w, next));
    for o := 0 to GF128_BITS
      invariant Grew(terms, out, (w: nat, next: Vec) => FoldPart(slots, o, w, next))
    {
      ghost var middle := out;
      GrewNone(out, (w: nat, next: Vec) => FoldRow(slots, o, 0, w, next));
      for j := 0 to GF128_BITS
        invariant Grew(middle, out, (w: nat, next: Vec) => FoldRow(slots, o, j, w, next))
      {
        ghost var p, q := (w: nat, next: Vec) => FoldRow(slots, o, j, w, next), (w: nat, next: Vec) => FoldRow(slots, o, j + 1, w, next);
        forall w: nat, next: Vec ensures q(w, next) == Add(p(w, next), FoldTermAt(slots, o, j, w, next)) {}
        if slots[o][j] {
          GrewPush(middle, out, p, FoldTerm(o, j), q);
          out := out + [FoldTerm(o, j)];
        } else {
          forall w: nat, next: Vec ensures q(w, next) == p(w, next) { Units(p(w, next)); }
          GrewSame(middle, out, p, q);
        }
      }
      GrewChain(terms, middle, out, (w: nat, next: Vec) => FoldPart(slots, o, w, next),
                (w: nat, next: Vec) => FoldRow(slots, o, GF128_BITS, w, next),
                (w: nat, next: Vec) => FoldPart(slots, o + 1, w, next));
    }
  }

  function QTerm(b: nat, k: nat): QuadTerm { QuadTerm(TREE_QSUM_START + b, QBitIndex(b, k), 0, R(Pow2(k))) }

  function QRow(b: nat, n: nat, w: nat, next: Vec): Fp
  {
    FSum(n, (k: nat) => TermAt(QTerm(b, k), w, next))
  }

  function QPart(n: nat, w: nat, next: Vec): Fp
  {
    FSum(n, (b: nat) => QRow(b, PARITY_Q_BITS, w, next))
  }

  method AddQuotients(terms: seq<QuadTerm>) returns (out: seq<QuadTerm>)
    requires AllFit(terms)
    ensures Grew(terms, out, (w: nat, next: Vec) => QPart(GF128_BITS, w, next))
  {
    hide R, WireSum, TermAt;
    out := terms;
    GrewNone(terms, (w: nat, next: Vec) => QPart(0, w, next));
    for b := 0 to GF128_BITS
      invariant Grew(terms, out, (w: nat, next: Vec) => QPart(b, w, next))
    {
      ghost var middle := out;
      GrewNone(out, (w: nat, next: Vec) => QRow(b, 0, w, next));
      for k := 0 to PARITY_Q_BITS
        invariant Grew(middle, out, (w: nat, next: Vec) => QRow(b, k, w, next))
      {
        GrewPush(middle, out, (w: nat, next: Vec) => QRow(b, k, w, next), QTerm(b, k),
                 (w: nat, next: Vec) => QRow(b, k + 1, w, next));
        out := out + [QTerm(b, k)];
      }
      GrewChain(terms, middle, out, (w: nat, next: Vec) => QPart(b, w, next),
                (w: nat, next: Vec) => QRow(b, PARITY_Q_BITS, w, next),
                (w: nat, next: Vec) => QPart(b + 1, w, next));
    }
  }

  /** x^2 - x on a local wire. */
  function BoolAt(out: nat, wire: nat, w: nat, next: Vec): Fp
  {
    Add(TermAt(QuadTerm(out, wire, wire, 1), w, next), TermAt(QuadTerm(out, wire, 0, Neg(1)), w, next))
  }

  method AddBoolConstraint(terms: seq<QuadTerm>, out: nat, wire: nat) returns (after: seq<QuadTerm>)
    requires AllFit(terms) && out < WIDTH && wire < WIDTH
    ensures Grew(terms, after, (w: nat, next: Vec) => BoolAt(out, wire, w, next))
  {
    hide WireSum, TermAt;
    var square, linear := QuadTerm(out, wire, wire, 1), QuadTerm(out, wire, 0, Neg(1));
    GrewNone(terms, (w: nat, next: Vec) => 0);
    forall w: nat, next: Vec ensures TermAt(square, w, next) == Add(0, TermAt(square, w, next)) { Units(TermAt(square, w, next)); }
    GrewPush(terms, terms, (w: nat, next: Vec) => 0, square, (w: nat, next: Vec) => TermAt(square, w, next));
    GrewPush(terms, terms + [square], (w: nat, next: Vec) => TermAt(square, w, next), linear,
             (w: nat, next: Vec) => BoolAt(out, wire, w, next));
    after := terms + [square] + [linear];
  }

  /** The constraints of one bit position: x, ap, then the quotient bits. */
  function BoolHead(b: nat, w: nat, next: Vec): Fp
  {
    Add(BoolAt(LOCAL_START + 11 * b, X_BITS_START + b, w, next), BoolAt(LOCAL_START + 11 * b + 1, AP_BITS_START + b, w, next))
  }

  function BoolQRow(b: nat, n: nat, w: nat, next: Vec): Fp
  {
    FSum(n, (k: nat) => BoolAt(LOCAL_START + 11 * b + 2 + k, QBitIndex(b, k), w, next))
  }

  function BoolRow(b: nat, w: nat, next: Vec): Fp { Add(BoolHead(b, w, next), BoolQRow(b, PARITY_Q_BITS, w, next)) }

  function BoolPart(n: nat, w: nat, next: Vec): Fp { FSum(n, (b: nat) => BoolRow(b, w, next)) }

  /** The bit tests of the quotient bits of output b. */
  method AddBoolQRow(terms: seq<QuadTerm>, b: nat, start: nat, first: nat) returns (out: seq<QuadTerm>, local: nat)
    requires AllFit(terms) && b < GF128_BITS && start == LOCAL_START + 11 * b && first == start + 2
    ensures local == start + 11
    ensures Grew(terms, out, (w: nat, next: Vec) => BoolQRow(b, PARITY_Q_BITS, w, next))
  {
    hide WireSum, TermAt, BoolAt;
    out, local := terms, first;
    GrewNone(terms, (w: nat, next: Vec) => BoolQRow(b, 0, w, next));
    for k := 0 to PARITY_Q_BITS
      invariant local == start + 2 + k
      invariant Grew(terms, out, (w: nat, next: Vec) => BoolQRow(b, k, w, next))
    {
      ghost var middle := out;
      out := AddBoolConstraint(out, local, QBitIndex(b, k));
      ghost var wire := local;
      local := local + 1;
      GrewChain(terms, middle, out, (w: nat, next: Vec) => BoolQRow(b, k, w, next),
                (w: nat, next: Vec) => BoolAt(wire, QBitIndex(b, k), w, next),
                (w: nat, next: Vec) => BoolQRow(b, k + 1, w, next));
    }
  }

  method AddBoolRow(terms: seq<QuadTerm>, b: nat, start: nat) returns (out: seq<QuadTerm>, local: nat)
    requires AllFit(terms) && b < GF128_BITS && start == LOCAL_START + 11 * b
    ensures local == start + 11
    ensures Grew(terms, out, (w: nat, next: Vec) => BoolRow(b, w, next))
  {
    hide WireSum, TermAt, BoolAt;
    local := start;
    var first := AddBoolConstraint(terms, local, X_BITS_START + b);
    local := local + 1;
    var second := AddBoolConstraint(first, local, AP_BITS_START + b);
    local := local + 1;
    GrewChain(terms, first, second, (w: nat, next: Vec) => BoolAt(start, X_BITS_START + b, w, next),
              (w: nat, next: Vec) => BoolAt(start + 1, AP_BITS_START + b, w, next),
              (w: nat, next: Vec) => BoolHead(b, w, next));
    out, local := AddBoolQRow(second, b, start, local);
    GrewChain(terms, second, out, (w: nat, next: Vec) => BoolHead(b, w, next),
              (w: nat, next: Vec) => BoolQRow(b, PARITY_Q_BITS, w, next), (w: nat, next: Vec) => BoolRow(b, w, next));
  }

  method AddBools(terms: seq<QuadTerm>) returns (out: seq<QuadTerm>)
    requires AllFit(terms)
    ensures Grew(terms, out, (w: nat, next: Vec) => BoolPart(GF128_BITS, w, next))
  {
    hide WireSum, TermAt, BoolAt, BoolRow;
    out := terms;
    var local := LOCAL_START;
    GrewNone(terms, (w: nat, next: Vec) => BoolPart(0, w, next));
    for b := 0 to GF128_BITS
      invariant local == LOCAL_START + 11 * b
      invariant Grew(terms, out, (w: nat, next: Vec) => BoolPart(b, w, next))
    {
      ghost var middle := out;
      out, local := AddBoolRow(out, b, local);
      GrewChain(terms, middle, out, (w: nat, next: Vec) => BoolPart(b, w, next),
                (w: nat, next: Vec) => BoolRow(b, w, next), (w: nat, next: Vec) => BoolPart(b + 1, w, next));
    }
    assert local == LOCAL_START + BOOL_CONSTRAINTS;
  }

  function ConstPart(w: nat, next: Vec): Fp { TermAt(ConstTerm(), w, next) }

  method AddConst(terms: seq<QuadTerm>) returns (out: seq<QuadTerm>)
    requires AllFit(terms)
    ensures Grew(terms, out, (w: nat, next: Vec) => ConstPart(w, next))
  {
    hide WireSum, TermAt;
    GrewNone(terms, (w: nat, next: Vec) => 0);
    forall w: nat, next: Vec ensures ConstPart(w, next) == Add(0, TermAt(ConstTerm(), w, next)) { Units(ConstPart(w, next)); }
    GrewPush(terms, terms, (w: nat, next: Vec) => 0, ConstTerm(), (w: nat, next: Vec) => ConstPart(w, next));
    out := terms + [ConstTerm()];
  }

  /** The value of a wire above the inputs. */
  function InputLayerPart(slots: seq<Bools>, w: nat, next: Vec): Fp
  {
    Add(Add(Add(Add(ConstPart(w, next), ProductPart(GF128_BITS, w, next)), FoldPart(slots, GF128_BITS, w, next)), QPart(GF128_BITS, w, next)), BoolPart(GF128_BITS, w, next))
  }

  /** The terms of a layer and the value they give every wire. */
  ghost predicate Realizes(layer: Layer, part: (nat, Vec) -> Fp)
  {
    && layer.outLog == layer.nextLog == LOG_SIZE && layer.Valid()
    && forall w: nat, next: Vec :: WireSum(layer.terms, w, next) == part(w, next)
  }

  method FinishLayer(terms: seq<QuadTerm>, ghost part: (nat, Vec) -> Fp) returns (layer: Layer)
    requires Grew([], terms, part)
    ensures Realizes(layer, part)
  {
    hide WireSum;
    assert Pow2(LOG_SIZE) == WIDTH;
    var r := Layer.New(LOG_SIZE, LOG_SIZE, terms);
    layer := r.value;
    forall w: nat, next: Vec ensures WireSum(terms, w, next) == part(w, next) {
      assert WireSum(terms, w, next) == Add(WireSum([], w, next), part(w, next));
      EmptySum(w, next);
      Units(part(w, next));
    }
  }

  lemma EmptySum(w: nat, next: Vec)
    ensures WireSum([], w, next) == 0
  {
  }

  ghost predicate FoldsShare(slots: seq<Bools>, avBits: Bools)
  {
    && |slots| == GF128_BITS && (forall o :: 0 <= o < GF128_BITS ==> |slots[o]| == GF128_BITS)
    && (forall o, j :: 0 <= o < GF128_BITS && 0 <= j < GF128_BITS ==> slots[o][j] == Residue(avBits, j)[o])
  }

  method InputLayer(avBits: Bools) returns (layer: Layer, slots: seq<Bools>)
    requires |avBits| == GF128_BITS
    ensures FoldsShare(slots, avBits)
    ensures Realizes(layer, (w: nat, next: Vec) => InputLayerPart(slots, w, next))
  {
    hide WireSum, ConstPart, ProductPart, FoldPart, QPart, BoolPart, Residue;
    slots := AvLinearFoldSlots(avBits);
    ghost var c := (w: nat, next: Vec) => ConstPart(w, next);
    ghost var cp := (w: nat, next: Vec) => Add(ConstPart(w, next), ProductPart(GF128_BITS, w, next));
    ghost var cpf := (w: nat, next: Vec) =>
      Add(Add(ConstPart(w, next), ProductPart(GF128_BITS, w, next)), FoldPart(slots, GF128_BITS, w, next));
    ghost var cpfq := (w: nat, next: Vec) =>
      Add(Add(Add(ConstPart(w, next), ProductPart(GF128_BITS, w, next)), FoldPart(slots, GF128_BITS, w, next)), QPart(GF128_BITS, w, next));
    var t0: seq<QuadTerm> := [];
    var t1 := AddConst(t0);
    var t2 := AddProducts(t1);
    GrewChain(t0, t1, t2, c, (w: nat, next: Vec) => ProductPart(GF128_BITS, w, next), cp);
    var t3 := AddFold(t2, slots);
    GrewChain(t0, t2, t3, cp, (w: nat, next: Vec) => FoldPart(slots, GF128_BITS, w, next), cpf);
    var t4 := AddQuotients(t3);
    GrewChain(t0, t3, t4, cpf, (w: nat, next: Vec) => QPart(GF128_BITS, w, next), cpfq);
    var t5 := AddBools(t4);
    GrewChain(t0, t4, t5, cpfq, (w: nat, next: Vec) => BoolPart(GF128_BITS, w, next),
              (w: nat, next: Vec) => InputLayerPart(slots, w, next));
    layer := FinishLayer(t5, (w: nat, next: Vec) => InputLayerPart(slots, w, next));
  }

  // ----- the product-reduce layer -----

  function ReduceTermAt(b: nat, power: nat, w: nat, next: Vec): Fp
  {
    if b < GF128_BITS && Monomial(power)[b] then TermAt(QuadTerm(TAG_PIN_START + b, 1 + power, 0, 1), w, next) else 0
  }

  function ReduceRow(b: nat, n: nat, w: nat, next: Vec): Fp
  {
    FSum(n, (power: nat) => ReduceTermAt(b, power, w, next))
  }

  /** What is left of a tag pin after the product bits: the folded share, twice the quotient, the tag bit. */
  function PinTail(b: nat, tagBit: bool, w: nat, next: Vec): Fp
  {
    Add(Add(TermAt(QuadTerm(TAG_PIN_START + b, TREE_L_START + b, 0, 1), w, next), TermAt(QuadTerm(TAG_PIN_START + b, TREE_QSUM_START + b, 0, Neg(2)), w, next)), TagTermAt(b, tagBit, w, next))
  }

  function TagTermAt(b: nat, tagBit: bool, w: nat, next: Vec): Fp
  {
    if tagBit then TermAt(QuadTerm(TAG_PIN_START + b, 0, 0, Neg(1)), w, next) else 0
  }

  function PinRow(b: nat, tagBit: bool, w: nat, next: Vec): Fp
  {
    Add(ReduceRow(b, PRODUCT_COEFFS, w, next), PinTail(b, tagBit, w, next))
  }

  function PinAt(tagBits: Bools, b: nat, w: nat, next: Vec): Fp
  {
    if b < |tagBits| then PinRow(b, tagBits[b], w, next) else 0
  }

  function PinPart(tagBits: Bools, n: nat, w: nat, next: Vec): Fp
  {
    FSum(n, (b: nat) => PinAt(tagBits, b, w, next))
  }

  method AddReduceRow(terms: seq<QuadTerm>, b: nat) returns (out: seq<QuadTerm>)
    requires AllFit(terms) && b < GF128_BITS
    ensures Grew(terms, out, (w: nat, next: Vec) => ReduceRow(b, PRODUCT_COEFFS, w, next))
  {
    hide WireSum, TermAt, Monomial;
    out := terms;
    GrewNone(terms, (w: nat, next: Vec) => ReduceRow(b, 0, w, next));
    for power := 0 to PRODUCT_COEFFS
      invariant Grew(terms, out, (w: nat, next: Vec) => ReduceRow(b, power, w, next))
    {
      ghost var p, q := (w: nat, next: Vec) => ReduceRow(b, power, w, next), (w: nat, next: Vec) => ReduceRow(b, power + 1, w, next);
      forall w: nat, next: Vec ensures q(w, next) == Add(p(w, next), ReduceTermAt(b, power, w, next)) {}
      var reduced := MonomialReductionBits(power);
      if reduced[b] {
        var t := QuadTerm(TAG_PIN_START + b, 1 + power, 0, 1);
        GrewPush(terms, out, p, t, q);
        out := out + [t];
      } else {
        forall w: nat, next: Vec ensures q(w, next) == p(w, next) { Units(p(w, next)); }
        GrewSame(terms, out, p, q);
      }
    }
  }

  method AddPinTail(terms: seq<QuadTerm>, b: nat, tagBit: bool) returns (out: seq<QuadTerm>)
    requires AllFit(terms) && b < GF128_BITS
    ensures Grew(terms, out, (w: nat, next: Vec) => PinTail(b, tagBit, w, next))
  {
    hide WireSum, TermAt;
    var pin := TAG_PIN_START + b;
    var l, q := QuadTerm(pin, TREE_L_START + b, 0, 1), QuadTerm(pin, TREE_QSUM_START + b, 0, Neg(2));
    ghost var one := (w: nat, next: Vec) => TermAt(l, w, next);
    ghost var two := (w: nat, next: Vec) => Add(TermAt(l, w, next), TermAt(q, w, next));
    ghost var three := (w: nat, next: Vec) => PinTail(b, tagBit, w, next);
    GrewNone(terms, (w: nat, next: Vec) => 0);
    forall w: nat, next: Vec ensures one(w, next) == Add(0, TermAt(l, w, next)) { Units(TermAt(l, w, next)); }
    GrewPush(terms, terms, (w: nat, next: Vec) => 0, l, one);
    GrewPush(terms, terms + [l], one, q, two);
    out := terms + [l] + [q];
    if tagBit {
      var t := QuadTerm(pin, 0, 0, Neg(1));
      GrewPush(terms, out, two, t, three);
      out := out + [t];
    } else {
      forall w: nat, next: Vec ensures three(w, next) == two(w, next) { Units(two(w, next)); }
      GrewSame(terms, out, two, three);
    }
  }

  method AddPins(terms: seq<QuadTerm>, tagBits: Bools) returns (out: seq<QuadTerm>)
    requires AllFit(terms) && |tagBits| == GF128_BITS
    ensures Grew(terms, out, (w: nat, next: Vec) => PinPart(tagBits, GF128_BITS, w, next))
  {
    hide WireSum, ReduceRow, PinTail;
    out := terms;
    GrewNone(terms, (w: nat, next: Vec) => PinPart(tagBits, 0, w, next));
    for b := 0 to GF128_BITS
      invariant Grew(terms, out, (w: nat, next: Vec) => PinPart(tagBits, b, w, next))
    {
      ghost var start := out;
      var middle := AddReduceRow(out, b);
      out := AddPinTail(middle, b, tagBits[b]);
      ghost var row := (w: nat, next: Vec) => PinAt(tagBits, b, w, next);
      GrewChain(start, middle, out, (w: nat, next: Vec) => ReduceRow(b, PRODUCT_COEFFS, w, next),
                (w: nat, next: Vec) => PinTail(b, tagBits[b], w, next), row);
      GrewChain(terms, start, out, (w: nat, next: Vec) => PinPart(tagBits, b, w, next), row,
                (w: nat, next: Vec) => PinPart(tagBits, b + 1, w, next));
    }
  }

  /** Local wires carried to the wires from `to` on. */
  function CarryPart(to: nat, n: nat, w: nat, next: Vec): Fp
  {
    FSum(n, (i: nat) => TermAt(QuadTerm(to + i, LOCAL_START + i, 0, 1), w, next))
  }

  method AddCarry(terms: seq<QuadTerm>, to: nat) returns (out: seq<QuadTerm>)
    requires AllFit(terms) && to <= LOCAL_START
    ensures Grew(terms, out, (w: nat, next: Vec) => CarryPart(to, LOCAL_CONSTRAINTS, w, next))
  {
    hide WireSum, TermAt;
    out := terms;
    GrewNone(terms, (w: nat, next: Vec) => CarryPart(to, 0, w, next));
    for i := 0 to LOCAL_CONSTRAINTS
      invariant Grew(terms, out, (w: nat, next: Vec) => CarryPart(to, i, w, next))
    {
      var t := QuadTerm(to + i, LOCAL_START + i, 0, 1);
      GrewPush(terms, out, (w: nat, next: Vec) => CarryPart(to, i, w, next), t, (w: nat, next: Vec) => CarryPart(to, i + 1, w, next));
      out := out + [t];
    }
  }

  function ReduceLayerPart(tagBits: Bools, w: nat, next: Vec): Fp
  {
    Add(Add(ConstPart(w, next), PinPart(tagBits, GF128_BITS, w, next)), CarryPart(LOCAL_START, LOCAL_CONSTRAINTS, w, next))
  }

  method ReduceLayer(tagBits: Bools) returns (layer: Layer)
    requires |tagBits| == GF128_BITS
    ensures Realizes(layer, (w: nat, next: Vec) => ReduceLayerPart(tagBits, w, next))
  {
    hide WireSum, ConstPart, PinPart, CarryPart;
    ghost var c := (w: nat, next: Vec) => ConstPart(w, next);
    ghost var cp := (w: nat, next: Vec) => Add(ConstPart(w, next), PinPart(tagBits, GF128_BITS, w, next));
    var t0: seq<QuadTerm> := [];
    var t1 := AddConst(t0);
    var t2 := AddPins(t1, tagBits);
    GrewChain(t0, t1, t2, c, (w: nat, next: Vec) => PinPart(tagBits, GF128_BITS, w, next), cp);
    var t3 := AddCarry(t2, LOCAL_START);
    GrewChain(t0, t2, t3, cp, (w: nat, next: Vec) => CarryPart(LOCAL_START, LOCAL_CONSTRAINTS, w, next),
              (w: nat, next: Vec) => ReduceLayerPart(tagBits, w, next));
    layer := FinishLayer(t3, (w: nat, next: Vec) => ReduceLayerPart(tagBits, w, next));
  }

  // ----- the circuit -----

  /** Three layers: the local wires as outputs, the tag pins, the inputs. */
  ghost predicate IsMacCircuit(circuit: Circuit, avBits: Bools, tagBits: Bools)
  {
    && circuit.Valid() && |circuit.layers| == 3
    && Realizes(circuit.layers[0], (w: nat, next: Vec) => CarryPart(0, LOCAL_CONSTRAINTS, w, next))
    && Realizes(circuit.layers[1], (w: nat, next: Vec) => ReduceLayerPart(tagBits, w, next))
    && exists slots :: FoldsShare(slots, avBits) && Realizes(circuit.layers[2], (w: nat, next: Vec) => InputLayerPart(slots, w, next))
  }

  method BuildMacHalfCircuit(av: seq<nat>, tag: seq<nat>) returns (circuit: Circuit)
    requires IsBytes(av) && IsBytes(tag)
    ensures IsMacCircuit(circuit, BitsOf(av), BitsOf(tag))
  {
    hide WireSum, CarryPart, ReduceLayerPart, InputLayerPart, Residue, BitsOf;
    var avBits := BytesToBits(av);
    var tagBits := BytesToBits(tag);
    var carry := AddCarry([], 0);
    var finalLayer := FinishLayer(carry, (w: nat, next: Vec) => CarryPart(0, LOCAL_CONSTRAINTS, w, next));
    var reduceLayer := ReduceLayer(tagBits);
    var inputLayer, slots := InputLayer(avBits);
    var layers := [finalLayer, reduceLayer, inputLayer];
    var r := Circuit.New(layers);
    assert Chained(layers);
    circuit := r.value;
  }
}
