/** The product in the forms the trace generator uses (mdoc_mac_spike.rs): nibble pairs with reduced contributions, and
    the ladder of shifted multiples. Both are the schoolbook product. */
module Gf128Forms {
  import opened Bits
  import opened Gf128

  const NIBBLES_PER_HALF: nat := 32
  const PRODUCTS_PER_MAC: nat := 1024

  // ----- shifts and concatenations of residues -----

  lemma {:induction false} ResidueNext(c: Bools, base: nat)
    ensures Residue(c, base + 1) == MulX(Residue(c, base))
  {
    hide Monomial, MulX;
    if c == [] {
      MulXNothing();
    } else {
      var n := |c| - 1;
      ResidueNext(c[..n], base);
      if c[n] {
        MulXXor(Residue(c[..n], base), Monomial(base + n));
        MonomialNext(base + n);
      }
    }
  }

  lemma MulXNothing()
    ensures MulX(NoBits(GF128_BITS)) == NoBits(GF128_BITS)
  {
  }

  lemma {:induction false} ResidueConcat(c: Bools, d: Bools, base: nat)
    ensures Residue(c + d, base) == Xor(Residue(c, base), Residue(d, base + |c|))
    decreases |d|
  {
    hide Monomial, Xor;
    if d == [] {
      assert c + d == c;
      XorFacts(Residue(c, base), Residue(c, base), Residue(c, base));
    } else {
      var n := |d| - 1;
      ResidueConcat(c, d[..n], base);
      assert (c + d)[..|c| + n] == c + d[..n];
      XorFacts(Residue(c, base), Residue(d[..n], base + |c|), Monomial(base + |c| + n));
    }
  }

  lemma {:induction false} ProductConcatLeft(a: Bools, a': Bools, b: Bools, base: nat)
    ensures ProductAt(a + a', b, base) == Xor(ProductAt(a, b, base), ProductAt(a', b, base + |a|))
    decreases |a'|
  {
    hide Residue, Xor;
    if a' == [] {
      assert a + a' == a;
      XorFacts(ProductAt(a, b, base), ProductAt(a, b, base), ProductAt(a, b, base));
    } else {
      var n := |a'| - 1;
      ProductConcatLeft(a, a'[..n], b, base);
      assert (a + a')[..|a| + n] == a + a'[..n];
      XorFacts(ProductAt(a, b, base), ProductAt(a'[..n], b, base + |a|), Residue(b, base + |a| + n));
    }
  }

  lemma {:induction false} ProductConcatRight(a: Bools, b: Bools, b': Bools, base: nat)
    ensures ProductAt(a, b + b', base) == Xor(ProductAt(a, b, base), ProductAt(a, b', base + |b|))
    decreases |a|
  {
    hide Residue, Xor;
    if a == [] {
      XorFacts(NoBits(GF128_BITS), NoBits(GF128_BITS), NoBits(GF128_BITS));
    } else {
      var n := |a| - 1;
      ProductConcatRight(a[..n], b, b', base);
      ResidueConcat(b, b', base + n);
      XorPairs(ProductAt(a[..n], b, base), ProductAt(a[..n], b', base + |b|), Residue(b, base + n), Residue(b', base + n + |b|));
    }
  }

  lemma XorPairs(p: Bools, q: Bools, r: Bools, s: Bools)
    requires |p| == |q| == |r| == |s|
    ensures Xor(Xor(p, q), Xor(r, s)) == Xor(Xor(p, r), Xor(q, s))
  {
  }

  lemma NothingProduct(a: Bools, base: nat)
    ensures ProductAt([], a, base) == NoBits(GF128_BITS)
    ensures ProductAt(a, [], base) == NoBits(GF128_BITS)
  {
    if a != [] {
      NothingProduct(a[..|a| - 1], base);
      XorFacts(NoBits(GF128_BITS), NoBits(GF128_BITS), NoBits(GF128_BITS));
    }
  }

  lemma {:induction false} SingleRight(b: Bools, bit: bool, base: nat)
    ensures ProductAt(b, [bit], base) == if bit then Residue(b, base) else NoBits(GF128_BITS)
    decreases |b|
  {
    hide Monomial, Xor;
    if b != [] {
      var n := |b| - 1;
      SingleRight(b[..n], bit, base);
      SingleResidue(bit, base + n);
      XorFacts(NoBits(GF128_BITS), NoBits(GF128_BITS), NoBits(GF128_BITS));
    }
  }

  lemma SingleResidue(bit: bool, base: nat)
    ensures Residue([bit], base) == if bit then Monomial(base) else NoBits(GF128_BITS)
  {
    hide Monomial;
    assert [bit][..0] == [];
    XorFacts(Monomial(base), NoBits(GF128_BITS), NoBits(GF128_BITS));
    XorFacts(NoBits(GF128_BITS), Monomial(base), NoBits(GF128_BITS));
  }

  /** Multiplication is commutative. */
  lemma {:induction false} ProductComm(a: Bools, b: Bools)
    ensures Product(a, b) == Product(b, a)
    decreases |a|
  {
    hide Monomial, Xor, Residue;
    if a == [] {
      NothingProduct(b, 0);
      ProductAtZero(a, b);
      ProductAtZero(b, a);
    } else {
      var n := |a| - 1;
      ProductComm(a[..n], b);
      assert a == a[..n] + [a[n]];
      ProductConcatRight(b, a[..n], [a[n]], 0);
      SingleRight(b, a[n], n);
      ProductAtZero(b, a[..n]);
      ProductAtZero(b, a);
      XorFacts(Product(b, a[..n]), Product(b, a[..n]), Product(b, a[..n]));
    }
  }

  // ----- reduced monomials and nibble products -----

  lemma {:induction false} OneResidue(n: nat, k: nat, base: nat)
    requires k < n
    ensures Residue(OneBit(n, k), base) == Monomial(base + k)
  {
    hide Monomial, Residue, Xor;
    ResiduePad([], n, base);
    assert [] + NoBits(n) == NoBits(n);
    ResidueFlip(NoBits(n), k, base);
    assert NoBits(n)[k := true] == OneBit(n, k);
    EmptyResidue(base);
    XorFacts(Monomial(base + k), Monomial(base + k), NoBits(GF128_BITS));
    XorFacts(NoBits(GF128_BITS), Monomial(base + k), NoBits(GF128_BITS));
  }

  /** x^degree, reduced from its own degree down. */
  method ReducedMonomialMask(degree: nat) returns (out: Bools)
    requires degree < PRODUCT_COEFFS
    ensures out == Monomial(degree)
  {
    hide Monomial, Residue;
    var coeffs := OneBit(PRODUCT_COEFFS, degree);
    OneResidue(PRODUCT_COEFFS, degree, 0);
    var high := degree + 1;
    while high > GF128_BITS
      invariant |coeffs| == PRODUCT_COEFFS && 0 <= high <= degree + 1
      invariant forall i :: high <= i < PRODUCT_COEFFS ==> !coeffs[i]
      invariant Residue(coeffs, 0) == Monomial(degree)
    {
      high := high - 1;
      if coeffs[high] {
        ReduceStepResidue(coeffs, high);
        ghost var before := coeffs;
        coeffs := coeffs[high := false];
        var k := high - GF128_BITS;
        coeffs := coeffs[k := !coeffs[k]];
        coeffs := coeffs[k + 1 := !coeffs[k + 1]];
        coeffs := coeffs[k + 2 := !coeffs[k + 2]];
        coeffs := coeffs[k + 7 := !coeffs[k + 7]];
        assert coeffs == ReduceStep(before, high);
      }
    }
    out := coeffs[..GF128_BITS];
    assert coeffs == out + NoBits(127);
    ResiduePad(out, 127, 0);
    ResidueLow(out);
    assert out + NoBits(0) == out;
  }

  /** The contribution of a nibble product, given by its bits, at nibble position `position`. */
  method ReducedProductContribution(position: nat, product: Bools) returns (out: Bools)
    requires |product| == 8 && 4 * position + 6 < PRODUCT_COEFFS
    ensures out == Residue(product[..7], 4 * position)
  {
    hide Monomial, Xor;
    out := NoBits(GF128_BITS);
    for bit := 0 to 7
      invariant out == Residue(product[..bit], 4 * position)
    {
      assert product[..bit + 1][..bit] == product[..bit];
      if product[bit] {
        var mask := ReducedMonomialMask(4 * position + bit);
        out := Xor(out, mask);
      }
    }
  }

  function NibbleOf(bytes: seq<nat>, i: nat): nat
    requires IsBytes(bytes) && i < NIBBLES_PER_HALF
  {
    if i % 2 == 0 then bytes[i / 2] % 16 else bytes[i / 2] / 16
  }

  function NibbleBits(n: nat): (b: Bools)
    ensures |b| == 4
  {
    [Bit(n, 0), Bit(n, 1), Bit(n, 2), Bit(n, 3)]
  }

  /** The digits of high * 2^m + low. */
  lemma {:induction false} BitSplit(m: nat, low: nat, high: nat, top: nat, k: nat)
    requires low < Pow2(m) && top == high * Pow2(m)
    ensures Bit(top + low, k) == if k < m then Bit(low, k) else Bit(high, k - m)
    decreases m
  {
    if m > 0 {
      var half := high * Pow2(m - 1);
      assert top == 2 * half;
      assert (top + low) / 2 == half + low / 2 && (top + low) % 2 == low % 2;
      if k > 0 {
        BitSplit(m - 1, low / 2, high, half, k - 1);
      }
    }
  }

  lemma NibbleBit(byte: nat, k: nat)
    requires k < 4
    ensures Bit(byte % 16, k) == Bit(byte, k) && Bit(byte / 16, k) == Bit(byte, 4 + k)
  {
    var low, high := byte % 16, byte / 16;
    assert byte == 16 * high + low;
    assert Pow2(4) == 16;
    hide Bit, Pow2;
    BitSplit(4, low, high, 16 * high, k);
    BitSplit(4, low, high, 16 * high, 4 + k);
  }

  lemma BitAt(bytes: seq<nat>, i: nat, k: nat)
    requires i < |bytes| && k < 8
    ensures BitsOf(bytes)[8 * i + k] == Bit(bytes[i], k)
  {
    hide Bit;
    var n := 8 * i + k;
    assert n / 8 == i && n % 8 == k;
  }

  lemma NibbleSlice(bytes: seq<nat>, i: nat)
    requires IsBytes(bytes) && i < NIBBLES_PER_HALF
    ensures NibbleBits(NibbleOf(bytes, i)) == BitsOf(bytes)[4 * i..4 * i + 4]
  {
    hide Bit, BitsOf;
    var h, from := i / 2, if i % 2 == 0 then 0 else 4;
    var s, b := BitsOf(bytes)[4 * i..4 * i + 4], NibbleBits(NibbleOf(bytes, i));
    assert 4 * i == 8 * h + from;
    forall k | 0 <= k < 4 ensures b[k] == s[k] {
      NibbleBit(bytes[h], k);
      BitAt(bytes, h, from + k);
    }
  }

  /** The carry-less product of two nibbles, as the bits of a byte. */
  method Clmul4(a: nat, b: nat) returns (out: Bools)
    ensures out == Partial(NibbleBits(a), NibbleBits(b), 4, 0, 8)
  {
    hide Bit;
    var x, y := NibbleBits(a), NibbleBits(b);
    out := NoBits(8);
    for i := 0 to 4
      invariant out == Partial(x, y, i, 0, 8)
    {
      for j := 0 to 4
        invariant out == Partial(x, y, i, j, 8)
      {
        var bit := Bit(a, i) && Bit(b, j);
        assert bit == (x[i] && y[j]);
        out := out[i + j := out[i + j] != bit];
      }
    }
  }

  lemma {:induction false} PartialTop(a: Bools, b: Bools, i: nat, j: nat, n: nat)
    requires i <= |a| && j <= |b| && (i == |a| ==> j == 0) && |a| + |b| <= n && n >= 1
    ensures !Partial(a, b, i, j, n)[n - 1]
    decreases i, j
  {
    if j > 0 {
      PartialTop(a, b, i, j - 1, n);
    } else if i > 0 {
      PartialTop(a, b, i - 1, |b|, n);
    }
  }

  /** One nibble pair contributes the product of its nibbles, in place. */
  lemma PairContribution(a: Bools, b: Bools, base: nat)
    requires |a| == |b| == 4
    ensures Residue(Partial(a, b, 4, 0, 8)[..7], base) == ProductAt(a, b, base)
  {
    hide Residue, ProductAt;
    PartialResidue(a, b, 4, 0, 8, base);
    assert a[..4] == a;
    PartialTop(a, b, 4, 0, 8);
    var p := Partial(a, b, 4, 0, 8);
    assert p == p[..7] + NoBits(1);
    ResiduePad(p[..7], 1, base);
  }

  /** The accumulator loop over nibble pairs computes the schoolbook product. */
  method NibbleProduct(ap: seq<nat>, x: seq<nat>) returns (acc: Bools)
    requires IsBytes(ap) && IsBytes(x)
    ensures acc == Product(BitsOf(ap), BitsOf(x))
  {
    hide Residue, ProductAt, Product, Xor, Partial, NibbleBits, NibbleOf, BitsOf;
    ghost var a, b := BitsOf(ap), BitsOf(x);
    acc := NoBits(GF128_BITS);
    assert a[..0] == [];
    NothingProduct(b, 0);
    for i := 0 to NIBBLES_PER_HALF
      invariant acc == ProductAt(a[..4 * i], b, 0)
    {
      ghost var before := acc;
      ghost var nibble := a[4 * i..4 * i + 4];
      NibbleSlice(ap, i);
      assert b[..0] == [];
      NothingProduct(nibble, 4 * i);
      XorFacts(before, before, before);
      for j := 0 to NIBBLES_PER_HALF
        invariant acc == Xor(before, ProductAt(nibble, b[..4 * j], 4 * i))
      {
        NibbleSlice(x, j);
        var product := Clmul4(NibbleOf(ap, i), NibbleOf(x, j));
        var contribution := ReducedProductContribution(i + j, product);
        PairContribution(nibble, b[4 * j..4 * j + 4], 4 * (i + j));
        ProductConcatRight(nibble, b[..4 * j], b[4 * j..4 * j + 4], 4 * i);
        assert b[..4 * j] + b[4 * j..4 * j + 4] == b[..4 * (j + 1)];
        XorFacts(before, ProductAt(nibble, b[..4 * j], 4 * i), contribution);
        acc := Xor(acc, contribution);
      }
      assert b[..4 * NIBBLES_PER_HALF] == b;
      ProductConcatLeft(a[..4 * i], nibble, b, 0);
      assert a[..4 * i] + nibble == a[..4 * (i + 1)];
    }
    assert a[..4 * NIBBLES_PER_HALF] == a;
    ProductAtZero(a, b);
  }

  // ----- the ladder -----

  /** The multiples x, x X, x X^2, ... */
  method SLadder(x: seq<nat>) returns (out: seq<Bools>)
    requires IsBytes(x)
    ensures |out| == GF128_BITS && forall step :: 0 <= step < GF128_BITS ==> out[step] == Residue(BitsOf(x), step)
  {
    hide Residue, BitsOf;
    var bits := BytesToBits(x);
    ResidueLow(bits);
    assert bits + NoBits(0) == bits;
    out := [bits];
    for step := 1 to GF128_BITS
      invariant |out| == step && forall s :: 0 <= s < step ==> out[s] == Residue(bits, s)
    {
      var prev := out[step - 1];
      var high := prev[GF128_BITS - 1];
      var next := [high] + prev[..GF128_BITS - 1];
      next := next[1 := next[1] != high];
      next := next[2 := next[2] != high];
      next := next[7 := next[7] != high];
      assert next == MulX(prev);
      ResidueNext(bits, step - 1);
      out := out + [next];
    }
  }

  /** The sum of the rungs that the bits of av select; the steps past the last bit add nothing. */
  method LadderProduct(av: seq<nat>, x: seq<nat>) returns (acc: Bools)
    requires IsBytes(av) && IsBytes(x)
    ensures acc == Product(BitsOf(av), BitsOf(x))
  {
    hide Residue, BitsOf;
    var ladder := SLadder(x);
    var avBits := BytesToBits(av);
    ghost var b := BitsOf(x);
    acc := NoBits(GF128_BITS);
    for step := 0 to PRODUCTS_PER_MAC
      invariant |acc| == GF128_BITS
      invariant acc == Product(avBits[..if step < GF128_BITS then step else GF128_BITS], b)
    {
      ghost var before := acc;
      for bit := 0 to GF128_BITS
        invariant |acc| == GF128_BITS
        invariant forall k :: 0 <= k < bit ==>
                    acc[k] == (before[k] != (step < GF128_BITS && avBits[step] && ladder[step][k]))
        invariant forall k :: bit <= k < GF128_BITS ==> acc[k] == before[k]
      {
        var term := step < GF128_BITS && avBits[step] && ladder[step][bit];
        if term {
          acc := acc[bit := !acc[bit]];
        }
      }
      if step < GF128_BITS {
        assert avBits[..step + 1][..step] == avBits[..step];
        if avBits[step] {
          assert acc == Xor(before, ladder[step]);
        } else {
          assert acc == before;
        }
      } else {
        assert acc == before;
      }
    }
    assert avBits[..GF128_BITS] == avBits;
  }

  /** The check of the trace generator: nibble product plus ladder sum is the tag. */
  method TagFromForms(ap: seq<nat>, av: seq<nat>, x: seq<nat>) returns (tag: seq<nat>)
    requires IsBytes(ap) && IsBytes(av) && IsBytes(x)
    ensures IsBytes(tag) && BitsOf(tag) == Product(Xor(BitsOf(ap), BitsOf(av)), BitsOf(x))
  {
    hide Product, BitsOf, Xor;
    var p := NibbleProduct(ap, x);
    var ax := LadderProduct(av, x);
    ProductXor(BitsOf(ap), BitsOf(av), BitsOf(x));
    BitsRoundTrip(Xor(p, ax));
    tag := BitsToBytes(Xor(p, ax));
  }
}
