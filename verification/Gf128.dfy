/** The field GF(2^128) of the message authentication code (mac.rs): bits and bytes, schoolbook multiplication followed
    by reduction modulo x^128 + x^7 + x^2 + x + 1, and what the product is. */
module Gf128 {
  import opened Bits

  const GF128_BITS: nat := 128
  const GF128_BYTES: nat := 16
  const PRODUCT_COEFFS: nat := 255

  type Bools = seq<bool>

  // ----- bytes -----

  predicate IsBytes(v: seq<nat>) { |v| == GF128_BYTES && forall i :: 0 <= i < |v| ==> v[i] < 256 }

  /** The bits of the bytes, lowest bit of the first byte first. */
  function BitsOf(bytes: seq<nat>): (b: Bools)
    ensures |b| == 8 * |bytes|
  {
    seq(8 * |bytes|, i requires 0 <= i < 8 * |bytes| => Bit(bytes[i / 8], i % 8))
  }

  method BytesToBits(bytes: seq<nat>) returns (bits: Bools)
    requires IsBytes(bytes)
    ensures bits == BitsOf(bytes) && |bits| == GF128_BITS
  {
    hide Bit;
    bits := seq(GF128_BITS, _ => false);
    for i := 0 to |bytes|
      invariant |bits| == GF128_BITS && forall k :: 0 <= k < 8 * i ==> bits[k] == BitsOf(bytes)[k]
    {
      for k := 0 to 8
        invariant |bits| == GF128_BITS && forall j :: 0 <= j < 8 * i + k ==> bits[j] == BitsOf(bytes)[j]
      {
        bits := bits[8 * i + k := Bit(bytes[i], k)];
      }
    }
  }

  /** Or with 1 << k. */
  function SetBit(byte: nat, k: nat): nat { if Bit(byte, k) then byte else byte + Pow2(k) }

  /** The number with these bits. */
  function Value(bits: Bools): nat
  {
    if bits == [] then 0 else (if bits[0] then 1 else 0) + 2 * Value(bits[1..])
  }

  lemma {:induction false} ValueBit(bits: Bools, k: nat)
    ensures Value(bits) < Pow2(|bits|)
    ensures Bit(Value(bits), k) == (k < |bits| && bits[k])
    decreases |bits|
  {
    if bits == [] {
      ZeroBit(k);
    } else if k == 0 {
      ValueBit(bits[1..], 0);
    } else {
      ValueBit(bits[1..], k - 1);
      assert Value(bits) / 2 == Value(bits[1..]);
    }
  }

  lemma {:induction false} ZeroBit(k: nat)
    ensures !Bit(0, k)
  {
    if k > 0 { ZeroBit(k - 1); }
  }

  lemma {:induction false} ValueSnoc(bits: Bools, b: bool)
    ensures Value(bits + [b]) == Value(bits) + if b then Pow2(|bits|) else 0
  {
    if bits == [] {
      assert ([] + [b])[1..] == [];
    } else {
      ValueSnoc(bits[1..], b);
      assert (bits + [b])[1..] == bits[1..] + [b];
    }
  }

  /** The bytes with these bits. */
  function BytesOf(bits: Bools): (bytes: seq<nat>)
    requires |bits| == GF128_BITS
    ensures |bytes| == GF128_BYTES
  {
    seq(GF128_BYTES, i requires 0 <= i < GF128_BYTES => Value(bits[8 * i..8 * i + 8]))
  }

  /** Only the bits below position n, byte by byte. */
  function PartialByte(bits: Bools, i: nat, n: nat): nat
    requires |bits| == GF128_BITS && i < GF128_BYTES
  {
    if n <= 8 * i then 0
    else if n >= 8 * i + 8 then Value(bits[8 * i..8 * i + 8])
    else Value(bits[8 * i..n])
  }

  lemma PartialStep(bits: Bools, n: nat)
    requires |bits| == GF128_BITS && n < GF128_BITS
    ensures forall i :: 0 <= i < GF128_BYTES && i != n / 8 ==> PartialByte(bits, i, n + 1) == PartialByte(bits, i, n)
    ensures PartialByte(bits, n / 8, n + 1)
         == if bits[n] then SetBit(PartialByte(bits, n / 8, n), n % 8) else PartialByte(bits, n / 8, n)
  {
    var i := n / 8;
    var low := bits[8 * i..n];
    assert PartialByte(bits, i, n) == Value(low) by { if n == 8 * i { assert low == []; } }
    assert bits[8 * i..n + 1] == low + [bits[n]];
    ValueSnoc(low, bits[n]);
    ValueBit(low, n % 8);
  }

  method BitsToBytes(bits: Bools) returns (bytes: seq<nat>)
    requires |bits| == GF128_BITS
    ensures bytes == BytesOf(bits)
  {
    hide Value, SetBit;
    bytes := seq(GF128_BYTES, _ => 0);
    for n := 0 to GF128_BITS
      invariant |bytes| == GF128_BYTES && forall i :: 0 <= i < GF128_BYTES ==> bytes[i] == PartialByte(bits, i, n)
    {
      PartialStep(bits, n);
      if bits[n] {
        bytes := bytes[n / 8 := SetBit(bytes[n / 8], n % 8)];
      }
    }
  }

  /** Bits to bytes and back. */
  lemma BitsRoundTrip(bits: Bools)
    requires |bits| == GF128_BITS
    ensures IsBytes(BytesOf(bits)) && BitsOf(BytesOf(bits)) == bits
  {
    forall i | 0 <= i < GF128_BYTES ensures BytesOf(bits)[i] < 256 {
      ValueBit(bits[8 * i..8 * i + 8], 0);
      assert Pow2(8) == 256;
    }
    forall n | 0 <= n < GF128_BITS ensures BitsOf(BytesOf(bits))[n] == bits[n] {
      var i, k := n / 8, n % 8;
      ValueBit(bits[8 * i..8 * i + 8], k);
      assert bits[8 * i..8 * i + 8][k] == bits[n];
    }
  }

  lemma {:induction false} ValueOfBits(byte: nat, n: nat, bits: Bools)
    requires byte < Pow2(n) && |bits| == n && forall k :: 0 <= k < n ==> bits[k] == Bit(byte, k)
    ensures Value(bits) == byte
    decreases n
  {
    if n > 0 {
      forall k | 0 <= k < n - 1 ensures bits[1..][k] == Bit(byte / 2, k) {
        assert bits[1..][k] == bits[k + 1];
      }
      ValueOfBits(byte / 2, n - 1, bits[1..]);
      assert bits[0] == Bit(byte, 0);
    }
  }

  /** Bytes to bits and back. */
  lemma BytesRoundTrip(bytes: seq<nat>)
    requires IsBytes(bytes)
    ensures BytesOf(BitsOf(bytes)) == bytes
  {
    forall i | 0 <= i < GF128_BYTES ensures BytesOf(BitsOf(bytes))[i] == bytes[i] {
      var part := BitsOf(bytes)[8 * i..8 * i + 8];
      forall k | 0 <= k < 8 ensures part[k] == Bit(bytes[i], k) {
        assert part[k] == BitsOf(bytes)[8 * i + k];
      }
      assert Pow2(8) == 256;
      ValueOfBits(bytes[i], 8, part);
    }
  }

  // ----- vectors of bits -----

  function Xor(a: Bools, b: Bools): (r: Bools)
    requires |a| == |b|
    ensures |r| == |a|
  {
    seq(|a|, i requires 0 <= i < |a| => a[i] != b[i])
  }

  function NoBits(n: nat): (r: Bools)
    ensures |r| == n && forall i :: 0 <= i < n ==> !r[i]
  {
    seq(n, _ => false)
  }

  function OneBit(n: nat, k: nat): (r: Bools)
    ensures |r| == n && forall i :: 0 <= i < n ==> r[i] == (i == k)
  {
    seq(n, i => i == k)
  }

  /** Multiplication by x: a shift, with the top bit folded back. */
  function MulX(v: Bools): (r: Bools)
    requires |v| == GF128_BITS
    ensures |r| == GF128_BITS
  {
    seq(GF128_BITS, k requires 0 <= k < GF128_BITS =>
      if k == 0 then v[127]
      else if k == 1 || k == 2 || k == 7 then v[k - 1] != v[127]
      else v[k - 1])
  }

  /** x^k in the field. */
  function Monomial(k: nat): (r: Bools)
    ensures |r| == GF128_BITS
  {
    if k == 0 then OneBit(GF128_BITS, 0) else MulX(Monomial(k - 1))
  }

  lemma {:induction false} LowMonomial(k: nat)
    requires k < GF128_BITS
    ensures Monomial(k) == OneBit(GF128_BITS, k)
  {
    if k > 0 { LowMonomial(k - 1); }
  }

  lemma MulXXor(a: Bools, b: Bools)
    requires |a| == |b| == GF128_BITS
    ensures MulX(Xor(a, b)) == Xor(MulX(a), MulX(b))
  {
  }

  function Four(a: Bools, b: Bools, c: Bools, d: Bools): (r: Bools)
    requires |a| == |b| == |c| == |d|
    ensures |r| == |a|
  {
    Xor(Xor(a, b), Xor(c, d))
  }

  /** The reduction identity x^(k+128) = x^k + x^(k+1) + x^(k+2) + x^(k+7). */
  lemma {:induction false} Fold(k: nat)
    ensures Monomial(k + 128) == Four(Monomial(k), Monomial(k + 1), Monomial(k + 2), Monomial(k + 7))
  {
    hide Monomial;
    if k == 0 {
      LowMonomial(0); LowMonomial(1); LowMonomial(2); LowMonomial(7); LowMonomial(127);
      MonomialNext(127);
    } else {
      hide Xor, MulX;
      Fold(k - 1);
      MonomialNext(k + 127);
      MonomialNext(k - 1); MonomialNext(k); MonomialNext(k + 1); MonomialNext(k + 6);
      var a, b, c, d := Monomial(k - 1), Monomial(k), Monomial(k + 1), Monomial(k + 6);
      MulXXor(Xor(a, b), Xor(c, d));
      MulXXor(a, b);
      MulXXor(c, d);
    }
  }

  lemma MonomialNext(k: nat)
    ensures Monomial(k + 1) == MulX(Monomial(k))
  {
  }

  // ----- products -----

  /** The field element with coefficient vector c from x^base on. */
  function Residue(c: Bools, base: nat): (r: Bools)
    ensures |r| == GF128_BITS
  {
    if c == [] then NoBits(GF128_BITS)
    else
      var n := |c| - 1;
      if c[n] then Xor(Residue(c[..n], base), Monomial(base + n)) else Residue(c[..n], base)
  }

  /** The field product: the sum of the residues of b shifted by every bit of a. */
  function Product(a: Bools, b: Bools): (r: Bools)
    ensures |r| == GF128_BITS
  {
    if a == [] then NoBits(GF128_BITS)
    else
      var n := |a| - 1;
      if a[n] then Xor(Product(a[..n], b), Residue(b, n)) else Product(a[..n], b)
  }

  /** The same product, times x^base. */
  function ProductAt(a: Bools, b: Bools, base: nat): (r: Bools)
    ensures |r| == GF128_BITS
  {
    if a == [] then NoBits(GF128_BITS)
    else
      var n := |a| - 1;
      if a[n] then Xor(ProductAt(a[..n], b, base), Residue(b, base + n)) else ProductAt(a[..n], b, base)
  }

  lemma {:induction false} ProductAtZero(a: Bools, b: Bools)
    ensures ProductAt(a, b, 0) == Product(a, b)
  {
    if a != [] { ProductAtZero(a[..|a| - 1], b); }
  }

  lemma XorFacts(a: Bools, b: Bools, c: Bools)
    requires |a| == |b| == |c|
    ensures Xor(a, b) == Xor(b, a) && Xor(Xor(a, b), c) == Xor(a, Xor(b, c))
    ensures Xor(a, NoBits(|a|)) == a && Xor(a, a) == NoBits(|a|) && Xor(Xor(a, b), b) == a
  {
  }

  /** Flipping one coefficient adds its monomial. */
  lemma {:induction false} ResidueFlip(c: Bools, k: nat, base: nat)
    requires k < |c|
    ensures Residue(c[k := !c[k]], base) == Xor(Residue(c, base), Monomial(base + k))
    decreases |c|
  {
    hide Monomial, Xor;
    var n := |c| - 1;
    var d := c[k := !c[k]];
    var m := Monomial(base + k);
    if k == n {
      assert d[..n] == c[..n];
      XorFacts(Residue(c[..n], base), m, m);
    } else {
      ResidueFlip(c[..n], k, base);
      assert d[..n] == c[..n][k := !c[k]];
      var r, t := Residue(c[..n], base), Monomial(base + n);
      XorFacts(r, m, t);
      XorFacts(m, t, t);
      XorFacts(r, t, m);
    }
  }

  /** 128 low coefficients are their own residue. */
  lemma {:induction false} ResidueLow(c: Bools)
    requires |c| <= GF128_BITS
    ensures Residue(c, 0) == c + NoBits(GF128_BITS - |c|)
  {
    hide Monomial;
    if c != [] {
      var n := |c| - 1;
      ResidueLow(c[..n]);
      LowMonomial(n);
    } else {
      assert [] + NoBits(GF128_BITS) == NoBits(GF128_BITS);
    }
  }

  lemma {:induction false} ResiduePad(c: Bools, m: nat, base: nat)
    ensures Residue(c + NoBits(m), base) == Residue(c, base)
    decreases m
  {
    if m == 0 {
      assert c + NoBits(0) == c;
    } else {
      ResiduePad(c, m - 1, base);
      assert (c + NoBits(m))[..|c| + m - 1] == c + NoBits(m - 1);
    }
  }

  lemma XorFour(r: Bools, s: Bools, m: Bools)
    requires |r| == |s| == |m|
    ensures Xor(Xor(r, m), s) == Xor(Xor(r, s), m) && Xor(r, Xor(s, m)) == Xor(Xor(r, s), m)
    ensures Xor(Xor(r, m), Xor(s, m)) == Xor(r, s)
  {
  }

  /** Multiplication distributes over addition on the left. */
  lemma {:induction false} ProductXor(a: Bools, a': Bools, b: Bools)
    requires |a| == |a'|
    ensures Product(Xor(a, a'), b) == Xor(Product(a, b), Product(a', b))
  {
    hide Residue;
    if a == [] {
      XorFacts(NoBits(GF128_BITS), NoBits(GF128_BITS), NoBits(GF128_BITS));
    } else {
      var n := |a| - 1;
      ProductXor(a[..n], a'[..n], b);
      assert Xor(a, a')[..n] == Xor(a[..n], a'[..n]);
      XorFour(Product(a[..n], b), Product(a'[..n], b), Residue(b, n));
    }
  }

  // ----- the modulus as a polynomial -----

  function CoeffAt(q: Bools, i: int): bool { 0 <= i < |q| && q[i] }

  /** q times x^128 + x^7 + x^2 + x + 1. */
  function TimesModulus(q: Bools): (r: Bools)
    ensures |r| == |q| + 128
  {
    seq(|q| + 128, i requires 0 <= i < |q| + 128 =>
      ((CoeffAt(q, i) != CoeffAt(q, i - 1)) != (CoeffAt(q, i - 2) != CoeffAt(q, i - 7))) != CoeffAt(q, i - 128))
  }

  /** c leaves remainder r modulo the polynomial. */
  ghost predicate LeavesRemainder(c: Bools, r: Bools)
    requires |c| == PRODUCT_COEFFS && |r| == GF128_BITS
  {
    exists q: Bools :: |q| == 127 && c == Xor(r + NoBits(127), TimesModulus(q))
  }

  /** A multiple that fits in 128 coefficients is zero. */
  lemma {:induction false} NoSmallModulusMultiple(q: Bools, n: nat)
    requires n <= |q| == 127 && forall i :: 128 <= i < 255 ==> !TimesModulus(q)[i]
    ensures forall k :: |q| - n <= k < |q| ==> !q[k]
  {
    if n > 0 {
      NoSmallModulusMultiple(q, n - 1);
      var k := |q| - n;
      assert !TimesModulus(q)[k + 128];
    }
  }

  lemma CoeffXor(q: Bools, q': Bools, i: int)
    requires |q| == |q'|
    ensures CoeffAt(Xor(q, q'), i) == (CoeffAt(q, i) != CoeffAt(q', i))
  {
  }

  lemma ModulusXor(q: Bools, q': Bools, i: nat)
    requires |q| == |q'| && i < |q| + 128
    ensures TimesModulus(Xor(q, q'))[i] == (TimesModulus(q)[i] != TimesModulus(q')[i])
  {
    CoeffXor(q, q', i); CoeffXor(q, q', i - 1); CoeffXor(q, q', i - 2); CoeffXor(q, q', i - 7); CoeffXor(q, q', i - 128);
  }

  lemma XorAt(a: Bools, b: Bools, i: nat)
    requires |a| == |b| && i < |a|
    ensures Xor(a, b)[i] == (a[i] != b[i])
  {
  }

  /** The remainder is unique. */
  lemma RemainderUnique(c: Bools, r: Bools, r': Bools)
    requires |c| == PRODUCT_COEFFS && |r| == |r'| == GF128_BITS && LeavesRemainder(c, r) && LeavesRemainder(c, r')
    ensures r == r'
  {
    hide TimesModulus, Xor, CoeffAt;
    var q: Bools :| |q| == 127 && c == Xor(r + NoBits(127), TimesModulus(q));
    var q': Bools :| |q'| == 127 && c == Xor(r' + NoBits(127), TimesModulus(q'));
    var d := Xor(q, q');
    forall i | 0 <= i < 255
      ensures TimesModulus(d)[i] == ((r + NoBits(127))[i] != (r' + NoBits(127))[i])
    {
      XorAt(r + NoBits(127), TimesModulus(q), i);
      XorAt(r' + NoBits(127), TimesModulus(q'), i);
      ModulusXor(q, q', i);
    }
    NoSmallModulusMultiple(d, 127);
    ModulusOfNothing(d);
    forall i | 0 <= i < 128 ensures r[i] == r'[i] {
      assert (r + NoBits(127))[i] == r[i] && (r' + NoBits(127))[i] == r'[i];
    }
  }

  lemma ModulusOfNothing(q: Bools)
    requires forall k :: 0 <= k < |q| ==> !q[k]
    ensures forall i :: 0 <= i < |q| + 128 ==> !TimesModulus(q)[i]
  {
    assert forall i :: !CoeffAt(q, i);
  }

  // ----- the schoolbook method -----

  /** The product polynomial, in n coefficients, after the first i rows and the first j entries of row i. */
  function Partial(a: Bools, b: Bools, i: nat, j: nat, n: nat): (c: Bools)
    requires i <= |a| && j <= |b| && (i == |a| ==> j == 0) && |a| + |b| <= n + 1
    ensures |c| == n
    decreases i, j
  {
    if j > 0 then
      var c := Partial(a, b, i, j - 1, n);
      if a[i] && b[j - 1] then c[i + j - 1 := !c[i + j - 1]] else c
    else if i > 0 then Partial(a, b, i - 1, |b|, n)
    else NoBits(n)
  }

  /** a times b as polynomials. */
  function Convolution(a: Bools, b: Bools): (c: Bools)
    requires |a| == |b| == GF128_BITS
    ensures |c| == PRODUCT_COEFFS
  {
    Partial(a, b, GF128_BITS, 0, PRODUCT_COEFFS)
  }

  lemma EmptyResidue(base: nat)
    ensures Residue([], base) == NoBits(GF128_BITS)
  {
  }

  /** What the first i rows and j entries of row i leave modulo the field polynomial. */
  function RowsResidue(a: Bools, b: Bools, i: nat, j: nat, base: nat): (r: Bools)
    requires i <= |a| && j <= |b|
    ensures |r| == GF128_BITS
  {
    if i < |a| && a[i] then Xor(ProductAt(a[..i], b, base), Residue(b[..j], base + i)) else ProductAt(a[..i], b, base)
  }

  lemma RowsResidueNone(a: Bools, b: Bools, base: nat)
    ensures RowsResidue(a, b, 0, 0, base) == NoBits(GF128_BITS)
  {
    hide Monomial, Xor;
    XorFacts(NoBits(GF128_BITS), NoBits(GF128_BITS), NoBits(GF128_BITS));
  }

  lemma RowsResidueEntry(a: Bools, b: Bools, i: nat, j: nat, base: nat)
    requires i < |a| && 0 < j <= |b|
    ensures RowsResidue(a, b, i, j, base)
         == var r := RowsResidue(a, b, i, j - 1, base); if a[i] && b[j - 1] then Xor(r, Monomial(base + i + j - 1)) else r
  {
    hide Monomial, Xor, ProductAt;
    assert b[..j][..j - 1] == b[..j - 1];
    XorFacts(ProductAt(a[..i], b, base), Residue(b[..j - 1], base + i), Monomial(base + i + j - 1));
  }

  lemma RowsResidueRow(a: Bools, b: Bools, i: nat, base: nat)
    requires 0 < i <= |a|
    ensures RowsResidue(a, b, i, 0, base) == RowsResidue(a, b, i - 1, |b|, base)
  {
    hide Monomial, Xor;
    assert a[..i][..i - 1] == a[..i - 1] && b[..|b|] == b && b[..0] == [];
    XorFacts(ProductAt(a[..i], b, base), ProductAt(a[..i], b, base), ProductAt(a[..i], b, base));
  }

  lemma {:induction false} PartialResidue(a: Bools, b: Bools, i: nat, j: nat, n: nat, base: nat)
    requires i <= |a| && j <= |b| && (i == |a| ==> j == 0) && |a| + |b| <= n + 1
    ensures Residue(Partial(a, b, i, j, n), base) == RowsResidue(a, b, i, j, base)
    decreases i, j
  {
    hide Monomial, Xor, RowsResidue, Residue;
    if j > 0 {
      PartialResidue(a, b, i, j - 1, n, base);
      RowsResidueEntry(a, b, i, j, base);
      if a[i] && b[j - 1] {
        ResidueFlip(Partial(a, b, i, j - 1, n), i + j - 1, base);
      }
    } else if i > 0 {
      PartialResidue(a, b, i - 1, |b|, n, base);
      RowsResidueRow(a, b, i, base);
    } else {
      RowsResidueNone(a, b, base);
      ResiduePad([], n, base);
      assert [] + NoBits(n) == NoBits(n);
      EmptyResidue(base);
    }
  }

  /** The product polynomial and the field product have one residue. */
  lemma ConvolutionResidue(a: Bools, b: Bools)
    requires |a| == |b| == GF128_BITS
    ensures Residue(Convolution(a, b), 0) == Product(a, b)
  {
    PartialResidue(a, b, GF128_BITS, 0, PRODUCT_COEFFS, 0);
    assert a[..GF128_BITS] == a;
    ProductAtZero(a, b);
  }

  /** One reduction step: clear a high coefficient and flip the four below. */
  function ReduceStep(c: Bools, high: nat): (r: Bools)
    requires |c| == PRODUCT_COEFFS && 128 <= high < PRODUCT_COEFFS
    ensures |r| == PRODUCT_COEFFS
  {
    var k := high - 128;
    seq(PRODUCT_COEFFS, i requires 0 <= i < PRODUCT_COEFFS =>
      if i == high then !c[i]
      else if i == k || i == k + 1 || i == k + 2 || i == k + 7 then !c[i]
      else c[i])
  }

  /** It changes neither the residue ... */
  lemma ReduceStepResidue(c: Bools, high: nat)
    requires |c| == PRODUCT_COEFFS && 128 <= high < PRODUCT_COEFFS
    ensures Residue(ReduceStep(c, high), 0) == Residue(c, 0)
  {
    hide Monomial, Residue, Xor;
    var k := high - 128;
    var c0 := c[high := !c[high]];
    var c1 := c0[k := !c0[k]];
    var c2 := c1[k + 1 := !c1[k + 1]];
    var c3 := c2[k + 2 := !c2[k + 2]];
    var c4 := c3[k + 7 := !c3[k + 7]];
    assert c4 == ReduceStep(c, high);
    ResidueFlip(c, high, 0);
    ResidueFlip(c0, k, 0);
    ResidueFlip(c1, k + 1, 0);
    ResidueFlip(c2, k + 2, 0);
    ResidueFlip(c3, k + 7, 0);
    Fold(k);
    CancelFour(Residue(c, 0), Monomial(k), Monomial(k + 1), Monomial(k + 2), Monomial(k + 7));
  }

  lemma CancelFour(r: Bools, a: Bools, b: Bools, c: Bools, d: Bools)
    requires |r| == |a| == |b| == |c| == |d|
    ensures Xor(Xor(Xor(Xor(Xor(r, Four(a, b, c, d)), a), b), c), d) == r
  {
  }

  /** ... nor the class modulo the polynomial: it subtracts a shifted modulus. */
  ghost predicate Congruent(c: Bools, d: Bools)
    requires |c| == |d| == PRODUCT_COEFFS
  {
    exists q: Bools :: |q| == 127 && c == Xor(d, TimesModulus(q))
  }

  lemma ReduceStepCongruent(c: Bools, d: Bools, high: nat)
    requires |c| == |d| == PRODUCT_COEFFS && 128 <= high < PRODUCT_COEFFS && Congruent(c, d)
    ensures Congruent(c, ReduceStep(d, high))
  {
    hide TimesModulus, ReduceStep, InModulus;
    var q: Bools :| |q| == 127 && c == Xor(d, TimesModulus(q));
    var k := high - 128;
    var q' := q[k := !q[k]];
    var e := ReduceStep(d, high);
    forall i | 0 <= i < PRODUCT_COEFFS ensures c[i] == Xor(e, TimesModulus(q'))[i] {
      ProductFlip(q, k, i);
      StepFlip(d, high, i);
      assert c[i] == (d[i] != TimesModulus(q)[i]);
    }
    assert c == Xor(e, TimesModulus(q'));
  }

  /** The five exponents of the modulus, shifted by k. */
  predicate InModulus(i: nat, k: nat) { i == k || i == k + 1 || i == k + 2 || i == k + 7 || i == k + 128 }

  lemma ProductFlip(q: Bools, k: nat, i: nat)
    requires k < |q| && i < |q| + 128
    ensures TimesModulus(q[k := !q[k]])[i] == (TimesModulus(q)[i] != InModulus(i, k))
  {
    hide CoeffAt;
    CoeffFlip(q, k, i); CoeffFlip(q, k, i - 1); CoeffFlip(q, k, i - 2); CoeffFlip(q, k, i - 7); CoeffFlip(q, k, i - 128);
  }

  lemma StepFlip(d: Bools, high: nat, i: nat)
    requires |d| == PRODUCT_COEFFS && 128 <= high < PRODUCT_COEFFS && i < PRODUCT_COEFFS
    ensures ReduceStep(d, high)[i] == (d[i] != InModulus(i, high - 128))
  {
  }

  lemma CoeffFlip(q: Bools, k: nat, i: int)
    requires k < |q|
    ensures CoeffAt(q[k := !q[k]], i) == (CoeffAt(q, i) != (i == k))
  {
  }

  /** The reduction loop, from the top coefficient down. */
  method Reduce(product: Bools) returns (out: Bools)
    requires |product| == PRODUCT_COEFFS
    ensures out == Residue(product, 0)
    ensures LeavesRemainder(product, out)
  {
    hide Monomial, Residue, TimesModulus;
    var coeffs := product;
    CongruentSelf(product);
    for high := 255 downto 128
      invariant |coeffs| == PRODUCT_COEFFS
      invariant forall i :: high <= i < PRODUCT_COEFFS ==> !coeffs[i]
      invariant Residue(coeffs, 0) == Residue(product, 0) && Congruent(product, coeffs)
    {
      if coeffs[high] {
        ReduceStepResidue(coeffs, high);
        ReduceStepCongruent(product, coeffs, high);
        ghost var before := coeffs;
        coeffs := coeffs[high := false];
        var k := high - GF128_BITS;
        coeffs := coeffs[k := !coeffs[k]];
        coeffs := coeffs[k + 1 := !coeffs[k + 1]];
        coeffs := coeffs[k + 2 := !coeffs[k + 2]];
        coeffs := coeffs[k + 7 := !coeffs[k + 7]];
        assert coeffs == ReduceStep(before, high);
      }
    }
    out := coeffs[..GF128_BITS];
    assert coeffs == out + NoBits(127);
    ResiduePad(out, 127, 0);
    ResidueLow(out);
    assert out + NoBits(0) == out;
    var q: Bools :| |q| == 127 && product == Xor(coeffs, TimesModulus(q));
  }

  lemma CongruentSelf(c: Bools)
    requires |c| == PRODUCT_COEFFS
    ensures Congruent(c, c)
  {
    var q := NoBits(127);
    ModulusOfNothing(q);
    assert c == Xor(c, TimesModulus(q));
  }

  /** The product of two byte strings: the remainder of the product polynomial. */
  method Gf128Mul(left: seq<nat>, right: seq<nat>) returns (bytes: seq<nat>)
    requires IsBytes(left) && IsBytes(right)
    ensures IsBytes(bytes) && BitsOf(bytes) == Product(BitsOf(left), BitsOf(right))
    ensures LeavesRemainder(Convolution(BitsOf(left), BitsOf(right)), BitsOf(bytes))
  {
    hide Monomial, Residue, Product, BitsOf, BytesOf, IsBytes;
    var a := BytesToBits(left);
    var b := BytesToBits(right);
    var coeffs := NoBits(PRODUCT_COEFFS);
    for i := 0 to GF128_BITS
      invariant |coeffs| == PRODUCT_COEFFS && coeffs == Partial(a, b, i, 0, PRODUCT_COEFFS)
    {
      for j := 0 to GF128_BITS
        invariant coeffs == Partial(a, b, i, j, PRODUCT_COEFFS)
      {
        coeffs := coeffs[i + j := coeffs[i + j] != (a[i] && b[j])];
      }
    }
    var out := Reduce(coeffs);
    ConvolutionResidue(a, b);
    BitsRoundTrip(out);
    bytes := BitsToBytes(out);
  }

  function XorByte(a: nat, b: nat, n: nat): nat
    decreases n
  {
    if n == 0 then 0 else (a + b) % 2 + 2 * XorByte(a / 2, b / 2, n - 1)
  }

  lemma SumParity(a: nat, b: nat)
    ensures (a + b) % 2 == if a % 2 == b % 2 then 0 else 1
  {
  }

  lemma LowDigit(low: nat, r: nat)
    requires low < 2
    ensures (low + 2 * r) / 2 == r && (low + 2 * r) % 2 == low
  {
  }

  lemma {:induction false} XorByteBits(a: nat, b: nat, n: nat, k: nat)
    ensures XorByte(a, b, n) < Pow2(n)
    ensures k < n ==> Bit(XorByte(a, b, n), k) == (Bit(a, k) != Bit(b, k))
    decreases n
  {
    if n > 0 {
      XorByteBits(a / 2, b / 2, n - 1, if k > 0 then k - 1 else 0);
      var r := XorByte(a / 2, b / 2, n - 1);
      LowDigit((a + b) % 2, r);
      SumParity(a, b);
    }
  }

  function Xor128(left: seq<nat>, right: seq<nat>): (r: seq<nat>)
    requires |left| == |right|
    ensures |r| == |left|
  {
    seq(|left|, i requires 0 <= i < |left| => XorByte(left[i], right[i], 8))
  }

  lemma Xor128Bits(left: seq<nat>, right: seq<nat>)
    requires IsBytes(left) && IsBytes(right)
    ensures IsBytes(Xor128(left, right)) && BitsOf(Xor128(left, right)) == Xor(BitsOf(left), BitsOf(right))
  {
    hide Bit, XorByte;
    assert Pow2(8) == 256;
    forall i | 0 <= i < GF128_BYTES ensures Xor128(left, right)[i] < 256 {
      XorByteBits(left[i], right[i], 8, 0);
    }
    forall n | 0 <= n < GF128_BITS ensures BitsOf(Xor128(left, right))[n] == Xor(BitsOf(left), BitsOf(right))[n] {
      XorByteBits(left[n / 8], right[n / 8], 8, n % 8);
    }
  }

  /** The tag (ap + av) x, which splits into ap x + av x. */
  method Gf128Tag(ap: seq<nat>, av: seq<nat>, x: seq<nat>) returns (tag: seq<nat>)
    requires IsBytes(ap) && IsBytes(av) && IsBytes(x)
    ensures IsBytes(tag)
    ensures BitsOf(tag) == Product(Xor(BitsOf(ap), BitsOf(av)), BitsOf(x))
    ensures BitsOf(tag) == Xor(Product(BitsOf(ap), BitsOf(x)), Product(BitsOf(av), BitsOf(x)))
  {
    hide Product, BitsOf, Xor, Xor128;
    Xor128Bits(ap, av);
    tag := Gf128Mul(Xor128(ap, av), x);
    ProductXor(BitsOf(ap), BitsOf(av), BitsOf(x));
  }
}
