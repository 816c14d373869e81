/** Field elements from 32 transcript bytes (field.rs): big-endian comparison, subtraction with borrow, one conditional
    reduction. */
module FieldBytes {
  import opened Wrappers
  import opened Modulus
  import opened Field
  import opened Integers

  type Byte = x: int | 0 <= x < 256

  type Bytes = seq<Byte>

  function Pow256(k: nat): (r: nat)
    ensures r > 0
  {
    if k == 0 then 1 else 256 * Pow256(k - 1)
  }

  /** The number a byte string stands for, most significant byte first. */
  function FromBigEndian(s: Bytes): nat
  {
    if s == [] then 0 else s[0] * Pow256(|s| - 1) + FromBigEndian(s[1..])
  }

  /** n in a fixed number of bytes, most significant byte first. */
  function ToBigEndian(n: nat, len: nat): (b: Bytes)
    ensures |b| == len
  {
    if len == 0 then [] else ToBigEndian(n / 256, len - 1) + [n % 256]
  }

  lemma MoveDigit(digit: int, scale: int, rest: int, last: int)
    ensures digit * (256 * scale) + (256 * rest + last) == 256 * (digit * scale + rest) + last
  {
  }

  lemma {:induction false} LastByte(s: Bytes, last: Byte)
    ensures FromBigEndian(s + [last]) == 256 * FromBigEndian(s) + last
  {
    if s == [] {
      assert [last][1..] == [] && s + [last] == [last];
    } else {
      assert (s + [last])[1..] == s[1..] + [last];
      LastByte(s[1..], last);
      MoveDigit(s[0], Pow256(|s| - 1), FromBigEndian(s[1..]), last);
    }
  }

  /** A number that fits is read back. */
  lemma {:induction false} EncodingRoundTrip(n: nat, len: nat)
    requires n < Pow256(len)
    ensures FromBigEndian(ToBigEndian(n, len)) == n
  {
    if len > 0 {
      EncodingRoundTrip(n / 256, len - 1);
      LastByte(ToBigEndian(n / 256, len - 1), n % 256);
    }
  }

  lemma DigitBelow(digit: Byte, scale: nat, rest: nat)
    requires rest < scale
    ensures digit * scale + rest < 256 * scale
  {
    assert digit * scale <= 255 * scale;
  }

  lemma {:induction false} FromBigEndianBound(s: Bytes)
    ensures FromBigEndian(s) < Pow256(|s|)
  {
    if s != [] {
      FromBigEndianBound(s[1..]);
      DigitBelow(s[0], Pow256(|s| - 1), FromBigEndian(s[1..]));
    }
  }

  lemma BiggerDigit(x: Byte, y: Byte, scale: nat, v: nat, w: nat)
    requires x > y && v < scale && w < scale
    ensures x * scale + v > y * scale + w
  {
    assert (x - 1) * scale == x * scale - scale;
    assert y * scale <= (x - 1) * scale;
  }

  /** Strings of one length compare like the numbers they stand for. */
  lemma {:induction false} Lexicographic(l: Bytes, r: Bytes, k: nat)
    requires |l| == |r| && k < |l| && l[..k] == r[..k] && l[k] > r[k]
    ensures FromBigEndian(l) > FromBigEndian(r)
  {
    if k == 0 {
      FromBigEndianBound(l[1..]);
      FromBigEndianBound(r[1..]);
      BiggerDigit(l[0], r[0], Pow256(|l| - 1), FromBigEndian(l[1..]), FromBigEndian(r[1..]));
    } else {
      assert l[0] == l[..k][0] == r[..k][0] == r[0];
      assert l[1..][..k - 1] == l[..k][1..] && r[1..][..k - 1] == r[..k][1..];
      Lexicographic(l[1..], r[1..], k - 1);
    }
  }

  /** `cmp_be(lhs, rhs).is_ge()`: the first byte that differs decides. */
  method AtLeast(lhs: Bytes, rhs: Bytes) returns (ge: bool)
    requires |lhs| == |rhs|
    ensures ge <==> FromBigEndian(lhs) >= FromBigEndian(rhs)
  {
    for k := 0 to |lhs|
      invariant lhs[..k] == rhs[..k]
    {
      if lhs[k] > rhs[k] {
        Lexicographic(lhs, rhs, k);
        return true;
      }
      if lhs[k] < rhs[k] {
        Lexicographic(rhs, lhs, k);
        return false;
      }
    }
    assert lhs == rhs;
    return true;
  }

  lemma BorrowStep(a: int, b: int, o: int, borrow: int, next: int, scale: int, l: int, r: int, v: int)
    requires a + 256 * next == o + b + borrow
    requires l + borrow * scale == r + v
    ensures (a * scale + l) + next * (256 * scale) == (b * scale + r) + (o * scale + v)
  {
    assert (a + 256 * next) * scale == (o + b + borrow) * scale;
    assert (a + 256 * next) * scale == a * scale + next * (256 * scale);
    assert (o + b + borrow) * scale == o * scale + b * scale + borrow * scale;
  }

  lemma SuffixValue(s: Bytes, i: nat)
    requires i < |s|
    ensures FromBigEndian(s[i..]) == s[i] * Pow256(|s| - i - 1) + FromBigEndian(s[i + 1..])
  {
    assert s[i..][1..] == s[i + 1..];
  }

  /** `sub_be`: byte by byte from the right with a borrow. The borrow that is left over is what the source's debug
      assertion looks at. */
  method SubBe(lhs: Bytes, rhs: Bytes) returns (out: Bytes, borrow: int)
    requires |lhs| == |rhs|
    ensures |out| == |lhs| && borrow == (if FromBigEndian(lhs) >= FromBigEndian(rhs) then 0 else 1)
    ensures FromBigEndian(out) == FromBigEndian(lhs) - FromBigEndian(rhs) + borrow * Pow256(|lhs|)
  {
    hide FromBigEndian, Pow256;
    out, borrow := lhs, 0;
    SuffixNone(lhs, rhs);
    for i := |lhs| downto 0
      invariant |out| == |lhs| && 0 <= borrow <= 1
      invariant out[..i] == lhs[..i]
      invariant FromBigEndian(lhs[i..]) + borrow * Pow256(|lhs| - i) == FromBigEndian(rhs[i..]) + FromBigEndian(out[i..])
    {
      assert out[i] == out[..i + 1][i] == lhs[..i + 1][i] == lhs[i];
      ghost var tail, was := out[i + 1..], borrow;
      var ai, bi := out[i], rhs[i] + borrow;
      if ai >= bi {
        out := out[i := ai - bi];
        borrow := 0;
      } else {
        out := out[i := ai + 256 - bi];
        borrow := 1;
      }
      assert out[i + 1..] == tail;
      SuffixValue(lhs, i);
      SuffixValue(rhs, i);
      SuffixValue(out, i);
      PowerNext(|lhs| - i - 1);
      BorrowStep(lhs[i], rhs[i], out[i], was, borrow, Pow256(|lhs| - i - 1), FromBigEndian(lhs[i + 1..]), FromBigEndian(rhs[i + 1..]),
                 FromBigEndian(tail));
    }
    assert lhs[0..] == lhs && rhs[0..] == rhs && out[0..] == out;
    FromBigEndianBound(out);
    FromBigEndianBound(lhs);
    BorrowMeaning(FromBigEndian(lhs), FromBigEndian(rhs), FromBigEndian(out), borrow, Pow256(|lhs|));
  }

  lemma SuffixNone(l: Bytes, r: Bytes)
    requires |l| == |r|
    ensures FromBigEndian(l[|l|..]) == FromBigEndian(r[|r|..]) == 0
  {
  }

  lemma PowerNext(k: nat)
    ensures Pow256(k + 1) == 256 * Pow256(k)
  {
  }

  lemma BorrowMeaning(l: nat, r: nat, o: nat, borrow: int, scale: nat)
    requires 0 <= borrow <= 1 && l + borrow * scale == r + o && o < scale
    ensures borrow == if l >= r then 0 else 1
  {
  }

  /** `from_bytes_be`: canonical encodings only. */
  function FromBytesBe(bytes: Bytes): (r: Option<Fp>)
    ensures r.Some? <==> FromBigEndian(bytes) < P
    ensures r.Some? ==> r.value == FromBigEndian(bytes)
  {
    if InRange(FromBigEndian(bytes)) then Some(FromBigEndian(bytes)) else None
  }

  /** `random`: one conditional subtraction reduces any string of the modulus' length, and the strict decoding that follows
      never fails. */
  method FromTranscript(bytes: Bytes, modulus: Bytes) returns (r: Option<Fp>)
    requires |bytes| == |modulus| && FromBigEndian(modulus) == P && Pow256(|modulus|) <= 2 * P
    ensures r == Some(R(FromBigEndian(bytes)))
  {
    hide FromBigEndian, Pow256;
    FromBigEndianBound(bytes);
    var v := FromBigEndian(bytes);
    var reduced := bytes;
    var ge := AtLeast(bytes, modulus);
    if ge {
      var borrow;
      reduced, borrow := SubBe(bytes, modulus);
      Reduced(v, 1);
    } else {
      Reduced(v, 0);
    }
    r := FromBytesBe(reduced);
  }

  lemma Reduced(v: nat, k: nat)
    requires 0 <= v - k * P < P
    ensures R(v) == v - k * P
  {
    ModulusFacts();
    ReduceLaw(v);
    ModUnique(P, v, k, v - k * P);
  }

  const ONES: Bytes := [0xff, 0xff, 0xff, 0xff]

  const NULLS: Bytes := [0x00, 0x00, 0x00, 0x00]

  /** The modulus of the source as its 32 bytes. */
  const P_BE: Bytes := ONES + [0x00, 0x00, 0x00, 0x01] + NULLS + NULLS + NULLS + ONES + ONES + ONES

  /** Four bytes as one number. */
  function Word(s: Bytes, i: nat): int
    requires i + 4 <= |s|
  {
    var a: int, b: int, c: int, d: int := s[i], s[i + 1], s[i + 2], s[i + 3];
    ((a * 256 + b) * 256 + c) * 256 + d
  }

  lemma FourDigits(a: int, b: int, c: int, d: int, scale: int)
    ensures a * (256 * (256 * (256 * scale))) + (b * (256 * (256 * scale)) + (c * (256 * scale) + d * scale))
         == (((a * 256 + b) * 256 + c) * 256 + d) * scale
  {
  }

  lemma WordValue(s: Bytes, i: nat)
    requires i + 4 <= |s|
    ensures FromBigEndian(s[i..]) == Word(s, i) * Pow256(|s| - i - 4) + FromBigEndian(s[i + 4..])
    ensures Pow256(|s| - i) == 0x1_0000_0000 * Pow256(|s| - i - 4)
  {
    hide FromBigEndian, Pow256;
    var m := |s| - i - 4;
    SuffixValue(s, i);
    SuffixValue(s, i + 1);
    SuffixValue(s, i + 2);
    SuffixValue(s, i + 3);
    PowerNext(m);
    PowerNext(m + 1);
    PowerNext(m + 2);
    PowerNext(m + 3);
    FourDigits(s[i], s[i + 1], s[i + 2], s[i + 3], Pow256(m));
  }

  lemma EightWords(s: Bytes)
    requires |s| == 32 && Word(s, 0) == Word(s, 20) == Word(s, 24) == Word(s, 28) == 0xffffffff
    requires Word(s, 4) == 1 && Word(s, 8) == Word(s, 12) == Word(s, 16) == 0
    ensures FromBigEndian(s) == P256 && Pow256(32) <= 2 * P256
  {
    hide FromBigEndian, Pow256, Word;
    SuffixNone(s, s);
    PowerNone();
    WordValue(s, 28);
    WordValue(s, 24);
    WordValue(s, 20);
    WordValue(s, 16);
    WordValue(s, 12);
    WordValue(s, 8);
    WordValue(s, 4);
    WordValue(s, 0);
    assert s[0..] == s;
  }

  /** It is the P-256 prime, and one subtraction reduces 256 bits. */
  lemma ModulusBytes()
    ensures |P_BE| == 32 && FromBigEndian(P_BE) == P256 && Pow256(|P_BE|) <= 2 * P256
  {
    hide FromBigEndian, Pow256;
    EightWords(P_BE);
  }

  lemma PowerNone()
    ensures Pow256(0) == 1
  {
  }
}
