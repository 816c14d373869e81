/** 256-bit values as two halves of 128 bits (ecdsa.rs): the split into bytes, the recomposition in the field, and the bits
    that the input of a half carries. */
module MacHalves {
  import opened Wrappers
  import opened Field
  import opened FieldBytes
  import opened Bits
  import opened Gf128
  import MacTheorems
  import Recomposition

  // ----- bits against the powers of two -----

  /** The weighted sum of bits is the number they stand for. */
  lemma {:induction false} WeightedBits(wires: Vec, bits: Bools, n: nat)
    requires |wires| == |bits| && n <= |bits|
    requires forall i :: 0 <= i < |bits| ==> wires[i] == MacTheorems.BitField(bits[i])
    ensures Recomposition.Weighted(wires, n) == R(Value(bits[..n]))
  {
    hide R, Pow2;
    if n == 0 {
      Canonical(0);
    } else {
      WeightedBits(wires, bits, n - 1);
      assert bits[..n] == bits[..n - 1] + [bits[n - 1]];
      ValueSnoc(bits[..n - 1], bits[n - 1]);
      RAdd(Value(bits[..n - 1]), Pow2(n - 1));
      Units(R(Pow2(n - 1)));
      Units(R(Value(bits[..n - 1])));
    }
  }

  /** The x wires that recomposition reads carry x. */
  method RecomposeInput(ap: seq<nat>, av: seq<nat>, x: seq<nat>) returns (r: Option<Fp>)
    requires IsBytes(ap) && IsBytes(av) && IsBytes(x)
    ensures r == Some(R(Value(BitsOf(x))))
  {
    hide R, Value, BitsOf, Recomposition.Weighted, Product, Xor, MacTheorems.CountsMatch, MacTheorems.AllBits,
         MacTheorems.BitsAt;
    var input, tag := MacTheorems.MacHalfInput(ap, av, x);
    r := Recomposition.RecomposedValue(input, 0);
    forall i | 0 <= i < 128 ensures input[1..129][i] == MacTheorems.BitField(BitsOf(x)[i]) {
      assert input[1 + i] == MacTheorems.BitField(BitsOf(x)[i]);
    }
    WeightedBits(input[1..129], BitsOf(x), 128);
    assert BitsOf(x)[..128] == BitsOf(x);
  }

  // ----- bytes -----

  /** The number of a byte string, least significant byte first. */
  function LittleEndian(s: seq<nat>): nat
  {
    if s == [] then 0 else s[0] + 256 * LittleEndian(s[1..])
  }

  lemma {:induction false} ValueConcat(a: Bools, b: Bools)
    ensures Value(a + b) == Value(a) + Pow2(|a|) * Value(b)
  {
    if a == [] {
      assert a + b == b;
    } else {
      ValueConcat(a[1..], b);
      assert (a + b)[1..] == a[1..] + b;
      assert 2 * (Pow2(|a| - 1) * Value(b)) == Pow2(|a|) * Value(b);
    }
  }

  lemma ByteValue(byte: nat, bits: Bools)
    requires byte < 256 && |bits| == 8 && forall k :: 0 <= k < 8 ==> bits[k] == Bit(byte, k)
    ensures Value(bits) == byte && Pow2(8) == 256
  {
    assert Pow2(8) == 256;
    hide Value;
    ValueOfBits(byte, 8, bits);
  }

  /** The bits of bytes stand for the number of the bytes. */
  lemma {:induction false} BytesValue(bytes: seq<nat>)
    requires forall i :: 0 <= i < |bytes| ==> bytes[i] < 256
    ensures Value(BitsOf(bytes)) == LittleEndian(bytes)
    decreases |bytes|
  {
    hide Bit, Pow2;
    if bytes != [] {
      var bits, rest := BitsOf(bytes), BitsOf(bytes[1..]);
      forall n | 0 <= n < |rest| ensures bits[8 + n] == rest[n] {
        assert (8 + n) / 8 == 1 + n / 8 && (8 + n) % 8 == n % 8;
        assert bytes[1..][n / 8] == bytes[1 + n / 8];
      }
      assert bits == bits[..8] + rest;
      forall k | 0 <= k < 8 ensures bits[..8][k] == Bit(bytes[0], k) {
        assert k / 8 == 0 && k % 8 == k;
      }
      ByteValue(bytes[0], bits[..8]);
      ValueConcat(bits[..8], rest);
      BytesValue(bytes[1..]);
    } else {
      assert BitsOf(bytes) == [];
    }
  }

  /** Reversed, the most significant byte first. */
  lemma {:induction false} LittleIsBig(s: Bytes, le: seq<nat>)
    requires |le| == |s| && forall i :: 0 <= i < |s| ==> le[i] == s[|s| - 1 - i]
    ensures LittleEndian(le) == FromBigEndian(s)
    decreases |s|
  {
    if s != [] {
      var n := |s| - 1;
      forall i | 0 <= i < n ensures le[1..][i] == s[..n][n - 1 - i] {
        assert le[1..][i] == le[i + 1];
      }
      LittleIsBig(s[..n], le[1..]);
      LastByte(s[..n], s[n]);
      assert s == s[..n] + [s[n]];
    }
  }

  // ----- the two halves of a 256-bit value -----

  method HalvesFromBe32(value: Bytes) returns (lo: seq<nat>, hi: seq<nat>)
    requires |value| == 32
    ensures IsBytes(lo) && IsBytes(hi)
    ensures forall i :: 0 <= i < 16 ==> lo[i] == value[31 - i] && hi[i] == value[15 - i]
  {
    lo, hi := seq(16, _ => 0), seq(16, _ => 0);
    for index := 0 to 16
      invariant |lo| == |hi| == 16
      invariant forall i :: 0 <= i < index ==> lo[i] == value[31 - i] && hi[i] == value[15 - i]
    {
      lo, hi := lo[index := value[31 - index]], hi[index := value[15 - index]];
    }
  }

  method FromBitsLe(bits: Bools) returns (acc: Fp)
    requires |bits| == GF128_BITS
    ensures acc == R(Value(bits))
  {
    hide R, Pow2, Value;
    acc := 0;
    var power: Fp := 1;
    Recomposition.PowerZero();
    NoBits();
    for k := 0 to |bits|
      invariant power == R(Pow2(k)) && acc == R(Value(bits[..k]))
    {
      assert bits[..k + 1] == bits[..k] + [bits[k]];
      ValueSnoc(bits[..k], bits[k]);
      if bits[k] {
        RAdd(Value(bits[..k]), Pow2(k));
        acc := Add(acc, power);
      }
      Recomposition.DoublePower(k);
      power := Add(power, power);
    }
    assert bits[..|bits|] == bits;
  }

  lemma NoBits()
    ensures R(Value([])) == 0
  {
    Canonical(0);
  }

  method TwoPow128() returns (power: Fp)
    ensures power == R(Pow2(128))
  {
    hide R, Pow2;
    power := 1;
    Recomposition.PowerZero();
    for k := 0 to 128
      invariant power == R(Pow2(k))
    {
      Recomposition.DoublePower(k);
      power := Add(power, power);
    }
  }

  method RecomposeHalves(lo: seq<nat>, hi: seq<nat>) returns (r: Fp)
    requires IsBytes(lo) && IsBytes(hi)
    ensures r == R(Value(BitsOf(lo)) + Pow2(128) * Value(BitsOf(hi)))
  {
    hide R, Pow2, Value, BitsOf;
    var loBits := BytesToBits(lo);
    var hiBits := BytesToBits(hi);
    var low := FromBitsLe(loBits);
    var high := FromBitsLe(hiBits);
    var power := TwoPow128();
    RMul(Pow2(128), Value(BitsOf(hi)));
    RAdd(Value(BitsOf(lo)), Pow2(128) * Value(BitsOf(hi)));
    r := Add(low, Mul(power, high));
  }

  lemma {:induction false} LittleConcat(a: seq<nat>, b: seq<nat>)
    ensures LittleEndian(a + b) == LittleEndian(a) + Pow2(8 * |a|) * LittleEndian(b)
  {
    hide Pow2;
    if a == [] {
      assert a + b == b;
      assert Pow2(0) == 1 by { PowerOfNothing(); }
    } else {
      LittleConcat(a[1..], b);
      assert (a + b)[1..] == a[1..] + b;
      assert Pow2(8) == 256 by { Recomposition.PowerEight(); }
      Pow2Add(8, 8 * (|a| - 1));
      assert 256 * (Pow2(8 * (|a| - 1)) * LittleEndian(b)) == Pow2(8 * |a|) * LittleEndian(b);
    }
  }

  lemma PowerOfNothing()
    ensures Pow2(0) == 1
  {
  }

  /** Splitting and recomposing a 32-byte value gives its field element. */
  method SplitAndRecompose(value: Bytes) returns (r: Fp)
    requires |value| == 32
    ensures r == R(FromBigEndian(value))
  {
    hide R, Pow2, Value, BitsOf, LittleEndian, FromBigEndian;
    var lo, hi := HalvesFromBe32(value);
    r := RecomposeHalves(lo, hi);
    BytesValue(lo);
    BytesValue(hi);
    LittleConcat(lo, hi);
    LittleIsBig(value, lo + hi);
  }
}
