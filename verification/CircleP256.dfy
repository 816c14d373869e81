/** The generator search over the P-256 modulus: it succeeds for every domain the code needs. */
module CircleP256 {
  import opened Modulus
  import opened Integers
  import opened Field
  import opened FieldBytes
  import opened Bits
  import opened CircleGroup
  import opened Frobenius
  import opened CircleTransform
  import opened CircleTables
  import opened CircleCode

  /** The odd cofactor of the group order, as the source lists its bytes. */
  const ODD_COFACTOR_BE: Bytes := ONES + [0x00, 0x00, 0x00, 0x01] + NULLS + NULLS + [0x00, 0x00, 0x00, 0x01]

  lemma FiveWords(s: Bytes)
    requires |s| == 20 && Word(s, 0) == 0xffffffff && Word(s, 4) == Word(s, 16) == 1 && Word(s, 8) == Word(s, 12) == 0
    ensures FromBigEndian(s) == 0xffffffff_00000001_00000000_00000000_00000001
  {
    hide FromBigEndian, Pow256, Word;
    SuffixNone(s, s);
    PowerNone();
    WordValue(s, 16);
    WordValue(s, 12);
    WordValue(s, 8);
    WordValue(s, 4);
    WordValue(s, 0);
    assert s[0..] == s;
  }

  lemma Pow2Of96()
    ensures Pow2(96) == 0x1_00000000_00000000_00000000
  {
    hide Pow2;
    ByteBits();
    Pow2Add(8, 8);
    Pow2Add(16, 16);
    Pow2Add(32, 32);
    Pow2Add(64, 32);
  }

  /** The cofactor times 2^96 is the group order. */
  lemma CofactorOfOrder()
    requires P == P256
    ensures FromBigEndian(ODD_COFACTOR_BE) * Pow2(96) == P + 1
  {
    hide FromBigEndian, Pow2;
    FiveWords(ODD_COFACTOR_BE);
    Pow2Of96();
  }

  /** A square root of -26. */
  const ROOT: int := 0x38869c9113f86a4e5ab4ee6caa183622c5410a337a15b01ab7af608c59c63440

  /** 26 = 1 + 5^2 is not a square, so the search can use t = 5. */
  lemma FiveIsUsable()
    requires P == P256
    ensures Usable(5)
  {
    assert InRange(ROOT) && InRange(26);
    hide IsSquare;
    SmallDistinct(5, 0);
    SmallDistinct(25, 0);
    SmallDistinct(26, 0);
    Canonical(1);
    RMul(5, 5);
    RAdd(1, 25);
    MulLaw(ROOT, ROOT);
    SubLaw(0, 26);
    ModUnique(P, -26, -1, P - 26);
    ModUnique(P, ROOT * ROOT, 0xc7b2b47ccd9e467b49b92fe14e4730fc403adf3dcbfb70a190b7036a255efe5, P - 26);
    NotSquare(26, ROOT);
  }

  /** Square roots of 1 + t^2 for the smaller t. */
  const ROOT_2: int := 0x507442007322aa895340cba4abc2d730bfd0b16c2c79a46815f8780d2c55a2dd
  const ROOT_5: int := 0x85ec5a4af40176b63189069aeffcb229c96d3e046e0283ed2f9dac21b15ad3c
  const ROOT_10: int := 0x25ac71c31e27646736870398ae7f554d8472e008b3aa2a49d332cbd81bcc3b80
  const ROOT_17: int := 0x1e3569a97ad20b2172d8c25af36ce247af1e18841116e8ed0f4ba01685b2ca18

  lemma Square(n: nat, root: int, k: int)
    requires 0 <= root < P && n < 64 && root * root == k * P + n
    ensures InRange(root) && InRange(n) && IsSquare(n)
  {
    ModulusFacts();
    assert InRange(root) && InRange(n);
    var r: Fp := root;
    MulLaw(r, r);
    ModUnique(P, root * root, k, n);
    assert Mul(r, r) == n;
  }

  lemma NotUsable(t: nat, root: int, k: int)
    requires t < 7 && 0 <= root < P && root * root == k * P + (1 + t * t)
    ensures !Usable(t)
  {
    var n: nat := 1 + t * t;
    assert t * t <= 36;
    Square(n, root, k);
    hide IsSquare;
    SmallDistinct(t, 0);
    SmallDistinct(t * t, 0);
    SmallDistinct(n, 0);
    Canonical(1);
    RMul(t, t);
    RAdd(1, t * t);
  }

  /** The scan stops at t = 5. */
  lemma FiveIsFirst()
    requires P == P256
    ensures FirstUsable(5)
  {
    FiveIsUsable();
    NotUsable(1, ROOT_2, 0x1948de0c42ab1b6a9d9528345b6164d3ffc40f7459be378e60c0b8ec79a18d39);
    NotUsable(2, ROOT_5, 0x460f7008c1a3a197abdb6d868401a8455d0b0b6565ed409685acaf76edd9f5);
    NotUsable(3, ROOT_10, 0x58b4d0b7d010a55f21d5eb99f2ef0fe3d4b911c9b72189eeff9e0841e2bc00a);
    NotUsable(4, ROOT_17, 0x3908fe8a8231c70c8b7e92781bd3db4ec774c5da390dc0408c4010567161dd1);
    hide Usable;
    forall s: nat | Usable(s) ensures s >= 5 { NothingAtZero(s); }
  }

  lemma NothingAtZero(t: nat)
    requires Usable(t)
    ensures t >= 1
  {
  }

  /** The search of the source: over P-256 it never panics, and returns the point of t = 5. */
  method Generator(logN: nat) returns (q: Point)
    requires P == P256 && logN < 96
    ensures IsGenerator(q, logN) && q == PointFrom(5, FromBigEndian(ODD_COFACTOR_BE), 95 - logN)
  {
    hide IsGenerator, Usable, FromBigEndian, Pow2, PointFrom;
    CofactorOfOrder();
    FiveIsFirst();
    var found := FindGenerator(logN, ODD_COFACTOR_BE, 96);
    q := found.value;
  }

  /** The odd multiples of the point the search returns. */
  ghost predicate SearchedDomain(t: Tables, n: nat)
  {
    Log(n) <= 95 && t.domain == Domain(PointFrom(5, FromBigEndian(ODD_COFACTOR_BE), 95 - Log(n)), Log(n))
  }

  method GeneratorFor(n: nat) returns (q: Point)
    requires P == P256 && n <= 4096
    ensures IsGenerator(q, Log(n)) && Log(n) <= 95 && q == PointFrom(5, FromBigEndian(ODD_COFACTOR_BE), 95 - Log(n))
  {
    hide IsGenerator, Log, PointFrom, FromBigEndian;
    LogAtMost(n);
    q := Generator(Log(n));
  }

  /** The code of every shipped geometry, from the search to the tables. */
  method ShippedCode(geom: CircleGeom) returns (code: Code)
    requires P == P256 && (geom == GEOM_L64 || geom == GEOM_L128 || geom == GEOM_L256)
    ensures code.Valid() && code.geom == geom
    ensures SearchedDomain(code.window, geom.dataSlots) && SearchedDomain(code.message, geom.rowMessageLen)
    ensures SearchedDomain(code.codeword, geom.codewordLen) && SearchedDomain(code.product, geom.productDomainLen)
  {
    hide IsGenerator, Log, PointFrom, FromBigEndian, Domain, CircleGeom.Valid, Code.Valid;
    GeometriesValid();
    var qWindow := GeneratorFor(geom.dataSlots);
    var qMessage := GeneratorFor(geom.rowMessageLen);
    var qCodeword := GeneratorFor(geom.codewordLen);
    var qProduct := GeneratorFor(geom.productDomainLen);
    code := BuildCode(geom, qWindow, qMessage, qCodeword, qProduct);
  }

  lemma LogAtMost(n: nat)
    requires n <= 4096
    ensures Log(n) <= 12
  {
    CeilLogBounds(n);
    assert Pow2(12) == 4096;
    if Log(n) > 12 {
      Pow2Mono(12, Log(n) - 1);
    }
  }
}
