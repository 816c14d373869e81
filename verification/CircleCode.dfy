/** The circle code of one geometry (circle_fft.rs): encoding, systematic masked rows, the window sum functional, and
    the minimum distance. */
module CircleCode {
  import opened Wrappers
  import opened Modulus
  import opened Field
  import opened Vectors
  import opened Polynomials
  import opened Bits
  import opened CircleGroup
  import opened CircleBasis
  import opened CircleTransform
  import opened CircleTables
  import opened CircleSpaces

  datatype CircleRsError = EmptyMessage | WrongMessageLength | IndexOutOfRange

  /** The exponent of a power of two (`trailing_zeros`). */
  function Log(n: nat): nat { CeilLog(n) }

  predicate PowerOfTwo(n: nat) { n == Pow2(Log(n)) }

  datatype CircleGeom = CircleGeom(dataSlots: nat, rowMessageLen: nat, codewordLen: nat, productDomainLen: nat) {
    /** What `build_data_window` asserts, and the order in which the three geometries have their sizes. */
    predicate Valid()
    {
      && PowerOfTwo(dataSlots) && PowerOfTwo(rowMessageLen) && PowerOfTwo(codewordLen) && PowerOfTwo(productDomainLen)
      && 2 <= dataSlots < rowMessageLen < codewordLen
      && dataSlots + rowMessageLen + 1 < productDomainLen
      && dataSlots + rowMessageLen + 2 <= codewordLen
      && codewordLen < U64_MAX && productDomainLen <= U64_MAX
    }
  }

  const GEOM_L64 := CircleGeom(64, 256, 2048, 512)
  const GEOM_L128 := CircleGeom(128, 512, 4096, 1024)
  const GEOM_L256 := CircleGeom(256, 512, 4096, 1024)

  lemma GeometriesValid()
    ensures GEOM_L64.Valid() && GEOM_L128.Valid() && GEOM_L256.Valid()
  {
    assert Pow2(6) == 64 && Pow2(7) == 128;
    assert Pow2(8) == 256 && Pow2(9) == 512;
    assert Pow2(10) == 1024 && Pow2(11) == 2048 && Pow2(12) == 4096;
    CeilLogPow2(6); CeilLogPow2(7); CeilLogPow2(8); CeilLogPow2(9); CeilLogPow2(10); CeilLogPow2(11); CeilLogPow2(12);
  }

  /** Tables of a canonical domain: the odd multiples of a point of exact order 2n. */
  ghost predicate CanonicalDomainOf(t: Tables, n: nat)
  {
    && t.Valid() && t.logN == Log(n) && n == Pow2(t.logN)
    && exists q :: IsGenerator(q, t.logN) && t.domain == Domain(q, t.logN)
  }

  lemma CanonicalPoint(t: Tables, n: nat, i: nat)
    requires CanonicalDomainOf(t, n) && i < n
    ensures OnCircle(t.domain[i]) && DoubleN(t.domain[i], t.logN) == HALF_TURN
  {
    hide DoubleN, OnCircle;
    var q :| IsGenerator(q, t.logN) && t.domain == Domain(q, t.logN);
    DomainOrder(q, t.logN, i);
  }

  lemma CanonicalDistinct(t: Tables, n: nat, i: nat, j: nat)
    requires CanonicalDomainOf(t, n) && i < j < n
    ensures t.domain[i] != t.domain[j]
  {
    hide DoubleN, OnCircle;
    var q :| IsGenerator(q, t.logN) && t.domain == Domain(q, t.logN);
    DomainDistinct(q, t.logN, i, j);
  }

  /** Domains of different sizes share no point: their points have different orders. */
  lemma DomainsDisjoint(s: Tables, m: nat, t: Tables, n: nat, i: nat, j: nat)
    requires CanonicalDomainOf(s, m) && CanonicalDomainOf(t, n) && s.logN < t.logN && i < m && j < n
    ensures s.domain[i] != t.domain[j]
  {
    hide DoubleN, OnCircle;
    var p := s.domain[i];
    CanonicalPoint(s, m, i);
    CanonicalPoint(t, n, j);
    HalfTurnFacts();
    DoubleNAdd(p, s.logN, 1);
    OneDouble(HALF_TURN);
    DoubleNAdd(p, s.logN + 1, t.logN - s.logN - 1);
    IdentityDoubles(t.logN - s.logN - 1);
  }

  /** The vanishing polynomial of the window: the doubling map of x, log(dataSlots) - 1 times. */
  function WindowZ(geom: CircleGeom, p: Point): Fp
    requires geom.Valid()
  {
    PiN(p.x, Log(geom.dataSlots) - 1)
  }

  lemma {:induction false} XBasisPow2(k: nat, u: Fp)
    ensures XBasis(Pow2(k), u) == PiN(u, k)
    decreases k
  {
    hide Pi;
    if k == 0 {
      Units(u);
    } else {
      XBasisPow2(k - 1, Pi(u));
      Units(XBasis(Pow2(k - 1), Pi(u)));
    }
  }

  /** The tables of a geometry, with the two vectors precomputed for its data window. */
  datatype Code = Code(
    geom: CircleGeom, window: Tables, message: Tables, codeword: Tables, product: Tables,
    zwOnMessage: Vec, basisSums: Vec)
  {
    ghost predicate Valid()
    {
      && geom.Valid()
      && CanonicalDomainOf(window, geom.dataSlots)
      && CanonicalDomainOf(message, geom.rowMessageLen)
      && CanonicalDomainOf(codeword, geom.codewordLen)
      && CanonicalDomainOf(product, geom.productDomainLen)
      && |zwOnMessage| == geom.rowMessageLen
      && (forall i :: 0 <= i < |zwOnMessage| ==> zwOnMessage[i] == WindowZ(geom, message.domain[i]))
      && basisSums == BasisSums(window.domain, geom.productDomainLen)
    }

    /** Z_W is zero on the window ... */
    lemma WindowVanishes(c: nat)
      requires Valid() && c < geom.dataSlots
      ensures WindowZ(geom, window.domain[c]) == 0
    {
      hide DoubleN, PiN, OnCircle, BasisSums;
      CanonicalPoint(window, geom.dataSlots, c);
      QuarterTurn(window.domain[c], window.logN - 1);
    }

    /** ... and nowhere on the codeword domain, so every codeword symbol is masked. */
    lemma MaskNonzero(i: nat)
      requires Valid() && i < geom.codewordLen
      ensures WindowZ(geom, codeword.domain[i]) != 0
    {
      hide DoubleN, PiN, OnCircle, BasisSums;
      var q :| IsGenerator(q, codeword.logN) && codeword.domain == Domain(q, codeword.logN);
      if codeword.logN <= window.logN {
        Pow2Mono(codeword.logN, window.logN);
      }
      GridNonzero(q, codeword.logN, window.logN, i);
    }

    // ----- encoding -----

    method Encode(messagePrefix: Vec, degreeBound: nat) returns (r: Result<Vec, CircleRsError>)
      requires Valid()
      ensures degreeBound == 0 ==> r == Err(EmptyMessage)
      ensures degreeBound > 0 && (|messagePrefix| > degreeBound || degreeBound > geom.codewordLen) ==>
                r == Err(WrongMessageLength)
      ensures 0 < degreeBound <= geom.codewordLen && |messagePrefix| <= degreeBound ==>
                r == Ok(Evaluations(messagePrefix, codeword.domain))
    {
      hide BasisSums, EvalC;
      if degreeBound == 0 {
        return Err(EmptyMessage);
      }
      if |messagePrefix| > degreeBound || degreeBound > geom.codewordLen {
        return Err(WrongMessageLength);
      }
      var values := FftPadded(messagePrefix, codeword, geom.codewordLen);
      r := Ok(values);
    }

    method IfftCodeword(values: Vec) returns (r: Result<Vec, CircleRsError>)
      requires Valid()
      ensures |values| != geom.codewordLen ==> r == Err(WrongMessageLength)
      ensures |values| == geom.codewordLen ==>
                r.Ok? && |r.value| == geom.codewordLen && Evaluations(r.value, codeword.domain) == values
    {
      hide BasisSums, EvalC;
      if |values| != geom.codewordLen {
        return Err(WrongMessageLength);
      }
      var c := IfftVector(values, codeword);
      r := Ok(c);
    }

    method ProductFft(coeffs: Vec) returns (r: Result<Vec, CircleRsError>)
      requires Valid()
      ensures |coeffs| > geom.productDomainLen ==> r == Err(WrongMessageLength)
      ensures |coeffs| <= geom.productDomainLen ==> r == Ok(Evaluations(coeffs, product.domain))
    {
      hide BasisSums, EvalC;
      if |coeffs| > geom.productDomainLen {
        return Err(WrongMessageLength);
      }
      var values := FftPadded(coeffs, product, geom.productDomainLen);
      r := Ok(values);
    }

    /** The coefficients are the only ones of their number with these values. */
    method ProductIfft(evals: Vec) returns (r: Result<Vec, CircleRsError>)
      requires Valid()
      ensures |evals| != geom.productDomainLen ==> r == Err(WrongMessageLength)
      ensures |evals| == geom.productDomainLen ==>
                && r.Ok? && |r.value| == geom.productDomainLen && Evaluations(r.value, product.domain) == evals
                && (forall c :: |c| <= geom.productDomainLen && Evaluations(c, product.domain) == evals ==>
                      r.value == c + Zeros(geom.productDomainLen - |c|))
    {
      hide BasisSums, EvalC;
      if |evals| != geom.productDomainLen {
        return Err(WrongMessageLength);
      }
      var values := IfftVector(evals, product);
      forall c | |c| <= geom.productDomainLen && Evaluations(c, product.domain) == evals
        ensures values == c + Zeros(geom.productDomainLen - |c|)
      {
        Interpolant(c, product, geom.productDomainLen);
      }
      r := Ok(values);
    }

    method Evaluate(messagePrefix: Vec, index: nat) returns (r: Result<Fp, CircleRsError>)
      requires Valid()
      ensures index >= geom.codewordLen ==> r == Err(IndexOutOfRange)
      ensures index < geom.codewordLen ==> r == Ok(Evaluations(messagePrefix, codeword.domain)[index])
    {
      hide BasisSums, EvalC;
      if index >= geom.codewordLen {
        return Err(IndexOutOfRange);
      }
      var v := EvaluateAt(messagePrefix, codeword.domain[index]);
      r := Ok(v);
    }

    /** Codewords of different messages of length d agree in at most d positions. */
    lemma MinimumDistance(c: Vec, c': Vec, agree: set<nat>)
      requires Valid() && |c| == |c'| < U64_MAX && c != c'
      requires forall i :: i in agree ==>
                 i < geom.codewordLen && EvalC(c, codeword.domain[i]) == EvalC(c', codeword.domain[i])
      ensures |agree| <= |c|
    {
      hide BasisSums, EvalC, DoubleN, OnCircle;
      var d := VSub(c, c');
      assert !IsZero(d) by {
        var i :| 0 <= i < |c| && c[i] != c'[i];
        if d[i] == 0 { SubZero(c[i], c'[i]); }
      }
      var points := set i | i in agree :: codeword.domain[i];
      forall i, j | i in agree && j in agree && codeword.domain[i] == codeword.domain[j] ensures i == j {
        if i < j { CanonicalDistinct(codeword, geom.codewordLen, i, j); }
        if j < i { CanonicalDistinct(codeword, geom.codewordLen, j, i); }
      }
      ImageSize(codeword.domain, agree, points);
      forall p | p in points ensures OnCircle(p) && EvalC(d, p) == 0 {
        var i :| i in agree && p == codeword.domain[i];
        CanonicalPoint(codeword, geom.codewordLen, i);
        EvalCSub(c, c', p);
        Units(EvalC(c, p));
      }
      CircleZeros(d, points);
    }

    // ----- systematic masked rows -----

    /** The interpolant of data on the window. */
    function DataPoly(data: Vec): (c: Vec)
      requires window.Valid() && |data| == Pow2(window.logN)
      ensures |c| == |data|
    {
      window.Ifft(data)
    }

    lemma DataPolyInterpolates(data: Vec)
      requires Valid() && |data| == geom.dataSlots
      ensures Evaluations(DataPoly(data), window.domain) == data
    {
      window.FftIfft(data);
      window.FftEvaluates(DataPoly(data));
    }

    /** A committed row: data on the window, masked everywhere else by Z_W times the pads. */
    ghost predicate MaskedRow(data: Vec, pads: Vec, coefficients: Vec)
      requires Valid() && |data| == geom.dataSlots
    {
      && |coefficients| == geom.rowMessageLen
      && (forall c :: 0 <= c < geom.dataSlots ==> EvalC(coefficients, window.domain[c]) == data[c])
      && (forall p :: EvalC(coefficients, p) == Add(EvalC(DataPoly(data), p), Mul(WindowZ(geom, p), EvalC(pads, p))))
    }

    method EncodeRow(data: Vec, pads: Vec) returns (r: Result<(Vec, Vec), CircleRsError>)
      requires Valid()
      requires |pads| == geom.rowMessageLen - geom.dataSlots
      ensures |data| > geom.dataSlots ==> r == Err(WrongMessageLength)
      ensures |data| <= geom.dataSlots ==>
                && r.Ok?
                && MaskedRow(data + Zeros(geom.dataSlots - |data|), pads, r.value.0)
                && r.value.1 == Evaluations(r.value.0, codeword.domain)
    {
      hide BasisSums, EvalC, PiN, PowerOfTwo, Log, MaskedRow, Evaluations, WindowZ, Tables.Ifft, Tables.Valid;
      if |data| > geom.dataSlots {
        return Err(WrongMessageLength);
      }
      var d, k := geom.dataSlots, geom.rowMessageLen;
      var padded := data + Zeros(d - |data|);
      var interpolant := IfftOnly(padded, window);
      var coefficients := interpolant + Zeros(k - d);
      var maskedPads := FftPadded(pads, message, k);
      for i := 0 to k
        invariant |maskedPads| == k
        invariant forall j :: 0 <= j < i ==>
                    maskedPads[j] == Mul(Evaluations(pads, message.domain)[j], zwOnMessage[j])
        invariant forall j :: i <= j < k ==> maskedPads[j] == Evaluations(pads, message.domain)[j]
      {
        maskedPads := maskedPads[i := Mul(maskedPads[i], zwOnMessage[i])];
      }
      var padCoefficients := IfftOnly(maskedPads, message);
      PadsInterpolate(pads, maskedPads);
      coefficients := VAdd(coefficients, padCoefficients);
      RowIsMasked(padded, pads, padCoefficients, coefficients);
      var codewordValues := Encode(coefficients, k);
      r := Ok((coefficients, codewordValues.value));
    }

    lemma RowIsMasked(data: Vec, pads: Vec, padCoefficients: Vec, coefficients: Vec)
      requires Valid() && |data| == geom.dataSlots && |padCoefficients| == geom.rowMessageLen
      requires coefficients == VAdd(DataPoly(data) + Zeros(geom.rowMessageLen - geom.dataSlots), padCoefficients)
      requires forall p :: EvalC(padCoefficients, p) == Mul(WindowZ(geom, p), EvalC(pads, p))
      ensures MaskedRow(data, pads, coefficients)
    {
      hide BasisSums, EvalC, PiN, PowerOfTwo, Log;
      var d, k := geom.dataSlots, geom.rowMessageLen;
      forall p ensures EvalC(coefficients, p) == Add(EvalC(DataPoly(data), p), Mul(WindowZ(geom, p), EvalC(pads, p))) {
        EvalCAdd(DataPoly(data) + Zeros(k - d), padCoefficients, p);
        EvalCPad(DataPoly(data), k - d, p);
      }
      forall c | 0 <= c < d ensures EvalC(coefficients, window.domain[c]) == data[c] {
        DataPolyInterpolates(data);
        WindowVanishes(c);
        assert Evaluations(DataPoly(data), window.domain)[c] == data[c];
        Units(EvalC(pads, window.domain[c]));
        Units(data[c]);
      }
    }

    /** The pads times the vanishing polynomial of the window. */
    ghost function PadsPoly(pads: Vec): (q: Vec)
      requires Valid() && |pads| == geom.rowMessageLen - geom.dataSlots
      ensures |q| == geom.rowMessageLen
    {
      assert geom.dataSlots == 2 * Pow2(window.logN - 1);
      EvenRow();
      Multiple(XPoly(Pow2(window.logN - 1)), pads)
    }

    lemma MaskEval(p: Point)
      requires Valid()
      ensures window.logN >= 1 && geom.dataSlots == 2 * Pow2(window.logN - 1)
      ensures Eval(XPoly(Pow2(window.logN - 1)), p.x) == WindowZ(geom, p)
    {
      hide BasisSums, PiN, XPoly, Eval;
      EvalXPoly(Pow2(window.logN - 1), p.x);
      XBasisPow2(window.logN - 1, p.x);
    }

    lemma PadsPolyEvaluates(pads: Vec, p: Point)
      requires Valid() && |pads| == geom.rowMessageLen - geom.dataSlots
      ensures EvalC(PadsPoly(pads), p) == Mul(WindowZ(geom, p), EvalC(pads, p))
    {
      hide BasisSums, EvalC, Multiple, XPoly, Eval, Tables.Valid, WindowZ;
      EvenRow();
      MaskEval(p);
      MultipleEvaluates(XPoly(Pow2(window.logN - 1)), pads, p);
    }

    /** Z_W times the pads fits in a row: its coefficients come back exactly from the message domain. */
    lemma PadsInterpolate(pads: Vec, values: Vec)
      requires Valid() && |pads| == geom.rowMessageLen - geom.dataSlots && |values| == geom.rowMessageLen
      requires forall j :: 0 <= j < |values| ==>
                 values[j] == Mul(Evaluations(pads, message.domain)[j], zwOnMessage[j])
      ensures forall p :: EvalC(message.Ifft(values), p) == Mul(WindowZ(geom, p), EvalC(pads, p))
    {
      hide BasisSums, EvalC, PiN, Multiple, XPoly, Eval;
      hide PadsPoly, Tables.Valid;
      var q := PadsPoly(pads);
      forall p ensures EvalC(q, p) == Mul(WindowZ(geom, p), EvalC(pads, p)) {
        PadsPolyEvaluates(pads, p);
      }
      forall j | 0 <= j < |values| ensures values[j] == Evaluations(q, message.domain)[j] {
        MulComm(EvalC(pads, message.domain[j]), zwOnMessage[j]);
      }
      message.FftEvaluates(q);
      message.IfftFft(q);
      assert values == Evaluations(q, message.domain);
    }

    lemma EvenRow()
      requires Valid()
      ensures (geom.rowMessageLen - geom.dataSlots) % 2 == 0 && geom.rowMessageLen - geom.dataSlots >= 2
      ensures geom.dataSlots % 2 == 0 && geom.rowMessageLen % 2 == 0
    {
      hide BasisSums, PiN, Domain, IsGenerator;
      PowerEven(window.logN, geom.dataSlots);
      PowerEven(message.logN, geom.rowMessageLen);
    }

    // ----- the extraction functional -----

    /** The sum of the function's values over the window. */
    method DataSum(messagePrefix: Vec) returns (sum: Fp)
      requires Valid()
      ensures sum == SumOver(messagePrefix, window.domain)
    {
      hide EvalC, BasisSums;
      sum := 0;
      var n := |messagePrefix|;
      if n <= |basisSums| {
        for j := 0 to n
          invariant sum == Dot(messagePrefix[..j], basisSums[..j])
        {
          assert messagePrefix[..j + 1][..j] == messagePrefix[..j] && basisSums[..j + 1][..j] == basisSums[..j];
          sum := Add(sum, Mul(messagePrefix[j], basisSums[j]));
        }
        assert messagePrefix[..n] == messagePrefix;
        SumByBasis(messagePrefix, window.domain, geom.productDomainLen);
      } else {
        var points := window.domain;
        for i := 0 to |points|
          invariant sum == SumOver(messagePrefix, points[..i])
        {
          assert points[..i + 1][..i] == points[..i];
          var v := EvaluateAt(messagePrefix, points[i]);
          sum := Add(sum, v);
        }
        assert points[..|points|] == points;
      }
    }

    method WeightCoeffs(weights: Vec) returns (r: Result<Vec, CircleRsError>)
      requires Valid()
      ensures |weights| != geom.dataSlots ==> r == Err(WrongMessageLength)
      ensures |weights| == geom.dataSlots ==> r == Ok(DataPoly(weights))
    {
      hide EvalC, BasisSums;
      if |weights| != geom.dataSlots {
        return Err(WrongMessageLength);
      }
      var values := IfftOnly(weights, window);
      r := Ok(values);
    }

    /** The window sum of weights times a row is the inner product of weights and data. */
    lemma WindowSumOfProduct(weights: Vec, data: Vec, row: Vec)
      requires Valid() && |weights| == |data| == geom.dataSlots && |row| == geom.rowMessageLen
      requires Evaluations(row, window.domain) == data
      ensures |DataPoly(weights)| % 2 == 0 && |row| % 2 == 0
      ensures SumOver(Product(DataPoly(weights), row), window.domain) == Dot(weights, data)
    {
      hide EvalC, BasisSums, Product, OnCircle, DoubleN;
      EvenRow();
      var q := Product(DataPoly(weights), row);
      DataPolyInterpolates(weights);
      forall i | 0 <= i < |window.domain| ensures EvalC(q, window.domain[i]) == Mul(weights[i], data[i]) {
        CanonicalPoint(window, geom.dataSlots, i);
        ProductEvaluates(DataPoly(weights), row, window.domain[i]);
        assert Evaluations(row, window.domain)[i] == data[i];
        assert Evaluations(DataPoly(weights), window.domain)[i] == weights[i];
      }
      SumOfProducts(q, window.domain, weights, data);
    }
  }

  lemma PowerEven(k: nat, n: nat)
    requires n == Pow2(k) && n >= 2
    ensures n % 2 == 0 && forall m: nat :: m % 2 == 0 && m > n ==> (m - n) % 2 == 0 && m - n >= 2
  {
    var h := Pow2(k - 1);
    assert n == 2 * h;
    forall m: nat | m % 2 == 0 && m > n ensures (m - n) % 2 == 0 && m - n >= 2 {
      assert m - n == 2 * (m / 2 - h);
    }
  }

  lemma {:induction false} SumOfProducts(q: Vec, points: seq<Point>, a: Vec, b: Vec)
    requires |points| == |a| == |b|
    requires forall i :: 0 <= i < |points| ==> EvalC(q, points[i]) == Mul(a[i], b[i])
    ensures SumOver(q, points) == Dot(a, b)
  {
    hide EvalC;
    if points != [] {
      var n := |points| - 1;
      SumOfProducts(q, points[..n], a[..n], b[..n]);
    }
  }

  lemma EvalCSub(c: Vec, d: Vec, p: Point)
    requires |c| == |d|
    ensures EvalC(VSub(c, d), p) == Sub(EvalC(c, p), EvalC(d, p))
  {
    hide BasisRow;
    var e := VSub(c, d);
    forall i | 0 <= i < |c| ensures VAdd(e, d)[i] == c[i] { SubAdd(c[i], d[i]); }
    assert VAdd(e, d) == c;
    EvalCAdd(e, d, p);
    AddSub(EvalC(e, p), EvalC(d, p));
  }

  lemma {:induction false} ImageSize(domain: seq<Point>, at: set<nat>, image: set<Point>)
    requires forall i :: i in at ==> i < |domain|
    requires forall i, j :: i in at && j in at && domain[i] == domain[j] ==> i == j
    requires image == set i | i in at :: domain[i]
    ensures |image| == |at|
    decreases |at|
  {
    if i :| i in at {
      var rest := set j | j in at - {i} :: domain[j];
      ImageSize(domain, at - {i}, rest);
      assert image == rest + {domain[i]};
      assert domain[i] !in rest;
    }
  }

  /** The coefficients of a short vector come back, followed by zeros. */
  lemma Interpolant(c: Vec, t: Tables, n: nat)
    requires CanonicalDomainOf(t, n) && |c| <= n
    ensures t.Ifft(Evaluations(c, t.domain)) == c + Zeros(n - |c|)
  {
    hide EvalC;
    var padded := c + Zeros(n - |c|);
    forall i | 0 <= i < n ensures Evaluations(c, t.domain)[i] == Evaluations(padded, t.domain)[i] {
      EvalCPad(c, n - |c|, t.domain[i]);
    }
    assert Evaluations(c, t.domain) == Evaluations(padded, t.domain);
    t.FftEvaluates(padded);
    t.IfftFft(padded);
  }

  method FftPadded(prefix: Vec, t: Tables, n: nat) returns (values: Vec)
    requires CanonicalDomainOf(t, n) && |prefix| <= n
    ensures values == Evaluations(prefix, t.domain)
  {
    hide EvalC;
    var padded := prefix + Zeros(n - |prefix|);
    var buffer := new Fp[n](i requires 0 <= i < n => padded[i]);
    assert buffer[..] == padded;
    FftInPlace(buffer, t);
    values := buffer[..];
    t.FftEvaluates(padded);
    forall i | 0 <= i < n ensures values[i] == Evaluations(prefix, t.domain)[i] {
      EvalCPad(prefix, n - |prefix|, t.domain[i]);
    }
  }

  method IfftOnly(values: Vec, t: Tables) returns (c: Vec)
    requires t.Valid() && |values| == Pow2(t.logN)
    ensures c == t.Ifft(values)
  {
    var buffer := new Fp[|values|](i requires 0 <= i < |values| => values[i]);
    assert buffer[..] == values;
    IfftInPlace(buffer, t);
    c := buffer[..];
  }

  method IfftVector(values: Vec, t: Tables) returns (c: Vec)
    requires t.Valid() && |values| == Pow2(t.logN)
    ensures c == t.Ifft(values) && |c| == |values| && Evaluations(c, t.domain) == values
  {
    c := IfftOnly(values, t);
    t.FftIfft(values);
    t.FftEvaluates(c);
  }

  // ----- set-up -----

  /** The tables and window vectors of a geometry, from one generator per domain. */
  method BuildCode(geom: CircleGeom, qWindow: Point, qMessage: Point, qCodeword: Point, qProduct: Point) returns (code: Code)
    requires geom.Valid()
    requires IsGenerator(qWindow, Log(geom.dataSlots)) && IsGenerator(qMessage, Log(geom.rowMessageLen))
    requires IsGenerator(qCodeword, Log(geom.codewordLen)) && IsGenerator(qProduct, Log(geom.productDomainLen))
    ensures code.Valid() && code.geom == geom
    ensures code.window.domain == Domain(qWindow, Log(geom.dataSlots))
    ensures code.message.domain == Domain(qMessage, Log(geom.rowMessageLen))
    ensures code.codeword.domain == Domain(qCodeword, Log(geom.codewordLen))
    ensures code.product.domain == Domain(qProduct, Log(geom.productDomainLen))
  {
    hide IsGenerator, BasisSums, PiN;
    var window := CanonicalTables(geom.dataSlots, qWindow);
    var message := CanonicalTables(geom.rowMessageLen, qMessage);
    var codeword := CanonicalTables(geom.codewordLen, qCodeword);
    var product := CanonicalTables(geom.productDomainLen, qProduct);
    var zw: Vec := [];
    for i := 0 to geom.rowMessageLen
      invariant |zw| == i
      invariant forall j :: 0 <= j < i ==> zw[j] == WindowZ(geom, message.domain[j])
    {
      var x := message.domain[i].x;
      PiNZero(message.domain[i].x);
      for k := 0 to Log(geom.dataSlots) - 1
        invariant x == PiN(message.domain[i].x, k)
      {
        PiNNext(message.domain[i].x, k);
        PiUnfold(x);
        x := Sub(Add(Mul(x, x), Mul(x, x)), 1);
      }
      zw := zw + [x];
    }
    var sums := BuildBasisSums(window.domain, geom.productDomainLen);
    code := Code(geom, window, message, codeword, product, zw, sums);
  }

  lemma PiNZero(x: Fp)
    ensures PiN(x, 0) == x
  {
  }

  method CanonicalTables(n: nat, q: Point) returns (t: Tables)
    requires PowerOfTwo(n) && 2 <= n <= U64_MAX && IsGenerator(q, Log(n))
    ensures CanonicalDomainOf(t, n) && t.domain == Domain(q, Log(n))
  {
    t := Tables.New(Log(n), q);
  }
}
