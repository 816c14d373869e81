/** The weights of a batch of linear claims on the committed matrix (ligero.rs): the dense scatter, and the factored plan
    of residual rows and scaled templates that reconstructs it. */
module LigeroWeights {
  import opened Wrappers
  import opened Integers
  import opened Field
  import opened Vectors
  import opened Bits
  import opened Multilinear
  import opened LigeroParameters

  /** A claimed value of the multilinear extension of `len` committed cells from `offset` on. */
  datatype LinearClaim = LinearClaim(offset: nat, len: nat, point: Vec, value: Fp)

  function ValidateLinearClaim(rowLen: nat, rows: nat, claim: LinearClaim): (r: Result<(), LigeroError>)
  {
    if claim.len == 0 then Err(LigeroError.WrongPointLength)
    else if |claim.point| != CeilLog(claim.len) then Err(LigeroError.WrongPointLength)
    else if claim.offset + claim.len > rows * rowLen then Err(LigeroError.WrongPointLength)
    else Ok(())
  }

  /** What a claim has to meet: cells within the rows, and as many coordinates as it takes to number them, no more. */
  lemma ValidClaimIff(rowLen: nat, rows: nat, claim: LinearClaim)
    ensures ValidateLinearClaim(rowLen, rows, claim).Ok? <==>
              && 0 < claim.len && claim.offset + claim.len <= rows * rowLen
              && claim.len <= Pow2(|claim.point|) && forall k :: 0 <= k < |claim.point| ==> Pow2(k) < claim.len
  {
    hide Pow2;
    CeilLogBounds(claim.len);
    var n, c := |claim.point|, CeilLog(claim.len);
    if n < c {
      Pow2Mono(n, c - 1);
    } else if c < n {
      assert Pow2(c) >= claim.len;
    }
    forall k | 0 <= k < c ensures Pow2(k) < claim.len {
      Pow2Mono(k, c - 1);
    }
  }

  predicate AllValid(rowLen: nat, rows: nat, claims: seq<LinearClaim>)
  {
    forall k :: 0 <= k < |claims| ==> ValidateLinearClaim(rowLen, rows, claims[k]).Ok?
  }

  // ----- the reference: the weight of every cell -----

  /** The weight a claim puts on cell g: gamma times its eq product inside the claimed range, zero outside. */
  function ClaimCell(claim: LinearClaim, gamma: Fp, g: nat): Fp
  {
    if claim.offset <= g < claim.offset + claim.len then Mul(gamma, PrefixEq(g - claim.offset, claim.point)) else 0
  }

  function CellSum(claims: seq<LinearClaim>, gamma: Vec, g: nat): Fp
    requires |claims| == |gamma|
  {
    if claims == [] then 0
    else
      var k := |claims| - 1;
      Add(CellSum(claims[..k], gamma[..k], g), ClaimCell(claims[k], gamma[k], g))
  }

  function CellNumber(r: nat, rowLen: nat, c: nat): nat { r * rowLen + c }

  function DenseRow(claims: seq<LinearClaim>, gamma: Vec, rowLen: nat, r: nat): (w: Vec)
    requires |claims| == |gamma|
    ensures |w| == rowLen
  {
    seq(rowLen, c requires 0 <= c => CellSum(claims, gamma, CellNumber(r, rowLen, c)))
  }

  function DenseRows(claims: seq<LinearClaim>, gamma: Vec, rowLen: nat, rows: nat): (m: seq<Vec>)
    requires |claims| == |gamma|
    ensures |m| == rows && forall r :: 0 <= r < rows ==> |m[r]| == rowLen
  {
    seq(rows, r requires 0 <= r => DenseRow(claims, gamma, rowLen, r))
  }

  // ----- matrices addressed by cell number -----

  predicate Matrix(m: seq<Vec>, rows: nat, rowLen: nat)
  {
    |m| == rows && forall r :: 0 <= r < rows ==> |m[r]| == rowLen
  }

  function RowOf(g: nat, rowLen: nat): nat
    requires rowLen > 0
  {
    g / rowLen
  }

  function ColumnOf(g: nat, rowLen: nat): nat
    requires rowLen > 0
  {
    g % rowLen
  }

  lemma ProductMono(a: nat, b: nat, m: nat)
    requires a <= b
    ensures a * m <= b * m
  {
    assert (b - a) * m >= 0;
    assert (b - a) * m == b * m - a * m;
  }

  lemma CellInside(g: nat, rows: nat, rowLen: nat)
    requires rowLen > 0 && g < rows * rowLen
    ensures RowOf(g, rowLen) < rows && ColumnOf(g, rowLen) < rowLen
    ensures g == CellNumber(RowOf(g, rowLen), rowLen, ColumnOf(g, rowLen))
  {
    if g / rowLen >= rows {
      ProductMono(rows, g / rowLen, rowLen);
    }
  }

  lemma CellPlace(r: nat, c: nat, rows: nat, rowLen: nat)
    requires r < rows && c < rowLen
    ensures CellNumber(r, rowLen, c) < rows * rowLen
    ensures RowOf(CellNumber(r, rowLen, c), rowLen) == r && ColumnOf(CellNumber(r, rowLen, c), rowLen) == c
  {
    ProductMono(r + 1, rows, rowLen);
    assert (r + 1) * rowLen == r * rowLen + rowLen;
    var g := r * rowLen + c;
    ModUnique(rowLen, g, r, c);
    assert (g / rowLen) * rowLen == r * rowLen;
    assert (g / rowLen - r) * rowLen == 0;
    NoSmallMultiple(rowLen, g / rowLen - r, 0);
  }

  function CellAt(m: seq<Vec>, rows: nat, rowLen: nat, g: nat): Fp
    requires rowLen > 0 && Matrix(m, rows, rowLen) && g < rows * rowLen
  {
    CellInside(g, rows, rowLen);
    m[RowOf(g, rowLen)][ColumnOf(g, rowLen)]
  }

  lemma CellSet(m: seq<Vec>, rows: nat, rowLen: nat, g: nat, v: Fp, t: nat)
    requires rowLen > 0 && Matrix(m, rows, rowLen) && g < rows * rowLen && t < rows * rowLen
    ensures RowOf(g, rowLen) < rows && ColumnOf(g, rowLen) < rowLen
    ensures var row: Vec := m[RowOf(g, rowLen)][ColumnOf(g, rowLen) := v];
            var m' := m[RowOf(g, rowLen) := row];
            Matrix(m', rows, rowLen) && CellAt(m', rows, rowLen, t) == if t == g then v else CellAt(m, rows, rowLen, t)
  {
    CellInside(g, rows, rowLen);
    CellInside(t, rows, rowLen);
    hide RowOf, ColumnOf, CellNumber;
  }

  ghost predicate Holds(m: seq<Vec>, rows: nat, rowLen: nat, claims: seq<LinearClaim>, gamma: Vec)
    requires rowLen > 0 && Matrix(m, rows, rowLen) && |claims| == |gamma|
  {
    forall g :: 0 <= g < rows * rowLen ==> CellAt(m, rows, rowLen, g) == CellSum(claims, gamma, g)
  }

  lemma HoldsDense(m: seq<Vec>, rows: nat, rowLen: nat, claims: seq<LinearClaim>, gamma: Vec)
    requires rowLen > 0 && Matrix(m, rows, rowLen) && |claims| == |gamma| && Holds(m, rows, rowLen, claims, gamma)
    ensures m == DenseRows(claims, gamma, rowLen, rows)
  {
    hide CellSum;
    var d := DenseRows(claims, gamma, rowLen, rows);
    forall r | 0 <= r < rows ensures m[r] == d[r] {
      forall c | 0 <= c < rowLen ensures m[r][c] == d[r][c] {
        CellPlace(r, c, rows, rowLen);
        assert CellAt(m, rows, rowLen, CellNumber(r, rowLen, c)) == m[r][c];
      }
    }
  }

  // ----- the dense scatter -----

  datatype RowWeights = RowWeights(row: nat, weights: Vec)

  predicate Nonzero(v: Vec) { exists i :: 0 <= i < |v| && v[i] != 0 }

  /** The rows that carry a weight, with their numbers. */
  function NonzeroRows(m: seq<Vec>): (l: seq<RowWeights>)
    ensures forall i :: 0 <= i < |l| ==> l[i].row < |m|
  {
    if m == [] then []
    else
      var n := |m| - 1;
      NonzeroRows(m[..n]) + if Nonzero(m[n]) then [RowWeights(n, m[n])] else []
  }

  lemma ClaimCellStep(claim: LinearClaim, gamma: Fp, local: nat, g: nat)
    ensures ClaimCell(claim.(len := local + 1), gamma, g)
         == if g == claim.offset + local then Mul(gamma, PrefixEq(local, claim.point))
            else ClaimCell(claim.(len := local), gamma, g)
    ensures g == claim.offset + local ==> ClaimCell(claim.(len := local), gamma, g) == 0
    ensures ClaimCell(claim.(len := 0), gamma, g) == 0
  {
  }

  /** Add gamma times the eq tensor into the cells of the claim. */
  method ScatterClaim(m: seq<Vec>, rows: nat, rowLen: nat, claim: LinearClaim, gamma: Fp) returns (out: seq<Vec>)
    requires rowLen > 0 && Matrix(m, rows, rowLen) && ValidateLinearClaim(rowLen, rows, claim).Ok?
    ensures Matrix(out, rows, rowLen)
    ensures forall g :: 0 <= g < rows * rowLen ==>
              CellAt(out, rows, rowLen, g) == Add(CellAt(m, rows, rowLen, g), ClaimCell(claim, gamma, g))
  {
    hide RowOf, ColumnOf, CellAt, ClaimCell;
    var eq := EqTensor(claim.point);
    CeilLogBounds(claim.len);
    out := m;
    forall g | 0 <= g < rows * rowLen
      ensures CellAt(m, rows, rowLen, g) == Add(CellAt(m, rows, rowLen, g), ClaimCell(claim.(len := 0), gamma, g))
    {
      ClaimCellStep(claim, gamma, 0, g);
      Units(CellAt(m, rows, rowLen, g));
    }
    for local := 0 to claim.len
      invariant Matrix(out, rows, rowLen)
      invariant forall g :: 0 <= g < rows * rowLen ==>
                  CellAt(out, rows, rowLen, g) == Add(CellAt(m, rows, rowLen, g), ClaimCell(claim.(len := local), gamma, g))
    {
      var global := claim.offset + local;
      CellInside(global, rows, rowLen);
      var before := out;
      var row := out[RowOf(global, rowLen)];
      var v := Add(row[ColumnOf(global, rowLen)], Mul(gamma, eq[local]));
      row := row[ColumnOf(global, rowLen) := v];
      out := out[RowOf(global, rowLen) := row];
      CellSet(before, rows, rowLen, global, v, global);
      CellValue(before, rows, rowLen, global);
      forall g | 0 <= g < rows * rowLen
        ensures CellAt(out, rows, rowLen, g) == Add(CellAt(m, rows, rowLen, g), ClaimCell(claim.(len := local + 1), gamma, g))
      {
        CellSet(before, rows, rowLen, global, v, g);
        ClaimCellStep(claim, gamma, local, g);
        Units(CellAt(m, rows, rowLen, g));
      }
    }
    assert claim.(len := claim.len) == claim;
  }

  lemma CellValue(m: seq<Vec>, rows: nat, rowLen: nat, g: nat)
    requires rowLen > 0 && Matrix(m, rows, rowLen) && g < rows * rowLen
    ensures RowOf(g, rowLen) < rows && ColumnOf(g, rowLen) < rowLen && CellAt(m, rows, rowLen, g) == m[RowOf(g, rowLen)][ColumnOf(g, rowLen)]
  {
    CellInside(g, rows, rowLen);
  }

  method BatchedRowWeights(rowLen: nat, rows: nat, claims: seq<LinearClaim>, gamma: Vec)
    returns (r: Result<seq<RowWeights>, LigeroError>)
    requires rowLen > 0
    ensures claims == [] || gamma == [] ==> r == Err(EmptyGamma)
    ensures claims != [] && gamma != [] && |claims| != |gamma| ==> r == Err(WrongGammaLength)
    ensures claims != [] && |claims| == |gamma| && !AllValid(rowLen, rows, claims) ==> r == Err(LigeroError.WrongPointLength)
    ensures claims != [] && |claims| == |gamma| && AllValid(rowLen, rows, claims) ==>
              r == Ok(NonzeroRows(DenseRows(claims, gamma, rowLen, rows)))
  {
    hide RowOf, ColumnOf, CellAt, ClaimCell, CellSum;
    if claims == [] || gamma == [] {
      return Err(EmptyGamma);
    }
    if |claims| != |gamma| {
      return Err(WrongGammaLength);
    }
    var m: seq<Vec> := seq(rows, _ => Zeros(rowLen));
    ZeroMatrix(m, rows, rowLen);
    for k := 0 to |claims|
      invariant Matrix(m, rows, rowLen) && Holds(m, rows, rowLen, claims[..k], gamma[..k])
      invariant AllValid(rowLen, rows, claims[..k])
    {
      if ValidateLinearClaim(rowLen, rows, claims[k]).Err? {
        assert !AllValid(rowLen, rows, claims);
        return Err(LigeroError.WrongPointLength);
      }
      m := ScatterClaim(m, rows, rowLen, claims[k], gamma[k]);
      forall g | 0 <= g < rows * rowLen ensures CellAt(m, rows, rowLen, g) == CellSum(claims[..k + 1], gamma[..k + 1], g) {
        CellSumSnoc(claims, gamma, k, g);
      }
    }
    assert claims[..|claims|] == claims && gamma[..|gamma|] == gamma;
    HoldsDense(m, rows, rowLen, claims, gamma);
    r := Ok(NonzeroRows(m));
  }

  lemma CellSumSnoc(claims: seq<LinearClaim>, gamma: Vec, k: nat, g: nat)
    requires |claims| == |gamma| && k < |claims|
    ensures CellSum(claims[..k + 1], gamma[..k + 1], g)
         == Add(CellSum(claims[..k], gamma[..k], g), ClaimCell(claims[k], gamma[k], g))
  {
    assert claims[..k + 1][..k] == claims[..k] && gamma[..k + 1][..k] == gamma[..k];
  }

  lemma ZeroMatrix(m: seq<Vec>, rows: nat, rowLen: nat)
    requires rowLen > 0 && m == seq(rows, _ => Zeros(rowLen))
    ensures Matrix(m, rows, rowLen) && Holds(m, rows, rowLen, [], [])
  {
    forall g | 0 <= g < rows * rowLen ensures CellAt(m, rows, rowLen, g) == 0 {
      CellInside(g, rows, rowLen);
    }
  }
}
