/** The factored weight plan (ligero.rs): long claims become scaled copies of a few row templates, the rest stays a
    residual matrix. Row by row the plan is the dense scatter. */
module LigeroPlan {
  import opened Wrappers
  import opened Field
  import opened Vectors
  import opened Bits
  import opened Multilinear
  import opened LigeroParameters
  import opened LigeroWeights

  const STRUCTURED_CLAIM_MIN_ROWS: nat := 4

  datatype RowScale = RowScale(row: nat, scale: Fp)

  datatype Template = Template(values: Vec, rowScales: seq<RowScale>)

  datatype WeightPlan = WeightPlan(residualRows: seq<RowWeights>, templates: seq<Template>)

  // ----- what a list of templates puts on a cell -----

  function ScaleFor(rs: seq<RowScale>, row: nat): Fp
  {
    if rs == [] then 0
    else
      var k := |rs| - 1;
      Add(ScaleFor(rs[..k], row), if rs[k].row == row then rs[k].scale else 0)
  }

  predicate Shaped(ts: seq<Template>, rows: nat, rowLen: nat)
  {
    forall k :: 0 <= k < |ts| ==>
      && |ts[k].values| == rowLen
      && forall i :: 0 <= i < |ts[k].rowScales| ==> ts[k].rowScales[i].row < rows
  }

  function TemplateCell(t: Template, row: nat, c: nat): Fp
    requires c < |t.values|
  {
    Mul(ScaleFor(t.rowScales, row), t.values[c])
  }

  function TemplatesCell(ts: seq<Template>, rows: nat, rowLen: nat, row: nat, c: nat): Fp
    requires Shaped(ts, rows, rowLen) && c < rowLen
  {
    if ts == [] then 0
    else
      var k := |ts| - 1;
      Add(TemplatesCell(ts[..k], rows, rowLen, row, c), TemplateCell(ts[k], row, c))
  }

  lemma {:induction false} ScaleForUpdate(rs: seq<RowScale>, i: nat, d: Fp, row: nat)
    requires i < |rs|
    ensures ScaleFor(rs[i := RowScale(rs[i].row, Add(rs[i].scale, d))], row)
         == Add(ScaleFor(rs, row), if row == rs[i].row then d else 0)
  {
    var k := |rs| - 1;
    var rs' := rs[i := RowScale(rs[i].row, Add(rs[i].scale, d))];
    if i == k {
      assert rs'[..k] == rs[..k];
      AddAssoc(ScaleFor(rs[..k], row), rs[k].scale, d);
      Units(ScaleFor(rs, row));
      Units(ScaleFor(rs[..k], row));
    } else {
      ScaleForUpdate(rs[..k], i, d, row);
      assert rs'[..k] == rs[..k][i := RowScale(rs[i].row, Add(rs[i].scale, d))];
      AddSwapLast(ScaleFor(rs[..k], row), if rs[k].row == row then rs[k].scale else 0, if row == rs[i].row then d else 0);
    }
  }

  /** Changing one template changes the sum by that template's change. */
  lemma {:induction false} TemplatesUpdate(
    ts: seq<Template>, rows: nat, rowLen: nat, i: nat, t: Template, row: nat, c: nat, d: Fp)
    requires Shaped(ts, rows, rowLen) && i < |ts| && c < rowLen && Shaped(ts[i := t], rows, rowLen)
    requires |t.values| == rowLen && TemplateCell(t, row, c) == Add(TemplateCell(ts[i], row, c), d)
    ensures TemplatesCell(ts[i := t], rows, rowLen, row, c) == Add(TemplatesCell(ts, rows, rowLen, row, c), d)
  {
    hide TemplateCell;
    var k := |ts| - 1;
    var ts' := ts[i := t];
    if i == k {
      assert ts'[..k] == ts[..k];
      AddAssoc(TemplatesCell(ts[..k], rows, rowLen, row, c), TemplateCell(ts[i], row, c), d);
    } else {
      assert ts'[..k] == ts[..k][i := t];
      TemplatesUpdate(ts[..k], rows, rowLen, i, t, row, c, d);
      AddSwapLast(TemplatesCell(ts[..k], rows, rowLen, row, c), TemplateCell(ts[k], row, c), d);
    }
  }

  /** The change that adding scale times values to one row makes. */
  function Deposit(values: Vec, row: nat, scale: Fp, r: nat, c: nat): Fp
    requires c < |values|
  {
    if r == row then Mul(scale, values[c]) else 0
  }

  ghost predicate Deposited(
    ts: seq<Template>, out: seq<Template>, rows: nat, rowLen: nat, values: Vec, row: nat, scale: Fp)
    requires Shaped(ts, rows, rowLen) && Shaped(out, rows, rowLen) && |values| == rowLen
  {
    forall r: nat, c: nat :: c < rowLen ==>
      TemplatesCell(out, rows, rowLen, r, c) == Add(TemplatesCell(ts, rows, rowLen, r, c), Deposit(values, row, scale, r, c))
  }

  lemma TemplateGrows(t: Template, t': Template, row: nat, scale: Fp, r: nat, c: nat)
    requires t.values == t'.values && c < |t.values|
    requires ScaleFor(t'.rowScales, r) == Add(ScaleFor(t.rowScales, r), if r == row then scale else 0)
    ensures TemplateCell(t', r, c) == Add(TemplateCell(t, r, c), Deposit(t.values, row, scale, r, c))
  {
    hide ScaleFor;
    DistribRight(ScaleFor(t.rowScales, r), if r == row then scale else 0, t.values[c]);
    Units(t.values[c]);
  }

  method AddRowScale(rs: seq<RowScale>, row: nat, scale: Fp, ghost rows: nat) returns (out: seq<RowScale>)
    requires row < rows && forall i :: 0 <= i < |rs| ==> rs[i].row < rows
    ensures forall i :: 0 <= i < |out| ==> out[i].row < rows
    ensures forall r: nat :: ScaleFor(out, r) == Add(ScaleFor(rs, r), if r == row then scale else 0)
  {
    var i := 0;
    while i < |rs| && rs[i].row != row
      invariant i <= |rs|
    {
      i := i + 1;
    }
    if i < |rs| {
      out := rs[i := RowScale(row, Add(rs[i].scale, scale))];
      forall r: nat ensures ScaleFor(out, r) == Add(ScaleFor(rs, r), if r == row then scale else 0) {
        ScaleForUpdate(rs, i, scale, r);
      }
    } else {
      out := rs + [RowScale(row, scale)];
      assert out[..|rs|] == rs;
    }
  }

  method AddClaimWeightTemplate(
    templates: seq<Template>, values: Vec, row: nat, scale: Fp, ghost rows: nat, ghost rowLen: nat)
    returns (out: seq<Template>)
    requires Shaped(templates, rows, rowLen) && |values| == rowLen && row < rows
    ensures Shaped(out, rows, rowLen) && Deposited(templates, out, rows, rowLen, values, row, scale)
  {
    hide ScaleFor, TemplatesCell, TemplateCell;
    if scale == 0 {
      out := templates;
      forall r: nat, c: nat | c < rowLen
        ensures TemplatesCell(out, rows, rowLen, r, c)
             == Add(TemplatesCell(templates, rows, rowLen, r, c), Deposit(values, row, scale, r, c))
      {
        Units(values[c]);
        Units(TemplatesCell(templates, rows, rowLen, r, c));
      }
      return;
    }
    var i := 0;
    while i < |templates| && templates[i].values != values
      invariant i <= |templates|
    {
      i := i + 1;
    }
    var ts := templates;
    if i == |templates| {
      ts := ts + [Template(values, [])];
      forall r: nat, c: nat | c < rowLen
        ensures TemplatesCell(ts, rows, rowLen, r, c) == TemplatesCell(templates, rows, rowLen, r, c)
      {
        EmptyTemplate(templates, rows, rowLen, values, r, c);
      }
    }
    var scales := AddRowScale(ts[i].rowScales, row, scale, rows);
    var t := Template(values, scales);
    out := ts[i := t];
    forall r: nat, c: nat | c < rowLen
      ensures TemplatesCell(out, rows, rowLen, r, c)
           == Add(TemplatesCell(templates, rows, rowLen, r, c), Deposit(values, row, scale, r, c))
    {
      TemplateGrows(ts[i], t, row, scale, r, c);
      TemplatesUpdate(ts, rows, rowLen, i, t, r, c, Deposit(values, row, scale, r, c));
    }
  }

  lemma EmptyTemplate(ts: seq<Template>, rows: nat, rowLen: nat, values: Vec, r: nat, c: nat)
    requires Shaped(ts, rows, rowLen) && |values| == rowLen && c < rowLen
    ensures var out := ts + [Template(values, [])];
            Shaped(out, rows, rowLen) && TemplatesCell(out, rows, rowLen, r, c) == TemplatesCell(ts, rows, rowLen, r, c)
  {
    var out := ts + [Template(values, [])];
    assert out[..|ts|] == ts;
    Units(values[c]);
    Units(TemplatesCell(ts, rows, rowLen, r, c));
  }

  // ----- factoring the eq weights -----

  /** The eq product of an index splits into its low and its high digits. */
  lemma {:induction false} EqSplit(j: nat, b: nat, point: Vec, k: nat)
    requires k <= |point| && j < Pow2(k)
    ensures PrefixEq(CellNumber(b, Pow2(k), j), point) == Mul(PrefixEq(j, point[..k]), PrefixEq(b, point[k..]))
    decreases k
  {
    if k == 0 {
      assert point[..0] == [] && point[0..] == point;
      Units(PrefixEq(b, point));
    } else {
      var h := Pow2(k - 1);
      var i := CellNumber(b, Pow2(k), j);
      assert b * Pow2(k) == 2 * (b * h);
      assert i == 2 * (b * h) + j && i % 2 == j % 2 && i / 2 == b * h + j / 2;
      EqSplit(j / 2, b, point[1..], k - 1);
      assert point[..k][0] == point[0] && point[..k][1..] == point[1..][..k - 1] && point[1..][k - 1..] == point[k..];
      MulAssoc(BitEq(j % 2 == 1, point[0]), PrefixEq(j / 2, point[1..][..k - 1]), PrefixEq(b, point[k..]));
    }
  }

  /** `len` cells of the column tensor, moved `shift` places to the right. */
  function FirstPart(low: Vec, shift: nat, len: nat): (v: Vec)
    requires shift + len <= |low|
    ensures |v| == |low|
  {
    seq(|low|, c requires 0 <= c < |low| => if shift <= c < shift + len then low[c - shift] else 0)
  }

  /** The `len` cells that the shift pushes into the next row. */
  function SecondPart(low: Vec, shift: nat, len: nat): (v: Vec)
    requires len <= shift <= |low|
    ensures |v| == |low|
  {
    seq(|low|, c requires 0 <= c < |low| => if c < len then low[|low| - shift + c] else 0)
  }

  function DivCeil(n: nat, m: nat): nat
    requires m > 0
  {
    (n + m - 1) / m
  }

  lemma RowCompare(row: nat, base: nat, b: nat, rowLen: nat)
    ensures row == base + b ==> row * rowLen == base * rowLen + b * rowLen
    ensures row == base + b + 1 ==> row * rowLen == base * rowLen + b * rowLen + rowLen
    ensures row < base + b ==> row * rowLen + rowLen <= base * rowLen + b * rowLen
    ensures row > base + b + 1 ==> row * rowLen >= base * rowLen + b * rowLen + 2 * rowLen
  {
    assert (base + b) * rowLen == base * rowLen + b * rowLen;
    assert (base + b + 1) * rowLen == (base + b) * rowLen + rowLen;
    assert (base + b + 2) * rowLen == (base + b) * rowLen + 2 * rowLen;
    if row < base + b {
      ProductMono(row + 1, base + b, rowLen);
      assert (row + 1) * rowLen == row * rowLen + rowLen;
    }
    if row > base + b + 1 { ProductMono(base + b + 2, row, rowLen); }
  }

  lemma ScaledEq(g: Fp, h: Fp, l: Fp)
    ensures Mul(Mul(g, h), l)
       == Mul(g, Mul(l, h))
  {
    Same(ZMul(ZMul(g, h), l),
         ZMul(g, ZMul(l, h)));
    hide *;
    Ring(g, h, l);
  }

  /** How many cells block b covers, and how many of them stay in its first row. */
  function Covered(rowLen: nat, len: nat, start: nat): (v: nat)
    requires start < len
    ensures v <= rowLen && start + v <= len
  {
    if len - start < rowLen then len - start else rowLen
  }

  function InFirstRow(rowLen: nat, shift: nat, valid: nat): (v: nat)
    requires shift < rowLen
    ensures v <= valid && shift + v <= rowLen
    ensures valid <= rowLen ==> valid - v <= shift
  {
    if valid < rowLen - shift then valid else rowLen - shift
  }

  /** Cell (row, col) seen from block b: in its first part, in its second part, or outside. */
  lemma Position(rowLen: nat, base: nat, b: nat, row: nat, col: nat, shift: nat, valid: nat, first: nat, j: int)
    requires col < rowLen && shift < rowLen && valid <= rowLen && first == InFirstRow(rowLen, shift, valid)
    requires j == row * rowLen + col - (base * rowLen + shift) - b * rowLen
    ensures 0 <= j < first <==> row == base + b && shift <= col < shift + first
    ensures 0 <= j < first ==> j == col - shift
    ensures first <= j < valid <==> row == base + b + 1 && col < valid - first
    ensures first <= j < valid ==> j == rowLen - shift + col
  {
    RowCompare(row, base, b, rowLen);
  }

  lemma ClaimCellGrows(claim: LinearClaim, gamma: Fp, t: nat, valid: nat, g: nat, j: int)
    requires j == g - claim.offset - t
    ensures 0 <= j < valid ==> ClaimCell(claim.(len := t), gamma, g) == 0
    ensures 0 <= j < valid ==> ClaimCell(claim.(len := t + valid), gamma, g) == Mul(gamma, PrefixEq(t + j, claim.point))
    ensures !(0 <= j < valid) ==> ClaimCell(claim.(len := t + valid), gamma, g) == ClaimCell(claim.(len := t), gamma, g)
  {
  }

  /** The deposits of block b on cell (row, col). */
  function BlockDeposit(low: Vec, shift: nat, valid: nat, baseRow: nat, scale: Fp, row: nat, col: nat): Fp
    requires shift < |low| && valid <= |low| && col < |low|
  {
    var first := InFirstRow(|low|, shift, valid);
    Add(Deposit(FirstPart(low, shift, first), baseRow, scale, row, col),
        if valid > first then Deposit(SecondPart(low, shift, valid - first), baseRow + 1, scale, row, col) else 0)
  }

  lemma BlockDepositAt(low: Vec, shift: nat, valid: nat, base: nat, b: nat, scale: Fp, row: nat, col: nat, j: int)
    requires shift < |low| && valid <= |low| && col < |low|
    requires j == CellNumber(row, |low|, col) - CellNumber(base, |low|, shift) - CellNumber(b, |low|, 0)
    ensures BlockDeposit(low, shift, valid, base + b, scale, row, col) == if 0 <= j < valid then Mul(scale, low[j]) else 0
  {
    var first := InFirstRow(|low|, shift, valid);
    Position(|low|, base, b, row, col, shift, valid, first, j);
    Units(0);
    Units(scale);
    if 0 <= j < valid { Units(Mul(scale, low[j])); }
  }

  /** One block more: the partial claim grows by the deposits of the block. */
  lemma BlockCell(claim: LinearClaim, gamma: Fp, k: nat, b: nat, base: nat, shift: nat, valid: nat, row: nat, col: nat)
    requires k <= |claim.point| && col < Pow2(k) && shift < Pow2(k) && valid <= Pow2(k)
    requires claim.offset == CellNumber(base, Pow2(k), shift)
    ensures
      var t, g := CellNumber(b, Pow2(k), 0), CellNumber(row, Pow2(k), col);
      var low, scale := EqVec(claim.point[..k]), Mul(gamma, PrefixEq(b, claim.point[k..]));
      ClaimCell(claim.(len := t + valid), gamma, g)
      == Add(ClaimCell(claim.(len := t), gamma, g), BlockDeposit(low, shift, valid, base + b, scale, row, col))
  {
    var t, g := CellNumber(b, Pow2(k), 0), CellNumber(row, Pow2(k), col);
    var low, high := EqVec(claim.point[..k]), PrefixEq(b, claim.point[k..]);
    var j := g - claim.offset - t;
    hide PrefixEq, ClaimCell, BlockDeposit, CellNumber, Pow2;
    ClaimCellGrows(claim, gamma, t, valid, g, j);
    BlockDepositAt(low, shift, valid, base, b, Mul(gamma, high), row, col, j);
    if 0 <= j < valid {
      EqSplit(j, b, claim.point, k);
      CellOffset(b, Pow2(k), j);
      ScaledEq(gamma, high, low[j]);
      Units(Mul(Mul(gamma, high), low[j]));
    } else {
      Units(ClaimCell(claim.(len := t), gamma, g));
    }
  }

  lemma CellOffset(b: nat, rowLen: nat, j: nat)
    ensures CellNumber(b, rowLen, j) == CellNumber(b, rowLen, 0) + j
  {
  }

  /** `out` adds the weights of a claim to `ts`, cell by cell. */
  ghost predicate Factored(
    ts: seq<Template>, out: seq<Template>, rows: nat, rowLen: nat, claim: LinearClaim, gamma: Fp)
    requires Shaped(ts, rows, rowLen) && Shaped(out, rows, rowLen)
  {
    forall r: nat, c: nat :: c < rowLen ==>
      TemplatesCell(out, rows, rowLen, r, c)
      == Add(TemplatesCell(ts, rows, rowLen, r, c), ClaimCell(claim, gamma, CellNumber(r, rowLen, c)))
  }

  lemma NothingFactored(ts: seq<Template>, rows: nat, rowLen: nat, claim: LinearClaim, gamma: Fp)
    requires Shaped(ts, rows, rowLen) && claim.len == 0
    ensures Factored(ts, ts, rows, rowLen, claim, gamma)
  {
    hide TemplatesCell;
    forall r: nat, c: nat | c < rowLen
      ensures TemplatesCell(ts, rows, rowLen, r, c)
           == Add(TemplatesCell(ts, rows, rowLen, r, c), ClaimCell(claim, gamma, CellNumber(r, rowLen, c)))
    {
      Units(TemplatesCell(ts, rows, rowLen, r, c));
    }
  }

  lemma BlocksBound(len: nat, rowLen: nat, b: nat)
    requires rowLen > 0
    ensures b < DivCeil(len, rowLen) ==> CellNumber(b, rowLen, 0) < len
    ensures b >= DivCeil(len, rowLen) ==> CellNumber(b, rowLen, 0) >= len
  {
    var q, r := (len + rowLen - 1) / rowLen, (len + rowLen - 1) % rowLen;
    assert len + rowLen - 1 == q * rowLen + r;
    if b < q {
      ProductMono(b + 1, q, rowLen);
      assert (b + 1) * rowLen == b * rowLen + rowLen;
    } else {
      ProductMono(q, b, rowLen);
    }
  }

  /** Enough high digits for every block. */
  lemma BlocksFit(len: nat, k: nat, n: nat)
    requires len <= Pow2(n) && k <= n
    ensures DivCeil(len, Pow2(k)) <= Pow2(n - k)
  {
    Pow2Add(n - k, k);
    BlocksBound(len, Pow2(k), Pow2(n - k));
  }

  lemma RowsBound(rows: nat, rowLen: nat, base: nat, shift: nat, b: nat, valid: nat, offset: nat)
    requires shift < rowLen && valid >= 1 && offset == CellNumber(base, rowLen, shift)
    requires offset + CellNumber(b, rowLen, 0) + valid <= CellNumber(rows, rowLen, 0)
    ensures base + b < rows
    ensures valid > InFirstRow(rowLen, shift, valid) ==> base + b + 1 < rows
  {
    assert (base + b) * rowLen == base * rowLen + b * rowLen;
    assert (base + b + 1) * rowLen == (base + b) * rowLen + rowLen;
    if rows <= base + b {
      ProductMono(rows, base + b, rowLen);
    } else if rows <= base + b + 1 {
      ProductMono(rows, base + b + 1, rowLen);
    }
  }

  lemma BlockFactored(
    ts: seq<Template>, before: seq<Template>, middle: seq<Template>, out: seq<Template>, rows: nat, claim: LinearClaim,
    gamma: Fp, k: nat, b: nat, base: nat, shift: nat, valid: nat)
    requires k <= |claim.point| && shift < Pow2(k) && valid <= Pow2(k) && claim.offset == CellNumber(base, Pow2(k), shift)
    requires Shaped(ts, rows, Pow2(k)) && Shaped(before, rows, Pow2(k))
    requires Shaped(middle, rows, Pow2(k)) && Shaped(out, rows, Pow2(k))
    requires Factored(ts, before, rows, Pow2(k), claim.(len := CellNumber(b, Pow2(k), 0)), gamma)
    requires
      var low, scale := EqVec(claim.point[..k]), Mul(gamma, PrefixEq(b, claim.point[k..]));
      var first := InFirstRow(Pow2(k), shift, valid);
      && Deposited(before, middle, rows, Pow2(k), FirstPart(low, shift, first), base + b, scale)
      && (valid > first ==>
            Deposited(middle, out, rows, Pow2(k), SecondPart(low, shift, valid - first), base + b + 1, scale))
      && (valid <= first ==> out == middle)
    ensures Factored(ts, out, rows, Pow2(k), claim.(len := CellNumber(b, Pow2(k), 0) + valid), gamma)
  {
    var low, scale := EqVec(claim.point[..k]), Mul(gamma, PrefixEq(b, claim.point[k..]));
    var first := InFirstRow(Pow2(k), shift, valid);
    hide TemplatesCell, ClaimCell, CellNumber, Pow2, PrefixEq, FirstPart, SecondPart;
    forall r: nat, c: nat | c < Pow2(k)
      ensures TemplatesCell(out, rows, Pow2(k), r, c)
           == Add(TemplatesCell(ts, rows, Pow2(k), r, c),
                  ClaimCell(claim.(len := CellNumber(b, Pow2(k), 0) + valid), gamma, CellNumber(r, Pow2(k), c)))
    {
      BlockCell(claim, gamma, k, b, base, shift, valid, r, c);
      var x, y := TemplatesCell(ts, rows, Pow2(k), r, c),
                  ClaimCell(claim.(len := CellNumber(b, Pow2(k), 0)), gamma, CellNumber(r, Pow2(k), c));
      var d := Deposit(FirstPart(low, shift, first), base + b, scale, r, c);
      var e := if valid > first then Deposit(SecondPart(low, shift, valid - first), base + b + 1, scale, r, c) else 0;
      assert TemplatesCell(middle, rows, Pow2(k), r, c) == Add(Add(x, y), d);
      Units(Add(Add(x, y), d));
      assert TemplatesCell(out, rows, Pow2(k), r, c) == Add(Add(Add(x, y), d), e);
      Regroup(x, y, d, e);
    }
  }

  lemma Regroup(x: Fp, y: Fp, d: Fp, e: Fp)
    ensures Add(Add(Add(x, y), d), e)
       == Add(x, Add(y, Add(d, e)))
  {
    Same(ZAdd(ZAdd(ZAdd(x, y), d), e),
         ZAdd(x, ZAdd(y, ZAdd(d, e))));
    hide *;
    Ring(x, y, d, e);
  }

  /** One block: its first part and, if the shift splits it, its second part. */
  method FactorBlock(
    k: nat, ghost rows: nat, claim: LinearClaim, gamma: Fp, low: Vec, scale: Fp, block: nat, baseRow: nat, shift: nat,
    valid: nat, ghost ts: seq<Template>, before: seq<Template>) returns (out: seq<Template>)
    requires k <= |claim.point| && low == EqVec(claim.point[..k])
    requires scale == Mul(gamma, PrefixEq(block, claim.point[k..]))
    requires shift < Pow2(k) && 1 <= valid <= Pow2(k) && claim.offset == CellNumber(baseRow, Pow2(k), shift)
    requires claim.offset + CellNumber(block, Pow2(k), 0) + valid <= CellNumber(rows, Pow2(k), 0)
    requires Shaped(ts, rows, Pow2(k)) && Shaped(before, rows, Pow2(k))
    requires Factored(ts, before, rows, Pow2(k), claim.(len := CellNumber(block, Pow2(k), 0)), gamma)
    ensures Shaped(out, rows, Pow2(k))
    ensures Factored(ts, out, rows, Pow2(k), claim.(len := CellNumber(block, Pow2(k), 0) + valid), gamma)
  {
    hide Factored, Deposited, CellNumber, Pow2, PrefixEq, FirstPart, SecondPart;
    RowsBound(rows, |low|, baseRow, shift, block, valid, claim.offset);
    var firstLen := InFirstRow(|low|, shift, valid);
    out := before;
    if firstLen > 0 {
      var first := FirstPart(low, shift, firstLen);
      out := AddClaimWeightTemplate(out, first, baseRow + block, scale, rows, |low|);
    }
    ghost var middle := out;
    if valid > firstLen {
      var second := SecondPart(low, shift, valid - firstLen);
      out := AddClaimWeightTemplate(out, second, baseRow + block + 1, scale, rows, |low|);
    }
    BlockFactored(ts, before, middle, out, rows, claim, gamma, k, block, baseRow, shift, valid);
  }

  /** The block loop; the last block may be partial. */
  method FactorBlocks(
    k: nat, ghost rows: nat, claim: LinearClaim, gamma: Fp, low: Vec, high: Vec, baseRow: nat, shift: nat,
    templates: seq<Template>) returns (out: seq<Template>)
    requires k <= |claim.point| && low == EqVec(claim.point[..k]) && high == EqVec(claim.point[k..])
    requires shift < Pow2(k) && claim.offset == CellNumber(baseRow, Pow2(k), shift)
    requires claim.len >= 1 && claim.offset + claim.len <= CellNumber(rows, Pow2(k), 0)
    requires DivCeil(claim.len, Pow2(k)) <= |high| && Shaped(templates, rows, Pow2(k))
    ensures Shaped(out, rows, Pow2(k)) && Factored(templates, out, rows, Pow2(k), claim, gamma)
  {
    hide Factored, CellNumber, DivCeil, PrefixEq, Shaped, Pow2;
    var rowLen := |low|;
    out := templates;
    NothingFactored(templates, rows, rowLen, claim.(len := 0), gamma);
    NextStart(0, rowLen);
    BlocksBound(claim.len, rowLen, 0);
    ghost var doneLen: nat := 0;
    for block := 0 to DivCeil(claim.len, rowLen)
      invariant Shaped(out, rows, rowLen)
      invariant block < DivCeil(claim.len, rowLen) ==> doneLen == CellNumber(block, rowLen, 0)
      invariant block == DivCeil(claim.len, rowLen) ==> doneLen == claim.len
      invariant Factored(templates, out, rows, rowLen, claim.(len := doneLen), gamma)
    {
      BlocksBound(claim.len, rowLen, block);
      BlocksBound(claim.len, rowLen, block + 1);
      NextStart(block, rowLen);
      var start := CellNumber(block, rowLen, 0);
      var valid := Covered(rowLen, claim.len, start);
      out := FactorBlock(k, rows, claim, gamma, low, Mul(gamma, high[block]), block, baseRow, shift, valid, templates, out);
      doneLen := start + valid;
    }
    assert claim.(len := doneLen) == claim;
  }

  lemma FactorSetup(rowLen: nat, rows: nat, claim: LinearClaim, k: nat)
    requires rowLen == Pow2(k) && k <= |claim.point| && ValidateLinearClaim(rowLen, rows, claim).Ok?
    ensures claim.offset == CellNumber(claim.offset / rowLen, rowLen, claim.offset % rowLen)
    ensures claim.offset + claim.len <= CellNumber(rows, rowLen, 0)
    ensures DivCeil(claim.len, rowLen) <= Pow2(|claim.point| - k) && claim.len >= 1
  {
    CeilLogBounds(claim.len);
    BlocksFit(claim.len, k, |claim.point|);
    OffsetParts(claim.offset, rowLen);
  }

  method FactorClaimWeights(
    rowLen: nat, ghost rows: nat, claim: LinearClaim, gamma: Fp, templates: seq<Template>) returns (out: seq<Template>)
    requires rowLen == Pow2(CeilLog(rowLen)) && CeilLog(rowLen) <= |claim.point|
    requires ValidateLinearClaim(rowLen, rows, claim).Ok? && Shaped(templates, rows, rowLen)
    ensures Shaped(out, rows, rowLen) && Factored(templates, out, rows, rowLen, claim, gamma)
  {
    hide Factored, DivCeil, PrefixEq, Shaped, Pow2, CeilLog, CellNumber, ValidateLinearClaim;
    var rowLog := CeilLog(rowLen);
    var low := EqTensor(claim.point[..rowLog]);
    var high := EqTensor(claim.point[rowLog..]);
    var baseRow, shift := claim.offset / rowLen, claim.offset % rowLen;
    FactorSetup(rowLen, rows, claim, rowLog);
    out := FactorBlocks(rowLog, rows, claim, gamma, low, high, baseRow, shift, templates);
  }

  lemma OffsetParts(offset: nat, rowLen: nat)
    requires rowLen > 0
    ensures offset == CellNumber(offset / rowLen, rowLen, offset % rowLen)
  {
  }

  lemma NextStart(b: nat, rowLen: nat)
    ensures CellNumber(b + 1, rowLen, 0) == CellNumber(b, rowLen, 0) + rowLen
    ensures CellNumber(0, rowLen, 0) == 0
  {
    assert (b + 1) * rowLen == b * rowLen + rowLen;
  }

  // ----- the plan -----

  function ResidualCell(list: seq<RowWeights>, rowLen: nat, row: nat, c: nat): Fp
    requires ListShaped(list, rowLen) && c < rowLen
  {
    if list == [] then 0
    else
      var k := |list| - 1;
      Add(ResidualCell(list[..k], rowLen, row, c), if list[k].row == row then list[k].weights[c] else 0)
  }

  predicate ListShaped(list: seq<RowWeights>, rowLen: nat)
  {
    forall k :: 0 <= k < |list| ==> |list[k].weights| == rowLen
  }

  predicate PlanShaped(plan: WeightPlan, rows: nat, rowLen: nat)
  {
    && ListShaped(plan.residualRows, rowLen)
    && (forall k :: 0 <= k < |plan.residualRows| ==> plan.residualRows[k].row < rows)
    && Shaped(plan.templates, rows, rowLen)
  }

  /** The weights a plan puts on a row: its residual plus all scaled templates. */
  function PlanRow(plan: WeightPlan, rows: nat, rowLen: nat, row: nat): (w: Vec)
    requires PlanShaped(plan, rows, rowLen)
    ensures |w| == rowLen
  {
    seq(rowLen, c requires 0 <= c < rowLen =>
      Add(ResidualCell(plan.residualRows, rowLen, row, c), TemplatesCell(plan.templates, rows, rowLen, row, c)))
  }

  lemma NonzeroStep(m: seq<Vec>, n: nat)
    requires |m| == n + 1
    ensures NonzeroRows(m) == NonzeroRows(m[..n]) + if m[n] == Zeros(|m[n]|) then [] else [RowWeights(n, m[n])]
  {
    if !Nonzero(m[n]) {
      assert m[n] == Zeros(|m[n]|);
    } else {
      var i :| 0 <= i < |m[n]| && m[n][i] != 0;
      assert Zeros(|m[n]|)[i] == 0;
    }
  }

  lemma ResidualSnoc(l: seq<RowWeights>, x: RowWeights, rowLen: nat, row: nat, c: nat)
    requires ListShaped(l, rowLen) && |x.weights| == rowLen && c < rowLen
    ensures ListShaped(l + [x], rowLen)
    ensures ResidualCell(l + [x], rowLen, row, c)
         == Add(ResidualCell(l, rowLen, row, c), if x.row == row then x.weights[c] else 0)
  {
    assert (l + [x])[..|l|] == l;
  }

  lemma {:induction false} ResidualOfNonzero(m: seq<Vec>, rows: nat, rowLen: nat, row: nat, c: nat)
    requires Matrix(m, rows, rowLen) && c < rowLen
    ensures ListShaped(NonzeroRows(m), rowLen)
    ensures ResidualCell(NonzeroRows(m), rowLen, row, c) == if row < rows then m[row][c] else 0
    decreases rows
  {
    if rows > 0 {
      var n := rows - 1;
      ResidualOfNonzero(m[..n], n, rowLen, row, c);
      NonzeroStep(m, n);
      var l := NonzeroRows(m[..n]);
      hide NonzeroRows, ResidualCell;
      ResidualSnoc(l, RowWeights(n, m[n]), rowLen, row, c);
      Units(m[n][c]);
      Units(ResidualCell(l, rowLen, row, c));
      assert l + [] == l;
    }
  }

  lemma ThreeRows(rowLen: nat)
    ensures CellNumber(3, rowLen, 0) == 3 * rowLen
  {
  }

  lemma LongSpan(within: nat, len: nat, rowLen: nat)
    requires within < rowLen && DivCeil(within + len, rowLen) > 3
    ensures len > rowLen
  {
    hide DivCeil, CellNumber;
    BlocksBound(within + len, rowLen, 3);
    ThreeRows(rowLen);
  }

  lemma LongClaim(claim: LinearClaim, rowLen: nat)
    requires rowLen > 0 && DivCeil(claim.offset % rowLen + claim.len, rowLen) >= STRUCTURED_CLAIM_MIN_ROWS
    requires |claim.point| == CeilLog(claim.len) && rowLen == Pow2(CeilLog(rowLen))
    ensures CeilLog(rowLen) <= |claim.point|
  {
    hide DivCeil, Pow2, CeilLog;
    LongSpan(claim.offset % rowLen, claim.len, rowLen);
    CeilLogBounds(claim.len);
    if CeilLog(rowLen) > |claim.point| {
      Pow2Mono(|claim.point|, CeilLog(rowLen));
    }
  }

  /** Residual matrix and templates together carry the first k claims. */
  ghost predicate Carried(
    m: seq<Vec>, ts: seq<Template>, rows: nat, rowLen: nat, claims: seq<LinearClaim>, gamma: Vec)
    requires rowLen > 0 && Matrix(m, rows, rowLen) && Shaped(ts, rows, rowLen) && |claims| == |gamma|
  {
    forall g :: 0 <= g < rows * rowLen ==> CarriedAt(m, ts, rows, rowLen, g) == CellSum(claims, gamma, g)
  }

  function CarriedAt(m: seq<Vec>, ts: seq<Template>, rows: nat, rowLen: nat, g: nat): Fp
    requires rowLen > 0 && Matrix(m, rows, rowLen) && Shaped(ts, rows, rowLen) && g < rows * rowLen
  {
    CellInside(g, rows, rowLen);
    Add(CellAt(m, rows, rowLen, g), TemplatesCell(ts, rows, rowLen, RowOf(g, rowLen), ColumnOf(g, rowLen)))
  }

  lemma CarryFactored(
    m: seq<Vec>, ts: seq<Template>, out: seq<Template>, rows: nat, rowLen: nat, claims: seq<LinearClaim>, gamma: Vec, k: nat)
    requires rowLen > 0 && Matrix(m, rows, rowLen) && Shaped(ts, rows, rowLen) && Shaped(out, rows, rowLen)
    requires k < |claims| == |gamma| && Carried(m, ts, rows, rowLen, claims[..k], gamma[..k])
    requires Factored(ts, out, rows, rowLen, claims[k], gamma[k])
    ensures Carried(m, out, rows, rowLen, claims[..k + 1], gamma[..k + 1])
  {
    hide CellAt, RowOf, ColumnOf, CellNumber, TemplatesCell, CellSum, ClaimCell;
    forall g | 0 <= g < rows * rowLen
      ensures CarriedAt(m, out, rows, rowLen, g) == CellSum(claims[..k + 1], gamma[..k + 1], g)
    {
      CellInside(g, rows, rowLen);
      CellSumSnoc(claims, gamma, k, g);
      assert CarriedAt(m, ts, rows, rowLen, g) == CellSum(claims[..k], gamma[..k], g);
      AddAssoc(CellAt(m, rows, rowLen, g), TemplatesCell(ts, rows, rowLen, RowOf(g, rowLen), ColumnOf(g, rowLen)),
               ClaimCell(claims[k], gamma[k], g));
    }
  }

  lemma CarryScattered(
    m: seq<Vec>, out: seq<Vec>, ts: seq<Template>, rows: nat, rowLen: nat, claims: seq<LinearClaim>, gamma: Vec, k: nat)
    requires rowLen > 0 && Matrix(m, rows, rowLen) && Matrix(out, rows, rowLen) && Shaped(ts, rows, rowLen)
    requires k < |claims| == |gamma| && Carried(m, ts, rows, rowLen, claims[..k], gamma[..k])
    requires forall g :: 0 <= g < rows * rowLen ==>
               CellAt(out, rows, rowLen, g) == Add(CellAt(m, rows, rowLen, g), ClaimCell(claims[k], gamma[k], g))
    ensures Carried(out, ts, rows, rowLen, claims[..k + 1], gamma[..k + 1])
  {
    hide CellAt, RowOf, ColumnOf, CellNumber, TemplatesCell, CellSum, ClaimCell;
    forall g | 0 <= g < rows * rowLen
      ensures CarriedAt(out, ts, rows, rowLen, g) == CellSum(claims[..k + 1], gamma[..k + 1], g)
    {
      CellInside(g, rows, rowLen);
      CellSumSnoc(claims, gamma, k, g);
      assert CarriedAt(m, ts, rows, rowLen, g) == CellSum(claims[..k], gamma[..k], g);
      AddSwapLast(CellAt(m, rows, rowLen, g), TemplatesCell(ts, rows, rowLen, RowOf(g, rowLen), ColumnOf(g, rowLen)),
               ClaimCell(claims[k], gamma[k], g));
    }
  }

  lemma PlanIsDense(
    m: seq<Vec>, ts: seq<Template>, rows: nat, rowLen: nat, claims: seq<LinearClaim>, gamma: Vec, row: nat)
    requires rowLen > 0 && Matrix(m, rows, rowLen) && Shaped(ts, rows, rowLen) && |claims| == |gamma|
    requires Carried(m, ts, rows, rowLen, claims, gamma) && row < rows
    ensures PlanShaped(WeightPlan(NonzeroRows(m), ts), rows, rowLen)
    ensures PlanRow(WeightPlan(NonzeroRows(m), ts), rows, rowLen, row) == DenseRow(claims, gamma, rowLen, row)
  {
    hide CellAt, RowOf, ColumnOf, CellNumber, TemplatesCell, CellSum, ResidualCell;
    ResidualOfNonzero(m, rows, rowLen, row, 0);
    var plan := WeightPlan(NonzeroRows(m), ts);
    forall c | 0 <= c < rowLen ensures PlanRow(plan, rows, rowLen, row)[c] == DenseRow(claims, gamma, rowLen, row)[c] {
      ResidualOfNonzero(m, rows, rowLen, row, c);
      CellPlace(row, c, rows, rowLen);
      CellValue(m, rows, rowLen, CellNumber(row, rowLen, c));
      assert CarriedAt(m, ts, rows, rowLen, CellNumber(row, rowLen, c)) == CellSum(claims, gamma, CellNumber(row, rowLen, c));
    }
  }

  predicate AllBits(point: Vec) { forall i :: 0 <= i < |point| ==> point[i] == 0 || point[i] == 1 }

  /** Structured or not, every row of the plan is the dense row. */
  method ClaimWeightPlan(
    params: LigeroParams, committedRows: nat, claims: seq<LinearClaim>, gamma: Vec, structured: bool)
    returns (r: Result<WeightPlan, LigeroError>)
    requires params.rowLen > 0 && |claims| == |gamma|
    ensures !AllValid(params.rowLen, committedRows, claims) ==> r == Err(LigeroError.WrongPointLength)
    ensures AllValid(params.rowLen, committedRows, claims) ==>
              && r.Ok? && PlanShaped(r.value, committedRows, params.rowLen)
              && forall row :: 0 <= row < committedRows ==>
                   PlanRow(r.value, committedRows, params.rowLen, row) == DenseRow(claims, gamma, params.rowLen, row)
  {
    hide CellAt, CellSum, ClaimCell, Carried, Factored, TemplatesCell, ResidualCell, PlanRow, DivCeil, CeilLog, Pow2,
         DenseRow;
    var rows, rowLen := committedRows, params.rowLen;
    var m: seq<Vec> := seq(rows, _ => Zeros(rowLen));
    var templates: seq<Template> := [];
    ZeroMatrix(m, rows, rowLen);
    CarryNothing(m, rows, rowLen);
    for k := 0 to |claims|
      invariant Matrix(m, rows, rowLen) && Shaped(templates, rows, rowLen)
      invariant Carried(m, templates, rows, rowLen, claims[..k], gamma[..k])
      invariant AllValid(rowLen, rows, claims[..k])
    {
      var claim := claims[k];
      if ValidateLinearClaim(rowLen, rows, claim).Err? {
        assert !AllValid(rowLen, rows, claims);
        return Err(LigeroError.WrongPointLength);
      }
      var rowSpan := DivCeil(claim.offset % rowLen + claim.len, rowLen);
      var factor :=
        structured && params.code == Circle && PowerOfTwoLength(rowLen) && rowSpan >= STRUCTURED_CLAIM_MIN_ROWS
        && !AllBits(claim.point);
      if factor {
        LongClaim(claim, rowLen);
        var ts := FactorClaimWeights(rowLen, rows, claim, gamma[k], templates);
        CarryFactored(m, templates, ts, rows, rowLen, claims, gamma, k);
        templates := ts;
      } else {
        var next := ScatterClaim(m, rows, rowLen, claim, gamma[k]);
        CarryScattered(m, next, templates, rows, rowLen, claims, gamma, k);
        m := next;
      }
    }
    assert claims[..|claims|] == claims && gamma[..|gamma|] == gamma;
    var plan := WeightPlan(NonzeroRows(m), templates);
    ResidualShape(m, rows, rowLen);
    forall row | 0 <= row < rows ensures PlanRow(plan, rows, rowLen, row) == DenseRow(claims, gamma, rowLen, row) {
      PlanIsDense(m, templates, rows, rowLen, claims, gamma, row);
    }
    r := Ok(plan);
  }

  predicate PowerOfTwoLength(n: nat) { n == Pow2(CeilLog(n)) }

  lemma {:induction false} ResidualShape(m: seq<Vec>, rows: nat, rowLen: nat)
    requires Matrix(m, rows, rowLen)
    ensures ListShaped(NonzeroRows(m), rowLen)
    decreases rows
  {
    if rows > 0 { ResidualShape(m[..rows - 1], rows - 1, rowLen); }
  }

  lemma CarryNothing(m: seq<Vec>, rows: nat, rowLen: nat)
    requires rowLen > 0 && Matrix(m, rows, rowLen) && Holds(m, rows, rowLen, [], [])
    ensures Carried(m, [], rows, rowLen, [], [])
  {
    hide CellAt, RowOf, ColumnOf;
    forall g | 0 <= g < rows * rowLen ensures CarriedAt(m, [], rows, rowLen, g) == 0 {
      CellInside(g, rows, rowLen);
      assert CellAt(m, rows, rowLen, g) == CellSum([], [], g);
      Units(0);
    }
  }

  // ----- a plan and the dense rows under a linear functional -----

  /** The functional with coefficients `at` applied to every row, against a column. */
  function RowsCombined(m: seq<Vec>, rowLen: nat, at: Vec, column: Vec): Fp
    requires Matrix(m, |m|, rowLen) && |at| == rowLen && |m| <= |column|
  {
    if m == [] then 0
    else
      var n := |m| - 1;
      Add(RowsCombined(m[..n], rowLen, at, column), Mul(Dot(m[n], at), column[n]))
  }

  predicate ListBelow(list: seq<RowWeights>, n: nat) { forall k :: 0 <= k < |list| ==> list[k].row < n }

  function ListCombined(list: seq<RowWeights>, rowLen: nat, at: Vec, column: Vec): Fp
    requires ListShaped(list, rowLen) && |at| == rowLen && ListBelow(list, |column|)
  {
    if list == [] then 0
    else
      var k := |list| - 1;
      Add(ListCombined(list[..k], rowLen, at, column), Mul(Dot(list[k].weights, at), column[list[k].row]))
  }

  function Opened(rs: seq<RowScale>, column: Vec): Fp
    requires forall i :: 0 <= i < |rs| ==> rs[i].row < |column|
  {
    if rs == [] then 0
    else
      var k := |rs| - 1;
      Add(Opened(rs[..k], column), Mul(rs[k].scale, column[rs[k].row]))
  }

  function TemplatesCombined(ts: seq<Template>, rowLen: nat, at: Vec, column: Vec): Fp
    requires Shaped(ts, |column|, rowLen) && |at| == rowLen
  {
    if ts == [] then 0
    else
      var k := |ts| - 1;
      Add(TemplatesCombined(ts[..k], rowLen, at, column), Mul(Dot(ts[k].values, at), Opened(ts[k].rowScales, column)))
  }

  function AddRows(a: seq<Vec>, b: seq<Vec>, rows: nat, rowLen: nat): (m: seq<Vec>)
    requires Matrix(a, rows, rowLen) && Matrix(b, rows, rowLen)
    ensures Matrix(m, rows, rowLen)
  {
    seq(rows, r requires 0 <= r < rows => VAdd(a[r], b[r]))
  }

  lemma {:induction false} AddRowsCombined(a: seq<Vec>, b: seq<Vec>, rows: nat, rowLen: nat, at: Vec, column: Vec)
    requires Matrix(a, rows, rowLen) && Matrix(b, rows, rowLen) && |at| == rowLen && rows <= |column|
    ensures RowsCombined(AddRows(a, b, rows, rowLen), rowLen, at, column)
         == Add(RowsCombined(a, rowLen, at, column), RowsCombined(b, rowLen, at, column))
    decreases rows
  {
    if rows == 0 {
      Units(0);
    } else {
      var n := rows - 1;
      AddRowsCombined(a[..n], b[..n], n, rowLen, at, column);
      var m := AddRows(a, b, rows, rowLen);
      assert m[..n] == AddRows(a[..n], b[..n], n, rowLen);
      DotAdd(a[n], b[n], at);
      AddStep(RowsCombined(a[..n], rowLen, at, column), RowsCombined(b[..n], rowLen, at, column),
                 Dot(a[n], at), Dot(b[n], at), column[n]);
    }
  }

  /** The matrix that is scale times values in one row and zero elsewhere. */
  function OneRow(values: Vec, row: nat, scale: Fp, rows: nat): (m: seq<Vec>)
    ensures Matrix(m, rows, |values|)
  {
    seq(rows, r requires 0 <= r => OneRowAt(values, row, scale, r))
  }

  function OneRowAt(values: Vec, row: nat, scale: Fp, r: nat): (w: Vec)
    ensures |w| == |values|
    ensures forall c :: 0 <= c < |values| ==> w[c] == Deposit(values, row, scale, r, c)
  {
    if r == row then Scale(scale, values) else Zeros(|values|)
  }

  lemma {:induction false} OneRowCombined(values: Vec, row: nat, scale: Fp, rows: nat, at: Vec, column: Vec)
    requires |at| == |values| && rows <= |column|
    ensures RowsCombined(OneRow(values, row, scale, rows), |values|, at, column)
         == if row < rows then Mul(Mul(scale, Dot(values, at)), column[row]) else 0
    decreases rows
  {
    if rows > 0 {
      var n := rows - 1;
      OneRowCombined(values, row, scale, n, at, column);
      assert OneRow(values, row, scale, rows)[..n] == OneRow(values, row, scale, n);
      DotScale(scale, values, at);
      DotZeros(at);
      Units(column[n]);
      Units(Mul(Mul(scale, Dot(values, at)), column[n]));
      if row < n { Units(Mul(Mul(scale, Dot(values, at)), column[row])); }
      Units(0);
    }
  }

  function ResidualMatrix(list: seq<RowWeights>, rows: nat, rowLen: nat): (m: seq<Vec>)
    requires ListShaped(list, rowLen)
    ensures Matrix(m, rows, rowLen)
  {
    seq(rows, r requires 0 <= r => seq(rowLen, c requires 0 <= c < rowLen => ResidualCell(list, rowLen, r, c)))
  }

  lemma {:induction false} ZeroRowsCombined(m: seq<Vec>, rowLen: nat, at: Vec, column: Vec)
    requires Matrix(m, |m|, rowLen) && |at| == rowLen && |m| <= |column|
    requires forall r :: 0 <= r < |m| ==> m[r] == Zeros(rowLen)
    ensures RowsCombined(m, rowLen, at, column) == 0
    decreases |m|
  {
    if m != [] {
      ZeroRowsCombined(m[..|m| - 1], rowLen, at, column);
      DotZeros(at);
      Units(column[|m| - 1]);
      Units(0);
    }
  }

  lemma {:induction false} ResidualCombined(list: seq<RowWeights>, rows: nat, rowLen: nat, at: Vec, column: Vec)
    requires ListShaped(list, rowLen) && ListBelow(list, rows) && |at| == rowLen && rows <= |column|
    ensures ListCombined(list, rowLen, at, column) == RowsCombined(ResidualMatrix(list, rows, rowLen), rowLen, at, column)
  {
    var m := ResidualMatrix(list, rows, rowLen);
    if list == [] {
      forall r | 0 <= r < rows ensures m[r] == Zeros(rowLen) {}
      ZeroRowsCombined(m, rowLen, at, column);
    } else {
      var k := |list| - 1;
      var before := ResidualMatrix(list[..k], rows, rowLen);
      var one := OneRow(list[k].weights, list[k].row, 1, rows);
      ResidualCombined(list[..k], rows, rowLen, at, column);
      forall r | 0 <= r < rows ensures m[r] == AddRows(before, one, rows, rowLen)[r] {
        forall c | 0 <= c < rowLen ensures m[r][c] == Add(before[r][c], one[r][c]) {
          Units(list[k].weights[c]);
        }
      }
      assert m == AddRows(before, one, rows, rowLen);
      AddRowsCombined(before, one, rows, rowLen, at, column);
      OneRowCombined(list[k].weights, list[k].row, 1, rows, at, column);
      Units(Dot(list[k].weights, at));
    }
  }

  function TemplateMatrix(t: Template, rows: nat): (m: seq<Vec>)
    ensures Matrix(m, rows, |t.values|)
  {
    seq(rows, r requires 0 <= r => seq(|t.values|, c requires 0 <= c < |t.values| => TemplateCell(t, r, c)))
  }

  lemma ScaleOut(s: Fp, d: Fp, c: Fp)
    ensures Mul(Mul(s, d), c)
       == Mul(d, Mul(s, c))
  {
    Same(ZMul(ZMul(s, d), c),
         ZMul(d, ZMul(s, c)));
    hide *;
    Ring(s, d, c);
  }

  lemma {:induction false} TemplateCombined(t: Template, rows: nat, at: Vec, column: Vec)
    requires |at| == |t.values| && rows <= |column|
    requires forall i :: 0 <= i < |t.rowScales| ==> t.rowScales[i].row < rows
    ensures RowsCombined(TemplateMatrix(t, rows), |at|, at, column) == Mul(Dot(t.values, at), Opened(t.rowScales, column))
    decreases |t.rowScales|
  {
    var m := TemplateMatrix(t, rows);
    if t.rowScales == [] {
      forall r | 0 <= r < rows ensures m[r] == Zeros(|at|) {
        forall c | 0 <= c < |at| ensures m[r][c] == 0 { Units(t.values[c]); }
      }
      ZeroRowsCombined(m, |at|, at, column);
      Units(Dot(t.values, at));
    } else {
      var k := |t.rowScales| - 1;
      var last := t.rowScales[k];
      var init := Template(t.values, t.rowScales[..k]);
      var before := TemplateMatrix(init, rows);
      var one := OneRow(t.values, last.row, last.scale, rows);
      TemplateCombined(init, rows, at, column);
      forall r | 0 <= r < rows ensures m[r] == AddRows(before, one, rows, |at|)[r] {
        forall c | 0 <= c < |at| ensures m[r][c] == Add(before[r][c], one[r][c]) {
          TemplateGrows(init, t, last.row, last.scale, r, c);
        }
      }
      assert m == AddRows(before, one, rows, |at|);
      AddRowsCombined(before, one, rows, |at|, at, column);
      OneRowCombined(t.values, last.row, last.scale, rows, at, column);
      ScaleOut(last.scale, Dot(t.values, at), column[last.row]);
      Distrib(Dot(t.values, at), Opened(init.rowScales, column), Mul(last.scale, column[last.row]));
    }
  }

  function TemplatesMatrix(ts: seq<Template>, rows: nat, rowLen: nat): (m: seq<Vec>)
    requires Shaped(ts, rows, rowLen)
    ensures Matrix(m, rows, rowLen)
  {
    seq(rows, r requires 0 <= r => seq(rowLen, c requires 0 <= c < rowLen => TemplatesCell(ts, rows, rowLen, r, c)))
  }

  lemma {:induction false} AllTemplatesCombined(ts: seq<Template>, rowLen: nat, at: Vec, column: Vec)
    requires Shaped(ts, |column|, rowLen) && |at| == rowLen
    ensures TemplatesCombined(ts, rowLen, at, column)
         == RowsCombined(TemplatesMatrix(ts, |column|, rowLen), rowLen, at, column)
  {
    hide TemplateCell;
    var rows := |column|;
    var m := TemplatesMatrix(ts, rows, rowLen);
    if ts == [] {
      forall r | 0 <= r < rows ensures m[r] == Zeros(rowLen) {}
      ZeroRowsCombined(m, rowLen, at, column);
    } else {
      var k := |ts| - 1;
      AllTemplatesCombined(ts[..k], rowLen, at, column);
      var before, one := TemplatesMatrix(ts[..k], rows, rowLen), TemplateMatrix(ts[k], rows);
      forall r | 0 <= r < rows ensures m[r] == AddRows(before, one, rows, rowLen)[r] {}
      assert m == AddRows(before, one, rows, rowLen);
      AddRowsCombined(before, one, rows, rowLen, at, column);
      TemplateCombined(ts[k], rows, at, column);
    }
  }

  /** A plan evaluates to what the dense rows evaluate to. */
  lemma PlanCombined(plan: WeightPlan, rowLen: nat, at: Vec, column: Vec, m: seq<Vec>)
    requires PlanShaped(plan, |column|, rowLen) && |at| == rowLen && Matrix(m, |column|, rowLen)
    requires forall r :: 0 <= r < |column| ==> m[r] == PlanRow(plan, |column|, rowLen, r)
    ensures ListBelow(plan.residualRows, |column|)
    ensures Add(ListCombined(plan.residualRows, rowLen, at, column), TemplatesCombined(plan.templates, rowLen, at, column))
         == RowsCombined(m, rowLen, at, column)
  {
    hide ResidualCell, TemplatesCell;
    var rows := |column|;
    var a, b := ResidualMatrix(plan.residualRows, rows, rowLen), TemplatesMatrix(plan.templates, rows, rowLen);
    forall r | 0 <= r < rows ensures m[r] == AddRows(a, b, rows, rowLen)[r] {}
    assert m == AddRows(a, b, rows, rowLen);
    ResidualCombined(plan.residualRows, rows, rowLen, at, column);
    AllTemplatesCombined(plan.templates, rowLen, at, column);
    AddRowsCombined(a, b, rows, rowLen, at, column);
  }

  lemma ListSnoc(l: seq<RowWeights>, x: RowWeights, rowLen: nat, at: Vec, column: Vec)
    requires ListShaped(l, rowLen) && |x.weights| == rowLen == |at| && ListBelow(l, |column|) && x.row < |column|
    ensures ListShaped(l + [x], rowLen) && ListBelow(l + [x], |column|)
    ensures ListCombined(l + [x], rowLen, at, column)
         == Add(ListCombined(l, rowLen, at, column), Mul(Dot(x.weights, at), column[x.row]))
  {
    assert (l + [x])[..|l|] == l;
  }

  /** Leaving out zero rows leaves out nothing. */
  lemma {:induction false} NonzeroCombined(m: seq<Vec>, rowLen: nat, at: Vec, column: Vec)
    requires Matrix(m, |m|, rowLen) && |at| == rowLen && |m| <= |column|
    ensures ListShaped(NonzeroRows(m), rowLen) && ListBelow(NonzeroRows(m), |column|)
    ensures ListCombined(NonzeroRows(m), rowLen, at, column) == RowsCombined(m, rowLen, at, column)
  {
    if m != [] {
      var n := |m| - 1;
      NonzeroCombined(m[..n], rowLen, at, column);
      NonzeroStep(m, n);
      var l := NonzeroRows(m[..n]);
      hide NonzeroRows, ListCombined, Dot;
      if m[n] == Zeros(rowLen) {
        assert l + [] == l;
        DotZeros(at);
        Units(column[n]);
        Units(RowsCombined(m[..n], rowLen, at, column));
      } else {
        ListSnoc(l, RowWeights(n, m[n]), rowLen, at, column);
      }
    }
  }
}
