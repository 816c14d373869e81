/** The Merkle tree over matrix columns (merkle.rs). The two hashes are functions handed in; binding is proved for ideal
    ones: injective, with leaves and inner nodes in separate domains. */
module Merkle {
  import opened Wrappers
  import opened Field

  type Digest = nat

  /** The tagged hashes of leaves (index and column) and of inner nodes. */
  datatype Hasher = Hasher(leaf: (nat, Vec) -> Digest, node: (Digest, Digest) -> Digest) {
    ghost predicate Ideal()
    {
      && (forall i: nat, c: Vec, j: nat, d: Vec :: leaf(i, c) == leaf(j, d) ==> i == j && c == d)
      && (forall a: Digest, b: Digest, c: Digest, d: Digest :: node(a, b) == node(c, d) ==> a == c && b == d)
      && (forall i: nat, c: Vec, a: Digest, b: Digest :: leaf(i, c) != node(a, b))
    }
  }

  datatype MerkleError = EmptyMatrix | RaggedMatrix | ColumnOutOfRange

  datatype Sibling = Sibling(hash: Digest, isRight: bool)

  datatype ColumnOpening = ColumnOpening(index: nat, column: Vec, path: seq<Sibling>)

  // ----- levels -----

  /** The parents of a level; the last node of an odd level is paired with itself. */
  function Parents(h: Hasher, level: seq<Digest>): (up: seq<Digest>)
    ensures |up| == (|level| + 1) / 2
  {
    seq((|level| + 1) / 2, j requires 0 <= j < (|level| + 1) / 2 =>
      h.node(level[2 * j], if 2 * j + 1 < |level| then level[2 * j + 1] else level[2 * j]))
  }

  ghost predicate IsTree(h: Hasher, columns: seq<Vec>, levels: seq<seq<Digest>>)
  {
    && levels != []
    && |levels[0]| == |columns|
    && (forall j :: 0 <= j < |columns| ==> levels[0][j] == h.leaf(j, columns[j]))
    && (forall l :: 0 < l < |levels| ==> levels[l] == Parents(h, levels[l - 1]))
    && (forall l :: 0 <= l < |levels| - 1 ==> |levels[l]| > 1)
    && |levels[|levels| - 1]| == 1
  }

  method BuildLevels(h: Hasher, leaves: seq<Digest>) returns (levels: seq<seq<Digest>>)
    requires leaves != []
    ensures levels != [] && levels[0] == leaves
    ensures forall l :: 0 < l < |levels| ==> levels[l] == Parents(h, levels[l - 1])
    ensures forall l :: 0 <= l < |levels| - 1 ==> |levels[l]| > 1
    ensures |levels[|levels| - 1]| == 1
  {
    var current := leaves;
    levels := [current];
    while |current| > 1
      invariant levels != [] && levels[0] == leaves && current == levels[|levels| - 1] && current != []
      invariant forall l :: 0 < l < |levels| ==> levels[l] == Parents(h, levels[l - 1])
      invariant forall l :: 0 <= l < |levels| - 1 ==> |levels[l]| > 1
      decreases |current|
    {
      var next: seq<Digest> := [];
      var start := 0;
      while start < |current|
        invariant start == 2 * |next| || (start == |current| + 1 == 2 * |next|)
        invariant start <= |current| + 1
        invariant |next| <= |Parents(h, current)| && next == Parents(h, current)[..|next|]
      {
        var right := if start + 1 < |current| then current[start + 1] else current[start];
        next := next + [h.node(current[start], right)];
        start := start + 2;
      }
      current := next;
      levels := levels + [current];
    }
  }

  /** Column j of the matrix. */
  function ColumnOf(rows: seq<Vec>, j: nat): (c: Vec)
    requires forall i :: 0 <= i < |rows| ==> j < |rows[i]|
    ensures |c| == |rows|
  {
    seq(|rows|, i requires 0 <= i < |rows| => rows[i][j])
  }

  predicate Rectangular(rows: seq<Vec>, width: nat) { forall i :: 0 <= i < |rows| ==> |rows[i]| == width }

  method CommitColumns(h: Hasher, rows: seq<Vec>) returns (r: Result<MerkleCommitment, MerkleError>)
    ensures rows == [] || rows[0] == [] ==> r == Err(EmptyMatrix)
    ensures rows != [] && rows[0] != [] && !Rectangular(rows, |rows[0]|) ==> r == Err(RaggedMatrix)
    ensures rows != [] && rows[0] != [] && Rectangular(rows, |rows[0]|) ==>
              && r.Ok? && r.value.Valid(h)
              && r.value.columns == seq(|rows[0]|, j requires 0 <= j < |rows[0]| => ColumnOf(rows, j))
  {
    if rows == [] || rows[0] == [] {
      return Err(EmptyMatrix);
    }
    var width := |rows[0]|;
    if exists i :: 0 <= i < |rows| && |rows[i]| != width {
      return Err(RaggedMatrix);
    }
    var columns: seq<Vec> := seq(width, _ => []);
    for i := 0 to |rows|
      invariant |columns| == width
      invariant forall j :: 0 <= j < width ==> columns[j] == ColumnOf(rows[..i], j)
    {
      ghost var before := columns;
      for j := 0 to width
        invariant |columns| == width
        invariant forall k :: 0 <= k < j ==> columns[k] == before[k] + [rows[i][k]]
        invariant forall k :: j <= k < width ==> columns[k] == before[k]
      {
        columns := columns[j := columns[j] + [rows[i][j]]];
      }
      forall j | 0 <= j < width ensures columns[j] == ColumnOf(rows[..i + 1], j) {
        assert ColumnOf(rows[..i + 1], j) == ColumnOf(rows[..i], j) + [rows[i][j]];
      }
    }
    assert rows[..|rows|] == rows;
    var leaves := seq(width, j requires 0 <= j < width => h.leaf(j, columns[j]));
    var levels := BuildLevels(h, leaves);
    r := Ok(MerkleCommitment(levels[|levels| - 1][0], columns, levels));
  }

  /** What the sibling of a node hashes to with it. */
  lemma StepUp(h: Hasher, columns: seq<Vec>, levels: seq<seq<Digest>>, l: nat, cursor: nat)
    requires IsTree(h, columns, levels) && l + 1 < |levels| && cursor < |levels[l]|
    ensures cursor / 2 < |levels[l + 1]|
    ensures var level := levels[l];
            levels[l + 1][cursor / 2] ==
            if cursor % 2 == 0 then h.node(level[cursor], if cursor + 1 < |level| then level[cursor + 1] else level[cursor])
            else h.node(level[cursor - 1], level[cursor])
  {
    assert levels[l + 1] == Parents(h, levels[l]);
    NodeAt(h, columns, levels, l + 1, cursor / 2);
  }

  datatype MerkleCommitment = MerkleCommitment(root: Digest, columns: seq<Vec>, levels: seq<seq<Digest>>) {
    ghost predicate Valid(h: Hasher)
    {
      columns != [] && IsTree(h, columns, levels) && root == levels[|levels| - 1][0]
    }

    method Open(h: Hasher, index: nat) returns (r: Result<ColumnOpening, MerkleError>)
      requires Valid(h)
      ensures index >= |columns| ==> r == Err(ColumnOutOfRange)
      ensures index < |columns| ==>
                && r.Ok? && r.value.index == index && r.value.column == columns[index]
                && Accepts(h, root, r.value)
    {
      if index >= |columns| {
        return Err(ColumnOutOfRange);
      }
      assert levels[0][index] == h.leaf(index, columns[index]);
      hide IsTree;
      var path: seq<Sibling> := [];
      var cursor: nat := index;
      for l := 0 to |levels| - 1
        invariant l < |levels| && cursor < |levels[l]|
        invariant Climb(h, h.leaf(index, columns[index]), path) == levels[l][cursor]
      {
        var level := levels[l];
        var siblingIndex := if cursor % 2 == 0 then cursor + 1 else cursor - 1;
        var sibling := if siblingIndex < |level| then level[siblingIndex] else level[cursor];
        StepUp(h, columns, levels, l, cursor);
        var step := Sibling(sibling, cursor % 2 == 0);
        assert (path + [step])[..|path|] == path;
        path := path + [step];
        cursor := cursor / 2;
      }
      r := Ok(ColumnOpening(index, columns[index], path));
    }
  }

  // ----- verification -----

  /** The hash reached from a leaf hash by a path. */
  function Climb(h: Hasher, start: Digest, path: seq<Sibling>): Digest
  {
    if path == [] then start
    else
      var n := |path| - 1;
      var below := Climb(h, start, path[..n]);
      if path[n].isRight then h.node(below, path[n].hash) else h.node(path[n].hash, below)
  }

  predicate Accepts(h: Hasher, root: Digest, opening: ColumnOpening)
  {
    Climb(h, h.leaf(opening.index, opening.column), opening.path) == root
  }

  method VerifyColumn(h: Hasher, root: Digest, opening: ColumnOpening) returns (ok: bool)
    ensures ok == Accepts(h, root, opening)
  {
    var hash := h.leaf(opening.index, opening.column);
    for i := 0 to |opening.path|
      invariant hash == Climb(h, h.leaf(opening.index, opening.column), opening.path[..i])
    {
      var sibling := opening.path[i];
      assert opening.path[..i + 1][..i] == opening.path[..i];
      hash := if sibling.isRight then h.node(hash, sibling.hash) else h.node(sibling.hash, hash);
    }
    assert opening.path[..|opening.path|] == opening.path;
    ok := hash == root;
  }

  lemma LeafAt(h: Hasher, columns: seq<Vec>, levels: seq<seq<Digest>>, j: nat)
    requires IsTree(h, columns, levels) && j < |levels[0]|
    ensures levels[0][j] == h.leaf(j, columns[j])
  {
  }

  lemma NodeAt(h: Hasher, columns: seq<Vec>, levels: seq<seq<Digest>>, l: nat, j: nat)
    requires IsTree(h, columns, levels) && 0 < l < |levels| && j < |levels[l]|
    ensures var below := levels[l - 1];
            && 2 * j < |below|
            && levels[l][j] == h.node(below[2 * j], if 2 * j + 1 < |below| then below[2 * j + 1] else below[2 * j])
  {
    assert levels[l] == Parents(h, levels[l - 1]);
  }

  /** A path from a leaf hash to any node of the tree starts at a committed leaf. */
  lemma {:induction false} PathStartsAtLeaf(
    h: Hasher, columns: seq<Vec>, levels: seq<seq<Digest>>, index: nat, column: Vec, path: seq<Sibling>, l: nat, j: nat)
    requires h.Ideal() && IsTree(h, columns, levels) && l < |levels| && j < |levels[l]|
    requires Climb(h, h.leaf(index, column), path) == levels[l][j]
    ensures index < |columns| && column == columns[index]
    decreases |path|
  {
    if l == 0 {
      LeafAt(h, columns, levels, j);
    } else {
      NodeAt(h, columns, levels, l, j);
    }
    if path != [] && l > 0 {
      var n := |path| - 1;
      var other := if 2 * j + 1 < |levels[l - 1]| then 2 * j + 1 else 2 * j;
      var child := if path[n].isRight then 2 * j else other;
      PathStartsAtLeaf(h, columns, levels, index, column, path[..n], l - 1, child);
    }
  }

  /** Binding: an accepted opening, whatever the length and the directions of its path, is of a committed column. */
  lemma Binding(h: Hasher, commitment: MerkleCommitment, opening: ColumnOpening)
    requires h.Ideal() && commitment.Valid(h)
    requires Accepts(h, commitment.root, opening)
    ensures opening.index < |commitment.columns| && opening.column == commitment.columns[opening.index]
  {
    PathStartsAtLeaf(h, commitment.columns, commitment.levels, opening.index, opening.column, opening.path,
                     |commitment.levels| - 1, 0);
  }
}
