/** The reference computation of an inclusion proof: rebuild the tree layer by layer from
    the full list of leaves. */
module MerkleRebuild {
  import opened Arith
  import opened Merkle
  import opened Wrappers

  /** `buildZeros` (merkle.ts:17-23). */
  method BuildZeros(h: Hash2) returns (zeros: seq<int>)
    ensures |zeros| == TREE_DEPTH + 1
    ensures forall l :: 0 <= l <= TREE_DEPTH ==> zeros[l] == Zeros(h, l)
  {
    zeros := [0];
    var i := 0;
    while i < TREE_DEPTH
      invariant 0 <= i <= TREE_DEPTH && |zeros| == i + 1
      invariant forall l :: 0 <= l <= i ==> zeros[l] == Zeros(h, l)
    {
      zeros := zeros + [h(zeros[i], zeros[i])];
      i := i + 1;
    }
  }

  /** A layer holds the nonzero-padded part of its level. */
  ghost predicate IsLayer(h: Hash2, leaves: seq<int>, layer: seq<int>, level: nat) {
    && |leaves| <= |layer| * Pow2(level) && |layer| >= 1
    && forall j :: 0 <= j < |layer| ==> layer[j] == Node(h, leaves, level, j)
  }

  /** Reading a layer with the zero default gives the node, at any position. */
  lemma LayerRead(h: Hash2, leaves: seq<int>, layer: seq<int>, level: nat, j: nat)
    requires IsLayer(h, leaves, layer, level)
    ensures (if j < |layer| then layer[j] else Zeros(h, level)) == Node(h, leaves, level, j)
  {
    if j >= |layer| {
      ScaleMonotone(|layer|, j, Pow2(level));
      NodeBeyond(h, leaves, level, j);
    }
  }

  lemma ScaleMonotone(a: int, b: int, q: int)
    requires a <= b && q >= 0
    ensures a * q <= b * q
  {
  }

  /** The inner loop: one layer up. */
  method NextLayer(h: Hash2, zeros: seq<int>, layer: seq<int>, level: nat, ghost leaves: seq<int>) returns (next: seq<int>)
    requires |zeros| == TREE_DEPTH + 1 && forall l :: 0 <= l <= TREE_DEPTH ==> zeros[l] == Zeros(h, l)
    requires level < TREE_DEPTH && IsLayer(h, leaves, layer, level)
    ensures IsLayer(h, leaves, next, level + 1)
    ensures |next| == (|layer| + 1) / 2
  {
    next := [];
    var j := 0;
    while j < |layer|
      invariant j == 2 * |next| && j <= |layer| + 1
      invariant forall k :: 0 <= k < |next| ==> next[k] == Node(h, leaves, level + 1, k)
    {
      var left := layer[j];
      var right := if j + 1 < |layer| then layer[j + 1] else zeros[level];
      LayerRead(h, leaves, layer, level, j);
      LayerRead(h, leaves, layer, level, j + 1);
      next := next + [h(left, right)];
      j := j + 2;
    }
    ScaleMonotone(|layer|, 2 * |next|, Pow2(level));
    assert |next| * Pow2(level + 1) == (2 * |next|) * Pow2(level);
  }

  predicate FirstAt(leaves: seq<int>, i: nat, x: int) {
    i < |leaves| && leaves[i] == x && forall j :: 0 <= j < i ==> leaves[j] != x
  }

  predicate LastAt(leaves: seq<int>, i: nat, x: int) {
    i < |leaves| && leaves[i] == x && forall j :: i < j < |leaves| ==> leaves[j] != x
  }

  /** `leaves.findIndex(...)`. */
  method FindIndex(leaves: seq<int>, target: int) returns (idx: Option<nat>)
    ensures idx.None? <==> target !in leaves
    ensures idx.Some? ==> FirstAt(leaves, idx.value, target)
  {
    var i := 0;
    while i < |leaves|
      invariant 0 <= i <= |leaves| && forall j :: 0 <= j < i ==> leaves[j] != target
    {
      if leaves[i] == target { return Some(i); }
      i := i + 1;
    }
    return None;
  }

  /** One level of the climb: the sibling with its zero default, and the next layer. */
  method ClimbLevel(h: Hash2, zeros: seq<int>, leaves: seq<int>, layer: seq<int>, level: nat, idx: nat) returns (sibling: int, next: seq<int>)
    requires |zeros| == TREE_DEPTH + 1 && forall l :: 0 <= l <= TREE_DEPTH ==> zeros[l] == Zeros(h, l)
    requires level < TREE_DEPTH && IsLayer(h, leaves, layer, level)
    ensures sibling == Node(h, leaves, level, Sibling(idx))
    ensures IsLayer(h, leaves, next, level + 1)
  {
    var siblingIdx := Sibling(idx);
    sibling := if siblingIdx < |layer| then layer[siblingIdx] else zeros[level];
    LayerRead(h, leaves, layer, level, siblingIdx);
    next := NextLayer(h, zeros, layer, level, leaves);
  }

  lemma ExtendPath(h: Hash2, leaves: seq<int>, i: int, sib: seq<int>, bits: seq<int>, s: int, b: int)
    requires IsPath(h, leaves, i, sib, bits)
    requires s == Node(h, leaves, |sib|, Sibling(Up(i, |sib|))) && b == Up(i, |sib|) % 2
    ensures IsPath(h, leaves, i, sib + [s], bits + [b])
  {
  }

  /** `computeMerkleProof` from the parsed leaves on (merkle.ts:225-265). */
  method ComputeMerkleProof(h: Hash2, leaves: seq<int>, target: int) returns (r: Option<Proof>)
    requires |leaves| <= Pow2(TREE_DEPTH)
    ensures r.None? <==> target !in leaves
    ensures r.Some? ==> FirstAt(leaves, r.value.leafIndex, target) && ProvesPosition(h, leaves, r.value)
  {
    var found := FindIndex(leaves, target);
    if found.None? { return None; }
    var zeros := BuildZeros(h);
    var layer := leaves;
    var idx: nat := found.value;
    var path, bits := [], [];
    var level: nat := 0;
    while level < TREE_DEPTH
      invariant 0 <= level <= TREE_DEPTH && |path| == level
      invariant idx == Up(found.value, level) && IsLayer(h, leaves, layer, level)
      invariant IsPath(h, leaves, found.value, path, bits)
    {
      var sibling, next := ClimbLevel(h, zeros, leaves, layer, level, idx);
      ExtendPath(h, leaves, found.value, path, bits, sibling, idx % 2);
      path, bits := path + [sibling], bits + [idx % 2];
      layer, idx, level := next, idx / 2, level + 1;
    }
    LayerRead(h, leaves, layer, TREE_DEPTH, 0);
    return Some(Proof(path, bits, layer[0], found.value));
  }

  // ---- the cache and the rebuild agree ------------------------------------------------

  /** A proof for a position of a leaf list, with the list's root. */
  ghost predicate ProvesPosition(h: Hash2, leaves: seq<int>, p: Proof) {
    |p.path| == TREE_DEPTH && IsPath(h, leaves, p.leafIndex, p.path, p.bits) && p.root == Root(h, leaves)
  }

  /** The two back ends return the same proof exactly for the leaves that occur once: the
      cache takes the last occurrence of a leaf and the rebuild the first. */
  lemma ProofsAgree(h: Hash2, leaves: seq<int>, target: int, cached: Proof, rebuilt: Proof)
    requires ProvesPosition(h, leaves, cached) && LastAt(leaves, cached.leafIndex, target)
    requires ProvesPosition(h, leaves, rebuilt) && FirstAt(leaves, rebuilt.leafIndex, target)
    ensures cached == rebuilt <==> forall i, j :: 0 <= i < |leaves| && 0 <= j < |leaves| && leaves[i] == leaves[j] == target ==> i == j
  {
    if cached.leafIndex == rebuilt.leafIndex {
      assert cached.path == rebuilt.path && cached.bits == rebuilt.bits;
    }
  }
}
