/** The zero-padded binary hash tree over a list of leaves, as a recursive specification,
    and the circuit's path fold. */
module Merkle {
  import opened Arith

  type Hash2 = (int, int) -> int

  ghost predicate Injective2(h: Hash2) {
    forall a, b, c, d :: h(a, b) == h(c, d) ==> a == c && b == d
  }

  type ThirtyTwo = d: nat | 31 < d < 33 witness 32

  /** The depth, 32. It is given by its bounds rather than as a literal so that recursive
      definitions over levels are not evaluated 32 levels deep in every proof. */
  const TREE_DEPTH: ThirtyTwo

  /** The roots of all-zero subtrees. */
  function Zeros(h: Hash2, level: nat): int {
    if level == 0 then 0 else h(Zeros(h, level - 1), Zeros(h, level - 1))
  }

  function Leaf(leaves: seq<int>, i: int): int { if 0 <= i < |leaves| then leaves[i] else 0 }

  /** Node `i` of a level: the hash of its two children; level 0 holds the padded leaves. */
  ghost function Node(h: Hash2, leaves: seq<int>, level: nat, i: int): int {
    if level == 0 then Leaf(leaves, i)
    else h(Node(h, leaves, level - 1, 2 * i), Node(h, leaves, level - 1, 2 * i + 1))
  }

  ghost function Root(h: Hash2, leaves: seq<int>): int { Node(h, leaves, TREE_DEPTH, 0) }

  /** The ancestor of position `i`, `level` steps up. */
  function Up(i: int, level: nat): int { if level == 0 then i else Up(i, level - 1) / 2 }

  function Sibling(i: int): int { if i % 2 == 0 then i + 1 else i - 1 }

  /** An inclusion proof as both back ends return it. */
  datatype Proof = Proof(path: seq<int>, bits: seq<int>, root: int, leafIndex: nat)

  // ---- locality ---------------------------------------------------------------

  lemma {:induction false} UpBlock(i: int, level: nat)
    ensures Up(i, level) * Pow2(level) <= i < (Up(i, level) + 1) * Pow2(level)
  {
    if level > 0 {
      UpBlock(i, level - 1);
      var u, q := Up(i, level - 1), Pow2(level - 1);
      HalfBlock(u, q, i);
    }
  }

  lemma HalfBlock(u: int, q: int, i: int)
    requires q > 0 && u * q <= i < (u + 1) * q
    ensures (u / 2) * (2 * q) <= i < (u / 2 + 1) * (2 * q)
  {
    var v, r := u / 2, u % 2;
    assert u == 2 * v + r;
    assert v * (2 * q) == (2 * v) * q;
    assert (v + 1) * (2 * q) == (2 * v + 2) * q;
    assert u * q == (2 * v) * q + r * q;
    assert (u + 1) * q == (2 * v) * q + (r + 1) * q;
    assert (2 * v + 2) * q == (2 * v) * q + 2 * q;
    assert 0 <= r * q && (r + 1) * q <= 2 * q;
  }

  /** A node depends only on the leaves below it. */
  lemma {:induction false} NodeLocal(h: Hash2, l: seq<int>, l': seq<int>, level: nat, i: int)
    requires forall j :: i * Pow2(level) <= j < (i + 1) * Pow2(level) ==> Leaf(l, j) == Leaf(l', j)
    ensures Node(h, l, level, i) == Node(h, l', level, i)
  {
    if level == 0 {
      assert i * Pow2(0) <= i < (i + 1) * Pow2(0);
    } else {
      var q := Pow2(level - 1);
      SplitBlock(i, q);
      NodeLocal(h, l, l', level - 1, 2 * i);
      NodeLocal(h, l, l', level - 1, 2 * i + 1);
    }
  }

  lemma SplitBlock(i: int, q: int)
    requires q > 0
    ensures i * (2 * q) == (2 * i) * q
    ensures (2 * i + 1) * q <= (i + 1) * (2 * q)
    ensures (2 * i + 1 + 1) * q == (i + 1) * (2 * q)
    ensures i * (2 * q) <= (2 * i + 1) * q
  {
    assert (2 * i + 1) * q == (2 * i) * q + q;
    assert (i + 1) * (2 * q) == (2 * i) * q + 2 * q;
    assert (2 * i + 2) * q == (2 * i) * q + 2 * q;
  }

  lemma {:induction false} NodeEmpty(h: Hash2, level: nat, i: int)
    ensures Node(h, [], level, i) == Zeros(h, level)
  {
    if level > 0 {
      NodeEmpty(h, level - 1, 2 * i);
      NodeEmpty(h, level - 1, 2 * i + 1);
    }
  }

  /** Nodes to the right of all leaves are zero subtrees. */
  lemma NodeBeyond(h: Hash2, leaves: seq<int>, level: nat, i: int)
    requires |leaves| <= i * Pow2(level)
    ensures Node(h, leaves, level, i) == Zeros(h, level)
  {
    NodeLocal(h, leaves, [], level, i);
    NodeEmpty(h, level, i);
  }

  /** Appending a leaf changes only the nodes on its path. */
  lemma NodeAppend(h: Hash2, leaves: seq<int>, x: int, level: nat, i: int)
    requires i != Up(|leaves|, level)
    ensures Node(h, leaves + [x], level, i) == Node(h, leaves, level, i)
  {
    var n, q := |leaves|, Pow2(level);
    UpBlock(n, level);
    forall j | i * q <= j < (i + 1) * q ensures Leaf(leaves + [x], j) == Leaf(leaves, j) {
      if j == n { BlockUnique(i, Up(n, level), q, n); }
    }
    NodeLocal(h, leaves + [x], leaves, level, i);
  }

  lemma BlockUnique(i: int, u: int, q: int, n: int)
    requires q > 0 && i * q <= n < (i + 1) * q && u * q <= n < (u + 1) * q
    ensures i == u
  {
    DivModUnique(n, i, n - i * q, q);
    DivModUnique(n, u, n - u * q, q);
  }

  lemma {:induction false} UpNat(i: nat, level: nat)
    ensures Up(i, level) >= 0
  {
    if level > 0 { UpNat(i, level - 1); }
  }

  lemma UpRoot(i: nat, level: nat)
    requires i < Pow2(level)
    ensures Up(i, level) == 0
  {
    UpBlock(i, level);
    BlockUnique(0, Up(i, level), Pow2(level), i);
  }

  // ---- the circuit's fold (specs.py:44-48) ----------------------------------------

  /** The value after hashing up along siblings and direction bits. */
  ghost function Fold(h: Hash2, leaf: int, sib: seq<int>, bits: seq<int>): int
    requires |sib| == |bits|
  {
    if sib == [] then leaf
    else
      var n := |sib| - 1;
      var cur := Fold(h, leaf, sib[..n], bits[..n]);
      if bits[n] == 1 then h(sib[n], cur) else h(cur, sib[n])
  }

  /** The position a list of direction bits denotes. */
  ghost function Position(bits: seq<int>): nat {
    if bits == [] then 0
    else
      var n := |bits| - 1;
      Position(bits[..n]) + (if bits[n] == 1 then Pow2(n) else 0)
  }

  /** The proof for position `i`: at every level the sibling of its ancestor. */
  ghost predicate IsPath(h: Hash2, leaves: seq<int>, i: int, sib: seq<int>, bits: seq<int>) {
    && |sib| == |bits|
    && forall l :: 0 <= l < |sib| ==> sib[l] == Node(h, leaves, l, Sibling(Up(i, l))) && bits[l] == Up(i, l) % 2
  }

  /** Completeness: such a proof folds to the ancestor of `i`, hence to the root. */
  lemma {:induction false} PathFolds(h: Hash2, leaves: seq<int>, i: int, sib: seq<int>, bits: seq<int>)
    requires IsPath(h, leaves, i, sib, bits)
    ensures Fold(h, Leaf(leaves, i), sib, bits) == Node(h, leaves, |sib|, Up(i, |sib|))
    decreases |sib|
  {
    if sib != [] {
      var n := |sib| - 1;
      PathFolds(h, leaves, i, sib[..n], bits[..n]);
      var u := Up(i, n);
      assert Up(i, n + 1) == u / 2;
      assert u % 2 == 0 ==> u == 2 * (u / 2) && Sibling(u) == 2 * (u / 2) + 1;
      assert u % 2 == 1 ==> u == 2 * (u / 2) + 1 && Sibling(u) == 2 * (u / 2);
      assert sib[n] == Node(h, leaves, n, Sibling(u));
    }
  }

  lemma PathFoldsToRoot(h: Hash2, leaves: seq<int>, i: nat, sib: seq<int>, bits: seq<int>)
    requires IsPath(h, leaves, i, sib, bits) && |sib| == TREE_DEPTH && i < Pow2(TREE_DEPTH)
    ensures Fold(h, Leaf(leaves, i), sib, bits) == Root(h, leaves)
  {
    PathFolds(h, leaves, i, sib, bits);
    UpRoot(i, TREE_DEPTH);
  }

  lemma Children(h: Hash2, a: int, b: int, c: int, d: int)
    requires Injective2(h) && h(a, b) == h(c, d)
    ensures a == c && b == d
  {
  }

  /** Binding: with an injective hash, whatever folds to node (level, j) starts from the
      leaf stored at the position the bits denote below that node. */
  lemma {:induction false} FoldBinds(h: Hash2, leaves: seq<int>, x: int, sib: seq<int>, bits: seq<int>, j: int)
    requires Injective2(h) && |sib| == |bits|
    requires Fold(h, x, sib, bits) == Node(h, leaves, |sib|, j)
    ensures x == Leaf(leaves, j * Pow2(|sib|) + Position(bits))
    decreases |sib|
  {
    if sib != [] {
      var n := |sib| - 1;
      var j' := if bits[n] == 1 then 2 * j + 1 else 2 * j;
      var cur := Fold(h, x, sib[..n], bits[..n]);
      assert Node(h, leaves, n + 1, j) == h(Node(h, leaves, n, 2 * j), Node(h, leaves, n, 2 * j + 1));
      var left, right := Node(h, leaves, n, 2 * j), Node(h, leaves, n, 2 * j + 1);
      if bits[n] == 1 {
        Children(h, sib[n], cur, left, right);
      } else {
        Children(h, cur, sib[n], left, right);
      }
      assert cur == Node(h, leaves, n, j');
      FoldBinds(h, leaves, x, sib[..n], bits[..n], j');
      ChildBlock(j, j', Pow2(n));
    }
  }

  lemma ChildBlock(j: int, j': int, q: int)
    requires j' == 2 * j || j' == 2 * j + 1
    ensures j' * q == j * (2 * q) + (if j' == 2 * j then 0 else q)
  {
  }

  lemma {:induction false} PositionBound(bits: seq<int>)
    ensures Position(bits) < Pow2(|bits|)
  {
    if bits != [] { PositionBound(bits[..|bits| - 1]); }
  }

  lemma RootBinds(h: Hash2, leaves: seq<int>, x: int, sib: seq<int>, bits: seq<int>)
    requires Injective2(h) && |sib| == |bits| == TREE_DEPTH
    requires Fold(h, x, sib, bits) == Root(h, leaves)
    ensures x == Leaf(leaves, Position(bits))
  {
    FoldBinds(h, leaves, x, sib, bits, 0);
  }

  /** With an injective hash, equal roots have equal leaves. */
  lemma {:induction false} NodeInjective(h: Hash2, l: seq<int>, l': seq<int>, level: nat, i: int, k: int)
    requires Injective2(h) && Node(h, l, level, i) == Node(h, l', level, i)
    requires i * Pow2(level) <= k < (i + 1) * Pow2(level)
    ensures Leaf(l, k) == Leaf(l', k)
  {
    if level == 0 {
      assert k == i by { assert Pow2(0) == 1; }
    } else {
      var q := Pow2(level - 1);
      SplitBlock(i, q);
      if k < (2 * i + 1) * q {
        NodeInjective(h, l, l', level - 1, 2 * i, k);
      } else {
        NodeInjective(h, l, l', level - 1, 2 * i + 1, k);
      }
    }
  }

  /** Adding a nonzero leaf to a tree that is not full changes the root. */
  lemma RootChanges(h: Hash2, leaves: seq<int>, more: seq<int>)
    requires Injective2(h) && more != [] && more[0] != 0 && |leaves| < Pow2(TREE_DEPTH)
    ensures Root(h, leaves + more) != Root(h, leaves)
  {
    if Root(h, leaves + more) == Root(h, leaves) {
      NodeInjective(h, leaves + more, leaves, TREE_DEPTH, 0, |leaves|);
    }
  }
}
