/** The cache's sparse node map, updated along one path per appended leaf with the
    32-bit operators of the implementation language. */
module NodeMap {
  import opened Arith
  import opened Merkle

  const TWO_31: int := 0x8000_0000
  const TWO_32: int := 0x1_0000_0000

  /** Operands of `>>`, `^` and `&` are first wrapped to signed 32-bit integers. */
  function ToInt32(x: int): int {
    var m := x % TWO_32;
    if m >= TWO_31 then m - TWO_32 else m
  }

  function ShiftRight1(x: int): int { ToInt32(x) / 2 }

  function Xor1(x: int): int { Sibling(ToInt32(x)) }

  function And1(x: int): int { ToInt32(x) % 2 }

  type Nodes = map<(int, int), int>

  function GetNode(h: Hash2, nodes: Nodes, level: nat, i: int): int {
    if (level, i) in nodes then nodes[(level, i)] else Zeros(h, level)
  }

  /** The map holds exactly the nodes of the padded tree over `leaves`. */
  ghost predicate Represents(h: Hash2, nodes: Nodes, leaves: seq<int>) {
    forall level: nat, i: int :: level <= TREE_DEPTH ==> GetNode(h, nodes, level, i) == Node(h, leaves, level, i)
  }

  /** The loop variable `i` after `n` iterations of `i = i >> 1`. */
  function Shifted(i: int, n: nat): int { if n == 0 then i else ShiftRight1(Shifted(i, n - 1)) }

  /** The map after `n` iterations of the loop of `append` (merkleTree.ts:114-120). */
  function Climb(h: Hash2, nodes: Nodes, i: int, n: nat): Nodes {
    if n == 0 then nodes
    else
      var m := Climb(h, nodes, i, n - 1);
      var parent := Shifted(i, n);
      m[(n, parent) := h(GetNode(h, m, n - 1, parent * 2), GetNode(h, m, n - 1, parent * 2 + 1))]
  }

  function AppendNodes(h: Hash2, nodes: Nodes, i: int, leaf: int): Nodes {
    Climb(h, nodes[(0, i) := leaf], i, TREE_DEPTH)
  }

  lemma {:induction false} ShiftedIsUp(i: nat, n: nat)
    requires i < TWO_31
    ensures Shifted(i, n) == Up(i, n) && 0 <= Up(i, n) < TWO_31
  {
    if n > 0 { ShiftedIsUp(i, n - 1); }
  }

  /** After `n` iterations the levels up to `n` are those of the longer list. */
  ghost predicate Halfway(h: Hash2, nodes: Nodes, leaves: seq<int>, x: int, n: nat) {
    forall level: nat, i: int :: level <= TREE_DEPTH ==> HalfwayAt(h, nodes, leaves, x, n, level, i)
  }

  ghost predicate HalfwayAt(h: Hash2, nodes: Nodes, leaves: seq<int>, x: int, n: nat, level: nat, i: int) {
    GetNode(h, nodes, level, i) == if level <= n then Node(h, leaves + [x], level, i) else Node(h, leaves, level, i)
  }

  lemma HalfwayStep(h: Hash2, m: Nodes, leaves: seq<int>, x: int, n: nat, level: nat, k: int)
    requires 0 < n <= TREE_DEPTH && level <= TREE_DEPTH && Halfway(h, m, leaves, x, n - 1)
    ensures var parent := Up(|leaves|, n);
            HalfwayAt(h, m[(n, parent) := h(GetNode(h, m, n - 1, parent * 2), GetNode(h, m, n - 1, parent * 2 + 1))],
                      leaves, x, n, level, k)
  {
    var parent := Up(|leaves|, n);
    assert HalfwayAt(h, m, leaves, x, n - 1, level, k);
    if level == n {
      if k == parent {
        assert HalfwayAt(h, m, leaves, x, n - 1, n - 1, parent * 2);
        assert HalfwayAt(h, m, leaves, x, n - 1, n - 1, parent * 2 + 1);
      } else {
        NodeAppend(h, leaves, x, n, k);
      }
    }
  }

  lemma {:induction false} ClimbHalfway(h: Hash2, nodes: Nodes, leaves: seq<int>, x: int, n: nat)
    requires Represents(h, nodes, leaves) && |leaves| < TWO_31 && n <= TREE_DEPTH
    ensures Halfway(h, Climb(h, nodes[(0, |leaves|) := x], |leaves|, n), leaves, x, n)
  {
    var start := nodes[(0, |leaves|) := x];
    var end := Climb(h, start, |leaves|, n);
    if n > 0 {
      ClimbHalfway(h, nodes, leaves, x, n - 1);
      ShiftedIsUp(|leaves|, n);
    }
    forall level: nat, k: int | level <= TREE_DEPTH ensures HalfwayAt(h, end, leaves, x, n, level, k) {
      if n == 0 {
        assert GetNode(h, nodes, level, k) == Node(h, leaves, level, k);
      } else {
        HalfwayStep(h, Climb(h, start, |leaves|, n - 1), leaves, x, n, level, k);
      }
    }
  }

  /** Below 2^31 leaves, updating one path keeps the map equal to the whole tree. */
  lemma AppendRepresents(h: Hash2, nodes: Nodes, leaves: seq<int>, x: int)
    requires Represents(h, nodes, leaves) && |leaves| < TWO_31
    ensures Represents(h, AppendNodes(h, nodes, |leaves|, x), leaves + [x])
  {
    ClimbHalfway(h, nodes, leaves, x, TREE_DEPTH);
    var end := AppendNodes(h, nodes, |leaves|, x);
    forall level: nat, i: int | level <= TREE_DEPTH ensures GetNode(h, end, level, i) == Node(h, leaves + [x], level, i) {
      assert HalfwayAt(h, end, leaves, x, TREE_DEPTH, level, i);
    }
  }

  lemma {:induction false} ShiftedNegative(i: int, n: nat)
    requires TWO_31 <= i < TWO_32 && n > 0
    ensures -TWO_31 <= Shifted(i, n) < 0
  {
    if n > 1 { ShiftedNegative(i, n - 1); } else { assert Shifted(i, 0) == i; }
  }

  lemma {:induction false} ClimbKeepsRoot(h: Hash2, nodes: Nodes, i: int, n: nat)
    requires TWO_31 <= i < TWO_32
    ensures GetNode(h, Climb(h, nodes, i, n), TREE_DEPTH, 0) == GetNode(h, nodes, TREE_DEPTH, 0)
  {
    if n > 0 {
      ClimbKeepsRoot(h, nodes, i, n - 1);
      ShiftedNegative(i, n);
    }
  }

  /** The cached root follows the tree exactly while the leaf index fits 31 bits: from
      2^31 on, `>>` turns the index negative and the root node is no longer written. */
  lemma AppendRootExact(h: Hash2, nodes: Nodes, leaves: seq<int>, x: int)
    requires Injective2(h) && Represents(h, nodes, leaves) && |leaves| < TWO_32 && x != 0
    ensures GetNode(h, AppendNodes(h, nodes, |leaves|, x), TREE_DEPTH, 0) == Root(h, leaves + [x]) <==> |leaves| < TWO_31
  {
    if |leaves| < TWO_31 {
      AppendRepresents(h, nodes, leaves, x);
    } else {
      var start := nodes[(0, |leaves|) := x];
      ClimbKeepsRoot(h, start, |leaves|, TREE_DEPTH);
      assert GetNode(h, start, TREE_DEPTH, 0) == GetNode(h, nodes, TREE_DEPTH, 0) == Root(h, leaves);
      Pow2Of32();
      RootChanges(h, leaves, [x]);
    }
  }

  lemma Pow2Of32()
    ensures Pow2(TREE_DEPTH) == TWO_32
  {
    assert Pow2(8) == 0x100;
    Pow2Add(8, 8);
    Pow2Add(16, 16);
    assert Pow2(16) == 0x1_0000;
  }

  // ---- proofs read from the map ---------------------------------------------------

  /** The siblings and direction bits collected by the loop of `proofForIndex`. */
  ghost predicate IsServed(h: Hash2, nodes: Nodes, i: int, path: seq<int>, bits: seq<int>) {
    && |path| == |bits|
    && forall l :: 0 <= l < |path| ==> path[l] == GetNode(h, nodes, l, Xor1(Shifted(i, l))) && bits[l] == And1(Shifted(i, l))
  }

  lemma ServedIsPath(h: Hash2, nodes: Nodes, leaves: seq<int>, i: nat, path: seq<int>, bits: seq<int>)
    requires Represents(h, nodes, leaves) && i < TWO_31 && |path| <= TREE_DEPTH && IsServed(h, nodes, i, path, bits)
    ensures IsPath(h, leaves, i, path, bits)
  {
    forall l | 0 <= l < |path|
      ensures path[l] == Node(h, leaves, l, Sibling(Up(i, l))) && bits[l] == Up(i, l) % 2
    {
      ShiftedIsUp(i, l);
      assert Xor1(Shifted(i, l)) == Sibling(Up(i, l));
    }
  }
}
