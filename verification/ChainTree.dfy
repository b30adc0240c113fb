/** The on-chain commitment tree: one stored node per level and a ring of recent roots. */
module ChainTree {
  import opened Arith
  import opened Merkle
  import opened NodeMap
  import opened Wrappers

  const ROOT_WINDOW: nat := 1024

  // ---- the stored left siblings ------------------------------------------------

  lemma {:induction false} UpSucc(n: nat, level: nat)
    ensures Up(n + 1, level) == Up(n, level) || Up(n + 1, level) == Up(n, level) + 1
  {
    if level > 0 { UpSucc(n, level - 1); }
  }

  /** Where the next insertion will be a right child, its left sibling is stored. */
  ghost predicate FilledOk(h: Hash2, leaves: seq<int>, filled: seq<int>) {
    |filled| == TREE_DEPTH && forall l :: 0 <= l < TREE_DEPTH ==> FilledAt(h, leaves, filled[l], l)
  }

  ghost predicate FilledAt(h: Hash2, leaves: seq<int>, v: int, l: nat) {
    Up(|leaves|, l) % 2 == 1 ==> v == Node(h, leaves, l, Up(|leaves|, l) - 1)
  }

  /** The value at level `l` after inserting `x`: overwritten at even positions only. */
  ghost predicate FilledAfter(h: Hash2, leaves: seq<int>, x: int, before: int, after: int, l: nat) {
    after == if Up(|leaves|, l) % 2 == 0 then Node(h, leaves + [x], l, Up(|leaves|, l)) else before
  }

  lemma FilledStep(h: Hash2, leaves: seq<int>, x: int, before: int, after: int, l: nat)
    requires FilledAt(h, leaves, before, l) && FilledAfter(h, leaves, x, before, after, l)
    ensures FilledAt(h, leaves + [x], after, l)
  {
    var n := |leaves|;
    UpSucc(n, l);
    if Up(n + 1, l) % 2 == 1 && Up(n + 1, l) == Up(n, l) {
      NodeAppend(h, leaves, x, l, Up(n, l) - 1);
    }
  }

  /** The climb of `insert`: one hash with the zero subtree or the stored sibling. */
  lemma InsertStep(h: Hash2, leaves: seq<int>, x: int, stored: int, l: nat)
    requires FilledAt(h, leaves, stored, l)
    ensures var u := Up(|leaves|, l);
            var cur := Node(h, leaves + [x], l, u);
            Node(h, leaves + [x], l + 1, Up(|leaves|, l + 1)) == if u % 2 == 0 then h(cur, Zeros(h, l)) else h(stored, cur)
  {
    var n, u := |leaves|, Up(|leaves|, l);
    assert Up(n, l + 1) == u / 2;
    if u % 2 == 0 {
      UpBlock(n, l);
      NodeBeyond(h, leaves + [x], l, u + 1);
      assert 2 * (u / 2) == u;
    } else {
      NodeAppend(h, leaves, x, l, u - 1);
      assert 2 * (u / 2) + 1 == u;
    }
  }

  // ---- the window of recent roots -----------------------------------------------

  /** The root after the first `s` insertions. */
  ghost function RootAt(h: Hash2, leaves: seq<int>, s: nat): int
    requires s <= |leaves|
  {
    Root(h, leaves[..s])
  }

  /** `root` is one of the last `window` roots, the seed root of the empty tree included. */
  ghost predicate InWindow(h: Hash2, leaves: seq<int>, window: nat, root: int) {
    exists s: nat :: |leaves| + 1 <= s + window && s <= |leaves| && root == RootAt(h, leaves, s)
  }

  ghost predicate NonzeroLeaves(leaves: seq<int>) {
    |leaves| <= TWO_32 && forall i :: 0 <= i < |leaves| ==> leaves[i] != 0
  }

  /** No two prefixes of a list of nonzero leaves have the same root. */
  lemma RootsDistinct(h: Hash2, leaves: seq<int>, s: nat, t: nat)
    requires Injective2(h) && NonzeroLeaves(leaves) && s < t <= |leaves|
    ensures RootAt(h, leaves, s) != RootAt(h, leaves, t)
  {
    Pow2Of32();
    assert leaves[..t] == leaves[..s] + leaves[s..t];
    RootChanges(h, leaves[..s], leaves[s..t]);
  }

  /** A zero leaf is padding: it does not change the root. */
  lemma ZeroKeepsRoot(h: Hash2, leaves: seq<int>, s: nat)
    requires s < |leaves| && leaves[s] == 0
    ensures RootAt(h, leaves, s + 1) == RootAt(h, leaves, s)
  {
    NodeLocal(h, leaves[..s + 1], leaves[..s], TREE_DEPTH, 0);
  }

  /** Two equal roots enclose equal roots only: whatever was inserted first was padding. */
  lemma EqualRoots(h: Hash2, leaves: seq<int>, s: nat, t: nat)
    requires Injective2(h) && |leaves| <= TWO_32 && s < t <= |leaves| && RootAt(h, leaves, s) == RootAt(h, leaves, t)
    ensures leaves[s] == 0 && RootAt(h, leaves, s + 1) == RootAt(h, leaves, s)
  {
    Pow2Of32();
    assert leaves[..t] == leaves[..s] + leaves[s..t];
    if leaves[s] != 0 { RootChanges(h, leaves[..s], leaves[s..t]); }
    ZeroKeepsRoot(h, leaves, s);
  }

  /** The contract marks a root by its value, so that evicting one of several equal roots
      forgets the others too, unless the newest root is the same. */
  ghost predicate Remembered(h: Hash2, leaves: seq<int>, window: nat, root: int) {
    InWindow(h, leaves, window, root) && !Forgotten(h, leaves, window, root)
  }

  ghost predicate Forgotten(h: Hash2, leaves: seq<int>, window: nat, root: int) {
    |leaves| >= window && root == RootAt(h, leaves, |leaves| - window) && root != RootAt(h, leaves, |leaves|)
  }

  /** The roots remembered are the window's exactly if the leaf that has just left it was not
      zero, or the root has not changed since. */
  lemma WindowExactly(h: Hash2, leaves: seq<int>, window: nat)
    requires Injective2(h) && window > 0 && |leaves| <= TWO_32
    ensures (forall r :: Remembered(h, leaves, window, r) <==> InWindow(h, leaves, window, r)) <==>
            var n := |leaves|;
            n < window || leaves[n - window] != 0 || RootAt(h, leaves, n) == RootAt(h, leaves, n - window)
  {
    var n := |leaves|;
    if n >= window {
      var oldest := RootAt(h, leaves, n - window);
      if leaves[n - window] == 0 {
        ZeroKeepsRoot(h, leaves, n - window);
        var s := n - window + 1;
        assert n + 1 <= s + window && s <= n && oldest == RootAt(h, leaves, s);
        assert InWindow(h, leaves, window, oldest);
        assert Remembered(h, leaves, window, oldest) <==> oldest == RootAt(h, leaves, n);
      } else {
        forall r | InWindow(h, leaves, window, r) ensures Remembered(h, leaves, window, r) {
          var s: nat :| n + 1 <= s + window && s <= n && r == RootAt(h, leaves, s);
          if r == oldest { EqualRoots(h, leaves, n - window, s); }
        }
      }
    }
  }

  /** The failing input: after a zero leaf and another, a window of two holds the empty root,
      and the contract has forgotten it. */
  lemma ZeroLeafForgets(h: Hash2, x: int)
    requires Injective2(h) && x != 0
    ensures var empty := Root(h, []); InWindow(h, [0, x], 2, empty) && !Remembered(h, [0, x], 2, empty)
  {
    var leaves := [0, x];
    ZeroKeepsRoot(h, leaves, 0);
    assert leaves[..0] == [] && leaves[..1] == [0] && leaves[..2] == [0] + [x];
    assert |leaves| + 1 <= 1 + 2 && RootAt(h, leaves, 1) == Root(h, []);
    Pow2Of32();
    RootChanges(h, [0], [x]);
  }

  /** So for nonzero leaves, such as commitments are. */
  lemma NonzeroWindow(h: Hash2, leaves: seq<int>, window: nat)
    requires Injective2(h) && window > 0 && NonzeroLeaves(leaves)
    ensures forall r :: Remembered(h, leaves, window, r) <==> InWindow(h, leaves, window, r)
  {
    WindowExactly(h, leaves, window);
  }

  ghost predicate RingOk(h: Hash2, leaves: seq<int>, window: nat, ring: map<nat, int>)
    requires window > 0
  {
    forall s: nat :: |leaves| + 1 <= s + window && s <= |leaves| ==>
      s % window in ring && ring[s % window] == RootAt(h, leaves, s)
  }

  ghost predicate KnownOk(h: Hash2, leaves: seq<int>, window: nat, known: set<int>) {
    forall r :: r in known <==> Remembered(h, leaves, window, r)
  }

  lemma SlotsDistinct(s: nat, t: nat, window: nat)
    requires window > 0 && s < t < s + window
    ensures s % window != t % window
  {
    if s % window == t % window {
      assert t - s == (t / window - s / window) * window;
      SmallMultiple(t / window - s / window, window);
    }
  }

  lemma RingStep(h: Hash2, leaves: seq<int>, x: int, window: nat, ring: map<nat, int>)
    requires window > 0 && RingOk(h, leaves, window, ring)
    ensures var n := |leaves| + 1;
            RingOk(h, leaves + [x], window, ring[n % window := RootAt(h, leaves + [x], n)])
  {
    var longer, n := leaves + [x], |leaves| + 1;
    var ring' := ring[n % window := RootAt(h, longer, n)];
    forall s: nat | n + 1 <= s + window && s <= n
      ensures s % window in ring' && ring'[s % window] == RootAt(h, longer, s)
    {
      if s < n {
        SlotsDistinct(s, n, window);
        assert longer[..s] == leaves[..s];
      }
    }
  }

  lemma SeqMod(n: nat, window: nat)
    requires window > 0 && n >= window
    ensures (n - window) % window == n % window
  {
    DivModUnique(n - window, n / window - 1, n % window, window);
  }

  /** Forgetting the oldest root and adding the new one. */
  lemma KnownStep(h: Hash2, leaves: seq<int>, x: int, window: nat, ring: map<nat, int>, known: set<int>)
    requires Injective2(h) && |leaves| < TWO_32 && window > 0
    requires RingOk(h, leaves, window, ring) && KnownOk(h, leaves, window, known)
    ensures var n := |leaves| + 1;
            var root := RootAt(h, leaves + [x], n);
            var kept := if n >= window && n % window in ring && ring[n % window] != root then known - {ring[n % window]} else known;
            KnownOk(h, leaves + [x], window, kept + {root})
  {
    var longer, n := leaves + [x], |leaves| + 1;
    var root := RootAt(h, longer, n);
    var kept := if n >= window && n % window in ring && ring[n % window] != root then known - {ring[n % window]} else known;
    forall s: nat | s < n ensures RootAt(h, longer, s) == RootAt(h, leaves, s) { assert longer[..s] == leaves[..s]; }
    if n >= window {
      SeqMod(n, window);
      assert n % window in ring && ring[n % window] == RootAt(h, leaves, n - window) == RootAt(h, longer, n - window);
    }
    forall r ensures r in kept + {root} <==> Remembered(h, longer, window, r) {
      if r == root {
        assert n + 1 <= n + window && r == RootAt(h, longer, n);
      } else {
        WindowMoves(h, leaves, longer, window, r);
      }
    }
  }

  lemma WindowMoves(h: Hash2, leaves: seq<int>, longer: seq<int>, window: nat, r: int)
    requires Injective2(h) && |longer| == |leaves| + 1 <= TWO_32 && window > 0 && r != RootAt(h, longer, |longer|)
    requires forall s: nat :: s <= |leaves| ==> RootAt(h, longer, s) == RootAt(h, leaves, s)
    ensures Remembered(h, longer, window, r) <==>
              Remembered(h, leaves, window, r) && !(|longer| >= window && r == RootAt(h, longer, |longer| - window))
  {
    var n := |longer|;
    if Remembered(h, leaves, window, r) && !(n >= window && r == RootAt(h, longer, n - window)) {
      var s: nat :| n <= s + window && s < n && r == RootAt(h, leaves, s);
      assert n + 1 <= s + window && s <= n && r == RootAt(h, longer, s);
    }
    if Remembered(h, longer, window, r) {
      var s: nat :| n + 1 <= s + window && s <= n && r == RootAt(h, longer, s);
      assert n <= s + window && s < n && r == RootAt(h, leaves, s);
      assert InWindow(h, leaves, window, r);
      if Forgotten(h, leaves, window, r) { EqualRoots(h, longer, n - 1 - window, s); }
    }
  }

  lemma EmptyFilled(h: Hash2, leaves: seq<int>, filled: seq<int>)
    requires leaves == [] && |filled| == TREE_DEPTH
    ensures FilledOk(h, leaves, filled)
  {
    forall l | 0 <= l < TREE_DEPTH ensures FilledAt(h, leaves, filled[l], l) { UpRoot(0, l); }
  }

  /** The root variables describe the roots of the inserted leaves. */
  ghost predicate RootsOk(h: Hash2, leaves: seq<int>, window: nat, current: int, ring: map<nat, int>, known: set<int>)
    requires window > 0
  {
    |leaves| <= TWO_32 && current == Root(h, leaves) && RingOk(h, leaves, window, ring) && KnownOk(h, leaves, window, known)
  }

  lemma EmptyWindow(h: Hash2, leaves: seq<int>, window: nat, root: int)
    requires window > 0 && leaves == [] && root == Root(h, leaves)
    ensures RootsOk(h, leaves, window, root, map[0 := root], {root})
  {
    assert leaves[..0] == leaves;
    assert RootAt(h, leaves, 0) == root;
    DivModUnique(0, 0, 0, window);
    forall r ensures r in {root} <==> Remembered(h, leaves, window, r) {
      if r == root { assert 0 <= |leaves| && |leaves| + 1 <= 0 + window && r == RootAt(h, leaves, 0); }
    }
  }

  lemma EmptyRoot(h: Hash2, leaves: seq<int>)
    requires leaves == []
    ensures Root(h, leaves) == Zeros(h, TREE_DEPTH)
  {
    NodeEmpty(h, TREE_DEPTH, 0);
  }

  datatype Error = TreeFull

  ghost predicate ZerosOk(h: Hash2, zeros: seq<int>) {
    |zeros| == TREE_DEPTH && forall l :: 0 <= l < TREE_DEPTH ==> zeros[l] == Zeros(h, l)
  }

  ghost predicate NodesOk(h: Hash2, leaves: seq<int>, zeros: seq<int>, filled: seq<int>) {
    ZerosOk(h, zeros) && FilledOk(h, leaves, filled)
  }

  lemma EmptyState(h: Hash2, leaves: seq<int>, window: nat, zeros: seq<int>, filled: seq<int>, root: int)
    requires window > 0 && leaves == [] && ZerosOk(h, zeros) && |filled| == TREE_DEPTH && root == Zeros(h, TREE_DEPTH)
    ensures NodesOk(h, leaves, zeros, filled)
    ensures RootsOk(h, leaves, window, root, map[0 := root], {root})
  {
    EmptyRoot(h, leaves);
    EmptyFilled(h, leaves, filled);
    EmptyWindow(h, leaves, window, root);
  }

  /** The loop of `initialize`: the zero subtrees, level by level. */
  method InitZeros(h: Hash2) returns (zeros: array<int>, filled: array<int>, root: int)
    ensures fresh(zeros) && fresh(filled) && zeros != filled
    ensures zeros.Length == TREE_DEPTH && filled.Length == TREE_DEPTH
    ensures ZerosOk(h, zeros[..])
    ensures root == Zeros(h, TREE_DEPTH)
  {
    zeros := new int[TREE_DEPTH];
    filled := new int[TREE_DEPTH];
    root := 0;
    var i: nat := 0;
    while i < TREE_DEPTH
      invariant 0 <= i <= TREE_DEPTH && root == Zeros(h, i)
      invariant forall l :: 0 <= l < i ==> zeros[l] == Zeros(h, l)
    {
      zeros[i] := root;
      filled[i] := root;
      root := h(root, root);
      i := i + 1;
    }
  }

  class CommitmentTree {
    const h: Hash2
    const window: nat
    const zeros: array<int>
    const filledSubtrees: array<int>
    var currentRoot: int
    var knownRoots: set<int>
    var rootRing: map<nat, int>
    var nextIndex: nat
    var rootCount: nat
    ghost var leaves: seq<int>

    ghost predicate Valid() reads this, zeros, filledSubtrees {
      && window > 0
      && zeros != filledSubtrees && zeros.Length == TREE_DEPTH && filledSubtrees.Length == TREE_DEPTH
      && NodesOk(h, leaves, zeros[..], filledSubtrees[..])
      && nextIndex == |leaves| && rootCount == |leaves| + 1
      && RootsOk(h, leaves, window, currentRoot, rootRing, knownRoots)
    }

    /** `initialize` (CommitmentMerkleTree.sol:65-83). */
    constructor (h: Hash2, window: nat)
      requires window > 0
      ensures Valid() && leaves == [] && this.h == h && this.window == window
      ensures fresh(zeros) && fresh(filledSubtrees)
    {
      var z, f, current := InitZeros(h);
      ghost var zs := z[..];
      this.h, this.window, zeros, filledSubtrees := h, window, z, f;
      currentRoot, knownRoots, rootRing := current, {current}, map[0 := current];
      nextIndex, rootCount, leaves := 0, 1, [];
      new;
      assert zeros[..] == zs;
      EmptyState(h, leaves, window, zeros[..], filledSubtrees[..], current);
    }

    /** The climb loop of `insert` (CommitmentMerkleTree.sol:106-119). */
    method Climb(commitment: int) returns (newRoot: int)
      requires Valid() && |leaves| < TWO_32
      modifies filledSubtrees
      ensures newRoot == Root(h, leaves + [commitment])
      ensures FilledOk(h, leaves + [commitment], filledSubtrees[..])
    {
      var current := commitment;
      var idx: nat := nextIndex;
      ghost var longer := leaves + [commitment];
      var i: nat := 0;
      while i < TREE_DEPTH
        invariant 0 <= i <= TREE_DEPTH
        invariant idx == Up(nextIndex, i) && current == Node(h, longer, i, idx)
        invariant forall l :: i <= l < TREE_DEPTH ==> filledSubtrees[l] == old(filledSubtrees[l])
        invariant forall l :: 0 <= l < i ==> FilledAfter(h, leaves, commitment, old(filledSubtrees[l]), filledSubtrees[l], l)
      {
        assert FilledAt(h, leaves, old(filledSubtrees[..])[i], i);
        InsertStep(h, leaves, commitment, filledSubtrees[i], i);
        assert zeros[..][i] == zeros[i];
        if idx % 2 == 0 {
          filledSubtrees[i] := current;
          current := h(current, zeros[i]);
        } else {
          current := h(filledSubtrees[i], current);
        }
        idx := idx / 2;
        i := i + 1;
      }
      Pow2Of32();
      UpRoot(nextIndex, TREE_DEPTH);
      newRoot := current;
      forall l | 0 <= l < TREE_DEPTH ensures FilledAt(h, longer, filledSubtrees[..][l], l) {
        assert FilledAt(h, leaves, old(filledSubtrees[..])[l], l);
        FilledStep(h, leaves, commitment, old(filledSubtrees[l]), filledSubtrees[l], l);
      }
    }

    /** Rolling the root window (CommitmentMerkleTree.sol:121-135). */
    method RollWindow(newRoot: int, ghost commitment: int)
      requires Injective2(h) && window > 0 && |leaves| < TWO_32
      requires rootCount == |leaves| + 1 && RootsOk(h, leaves, window, currentRoot, rootRing, knownRoots)
      requires newRoot == Root(h, leaves + [commitment])
      modifies this`currentRoot, this`knownRoots, this`rootRing, this`rootCount
      ensures rootCount == |leaves| + 2
      ensures RootsOk(h, leaves + [commitment], window, currentRoot, rootRing, knownRoots)
    {
      ghost var longer := leaves + [commitment];
      assert longer[..|longer|] == longer;
      RingStep(h, leaves, commitment, window, rootRing);
      KnownStep(h, leaves, commitment, window, rootRing, knownRoots);
      var seqNo := rootCount;
      var slot := seqNo % window;
      if seqNo >= window {
        SeqMod(seqNo, window);
        assert rootRing[slot] == RootAt(h, leaves, seqNo - window);
        var evicted := rootRing[slot];
        if evicted != newRoot { knownRoots := knownRoots - {evicted}; }
      }
      rootRing := rootRing[slot := newRoot];
      knownRoots := knownRoots + {newRoot};
      currentRoot := newRoot;
      rootCount := seqNo + 1;
    }

    /** `insert` (CommitmentMerkleTree.sol:101-138): the stored nodes suffice to compute the
        root of the whole padded tree. */
    method Insert(commitment: int) returns (r: Result<int, Error>)
      requires Valid() && Injective2(h)
      modifies this, filledSubtrees
      ensures Valid()
      ensures if old(|leaves|) >= TWO_32 then r == Failure(TreeFull) && leaves == old(leaves)
              else leaves == old(leaves) + [commitment] && r == Success(Root(h, leaves))
    {
      if nextIndex >= TWO_32 { return Failure(TreeFull); }
      var newRoot := Climb(commitment);
      RollWindow(newRoot, commitment);
      nextIndex := nextIndex + 1;
      leaves := leaves + [commitment];
      return Success(newRoot);
    }

    /** `isKnownRoot` (CommitmentMerkleTree.sol:141-144): membership in the window, as long as
        it holds no equal roots of which one has left it (`WindowExactly`). */
    method IsKnownRoot(root: int) returns (known: bool)
      requires Valid()
      ensures known <==> root != 0 && Remembered(h, leaves, window, root)
      ensures Injective2(h) && NonzeroLeaves(leaves) ==> (known <==> root != 0 && InWindow(h, leaves, window, root))
    {
      known := root != 0 && root in knownRoots;
      if Injective2(h) && NonzeroLeaves(leaves) { NonzeroWindow(h, leaves, window); }
    }
  }
}
