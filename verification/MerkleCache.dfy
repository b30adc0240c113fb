/** The backend's read cache of the commitment tree: appended from chain logs window by
    window, persisted row by row, and resumed after a crash at any point. */
module MerkleCache {
  import opened Arith
  import opened Merkle
  import opened NodeMap
  import opened Wrappers

  const CONFIRMATIONS: int := 3
  const SCAN_WINDOW: int := 5000

  /** A `LeafInserted` log. */
  datatype Log = Log(leafIndex: nat, leaf: int, newRoot: int)

  /** The chain's whole insertion history: the leaves in order and the block of each. */
  datatype Chain = Chain(leaves: seq<int>, blocks: seq<int>)

  ghost predicate ChainOk(c: Chain, deployBlock: int) {
    && |c.leaves| == |c.blocks|
    && (forall i, j :: 0 <= i < j < |c.blocks| ==> c.blocks[i] <= c.blocks[j])
    && (forall i :: 0 <= i < |c.blocks| ==> c.blocks[i] >= deployBlock >= 0 && c.blocks[i] > 0)
    && |c.leaves| <= TWO_32 && (forall i :: 0 <= i < |c.leaves| ==> c.leaves[i] != 0)
  }

  /** The log is one the chain emitted in the block range. */
  ghost predicate TrueLog(h: Hash2, c: Chain, l: Log, from: int, to: int)
    requires |c.leaves| == |c.blocks|
  {
    && l.leafIndex < |c.leaves| && l.leaf == c.leaves[l.leafIndex]
    && l.newRoot == Root(h, c.leaves[..l.leafIndex + 1])
    && from <= c.blocks[l.leafIndex] <= to
  }

  /** A log source: `None` is a thrown request; otherwise only true logs, in any order,
      possibly with some missing or repeated. */
  type Source = (int, int) -> Option<seq<Log>>

  ghost predicate Truthful(h: Hash2, c: Chain, source: Source)
    requires |c.leaves| == |c.blocks|
  {
    forall from, to, i :: source(from, to).Some? && 0 <= i < |source(from, to).value| ==>
      TrueLog(h, c, source(from, to).value[i], from, to)
  }

  /** Every answer of the source contains every log of its range. */
  ghost predicate Complete(c: Chain, source: Source)
    requires |c.leaves| == |c.blocks|
  {
    forall from, to, k :: source(from, to).Some? && 0 <= k < |c.leaves| && from <= c.blocks[k] <= to ==>
      HasIndex(source(from, to).value, k)
  }

  ghost predicate HasIndex(logs: seq<Log>, k: nat) { exists i :: 0 <= i < |logs| && logs[i].leafIndex == k }

  // ---- the persisted tables ----------------------------------------------------

  datatype DbState = DbState(rows: map<nat, int>, lastBlock: Option<int>)

  /** The rows are leaves of the chain at their own index, short enough for 32-bit indices. */
  ghost predicate TrueRows(c: Chain, s: DbState) {
    forall k :: k in s.rows ==> k < |c.leaves| && k < TWO_31 && s.rows[k] == c.leaves[k]
  }

  ghost predicate Contiguous(rows: map<nat, int>) { forall k, j: nat :: k in rows && j < k ==> j in rows }

  /** The rows are a prefix of the chain's leaves. */
  ghost predicate PrefixRows(c: Chain, s: DbState) { TrueRows(c, s) && Contiguous(s.rows) }

  /** No log up to the stored cursor is missing from the rows. */
  ghost predicate CoversRows(c: Chain, s: DbState)
    requires |c.leaves| == |c.blocks|
  {
    s.lastBlock.Some? ==>
      forall k :: 0 <= k < |c.leaves| && c.blocks[k] <= s.lastBlock.value ==> k in s.rows
  }

  /** A restart on these tables misses nothing: the rows have a gap and are thrown away, or
      there are none, or none is missing up to the stored cursor. */
  ghost predicate Resumable(c: Chain, s: DbState)
    requires |c.leaves| == |c.blocks|
  {
    !Contiguous(s.rows) || s.rows == map[] || CoversRows(c, s)
  }

  /** The database. `trace` records its contents after every single write, so that a
      property of the whole trace holds wherever a crash falls, and `Crash` can go back to
      any of them. */
  class LeafDb {
    var rows: map<nat, int>
    var lastBlock: Option<int>
    var trace: seq<DbState>

    constructor ()
      ensures rows == map[] && lastBlock == None && trace == []
    {
      rows, lastBlock, trace := map[], None, [];
    }

    function State(): DbState reads this { DbState(rows, lastBlock) }

    method PutLeaf(k: nat, leaf: int)
      modifies this
      ensures rows == old(rows)[k := leaf] && lastBlock == old(lastBlock) && trace == old(trace) + [State()]
    {
      rows := rows[k := leaf];
      trace := trace + [State()];
    }

    method PutLastBlock(b: int)
      modifies this
      ensures rows == old(rows) && lastBlock == Some(b) && trace == old(trace) + [State()]
    {
      lastBlock := Some(b);
      trace := trace + [State()];
    }

    method DeleteLeaves()
      modifies this
      ensures rows == map[] && lastBlock == old(lastBlock) && trace == old(trace) + [State()]
    {
      rows := map[];
      trace := trace + [State()];
    }

    method DeleteMeta()
      modifies this
      ensures rows == old(rows) && lastBlock == None && trace == old(trace) + [State()]
    {
      lastBlock := None;
      trace := trace + [State()];
    }

    /** Only the first `writes` writes after `before` were made, when the state was `start`. */
    method Crash(before: nat, start: DbState, writes: nat)
      requires before <= |trace|
      modifies this
      ensures trace == old(trace)
      ensures State() == if writes == 0 then start else if before + writes <= |trace| then trace[before + writes - 1] else old(State())
    {
      var s := if writes == 0 then start else if before + writes <= |trace| then trace[before + writes - 1] else State();
      rows, lastBlock := s.rows, s.lastBlock;
    }

    /** The two statements of the reset, committed one after the other. */
    method Clear()
      modifies this
      ensures rows == map[] && lastBlock == None
      ensures trace == old(trace) + [DbState(map[], old(lastBlock))] + [State()]
    {
      DeleteLeaves();
      DeleteMeta();
    }
  }

  // ---- sorting of a window's logs ------------------------------------------------

  function Insert(l: Log, s: seq<Log>): (r: seq<Log>)
    requires SortedLogs(s)
    ensures SortedLogs(r)
    ensures forall x :: x in r <==> x == l || x in s
  {
    if s == [] || l.leafIndex <= s[0].leafIndex then [l] + s
    else
      var rest := Insert(l, s[1..]);
      assert forall x :: x in s <==> x == s[0] || x in s[1..];
      HeadLeast(s);
      PrependSorted(s[0], rest);
      [s[0]] + rest
  }

  lemma HeadLeast(s: seq<Log>)
    requires SortedLogs(s) && s != []
    ensures forall x :: x in s ==> s[0].leafIndex <= x.leafIndex
  {
  }

  lemma PrependSorted(x: Log, s: seq<Log>)
    requires SortedLogs(s) && forall y :: y in s ==> x.leafIndex <= y.leafIndex
    ensures SortedLogs([x] + s)
  {
    forall i, j | 0 <= i < j < |[x] + s| ensures ([x] + s)[i].leafIndex <= ([x] + s)[j].leafIndex {
      assert ([x] + s)[j] in s;
    }
  }

  predicate SortedLogs(s: seq<Log>) { forall i, j :: 0 <= i < j < |s| ==> s[i].leafIndex <= s[j].leafIndex }

  /** `.sort((a, b) => a.leafIndex - b.leafIndex)`. */
  function SortLogs(s: seq<Log>): (r: seq<Log>)
    ensures SortedLogs(r)
    ensures forall x :: x in r <==> x in s
  {
    if s == [] then []
    else
      assert forall x :: x in s <==> x == s[0] || x in s[1..];
      Insert(s[0], SortLogs(s[1..]))
  }

  class CachedMerkleTree {
    const h: Hash2
    const deployBlock: int
    const db: LeafDb?
    ghost const chain: Chain
    var nodes: Nodes
    var indexByLeaf: map<int, nat>
    var nextIndex: nat
    var lastBlock: int
    var ready: bool
    var consistent: bool

    /** The first `nextIndex` leaves of the chain are cached, as a tree and by value. */
    ghost predicate Mirrors() reads this {
      && nextIndex <= |chain.leaves| && nextIndex <= TWO_31
      && Represents(h, nodes, chain.leaves[..nextIndex])
      && forall x :: x in indexByLeaf <==> x in chain.leaves[..nextIndex]
    }

    /** The index stored for a leaf is that of its last occurrence. */
    ghost predicate IndexesLast() reads this {
      forall x :: x in indexByLeaf ==>
        && indexByLeaf[x] < nextIndex <= |chain.leaves| && chain.leaves[indexByLeaf[x]] == x
        && forall j :: indexByLeaf[x] < j < nextIndex ==> chain.leaves[j] != x
    }

    ghost predicate Valid() reads this {
      ChainOk(chain, deployBlock) && Injective2(h) && (consistent ==> Mirrors() && IndexesLast())
    }

    /** The tables hold a prefix of the chain; it is the cached one unless the tree diverged. */
    ghost predicate Stored() reads this, db {
      db != null ==>
        PrefixRows(chain, db.State()) && (consistent ==> forall k: nat :: k in db.rows <==> k < nextIndex)
    }

    /** Every log up to the cursor is cached. */
    ghost predicate Covers() reads this {
      |chain.leaves| == |chain.blocks| && forall k :: 0 <= k < |chain.leaves| && chain.blocks[k] <= lastBlock ==> k < nextIndex
    }

    constructor (h: Hash2, deployBlock: int, db: LeafDb?, ghost chain: Chain)
      requires ChainOk(chain, deployBlock)
      ensures this.h == h && this.deployBlock == deployBlock && this.db == db && this.chain == chain
      ensures nextIndex == 0 && consistent && !ready && lastBlock == Max(0, deployBlock - 1)
      ensures nodes == map[] && indexByLeaf == map[]
    {
      this.h, this.deployBlock, this.db, this.chain := h, deployBlock, db, chain;
      nodes, indexByLeaf, nextIndex := map[], map[], 0;
      lastBlock := Max(0, deployBlock - 1);
      ready, consistent := false, true;
    }

    predicate IsReady() reads this { ready && consistent }

    /** `append` (merkleTree.ts:109-123). */
    method Append(leaf: int) returns (root: int)
      modifies this`nodes, this`indexByLeaf, this`nextIndex
      ensures nodes == AppendNodes(h, old(nodes), old(nextIndex), leaf)
      ensures indexByLeaf == old(indexByLeaf)[leaf := old(nextIndex)]
      ensures nextIndex == old(nextIndex) + 1
      ensures root == GetNode(h, nodes, TREE_DEPTH, 0)
    {
      var idx := nextIndex;
      nodes := nodes[(0, idx) := leaf];
      indexByLeaf := indexByLeaf[leaf := idx];
      ghost var start := nodes;
      var i: int := idx;
      var level: nat := 0;
      while level < TREE_DEPTH
        invariant 0 <= level <= TREE_DEPTH
        invariant i == Shifted(idx, level) && nodes == Climb(h, start, idx, level)
        invariant nextIndex == idx && indexByLeaf == old(indexByLeaf)[leaf := idx]
      {
        var parent := ShiftRight1(i);
        var left := GetNode(h, nodes, level, parent * 2);
        var right := GetNode(h, nodes, level, parent * 2 + 1);
        nodes := nodes[(level + 1, parent) := h(left, right)];
        i := parent;
        level := level + 1;
      }
      nextIndex := idx + 1;
      root := GetNode(h, nodes, TREE_DEPTH, 0);
    }

    /** `proofForIndex` (merkleTree.ts:129-139). */
    method ProofForIndex(idx: nat) returns (p: Proof)
      ensures |p.path| == TREE_DEPTH && IsServed(h, nodes, idx, p.path, p.bits)
      ensures p.root == GetNode(h, nodes, TREE_DEPTH, 0) && p.leafIndex == idx
    {
      var path, bits := [], [];
      var i: int := idx;
      var level: nat := 0;
      while level < TREE_DEPTH
        invariant 0 <= level <= TREE_DEPTH && |path| == level
        invariant i == Shifted(idx, level) && IsServed(h, nodes, idx, path, bits)
      {
        path := path + [GetNode(h, nodes, level, Xor1(i))];
        bits := bits + [And1(i)];
        i := ShiftRight1(i);
        level := level + 1;
      }
      p := Proof(path, bits, GetNode(h, nodes, TREE_DEPTH, 0), idx);
    }

    /** `proofFor` (merkleTree.ts:142-146). A served proof is for the last position of the
        leaf, folds to its root, and that root is the one the chain emitted with the newest
        cached leaf. */
    method ProofFor(commitment: int) returns (r: Option<Proof>)
      requires Valid()
      ensures r.Some? <==> ready && consistent && commitment in chain.leaves[..nextIndex]
      ensures r.Some? ==>
        var p := r.value;
        && 0 < nextIndex <= |chain.leaves| && p.root == Root(h, chain.leaves[..nextIndex])
        && p.leafIndex < nextIndex && chain.leaves[p.leafIndex] == commitment
        && (forall j :: p.leafIndex < j < nextIndex ==> chain.leaves[j] != commitment)
        && |p.path| == TREE_DEPTH && IsPath(h, chain.leaves[..nextIndex], p.leafIndex, p.path, p.bits)
        && Fold(h, commitment, p.path, p.bits) == p.root
    {
      if !IsReady() || commitment !in indexByLeaf {
        return None;
      }
      var p := ProofForIndex(indexByLeaf[commitment]);
      ghost var cached := chain.leaves[..nextIndex];
      ServedIsPath(h, nodes, cached, p.leafIndex, p.path, p.bits);
      Pow2Of32();
      PathFoldsToRoot(h, cached, p.leafIndex, p.path, p.bits);
      return Some(p);
    }

    /** What has been added to the cache lies in blocks up to the limit. */
    ghost predicate AddedUpTo(before: nat, limit: int) reads this {
      nextIndex > before ==> 0 < nextIndex <= |chain.blocks| && chain.blocks[nextIndex - 1] <= limit
    }

    /** The trace only grows, and every added state is a prefix of the chain. */
    ghost predicate TraceExtends(before: seq<DbState>, after: seq<DbState>) {
      before <= after && forall i :: |before| <= i < |after| ==> PrefixRows(chain, after[i])
    }

    /** No added state has a cursor past a log that is missing from its rows. */
    ghost predicate TraceCovers(before: seq<DbState>, after: seq<DbState>)
      requires |chain.leaves| == |chain.blocks|
    {
      before <= after && forall i :: |before| <= i < |after| ==> CoversRows(chain, after[i])
    }

    lemma EmptyMirrors()
      requires nodes == map[] && indexByLeaf == map[] && nextIndex == 0
      ensures Mirrors() && IndexesLast()
    {
      assert chain.leaves[..0] == [];
      forall level: nat, i: int | level <= TREE_DEPTH ensures GetNode(h, nodes, level, i) == Node(h, chain.leaves[..0], level, i) {
        NodeEmpty(h, level, i);
      }
    }

    /** `resetInMemory` (merkleTree.ts:148-154). */
    method Reset()
      requires Valid()
      modifies this`nodes, this`indexByLeaf, this`nextIndex, this`lastBlock, db
      ensures Valid() && Stored() && nextIndex == 0 && lastBlock == Max(0, deployBlock - 1)
      ensures db != null ==> TraceExtends(old(db.trace), db.trace)
    {
      nodes, indexByLeaf, nextIndex := map[], map[], 0;
      lastBlock := Max(0, deployBlock - 1);
      EmptyMirrors();
      if db != null { db.Clear(); }
    }

    /** Appending the chain's next leaf keeps the mirror, as long as indices fit 31 bits. */
    method AppendNext(leaf: int) returns (root: int)
      requires Valid() && consistent && nextIndex < |chain.leaves| && leaf == chain.leaves[nextIndex]
      modifies this`nodes, this`indexByLeaf, this`nextIndex
      ensures nextIndex == old(nextIndex) + 1
      ensures old(nextIndex) < TWO_31 ==> Mirrors() && IndexesLast()
      ensures root == Root(h, chain.leaves[..nextIndex]) <==> old(nextIndex) < TWO_31
    {
      ghost var before := chain.leaves[..nextIndex];
      assert chain.leaves[..nextIndex + 1] == before + [leaf];
      AppendRootExact(h, nodes, before, leaf);
      if nextIndex < TWO_31 { AppendRepresents(h, nodes, before, leaf); }
      root := Append(leaf);
    }

    /** `loadFromDb` (merkleTree.ts:156-172): a gap in the rows discards everything,
        otherwise the cached leaves are exactly the persisted ones. */
    method LoadFromDb()
      requires Valid() && consistent && nextIndex == 0 && lastBlock == Max(0, deployBlock - 1)
      requires db != null ==> TrueRows(chain, db.State())
      modifies this`nodes, this`indexByLeaf, this`nextIndex, this`lastBlock, db
      ensures Valid() && Stored()
      ensures Covers() <==> (db != null ==> old(Resumable(chain, db.State())))
      ensures db != null ==> TraceExtends(old(db.trace), db.trace)
      ensures db != null && nextIndex > 0 && db.lastBlock.Some? ==> lastBlock == db.lastBlock.value
      ensures db != null ==> db.rows == if old(Contiguous(db.rows)) then old(db.rows) else map[]
      ensures db != null && old(Contiguous(db.rows)) ==> db.State() == old(db.State()) && db.trace == old(db.trace)
    {
      if db == null { return; }
      var rest := db.rows.Keys;
      while rest != {}
        invariant Valid() && db.State() == old(db.State()) && db.trace == old(db.trace) && lastBlock == Max(0, deployBlock - 1)
        invariant forall k: nat :: k in rest <==> k in db.rows && k >= nextIndex
        invariant forall k: nat :: k < nextIndex ==> k in db.rows
        decreases rest
      {
        Least(rest);
        var k :| k in rest && forall j :: j in rest ==> k <= j;
        if k != nextIndex {
          assert nextIndex !in db.rows;
          Reset();
          return;
        }
        var _ := AppendNext(db.rows[k]);
        rest := rest - {k};
      }
      if db.lastBlock.Some? && nextIndex > 0 { lastBlock := db.lastBlock.value; }
      LoadedCovers();
    }

    lemma LoadedCovers()
      requires db != null && Valid() && consistent && forall k: nat :: k in db.rows <==> k < nextIndex
      requires lastBlock == if db.lastBlock.Some? && nextIndex > 0 then db.lastBlock.value else Max(0, deployBlock - 1)
      ensures Covers() <==> Resumable(chain, db.State())
    {
      assert Contiguous(db.rows);
      assert nextIndex > 0 ==> 0 in db.rows;
      assert nextIndex == 0 ==> db.rows.Keys == {};
      if nextIndex == 0 || db.lastBlock.None? {
        assert Covers();
      } else if Covers() {
        assert CoversRows(chain, db.State());
      } else {
        var k :| 0 <= k < |chain.leaves| && chain.blocks[k] <= lastBlock && k >= nextIndex;
        assert k !in db.rows;
      }
    }

    /** One log of a window (merkleTree.ts:213-234). Returns true when the scan must stop. */
    method Ingest(ev: Log, ghost from: int, ghost to: int) returns (stop: bool)
      requires Valid() && Stored() && consistent && TrueLog(h, chain, ev, from, to)
      modifies this`nodes, this`indexByLeaf, this`nextIndex, this`lastBlock, this`consistent, db
      ensures Valid() && Stored()
      ensures db != null ==> TraceExtends(old(db.trace), db.trace)
      ensures ev.leafIndex < old(nextIndex) ==> !stop && nextIndex == old(nextIndex)
      ensures ev.leafIndex > old(nextIndex) ==> stop && consistent && nextIndex == 0 && lastBlock == Max(0, deployBlock - 1)
      ensures ev.leafIndex == old(nextIndex) ==> stop == (old(nextIndex) >= TWO_31) && consistent == !stop && lastBlock == old(lastBlock)
      ensures !stop ==> consistent && lastBlock == old(lastBlock) && nextIndex == Max(old(nextIndex), ev.leafIndex + 1)
      ensures !stop && db != null ==> db.lastBlock == old(db.lastBlock)
      ensures AddedUpTo(old(nextIndex), to)
      ensures !stop && db != null && old(CoversRows(chain, db.State())) ==> TraceCovers(old(db.trace), db.trace) && CoversRows(chain, db.State())
    {
      stop := false;
      if ev.leafIndex < nextIndex { return; }
      if ev.leafIndex != nextIndex {
        Reset();
        return true;
      }
      var computed := AppendNext(ev.leaf);
      if computed != ev.newRoot {
        consistent := false;
        return true;
      }
      if db != null { db.PutLeaf(ev.leafIndex, ev.leaf); }
    }

    /** The logs of one window, sorted. With a complete window that starts right after the
        cursor nothing stops the scan and no log of the window is left out. */
    method IngestAll(events: seq<Log>, ghost from: int, ghost to: int) returns (stop: bool)
      requires Valid() && Stored() && consistent && SortedLogs(events)
      requires forall i :: 0 <= i < |events| ==> TrueLog(h, chain, events[i], from, to)
      modifies this`nodes, this`indexByLeaf, this`nextIndex, this`lastBlock, this`consistent, db
      ensures Valid() && Stored()
      ensures db != null ==> TraceExtends(old(db.trace), db.trace)
      ensures stop && consistent ==> nextIndex == 0 && lastBlock == Max(0, deployBlock - 1)
      ensures !stop ==> consistent && lastBlock == old(lastBlock)
      ensures AddedUpTo(old(nextIndex), to)
      ensures stop ==> lastBlock == old(lastBlock) || lastBlock == Max(0, deployBlock - 1)
      ensures AllIn(events, from, to) && old(Covers()) && from == old(lastBlock) + 1 && |chain.leaves| <= TWO_31 ==>
                !stop && forall k :: 0 <= k < |chain.leaves| && chain.blocks[k] <= to ==> k < nextIndex
      ensures !stop && db != null && old(CoversRows(chain, db.State())) ==> TraceCovers(old(db.trace), db.trace) && CoversRows(chain, db.State())
    {
      ghost var full := AllIn(events, from, to) && Covers() && from == lastBlock + 1 && |chain.leaves| <= TWO_31;
      var n := 0;
      while n < |events|
        invariant 0 <= n <= |events|
        invariant Valid() && Stored() && consistent && lastBlock == old(lastBlock)
        invariant nextIndex >= old(nextIndex) && AddedUpTo(old(nextIndex), to)
        invariant db != null ==> TraceExtends(old(db.trace), db.trace)
        invariant forall i :: 0 <= i < n ==> events[i].leafIndex < nextIndex
        invariant db != null && old(CoversRows(chain, db.State())) ==> TraceCovers(old(db.trace), db.trace) && CoversRows(chain, db.State())
      {
        if full && events[n].leafIndex > nextIndex {
          NoGap(events, n, from, to);
        }
        stop := Ingest(events[n], from, to);
        if stop { return; }
        n := n + 1;
      }
      stop := false;
      if full {
        forall k | 0 <= k < |chain.leaves| && chain.blocks[k] <= to ensures k < nextIndex {
          if chain.blocks[k] >= from {
            assert HasIndex(events, k);
          }
        }
      }
    }

    ghost predicate AllIn(events: seq<Log>, from: int, to: int) {
      |chain.leaves| == |chain.blocks| &&
      forall k :: 0 <= k < |chain.leaves| && from <= chain.blocks[k] <= to ==> HasIndex(events, k)
    }

    /** In a complete window the next missing leaf comes before any later one. */
    lemma NoGap(events: seq<Log>, n: nat, from: int, to: int)
      requires Valid() && consistent && SortedLogs(events) && n < |events| && AllIn(events, from, to) && Covers()
      requires from == lastBlock + 1 && TrueLog(h, chain, events[n], from, to)
      requires forall i :: 0 <= i < n ==> events[i].leafIndex < nextIndex
      ensures events[n].leafIndex <= nextIndex
    {
      var last := events[n].leafIndex;
      forall k | nextIndex <= k <= last ensures HasIndex(events, k) {
        assert chain.blocks[k] <= chain.blocks[last];
      }
      assert nextIndex <= last ==> HasIndex(events, nextIndex);
    }

    /** One window of the scan (merkleTree.ts:191-242). */
    method ScanWindow(source: Source, from: int, to: int, logs: seq<Log>) returns (stop: bool)
      requires Valid() && Stored() && consistent && Truthful(h, chain, source) && source(from, to) == Some(logs)
      requires from == lastBlock + 1
      modifies this`nodes, this`indexByLeaf, this`nextIndex, this`lastBlock, this`consistent, db
      ensures Valid() && Stored()
      ensures db != null ==> TraceExtends(old(db.trace), db.trace)
      ensures !stop ==> consistent && lastBlock == to && (db != null ==> db.lastBlock == Some(to))
      ensures stop ==> lastBlock == old(lastBlock) || lastBlock == Max(0, deployBlock - 1)
      ensures AddedUpTo(old(nextIndex), to)
      ensures Complete(chain, source) && old(Covers()) && |chain.leaves| <= TWO_31 ==>
                !stop && Covers() && (old(TablesCover()) ==> TablesCover() && (db != null ==> TraceCovers(old(db.trace), db.trace)))
    {
      var events := SortLogs(logs);
      WindowTrue(source, from, to, events);
      stop := IngestAll(events, from, to);
      if stop { return; }
      lastBlock := to;
      if db != null { db.PutLastBlock(to); }
    }

    /** The stored cursor is not past a log that is missing from the stored rows. */
    ghost predicate TablesCover() reads this, db {
      db != null ==> |chain.leaves| == |chain.blocks| && CoversRows(chain, db.State())
    }

    /** `sync` (merkleTree.ts:184-244). Whatever the source omits, the cache stays a prefix
        of the chain and so does every state of the tables; only leaves at least three blocks
        deep are added; and it throws only if a request does. If the source omits nothing, the
        scan also never loses a log, and unless a request throws it ends at the confirmed head,
        in memory and on disk. */
    method Sync(head: int, source: Source) returns (threw: bool)
      requires Valid() && Stored() && Truthful(h, chain, source)
      modifies this`nodes, this`indexByLeaf, this`nextIndex, this`lastBlock, this`consistent, db
      ensures Valid() && Stored()
      ensures db != null ==> TraceExtends(old(db.trace), db.trace)
      ensures Complete(chain, source) && old(Covers()) && old(consistent) && |chain.leaves| <= TWO_31 ==>
                && consistent && Covers()
                && (!threw ==> lastBlock == Max(old(lastBlock), head - 3))
                && (db != null && lastBlock > old(lastBlock) ==> db.lastBlock == Some(lastBlock))
                && (old(TablesCover()) ==> TablesCover() && (db != null ==> TraceCovers(old(db.trace), db.trace)))
      ensures AddedUpTo(old(nextIndex), head - 3) && lastBlock <= Max(old(lastBlock), Max(head - 3, Max(0, deployBlock - 1)))
      ensures threw ==> exists a, b :: old(lastBlock) < a <= b <= head - 3 && source(a, b) == None
    {
      threw := false;
      if !consistent { return; }
      var target := head - CONFIRMATIONS;
      if target <= lastBlock { return; }
      ghost var full := Complete(chain, source) && Covers() && |chain.leaves| <= TWO_31;
      var cursor := lastBlock + 1;
      while cursor <= target && consistent
        invariant Valid() && Stored() && consistent
        invariant db != null ==> TraceExtends(old(db.trace), db.trace)
        invariant cursor == lastBlock + 1 && old(lastBlock) <= lastBlock <= target
        invariant AddedUpTo(old(nextIndex), target)
        invariant full ==> Covers()
        invariant full && db != null && lastBlock > old(lastBlock) ==> db.lastBlock == Some(lastBlock)
        invariant full && old(TablesCover()) ==> TablesCover() && (db != null ==> TraceCovers(old(db.trace), db.trace))
        decreases target - cursor
      {
        var windowEnd := Min(cursor + SCAN_WINDOW - 1, target);
        var logs := source(cursor, windowEnd);
        if logs.None? { return true; }
        var stop := ScanWindow(source, cursor, windowEnd, logs.value);
        if stop { return; }
        cursor := windowEnd + 1;
      }
    }

    /** `catchUp` (merkleTree.ts:283-288) of a freshly constructed cache: load what was
        persisted, then scan; the cache serves proofs only once the scan has returned. */
    method CatchUp(head: int, source: Source) returns (threw: bool)
      requires Valid() && Truthful(h, chain, source)
      requires consistent && nextIndex == 0 && lastBlock == Max(0, deployBlock - 1)
      requires db != null ==> TrueRows(chain, db.State())
      modifies this, db
      ensures Valid() && Stored()
      ensures db != null ==> TraceExtends(old(db.trace), db.trace)
      ensures ready <==> old(ready) || !threw
      ensures threw ==> exists a, b :: a <= b <= head - 3 && source(a, b) == None
      ensures !threw && Complete(chain, source) && |chain.leaves| <= TWO_31
              && (db != null ==> old(Resumable(chain, db.State()))) ==>
                consistent && Covers() && lastBlock >= head - CONFIRMATIONS
      ensures Complete(chain, source) && |chain.leaves| <= TWO_31 && db != null
              && old(PrefixRows(chain, db.State()) && CoversRows(chain, db.State())) ==>
                TraceCovers(old(db.trace), db.trace) && CoversRows(chain, db.State())
    {
      LoadFromDb();
      threw := Sync(head, source);
      if !threw { ready := true; }
    }

    lemma WindowTrue(source: Source, from: int, to: int, events: seq<Log>)
      requires ChainOk(chain, deployBlock) && Truthful(h, chain, source) && source(from, to).Some?
      requires forall x :: x in events <==> x in source(from, to).value
      ensures forall i :: 0 <= i < |events| ==> TrueLog(h, chain, events[i], from, to)
      ensures Complete(chain, source) ==> AllIn(events, from, to)
    {
      var logs := source(from, to).value;
      forall i | 0 <= i < |events| ensures TrueLog(h, chain, events[i], from, to) {
        assert events[i] in logs;
        var j :| 0 <= j < |logs| && logs[j] == events[i];
      }
      if Complete(chain, source) {
        forall k | 0 <= k < |chain.leaves| && from <= chain.blocks[k] <= to ensures HasIndex(events, k) {
          assert HasIndex(logs, k);
          var j :| 0 <= j < |logs| && logs[j].leafIndex == k;
          assert logs[j] in events;
          var i :| 0 <= i < |events| && events[i] == logs[j];
        }
      }
    }
  }

  // ---- any number of starts and crashes ----------------------------------------------

  /** One life of the process: what it asks, and after how many writes it crashes. */
  datatype Life = Life(head: int, source: Source, writes: nat)

  ghost predicate AllTruthful(h: Hash2, c: Chain, lives: seq<Life>)
    requires |c.leaves| == |c.blocks|
  {
    forall i :: 0 <= i < |lives| ==> Truthful(h, c, lives[i].source)
  }

  ghost predicate AllComplete(c: Chain, lives: seq<Life>)
    requires |c.leaves| == |c.blocks|
  {
    forall i :: 0 <= i < |lives| ==> Complete(c, lives[i].source)
  }

  /** One start on the tables, and the crash that ends it. */
  method Live(h: Hash2, deployBlock: int, db: LeafDb, life: Life, ghost chain: Chain)
    requires ChainOk(chain, deployBlock) && Injective2(h) && Truthful(h, chain, life.source) && PrefixRows(chain, db.State())
    modifies db
    ensures PrefixRows(chain, db.State())
    ensures Complete(chain, life.source) && |chain.leaves| <= TWO_31 && old(CoversRows(chain, db.State())) ==> CoversRows(chain, db.State())
  {
    var before, start := |db.trace|, db.State();
    var cache := new CachedMerkleTree(h, deployBlock, db, chain);
    cache.EmptyMirrors();
    var threw := cache.CatchUp(life.head, life.source);
    db.Crash(before, start, life.writes);
  }

  /** Whatever the sources omit, over any sequence of starts and crashes the tables stay a
      prefix of the chain. If they omit nothing, no crash ever leaves a cursor past a missing
      leaf, and the next start that is not interrupted reaches the head without a loss. */
  method StartAfterCrashes(h: Hash2, deployBlock: int, db: LeafDb, lives: seq<Life>, head: int, source: Source, ghost chain: Chain)
    returns (cache: CachedMerkleTree, threw: bool)
    requires ChainOk(chain, deployBlock) && Injective2(h) && AllTruthful(h, chain, lives) && Truthful(h, chain, source)
    requires PrefixRows(chain, db.State())
    modifies db
    ensures fresh(cache) && cache.Valid() && cache.Stored() && cache.db == db && cache.chain == chain
    ensures threw ==> exists a, b :: a <= b <= head - 3 && source(a, b) == None
    ensures !threw && AllComplete(chain, lives) && Complete(chain, source) && |chain.leaves| <= TWO_31 && old(CoversRows(chain, db.State())) ==>
              cache.consistent && cache.ready && cache.Covers() && cache.lastBlock >= head - CONFIRMATIONS
  {
    var i := 0;
    while i < |lives|
      invariant 0 <= i <= |lives| && PrefixRows(chain, db.State())
      invariant AllComplete(chain, lives) && |chain.leaves| <= TWO_31 && old(CoversRows(chain, db.State())) ==> CoversRows(chain, db.State())
    {
      Live(h, deployBlock, db, lives[i], chain);
      i := i + 1;
    }
    cache := new CachedMerkleTree(h, deployBlock, db, chain);
    cache.EmptyMirrors();
    threw := cache.CatchUp(head, source);
  }

  /** The reset can leave tables that are not resumable, whatever they held before: a crash
      between its two statements keeps the old cursor, the next scan stores the first leaf
      again, and a crash before the cursor is written makes the following start believe the
      old cursor. The leaves up to it are then not asked for again. */
  method CrashInsideReset(h: Hash2, deployBlock: int, db: LeafDb, first: Log, ghost chain: Chain) returns (cache: CachedMerkleTree)
    requires ChainOk(chain, deployBlock) && Injective2(h)
    requires PrefixRows(chain, db.State()) && CoversRows(chain, db.State())
    requires |chain.leaves| >= 2 && db.lastBlock.Some? && chain.blocks[1] <= db.lastBlock.value
    requires first.leafIndex == 0 && TrueLog(h, chain, first, chain.blocks[0], chain.blocks[0])
    modifies db
    ensures fresh(cache) && cache.Valid() && cache.chain == chain && cache.consistent
    ensures PrefixRows(chain, db.State()) && !Resumable(chain, db.State())
    ensures cache.nextIndex == 1 && cache.lastBlock == old(db.lastBlock.value) && !cache.Covers()
  {
    db.DeleteLeaves();
    StoreFirst(h, deployBlock, db, first, chain);
    assert 0 in db.rows && 1 !in db.rows && !CoversRows(chain, db.State());
    cache := new CachedMerkleTree(h, deployBlock, db, chain);
    cache.EmptyMirrors();
    cache.LoadFromDb();
  }

  /** A start that crashes after storing the first leaf. */
  method StoreFirst(h: Hash2, deployBlock: int, db: LeafDb, first: Log, ghost chain: Chain)
    requires ChainOk(chain, deployBlock) && Injective2(h) && db.rows == map[]
    requires first.leafIndex == 0 && |chain.leaves| > 0 && TrueLog(h, chain, first, chain.blocks[0], chain.blocks[0])
    modifies db
    ensures PrefixRows(chain, db.State()) && (forall k: nat :: k in db.rows <==> k < 1) && db.lastBlock == old(db.lastBlock)
  {
    var cache := new CachedMerkleTree(h, deployBlock, db, chain);
    cache.EmptyMirrors();
    cache.LoadFromDb();
    var stop := cache.Ingest(first, chain.blocks[0], chain.blocks[0]);
  }

  lemma LeastOfTwo(s: set<nat>, a: nat, b: nat)
    requires a in s && b in s && forall j :: j in s - {a} ==> b <= j
    ensures exists k :: k in s && forall j :: j in s ==> k <= j
  {
    forall j | j in s ensures Min(a, b) <= j { assert j == a || j in s - {a}; }
    assert Min(a, b) in s;
  }

  lemma {:induction false} Least(s: set<nat>)
    requires s != {}
    ensures exists k :: k in s && forall j :: j in s ==> k <= j
    decreases |s|
  {
    var a :| a in s;
    var rest := s - {a};
    if rest == {} {
      assert s == {a};
      assert forall j :: j in s ==> a <= j;
    } else {
      Least(rest);
      var b :| b in rest && forall j :: j in rest ==> b <= j;
      LeastOfTwo(s, a, b);
    }
  }
}
