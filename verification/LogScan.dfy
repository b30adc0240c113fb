/** Adaptive paging of log queries over an unreliable node. */
module LogScan {
  import opened Arith
  import opened Wrappers

  /** A log: who emitted it, its event kind, its position and its payload. */
  datatype Log = Log(address: int, kind: int, block: int, index: nat, tx: int, args: seq<int>)

  /** The logs of each block, in order. */
  type Chain = int -> seq<Log>

  ghost predicate ChainOk(c: Chain) {
    && (forall b, i :: 0 <= i < |c(b)| ==> c(b)[i].block == b)
    && (forall b, i, j :: 0 <= i < j < |c(b)| ==> c(b)[i].index < c(b)[j].index)
  }

  /** The logs of a block range, oldest first. */
  function LogsIn(c: Chain, from: int, to: int): seq<Log>
    decreases 1 + to - from
  {
    if from > to then [] else LogsIn(c, from, to - 1) + c(to)
  }

  lemma {:induction false} LogsSplit(c: Chain, from: int, mid: int, to: int)
    requires from <= mid + 1 <= to + 1
    ensures LogsIn(c, from, to) == LogsIn(c, from, mid) + LogsIn(c, mid + 1, to)
    decreases 1 + to - mid
  {
    if mid < to {
      LogsSplit(c, from, mid, to - 1);
      assert LogsIn(c, from, to) == (LogsIn(c, from, mid) + LogsIn(c, mid + 1, to - 1)) + c(to);
    }
  }

  /** The same behind what an earlier part of the scan has found. */
  lemma LogsAfter(c: Chain, out: seq<Log>, from: int, mid: int, to: int)
    requires from <= mid + 1 <= to + 1
    ensures out + LogsIn(c, from, to) == (out + LogsIn(c, from, mid)) + LogsIn(c, mid + 1, to)
  {
    LogsSplit(c, from, mid, to);
  }

  /** How the node answers its n-th request. `Served` returns exactly the range's logs. */
  datatype Answer = Served | RangeError | RateLimit

  type Node = (nat, int, int) -> Answer

  /** The node refuses the range: a rate limit, or a single block it cannot serve. */
  ghost predicate NodeRefuses(node: Node, from: int, to: int) {
    || (exists n: nat, a, b :: from <= a <= b <= to && node(n, a, b) == RateLimit)
    || (exists n: nat, a :: from <= a <= to && node(n, a, a) == RangeError)
  }

  datatype ScanError = Limited | BlockFailed

  function Log2(n: int): nat { if n <= 1 then 0 else 1 + Log2(n / 2) }

  lemma {:induction false} Log2Monotone(m: int, n: int)
    requires m <= n
    ensures Log2(m) <= Log2(n)
  {
    if m > 1 { Log2Monotone(m / 2, n / 2); }
  }

  /** How a scan goes: what stops it, after how many requests, and with which span. */
  datatype Course = Course(failure: Option<ScanError>, requests: nat, span: nat)

  function Scan(node: Node, from: int, to: int, span: nat, n: nat): Course
    requires span >= 1
    decreases 1 + to - from, span
  {
    if from > to then Course(None, n, span)
    else
      var end := Min(from + span - 1, to);
      match node(n, from, end)
      case Served => Scan(node, end + 1, to, span, n + 1)
      case RateLimit => Course(Some(Limited), n + 1, span)
      case RangeError => if end == from then Course(Some(BlockFailed), n + 1, span) else Scan(node, from, to, Max(1, span / 2), n + 1)
  }

  /** At most one request for each block and one for each halving, and one more that fails. */
  lemma {:induction false} ScanBound(node: Node, from: int, to: int, span: nat, n: nat)
    requires span >= 1
    ensures var c := Scan(node, from, to, span, n);
      c.requests <= n + Max(0, to - from + 1) + Log2(span) + (if c.failure.None? then 0 else 1)
    decreases 1 + to - from, span
  {
    if from <= to {
      var end := Min(from + span - 1, to);
      match node(n, from, end)
      case Served => ScanBound(node, end + 1, to, span, n + 1);
      case RateLimit =>
      case RangeError => if end != from { ScanBound(node, from, to, Max(1, span / 2), n + 1); }
    }
  }

  /** A scan fails only on a rate limit or on a single block that the node cannot serve. */
  lemma {:induction false} ScanCauses(node: Node, from: int, to: int, span: nat, n: nat)
    requires span >= 1
    ensures var failure := Scan(node, from, to, span, n).failure;
      && (failure == Some(Limited) ==> exists k: nat, a, b :: from <= a <= b <= to && node(k, a, b) == RateLimit)
      && (failure == Some(BlockFailed) ==> exists k: nat, a :: from <= a <= to && node(k, a, a) == RangeError)
    decreases 1 + to - from, span
  {
    if from <= to {
      var end := Min(from + span - 1, to);
      match node(n, from, end)
      case Served => ScanCauses(node, end + 1, to, span, n + 1);
      case RateLimit =>
      case RangeError => if end != from { ScanCauses(node, from, to, Max(1, span / 2), n + 1); }
    }
  }

  /** The node serves every range of at most `limit` blocks. */
  ghost predicate Accepts(node: Node, limit: nat) {
    limit >= 1 && forall n: nat, a, b :: a <= b < a + limit ==> node(n, a, b) == Served
  }

  /** If the node accepts ranges up to some limit and sets no rate, the scan returns; its span
      never falls below half the limit, and so it needs at most one request for each so many
      blocks, and one for each halving. */
  lemma {:induction false} ScanEconomical(node: Node, from: int, to: int, span: nat, n: nat, limit: nat)
    requires span >= 1 && Accepts(node, limit) && forall k: nat, a, b :: node(k, a, b) != RateLimit
    ensures var c := Scan(node, from, to, span, n); var m := Min(span, (limit + 1) / 2);
      && c.failure.None? && c.span >= m >= 1 && c.requests >= n
      && (c.requests - n - Log2(span)) * m <= Max(0, to - from + 1) + m - 1
    decreases 1 + to - from, span
  {
    var m := Min(span, (limit + 1) / 2);
    if from > to {
      Nonpositive(0 - Log2(span), m);
    } else {
      var end := Min(from + span - 1, to);
      if node(n, from, end) == Served {
        var c := Scan(node, end + 1, to, span, n + 1);
        ScanEconomical(node, end + 1, to, span, n + 1, limit);
        assert (c.requests - n - Log2(span)) * m == (c.requests - (n + 1) - Log2(span)) * m + m;
        if end == to { Nonpositive(0 - Log2(span), m); }
      } else {
        assert end >= from + limit;
        ScanEconomical(node, from, to, Max(1, span / 2), n + 1, limit);
      }
    }
  }

  lemma Nonpositive(a: int, m: int)
    requires a <= 0 <= m
    ensures a * m <= 0
  {
  }

  /** A node that serves everything is asked once for each span of blocks. */
  lemma {:induction false} ScanServed(node: Node, from: int, to: int, span: nat, n: nat)
    requires span >= 1 && forall k: nat, a, b :: node(k, a, b) == Served
    ensures Scan(node, from, to, span, n) == Course(None, n + (if from > to then 0 else (to - from + span) / span), span)
    decreases 1 + to - from
  {
    if from <= to {
      var end := Min(from + span - 1, to);
      ScanServed(node, end + 1, to, span, n + 1);
      if end < to {
        OneMore(to - from, span);
        assert to - (end + 1) + span == to - from;
      } else {
        DivModUnique(to - from + span, 1, to - from, span);
      }
    }
  }

  lemma OneMore(x: int, d: int)
    requires d >= 1
    ensures (x + d) / d == x / d + 1
  {
    DivModUnique(x + d, x / d + 1, x % d, d);
  }

  /** The loop of merkle.ts:171-190 and of logScan.ts:78-95. */
  method PageThrough(c: Chain, node: Node, fromBlock: int, toBlock: int, startChunk: int)
    returns (r: Result<seq<Log>, ScanError>, requests: nat)
    ensures r.Success? ==> r.value == LogsIn(c, fromBlock, toBlock)
    ensures var course := Scan(node, fromBlock, toBlock, Max(1, startChunk), 0);
            requests == course.requests && course.failure == (if r.Success? then None else Some(r.error))
  {
    var out := [];
    var from := fromBlock;
    var chunk := Max(1, startChunk);
    requests := 0;
    ghost var course := Scan(node, from, toBlock, chunk, 0);
    while from <= toBlock
      invariant chunk >= 1 && fromBlock <= from <= Max(fromBlock, toBlock + 1)
      invariant LogsIn(c, fromBlock, toBlock) == out + LogsIn(c, from, toBlock)
      invariant Scan(node, from, toBlock, chunk, requests) == course
      decreases toBlock - from, chunk
    {
      var to := Min(from + chunk - 1, toBlock);
      var answer := node(requests, from, to);
      requests := requests + 1;
      match answer
      case Served =>
        LogsAfter(c, out, from, to, toBlock);
        out := out + LogsIn(c, from, to);
        from := to + 1;
      case RateLimit =>
        return Failure(Limited), requests;
      case RangeError =>
        if to == from { return Failure(BlockFailed), requests; }
        chunk := Max(1, chunk / 2);
    }
    return Success(out), requests;
  }

  /** `getLogsChunked` (merkle.ts:163-191). Whatever ranges the node refuses, a scan that
      returns has every log of the range once and in order; it makes at most one request per
      block and one per halving, and it fails only on a rate limit or on a single block. */
  method GetLogsChunked(c: Chain, node: Node, fromBlock: int, toBlock: int, startChunk: int)
    returns (r: Result<seq<Log>, ScanError>, requests: nat)
    ensures r.Success? ==> r.value == LogsIn(c, fromBlock, toBlock)
    ensures r.Failure? && r.error == Limited ==> exists n: nat, a, b :: fromBlock <= a <= b <= toBlock && node(n, a, b) == RateLimit
    ensures r.Failure? && r.error == BlockFailed ==> exists n: nat, a :: fromBlock <= a <= toBlock && node(n, a, a) == RangeError
    ensures requests <= Max(0, toBlock - fromBlock + 1) + Log2(Max(1, startChunk)) + 1
    ensures r.Success? ==> requests <= Max(0, toBlock - fromBlock + 1) + Log2(Max(1, startChunk))
    ensures var course := Scan(node, fromBlock, toBlock, Max(1, startChunk), 0);
            requests == course.requests && course.failure == (if r.Success? then None else Some(r.error))
  {
    r, requests := PageThrough(c, node, fromBlock, toBlock, startChunk);
    ScanBound(node, fromBlock, toBlock, Max(1, startChunk), 0);
    ScanCauses(node, fromBlock, toBlock, Max(1, startChunk), 0);
  }

  /** `queryFilterChunked` (logScan.ts:70-96): the same loop, and the same promises, from a
      clamped start. */
  method QueryFilterChunked(c: Chain, node: Node, fromBlock: int, toBlock: int, startChunk: int)
    returns (r: Result<seq<Log>, ScanError>, requests: nat)
    ensures var start := Max(0, fromBlock);
            && (r.Success? ==> r.value == LogsIn(c, start, toBlock))
            && (r.Failure? && r.error == Limited ==> exists n: nat, a, b :: start <= a <= b <= toBlock && node(n, a, b) == RateLimit)
            && (r.Failure? && r.error == BlockFailed ==> exists n: nat, a :: start <= a <= toBlock && node(n, a, a) == RangeError)
            && requests <= Max(0, toBlock - start + 1) + Log2(Max(1, startChunk)) + (if r.Success? then 0 else 1)
            && var course := Scan(node, start, toBlock, Max(1, startChunk), 0); requests == course.requests && course.failure == (if r.Success? then None else Some(r.error))
  {
    r, requests := GetLogsChunked(c, node, Max(0, fromBlock), toBlock, startChunk);
  }

  // ---- filters -------------------------------------------------------------------------

  /** The logs of one contract whose kind is among those indexed. */
  function Keep(logs: seq<Log>, address: int, kinds: set<int>): seq<Log> {
    if logs == [] then []
    else
      var l := logs[|logs| - 1];
      Keep(logs[..|logs| - 1], address, kinds) + (if l.address == address && l.kind in kinds then [l] else [])
  }

  lemma {:induction false} KeepConcat(a: seq<Log>, b: seq<Log>, address: int, kinds: set<int>)
    ensures Keep(a + b, address, kinds) == Keep(a, address, kinds) + Keep(b, address, kinds)
  {
    if b == [] {
      assert a + b == a;
    } else {
      assert (a + b)[..|a + b| - 1] == a + b[..|b| - 1];
      KeepConcat(a, b[..|b| - 1], address, kinds);
    }
  }

  /** The chain as one contract's filter shows it. */
  function Filtered(c: Chain, address: int, kinds: set<int>): Chain { b => Keep(c(b), address, kinds) }

  /** One combined scan filtered afterwards finds what a filtered scan finds. */
  lemma {:induction false} CombinedScanAgrees(c: Chain, address: int, kinds: set<int>, from: int, to: int)
    ensures LogsIn(Filtered(c, address, kinds), from, to) == Keep(LogsIn(c, from, to), address, kinds)
    decreases 1 + to - from
  {
    if from <= to {
      CombinedScanAgrees(c, address, kinds, from, to - 1);
      KeepConcat(LogsIn(c, from, to - 1), c(to), address, kinds);
    }
  }

  lemma {:induction false} KeepMembers(logs: seq<Log>, address: int, kinds: set<int>)
    ensures forall l :: l in Keep(logs, address, kinds) <==> (l in logs && l.address == address && l.kind in kinds)
  {
    if logs == [] { return; }
    var n := |logs| - 1;
    KeepMembers(logs[..n], address, kinds);
    assert logs == logs[..n] + [logs[n]];
  }

  // ---- order ------------------------------------------------------------------------------

  predicate Before(a: Log, b: Log) { a.block < b.block || (a.block == b.block && a.index < b.index) }

  predicate InOrder(logs: seq<Log>) { forall i, j :: 0 <= i < j < |logs| ==> Before(logs[i], logs[j]) }

  lemma {:induction false} LogsInOrder(c: Chain, from: int, to: int)
    requires ChainOk(c)
    ensures InOrder(LogsIn(c, from, to))
    ensures forall l :: l in LogsIn(c, from, to) <==> (from <= l.block <= to && l in c(l.block))
    decreases 1 + to - from
  {
    if from <= to {
      LogsInOrder(c, from, to - 1);
      forall l
        ensures l in LogsIn(c, from, to) <==> (from <= l.block <= to && l in c(l.block))
      {
        assert l in LogsIn(c, from, to) <==> l in LogsIn(c, from, to - 1) || l in c(to);
      }
      ConcatInOrder(LogsIn(c, from, to - 1), c(to), to);
    }
  }

  lemma ConcatInOrder(a: seq<Log>, b: seq<Log>, block: int)
    requires InOrder(a) && (forall l :: l in a ==> l.block < block)
    requires forall i :: 0 <= i < |b| ==> b[i].block == block
    requires forall i, j :: 0 <= i < j < |b| ==> b[i].index < b[j].index
    ensures InOrder(a + b)
  {
    forall i, j | 0 <= i < j < |a + b| ensures Before((a + b)[i], (a + b)[j]) {
      if i < |a| { assert a[i] in a; }
    }
  }

  lemma {:induction false} KeepInOrder(logs: seq<Log>, address: int, kinds: set<int>)
    requires InOrder(logs)
    ensures InOrder(Keep(logs, address, kinds))
  {
    if logs == [] { return; }
    var n := |logs| - 1;
    KeepInOrder(logs[..n], address, kinds);
    KeepMembers(logs[..n], address, kinds);
    var kept := Keep(logs[..n], address, kinds);
    forall i | 0 <= i < |kept| ensures Before(kept[i], logs[n]) { assert kept[i] in kept; }
  }

  lemma HeadIn(s: seq<Log>)
    ensures s != [] ==> exists l :: l in s
  {
    assert s != [] ==> s[0] in s;
  }

  /** Ordered lists with the same members are the same list. */
  lemma {:induction false} OrderUnique(a: seq<Log>, b: seq<Log>)
    requires InOrder(a) && InOrder(b) && forall l :: l in a <==> l in b
    ensures a == b
  {
    if a == [] || b == [] {
      HeadIn(a);
      HeadIn(b);
      return;
    }
    assert a[0] in b && b[0] in a;
    var i :| 0 <= i < |b| && b[i] == a[0];
    var j :| 0 <= j < |a| && a[j] == b[0];
    assert a[0] == b[0];
    forall l ensures l in a[1..] <==> l in b[1..] {
      assert l in a <==> l == a[0] || l in a[1..];
      assert l in b <==> l == b[0] || l in b[1..];
      assert a[0] !in a[1..] && b[0] !in b[1..];
    }
    OrderUnique(a[1..], b[1..]);
  }
}
