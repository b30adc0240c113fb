/** The relay's persisted index of the vault's events. */
module EventIndex {
  import opened Arith
  import opened LogScan
  import opened Wrappers

  const CONFIRMATIONS: int := 3
  const SCAN_WINDOW: int := 5000
  const LOG_CHUNK: int := 10000

  const DEPOSITED: int := 0
  const BET_AUTHORIZED: int := 1

  /** The event kinds that are indexed. */
  const KINDS: set<int> := set k | 0 <= k < 11

  /** The primary key of `vault_events`, and the rest of a row. */
  datatype Key = Key(kind: int, block: int, index: nat)
  datatype Row = Row(tx: int, args: seq<int>, depositor: Option<int>)

  function KeyOf(l: Log): Key { Key(l.kind, l.block, l.index) }
  function KeysOf(logs: seq<Log>): set<Key> { set l | l in logs :: KeyOf(l) }
  function RowOf(l: Log): Row { Row(l.tx, l.args, if l.kind == DEPOSITED && l.args != [] then Some(l.args[0]) else None) }

  /** What is on disk: the rows and the stored cursor. */
  datatype Tables = Tables(rows: map<Key, Row>, cursor: Option<int>)

  /** A vault event of the chain, from the first scanned block on. */
  ghost predicate IsEvent(c: Chain, vault: int, first: int, l: Log) {
    first <= l.block && l in c(l.block) && l.address == vault && l.kind in KINDS
  }

  function LogAt(vault: int, k: Key, r: Row): Log { Log(vault, k.kind, k.block, k.index, r.tx, r.args) }

  /** Every row is an event of the chain. */
  ghost predicate Sound(c: Chain, vault: int, first: int, rows: map<Key, Row>) {
    forall k :: k in rows ==> RowTrue(c, vault, first, k, rows[k])
  }

  ghost predicate RowTrue(c: Chain, vault: int, first: int, k: Key, r: Row) {
    IsEvent(c, vault, first, LogAt(vault, k, r)) && RowOf(LogAt(vault, k, r)) == r
  }

  /** Every event up to the block has its row. */
  ghost predicate HasAll(c: Chain, vault: int, first: int, rows: map<Key, Row>, upTo: int) {
    forall l :: IsEvent(c, vault, first, l) && l.block <= upTo ==> KeyOf(l) in rows
  }

  /** A state of the disk: true rows, none missing up to the stored cursor, which is not
      before the first scanned block. */
  ghost predicate TablesOk(c: Chain, vault: int, first: int, t: Tables) {
    && Sound(c, vault, first, t.rows)
    && (t.cursor.Some? ==> HasAll(c, vault, first, t.rows, t.cursor.value) && t.cursor.value >= first - 1)
  }

  /** `r` is the table's answer to a query for the bets of a range, oldest first. */
  ghost predicate AnswersBets(vault: int, rows: map<Key, Row>, from: int, to: int, r: seq<Log>) {
    && InOrder(r)
    && forall l :: l in r <==> BetRow(vault, rows, from, to, l)
  }

  predicate BetRow(vault: int, rows: map<Key, Row>, from: int, to: int, l: Log) {
    KeyOf(l) in rows && l == LogAt(vault, KeyOf(l), rows[KeyOf(l)]) && l.kind == BET_AUTHORIZED && from <= l.block <= to
  }

  /** INSERT OR IGNORE of one row. */
  function InsertOrIgnore(rows: map<Key, Row>, l: Log): (r: map<Key, Row>)
    ensures r.Keys == rows.Keys + {KeyOf(l)} && forall k :: k in rows ==> r[k] == rows[k]
  {
    if KeyOf(l) in rows then rows else rows[KeyOf(l) := RowOf(l)]
  }

  lemma KeysNext(events: seq<Log>, i: nat)
    requires i < |events|
    ensures KeysOf(events[..i + 1]) == KeysOf(events[..i]) + {KeyOf(events[i])}
  {
    assert events[..i + 1] == events[..i] + [events[i]];
  }

  lemma SoundPut(c: Chain, vault: int, first: int, rows: map<Key, Row>, l: Log)
    requires Sound(c, vault, first, rows) && IsEvent(c, vault, first, l)
    ensures Sound(c, vault, first, InsertOrIgnore(rows, l))
  {
    assert LogAt(vault, KeyOf(l), RowOf(l)) == l;
  }

  lemma StillAll(c: Chain, vault: int, first: int, rows: map<Key, Row>, more: map<Key, Row>, upTo: int)
    requires HasAll(c, vault, first, rows, upTo) && rows.Keys <= more.Keys
    ensures HasAll(c, vault, first, more, upTo)
  {
  }

  /** A position of the chain holds one log. */
  lemma SamePosition(c: Chain, a: Log, b: Log)
    requires ChainOk(c) && a in c(a.block) && b in c(b.block) && a.block == b.block && a.index == b.index
    ensures a == b
  {
    var i :| 0 <= i < |c(a.block)| && c(a.block)[i] == a;
    var j :| 0 <= j < |c(a.block)| && c(a.block)[j] == b;
    assert i < j ==> c(a.block)[i].index < c(a.block)[j].index;
    assert j < i ==> c(a.block)[j].index < c(a.block)[i].index;
  }

  lemma HeadFirst(s: seq<Log>)
    requires InOrder(s) && s != []
    ensures forall x :: x in s[1..] ==> Before(s[0], x)
  {
  }

  lemma PrependInOrder(x: Log, s: seq<Log>)
    requires InOrder(s) && forall y :: y in s ==> Before(x, y)
    ensures InOrder([x] + s)
  {
    forall i, j | 0 <= i < j < |[x] + s| ensures Before(([x] + s)[i], ([x] + s)[j]) {
      assert ([x] + s)[j] in s;
    }
  }

  function Insert(l: Log, s: seq<Log>): (r: seq<Log>)
    requires InOrder(s) && forall x :: x in s ==> Before(x, l) || Before(l, x)
    ensures InOrder(r) && forall x :: x in r <==> x == l || x in s
  {
    if s == [] || Before(l, s[0]) then [l] + s
    else
      assert s[0] in s && forall x :: x in s <==> x == s[0] || x in s[1..];
      var rest := Insert(l, s[1..]);
      HeadFirst(s);
      PrependInOrder(s[0], rest);
      [s[0]] + rest
  }

  class VaultEventIndex {
    const chain: Chain
    const vault: int
    const first: int
    var rows: map<Key, Row>
    var cursor: Option<int>
    var lastBlock: int
    var trace: seq<Tables>

    function Disk(): Tables reads this { Tables(rows, cursor) }

    /** The rows are true and complete up to the block in memory, which is the stored one
        once anything has been stored. */
    ghost predicate Valid() reads this {
      && ChainOk(chain) && TablesOk(chain, vault, first, Disk())
      && HasAll(chain, vault, first, rows, lastBlock) && lastBlock >= first - 1
      && (cursor.Some? ==> cursor == Some(lastBlock))
    }

    /** A process start on whatever a crash has left. */
    constructor (c: Chain, vaultAddress: int, deployBlock: int, disk: Tables)
      requires ChainOk(c) && TablesOk(c, vaultAddress, Max(0, deployBlock - 1) + 1, disk)
      ensures Valid() && Disk() == disk && chain == c && vault == vaultAddress && first == Max(0, deployBlock - 1) + 1 && trace == []
    {
      chain, vault, first := c, vaultAddress, Max(0, deployBlock - 1) + 1;
      rows, cursor := disk.rows, disk.cursor;
      lastBlock := if disk.cursor.Some? then disk.cursor.value else Max(0, deployBlock - 1);
      trace := [];
    }

    ghost predicate TraceOk(before: seq<Tables>) reads this {
      before <= trace && forall i :: |before| <= i < |trace| ==> TablesOk(chain, vault, first, trace[i])
    }

    /** One transaction of INSERT OR IGNORE. */
    method InsertRows(events: seq<Log>)
      requires Valid() && forall l :: l in events ==> IsEvent(chain, vault, first, l)
      modifies this`rows, this`trace
      ensures Valid() && TraceOk(old(trace))
      ensures forall k :: k in old(rows) ==> k in rows && rows[k] == old(rows)[k]
      ensures rows.Keys == old(rows).Keys + KeysOf(events)
    {
      var i := 0;
      while i < |events|
        invariant i <= |events| && Sound(chain, vault, first, rows) && trace == old(trace)
        invariant forall k :: k in old(rows) ==> k in rows && rows[k] == old(rows)[k]
        invariant rows.Keys == old(rows).Keys + KeysOf(events[..i])
      {
        assert events[i] in events;
        KeysNext(events, i);
        SoundPut(chain, vault, first, rows, events[i]);
        rows := InsertOrIgnore(rows, events[i]);
        i := i + 1;
      }
      assert events[..i] == events;
      StillAll(chain, vault, first, old(rows), rows, lastBlock);
      trace := trace + [Disk()];
    }

    /** The logs of a window, from the combined scan or from this contract's own. */
    method Fetch(node: Node, combined: bool, from: int, to: int) returns (r: Result<seq<Log>, ScanError>)
      requires ChainOk(chain)
      ensures r.Success? ==> r.value == Keep(LogsIn(chain, from, to), vault, KINDS)
      ensures r.Failure? ==> NodeRefuses(node, from, to)
    {
      var requests;
      if combined {
        r, requests := GetLogsChunked(chain, node, from, to, LOG_CHUNK);
        if r.Success? { r := Success(Keep(r.value, vault, KINDS)); }
      } else {
        CombinedScanAgrees(chain, vault, KINDS, from, to);
        r, requests := GetLogsChunked(Filtered(chain, vault, KINDS), node, from, to, LOG_CHUNK);
      }
      assert r.Failure? ==> r.error == Limited || r.error == BlockFailed;
    }

    /** One window: insert, then move the cursor. A crash may fall before, between and after. */
    method IndexWindow(logs: seq<Log>, to: int)
      requires Valid() && lastBlock < to && logs == Keep(LogsIn(chain, lastBlock + 1, to), vault, KINDS)
      modifies this`rows, this`cursor, this`lastBlock, this`trace
      ensures Valid() && TraceOk(old(trace)) && lastBlock == to
      ensures cursor == Some(to) && rows.Keys == old(rows).Keys + KeysOf(logs) && forall k :: k in old(rows) ==> rows[k] == old(rows)[k]
    {
      KeepMembers(LogsIn(chain, lastBlock + 1, to), vault, KINDS);
      LogsInOrder(chain, lastBlock + 1, to);
      InsertRows(logs);
      assert HasAll(chain, vault, first, rows, to) by {
        forall l | IsEvent(chain, vault, first, l) && l.block <= to ensures KeyOf(l) in rows {
          if l.block > lastBlock {
            assert l in logs;
          }
        }
      }
      lastBlock := to;
      cursor := Some(to);
      trace := trace + [Disk()];
    }

    /** `sync` (eventIndex.ts:158-210): at every write the disk holds true rows and every
        event up to the stored cursor; a sync throws only if the node refuses a window, and
        otherwise reaches the head three blocks back, in memory and on disk. */
    method Sync(node: Node, combined: bool, head: int) returns (threw: bool)
      requires Valid()
      modifies this`rows, this`cursor, this`lastBlock, this`trace
      ensures Valid() && TraceOk(old(trace)) && lastBlock >= old(lastBlock)
      ensures !threw ==> lastBlock == Max(old(lastBlock), head - 3)
      ensures lastBlock <= Max(old(lastBlock), head - 3) && (lastBlock > old(lastBlock) ==> cursor == Some(lastBlock))
      ensures threw ==> exists a, b :: old(lastBlock) < a <= b <= head - 3 && NodeRefuses(node, a, b)
    {
      var target := head - CONFIRMATIONS;
      if target <= lastBlock { return false; }
      var from := lastBlock + 1;
      while from <= target
        invariant Valid() && TraceOk(old(trace)) && from == lastBlock + 1
        invariant old(lastBlock) <= lastBlock <= target && (lastBlock > old(lastBlock) ==> cursor == Some(lastBlock))
        decreases target - from
      {
        var windowEnd := Min(from + SCAN_WINDOW - 1, target);
        var logs := Fetch(node, combined, from, windowEnd);
        if logs.Failure? { return true; }
        IndexWindow(logs.value, windowEnd);
        from := windowEnd + 1;
      }
      return false;
    }

    /** SELECT ... ORDER BY block, log_index over the given keys. */
    method Select(keys: set<Key>) returns (r: seq<Log>)
      requires Valid() && keys <= rows.Keys
      ensures InOrder(r) && forall l :: l in r <==> (KeyOf(l) in keys && l == LogAt(vault, KeyOf(l), rows[KeyOf(l)]))
    {
      r := [];
      var rest := keys;
      while rest != {}
        invariant rest <= keys && InOrder(r)
        invariant forall l :: l in r <==> (KeyOf(l) in keys - rest && l == LogAt(vault, KeyOf(l), rows[KeyOf(l)]))
        decreases rest
      {
        var k :| k in rest;
        var l := LogAt(vault, k, rows[k]);
        assert RowTrue(chain, vault, first, k, rows[k]);
        forall x | x in r ensures Before(x, l) || Before(l, x) {
          assert RowTrue(chain, vault, first, KeyOf(x), rows[KeyOf(x)]);
          if x.block == l.block && x.index == l.index { SamePosition(chain, x, l); }
        }
        r := Insert(l, r);
        rest := rest - {k};
      }
    }

    /** `betAuthorizedEvents`: up to the head, exactly the chain's bets of the range, oldest
        first; beyond it, only true ones. */
    method BetAuthorizedEvents(from: int, to: int) returns (r: seq<Log>)
      requires Valid()
      ensures first <= from && to <= lastBlock ==> r == Keep(LogsIn(chain, from, to), vault, {BET_AUTHORIZED})
      ensures forall l :: l in r ==> IsEvent(chain, vault, first, l) && l.kind == BET_AUTHORIZED && from <= l.block <= to
      ensures AnswersBets(vault, rows, from, to, r)
    {
      r := Select(set k | k in rows && k.kind == BET_AUTHORIZED && from <= k.block <= to);
      forall l | l in r ensures IsEvent(chain, vault, first, l) && l.kind == BET_AUTHORIZED && from <= l.block <= to {
        assert RowTrue(chain, vault, first, KeyOf(l), rows[KeyOf(l)]);
      }
      if first <= from && to <= lastBlock {
        var bets := Keep(LogsIn(chain, from, to), vault, {BET_AUTHORIZED});
        KeepMembers(LogsIn(chain, from, to), vault, {BET_AUTHORIZED});
        LogsInOrder(chain, from, to);
        KeepInOrder(LogsIn(chain, from, to), vault, {BET_AUTHORIZED});
        forall l | l in bets ensures l in r { Indexed(l); }
        OrderUnique(r, bets);
      }
    }

    lemma Indexed(l: Log)
      requires Valid() && IsEvent(chain, vault, first, l) && l.block <= lastBlock
      ensures KeyOf(l) in rows && rows[KeyOf(l)] == RowOf(l) && l == LogAt(vault, KeyOf(l), rows[KeyOf(l)])
    {
      var k := KeyOf(l);
      assert RowTrue(chain, vault, first, k, rows[k]);
      SamePosition(chain, l, LogAt(vault, k, rows[k]));
    }

    /** `recoveryData`: a wallet's own deposits and everybody's other events, in order, with
        nothing up to the head missing and nothing invented. */
    method RecoveryData(depositor: int) returns (deposits: seq<Log>, spends: seq<Log>)
      requires Valid()
      ensures InOrder(deposits) && InOrder(spends)
      ensures forall l :: l in deposits ==> IsEvent(chain, vault, first, l) && l.kind == DEPOSITED && RowOf(l).depositor == Some(depositor)
      ensures forall l :: l in spends ==> IsEvent(chain, vault, first, l) && l.kind != DEPOSITED
      ensures forall l :: IsEvent(chain, vault, first, l) && l.block <= lastBlock ==>
        (l.kind == DEPOSITED && RowOf(l).depositor == Some(depositor) ==> l in deposits) && (l.kind != DEPOSITED ==> l in spends)
    {
      deposits := Select(set k | k in rows && k.kind == DEPOSITED && rows[k].depositor == Some(depositor));
      spends := Select(set k | k in rows && k.kind != DEPOSITED);
      forall l | l in deposits + spends ensures IsEvent(chain, vault, first, l) && RowOf(l) == rows[KeyOf(l)] {
        assert RowTrue(chain, vault, first, KeyOf(l), rows[KeyOf(l)]);
      }
      forall l | IsEvent(chain, vault, first, l) && l.block <= lastBlock
        ensures (l.kind == DEPOSITED && RowOf(l).depositor == Some(depositor) ==> l in deposits) && (l.kind != DEPOSITED ==> l in spends)
      {
        Indexed(l);
      }
    }
  }

  // ---- any number of starts and crashes ----------------------------------------------

  /** One life of the process: its node, and after how many commits it crashes. */
  datatype Life = Life(node: Node, combined: bool, head: int, commits: nat)

  /** A start on whatever a crash has left, and the next crash. */
  method Live(c: Chain, vault: int, deployBlock: int, disk: Tables, life: Life) returns (left: Tables)
    requires ChainOk(c) && TablesOk(c, vault, Max(0, deployBlock - 1) + 1, disk)
    ensures TablesOk(c, vault, Max(0, deployBlock - 1) + 1, left)
  {
    var index := new VaultEventIndex(c, vault, deployBlock, disk);
    var threw := index.Sync(life.node, life.combined, life.head);
    left := if life.commits == 0 then disk
            else if life.commits <= |index.trace| then index.trace[life.commits - 1]
            else index.Disk();
  }

  /** Over any sequence of starts and crashes, from correct tables or from none, the next
      start is valid again, and if it is not interrupted it reaches the confirmed head. */
  method StartAfterCrashes(c: Chain, vault: int, deployBlock: int, disk: Tables, lives: seq<Life>, node: Node, combined: bool, head: int)
    returns (index: VaultEventIndex, threw: bool)
    requires ChainOk(c) && TablesOk(c, vault, Max(0, deployBlock - 1) + 1, disk)
    ensures fresh(index) && index.Valid() && index.chain == c && index.vault == vault && index.first == Max(0, deployBlock - 1) + 1
    ensures if threw then exists a, b :: a <= b <= head - 3 && NodeRefuses(node, a, b) else index.lastBlock >= head - 3
  {
    var left := disk;
    var i := 0;
    while i < |lives|
      invariant 0 <= i <= |lives| && TablesOk(c, vault, Max(0, deployBlock - 1) + 1, left)
    {
      left := Live(c, vault, deployBlock, left, lives[i]);
      i := i + 1;
    }
    index := new VaultEventIndex(c, vault, deployBlock, left);
    threw := index.Sync(node, combined, head);
  }
}
