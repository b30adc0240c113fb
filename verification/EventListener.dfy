/** The signing layer's scan for bets: a persisted cursor over two event sources. */
module EventListener {
  import opened Arith
  import opened EventIndex
  import opened LogScan
  import opened Wrappers

  const SAFETY_BUFFER: int := 100
  const LISTENER_WINDOW: int := 5000
  const DEFAULT_CHUNK: int := 9000

  /** What one tick sees: the relay's index (its head and its answers; `None` when it fails),
      the chain node, and per nullifier what the checks before a submission find. */
  datatype World = World(indexHead: Option<int>, chainHead: Option<int>, index: (int, int) -> Option<seq<Log>>, node: Node, checks: int -> Check)

  datatype Check = Attested | Tracked | NoRecord | RpcError | Clear

  ghost predicate IsBet(c: Chain, vault: int, l: Log) { l in c(l.block) && l.address == vault && l.kind == BET_AUTHORIZED }

  function NullifierOf(l: Log): int { if l.args == [] then 0 else l.args[0] }

  /** The index answers with every bet of a range that it has ingested. */
  ghost predicate HonestIndex(c: Chain, vault: int, deploy: int, w: World) {
    forall from, to :: w.indexHead.Some? && deploy <= from && to <= w.indexHead.value && w.index(from, to).Some? ==>
      HasBets(c, vault, from, to, w.index(from, to).value)
  }

  ghost predicate HasBets(c: Chain, vault: int, from: int, to: int, logs: seq<Log>) {
    forall l :: IsBet(c, vault, l) && from <= l.block <= to ==> l in logs
  }

  /** Every answer is that of a table which, then or later, held all events up to the head
      that was read: what `BetAuthorizedEvents` returns in any valid state of the index. */
  ghost predicate ServedByIndex(c: Chain, vault: int, first: int, w: World) {
    forall from, to :: w.indexHead.Some? && w.index(from, to).Some? ==>
      exists rows :: HonestRows(c, vault, first, rows, w.indexHead.value) && AnswersBets(vault, rows, from, to, w.index(from, to).value)
  }

  ghost predicate HonestRows(c: Chain, vault: int, first: int, rows: map<Key, Row>, head: int) {
    Sound(c, vault, first, rows) && HasAll(c, vault, first, rows, head)
  }

  /** The relay's index is honest, if it scans from the first bet on. */
  lemma IndexIsHonest(c: Chain, vault: int, first: int, deploy: int, w: World)
    requires ChainOk(c) && ServedByIndex(c, vault, first, w)
    requires forall l :: IsBet(c, vault, l) && deploy <= l.block ==> first <= l.block
    ensures HonestIndex(c, vault, deploy, w)
  {
    forall from, to | w.indexHead.Some? && deploy <= from && to <= w.indexHead.value && w.index(from, to).Some?
      ensures HasBets(c, vault, from, to, w.index(from, to).value)
    {
      var answer := w.index(from, to).value;
      var rows :| HonestRows(c, vault, first, rows, w.indexHead.value) && AnswersBets(vault, rows, from, to, answer);
      forall l | IsBet(c, vault, l) && from <= l.block <= to ensures l in answer {
        assert IsEvent(c, vault, first, l);
        assert RowTrue(c, vault, first, KeyOf(l), rows[KeyOf(l)]);
        SamePosition(c, l, LogAt(vault, KeyOf(l), rows[KeyOf(l)]));
        assert BetRow(vault, rows, from, to, l);
      }
    }
  }

  /** One request to a live index, at or after the head was read. */
  method AskIndex(index: VaultEventIndex, head: int, from: int, to: int) returns (r: seq<Log>)
    requires index.Valid() && head <= index.lastBlock
    ensures HonestRows(index.chain, index.vault, index.first, index.rows, head) && AnswersBets(index.vault, index.rows, from, to, r)
    ensures index.first <= from && to <= head ==> HasBets(index.chain, index.vault, from, to, r)
  {
    r := index.BetAuthorizedEvents(from, to);
    ScanHasBets(index.chain, index.vault, from, to);
  }

  /** What a scan of the chain returns has every bet of the range. */
  lemma ScanHasBets(c: Chain, vault: int, from: int, to: int)
    requires ChainOk(c)
    ensures HasBets(c, vault, from, to, Keep(LogsIn(c, from, to), vault, {BET_AUTHORIZED}))
  {
    KeepMembers(LogsIn(c, from, to), vault, {BET_AUTHORIZED});
    LogsInOrder(c, from, to);
  }

  /** Every bet from the deploy block to the given block has been handled. */
  ghost predicate Covered(c: Chain, vault: int, deploy: int, upTo: int, handled: set<Log>) {
    forall l :: IsBet(c, vault, l) && deploy <= l.block <= upTo ==> l in handled
  }

  /** Neither source has the window. */
  ghost predicate WindowFails(w: World, from: int, to: int) {
    !(w.indexHead.Some? && w.index(from, to).Some?) && NodeRefuses(w.node, from, to)
  }

  /** The head a tick sees: the index's if it answers, else the chain's. */
  function HeadSeen(w: World): Option<int> { if w.indexHead.Some? then w.indexHead else w.chainHead }

  predicate NoRepeats(s: seq<int>) { forall i, j :: 0 <= i < j < |s| ==> s[i] != s[j] }

  /** A cursor save, with what had been handled by then. */
  datatype Save = Save(cursor: int, handled: set<Log>)

  class Listener {
    const chain: Chain
    const vault: int
    const deploy: int
    var stored: Option<int>
    var inFlight: set<int>
    ghost var handled: set<Log>
    ghost var submitted: seq<int>
    ghost var visits: seq<Log>
    ghost var saves: seq<Save>

    ghost predicate Valid() reads this {
      && ChainOk(chain) && deploy >= 0
      && (stored.Some? ==> Covered(chain, vault, deploy, stored.value, handled))
      && NoRepeats(submitted) && (forall n :: n in inFlight <==> n in submitted)
    }

    /** A process start: the cursor file survives, the in-flight set does not. */
    constructor (c: Chain, vaultAddress: int, deployBlock: nat, file: Option<int>, ghost before: set<Log>)
      requires ChainOk(c) && (file.Some? ==> Covered(c, vaultAddress, deployBlock, file.value, before))
      ensures Valid() && stored == file && handled == before && chain == c && vault == vaultAddress && deploy == deployBlock
      ensures submitted == [] && visits == []
    {
      chain, vault, deploy := c, vaultAddress, deployBlock;
      stored, inFlight := file, {};
      handled, submitted, visits, saves := before, [], [], [];
    }

    ghost predicate SavesOk(before: seq<Save>) reads this {
      before <= saves && forall i :: |before| <= i < |saves| ==> Covered(chain, vault, deploy, saves[i].cursor, saves[i].handled)
    }

    /** `handleBetRecord`: at most one submission for a bet in this process. A failed lookup
        is only logged, and the bet counts as handled. */
    method HandleBetRecord(l: Log, w: World)
      requires Valid()
      modifies this`inFlight, this`handled, this`submitted, this`visits
      ensures Valid() && handled == old(handled) + {l} && visits == old(visits) + [l]
      ensures var n := NullifierOf(l);
        if w.checks(n) == Clear && n !in old(inFlight) then submitted == old(submitted) + [n] else submitted == old(submitted)
    {
      handled, visits := handled + {l}, visits + [l];
      var n := NullifierOf(l);
      var check := w.checks(n);
      if check == Attested { return; }
      if n in inFlight { return; }
      if check == Tracked { return; }
      if check == RpcError { return; }
      if check == NoRecord { return; }
      inFlight := inFlight + {n};
      submitted := submitted + [n];
    }

    /** `fetchBetAuthorized`: the index when preferred and answering, else the chain. */
    method FetchBets(w: World, from: int, to: int, preferIndex: bool) returns (r: Option<seq<Log>>)
      requires ChainOk(chain) && from >= 0 && HonestIndex(chain, vault, deploy, w)
      requires preferIndex ==> w.indexHead.Some? && deploy <= from && to <= w.indexHead.value
      ensures r.Some? ==> HasBets(chain, vault, from, to, r.value)
      ensures preferIndex && w.index(from, to).Some? ==> r == w.index(from, to)
      ensures !(preferIndex && w.index(from, to).Some?) ==>
        if r.Some? then r.value == Keep(LogsIn(chain, from, to), vault, {BET_AUTHORIZED}) else NodeRefuses(w.node, from, to)
    {
      if preferIndex {
        var answer := w.index(from, to);
        if answer.Some? { return answer; }
      }
      var only := Filtered(chain, vault, {BET_AUTHORIZED});
      var logs, _ := QueryFilterChunked(only, w.node, from, to, DEFAULT_CHUNK);
      if logs.Failure? {
        assert logs.error == Limited || logs.error == BlockFailed;
        return None;
      }
      CombinedScanAgrees(chain, vault, {BET_AUTHORIZED}, from, to);
      ScanHasBets(chain, vault, from, to);
      r := Some(logs.value);
    }

    /** All records of a window. */
    method HandleAll(records: seq<Log>, w: World)
      requires Valid()
      modifies this`inFlight, this`handled, this`submitted, this`visits
      ensures Valid() && handled == old(handled) + (set l | l in records) && visits == old(visits) + records
      ensures old(submitted) <= submitted
    {
      var i := 0;
      while i < |records|
        invariant i <= |records| && Valid() && stored == old(stored)
        invariant handled == old(handled) + (set l | l in records[..i]) && old(submitted) <= submitted
        invariant visits == old(visits) + records[..i]
      {
        HandleBetRecord(records[i], w);
        assert records[..i + 1] == records[..i] + [records[i]];
        i := i + 1;
      }
      assert records[..i] == records;
    }

    /** The cursor on file; a negative or missing one counts as zero. */
    ghost function Resumed(): int reads this { if stored.Some? && stored.value > 0 then stored.value else 0 }

    /** Where a scan starts: the override of a deep sweep, or the stored cursor less the
        safety buffer, clamped to the head and to the deploy block. */
    method ScanFrom(head: int, fromOverride: Option<int>) returns (from: int)
      requires Valid()
      ensures from >= deploy
      ensures fromOverride == None ==> Covered(chain, vault, deploy, from - 1, handled)
      ensures fromOverride == None ==> from == Max(deploy, Min(Resumed(), head) - 100)
      ensures fromOverride.Some? ==> from == Max(deploy, Min(fromOverride.value, head))
    {
      if fromOverride.Some? { return Max(deploy, Min(fromOverride.value, head)); }
      var raw := if stored.Some? then stored.value else 0;
      var last := Min(Max(0, raw), head);
      return Max(deploy, last - SAFETY_BUFFER);
    }

    /** `catchUpMissedBets` (eventListener.ts:230-277). Every cursor it saves is covered; no bet
        is submitted twice. A scan fails only without a head or on a window that neither source
        has; otherwise it has looked at every bet from its start to the head, the last hundred
        blocks before the cursor included, and the cursor is at the head. */
    method CatchUp(w: World, fromOverride: Option<int>, persist: bool) returns (head: Option<int>)
      requires Valid() && HonestIndex(chain, vault, deploy, w) && (persist ==> fromOverride == None)
      modifies this`stored, this`inFlight, this`handled, this`submitted, this`visits, this`saves
      ensures Valid() && SavesOk(old(saves)) && (!persist ==> stored == old(stored))
      ensures old(handled) <= handled && old(submitted) <= submitted && old(visits) <= visits
      ensures head.Some? ==> head == HeadSeen(w)
      ensures head == None ==> HeadSeen(w) == None || exists a, b :: deploy <= a <= b <= HeadSeen(w).value && WindowFails(w, a, b)
      ensures head.Some? && fromOverride == None ==> Covered(chain, vault, deploy, head.value, handled)
      ensures head.Some? && fromOverride == None ==>
        LookedAt(Max(deploy, Min(old(Resumed()), head.value) - 100), head.value, visits[|old(visits)|..])
      ensures head.Some? && fromOverride.Some? ==> LookedAt(Max(deploy, fromOverride.value), head.value, visits[|old(visits)|..])
      ensures head.Some? && fromOverride.Some? ==> HandledBetween(Max(deploy, fromOverride.value), head.value)
      ensures head.Some? && persist && deploy <= head.value ==> stored == head
    {
      var useIndex := w.indexHead.Some?;
      var top := if useIndex then w.indexHead else w.chainHead;
      if top == None { return None; }
      var from := ScanFrom(top.value, fromOverride);
      var ok := ScanWindows(w, from, top.value, useIndex, persist, fromOverride == None);
      if ok { return top; }
      return None;
    }

    /** The windows from a start to the head. `forward` says that everything before the start
        has been handled. */
    method ScanWindows(w: World, from: int, head: int, useIndex: bool, persist: bool, ghost forward: bool) returns (ok: bool)
      requires Valid() && HonestIndex(chain, vault, deploy, w) && deploy <= from
      requires useIndex == w.indexHead.Some? && (useIndex ==> head == w.indexHead.value)
      requires (persist ==> forward) && (forward ==> Covered(chain, vault, deploy, from - 1, handled))
      modifies this`stored, this`inFlight, this`handled, this`submitted, this`visits, this`saves
      ensures Valid() && SavesOk(old(saves)) && (!persist ==> stored == old(stored))
      ensures old(handled) <= handled && old(submitted) <= submitted && old(visits) <= visits
      ensures if ok then LookedAt(from, head, visits[|old(visits)|..]) && HandledBetween(from, head)
              else exists a, b :: from <= a <= b <= head && WindowFails(w, a, b)
      ensures ok && forward ==> Covered(chain, vault, deploy, head, handled)
      ensures ok && persist && from <= head ==> stored == Some(head)
    {
      var cursor := from;
      while cursor <= head
        invariant Valid() && SavesOk(old(saves)) && (!persist ==> stored == old(stored))
        invariant old(handled) <= handled && old(submitted) <= submitted && old(visits) <= visits
        invariant from <= cursor <= Max(from, head + 1)
        invariant LookedAt(from, cursor - 1, visits[|old(visits)|..])
        invariant HandledBetween(from, cursor - 1)
        invariant forward ==> Covered(chain, vault, deploy, cursor - 1, handled)
        invariant persist && from < cursor ==> stored == Some(cursor - 1)
        decreases head - cursor
      {
        var windowEnd := Min(cursor + LISTENER_WINDOW - 1, head);
        ghost var before, earlier := visits, visits[|old(visits)|..];
        ok := HandleWindow(w, cursor, windowEnd, useIndex, persist);
        if !ok { return; }
        LookedFurther(from, cursor, windowEnd, earlier, visits[|before|..]);
        assert visits[|old(visits)|..] == earlier + visits[|before|..];
        cursor := windowEnd + 1;
      }
      ok := true;
    }

    lemma LookedFurther(from: int, mid: int, to: int, earlier: seq<Log>, more: seq<Log>)
      requires LookedAt(from, mid - 1, earlier) && LookedAt(mid, to, more)
      ensures LookedAt(from, to, earlier + more)
    {
    }

    /** One window: its bets are looked at, and only then is the cursor saved. */
    method HandleWindow(w: World, from: int, to: int, useIndex: bool, persist: bool) returns (ok: bool)
      requires Valid() && HonestIndex(chain, vault, deploy, w) && deploy <= from <= to
      requires useIndex == w.indexHead.Some? && (useIndex ==> to <= w.indexHead.value)
      requires persist ==> Covered(chain, vault, deploy, from - 1, handled)
      modifies this`stored, this`inFlight, this`handled, this`submitted, this`visits, this`saves
      ensures Valid() && old(handled) <= handled && old(submitted) <= submitted && old(visits) <= visits
      ensures if ok then LookedAt(from, to, visits[|old(visits)|..]) && HandledBetween(from, to) else WindowFails(w, from, to)
      ensures if ok && persist then stored == Some(to) && saves == old(saves) + [Save(to, handled)] else stored == old(stored) && saves == old(saves)
      ensures ok && persist ==> Covered(chain, vault, deploy, to, handled)
    {
      var records := FetchBets(w, from, to, useIndex);
      if records == None { return false; }
      HandleAll(records.value, w);
      assert visits[|old(visits)|..] == records.value;
      if persist {
        stored := Some(to);
        saves := saves + [Save(to, handled)];
      }
      return true;
    }

    ghost predicate HandledBetween(from: int, to: int) reads this {
      forall l :: IsBet(chain, vault, l) && from <= l.block <= to ==> l in handled
    }

    /** Every bet of the range is among these. */
    ghost predicate LookedAt(from: int, to: int, looked: seq<Log>) reads this {
      forall l :: IsBet(chain, vault, l) && from <= l.block <= to ==> l in looked
    }
  }
}
