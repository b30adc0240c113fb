/** The operator's outcome store. Signing is a suspension between the read that decides and
    the insert that writes, so calls can interleave. */
module Attestations {
  import opened Money
  import opened Wrappers

  datatype Slot = Slot(bet: int, kind: ReportType)
  datatype Row = Row(amountA: int, amountB: int, signature: int)

  /** The table, with its primary key (bet, report type). */
  type Store = map<Slot, Row>

  datatype Input = Input(bet: int, verdict: Verdict)

  function SlotOf(i: Input): Slot { Slot(i.bet, i.verdict.kind) }
  function RowOf(i: Input, signature: int): Row { Row(i.verdict.amountA, i.verdict.amountB, signature) }

  predicate HasOutcome(s: Store, bet: int) {
    Slot(bet, FILLED) in s || Slot(bet, FAILED) in s || Slot(bet, PARTIAL) in s
  }

  /** At most one outcome row per bet; a sale has a row of its own. */
  ghost predicate OneOutcome(s: Store) {
    forall a, b :: a in s && b in s && a.bet == b.bet && IsOutcome(a.kind) && IsOutcome(b.kind) ==> a == b
  }

  /** What the first read looks for. */
  predicate Blocked(s: Store, i: Input) {
    if IsOutcome(i.verdict.kind) then HasOutcome(s, i.bet) else SlotOf(i) in s
  }

  /** INSERT ... ON CONFLICT DO NOTHING. */
  function InsertRow(s: Store, i: Input, signature: int): Store {
    if SlotOf(i) in s then s else s[SlotOf(i) := RowOf(i, signature)]
  }

  /** A call that nothing interleaves with; without a signature nothing is written. */
  function Attest(s: Store, i: Input, signature: Option<int>): Store {
    if Blocked(s, i) || signature == None then s else InsertRow(s, i, signature.value)
  }

  class AttestationStore {
    var rows: Store

    /** `signAndStoreAttestation` (attestationStore.ts:151-206): the row returned is a stored
        one, nothing already stored changes, and no second outcome is added. */
    method SignAndStore(i: Input, signer: Option<int>) returns (r: Option<Row>)
      modifies this
      ensures rows == Attest(old(rows), i, signer)
      ensures OneOutcome(old(rows)) ==> OneOutcome(rows)
      ensures forall k :: k in old(rows) ==> k in rows && rows[k] == old(rows)[k]
      ensures r == None <==> !Blocked(old(rows), i) && signer == None
      ensures r.Some? ==> exists k :: k in rows && k.bet == i.bet && rows[k] == r.value && (k == SlotOf(i) || (IsOutcome(k.kind) && IsOutcome(i.verdict.kind)))
      ensures r.Some? ==> Blocked(rows, i)
      ensures !Blocked(old(rows), i) && signer.Some? ==>
        && r.Some? && r.value.amountA == i.verdict.amountA && r.value.amountB == i.verdict.amountB && r.value.signature == signer.value
        && Slot(i.bet, i.verdict.kind) in rows && rows[Slot(i.bet, i.verdict.kind)] == r.value
        && forall k :: k != Slot(i.bet, i.verdict.kind) ==> (k in rows <==> k in old(rows)) && (k in rows ==> rows[k] == old(rows)[k])
      ensures Blocked(old(rows), i) || signer == None ==> rows == old(rows)
    {
      if IsOutcome(i.verdict.kind) {
        if Slot(i.bet, FILLED) in rows { return Some(rows[Slot(i.bet, FILLED)]); }
        if Slot(i.bet, FAILED) in rows { return Some(rows[Slot(i.bet, FAILED)]); }
        if Slot(i.bet, PARTIAL) in rows { return Some(rows[Slot(i.bet, PARTIAL)]); }
      } else if SlotOf(i) in rows {
        return Some(rows[SlotOf(i)]);
      }
      if signer == None { return None; }
      if SlotOf(i) !in rows { rows := rows[SlotOf(i) := RowOf(i, signer.value)]; }
      return Some(rows[SlotOf(i)]);
    }
  }

  // ---- interleaved calls ---------------------------------------------------------------

  /** `Begin` runs up to the signing request, `Finish` from its answer. */
  datatype Event = Begin(id: nat, input: Input) | Finish(id: nat, signature: Option<int>)

  datatype State = State(store: Store, pending: map<nat, Input>)

  const EMPTY: State := State(map[], map[])

  function Step(s: State, e: Event): State {
    match e
    case Begin(id, i) =>
      if id in s.pending || Blocked(s.store, i) then s else s.(pending := s.pending[id := i])
    case Finish(id, signature) =>
      if id !in s.pending then s
      else State(if signature.Some? then InsertRow(s.store, s.pending[id], signature.value) else s.store, s.pending - {id})
  }

  function Run(events: seq<Event>): State {
    if events == [] then EMPTY else Step(Run(events[..|events| - 1]), events[|events| - 1])
  }

  /** What is stored beside the rows that were there: for this input, the amounts that were
      signed, in their order, with the signature. */
  ghost predicate Stores(before: Store, after: Store, i: Input, signature: int) {
    var k := Slot(i.bet, i.verdict.kind);
    && k in after && (forall x :: x != k ==> (x in after <==> x in before) && (x in after ==> after[x] == before[x]))
    && (if k in before then after[k] == before[k]
        else after[k].amountA == i.verdict.amountA && after[k].amountB == i.verdict.amountB && after[k].signature == signature)
  }

  /** A signature that arrives stores what its call asked to have signed; nothing else does. */
  lemma FinishStores(s: State, e: Event)
    ensures e.Finish? && e.signature.Some? && e.id in s.pending ==> Stores(s.store, Step(s, e).store, s.pending[e.id], e.signature.value)
    ensures !(e.Finish? && e.signature.Some? && e.id in s.pending) ==> Step(s, e).store == s.store
    ensures e.Finish? ==> Step(s, e).pending == s.pending - {e.id}
    ensures e.Begin? && e.id !in s.pending && !Blocked(s.store, e.input) ==> Step(s, e).pending == s.pending[e.id := e.input]
  {
  }

  /** A slot is written once: over any interleaving a stored row never changes. */
  lemma {:induction false} SlotWriteOnce(events: seq<Event>, n: nat, k: Slot)
    requires n <= |events| && k in Run(events[..n]).store
    ensures k in Run(events).store && Run(events).store[k] == Run(events[..n]).store[k]
  {
    if n == |events| {
      assert events[..n] == events;
    } else {
      assert events[..|events| - 1][..n] == events[..n];
      SlotWriteOnce(events[..|events| - 1], n, k);
    }
  }

  /** No outcome call of the bet is waiting for its signature. */
  ghost predicate Quiet(s: State, bet: int) {
    forall id :: id in s.pending && s.pending[id].bet == bet ==> !IsOutcome(s.pending[id].verdict.kind)
  }

  /** Outcome calls of one bet never overlap. */
  ghost predicate SerialPerBet(events: seq<Event>) {
    forall n :: 0 <= n < |events| && events[n].Begin? && IsOutcome(events[n].input.verdict.kind) ==>
      Quiet(Run(events[..n]), events[n].input.bet)
  }

  /** At most one outcome is stored or being signed for a bet. */
  ghost predicate Serial(s: State) {
    && OneOutcome(s.store)
    && (forall id, other :: id in s.pending && other in s.pending && id != other
          && IsOutcome(s.pending[id].verdict.kind) && IsOutcome(s.pending[other].verdict.kind)
          ==> s.pending[id].bet != s.pending[other].bet)
    && (forall id :: id in s.pending && IsOutcome(s.pending[id].verdict.kind) ==> !HasOutcome(s.store, s.pending[id].bet))
  }

  lemma SerialStep(s: State, e: Event)
    requires Serial(s)
    requires e.Begin? && IsOutcome(e.input.verdict.kind) ==> Quiet(s, e.input.bet)
    ensures Serial(Step(s, e))
  {
    if e.Finish? && e.id in s.pending && e.signature.Some? {
      var i := s.pending[e.id];
      var store := InsertRow(s.store, i, e.signature.value);
      forall a, b | a in store && b in store && a.bet == b.bet && IsOutcome(a.kind) && IsOutcome(b.kind) ensures a == b {
        assert IsOutcome(i.verdict.kind) ==> !HasOutcome(s.store, i.bet);
      }
    }
  }

  /** If outcome calls of one bet do not overlap, a bet ends with at most one of FILLED,
      FAILED and PARTIAL, whatever else interleaves, and SOLD is never in the way. */
  lemma {:induction false} SerialCallsOneOutcome(events: seq<Event>)
    requires SerialPerBet(events)
    ensures Serial(Run(events)) && OneOutcome(Run(events).store)
  {
    if events != [] {
      var before := events[..|events| - 1];
      forall n | 0 <= n < |before| && before[n].Begin? && IsOutcome(before[n].input.verdict.kind)
        ensures Quiet(Run(before[..n]), before[n].input.bet)
      {
        assert before[..n] == events[..n];
      }
      SerialCallsOneOutcome(before);
      SerialStep(Run(before), events[|events| - 1]);
    }
  }

  /** An insert of an outcome beside another one. */
  predicate Clashes(s: Store, i: Input) {
    IsOutcome(i.verdict.kind) && SlotOf(i) !in s && HasOutcome(s, i.bet)
  }

  lemma InsertExact(s: Store, i: Input, signature: int)
    requires OneOutcome(s)
    ensures OneOutcome(InsertRow(s, i, signature)) <==> !Clashes(s, i)
  {
    var store := InsertRow(s, i, signature);
    if Clashes(s, i) {
      var k: ReportType :| IsOutcome(k) && Slot(i.bet, k) in s;
      assert SlotOf(i) in store && Slot(i.bet, k) in store && SlotOf(i) != Slot(i.bet, k);
    } else {
      forall a, b | a in store && b in store && a.bet == b.bet && IsOutcome(a.kind) && IsOutcome(b.kind) ensures a == b {
        assert a in s || a == SlotOf(i);
        assert b in s || b == SlotOf(i);
      }
    }
  }

  /** The step that breaks the invariant: a signature arrives for an outcome after a
      different outcome of the bet has been stored. */
  predicate Clash(s: State, e: Event) {
    e.Finish? && e.signature.Some? && e.id in s.pending && Clashes(s.store, s.pending[e.id])
  }

  lemma StepOneOutcome(s: State, e: Event)
    ensures OneOutcome(Step(s, e).store) <==> OneOutcome(s.store) && !Clash(s, e)
  {
    if OneOutcome(s.store) {
      if e.Finish? && e.id in s.pending && e.signature.Some? { InsertExact(s.store, s.pending[e.id], e.signature.value); }
    } else {
      var a, b :| a in s.store && b in s.store && a.bet == b.bet && IsOutcome(a.kind) && IsOutcome(b.kind) && a != b;
      assert a in Step(s, e).store && b in Step(s, e).store;
    }
  }

  ghost predicate NoClash(events: seq<Event>) { forall n :: 0 <= n < |events| ==> !Clash(Run(events[..n]), events[n]) }

  lemma NoClashStep(events: seq<Event>)
    requires events != []
    ensures var last := |events| - 1; NoClash(events) <==> NoClash(events[..last]) && !Clash(Run(events[..last]), events[last])
  {
    var last := |events| - 1;
    assert forall n :: 0 <= n < last ==> events[..last][..n] == events[..n] && events[..last][n] == events[n];
    if NoClash(events[..last]) && !Clash(Run(events[..last]), events[last]) {
      forall n | 0 <= n < |events| ensures !Clash(Run(events[..n]), events[n]) {
        if n < last { assert !Clash(Run(events[..last][..n]), events[..last][n]); }
      }
    }
    if NoClash(events) {
      forall n | 0 <= n < last ensures !Clash(Run(events[..last][..n]), events[..last][n]) {
        assert !Clash(Run(events[..n]), events[n]);
      }
    }
  }

  /** Over every interleaving, a bet ends with at most one outcome if and only if no
      signature arrives after a different outcome was stored: overlapping calls of one kind,
      or a failed signature, do no harm. */
  lemma {:induction false} OneOutcomeExactly(events: seq<Event>)
    ensures OneOutcome(Run(events).store) <==> NoClash(events)
  {
    if events != [] {
      var last := |events| - 1;
      OneOutcomeExactly(events[..last]);
      NoClashStep(events);
      StepOneOutcome(Run(events[..last]), events[last]);
    }
  }

  /** Without that condition the invariant stated for the store fails: both calls read before
      either writes, and the bet ends FILLED and FAILED. */
  lemma OverlapStoresTwoOutcomes(bet: int)
    ensures var filled := Input(bet, Verdict(FILLED, 0, 0)); var failed := Input(bet, Verdict(FAILED, 0, 0));
      var events := [Begin(0, filled), Begin(1, failed), Finish(0, Some(1)), Finish(1, Some(2))];
      !OneOutcome(Run(events).store)
  {
    var filled, failed := Input(bet, Verdict(FILLED, 0, 0)), Input(bet, Verdict(FAILED, 0, 0));
    var e := [Begin(0, filled), Begin(1, failed), Finish(0, Some(1)), Finish(1, Some(2))];
    assert e[..0] == [] && e[..1][..0] == e[..0] && e[..2][..1] == e[..1] && e[..3][..2] == e[..2] && e[..4] == e && e[..4][..3] == e[..3];
    var s1 := Step(EMPTY, e[0]);
    var s2 := Step(s1, e[1]);
    var s3 := Step(s2, e[2]);
    assert Run(e[..1]) == s1 && Run(e[..2]) == s2 && Run(e[..3]) == s3;
    var s4 := Run(e);
    assert s4 == Step(s3, e[3]);
    assert Slot(bet, FILLED) in s4.store && Slot(bet, FAILED) in s4.store;
  }

  /** A call that completes at once is the atomic call. */
  lemma AtomicCall(s: State, id: nat, i: Input, signature: Option<int>)
    requires id !in s.pending
    ensures Step(Step(s, Begin(id, i)), Finish(id, signature)) == s.(store := Attest(s.store, i, signature))
  {
    assert s.pending[id := i] - {id} == s.pending;
    assert s.pending - {id} == s.pending;
  }
}
