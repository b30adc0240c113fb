/** Resting orders are tracked in memory and on disk until their outcome is attested. */
module FillTracker {
  import opened Attestations
  import opened Money
  import opened Wrappers

  datatype Order = Order(bet: int, orderId: int, sell: bool, expectedShares: nat, betAmount: nat, takerFee: nat)

  /** A finalization: waiting for its signature, or about to drop the order. */
  datatype Finalizing = Signing(order: Order, input: Input) | Cleaning(order: Order)

  /** `rows` and `outcomes` are on disk; a crash loses the rest. `others` are the calls of
      other writers of the outcome store that wait for their signature. */
  datatype Tracker = Tracker(
    rows: map<int, Order>, outcomes: Store,
    byOrderId: map<int, Order>, finalized: set<int>, wallet: bool, pending: map<nat, Finalizing>, others: map<nat, Input>)

  const FRESH: Tracker := Tracker(map[], map[], map[], {}, false, map[], map[])

  /** What a new process starts from. */
  function Booted(t: Tracker): Tracker { Tracker(t.rows, t.outcomes, map[], {}, true, map[], map[]) }

  /** `alreadyAttested`: a sale looks at its own slot, a buy at the outcome. */
  predicate AlreadyAttested(outcomes: Store, o: Order) {
    if o.sell then Slot(o.bet, SOLD) in outcomes else HasOutcome(outcomes, o.bet)
  }

  /** The taker fee: part of what a buy spent, off what a sale brought in. */
  function Adjusted(o: Order, spent: int): int {
    if o.takerFee == 0 then spent
    else if o.sell then (if spent > o.takerFee then spent - o.takerFee else 0)
    else spent + o.takerFee
  }

  /** What `attestTerminal` will ask to have signed, if anything. */
  function ToAttest(o: Order, filled: int, spent: int): Option<Input> {
    if o.sell then
      match ClassifySale(o.expectedShares, filled, Adjusted(o, spent))
      case None => None
      case Some(v) => Some(Input(o.bet, v))
    else Some(Input(o.bet, Classify(o.expectedShares, o.betAmount, filled, Adjusted(o, spent))))
  }

  /** Calls and the points where they resume. `Restart` is a crash followed by a start; it
      reads the rows in the order of `scan`. */
  datatype Event =
    | Restart(scan: seq<int>)
    | Track(order: Order)
    | Terminal(id: nat, orderId: int, filled: int, spent: int)
    | Signed(id: nat, signature: Option<int>)
    | Cleanup(id: nat)
    | OtherBegin(id: nat, input: Input)
    | OtherFinish(id: nat, signature: Option<int>)

  /** The boot loop: attested rows are dropped, the others resumed. */
  function Resume(t: Tracker, scan: seq<int>): Tracker {
    if scan == [] then t
    else
      var before := Resume(t, scan[..|scan| - 1]);
      var bet := scan[|scan| - 1];
      if bet !in before.rows then before
      else if AlreadyAttested(before.outcomes, before.rows[bet]) then before.(rows := before.rows - {bet}, finalized := before.finalized + {bet})
      else before.(byOrderId := before.byOrderId[before.rows[bet].orderId := before.rows[bet]])
  }

  function Advance(t: Tracker, e: Event): Tracker {
    match e
    case Restart(scan) => Resume(Booted(t), scan)
    case Track(o) =>
      if o.bet in t.finalized || AlreadyAttested(t.outcomes, o) then t
      else t.(rows := t.rows[o.bet := o], byOrderId := t.byOrderId[o.orderId := o])
    case Terminal(id, orderId, filled, spent) =>
      if id in t.pending || orderId !in t.byOrderId || t.byOrderId[orderId].bet in t.finalized || !t.wallet then t
      else
        var o := t.byOrderId[orderId];
        var input := ToAttest(o, filled, spent);
        var next := if input.Some? && !Blocked(t.outcomes, input.value) then Signing(o, input.value) else Cleaning(o);
        t.(finalized := t.finalized + {o.bet}, pending := t.pending[id := next])
    case Signed(id, signature) =>
      if id !in t.pending || t.pending[id].Cleaning? then t
      else
        var f := t.pending[id];
        t.(outcomes := if signature.Some? then InsertRow(t.outcomes, f.input, signature.value) else t.outcomes,
           pending := t.pending[id := Cleaning(f.order)])
    case Cleanup(id) =>
      if id !in t.pending || t.pending[id].Signing? then t
      else
        var o := t.pending[id].order;
        t.(rows := t.rows - {o.bet}, byOrderId := t.byOrderId - {o.orderId}, pending := t.pending - {id})
    case OtherBegin(id, i) =>
      if id in t.others || Blocked(t.outcomes, i) then t else t.(others := t.others[id := i])
    case OtherFinish(id, signature) =>
      if id !in t.others then t
      else t.(outcomes := if signature.Some? then InsertRow(t.outcomes, t.others[id], signature.value) else t.outcomes, others := t.others - {id})
  }

  function Run(events: seq<Event>): Tracker {
    if events == [] then FRESH else Advance(Run(events[..|events| - 1]), events[|events| - 1])
  }

  // ---- one outcome per bet -----------------------------------------------------------------

  /** Rows are keyed by their bet and orders by their id; every finalization belongs to a
      finalized bet, and no two to the same bet. */
  ghost predicate Keyed(t: Tracker) {
    && (forall b :: b in t.rows ==> t.rows[b].bet == b) && OrdersKeyed(t)
    && (forall id :: id in t.pending ==> t.pending[id].order.bet in t.finalized)
    && (forall id, other :: id in t.pending && other in t.pending && id != other ==> t.pending[id].order.bet != t.pending[other].order.bet)
    && (forall id :: id in t.pending && t.pending[id].Signing? ==> t.pending[id].input.bet == t.pending[id].order.bet)
  }

  ghost predicate OrdersKeyed(t: Tracker) { forall id :: id in t.byOrderId ==> t.byOrderId[id].orderId == id }

  /** What the tracker itself waits to sign was not attested before. */
  ghost predicate Exclusive(t: Tracker) {
    && Keyed(t) && OneOutcome(t.outcomes) && t.others == map[]
    && (forall id :: id in t.pending && t.pending[id].Signing? ==> !Blocked(t.outcomes, t.pending[id].input))
  }

  lemma InsertGrows(s: Store, i: Input, signature: int)
    ensures forall bet :: HasOutcome(s, bet) ==> HasOutcome(InsertRow(s, i, signature), bet)
    ensures IsOutcome(i.verdict.kind) ==> HasOutcome(InsertRow(s, i, signature), i.bet)
    ensures forall j: Input :: j.bet != i.bet && !Blocked(s, j) ==> !Blocked(InsertRow(s, i, signature), j)
  {
  }

  /** A resumed order was in memory or on disk. */
  ghost predicate FromRows(t: Tracker, id: int, o: Order) {
    (id in t.byOrderId && o == t.byOrderId[id]) || exists b :: b in t.rows && o == t.rows[b]
  }

  lemma {:induction false} ResumeKeeps(t: Tracker, scan: seq<int>)
    ensures var r := Resume(t, scan);
      && r.outcomes == t.outcomes && r.pending == t.pending && r.wallet == t.wallet && r.others == t.others
      && (forall b :: b in r.rows ==> b in t.rows && r.rows[b] == t.rows[b])
      && (forall b :: b in t.rows && b !in r.rows ==> AlreadyAttested(t.outcomes, t.rows[b]))
      && (forall id :: id in r.byOrderId ==> FromRows(t, id, r.byOrderId[id]))
  {
    if scan != [] { ResumeKeeps(t, scan[..|scan| - 1]); }
  }

  lemma {:induction false} ResumeKeyed(t: Tracker, scan: seq<int>)
    requires OrdersKeyed(t)
    ensures OrdersKeyed(Resume(t, scan))
  {
    if scan != [] { ResumeKeyed(t, scan[..|scan| - 1]); }
  }

  lemma KeyedStep(t: Tracker, e: Event)
    requires Keyed(t)
    ensures Keyed(Advance(t, e))
  {
    match e
    case Restart(scan) => ResumeKeeps(Booted(t), scan); ResumeKeyed(Booted(t), scan);
    case _ =>
  }

  lemma {:induction false} RunKeyed(events: seq<Event>)
    ensures Keyed(Run(events))
  {
    if events != [] {
      RunKeyed(events[..|events| - 1]);
      KeyedStep(Run(events[..|events| - 1]), events[|events| - 1]);
    }
  }

  lemma ExclusiveSigned(t: Tracker, e: Event)
    requires Exclusive(t) && e.Signed?
    ensures Exclusive(Advance(t, e))
  {
    KeyedStep(t, e);
    if e.id in t.pending && t.pending[e.id].Signing? && e.signature.Some? {
      InsertExact(t.outcomes, t.pending[e.id].input, e.signature.value);
      InsertGrows(t.outcomes, t.pending[e.id].input, e.signature.value);
    }
  }

  lemma ExclusiveStep(t: Tracker, e: Event)
    requires Exclusive(t) && !e.OtherBegin?
    ensures Exclusive(Advance(t, e))
  {
    KeyedStep(t, e);
    match e
    case Restart(scan) => ResumeKeeps(Booted(t), scan);
    case Signed(_, _) => ExclusiveSigned(t, e);
    case _ =>
  }

  /** Over every run with crashes and restarts, and whatever the exchange reports how often,
      the tracker by itself signs at most one outcome for a bet. */
  lemma {:induction false} TrackerSignsOneOutcome(events: seq<Event>)
    requires forall n :: 0 <= n < |events| ==> !events[n].OtherBegin?
    ensures Exclusive(Run(events)) && OneOutcome(Run(events).outcomes)
  {
    if events != [] {
      TrackerSignsOneOutcome(events[..|events| - 1]);
      ExclusiveStep(Run(events[..|events| - 1]), events[|events| - 1]);
    }
  }

  /** A signature, the tracker's or another writer's, that arrives after a different outcome
      of the bet was stored. */
  predicate Clash(t: Tracker, e: Event) {
    match e
    case Signed(id, signature) => signature.Some? && id in t.pending && t.pending[id].Signing? && Clashes(t.outcomes, t.pending[id].input)
    case OtherFinish(id, signature) => signature.Some? && id in t.others && Clashes(t.outcomes, t.others[id])
    case _ => false
  }

  lemma AdvanceOneOutcome(t: Tracker, e: Event)
    ensures OneOutcome(Advance(t, e).outcomes) <==> OneOutcome(t.outcomes) && !Clash(t, e)
  {
    match e
    case Restart(scan) => ResumeKeeps(Booted(t), scan);
    case Signed(id, signature) =>
      if id in t.pending && t.pending[id].Signing? && signature.Some? { InsertOutcomes(t.outcomes, t.pending[id].input, signature.value); }
    case OtherFinish(id, signature) =>
      if id in t.others && signature.Some? { InsertOutcomes(t.outcomes, t.others[id], signature.value); }
    case _ =>
  }

  lemma InsertOutcomes(s: Store, i: Input, signature: int)
    ensures OneOutcome(InsertRow(s, i, signature)) <==> OneOutcome(s) && !Clashes(s, i)
  {
    if OneOutcome(s) {
      InsertExact(s, i, signature);
    } else {
      var a, b :| a in s && b in s && a.bet == b.bet && IsOutcome(a.kind) && IsOutcome(b.kind) && a != b;
      assert a in InsertRow(s, i, signature) && b in InsertRow(s, i, signature);
    }
  }

  predicate ClashAt(events: seq<Event>, n: nat)
    requires n < |events|
  {
    Clash(Run(events[..n]), events[n])
  }

  ghost predicate ClashFree(events: seq<Event>) { forall n :: 0 <= n < |events| ==> !ClashAt(events, n) }

  lemma ClashAtPrefix(events: seq<Event>, n: nat)
    requires n < |events| - 1
    ensures ClashAt(events[..|events| - 1], n) == ClashAt(events, n)
  {
    assert events[..|events| - 1][..n] == events[..n];
  }

  lemma ClashFreeStep(events: seq<Event>)
    requires events != []
    ensures ClashFree(events) <==> ClashFree(events[..|events| - 1]) && !ClashAt(events, |events| - 1)
  {
    var last := |events| - 1;
    if ClashFree(events) {
      forall n | 0 <= n < last ensures !ClashAt(events[..last], n) { ClashAtPrefix(events, n); }
    }
    if ClashFree(events[..last]) && !ClashAt(events, last) {
      forall n | 0 <= n < |events| ensures !ClashAt(events, n) {
        if n < last {
          ClashAtPrefix(events, n);
          assert !ClashAt(events[..last], n);
        }
      }
    }
  }

  /** With other writers in the run, a bet ends with at most one outcome if and only if no
      signature arrives after a different outcome was stored. */
  lemma {:induction false} OneOutcomeAmongWriters(events: seq<Event>)
    ensures OneOutcome(Run(events).outcomes) <==> ClashFree(events)
  {
    if events != [] {
      var last := |events| - 1;
      OneOutcomeAmongWriters(events[..last]);
      ClashFreeStep(events);
      AdvanceOneOutcome(Run(events[..last]), events[last]);
    }
  }

  /** Two different outcomes that both wait for their signatures are both stored. */
  lemma BothFinish(t: Tracker, id: nat, other: nat, signature: int, second: int)
    requires id in t.pending && t.pending[id].Signing? && other in t.others
    requires var i, j := t.pending[id].input, t.others[other];
      i.bet == j.bet && IsOutcome(i.verdict.kind) && IsOutcome(j.verdict.kind) && i.verdict.kind != j.verdict.kind
    ensures !OneOutcome(Advance(Advance(t, Signed(id, Some(signature))), OtherFinish(other, Some(second))).outcomes)
  {
    var i, j := t.pending[id].input, t.others[other];
    var after := Advance(Advance(t, Signed(id, Some(signature))), OtherFinish(other, Some(second))).outcomes;
    assert after == InsertRow(InsertRow(t.outcomes, i, signature), j, second);
    assert SlotOf(i) in after && SlotOf(j) in after && SlotOf(i) != SlotOf(j);
  }

  /** The order that `getTrackedOrder` returns for a bet. */
  predicate ShowsOrder(t: Tracker, bet: int) { bet !in t.finalized && exists id :: id in t.byOrderId && t.byOrderId[id].bet == bet }

  /** The checks of `/cancel-bet` before it attests FAILED for a bet without a market order:
      no outcome stored, no resting order shown. */
  predicate CancelAttestsFailed(t: Tracker, bet: int) { !HasOutcome(t.outcomes, bet) && !ShowsOrder(t, bet) }

  /** While the tracker waits for a signature the order is hidden, so for as long as nothing
      is stored a cancellation takes the bet for one that was never placed. */
  lemma SigningHidesOrder(t: Tracker, id: nat)
    requires Keyed(t) && id in t.pending && t.pending[id].Signing?
    ensures var bet := t.pending[id].order.bet; CancelAttestsFailed(t, bet) <==> !HasOutcome(t.outcomes, bet)
  {
  }

  /** A filled order whose bet is cancelled in that window ends FILLED and FAILED. */
  lemma CancelDuringSigning(o: Order)
    requires !o.sell && o.expectedShares > 0
    ensures var events := [Restart([]), Track(o), Terminal(0, o.orderId, o.expectedShares, o.betAmount),
                           OtherBegin(0, Input(o.bet, Verdict(FAILED, 0, 0))), Signed(0, Some(1)), OtherFinish(0, Some(2))];
      CancelAttestsFailed(Run(events[..3]), o.bet) && !OneOutcome(Run(events).outcomes)
  {
    var failed, filled := Input(o.bet, Verdict(FAILED, 0, 0)), Input(o.bet, Verdict(FILLED, 0, 0));
    var e := [Restart([]), Track(o), Terminal(0, o.orderId, o.expectedShares, o.betAmount), OtherBegin(0, failed), Signed(0, Some(1)), OtherFinish(0, Some(2))];
    assert e[..5][..3] == e[..3] && e[..6] == e && e[..6][..5] == e[..5];
    Prefixes(e[..5]);
    Prefixes3(e[..3]);
    var t3 := FilledOrder(o);
    var t4 := Advance(t3, e[3]);
    assert t4 == t3.(others := map[0 := failed]);
    BothFinish(t4, 0, 0, 1, 2);
  }

  lemma FilledOrder(o: Order) returns (t: Tracker)
    requires !o.sell && o.expectedShares > 0
    ensures t == Advance(Advance(Advance(FRESH, Restart([])), Track(o)), Terminal(0, o.orderId, o.expectedShares, o.betAmount))
    ensures t.pending == map[0 := Signing(o, Input(o.bet, Verdict(FILLED, 0, 0)))] && t.outcomes == map[] && t.others == map[] && o.bet in t.finalized
  {
    var t2 := Advance(Advance(FRESH, Restart([])), Track(o));
    assert o.orderId in t2.byOrderId && t2.finalized == {} && t2.outcomes == map[];
    t := Advance(t2, Terminal(0, o.orderId, o.expectedShares, o.betAmount));
  }

  // ---- what is attested ---------------------------------------------------------------------

  /** A signature stores what was asked to be signed, the tracker's or another writer's. */
  lemma SignedStores(t: Tracker, e: Event)
    ensures match e
      case Signed(id, signature) =>
        if signature.Some? && id in t.pending && t.pending[id].Signing? then Stores(t.outcomes, Advance(t, e).outcomes, t.pending[id].input, signature.value)
        else Advance(t, e).outcomes == t.outcomes
      case OtherFinish(id, signature) =>
        if signature.Some? && id in t.others then Stores(t.outcomes, Advance(t, e).outcomes, t.others[id], signature.value)
        else Advance(t, e).outcomes == t.outcomes
      case _ => Advance(t, e).outcomes == t.outcomes
  {
    match e
    case Restart(scan) => ResumeKeeps(Booted(t), scan);
    case _ =>
  }

  /** The order waits on the book, and its outcome is open. */
  ghost predicate Waiting(t: Tracker, o: Order) {
    o.orderId in t.byOrderId && t.byOrderId[o.orderId] == o && o.bet !in t.finalized && t.wallet && !AlreadyAttested(t.outcomes, o)
  }

  /** The tracker has let go of the order. */
  ghost predicate Forgotten(t: Tracker, o: Order) { o.orderId !in t.byOrderId && o.bet !in t.rows && o.bet in t.finalized }

  /** The terminal report of a waiting order, its signature and the cleanup. */
  function Finalized(t: Tracker, id: nat, o: Order, filled: int, spent: int, signature: int): Tracker {
    Advance(Advance(Advance(t, Terminal(id, o.orderId, filled, spent)), Signed(id, Some(signature))), Cleanup(id))
  }

  /** A buy ends FAILED without a fill, FILLED if at most the dust is missing, else PARTIAL with
      its fill and with what it spent, the taker fee included, of the stake. */
  lemma BuyAttested(t: Tracker, id: nat, o: Order, filled: int, spent: int, signature: int)
    requires !o.sell && Waiting(t, o) && id !in t.pending
    ensures var after := Finalized(t, id, o, filled, spent, signature); var cost := spent + o.takerFee;
      && Forgotten(after, o) && id !in after.pending
      && after.outcomes == t.outcomes[Slot(o.bet, if filled <= 0 then FAILED else if filled >= o.expectedShares - 10_000 then FILLED else PARTIAL) :=
           if filled <= 0 || filled >= o.expectedShares - 10_000 then Row(0, 0, signature)
           else Row(filled, if cost <= o.betAmount then cost else o.betAmount, signature)]
  {
    var input := ToAttest(o, filled, spent).value;
    var t1 := Advance(t, Terminal(id, o.orderId, filled, spent));
    assert t1.pending[id] == Signing(o, input);
    var t2 := Advance(t1, Signed(id, Some(signature)));
    assert t2.pending[id] == Cleaning(o) && t2.outcomes == InsertRow(t.outcomes, input, signature);
  }

  /** A sale is attested with its shares, rounded up within the dust, and its proceeds less the
      taker fee; without a fill nothing is attested, and the order is let go. */
  lemma SaleAttested(t: Tracker, id: nat, o: Order, filled: int, spent: nat, signature: int)
    requires o.sell && Waiting(t, o) && id !in t.pending
    ensures var after := Finalized(t, id, o, filled, spent, signature);
      && Forgotten(after, o) && id !in after.pending
      && after.outcomes == if filled <= 0 then t.outcomes
           else t.outcomes[Slot(o.bet, SOLD) := Row(if filled >= o.expectedShares - 10_000 then o.expectedShares else filled,
                                                    if spent > o.takerFee then spent - o.takerFee else 0, signature)]
  {
    var t1 := Advance(t, Terminal(id, o.orderId, filled, spent));
    if filled <= 0 {
      assert t1.pending[id] == Cleaning(o);
    } else {
      var input := ToAttest(o, filled, spent).value;
      assert t1.pending[id] == Signing(o, input);
      var t2 := Advance(t1, Signed(id, Some(signature)));
      assert t2.pending[id] == Cleaning(o) && t2.outcomes == InsertRow(t.outcomes, input, signature);
    }
  }

  /** After `trackOrder` an accepted order waits; after a restart it still does, unless its
      outcome is known, in which case its row is gone. */
  lemma TrackedWaits(t: Tracker, o: Order)
    requires t.wallet && Accepts(t, o)
    ensures Waiting(Advance(t, Track(o)), o) && o.bet in Advance(t, Track(o)).rows && Advance(t, Track(o)).rows[o.bet] == o
  {
  }

  ghost predicate OwnOrders(rows: map<int, Order>) {
    forall a, b :: a in rows && b in rows && a != b ==> rows[a].orderId != rows[b].orderId
  }

  lemma RestartResumes(t: Tracker, scan: seq<int>, bet: int)
    requires Keyed(t) && OwnOrders(t.rows) && bet in t.rows && bet in scan
    ensures var after := Advance(t, Restart(scan)); var o := t.rows[bet];
      if AlreadyAttested(t.outcomes, o) then bet !in after.rows && bet in after.finalized
      else bet in after.rows && after.rows[bet] == o && Waiting(after, o)
  {
    ResumedAt(Booted(t), scan, bet);
  }

  lemma {:induction false} ResumedAt(t: Tracker, scan: seq<int>, bet: int)
    requires OwnOrders(t.rows) && bet in t.rows && t.rows[bet].bet == bet && t.wallet && t.finalized == {} && forall b :: b in t.rows ==> t.rows[b].bet == b
    ensures var r := Resume(t, scan); var o := t.rows[bet];
      && r.wallet && r.outcomes == t.outcomes && (forall b :: b in r.finalized ==> b in t.rows && AlreadyAttested(t.outcomes, t.rows[b]))
      && (if AlreadyAttested(t.outcomes, o) then (if bet in scan then bet !in r.rows && bet in r.finalized else bet in r.rows && r.rows[bet] == o)
          else bet in r.rows && r.rows[bet] == o && (bet in scan ==> Waiting(r, o)))
  {
    if scan != [] {
      var n := |scan| - 1;
      ResumedAt(t, scan[..n], bet);
      ResumeKeeps(t, scan[..n]);
      assert bet in scan <==> bet in scan[..n] || bet == scan[n];
    }
  }

  // ---- durability -----------------------------------------------------------------------------

  /** A crash now would lose nothing: the bet's buy is on disk, or its outcome is. */
  predicate Durable(t: Tracker, bet: int) {
    HasOutcome(t.outcomes, bet) || (bet in t.rows && !t.rows[bet].sell)
  }

  predicate Accepts(t: Tracker, o: Order) { o.bet !in t.finalized && !AlreadyAttested(t.outcomes, o) }

  /** The only two ways to lose a bet in one step: a sale's row takes the place of the buy's,
      or the row of a bet without an outcome is dropped. */
  predicate Loses(t: Tracker, e: Event, bet: int) {
    !HasOutcome(t.outcomes, bet) &&
    match e
    case Track(o) => o.bet == bet && o.sell && Accepts(t, o)
    case Cleanup(id) => id in t.pending && t.pending[id].Cleaning? && t.pending[id].order.bet == bet
    case _ => false
  }

  lemma DurableStep(t: Tracker, e: Event, bet: int)
    requires Keyed(t) && Durable(t, bet)
    ensures Durable(Advance(t, e), bet) <==> !Loses(t, e, bet)
  {
    match e
    case Restart(scan) => ResumeKeeps(Booted(t), scan);
    case Signed(id, signature) =>
      if id in t.pending && t.pending[id].Signing? && signature.Some? {
        InsertGrows(t.outcomes, t.pending[id].input, signature.value);
      }
    case _ =>
  }

  predicate LosesAt(events: seq<Event>, k: nat, bet: int)
    requires k < |events|
  {
    Loses(Run(events[..k]), events[k], bet)
  }

  predicate DurableAt(events: seq<Event>, k: nat, bet: int)
    requires k <= |events|
  {
    Durable(Run(events[..k]), bet)
  }

  lemma DurableNext(events: seq<Event>, k: nat, bet: int)
    requires k < |events| && DurableAt(events, k, bet)
    ensures DurableAt(events, k + 1, bet) <==> !LosesAt(events, k, bet)
  {
    assert events[..k + 1][..k] == events[..k];
    RunKeyed(events[..k]);
    DurableStep(Run(events[..k]), events[k], bet);
  }

  lemma {:induction false} DurableUntil(events: seq<Event>, n: nat, m: nat, bet: int)
    requires n <= m <= |events| && DurableAt(events, n, bet) && forall k :: n <= k < m ==> !LosesAt(events, k, bet)
    ensures DurableAt(events, m, bet)
    decreases m
  {
    if n < m {
      DurableUntil(events, n, m - 1, bet);
      DurableNext(events, m - 1, bet);
    }
  }

  /** Over every run, a bet that is durable at some point stays so at every later one if and
      only if none of its losing steps occurs. */
  lemma DurableExactly(events: seq<Event>, n: nat, bet: int)
    requires n <= |events| && DurableAt(events, n, bet)
    ensures (forall m :: n <= m <= |events| ==> DurableAt(events, m, bet)) <==> (forall k :: n <= k < |events| ==> !LosesAt(events, k, bet))
  {
    if forall m :: n <= m <= |events| ==> DurableAt(events, m, bet) {
      forall k | n <= k < |events| ensures !LosesAt(events, k, bet) {
        assert DurableAt(events, k, bet) && DurableAt(events, k + 1, bet);
        DurableNext(events, k, bet);
      }
    }
    if forall k :: n <= k < |events| ==> !LosesAt(events, k, bet) {
      forall m | n <= m <= |events| ensures DurableAt(events, m, bet) { DurableUntil(events, n, m, bet); }
    }
  }

  /** Conditions on the bet's own calls under which none does: its buy's signing succeeds
      unless an outcome is there already, and a sale is tracked only once there is one. */
  predicate Fair(t: Tracker, e: Event, bet: int) {
    match e
    case Track(o) => o.bet == bet && o.sell && Accepts(t, o) ==> HasOutcome(t.outcomes, bet)
    case Signed(id, signature) =>
      id in t.pending && t.pending[id].Signing? && t.pending[id].order.bet == bet && !t.pending[id].order.sell ==>
        signature.Some? || HasOutcome(t.outcomes, bet)
    case _ => true
  }

  ghost predicate FairRun(events: seq<Event>, bet: int) { forall n :: 0 <= n < |events| ==> Fair(Run(events[..n]), events[n], bet) }

  /** The bet has sales only with an outcome, and what of it is about to be dropped has one. */
  ghost predicate Settled(t: Tracker, bet: int) {
    && (bet in t.rows && t.rows[bet].sell ==> HasOutcome(t.outcomes, bet))
    && (forall id :: id in t.byOrderId && t.byOrderId[id].bet == bet && t.byOrderId[id].sell ==> HasOutcome(t.outcomes, bet))
    && (forall id :: id in t.pending && t.pending[id].order.bet == bet ==> PendingOk(t, t.pending[id]))
  }

  ghost predicate PendingOk(t: Tracker, f: Finalizing) {
    match f
    case Signing(o, i) => i.bet == o.bet && (if o.sell then HasOutcome(t.outcomes, o.bet) else IsOutcome(i.verdict.kind))
    case Cleaning(o) => HasOutcome(t.outcomes, o.bet)
  }

  lemma InsertOne(s: Store, i: Input, signature: int, bet: int)
    ensures HasOutcome(s, bet) ==> HasOutcome(InsertRow(s, i, signature), bet)
    ensures IsOutcome(i.verdict.kind) ==> HasOutcome(InsertRow(s, i, signature), i.bet)
  {
  }

  lemma SettledSigned(t: Tracker, e: Event, bet: int)
    requires Keyed(t) && Settled(t, bet) && Fair(t, e, bet) && e.Signed?
    ensures Settled(Advance(t, e), bet)
  {
    if e.id in t.pending && t.pending[e.id].Signing? {
      var t', f := Advance(t, e), t.pending[e.id];
      assert f.order.bet == bet ==> PendingOk(t, f);
      if e.signature.Some? { InsertOne(t.outcomes, f.input, e.signature.value, bet); }
      assert HasOutcome(t.outcomes, bet) ==> HasOutcome(t'.outcomes, bet);
      forall id | id in t'.pending && t'.pending[id].order.bet == bet ensures PendingOk(t', t'.pending[id]) {
        if id != e.id { assert PendingOk(t, t.pending[id]); }
      }
    }
  }

  lemma SettledTerminal(t: Tracker, e: Event, bet: int)
    requires Keyed(t) && Settled(t, bet) && Fair(t, e, bet) && e.Terminal?
    ensures Settled(Advance(t, e), bet)
  {
  }

  lemma SettledStep(t: Tracker, e: Event, bet: int)
    requires Keyed(t) && Settled(t, bet) && Fair(t, e, bet)
    ensures Settled(Advance(t, e), bet)
  {
    match e
    case Restart(scan) => ResumeKeeps(Booted(t), scan);
    case Signed(_, _) => SettledSigned(t, e, bet);
    case Terminal(_, _, _, _) => SettledTerminal(t, e, bet);
    case _ =>
  }

  lemma {:induction false} RunSettled(events: seq<Event>, bet: int)
    requires FairRun(events, bet)
    ensures Settled(Run(events), bet)
  {
    if events != [] {
      var before := events[..|events| - 1];
      assert forall n :: 0 <= n < |before| ==> before[..n] == events[..n];
      RunSettled(before, bet);
      RunKeyed(before);
      SettledStep(Run(before), events[|events| - 1], bet);
    }
  }

  lemma FairNeverLoses(events: seq<Event>, k: nat, bet: int)
    requires FairRun(events, bet) && k < |events|
    ensures !LosesAt(events, k, bet)
  {
    var t, e := Run(events[..k]), events[k];
    forall n | 0 <= n < k ensures Fair(Run(events[..k][..n]), events[..k][n], bet) {
      assert events[..k][..n] == events[..n];
    }
    RunSettled(events[..k], bet);
    assert Fair(t, e, bet);
    assert e.Cleanup? && e.id in t.pending && t.pending[e.id].order.bet == bet ==> PendingOk(t, t.pending[e.id]);
  }

  /** Every buy that `trackOrder` accepted is, at every later point of a run that is fair to
      its bet, on disk as a tracked order or as an attested outcome. */
  lemma AcceptedStaysDurable(events: seq<Event>, n: nat)
    requires n < |events| && events[n].Track? && !events[n].order.sell && Accepts(Run(events[..n]), events[n].order)
    requires FairRun(events, events[n].order.bet)
    ensures forall m :: n < m <= |events| ==> DurableAt(events, m, events[n].order.bet)
  {
    var bet := events[n].order.bet;
    assert events[..n + 1][..n] == events[..n];
    assert DurableAt(events, n + 1, bet);
    forall k | n + 1 <= k < |events| ensures !LosesAt(events, k, bet) { FairNeverLoses(events, k, bet); }
    DurableExactly(events, n + 1, bet);
  }

  /** A failed signature loses the bet: the error is swallowed and the row dropped. */
  lemma SigningFailureLoses(o: Order)
    requires !o.sell
    ensures var t := Run([Restart([]), Track(o), Terminal(0, o.orderId, 0, 0), Signed(0, None), Cleanup(0)]);
      !Durable(t, o.bet)
  {
    var e := [Restart([]), Track(o), Terminal(0, o.orderId, 0, 0), Signed(0, None), Cleanup(0)];
    Prefixes(e);
    var t2 := Advance(Advance(FRESH, e[0]), e[1]);
    assert o.orderId in t2.byOrderId && t2.finalized == {};
    var t3 := Advance(t2, e[2]);
    assert t3.pending[0] == Signing(o, Input(o.bet, Verdict(FAILED, 0, 0)));
    var t4 := Advance(t3, e[3]);
    assert t4.outcomes == map[] && t4.pending[0] == Cleaning(o);
  }

  /** A sale tracked on top of a waiting buy takes its row, and takes it away. `trackOrder`
      does not guard against it; its limit-sell caller does, by refusing while an order is
      tracked (orderBuilder.ts:997). */
  lemma SaleOverwritesBuy(buy: Order, sale: Order)
    requires !buy.sell && sale.sell && buy.bet == sale.bet
    ensures !Durable(Run([Restart([]), Track(buy), Track(sale)]), buy.bet)
  {
    var e := [Restart([]), Track(buy), Track(sale)];
    Prefixes3(e);
    var t2 := Advance(Advance(FRESH, e[0]), e[1]);
    assert t2.finalized == {} && t2.outcomes == map[];
  }

  lemma Prefixes3(e: seq<Event>)
    requires |e| == 3
    ensures Run(e) == Advance(Advance(Advance(FRESH, e[0]), e[1]), e[2])
  {
    assert e[..2][..1] == e[..1] && e[..1][..0] == [] && e[..2][1] == e[1] && e[..1][0] == e[0];
    assert Run(e[..1]) == Advance(FRESH, e[0]);
  }

  lemma Prefixes(e: seq<Event>)
    requires |e| == 5
    ensures Run(e) == Advance(Advance(Advance(Advance(Advance(FRESH, e[0]), e[1]), e[2]), e[3]), e[4])
  {
    Prefixes3(e[..3]);
    assert e[..4][..3] == e[..3] && Run(e[..4]) == Advance(Run(e[..3]), e[3]);
  }

  // ---- the process ---------------------------------------------------------------------------------

  /** Order states as messages carry them; the last leaves the order on the book. */
  datatype Status = Matched | PartiallyFilled | Cancelled | Live

  class TrackerProcess {
    var rows: map<int, Order>
    var outcomes: Store
    var byOrderId: map<int, Order>
    var finalized: set<int>
    var wallet: bool
    var pending: map<nat, Finalizing>
    var others: map<nat, Input>

    function State(): Tracker reads this { Tracker(rows, outcomes, byOrderId, finalized, wallet, pending, others) }

    /** `startFillTracker` in a new process. */
    method StartFillTracker(scan: seq<int>)
      modifies this
      ensures State() == Advance(old(State()), Restart(scan))
    {
      byOrderId, finalized, wallet, pending, others := map[], {}, true, map[], map[];
      ghost var booted := State();
      var i := 0;
      while i < |scan|
        invariant i <= |scan| && State() == Resume(booted, scan[..i])
      {
        var bet := scan[i];
        assert scan[..i + 1][..i] == scan[..i];
        if bet in rows {
          var o := rows[bet];
          if AlreadyAttested(outcomes, o) {
            rows := rows - {bet};
            finalized := finalized + {bet};
          } else {
            byOrderId := byOrderId[o.orderId := o];
          }
        }
        i := i + 1;
      }
      assert scan[..i] == scan;
    }

    /** `trackOrder`; a buy that is accepted is durable from here on. */
    method TrackOrder(o: Order)
      modifies this
      ensures State() == Advance(old(State()), Track(o))
      ensures !o.sell && Accepts(old(State()), o) ==> Durable(State(), o.bet)
    {
      if o.bet in finalized || AlreadyAttested(outcomes, o) { return; }
      rows := rows[o.bet := o];
      byOrderId := byOrderId[o.orderId := o];
    }

    /** The synchronous part of `finalize`, up to the signing request. */
    method BeginFinalize(id: nat, o: Order, filled: int, spent: int)
      requires id !in pending && o.orderId in byOrderId && byOrderId[o.orderId] == o
      modifies this
      ensures State() == Advance(old(State()), Terminal(id, o.orderId, filled, spent))
    {
      if o.bet in finalized { return; }
      finalized := finalized + {o.bet};
      if !wallet {
        finalized := finalized - {o.bet};
        return;
      }
      var input := ToAttest(o, filled, spent);
      if input.Some? && !Blocked(outcomes, input.value) {
        pending := pending[id := Signing(o, input.value)];
      } else {
        pending := pending[id := Cleaning(o)];
      }
    }

    /** `handleOne`: a message about an order still on the book attests nothing. */
    method HandleOne(id: nat, orderId: int, status: Status, filled: int, spent: int)
      requires id !in pending && Keyed(State())
      modifies this
      ensures State() == if status == Live then old(State()) else Advance(old(State()), Terminal(id, orderId, filled, spent))
    {
      if orderId !in byOrderId { return; }
      var o := byOrderId[orderId];
      if o.bet in finalized || status == Live { return; }
      BeginFinalize(id, o, filled, spent);
    }

    /** The answer of the signer reaches the store. */
    method FinishSigning(id: nat, signature: Option<int>)
      modifies this
      ensures State() == Advance(old(State()), Signed(id, signature))
    {
      if id !in pending { return; }
      match pending[id]
      case Cleaning(_) =>
      case Signing(o, input) =>
        if signature.Some? { outcomes := InsertRow(outcomes, input, signature.value); }
        pending := pending[id := Cleaning(o)];
    }

    /** The end of `finalize`: forget the order in memory and on disk. */
    method Forget(id: nat)
      modifies this
      ensures State() == Advance(old(State()), Cleanup(id))
    {
      if id !in pending || pending[id].Signing? { return; }
      var o := pending[id].order;
      byOrderId := byOrderId - {o.orderId};
      rows := rows - {o.bet};
      pending := pending - {id};
    }
  }
}
