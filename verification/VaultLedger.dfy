/** The vault's ledger, exactly: over every run, what came in is accounted for to the unit. */
module VaultLedger {
  import opened Arith
  import opened Merkle
  import opened Specs
  import opened Vault
  import opened VaultProofs
  import opened Wrappers

  // ---- stakes in the market -----------------------------------------------------------

  /** The stake that went to the market and did not come back. */
  function Outlay(b: Bet): nat { if b.status == CancelledCredited then 0 else b.betAmount }

  function OutlayMap(bets: map<int, Bet>): map<int, nat> { map n | n in bets :: Outlay(bets[n]) }

  lemma OutlayPut(bets: map<int, Bet>, n: int, b: Bet)
    ensures MapSum(OutlayMap(bets[n := b])) + (if n in bets then Outlay(bets[n]) else 0) == MapSum(OutlayMap(bets)) + Outlay(b)
  {
    assert OutlayMap(bets[n := b]) == OutlayMap(bets)[n := Outlay(b)];
    MapSumPut(OutlayMap(bets), n, Outlay(b));
  }

  // ---- notes: live, stranded, consumed ---------------------------------------------------

  /** The note at the position was spent: its nullifier was marked with it, and not with
      another note of the same nullifier. */
  ghost predicate Consumed(h: Hash, notes: seq<Note>, openedAt: map<int, nat>, i: nat)
    requires i < |notes|
  {
    Nullifier(h, notes[i]) in openedAt && openedAt[Nullifier(h, notes[i])] == i
  }

  /** The note can no longer be spent although it never was. */
  ghost predicate IsStranded(h: Hash, notes: seq<Note>, spent: set<int>, openedAt: map<int, nat>, i: nat)
    requires i < |notes|
  {
    Nullifier(h, notes[i]) in spent && !Consumed(h, notes, openedAt, i)
  }

  ghost function Stranded(h: Hash, notes: seq<Note>, spent: set<int>, openedAt: map<int, nat>): int {
    if notes == [] then 0
    else
      var n := |notes| - 1;
      Stranded(h, notes[..n], spent, openedAt) + (if IsStranded(h, notes, spent, openedAt, n) then notes[n].balance else 0)
  }

  /** The balances of all notes that were not spent. */
  ghost function Held(h: Hash, notes: seq<Note>, openedAt: map<int, nat>): int {
    if notes == [] then 0
    else
      var n := |notes| - 1;
      Held(h, notes[..n], openedAt) + (if Consumed(h, notes, openedAt, n) then 0 else notes[n].balance)
  }

  lemma {:induction false} HeldIsLiveAndStranded(h: Hash, notes: seq<Note>, spent: set<int>, openedAt: map<int, nat>)
    requires openedAt.Keys == spent
    ensures Held(h, notes, openedAt) == Live(h, notes, spent) + Stranded(h, notes, spent, openedAt)
  {
    if notes != [] { HeldIsLiveAndStranded(h, notes[..|notes| - 1], spent, openedAt); }
  }

  lemma {:induction false} StrandedSign(h: Hash, notes: seq<Note>, spent: set<int>, openedAt: map<int, nat>)
    requires Nonnegative(notes)
    ensures Stranded(h, notes, spent, openedAt) >= 0
    ensures Stranded(h, notes, spent, openedAt) == 0 <==>
      forall i :: 0 <= i < |notes| && IsStranded(h, notes, spent, openedAt, i) ==> notes[i].balance == 0
  {
    if notes == [] { return; }
    var n := |notes| - 1;
    StrandedSign(h, notes[..n], spent, openedAt);
    forall i | 0 <= i < n ensures IsStranded(h, notes[..n], spent, openedAt, i) == IsStranded(h, notes, spent, openedAt, i) {
      assert notes[..n][i] == notes[i];
    }
    if Stranded(h, notes, spent, openedAt) == 0 {
      forall i | 0 <= i < |notes| && IsStranded(h, notes, spent, openedAt, i) ensures notes[i].balance == 0 {
        if i < n { assert IsStranded(h, notes[..n], spent, openedAt, i) && notes[..n][i] == notes[i]; }
      }
    }
    if forall i :: 0 <= i < |notes| && IsStranded(h, notes, spent, openedAt, i) ==> notes[i].balance == 0 {
      forall i | 0 <= i < n && IsStranded(h, notes[..n], spent, openedAt, i) ensures notes[..n][i].balance == 0 {
        assert IsStranded(h, notes, spent, openedAt, i);
      }
    }
  }

  lemma {:induction false} HeldBelow(h: Hash, notes: seq<Note>, openedAt: map<int, nat>, x: int, i: nat)
    requires x !in openedAt && |notes| <= i
    ensures Held(h, notes, openedAt[x := i]) == Held(h, notes, openedAt)
  {
    if notes != [] { HeldBelow(h, notes[..|notes| - 1], openedAt, x, i); }
  }

  /** Spending a note takes exactly its balance, whatever other notes share its nullifier. */
  lemma {:induction false} HeldSpend(h: Hash, notes: seq<Note>, openedAt: map<int, nat>, i: nat)
    requires i < |notes| && Nullifier(h, notes[i]) !in openedAt
    ensures Held(h, notes, openedAt[Nullifier(h, notes[i]) := i]) == Held(h, notes, openedAt) - notes[i].balance
  {
    var n, x := |notes| - 1, Nullifier(h, notes[i]);
    if i == n {
      HeldBelow(h, notes[..n], openedAt, x, i);
    } else {
      assert notes[..n][i] == notes[i];
      HeldSpend(h, notes[..n], openedAt, i);
    }
  }

  /** Nullifiers are marked together with a recorded note. */
  ghost predicate OpenedOk(h: Hash, notes: seq<Note>, spent: set<int>, openedAt: map<int, nat>) {
    && openedAt.Keys == spent
    && forall x :: x in openedAt ==> openedAt[x] < |notes| && Nullifier(h, notes[openedAt[x]]) == x
  }

  lemma HeldAppend(h: Hash, notes: seq<Note>, spent: set<int>, openedAt: map<int, nat>, n: Note)
    requires OpenedOk(h, notes, spent, openedAt)
    ensures Held(h, notes + [n], openedAt) == Held(h, notes, openedAt) + n.balance
    ensures OpenedOk(h, notes + [n], spent, openedAt)
  {
    assert (notes + [n])[..|notes|] == notes;
  }

  // ---- the ledger ------------------------------------------------------------------------

  /** Everything but the stranded balances. */
  ghost function Ledger(h: Hash, v: State): int { Live(h, v.notes, v.spent) + Elsewhere(v) }

  ghost function Elsewhere(v: State): int {
    MapSum(OutlayMap(v.bets)) + MapSum(v.protocolFee) + v.feeAccumulator + v.paidOut
  }

  ghost predicate Opened(h: Hash, v: State) { OpenedOk(h, v.notes, v.spent, v.openedAt) }

  ghost predicate Accounted(h: Hash, v: State) {
    Opened(h, v) && Held(h, v.notes, v.openedAt) + Elsewhere(v) == v.deposited + v.income
  }

  lemma ReplaceHeld(h: Hash, v: State, s: SpendWires, balance: int, v': State)
    requires Ideal(h) && NotesOk(h, v) && Opened(h, v) && Vault.Spendable(h, v, s) && SpecSpend(h, s)
    requires Replace(h, v, s, balance) == Some(v')
    ensures Opened(h, v') && Held(h, v'.notes, v'.openedAt) == Held(h, v.notes, v.openedAt) - s.balance + balance
    ensures v' == v.(leaves := v'.leaves, notes := v'.notes, spent := v'.spent, openedAt := v'.openedAt)
  {
    OpenHeld(h, v, s);
    var n := Note(s.secret, balance, s.nonce + 1, s.owner);
    HeldAppend(h, v.notes, Open(v, s).spent, Open(v, s).openedAt, n);
  }

  lemma OpenHeld(h: Hash, v: State, s: SpendWires)
    requires Ideal(h) && NotesOk(h, v) && Opened(h, v) && Vault.Spendable(h, v, s) && SpecSpend(h, s)
    ensures Opened(h, Open(v, s)) && Held(h, v.notes, Open(v, s).openedAt) == Held(h, v.notes, v.openedAt) - s.balance
  {
    var i := SpentIndex(h, v, s);
    HeldSpend(h, v.notes, v.openedAt, i);
  }

  lemma SpentIndex(h: Hash, v: State, s: SpendWires) returns (i: nat)
    requires Ideal(h) && NotesOk(h, v) && Vault.Spendable(h, v, s) && SpecSpend(h, s)
    ensures i == Position(s.bits) && i < |v.notes| && v.notes[i] == NoteOf(s) && Nullifier(h, v.notes[i]) == s.nullifier && s.nullifier !in v.spent
  {
    i := SpentNote(h, v, s.root, NoteOf(s), s.sib, s.bits);
  }

  // ---- each call ---------------------------------------------------------------------------

  lemma DepositAccounted(h: Hash, v: State, d: DepositWires, sender: int, v': State)
    requires Accounted(h, v) && DoDeposit(h, v, d, sender) == Some(v')
    ensures Accounted(h, v')
  {
    HeldAppend(h, v.notes, v.spent, v.openedAt, Note(d.secret, d.amount, 0, d.owner));
  }

  /** One recorded bet more. */
  lemma BetLedger(h: Hash, v: State, v': State, n: int, bet: Bet, fee: nat)
    requires n !in v.bets && n !in v.protocolFee && v'.bets == v.bets[n := bet] && v'.protocolFee == v.protocolFee[n := fee]
    ensures MapSum(OutlayMap(v'.bets)) == MapSum(OutlayMap(v.bets)) + Outlay(bet)
    ensures MapSum(v'.protocolFee) == MapSum(v.protocolFee) + fee
  {
    OutlayPut(v.bets, n, bet);
    MapSumPut(v.protocolFee, n, fee);
  }

  lemma BetAccounted(h: Hash, v: State, b: BetWires, fees: FeeConfig, v': State)
    requires Ideal(h) && NotesOk(h, v) && b.s.nullifier !in v.bets && b.s.nullifier !in v.protocolFee && Accounted(h, v) && DoBet(h, v, b, fees) == Some(v')
    ensures Accounted(h, v')
  {
    var n := b.s.nullifier;
    var bet := Bet(b.betAmount, b.expectedShares, Active, 0, 0);
    var protocolFee := (b.betAmount * fees.betFeeBps / 10_000) % U64;
    var noted := v.(bets := v.bets[n := bet], protocolFee := v.protocolFee[n := protocolFee],
                    bettors := v.bettors[n := NoteOf(b.s)], feeAccumulator := v.feeAccumulator + fees.relayGasFee);
    assert NotesOk(h, noted) by {
      forall i | 0 <= i < |noted.notes| ensures NoteOk(h, noted, i) { assert NoteOk(h, v, i); }
    }
    ReplaceHeld(h, noted, b.s, b.s.balance - b.betAmount - b.fee, v');
    BetLedger(h, v, v', n, bet, protocolFee);
  }

  lemma FullWithdrawAccounted(h: Hash, v: State, w: WithdrawWires, recipient: int, fees: FeeConfig, v': State)
    requires Ideal(h) && NotesOk(h, v) && Accounted(h, v) && DoWithdraw(h, v, w, recipient, fees) == Some(v') && w.newCommitment == 0
    ensures Accounted(h, v')
  {
    assert w.amount == w.s.balance by {
      assert h.h4(w.s.secret, w.s.balance - w.amount, w.s.nonce + 1, w.s.owner) != 0;
    }
    OpenHeld(h, v, w.s);
  }

  lemma WithdrawAccounted(h: Hash, v: State, w: WithdrawWires, recipient: int, fees: FeeConfig, v': State)
    requires Ideal(h) && NotesOk(h, v) && Accounted(h, v) && DoWithdraw(h, v, w, recipient, fees) == Some(v')
    ensures Accounted(h, v')
  {
    var paid := v.(feeAccumulator := v.feeAccumulator + fees.withdrawalFee, paidOut := v.paidOut + (w.amount - fees.withdrawalFee));
    if w.newCommitment == 0 {
      FullWithdrawAccounted(h, v, w, recipient, fees, v');
    } else {
      assert NotesOk(h, paid) by {
        forall k | 0 <= k < |paid.notes| ensures NoteOk(h, paid, k) { assert NoteOk(h, v, k); }
      }
      ReplaceHeld(h, paid, w.s, w.s.balance - w.amount, v');
    }
  }

  /** A credit and the change of its bet record together balance. */
  lemma CreditBalances(h: Hash, v: State, c: CreditWires, amount: int, credited: State, v': State, b: Bet, fee: nat)
    requires Ideal(h) && NotesOk(h, v) && Accounted(h, v) && DoCredit(h, v, c, amount) == Some(credited)
    requires var n := c.nullifierOfBet;
      && v'.notes == credited.notes && v'.spent == credited.spent && v'.openedAt == credited.openedAt
      && v'.paidOut == v.paidOut && v'.deposited == v.deposited
      && v'.bets == v.bets[n := b] && v'.protocolFee == v.protocolFee[n := fee]
      && amount + Outlay(b) - Outlay(v.bets[n]) + fee - v.protocolFee[n] + v'.feeAccumulator - v.feeAccumulator == v'.income - v.income
    ensures Accounted(h, v')
  {
    ReplaceHeld(h, v, c.s, c.s.balance + c.credit, credited);
    OutlayPut(v.bets, c.nullifierOfBet, b);
    MapSumPut(v.protocolFee, c.nullifierOfBet, fee);
  }

  lemma SettleAccounted(h: Hash, v: State, c: CreditWires, payout: nat, attested: bool, v': State)
    requires Ideal(h) && NotesOk(h, v) && Accounted(h, v) && DoSettle(h, v, c, payout, attested) == Some(v')
    ensures Accounted(h, v')
  {
    var n, bet := c.nullifierOfBet, v.bets[c.nullifierOfBet];
    var amount := (bet.expectedShares - bet.soldShares) * payout;
    var credited := DoCredit(h, v, c, amount).value;
    CreditBalances(h, v, c, amount, credited, v', bet.(status := Credited), 0);
  }

  lemma CancelAccounted(h: Hash, v: State, c: CreditWires, attested: bool, v': State)
    requires Ideal(h) && NotesOk(h, v) && Accounted(h, v) && DoCancel(h, v, c, attested) == Some(v')
    ensures Accounted(h, v')
  {
    var n, bet := c.nullifierOfBet, v.bets[c.nullifierOfBet];
    var credited := DoCredit(h, v, c, bet.betAmount + v.protocolFee[n]).value;
    CreditBalances(h, v, c, bet.betAmount + v.protocolFee[n], credited, v', bet.(status := CancelledCredited), 0);
  }

  lemma NACancelAccounted(h: Hash, v: State, c: CreditWires, attested: bool, v': State)
    requires Ideal(h) && NotesOk(h, v) && Accounted(h, v) && DoNACancel(h, v, c, attested) == Some(v')
    ensures Accounted(h, v')
  {
    var n, bet := c.nullifierOfBet, v.bets[c.nullifierOfBet];
    var credited := DoCredit(h, v, c, bet.betAmount).value;
    CreditBalances(h, v, c, bet.betAmount, credited, v', bet.(status := CancelledCredited), 0);
  }

  lemma CloseAccounted(h: Hash, v: State, c: CreditWires, sold: nat, proceeds: nat, v': State)
    requires Ideal(h) && NotesOk(h, v) && Accounted(h, v) && DoClose(h, v, c, sold, proceeds) == Some(v')
    ensures Accounted(h, v')
  {
    var n, bet := c.nullifierOfBet, v.bets[c.nullifierOfBet];
    var credited := DoCredit(h, v, c, proceeds - bet.sellProceeds).value;
    var full := sold == bet.expectedShares;
    var fee := if full then 0 else v.protocolFee[n];
    assert v'.protocolFee == credited.protocolFee[n := fee];
    CreditBalances(h, v, c, proceeds - bet.sellProceeds, credited, v', v'.bets[n], fee);
  }

  lemma PartialAccounted(h: Hash, v: State, c: CreditWires, filled: nat, spentAmount: nat, v': State)
    requires Ideal(h) && NotesOk(h, v) && Accounted(h, v) && DoPartial(h, v, c, filled, spentAmount) == Some(v')
    ensures Accounted(h, v')
  {
    var n, bet := c.nullifierOfBet, v.bets[c.nullifierOfBet];
    var refund := (bet.betAmount - spentAmount) + RefundedFee(v.protocolFee[n], bet.betAmount, spentAmount);
    var credited := DoCredit(h, v, c, refund).value;
    CreditBalances(h, v, c, refund, credited, v', bet.(expectedShares := filled, betAmount := spentAmount, status := Filled), 0);
  }

  /** Marking the slots one at a time takes exactly the active balances. */
  lemma {:induction false} OpenAllHeld(h: Hash, v: State, owner: int, root: int, slots: seq<Slot>, marked: set<int>)
    requires Ideal(h) && NotesOk(h, v) && Opened(h, v) && KnownRoot(h, v, root) && SlotsOk(h, v, owner, root, slots)
    requires MarkAll(v.spent, slots) == Some(marked)
    ensures OpenedOk(h, v.notes, marked, OpenAll(v.openedAt, slots))
    ensures Held(h, v.notes, OpenAll(v.openedAt, slots)) + Total(slots) == Held(h, v.notes, v.openedAt)
  {
    if slots == [] { return; }
    var n := |slots| - 1;
    OpenAllHeld(h, v, owner, root, slots[..n], MarkAll(v.spent, slots[..n]).value);
    OpenOneHeld(h, v, owner, root, slots[n], MarkAll(v.spent, slots[..n]).value, OpenAll(v.openedAt, slots[..n]));
  }

  lemma OpenOneHeld(h: Hash, v: State, owner: int, root: int, x: Slot, marked: set<int>, openedAt: map<int, nat>)
    requires Ideal(h) && NotesOk(h, v) && KnownRoot(h, v, root) && SlotOk(h, owner, root, x)
    requires OpenedOk(h, v.notes, marked, openedAt) && (x.active == 1 ==> x.nullifier !in marked)
    ensures x.active == 1 <==> x.nullifier != 0
    ensures x.active == 1 ==> var more := openedAt[x.nullifier := Position(x.bits)];
      OpenedOk(h, v.notes, marked + {x.nullifier}, more) && Held(h, v.notes, more) + x.balance == Held(h, v.notes, openedAt)
  {
    NonzeroHash2(h, x.secret, x.nonce);
    if x.active == 1 {
      var i := SpentNote(h, v, root, NoteOfSlot(x, owner), x.sib, x.bits);
      assert Nullifier(h, v.notes[i]) == x.nullifier;
      HeldSpend(h, v.notes, openedAt, i);
    }
  }

  lemma ConsolidateAccounted(h: Hash, v: State, k: ConsolidateWires, v': State)
    requires Ideal(h) && NotesOk(h, v) && Accounted(h, v) && DoConsolidate(h, v, k) == Some(v')
    ensures Accounted(h, v')
  {
    var marked := MarkAll(v.spent, k.slots).value;
    OpenAllHeld(h, v, k.owner, k.root, k.slots, marked);
    HeldAppend(h, v.notes, marked, OpenAll(v.openedAt, k.slots), Note(k.slots[0].secret, Total(k.slots), k.slots[0].nonce + 1, k.owner));
  }

  lemma AdminCancelAccounted(h: Hash, v: State, n: int, v': State)
    requires Accounted(h, v) && DoAdminCancel(v, n) == Some(v')
    ensures Accounted(h, v')
  {
    OutlayPut(v.bets, n, v.bets[n].(status := Failed));
  }

  lemma StepAccounted(h: Hash, v: State, op: Op, v': State)
    requires Ideal(h) && Inv(h, v) && Accounted(h, v) && Step(h, v, op) == Some(v')
    ensures Accounted(h, v')
  {
    match op
    case Deposit(d, sender) => DepositAccounted(h, v, d, sender, v');
    case AuthorizeBet(b, fees) => BetAccounted(h, v, b, fees, v');
    case Withdraw(w, recipient, fees) => WithdrawAccounted(h, v, w, recipient, fees, v');
    case CreditSettlement(c, payout, attested, _) => SettleAccounted(h, v, c, payout, attested, v');
    case BetCancellation(c, attested) => CancelAccounted(h, v, c, attested, v');
    case NACancellation(c, attested) => NACancelAccounted(h, v, c, attested, v');
    case ClosePosition(c, sold, proceeds, _) => CloseAccounted(h, v, c, sold, proceeds, v');
    case PartialFill(c, filled, spentAmount) => PartialAccounted(h, v, c, filled, spentAmount, v');
    case Consolidate(k) => ConsolidateAccounted(h, v, k, v');
    case AdminCancel(bet) => AdminCancelAccounted(h, v, bet, v');
    case ClaimFees(_) =>
  }

  // ---- every run ---------------------------------------------------------------------------

  lemma {:induction false} RunAccounted(h: Hash, ops: seq<Op>)
    requires Ideal(h)
    ensures Accounted(h, Run(h, INITIAL, ops))
  {
    if ops == [] {
      assert OutlayMap(INITIAL.bets) == map[];
    } else {
      var before := Run(h, INITIAL, ops[..|ops| - 1]);
      RunAccounted(h, ops[..|ops| - 1]);
      RunInv(h, ops[..|ops| - 1]);
      if Step(h, before, ops[|ops| - 1]).Some? { StepAccounted(h, before, ops[|ops| - 1], Step(h, before, ops[|ops| - 1]).value); }
    }
  }

  ghost function StrandedIn(h: Hash, v: State): int { Stranded(h, v.notes, v.spent, v.openedAt) }

  /** Conservation over every run: deposits and trading income are, to the unit, the balances
      of the unspent notes, the stakes in the market, the fees, what was paid out, and the
      stranded balances. Nothing is missing exactly when no note of positive balance shares
      its nullifier with another note that was spent instead. */
  lemma Conservation(h: Hash, ops: seq<Op>)
    requires Ideal(h)
    ensures var v := Run(h, INITIAL, ops);
      && Ledger(h, v) + StrandedIn(h, v) == v.deposited + v.income && StrandedIn(h, v) >= 0
      && (Ledger(h, v) == v.deposited + v.income <==>
           forall i :: 0 <= i < |v.notes| && IsStranded(h, v.notes, v.spent, v.openedAt, i) ==> v.notes[i].balance == 0)
  {
    var v := Run(h, INITIAL, ops);
    RunAccounted(h, ops);
    RunInv(h, ops);
    ConservationOf(h, v);
  }

  lemma ConservationOf(h: Hash, v: State)
    requires NotesOk(h, v) && Accounted(h, v)
    ensures Ledger(h, v) + StrandedIn(h, v) == v.deposited + v.income && StrandedIn(h, v) >= 0
    ensures StrandedIn(h, v) == 0 <==>
      forall i :: 0 <= i < |v.notes| && IsStranded(h, v.notes, v.spent, v.openedAt, i) ==> v.notes[i].balance == 0
  {
    Balances(h, v);
    HeldIsLiveAndStranded(h, v.notes, v.spent, v.openedAt);
    StrandedSign(h, v.notes, v.spent, v.openedAt);
  }
}
