/** What no run of the vault can do twice: spend a note, or pay out a bet. */
module VaultRuns {
  import opened Specs
  import opened Vault
  import opened VaultProofs
  import opened Wrappers

  // ---- notes -------------------------------------------------------------------------

  /** The nullifiers a call consumes. */
  function Marks(op: Op): set<int> {
    match op
    case Deposit(_, _) => {}
    case AuthorizeBet(b, _) => {b.s.nullifier}
    case Withdraw(w, _, _) => {w.s.nullifier}
    case CreditSettlement(c, _, _, _) => {c.s.nullifier}
    case BetCancellation(c, _) => {c.s.nullifier}
    case NACancellation(c, _) => {c.s.nullifier}
    case ClosePosition(c, _, _, _) => {c.s.nullifier}
    case PartialFill(c, _, _) => {c.s.nullifier}
    case Consolidate(k) => SlotMarks(k.slots)
    case AdminCancel(_) => {}
    case ClaimFees(_) => {}
  }

  function SlotMarks(slots: seq<Slot>): set<int> {
    set j | 0 <= j < |slots| && slots[j].nullifier != 0 :: slots[j].nullifier
  }

  /** Sequential marking succeeds exactly when the nonzero nullifiers are fresh and pairwise
      different, and then adds exactly those. */
  lemma {:induction false} MarkAllExact(spent: set<int>, slots: seq<Slot>)
    ensures MarkAll(spent, slots).Some? <==> SlotMarks(slots) !! spent && Distinct(slots)
    ensures MarkAll(spent, slots).Some? ==> MarkAll(spent, slots).value == spent + SlotMarks(slots)
  {
    if slots == [] { return; }
    var n := |slots| - 1;
    MarkAllExact(spent, slots[..n]);
    var x := slots[n].nullifier;
    assert SlotMarks(slots) == SlotMarks(slots[..n]) + (if x == 0 then {} else {x}) by {
      forall y | y in SlotMarks(slots) ensures y in SlotMarks(slots[..n]) || y == x {
        var j :| 0 <= j < |slots| && slots[j].nullifier == y && y != 0;
        if j < n { assert slots[..n][j].nullifier == y; }
      }
      forall y | y in SlotMarks(slots[..n]) ensures y in SlotMarks(slots) {
        var j :| 0 <= j < n && slots[..n][j].nullifier == y && y != 0;
        assert slots[j].nullifier == y;
      }
      assert x != 0 ==> slots[n].nullifier in SlotMarks(slots);
    }
    assert Distinct(slots) <==> Distinct(slots[..n]) && (x == 0 || x !in SlotMarks(slots[..n])) by {
      if Distinct(slots[..n]) && x != 0 && x in SlotMarks(slots[..n]) {
        var j :| 0 <= j < n && slots[..n][j].nullifier == x;
        assert slots[j].nullifier == slots[n].nullifier != 0;
      }
      if Distinct(slots) {
        forall i, j | 0 <= i < j < n && slots[..n][j].nullifier != 0 ensures slots[..n][i].nullifier != slots[..n][j].nullifier {
          assert slots[i].nullifier != slots[j].nullifier;
        }
      }
      if Distinct(slots[..n]) && (x == 0 || x !in SlotMarks(slots[..n])) {
        forall i, j | 0 <= i < j <= n && slots[j].nullifier != 0 ensures slots[i].nullifier != slots[j].nullifier {
          assert slots[..n][i].nullifier == slots[i].nullifier;
          if j < n { assert slots[..n][j].nullifier == slots[j].nullifier; }
        }
      }
    }
  }

  predicate Distinct(slots: seq<Slot>) {
    forall i, j :: 0 <= i < j < |slots| && slots[j].nullifier != 0 ==> slots[i].nullifier != slots[j].nullifier
  }

  /** A successful call consumes fresh nullifiers and no others. */
  lemma StepMarks(h: Hash, v: State, op: Op, v': State)
    requires Step(h, v, op) == Some(v')
    ensures Marks(op) !! v.spent && v'.spent == v.spent + Marks(op)
  {
    if Target(op).Some? {
      CreditMarks(h, v, op, v');
    } else if op.Consolidate? {
      MergeMarks(h, v, op, v');
    }
  }

  lemma MergeMarks(h: Hash, v: State, op: Op, v': State)
    requires op.Consolidate? && Step(h, v, op) == Some(v')
    ensures Marks(op) !! v.spent && v'.spent == v.spent + Marks(op)
  {
    MarkAllExact(v.spent, op.k.slots);
  }

  lemma CreditMarks(h: Hash, v: State, op: Op, v': State)
    requires Target(op).Some? && Step(h, v, op) == Some(v')
    ensures Marks(op) !! v.spent && v'.spent == v.spent + Marks(op)
  {
  }

  lemma {:induction false} SpentGrows(h: Hash, ops: seq<Op>, i: nat)
    requires i <= |ops|
    ensures Run(h, INITIAL, ops[..i]).spent <= Run(h, INITIAL, ops).spent
  {
    if i == |ops| {
      assert ops[..i] == ops;
    } else {
      var n := |ops| - 1;
      SpentGrows(h, ops[..n], i);
      assert ops[..n][..i] == ops[..i];
      var before := Run(h, INITIAL, ops[..n]);
      if Step(h, before, ops[n]).Some? { StepMarks(h, before, ops[n], Step(h, before, ops[n]).value); }
    }
  }

  ghost predicate Succeeds(h: Hash, ops: seq<Op>, i: nat)
    requires i < |ops|
  {
    Step(h, Run(h, INITIAL, ops[..i]), ops[i]).Some?
  }

  /** No note is spent twice: two successful calls of one run consume disjoint nullifiers. */
  lemma NoDoubleSpend(h: Hash, ops: seq<Op>, i: nat, j: nat)
    requires i < j < |ops| && Succeeds(h, ops, i) && Succeeds(h, ops, j)
    ensures Marks(ops[i]) !! Marks(ops[j])
  {
    MarkedAt(h, ops, i);
    MarkedAt(h, ops, j);
    SpentGrows(h, ops[..j], i + 1);
    assert ops[..j][..i + 1] == ops[..i + 1];
  }

  lemma MarkedAt(h: Hash, ops: seq<Op>, i: nat)
    requires i < |ops| && Succeeds(h, ops, i)
    ensures Marks(ops[i]) !! Run(h, INITIAL, ops[..i]).spent && Marks(ops[i]) <= Run(h, INITIAL, ops[..i + 1]).spent
  {
    var v := Run(h, INITIAL, ops[..i]);
    StepMarks(h, v, ops[i], Step(h, v, ops[i]).value);
    assert ops[..i + 1][..i] == ops[..i];
  }

  // ---- bets -----------------------------------------------------------------------------

  predicate Paid(s: Status) { s == Credited || s == CancelledCredited || s == ClosedCredited }

  /** The bet a call credits against. */
  function Target(op: Op): Option<int> {
    match op
    case CreditSettlement(c, _, _, _) => Some(c.nullifierOfBet)
    case BetCancellation(c, _) => Some(c.nullifierOfBet)
    case NACancellation(c, _) => Some(c.nullifierOfBet)
    case ClosePosition(c, _, _, _) => Some(c.nullifierOfBet)
    case PartialFill(c, _, _) => Some(c.nullifierOfBet)
    case _ => None
  }

  /** A paid bet cannot be credited again, and no call changes its record. */
  lemma PaidIsFinal(h: Hash, v: State, op: Op, n: int)
    requires BetsOk(h, v) && n in v.bets && Paid(v.bets[n].status)
    ensures Target(op) == Some(n) ==> Step(h, v, op) == None
    ensures Step(h, v, op).Some? ==> n in Step(h, v, op).value.bets && Step(h, v, op).value.bets[n] == v.bets[n]
  {
    if Step(h, v, op).Some? {
      if Target(op) == Some(n) { PaidRefused(h, v, op, n); } else { OtherBets(h, v, op, Step(h, v, op).value, n); }
    }
  }

  lemma PaidRefused(h: Hash, v: State, op: Op, n: int)
    requires Target(op) == Some(n) && n in v.bets && Paid(v.bets[n].status)
    ensures Step(h, v, op) == None
  {
  }

  ghost predicate IsPaid(v: State, n: int) { n in v.bets && Paid(v.bets[n].status) }

  lemma PaidStaysPaid(h: Hash, v: State, op: Op, n: int)
    requires BetsOk(h, v) && IsPaid(v, n)
    ensures Step(h, v, op).Some? ==> IsPaid(Step(h, v, op).value, n)
  {
    PaidIsFinal(h, v, op, n);
  }

  lemma BetsOkAfter(h: Hash, ops: seq<Op>)
    requires Ideal(h)
    ensures BetsOk(h, Run(h, INITIAL, ops))
  {
    RunInv(h, ops);
  }

  lemma {:induction false} PaidStays(h: Hash, ops: seq<Op>, i: nat, n: int)
    requires Ideal(h) && i <= |ops| && IsPaid(Run(h, INITIAL, ops[..i]), n)
    ensures IsPaid(Run(h, INITIAL, ops), n)
  {
    if i == |ops| {
      assert ops[..i] == ops;
    } else {
      var last := |ops| - 1;
      assert ops[..last][..i] == ops[..i];
      PaidStays(h, ops[..last], i, n);
      var before := Run(h, INITIAL, ops[..last]);
      BetsOkAfter(h, ops[..last]);
      PaidStaysPaid(h, before, ops[last], n);
    }
  }

  /** The credits after which nothing is left to credit: settlement, cancellation,
      void-market refund, and a close of all shares. */
  predicate FinalCredit(v: State, op: Op) {
    match op
    case CreditSettlement(_, _, _, _) => true
    case BetCancellation(_, _) => true
    case NACancellation(_, _) => true
    case ClosePosition(c, sold, _, _) => c.nullifierOfBet in v.bets && sold == v.bets[c.nullifierOfBet].expectedShares
    case _ => false
  }

  /** A successful credit leaves the bet paid exactly if it is a final one. */
  lemma CreditPays(h: Hash, v: State, op: Op, v': State, n: int)
    requires Step(h, v, op) == Some(v') && Target(op) == Some(n)
    ensures n in v.bets && n in v'.bets
    ensures Paid(v'.bets[n].status) <==> FinalCredit(v, op)
  {
  }

  /** The final credits exclude each other, and none happens twice: after the first of them,
      every later credit on the bet reverts. */
  lemma NoDoublePayout(h: Hash, ops: seq<Op>, i: nat, j: nat, n: int)
    requires Ideal(h) && i < j < |ops|
    requires Succeeds(h, ops, i) && Target(ops[i]) == Some(n) && FinalCredit(Run(h, INITIAL, ops[..i]), ops[i])
    requires Target(ops[j]) == Some(n)
    ensures !Succeeds(h, ops, j)
  {
    var vi := Run(h, INITIAL, ops[..i]);
    CreditPays(h, vi, ops[i], Step(h, vi, ops[i]).value, n);
    assert ops[..i + 1][..i] == ops[..i];
    assert ops[..j][..i + 1] == ops[..i + 1];
    PaidStays(h, ops[..j], i + 1, n);
    BetsOkAfter(h, ops[..j]);
    PaidIsFinal(h, Run(h, INITIAL, ops[..j]), ops[j], n);
  }

  lemma TargetFilled(h: Hash, v: State, op: Op, v': State, n: int)
    requires Step(h, v, op) == Some(v') && Target(op) == Some(n) && n in v.bets
    ensures n in v'.bets
    ensures v'.bets[n].status == Filled <==> op.PartialFill? || (op.ClosePosition? && op.soldShares < v.bets[n].expectedShares)
  {
  }

  /** How a record becomes FILLED: by a partial fill, or by a close that leaves shares. The
      comment on `partialFillCredit` names only the first. */
  lemma FilledOnlyBy(h: Hash, v: State, op: Op, v': State, n: int)
    requires BetsOk(h, v) && Step(h, v, op) == Some(v') && n in v.bets && v.bets[n].status != Filled
    ensures n in v'.bets
    ensures v'.bets[n].status == Filled <==>
      Target(op) == Some(n) && (op.PartialFill? || (op.ClosePosition? && op.soldShares < v.bets[n].expectedShares))
  {
    if Target(op) == Some(n) { TargetFilled(h, v, op, v', n); } else { OtherBets(h, v, op, v', n); }
  }

  /** The recorded sales of a bet never shrink, and a close raises them to the attested ones. */
  lemma SoldGrows(h: Hash, v: State, op: Op, v': State, n: int)
    requires BetsOk(h, v) && Step(h, v, op) == Some(v') && n in v.bets
    ensures n in v'.bets && v.bets[n].soldShares <= v'.bets[n].soldShares
    ensures op.ClosePosition? && op.c.nullifierOfBet == n ==> v.bets[n].soldShares < op.soldShares == v'.bets[n].soldShares
  {
    if Target(op) == Some(n) { TargetSold(h, v, op, v', n); } else { OtherBets(h, v, op, v', n); }
  }

  lemma TargetSold(h: Hash, v: State, op: Op, v': State, n: int)
    requires Step(h, v, op) == Some(v') && Target(op) == Some(n) && n in v.bets
    ensures n in v'.bets && v.bets[n].soldShares <= v'.bets[n].soldShares
    ensures op.ClosePosition? ==> v.bets[n].soldShares < op.soldShares == v'.bets[n].soldShares
  {
  }

  /** A call on another bet leaves the record, unless the operator fails an active bet. */
  lemma OtherBets(h: Hash, v: State, op: Op, v': State, n: int)
    requires BetsOk(h, v) && Step(h, v, op) == Some(v') && Target(op) != Some(n) && n in v.bets
    ensures n in v'.bets
    ensures v'.bets[n] == v.bets[n] || (v.bets[n].status == Active && v'.bets[n] == v.bets[n].(status := Failed))
  {
    if Target(op).Some? { OtherCredit(h, v, op, v', n); } else { NoCredit(h, v, op, v', n); }
  }

  lemma OtherCredit(h: Hash, v: State, op: Op, v': State, n: int)
    requires Step(h, v, op) == Some(v') && Target(op).Some? && Target(op) != Some(n) && n in v.bets
    ensures n in v'.bets && v'.bets[n] == v.bets[n]
  {
  }

  lemma NoCredit(h: Hash, v: State, op: Op, v': State, n: int)
    requires v.bets.Keys <= v.spent && Step(h, v, op) == Some(v') && Target(op) == None && n in v.bets
    ensures n in v'.bets
    ensures v'.bets[n] == v.bets[n] || (v.bets[n].status == Active && v'.bets[n] == v.bets[n].(status := Failed))
  {
  }

  ghost predicate SoldAtLeast(v: State, n: int, sold: nat) { n in v.bets && v.bets[n].soldShares >= sold }

  lemma {:induction false} SoldStays(h: Hash, ops: seq<Op>, i: nat, n: int, sold: nat)
    requires Ideal(h) && i <= |ops| && SoldAtLeast(Run(h, INITIAL, ops[..i]), n, sold)
    ensures SoldAtLeast(Run(h, INITIAL, ops), n, sold)
  {
    if i == |ops| {
      assert ops[..i] == ops;
    } else {
      var last := |ops| - 1;
      assert ops[..last][..i] == ops[..i];
      SoldStays(h, ops[..last], i, n, sold);
      BetsOkAfter(h, ops[..last]);
      var before := Run(h, INITIAL, ops[..last]);
      if Step(h, before, ops[last]).Some? { SoldGrows(h, before, ops[last], Step(h, before, ops[last]).value, n); }
    }
  }

  /** Attested sales close a position once: a later close with the same or fewer shares is
      refused, however the run goes on. */
  lemma AttestationClosesOnce(h: Hash, ops: seq<Op>, i: nat, j: nat)
    requires Ideal(h) && i < j < |ops| && ops[i].ClosePosition? && ops[j].ClosePosition?
    requires ops[i].c.nullifierOfBet == ops[j].c.nullifierOfBet && ops[j].soldShares <= ops[i].soldShares
    requires Succeeds(h, ops, i)
    ensures !Succeeds(h, ops, j)
  {
    var n, sold := ops[i].c.nullifierOfBet, ops[i].soldShares;
    var vi := Run(h, INITIAL, ops[..i]);
    assert ops[..i + 1][..i] == ops[..i] && ops[..j][..i + 1] == ops[..i + 1];
    BetsOkAfter(h, ops[..i]);
    ClosedBetKnown(h, vi, ops[i]);
    SoldGrows(h, vi, ops[i], Step(h, vi, ops[i]).value, n);
    SoldStays(h, ops[..j], i + 1, n, sold);
    CloseNeedsMore(h, Run(h, INITIAL, ops[..j]), ops[j]);
  }

  lemma ClosedBetKnown(h: Hash, v: State, op: Op)
    requires op.ClosePosition? && Step(h, v, op).Some?
    ensures op.c.nullifierOfBet in v.bets
  {
  }

  lemma CloseNeedsMore(h: Hash, v: State, op: Op)
    requires op.ClosePosition? && SoldAtLeast(v, op.c.nullifierOfBet, op.soldShares)
    ensures Step(h, v, op) == None
  {
  }

  // ---- credits -------------------------------------------------------------------------------

  /** The bet was paid for by an earlier note of the spender's secret, and the new note keeps
      the spent note's secret and owner. */
  ghost predicate GoesToBettor(v: State, c: CreditWires, amount: int, v': State) {
    && c.nullifierOfBet in v.bettors
    && v.bettors[c.nullifierOfBet].secret == c.s.secret
    && v.bettors[c.nullifierOfBet].nonce < c.s.nonce
    && NoteOf(c.s) in v.notes
    && v'.notes == v.notes + [Note(c.s.secret, c.s.balance + amount, c.s.nonce + 1, c.s.owner)]
  }

  lemma CreditFromInv(h: Hash, v: State, c: CreditWires, amount: int, v': State)
    requires Ideal(h) && NotesOk(h, v) && BetsOk(h, v) && DoCredit(h, v, c, amount) == Some(v')
    ensures GoesToBettor(v, c, amount, v')
  {
    CreditStep(h, v, c, amount, v');
    ReplaceStep(h, v, c.s, c.s.balance + c.credit, v');
  }

  /** Every credit of every run goes to the lineage that placed the bet. */
  lemma CreditGoesToBettor(h: Hash, ops: seq<Op>, c: CreditWires, amount: int, v': State)
    requires Ideal(h) && DoCredit(h, Run(h, INITIAL, ops), c, amount) == Some(v')
    ensures GoesToBettor(Run(h, INITIAL, ops), c, amount, v')
  {
    RunInv(h, ops);
    CreditFromInv(h, Run(h, INITIAL, ops), c, amount, v');
  }

  /** A withdrawal pays the owner bound in the note, who is one of the depositors. */
  lemma WithdrawalPaysOwner(h: Hash, ops: seq<Op>, w: WithdrawWires, recipient: int, fees: FeeConfig)
    requires Ideal(h) && DoWithdraw(h, Run(h, INITIAL, ops), w, recipient, fees).Some?
    ensures recipient == w.s.owner && recipient in Run(h, INITIAL, ops).deposits && NoteOf(w.s) in Run(h, INITIAL, ops).notes
  {
    RunInv(h, ops);
    var v := Run(h, INITIAL, ops);
    WithdrawInv(h, v, w, recipient, fees, DoWithdraw(h, v, w, recipient, fees).value);
    var i := SpentNote(h, v, w.s.root, NoteOf(w.s), w.s.sib, w.s.bits);
  }
}
