/** The vault's records are the history of its accepted calls: a reference that knows no state,
    and what every call demands and pays in its terms. */
module VaultHistory {
  import opened Arith
  import opened NodeMap
  import opened Specs
  import opened Vault
  import opened VaultProofs
  import opened VaultRuns
  import opened Wrappers

  /** The calls of a run that did not revert. */
  ghost function Accepted(h: Hash, ops: seq<Op>): seq<Op> {
    if ops == [] then []
    else
      var n := |ops| - 1;
      Accepted(h, ops[..n]) + (if Step(h, Run(h, INITIAL, ops[..n]), ops[n]).Some? then [ops[n]] else [])
  }

  // ---- what a list of accepted calls says about a bet ------------------------------------

  predicate Places(op: Op, n: int) { op.AuthorizeBet? && op.b.s.nullifier == n }

  predicate Placed(acc: seq<Op>, n: int) { exists i :: 0 <= i < |acc| && Places(acc[i], n) }

  /** The shares bought: those of the bet, or those of its partial fill. */
  function SharesOf(acc: seq<Op>, n: int): int {
    if acc == [] then 0
    else
      var op := acc[|acc| - 1];
      if Places(op, n) then op.b.expectedShares
      else if op.PartialFill? && op.c.nullifierOfBet == n then op.filledShares
      else SharesOf(acc[..|acc| - 1], n)
  }

  /** The stake: that of the bet, or what its partial fill spent. */
  function StakeOf(acc: seq<Op>, n: int): int {
    if acc == [] then 0
    else
      var op := acc[|acc| - 1];
      if Places(op, n) then op.b.betAmount
      else if op.PartialFill? && op.c.nullifierOfBet == n then op.spentAmount
      else StakeOf(acc[..|acc| - 1], n)
  }

  /** The shares sold and the proceeds, as the last close attested them. */
  function SoldOf(acc: seq<Op>, n: int): int {
    if acc == [] then 0
    else
      var op := acc[|acc| - 1];
      if Places(op, n) then 0
      else if op.ClosePosition? && op.c.nullifierOfBet == n then op.soldShares
      else SoldOf(acc[..|acc| - 1], n)
  }

  function ProceedsOf(acc: seq<Op>, n: int): int {
    if acc == [] then 0
    else
      var op := acc[|acc| - 1];
      if Places(op, n) then 0
      else if op.ClosePosition? && op.c.nullifierOfBet == n then op.proceeds
      else ProceedsOf(acc[..|acc| - 1], n)
  }

  function StatusOf(acc: seq<Op>, n: int): Status {
    if acc == [] then Active
    else
      var op, before := acc[|acc| - 1], acc[..|acc| - 1];
      if Places(op, n) then Active
      else if op == AdminCancel(n) then Failed
      else if Target(op) != Some(n) then StatusOf(before, n)
      else
        match op
        case CreditSettlement(_, _, _, _) => Credited
        case PartialFill(_, _, _) => Filled
        case ClosePosition(_, sold, _, _) => if sold == SharesOf(before, n) then ClosedCredited else Filled
        case _ => CancelledCredited
  }

  /** The part of the protocol fee that comes back with an unspent part of the stake. */
  function FeeBack(fee: int, stake: int, spentAmount: int): int
    requires stake > 0
  {
    (fee * (stake - spentAmount)) / stake
  }

  /** The provisional fee that is still held for a bet. */
  function FeeOf(acc: seq<Op>, n: int): int {
    if acc == [] then 0
    else
      var op, before := acc[|acc| - 1], acc[..|acc| - 1];
      if Places(op, n) then (op.b.betAmount * op.fees.betFeeBps / 10_000) % U64
      else if Target(op) != Some(n) then FeeOf(before, n)
      else if op.ClosePosition? && op.soldShares != SharesOf(before, n) then FeeOf(before, n)
      else 0
  }

  /** What a call earns the operator: relay and withdrawal fees as they are charged, the
      protocol fee when the bet is final and was not cancelled. */
  function Earned(acc: seq<Op>, op: Op): int {
    match op
    case AuthorizeBet(_, fees) => fees.relayGasFee
    case Withdraw(_, _, fees) => fees.withdrawalFee
    case CreditSettlement(c, _, _, _) => FeeOf(acc, c.nullifierOfBet)
    case NACancellation(c, _) => FeeOf(acc, c.nullifierOfBet)
    case ClosePosition(c, sold, _, _) => if sold == SharesOf(acc, c.nullifierOfBet) then FeeOf(acc, c.nullifierOfBet) else 0
    case PartialFill(c, _, spentAmount) =>
      var fee, stake := FeeOf(acc, c.nullifierOfBet), StakeOf(acc, c.nullifierOfBet);
      if stake > 0 then fee - FeeBack(fee, stake, spentAmount) else 0
    case ClaimFees(amount) => 0 - amount
    case _ => 0
  }

  function FeesOf(acc: seq<Op>): int {
    if acc == [] then 0 else FeesOf(acc[..|acc| - 1]) + Earned(acc[..|acc| - 1], acc[|acc| - 1])
  }

  function Pays(op: Op): int {
    match op
    case Withdraw(w, _, fees) => w.amount - fees.withdrawalFee
    case ClaimFees(amount) => amount
    case _ => 0
  }

  /** What left the vault: withdrawals less their fee, and claimed fees. */
  function PaidOf(acc: seq<Op>): int {
    if acc == [] then 0 else PaidOf(acc[..|acc| - 1]) + Pays(acc[|acc| - 1])
  }

  function DepositsOf(acc: seq<Op>, owner: int): int {
    if acc == [] then 0
    else
      var op := acc[|acc| - 1];
      DepositsOf(acc[..|acc| - 1], owner) + (if op.Deposit? && op.sender == owner then op.d.amount else 0)
  }

  // ---- state and history agree ----------------------------------------------------------------

  ghost predicate RecordOk(v: State, acc: seq<Op>, n: int) {
    && (n in v.bets <==> Placed(acc, n)) && (n in v.bets <==> n in v.protocolFee)
    && (n in v.bets ==>
          && v.bets[n].betAmount == StakeOf(acc, n) && v.bets[n].expectedShares == SharesOf(acc, n)
          && v.bets[n].soldShares == SoldOf(acc, n) && v.bets[n].sellProceeds == ProceedsOf(acc, n)
          && v.bets[n].status == StatusOf(acc, n) && v.protocolFee[n] == FeeOf(acc, n))
  }

  ghost predicate HistoryOk(v: State, acc: seq<Op>) {
    && (forall n :: RecordOk(v, acc, n))
    && v.feeAccumulator == FeesOf(acc) && v.paidOut == PaidOf(acc)
    && (forall o :: (if o in v.deposits then v.deposits[o] else 0) == DepositsOf(acc, o) <= DEPOSIT_CAP)
  }

  lemma PlacedNext(acc: seq<Op>, op: Op, n: int)
    ensures Placed(acc + [op], n) <==> Placed(acc, n) || Places(op, n)
  {
    var longer := acc + [op];
    if Placed(acc, n) {
      var i :| 0 <= i < |acc| && Places(acc[i], n);
      assert longer[i] == acc[i];
    }
    if Places(op, n) { assert longer[|acc|] == op; }
  }

  lemma LastOf(acc: seq<Op>, op: Op)
    ensures (acc + [op])[..|acc|] == acc && (acc + [op])[|acc|] == op
  {
  }

  /** A call that neither places nor touches the bet leaves its history. */
  lemma OtherHistory(acc: seq<Op>, op: Op, n: int)
    requires !Places(op, n) && Target(op) != Some(n) && op != AdminCancel(n)
    ensures var longer := acc + [op];
      && SharesOf(longer, n) == SharesOf(acc, n) && StakeOf(longer, n) == StakeOf(acc, n) && SoldOf(longer, n) == SoldOf(acc, n)
      && ProceedsOf(longer, n) == ProceedsOf(acc, n) && StatusOf(longer, n) == StatusOf(acc, n) && FeeOf(longer, n) == FeeOf(acc, n)
      && (Placed(longer, n) <==> Placed(acc, n))
  {
    LastOf(acc, op);
    PlacedNext(acc, op, n);
  }

  /** Records of other bets stay. */
  lemma OtherRecord(h: Hash, v: State, op: Op, v': State, n: int)
    requires Step(h, v, op) == Some(v') && !Places(op, n) && Target(op) != Some(n) && op != AdminCancel(n)
    ensures (n in v'.bets <==> n in v.bets) && (n in v'.protocolFee <==> n in v.protocolFee)
    ensures n in v.bets ==> v'.bets[n] == v.bets[n]
    ensures n in v.protocolFee ==> v'.protocolFee[n] == v.protocolFee[n]
  {
    if Target(op).Some? { OtherCreditRecord(h, v, op, v', n); } else { NoCreditRecord(h, v, op, v', n); }
  }

  lemma NoCreditRecord(h: Hash, v: State, op: Op, v': State, n: int)
    requires Step(h, v, op) == Some(v') && !Places(op, n) && Target(op) == None && op != AdminCancel(n)
    ensures (n in v'.bets <==> n in v.bets) && (n in v'.protocolFee <==> n in v.protocolFee)
    ensures n in v.bets ==> v'.bets[n] == v.bets[n]
    ensures n in v.protocolFee ==> v'.protocolFee[n] == v.protocolFee[n]
  {
    NoCreditShape(h, v, op, v');
  }

  // What the calls that credit no bet change.

  lemma DepositShape(h: Hash, v: State, d: DepositWires, sender: int, v': State)
    requires DoDeposit(h, v, d, sender) == Some(v')
    ensures v' == v.(leaves := v'.leaves, notes := v'.notes, deposits := v'.deposits, deposited := v'.deposited)
  {
  }

  lemma BetShape(h: Hash, v: State, b: BetWires, fees: FeeConfig, v': State)
    requires DoBet(h, v, b, fees) == Some(v')
    ensures v' == v.(leaves := v'.leaves, notes := v'.notes, spent := v'.spent, openedAt := v'.openedAt, bets := v.bets[b.s.nullifier := v'.bets[b.s.nullifier]],
                     protocolFee := v.protocolFee[b.s.nullifier := v'.protocolFee[b.s.nullifier]], bettors := v'.bettors,
                     feeAccumulator := v.feeAccumulator + fees.relayGasFee)
  {
  }

  lemma WithdrawShape(h: Hash, v: State, w: WithdrawWires, recipient: int, fees: FeeConfig, v': State)
    requires DoWithdraw(h, v, w, recipient, fees) == Some(v')
    ensures w.amount >= fees.withdrawalFee
    ensures v' == v.(leaves := v'.leaves, notes := v'.notes, spent := v'.spent, openedAt := v'.openedAt,
                     feeAccumulator := v.feeAccumulator + fees.withdrawalFee, paidOut := v.paidOut + (w.amount - fees.withdrawalFee))
  {
    var paid := v.(feeAccumulator := v.feeAccumulator + fees.withdrawalFee, paidOut := v.paidOut + (w.amount - fees.withdrawalFee));
    if w.newCommitment == 0 {
      assert v' == Open(paid, w.s);
    } else {
      assert Some(v') == Replace(h, paid, w.s, w.s.balance - w.amount);
    }
  }

  lemma MergeShape(h: Hash, v: State, k: ConsolidateWires, v': State)
    requires DoConsolidate(h, v, k) == Some(v')
    ensures v' == v.(leaves := v'.leaves, notes := v'.notes, spent := v'.spent, openedAt := v'.openedAt)
  {
  }

  lemma NoCreditShape(h: Hash, v: State, op: Op, v': State)
    requires Step(h, v, op) == Some(v') && Target(op) == None
    ensures !op.Deposit? ==> v'.deposits == v.deposits
    ensures v'.feeAccumulator == v.feeAccumulator + Earned([], op) && v'.paidOut == v.paidOut + Pays(op)
    ensures match op
      case AuthorizeBet(b, _) =>
        && b.s.nullifier in v'.bets && b.s.nullifier in v'.protocolFee
        && v'.bets == v.bets[b.s.nullifier := v'.bets[b.s.nullifier]] && v'.protocolFee == v.protocolFee[b.s.nullifier := v'.protocolFee[b.s.nullifier]]
      case AdminCancel(n) => n in v.bets && v'.bets == v.bets[n := v'.bets[n]] && v'.protocolFee == v.protocolFee
      case _ => v'.bets == v.bets && v'.protocolFee == v.protocolFee
  {
    match op
    case Deposit(d, sender) => DepositShape(h, v, d, sender, v');
    case AuthorizeBet(b, fees) => BetShape(h, v, b, fees, v');
    case Withdraw(w, recipient, fees) => WithdrawShape(h, v, w, recipient, fees, v');
    case Consolidate(k) => MergeShape(h, v, k, v');
    case _ =>
  }

  lemma OtherCreditRecord(h: Hash, v: State, op: Op, v': State, n: int)
    requires Step(h, v, op) == Some(v') && Target(op).Some? && Target(op) != Some(n)
    ensures (n in v'.bets <==> n in v.bets) && (n in v'.protocolFee <==> n in v.protocolFee)
    ensures n in v.bets ==> v'.bets[n] == v.bets[n]
    ensures n in v.protocolFee ==> v'.protocolFee[n] == v.protocolFee[n]
  {
  }

  // ---- one call ---------------------------------------------------------------------------------

  lemma PlaceRecord(h: Hash, v: State, acc: seq<Op>, op: Op, v': State, n: int)
    requires Step(h, v, op) == Some(v') && Places(op, n)
    ensures RecordOk(v', acc + [op], n)
  {
    LastOf(acc, op);
    PlacedNext(acc, op, n);
  }

  lemma SettleRecord(h: Hash, v: State, acc: seq<Op>, op: Op, v': State, n: int)
    requires Step(h, v, op) == Some(v') && op.CreditSettlement? && Target(op) == Some(n) && RecordOk(v, acc, n)
    ensures RecordOk(v', acc + [op], n)
  {
    LastOf(acc, op);
    PlacedNext(acc, op, n);
  }

  lemma CancelRecord(h: Hash, v: State, acc: seq<Op>, op: Op, v': State, n: int)
    requires Step(h, v, op) == Some(v') && (op.BetCancellation? || op.NACancellation?) && Target(op) == Some(n) && RecordOk(v, acc, n)
    ensures RecordOk(v', acc + [op], n)
  {
    LastOf(acc, op);
    PlacedNext(acc, op, n);
  }

  lemma CloseRecord(h: Hash, v: State, acc: seq<Op>, op: Op, v': State, n: int)
    requires Step(h, v, op) == Some(v') && op.ClosePosition? && Target(op) == Some(n) && RecordOk(v, acc, n)
    ensures RecordOk(v', acc + [op], n)
  {
    LastOf(acc, op);
    PlacedNext(acc, op, n);
  }

  lemma PartialRecord(h: Hash, v: State, acc: seq<Op>, op: Op, v': State, n: int)
    requires Step(h, v, op) == Some(v') && op.PartialFill? && Target(op) == Some(n) && RecordOk(v, acc, n)
    ensures RecordOk(v', acc + [op], n)
  {
    LastOf(acc, op);
    PlacedNext(acc, op, n);
  }

  lemma StepRecord(h: Hash, v: State, acc: seq<Op>, op: Op, v': State, n: int)
    requires Step(h, v, op) == Some(v') && RecordOk(v, acc, n)
    ensures RecordOk(v', acc + [op], n)
  {
    if Places(op, n) {
      PlaceRecord(h, v, acc, op, v', n);
    } else if Target(op) == Some(n) {
      match op
      case CreditSettlement(_, _, _, _) => SettleRecord(h, v, acc, op, v', n);
      case ClosePosition(_, _, _, _) => CloseRecord(h, v, acc, op, v', n);
      case PartialFill(_, _, _) => PartialRecord(h, v, acc, op, v', n);
      case _ => CancelRecord(h, v, acc, op, v', n);
    } else if op == AdminCancel(n) {
      LastOf(acc, op);
      PlacedNext(acc, op, n);
    } else {
      OtherHistory(acc, op, n);
      OtherRecord(h, v, op, v', n);
    }
  }

  /** The operator's fees, what was paid, and what each owner deposited. */
  lemma StepTotals(h: Hash, v: State, acc: seq<Op>, op: Op, v': State)
    requires Step(h, v, op) == Some(v') && HistoryOk(v, acc)
    ensures v'.feeAccumulator == FeesOf(acc + [op]) && v'.paidOut == PaidOf(acc + [op])
  {
    LastOf(acc, op);
    if Target(op).Some? {
      assert RecordOk(v, acc, Target(op).value);
      CreditTotals(h, v, acc, op, v');
    } else {
      OtherTotals(h, v, acc, op, v');
    }
  }

  lemma OtherTotals(h: Hash, v: State, acc: seq<Op>, op: Op, v': State)
    requires Step(h, v, op) == Some(v') && Target(op) == None
    ensures v'.feeAccumulator == v.feeAccumulator + Earned(acc, op) && v'.paidOut == v.paidOut + Pays(op)
  {
    NoCreditShape(h, v, op, v');
  }

  lemma CreditTotals(h: Hash, v: State, acc: seq<Op>, op: Op, v': State)
    requires Step(h, v, op) == Some(v') && Target(op).Some? && RecordOk(v, acc, Target(op).value)
    ensures v'.feeAccumulator == v.feeAccumulator + Earned(acc, op) && v'.paidOut == v.paidOut
  {
  }

  lemma StepDeposits(h: Hash, v: State, acc: seq<Op>, op: Op, v': State, o: int)
    requires Step(h, v, op) == Some(v') && (if o in v.deposits then v.deposits[o] else 0) == DepositsOf(acc, o) <= DEPOSIT_CAP
    ensures (if o in v'.deposits then v'.deposits[o] else 0) == DepositsOf(acc + [op], o) <= DEPOSIT_CAP
  {
    LastOf(acc, op);
    if Target(op).Some? {
      CreditDeposits(h, v, op, v');
    } else if !op.Deposit? {
      NoCreditShape(h, v, op, v');
    }
  }

  lemma CreditDeposits(h: Hash, v: State, op: Op, v': State)
    requires Step(h, v, op) == Some(v') && Target(op).Some?
    ensures v'.deposits == v.deposits
  {
  }

  lemma StepHistory(h: Hash, v: State, acc: seq<Op>, op: Op, v': State)
    requires Step(h, v, op) == Some(v') && HistoryOk(v, acc)
    ensures HistoryOk(v', acc + [op])
  {
    forall n ensures RecordOk(v', acc + [op], n) { StepRecord(h, v, acc, op, v', n); }
    StepTotals(h, v, acc, op, v');
    forall o ensures (if o in v'.deposits then v'.deposits[o] else 0) == DepositsOf(acc + [op], o) <= DEPOSIT_CAP {
      StepDeposits(h, v, acc, op, v', o);
    }
  }

  /** Over every run: bets, fees, payments and deposits are what the accepted calls say. */
  lemma {:induction false} StateIsHistory(h: Hash, ops: seq<Op>)
    ensures HistoryOk(Run(h, INITIAL, ops), Accepted(h, ops))
  {
    if ops == [] {
      forall n ensures RecordOk(INITIAL, [], n) {}
    } else {
      var n := |ops| - 1;
      var before, acc := Run(h, INITIAL, ops[..n]), Accepted(h, ops[..n]);
      StateIsHistory(h, ops[..n]);
      if Step(h, before, ops[n]).Some? {
        StepHistory(h, before, acc, ops[n], Step(h, before, ops[n]).value);
      } else {
        assert Accepted(h, ops) == acc;
      }
    }
  }

  // ---- bounds that need no assumption about the hash -----------------------------------------------

  ghost predicate BoundsAt(v: State, n: int) {
    n in v.bets ==> n in v.spent && v.bets[n].soldShares <= v.bets[n].expectedShares && (v.bets[n].status == Active ==> v.bets[n].soldShares == 0)
  }

  lemma StepBounds(h: Hash, v: State, op: Op, v': State, n: int)
    requires Step(h, v, op) == Some(v') && BoundsAt(v, n)
    ensures BoundsAt(v', n)
  {
    StepMarks(h, v, op, v');
    if Target(op) == Some(n) {
      CreditBounds(h, v, op, v', n);
    } else if !Places(op, n) && op != AdminCancel(n) {
      OtherRecord(h, v, op, v', n);
    }
  }

  lemma CreditBounds(h: Hash, v: State, op: Op, v': State, n: int)
    requires Step(h, v, op) == Some(v') && Target(op) == Some(n) && BoundsAt(v, n)
    ensures n in v.bets && n in v'.bets
    ensures v'.bets[n].soldShares <= v'.bets[n].expectedShares && v'.bets[n].status != Active
  {
  }

  lemma {:induction false} RunBounds(h: Hash, ops: seq<Op>, n: int)
    ensures BoundsAt(Run(h, INITIAL, ops), n)
  {
    if ops != [] {
      var last := |ops| - 1;
      var before := Run(h, INITIAL, ops[..last]);
      RunBounds(h, ops[..last], n);
      if Step(h, before, ops[last]).Some? { StepBounds(h, before, ops[last], Step(h, before, ops[last]).value, n); }
    }
  }

  // ---- what a credit demands and pays, in terms of the history -----------------------------------

  /** The part of the conditions that all credits share. */
  ghost predicate CreditOk(h: Hash, v: State, c: CreditWires) {
    Spendable(h, v, c.s) && SpecCredit(h, c) && |v.leaves| < TWO_32
  }

  /** A settlement pays the payout of the shares that were bought and not sold. */
  lemma SettleExactly(h: Hash, ops: seq<Op>, c: CreditWires, payout: nat, attested: bool, resolved: bool)
    ensures var v, acc, n := Run(h, INITIAL, ops), Accepted(h, ops), c.nullifierOfBet;
      Step(h, v, CreditSettlement(c, payout, attested, resolved)).Some? <==>
        SettleTerms(h, v, c, payout, attested, resolved, Placed(acc, n), StatusOf(acc, n), SharesOf(acc, n), SoldOf(acc, n))
  {
    var v, acc, n := Run(h, INITIAL, ops), Accepted(h, ops), c.nullifierOfBet;
    StateIsHistory(h, ops);
    assert RecordOk(v, acc, n);
    RunBounds(h, ops, n);
    SettleDemand(h, v, c, payout, attested, resolved, StatusOf(acc, n), SharesOf(acc, n), SoldOf(acc, n));
  }

  /** The terms of a settlement. */
  ghost predicate SettleTerms(h: Hash, v: State, c: CreditWires, payout: nat, attested: bool, resolved: bool,
                              placed: bool, status: Status, shares: int, sold: int)
  {
    && CreditOk(h, v, c) && resolved && placed && (status == Filled || (status == Active && attested))
    && c.credit == (shares - sold) * payout
  }

  lemma SettleDemand(h: Hash, v: State, c: CreditWires, payout: nat, attested: bool, resolved: bool, status: Status, shares: int, sold: int)
    requires c.nullifierOfBet in v.bets <==> c.nullifierOfBet in v.protocolFee
    requires c.nullifierOfBet in v.bets ==>
      v.bets[c.nullifierOfBet].status == status && v.bets[c.nullifierOfBet].expectedShares == shares && v.bets[c.nullifierOfBet].soldShares == sold <= shares
    ensures Step(h, v, CreditSettlement(c, payout, attested, resolved)).Some? <==>
      SettleTerms(h, v, c, payout, attested, resolved, c.nullifierOfBet in v.bets, status, shares, sold)
  {
  }

  /** A cancellation pays the stake and the provisional fee. */
  lemma CancelExactly(h: Hash, ops: seq<Op>, c: CreditWires, attested: bool)
    ensures var v, acc, n := Run(h, INITIAL, ops), Accepted(h, ops), c.nullifierOfBet;
      Step(h, v, BetCancellation(c, attested)).Some? <==>
        && CreditOk(h, v, c) && Placed(acc, n)
        && (StatusOf(acc, n) == Failed || (StatusOf(acc, n) == Active && attested))
        && c.credit == StakeOf(acc, n) + FeeOf(acc, n)
  {
    StateIsHistory(h, ops);
    assert RecordOk(Run(h, INITIAL, ops), Accepted(h, ops), c.nullifierOfBet);
  }

  /** A void market pays the stake, and keeps the fee. */
  lemma NACancelExactly(h: Hash, ops: seq<Op>, c: CreditWires, attested: bool)
    ensures var v, acc, n := Run(h, INITIAL, ops), Accepted(h, ops), c.nullifierOfBet;
      Step(h, v, NACancellation(c, attested)).Some? <==>
        && CreditOk(h, v, c) && Placed(acc, n)
        && (StatusOf(acc, n) == Filled || StatusOf(acc, n) == Failed || (StatusOf(acc, n) == Active && attested))
        && SoldOf(acc, n) == 0 && c.credit == StakeOf(acc, n)
  {
    StateIsHistory(h, ops);
    assert RecordOk(Run(h, INITIAL, ops), Accepted(h, ops), c.nullifierOfBet);
  }

  /** A close pays what the attested proceeds exceed those of the last close. */
  lemma CloseExactly(h: Hash, ops: seq<Op>, c: CreditWires, sold: nat, proceeds: nat, resolved: bool)
    ensures var v, acc, n := Run(h, INITIAL, ops), Accepted(h, ops), c.nullifierOfBet;
      Step(h, v, ClosePosition(c, sold, proceeds, resolved)).Some? <==>
        && CreditOk(h, v, c) && !resolved && Placed(acc, n)
        && (StatusOf(acc, n) == Active || StatusOf(acc, n) == Filled)
        && SoldOf(acc, n) < sold <= SharesOf(acc, n)
        && proceeds >= ProceedsOf(acc, n) && c.credit == proceeds - ProceedsOf(acc, n)
  {
    StateIsHistory(h, ops);
    assert RecordOk(Run(h, INITIAL, ops), Accepted(h, ops), c.nullifierOfBet);
  }

  /** A partial fill pays the unspent stake and its share of the fee. */
  lemma PartialExactly(h: Hash, ops: seq<Op>, c: CreditWires, filled: nat, spentAmount: nat)
    ensures var v, acc, n := Run(h, INITIAL, ops), Accepted(h, ops), c.nullifierOfBet;
      Step(h, v, PartialFill(c, filled, spentAmount)).Some? <==>
        && CreditOk(h, v, c) && Placed(acc, n) && StatusOf(acc, n) == Active
        && 0 < filled < SharesOf(acc, n) && 0 < spentAmount <= StakeOf(acc, n)
        && c.credit == StakeOf(acc, n) - spentAmount + FeeBack(FeeOf(acc, n), StakeOf(acc, n), spentAmount)
  {
    StateIsHistory(h, ops);
    assert RecordOk(Run(h, INITIAL, ops), Accepted(h, ops), c.nullifierOfBet);
    PartialDemand(h, Run(h, INITIAL, ops), c, filled, spentAmount);
  }

  lemma PartialDemand(h: Hash, v: State, c: CreditWires, filled: nat, spentAmount: nat)
    requires c.nullifierOfBet in v.bets <==> c.nullifierOfBet in v.protocolFee
    ensures var n := c.nullifierOfBet;
      Step(h, v, PartialFill(c, filled, spentAmount)).Some? <==>
        && CreditOk(h, v, c) && n in v.bets && v.bets[n].status == Active
        && 0 < filled < v.bets[n].expectedShares && 0 < spentAmount <= v.bets[n].betAmount
        && c.credit == v.bets[n].betAmount - spentAmount + FeeBack(v.protocolFee[n], v.bets[n].betAmount, spentAmount)
  {
  }

  // ---- a settlement after a partial fill ---------------------------------------------------------

  ghost predicate Bought(v: State, n: int, filled: int) {
    n in v.bets && v.bets[n].expectedShares == filled && v.bets[n].status != Active
  }

  lemma BoughtStays(h: Hash, v: State, op: Op, v': State, n: int, filled: int)
    requires Step(h, v, op) == Some(v') && Bought(v, n, filled) && n in v.spent
    ensures Bought(v', n, filled)
  {
    if Target(op) == Some(n) {
      CreditKeepsShares(h, v, op, v', n);
    } else if Places(op, n) || op == AdminCancel(n) {
      NoPlace(h, v, op, v', n);
    } else {
      OtherRecord(h, v, op, v', n);
    }
  }

  lemma NoPlace(h: Hash, v: State, op: Op, v': State, n: int)
    requires Step(h, v, op) == Some(v') && n in v.spent && (Places(op, n) || op == AdminCancel(n))
    ensures op == AdminCancel(n) && n in v.bets && v.bets[n].status == Active
  {
  }

  lemma CreditKeepsShares(h: Hash, v: State, op: Op, v': State, n: int)
    requires Step(h, v, op) == Some(v') && Target(op) == Some(n) && n in v.bets && v.bets[n].status != Active
    ensures n in v'.bets && v'.bets[n].expectedShares == v.bets[n].expectedShares && v'.bets[n].status != Active
  {
  }

  lemma {:induction false} BoughtUntil(h: Hash, ops: seq<Op>, i: nat, n: int, filled: int)
    requires i <= |ops| && Bought(Run(h, INITIAL, ops[..i]), n, filled)
    ensures Bought(Run(h, INITIAL, ops), n, filled)
  {
    if i == |ops| {
      assert ops[..i] == ops;
    } else {
      var last := |ops| - 1;
      assert ops[..last][..i] == ops[..i];
      BoughtUntil(h, ops[..last], i, n, filled);
      RunBounds(h, ops[..last], n);
      var before := Run(h, INITIAL, ops[..last]);
      if Step(h, before, ops[last]).Some? { BoughtStays(h, before, ops[last], Step(h, before, ops[last]).value, n, filled); }
    }
  }

  lemma FilledRecord(h: Hash, ops: seq<Op>, i: nat)
    requires i < |ops| && Succeeds(h, ops, i) && ops[i].PartialFill?
    ensures Bought(Run(h, INITIAL, ops[..i + 1]), ops[i].c.nullifierOfBet, ops[i].filledShares)
  {
    assert ops[..i + 1][..i] == ops[..i];
    FilledStep(h, Run(h, INITIAL, ops[..i]), ops[i], Step(h, Run(h, INITIAL, ops[..i]), ops[i]).value);
  }

  lemma FilledStep(h: Hash, v: State, op: Op, v': State)
    requires op.PartialFill? && Step(h, v, op) == Some(v')
    ensures Bought(v', op.c.nullifierOfBet, op.filledShares)
  {
  }

  /** Over every run, from a partial fill on the shares bought are those it filled. */
  lemma PartialShares(h: Hash, ops: seq<Op>, i: nat)
    requires i < |ops| && Succeeds(h, ops, i) && ops[i].PartialFill?
    ensures SharesOf(Accepted(h, ops), ops[i].c.nullifierOfBet) == ops[i].filledShares
  {
    FilledRecord(h, ops, i);
    BoughtUntil(h, ops, i + 1, ops[i].c.nullifierOfBet, ops[i].filledShares);
    StateIsHistory(h, ops);
    assert RecordOk(Run(h, INITIAL, ops), Accepted(h, ops), ops[i].c.nullifierOfBet);
  }

  /** So a settlement that follows pays for the filled shares less those sold meanwhile, never
      for those that were ordered. */
  lemma PartialThenSettle(h: Hash, ops: seq<Op>, i: nat, c: CreditWires, payout: nat, attested: bool, resolved: bool)
    requires i < |ops| && Succeeds(h, ops, i) && ops[i].PartialFill? && ops[i].c.nullifierOfBet == c.nullifierOfBet
    ensures Step(h, Run(h, INITIAL, ops), CreditSettlement(c, payout, attested, resolved)).Some? ==>
      SettleTerms(h, Run(h, INITIAL, ops), c, payout, attested, resolved, true, Filled, ops[i].filledShares, SoldOf(Accepted(h, ops), c.nullifierOfBet))
  {
    PartialShares(h, ops, i);
    SettleExactly(h, ops, c, payout, attested, resolved);
  }

  // ---- the leaf a call inserts -------------------------------------------------------------------

  /** The commitment the call publishes, if it inserts one. */
  function Published(op: Op): seq<int> {
    match op
    case Deposit(d, _) => [d.commitment]
    case AuthorizeBet(b, _) => [b.newCommitment]
    case Withdraw(w, _, _) => if w.newCommitment == 0 then [] else [w.newCommitment]
    case CreditSettlement(c, _, _, _) => [c.newCommitment]
    case BetCancellation(c, _) => [c.newCommitment]
    case NACancellation(c, _) => [c.newCommitment]
    case ClosePosition(c, _, _, _) => [c.newCommitment]
    case PartialFill(c, _, _) => [c.newCommitment]
    case Consolidate(k) => [k.newCommitment]
    case _ => []
  }

  /** The tree grows by exactly the published commitment, whose preimage the circuit's clauses
      bind. */
  lemma InsertsPublished(h: Hash, v: State, op: Op, v': State)
    requires Step(h, v, op) == Some(v')
    ensures v'.leaves == v.leaves + Published(op)
  {
    if Target(op).Some? {
      CreditInserts(h, v, op, v');
    } else {
      match op
      case AuthorizeBet(b, fees) => BetInserts(h, v, b, fees, v');
      case Withdraw(w, recipient, fees) => WithdrawInserts(h, v, w, recipient, fees, v');
      case Consolidate(k) => MergeInserts(h, v, k, v');
      case _ =>
    }
  }

  lemma CreditInserts(h: Hash, v: State, op: Op, v': State)
    requires Target(op).Some? && Step(h, v, op) == Some(v')
    ensures v'.leaves == v.leaves + Published(op)
  {
    match op
    case CreditSettlement(c, payout, attested, _) => SettleInserts(h, v, c, payout, attested, v');
    case ClosePosition(c, sold, proceeds, _) => CloseInserts(h, v, c, sold, proceeds, v');
    case PartialFill(c, filled, spentAmount) => PartialInserts(h, v, c, filled, spentAmount, v');
    case _ =>
  }

  lemma SettleInserts(h: Hash, v: State, c: CreditWires, payout: nat, attested: bool, v': State)
    requires DoSettle(h, v, c, payout, attested) == Some(v')
    ensures v'.leaves == v.leaves + [c.newCommitment]
  {
  }

  lemma CloseInserts(h: Hash, v: State, c: CreditWires, sold: nat, proceeds: nat, v': State)
    requires DoClose(h, v, c, sold, proceeds) == Some(v')
    ensures v'.leaves == v.leaves + [c.newCommitment]
  {
  }

  lemma PartialInserts(h: Hash, v: State, c: CreditWires, filled: nat, spentAmount: nat, v': State)
    requires DoPartial(h, v, c, filled, spentAmount) == Some(v')
    ensures v'.leaves == v.leaves + [c.newCommitment]
  {
  }

  lemma BetInserts(h: Hash, v: State, b: BetWires, fees: FeeConfig, v': State)
    requires DoBet(h, v, b, fees) == Some(v')
    ensures v'.leaves == v.leaves + [b.newCommitment]
  {
  }

  lemma WithdrawInserts(h: Hash, v: State, w: WithdrawWires, recipient: int, fees: FeeConfig, v': State)
    requires DoWithdraw(h, v, w, recipient, fees) == Some(v')
    ensures v'.leaves == v.leaves + (if w.newCommitment == 0 then [] else [w.newCommitment])
  {
  }

  lemma MergeInserts(h: Hash, v: State, k: ConsolidateWires, v': State)
    requires DoConsolidate(h, v, k) == Some(v')
    ensures v'.leaves == v.leaves + [k.newCommitment]
  {
  }

  // ---- the calls that credit no bet ------------------------------------------------------------------

  /** A deposit is accepted exactly within the owner's cap over all deposits so far. */
  lemma DepositExactly(h: Hash, ops: seq<Op>, d: DepositWires, sender: int)
    ensures var v, acc := Run(h, INITIAL, ops), Accepted(h, ops);
      Step(h, v, Deposit(d, sender)).Some? <==>
        SpecDeposit(h, d) && d.owner == sender && DepositsOf(acc, sender) + d.amount <= 50_000_000_000 && |v.leaves| < TWO_32
  {
    StateIsHistory(h, ops);
  }

  /** A bet pays its stake, a protocol fee in basis points and the relay fee out of its note,
      for the rounded-down number of shares at its price. */
  lemma BetExactly(h: Hash, v: State, b: BetWires, fees: FeeConfig)
    ensures Step(h, v, AuthorizeBet(b, fees)).Some? <==>
      && Spendable(h, v, b.s) && SpecBetAuth(h, b) && |v.leaves| < TWO_32 && b.betAmount >= fees.minBet
      && b.fee == (b.betAmount * fees.betFeeBps / 10_000) % U64 + fees.relayGasFee
    ensures Step(h, v, AuthorizeBet(b, fees)).Some? ==>
      && b.expectedShares * b.price <= b.betAmount * 100_000_000 < (b.expectedShares + 1) * b.price
      && b.newCommitment == h.h4(b.s.secret, b.s.balance - b.betAmount - b.fee, b.s.nonce + 1, b.s.owner)
  {
    assert b.expectedShares * b.price + b.price == (b.expectedShares + 1) * b.price;
  }

  /** A withdrawal pays its amount less the fee, and leaves no note exactly if it takes all. */
  lemma WithdrawExactly(h: Hash, v: State, w: WithdrawWires, recipient: int, fees: FeeConfig)
    requires Ideal(h)
    ensures Step(h, v, Withdraw(w, recipient, fees)).Some? <==>
      && Spendable(h, v, w.s) && SpecWithdrawal(h, w) && recipient == w.s.owner
      && w.amount >= fees.minWithdrawal && w.amount >= fees.withdrawalFee
      && (w.amount == w.s.balance || |v.leaves| < TWO_32)
    ensures SpecWithdrawal(h, w) ==> (Published(Withdraw(w, recipient, fees)) == [] <==> w.amount == w.s.balance)
  {
    if h.h2(recipient, 0) == h.h2(w.s.owner, 0) { SameHash2(h, recipient, 0, w.s.owner, 0); }
    assert h.h4(w.s.secret, w.s.balance - w.amount, w.s.nonce + 1, w.s.owner) != 0;
  }
}
