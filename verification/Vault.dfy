/** The vault as a transition system: notes are leaves of the tree, spending marks a
    nullifier, and every operation is guarded by its circuit's clauses and by the
    contract's own checks. The conservation law is proved over all runs. */
module Vault {
  import opened Arith
  import opened Merkle
  import opened NodeMap
  import opened ChainTree
  import opened Specs
  import opened Wrappers

  /** The preimage of a commitment. */
  datatype Note = Note(secret: int, balance: int, nonce: int, owner: int)

  datatype Status = Active | Filled | Failed | Credited | CancelledCredited | ClosedCredited

  datatype Bet = Bet(betAmount: nat, expectedShares: nat, status: Status, soldShares: nat, sellProceeds: nat)

  const DEPOSIT_CAP: int := 50_000_000_000

  /** `notes[i]` is the preimage of leaf `i`, `openedAt` the position of the note with which
      each nullifier was spent, and `bettors` the note behind each bet; they, like the three
      totals at the end, are bookkeeping that no chain observer can see. */
  datatype State = State(
    leaves: seq<int>, spent: set<int>, bets: map<int, Bet>, protocolFee: map<int, nat>,
    feeAccumulator: nat, deposits: map<int, nat>,
    notes: seq<Note>, openedAt: map<int, nat>, bettors: map<int, Note>, deposited: nat, paidOut: nat, income: nat)

  const INITIAL: State := State([], {}, map[], map[], 0, map[], [], map[], map[], 0, 0, 0)

  datatype FeeConfig = FeeConfig(betFeeBps: nat, relayGasFee: nat, minBet: nat, withdrawalFee: nat, minWithdrawal: nat)

  /** Calls, each with an accepted witness. `attested` says that the operator signature the
      call needs was supplied; attested amounts are arbitrary. */
  datatype Op =
    | Deposit(d: DepositWires, sender: int)
    | AuthorizeBet(b: BetWires, fees: FeeConfig)
    | Withdraw(w: WithdrawWires, recipient: int, fees: FeeConfig)
    | CreditSettlement(c: CreditWires, payoutPerShare: nat, attested: bool, resolved: bool)
    | BetCancellation(c: CreditWires, attested: bool)
    | NACancellation(c: CreditWires, attested: bool)
    | ClosePosition(c: CreditWires, soldShares: nat, proceeds: nat, resolved: bool)
    | PartialFill(c: CreditWires, filledShares: nat, spentAmount: nat)
    | Consolidate(k: ConsolidateWires)
    | AdminCancel(bet: int)
    | ClaimFees(amount: nat)

  ghost function Commit(h: Hash, n: Note): int { h.h4(n.secret, n.balance, n.nonce, n.owner) }
  ghost function Nullifier(h: Hash, n: Note): int { h.h2(n.secret, n.nonce) }

  ghost predicate KnownRoot(h: Hash, v: State, root: int) { root != 0 && InWindow(h.h2, v.leaves, ROOT_WINDOW, root) }

  /** `_requireUnspentKnownRoot` (VaultLogic.sol:92-95). */
  ghost predicate Spendable(h: Hash, v: State, s: SpendWires) { s.nullifier !in v.spent && KnownRoot(h, v, s.root) }

  /** `tree.insert`, which reverts when the tree is full. */
  ghost function InsertNote(h: Hash, v: State, n: Note): Option<State> {
    if |v.leaves| >= TWO_32 then None else Some(v.(leaves := v.leaves + [Commit(h, n)], notes := v.notes + [n]))
  }

  /** `markSpent`, which reverts on a spent nullifier; the callers have checked. */
  ghost function Open(v: State, s: SpendWires): State {
    v.(spent := v.spent + {s.nullifier}, openedAt := v.openedAt[s.nullifier := Position(s.bits)])
  }

  /** `_spendAndInsert` for a note that is replaced by one with another balance. */
  ghost function Replace(h: Hash, v: State, s: SpendWires, balance: int): Option<State> {
    InsertNote(h, Open(v, s), Note(s.secret, balance, s.nonce + 1, s.owner))
  }

  ghost function DoDeposit(h: Hash, v: State, d: DepositWires, sender: int): Option<State> {
    var before := if sender in v.deposits then v.deposits[sender] else 0;
    if !SpecDeposit(h, d) || d.owner != sender || before + d.amount > DEPOSIT_CAP then None
    else InsertNote(h, v.(deposits := v.deposits[sender := before + d.amount], deposited := v.deposited + d.amount),
                    Note(d.secret, d.amount, 0, d.owner))
  }

  /** `authorizeBet` (Vault.sol:493-555). */
  ghost function DoBet(h: Hash, v: State, b: BetWires, fees: FeeConfig): Option<State> {
    var protocolFee := (b.betAmount * fees.betFeeBps / 10_000) % U64;
    if !Spendable(h, v, b.s) || b.betAmount < fees.minBet || protocolFee + fees.relayGasFee >= U64
       || b.fee != protocolFee + fees.relayGasFee || !SpecBetAuth(h, b) then None
    else
      var bet := Bet(b.betAmount, b.expectedShares, Active, 0, 0);
      Replace(h, v.(bets := v.bets[b.s.nullifier := bet],
                    protocolFee := v.protocolFee[b.s.nullifier := protocolFee],
                    bettors := v.bettors[b.s.nullifier := Note(b.s.secret, b.s.balance, b.s.nonce, b.s.owner)],
                    feeAccumulator := v.feeAccumulator + fees.relayGasFee),
              b.s, b.s.balance - b.betAmount - b.fee)
  }

  /** `withdraw` (Vault.sol:712-743); a full withdrawal inserts no leaf. */
  ghost function DoWithdraw(h: Hash, v: State, w: WithdrawWires, recipient: int, fees: FeeConfig): Option<State> {
    if !Spendable(h, v, w.s) || w.amount < fees.minWithdrawal || w.amount < fees.withdrawalFee
       || !SpecWithdrawal(h, w) || h.h2(recipient, 0) != w.recipientHash then None
    else
      var paid := v.(feeAccumulator := v.feeAccumulator + fees.withdrawalFee,
                     paidOut := v.paidOut + (w.amount - fees.withdrawalFee));
      if w.newCommitment == 0 then Some(Open(paid, w.s))
      else Replace(h, paid, w.s, w.s.balance - w.amount)
  }

  /** The part every credit shares: the note is replaced by one with the credit added. */
  ghost function DoCredit(h: Hash, v: State, c: CreditWires, amount: int): Option<State> {
    if !Spendable(h, v, c.s) || c.nullifierOfBet !in v.bets || c.nullifierOfBet !in v.protocolFee
       || !SpecCredit(h, c) || c.credit != amount then None
    else Replace(h, v, c.s, c.s.balance + c.credit)
  }

  /** `_releaseProtocolFee` (Vault.sol:696-702). */
  function Release(v: State, bet: int): State
    requires bet in v.protocolFee
  {
    v.(feeAccumulator := v.feeAccumulator + v.protocolFee[bet], protocolFee := v.protocolFee[bet := 0])
  }

  /** `creditSettlement` (VaultLogic.sol:122-159, Vault.sol:678-691). */
  ghost function DoSettle(h: Hash, v: State, c: CreditWires, payout: nat, attested: bool): Option<State> {
    var n := c.nullifierOfBet;
    if n !in v.bets || n !in v.protocolFee then None
    else
      var bet := v.bets[n];
      if !(bet.status == Filled || (bet.status == Active && attested)) || bet.soldShares > bet.expectedShares then None
      else
        match DoCredit(h, v, c, (bet.expectedShares - bet.soldShares) * payout)
        case None => None
        case Some(v') => Some(Release(v'.(bets := v'.bets[n := bet.(status := Credited)], income := v'.income + c.credit), n))
  }

  /** `betCancellationCredit` (VaultLogic.sol:161-193): stake and protocol fee come back. */
  ghost function DoCancel(h: Hash, v: State, c: CreditWires, attested: bool): Option<State> {
    var n := c.nullifierOfBet;
    if n !in v.bets || n !in v.protocolFee then None
    else
      var bet := v.bets[n];
      if !(bet.status == Failed || (bet.status == Active && attested)) then None
      else
        match DoCredit(h, v, c, bet.betAmount + v.protocolFee[n])
        case None => None
        case Some(v') => Some(v'.(bets := v'.bets[n := bet.(status := CancelledCredited)], protocolFee := v'.protocolFee[n := 0]))
  }

  /** `naCancellationCredit` (VaultLogic.sol:195-239, Vault.sol:779-790): the stake comes back. */
  ghost function DoNACancel(h: Hash, v: State, c: CreditWires, attested: bool): Option<State> {
    var n := c.nullifierOfBet;
    if n !in v.bets || n !in v.protocolFee then None
    else
      var bet := v.bets[n];
      if !(bet.status == Filled || bet.status == Failed || (bet.status == Active && attested)) || bet.soldShares > 0 then None
      else
        match DoCredit(h, v, c, bet.betAmount)
        case None => None
        case Some(v') => Some(Release(v'.(bets := v'.bets[n := bet.(status := CancelledCredited)]), n))
  }

  /** `closePosition` (VaultLogic.sol:243-282, Vault.sol:808-819): cumulative shares and proceeds. */
  ghost function DoClose(h: Hash, v: State, c: CreditWires, sold: nat, proceeds: nat): Option<State> {
    var n := c.nullifierOfBet;
    if n !in v.bets || n !in v.protocolFee then None
    else
      var bet := v.bets[n];
      if !(bet.status == Active || bet.status == Filled) || sold <= bet.soldShares || sold > bet.expectedShares
         || proceeds < bet.sellProceeds then None
      else
        match DoCredit(h, v, c, proceeds - bet.sellProceeds)
        case None => None
        case Some(v') =>
          var full := sold == bet.expectedShares;
          var closed := v'.(bets := v'.bets[n := bet.(soldShares := sold, sellProceeds := proceeds, status := if full then ClosedCredited else Filled)],
                            income := v'.income + c.credit);
          Some(if full then Release(closed, n) else closed)
  }

  /** `partialFillCredit` (VaultLogic.sol:286-338, Vault.sol:838-847): the unspent stake and
      its share of the fee come back; the record is normalised to what was bought. */
  ghost function DoPartial(h: Hash, v: State, c: CreditWires, filled: nat, spentAmount: nat): Option<State> {
    var n := c.nullifierOfBet;
    if n !in v.bets || n !in v.protocolFee then None
    else
      var bet := v.bets[n];
      if bet.status != Active || filled == 0 || filled >= bet.expectedShares || spentAmount == 0 || spentAmount > bet.betAmount then None
      else
        var refundedFee := RefundedFee(v.protocolFee[n], bet.betAmount, spentAmount);
        match DoCredit(h, v, c, (bet.betAmount - spentAmount) + refundedFee)
        case None => None
        case Some(v') =>
          Some(v'.(bets := v'.bets[n := bet.(expectedShares := filled, betAmount := spentAmount, status := Filled)],
                   protocolFee := v'.protocolFee[n := 0],
                   feeAccumulator := v'.feeAccumulator + (v.protocolFee[n] - refundedFee)))
  }

  /** The protocol fee on the part of the stake that was not spent, rounded down. */
  function RefundedFee(fee: nat, stake: nat, spentAmount: nat): (r: nat)
    requires 0 < spentAmount <= stake
    ensures r <= fee
  {
    FeeShare(fee, stake, spentAmount);
    (fee * (stake - spentAmount)) / stake
  }

  lemma FeeShare(fee: nat, stake: nat, spentAmount: nat)
    requires 0 < spentAmount <= stake
    ensures 0 <= (fee * (stake - spentAmount)) / stake <= fee
  {
    assert 0 <= fee * (stake - spentAmount) <= fee * stake;
    DivBound(fee * (stake - spentAmount), stake, fee);
  }

  /** `consolidate` (VaultLogic.sol:342-364): nonzero nullifiers are marked one by one, and
      marking a spent one reverts. */
  ghost function MarkAll(spent: set<int>, slots: seq<Slot>): Option<set<int>> {
    if slots == [] then Some(spent)
    else
      var n := |slots| - 1;
      match MarkAll(spent, slots[..n])
      case None => None
      case Some(marked) =>
        if slots[n].nullifier == 0 then Some(marked)
        else if slots[n].nullifier in marked then None
        else Some(marked + {slots[n].nullifier})
  }

  ghost function OpenAll(openedAt: map<int, nat>, slots: seq<Slot>): map<int, nat> {
    if slots == [] then openedAt
    else
      var n := |slots| - 1;
      var before := OpenAll(openedAt, slots[..n]);
      if slots[n].nullifier == 0 then before else before[slots[n].nullifier := Position(slots[n].bits)]
  }

  ghost function DoConsolidate(h: Hash, v: State, k: ConsolidateWires): Option<State> {
    if !KnownRoot(h, v, k.root) || !SpecConsolidate(h, k) || k.slots[0].nullifier == 0 then None
    else
      match MarkAll(v.spent, k.slots)
      case None => None
      case Some(marked) =>
        InsertNote(h, v.(spent := marked, openedAt := OpenAll(v.openedAt, k.slots)), Note(k.slots[0].secret, Total(k.slots), k.slots[0].nonce + 1, k.owner))
  }

  /** `adminCancelBet` (Vault.sol:588-596). */
  function DoAdminCancel(v: State, bet: int): Option<State> {
    if bet !in v.bets || v.bets[bet].status != Active then None
    else Some(v.(bets := v.bets[bet := v.bets[bet].(status := Failed)]))
  }

  /** `withdrawFees` (Vault.sol:390-396). */
  function DoClaimFees(v: State, amount: nat): Option<State> {
    if amount > v.feeAccumulator then None
    else Some(v.(feeAccumulator := v.feeAccumulator - amount, paidOut := v.paidOut + amount))
  }

  /** One call; `None` when it reverts. */
  ghost function Step(h: Hash, v: State, op: Op): Option<State> {
    match op
    case Deposit(d, sender) => DoDeposit(h, v, d, sender)
    case AuthorizeBet(b, fees) => DoBet(h, v, b, fees)
    case Withdraw(w, recipient, fees) => DoWithdraw(h, v, w, recipient, fees)
    case CreditSettlement(c, payout, attested, resolved) => if resolved then DoSettle(h, v, c, payout, attested) else None
    case BetCancellation(c, attested) => DoCancel(h, v, c, attested)
    case NACancellation(c, attested) => DoNACancel(h, v, c, attested)
    case ClosePosition(c, sold, proceeds, resolved) => if resolved then None else DoClose(h, v, c, sold, proceeds)
    case PartialFill(c, filled, spentAmount) => DoPartial(h, v, c, filled, spentAmount)
    case Consolidate(k) => DoConsolidate(h, v, k)
    case AdminCancel(bet) => DoAdminCancel(v, bet)
    case ClaimFees(amount) => DoClaimFees(v, amount)
  }

  /** A run; a reverting call changes nothing. */
  ghost function Run(h: Hash, v: State, ops: seq<Op>): State {
    if ops == [] then v
    else
      var before := Run(h, v, ops[..|ops| - 1]);
      match Step(h, before, ops[|ops| - 1])
      case None => before
      case Some(after) => after
  }
}
