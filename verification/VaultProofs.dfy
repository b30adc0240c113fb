/** Conservation and single spending over every run of the vault. */
module VaultProofs {
  import opened Arith
  import opened Merkle
  import opened NodeMap
  import opened ChainTree
  import opened Specs
  import opened Vault
  import opened Wrappers

  // ---- sums ------------------------------------------------------------------------

  ghost function MapSum(m: map<int, nat>): nat {
    if m.Keys == {} then 0
    else
      var k := Pick(m.Keys);
      m[k] + MapSum(m - {k})
  }

  ghost function Pick(s: set<int>): (k: int)
    requires s != {}
    ensures k in s
  {
    Nonempty(s);
    var k :| k in s;
    k
  }

  lemma Nonempty(s: set<int>)
    requires s != {}
    ensures exists k :: k in s
  {
    assert (forall k :: k !in s) ==> s == {};
  }

  lemma {:induction false} MapSumRemove(m: map<int, nat>, k: int)
    requires k in m
    ensures MapSum(m) == m[k] + MapSum(m - {k})
    decreases |m|
  {
    var j := Pick(m.Keys);
    if j != k {
      MapSumRemove(m - {j}, k);
      MapSumRemove(m - {k}, j);
      assert m - {j} - {k} == m - {k} - {j};
    }
  }

  lemma MapSumPut(m: map<int, nat>, k: int, x: nat)
    ensures MapSum(m[k := x]) + (if k in m then m[k] else 0) == MapSum(m) + x
  {
    MapSumRemove(m[k := x], k);
    assert m[k := x] - {k} == m - {k};
    if k in m { MapSumRemove(m, k); } else { assert m - {k} == m; }
  }

  /** The stake a bet still accounts for. */
  function Stake(b: Bet): nat {
    if b.status == Active || b.status == Filled || b.status == Failed then b.betAmount else 0
  }

  function StakeMap(bets: map<int, Bet>): map<int, nat> { map n | n in bets :: Stake(bets[n]) }

  lemma StakePut(bets: map<int, Bet>, n: int, b: Bet)
    ensures MapSum(StakeMap(bets[n := b])) + (if n in bets then Stake(bets[n]) else 0) == MapSum(StakeMap(bets)) + Stake(b)
  {
    assert StakeMap(bets[n := b]) == StakeMap(bets)[n := Stake(b)];
    MapSumPut(StakeMap(bets), n, Stake(b));
  }

  /** The balances of the notes whose nullifier is unspent. */
  ghost function Live(h: Hash, notes: seq<Note>, spent: set<int>): int {
    if notes == [] then 0
    else
      var n := |notes| - 1;
      Live(h, notes[..n], spent) + (if Nullifier(h, notes[n]) in spent then 0 else notes[n].balance)
  }

  ghost predicate Nonnegative(notes: seq<Note>) { forall i :: 0 <= i < |notes| ==> notes[i].balance >= 0 }

  lemma {:induction false} LiveShrinks(h: Hash, notes: seq<Note>, spent: set<int>, x: int)
    requires Nonnegative(notes)
    ensures Live(h, notes, spent + {x}) <= Live(h, notes, spent)
  {
    if notes != [] { LiveShrinks(h, notes[..|notes| - 1], spent, x); }
  }

  /** Marking the nullifier of a live note removes at least that note's balance. */
  lemma {:induction false} LiveSpend(h: Hash, notes: seq<Note>, spent: set<int>, i: nat)
    requires Nonnegative(notes) && i < |notes| && Nullifier(h, notes[i]) !in spent
    ensures Live(h, notes, spent + {Nullifier(h, notes[i])}) + notes[i].balance <= Live(h, notes, spent)
  {
    var n, x := |notes| - 1, Nullifier(h, notes[i]);
    if i == n {
      LiveShrinks(h, notes[..n], spent, x);
    } else {
      assert notes[..n][i] == notes[i];
      LiveSpend(h, notes[..n], spent, i);
    }
  }

  lemma LiveAppend(h: Hash, notes: seq<Note>, spent: set<int>, n: Note)
    requires n.balance >= 0
    ensures Live(h, notes + [n], spent) <= Live(h, notes, spent) + n.balance
  {
    assert (notes + [n])[..|notes|] == notes;
  }

  // ---- the invariant ------------------------------------------------------------------

  /** Every leaf commits to its recorded note, in range, and its owner has deposited. */
  ghost predicate NotesOk(h: Hash, v: State) {
    && |v.leaves| == |v.notes| <= TWO_32
    && forall i :: 0 <= i < |v.notes| ==> NoteOk(h, v, i)
  }

  ghost predicate NoteOk(h: Hash, v: State, i: nat)
    requires i < |v.notes| == |v.leaves|
  {
    v.leaves[i] == Commit(h, v.notes[i]) && IsU64(v.notes[i].balance) && IsU64(v.notes[i].nonce) && v.notes[i].owner in v.deposits
  }

  /** Bets are keyed by spent nullifiers of the notes that paid for them. */
  ghost predicate BetsOk(h: Hash, v: State) {
    && v.bets.Keys == v.protocolFee.Keys == v.bettors.Keys && v.bets.Keys <= v.spent
    && forall n :: n in v.bets ==> BetOk(h, v, n)
  }

  ghost predicate BetOk(h: Hash, v: State, n: int)
    requires n in v.bets && n in v.bettors
  {
    && n == Nullifier(h, v.bettors[n])
    && v.bets[n].soldShares <= v.bets[n].expectedShares
    && (v.bets[n].status == Active ==> v.bets[n].soldShares == 0 && v.bets[n].sellProceeds == 0)
  }

  /** What the vault owes or has kept: live notes, stakes, fees, and what it has paid out. */
  ghost function Claims(h: Hash, v: State): int {
    Live(h, v.notes, v.spent) + MapSum(StakeMap(v.bets)) + MapSum(v.protocolFee) + v.feeAccumulator + v.paidOut
  }

  ghost predicate Inv(h: Hash, v: State) {
    NotesOk(h, v) && BetsOk(h, v) && Claims(h, v) <= v.deposited + v.income
  }

  lemma InitialInv(h: Hash)
    ensures Inv(h, INITIAL)
  {
    assert StakeMap(INITIAL.bets) == map[];
    assert MapSum(map[]) == 0;
  }

  // ---- spending ---------------------------------------------------------------------------

  /** Path binding: the note an accepted witness opens is a recorded note. */
  lemma SpentNote(h: Hash, v: State, root: int, leaf: Note, sib: seq<int>, bits: seq<int>) returns (i: nat)
    requires Ideal(h) && NotesOk(h, v) && KnownRoot(h, v, root)
    requires |sib| == |bits| == TREE_DEPTH && root == Fold(h.h2, Commit(h, leaf), sib, bits)
    ensures i == Position(bits) && i < |v.notes| && v.notes[i] == leaf
  {
    var s: nat :| |v.leaves| + 1 <= s + ROOT_WINDOW && s <= |v.leaves| && root == RootAt(h.h2, v.leaves, s);
    RootBinds(h.h2, v.leaves[..s], Commit(h, leaf), sib, bits);
    i := Position(bits);
    assert h.h4(leaf.secret, leaf.balance, leaf.nonce, leaf.owner) != 0;
    assert i < s && v.leaves[..s][i] == v.leaves[i];
    assert NoteOk(h, v, i);
    SamePreimage(h, leaf, v.notes[i]);
  }

  lemma RootNonzero(h: Hash, leaves: seq<int>)
    requires Ideal(h)
    ensures Root(h.h2, leaves) != 0
  {
  }

  lemma CurrentRootKnown(h: Hash, v: State)
    requires Ideal(h)
    ensures KnownRoot(h, v, Root(h.h2, v.leaves))
  {
    assert v.leaves[..|v.leaves|] == v.leaves;
    RootNonzero(h, v.leaves);
    assert RootAt(h.h2, v.leaves, |v.leaves|) == Root(h.h2, v.leaves);
  }

  lemma SamePreimage(h: Hash, a: Note, b: Note)
    requires Ideal(h) && Commit(h, a) == Commit(h, b)
    ensures a == b
  {
  }

  function NoteOf(s: SpendWires): Note { Note(s.secret, s.balance, s.nonce, s.owner) }

  /** Replacing a spendable note changes the live total by at most the balance difference. */
  lemma ReplaceStep(h: Hash, v: State, s: SpendWires, balance: int, v': State)
    requires Ideal(h) && NotesOk(h, v) && Spendable(h, v, s) && SpecSpend(h, s)
    requires IsU64(s.nonce) && IsU64(balance) && Replace(h, v, s, balance) == Some(v')
    ensures NotesOk(h, v')
    ensures NoteOf(s) in v.notes
    ensures Live(h, v'.notes, v'.spent) <= Live(h, v.notes, v.spent) - s.balance + balance
    ensures v' == v.(leaves := v'.leaves, notes := v'.notes, spent := v.spent + {s.nullifier}, openedAt := v.openedAt[s.nullifier := Position(s.bits)])
  {
    var i := SpentNote(h, v, s.root, NoteOf(s), s.sib, s.bits);
    assert NoteOk(h, v, i);
    Balances(h, v);
    LiveSpend(h, v.notes, v.spent, i);
    var n := Note(s.secret, balance, s.nonce + 1, s.owner);
    LiveAppend(h, v.notes, v.spent + {s.nullifier}, n);
    forall k | 0 <= k < |v'.notes| ensures NoteOk(h, v', k) {
      if k < |v.notes| { assert NoteOk(h, v, k); }
    }
  }

  lemma Balances(h: Hash, v: State)
    requires NotesOk(h, v)
    ensures Nonnegative(v.notes)
  {
    forall i | 0 <= i < |v.notes| ensures v.notes[i].balance >= 0 { assert NoteOk(h, v, i); }
  }

  // ---- each call preserves the invariant ------------------------------------------------------

  lemma DepositInv(h: Hash, v: State, d: DepositWires, sender: int, v': State)
    requires Inv(h, v) && DoDeposit(h, v, d, sender) == Some(v')
    ensures Inv(h, v')
  {
    LiveAppend(h, v.notes, v.spent, Note(d.secret, d.amount, 0, d.owner));
    forall k | 0 <= k < |v'.notes| ensures NoteOk(h, v', k) {
      if k < |v.notes| { assert NoteOk(h, v, k); }
    }
    forall n | n in v'.bets ensures BetOk(h, v', n) { assert BetOk(h, v, n); }
  }

  lemma BetInv(h: Hash, v: State, b: BetWires, fees: FeeConfig, v': State)
    requires Ideal(h) && Inv(h, v) && DoBet(h, v, b, fees) == Some(v')
    ensures Inv(h, v')
  {
    var n := b.s.nullifier;
    var bet := Bet(b.betAmount, b.expectedShares, Active, 0, 0);
    var protocolFee := (b.betAmount * fees.betFeeBps / 10_000) % U64;
    var noted := v.(bets := v.bets[n := bet], protocolFee := v.protocolFee[n := protocolFee],
                    bettors := v.bettors[n := NoteOf(b.s)], feeAccumulator := v.feeAccumulator + fees.relayGasFee);
    assert NotesOk(h, noted) by {
      forall i | 0 <= i < |noted.notes| ensures NoteOk(h, noted, i) { assert NoteOk(h, v, i); }
    }
    ReplaceStep(h, noted, b.s, b.s.balance - b.betAmount - b.fee, v');
    BetRecorded(h, v, v', n, bet, protocolFee, NoteOf(b.s));
  }

  /** A fresh bet record adds its stake and its provisional fee. */
  lemma BetRecorded(h: Hash, v: State, v': State, n: int, bet: Bet, fee: nat, payer: Note)
    requires BetsOk(h, v) && n !in v.bets && n == Nullifier(h, payer)
    requires bet.status == Active && bet.soldShares == bet.sellProceeds == 0
    requires v'.bets == v.bets[n := bet] && v'.protocolFee == v.protocolFee[n := fee] && v'.bettors == v.bettors[n := payer]
    requires v.spent <= v'.spent && n in v'.spent
    ensures BetsOk(h, v')
    ensures MapSum(StakeMap(v'.bets)) == MapSum(StakeMap(v.bets)) + bet.betAmount
    ensures MapSum(v'.protocolFee) == MapSum(v.protocolFee) + fee
  {
    StakePut(v.bets, n, bet);
    MapSumPut(v.protocolFee, n, fee);
    forall m | m in v'.bets ensures BetOk(h, v', m) {
      if m != n { assert BetOk(h, v, m); }
    }
  }

  lemma WithdrawInv(h: Hash, v: State, w: WithdrawWires, recipient: int, fees: FeeConfig, v': State)
    requires Ideal(h) && Inv(h, v) && DoWithdraw(h, v, w, recipient, fees) == Some(v')
    ensures Inv(h, v')
    ensures recipient == w.s.owner && recipient in v.deposits
  {
    var i := SpentNote(h, v, w.s.root, NoteOf(w.s), w.s.sib, w.s.bits);
    assert NoteOk(h, v, i);
    SameHash2(h, recipient, 0, w.s.owner, 0);
    var paid := v.(feeAccumulator := v.feeAccumulator + fees.withdrawalFee, paidOut := v.paidOut + (w.amount - fees.withdrawalFee));
    forall k | 0 <= k < |paid.notes| ensures NoteOk(h, paid, k) { assert NoteOk(h, v, k); }
    if w.newCommitment == 0 {
      assert w.amount == w.s.balance by {
        assert h.h4(w.s.secret, w.s.balance - w.amount, w.s.nonce + 1, w.s.owner) != 0;
      }
      Balances(h, v);
      LiveSpend(h, v.notes, v.spent, i);
      forall k | 0 <= k < |v'.notes| ensures NoteOk(h, v', k) { assert NoteOk(h, v, k); }
    } else {
      ReplaceStep(h, paid, w.s, w.s.balance - w.amount, v');
    }
    forall n | n in v'.bets ensures BetOk(h, v', n) { assert BetOk(h, v, n); }
  }

  lemma SameHash2(h: Hash, a: int, b: int, c: int, d: int)
    requires Ideal(h) && h.h2(a, b) == h.h2(c, d)
    ensures a == c && b == d
  {
  }

  /** A credited note grows by the credit, and the bet belongs to the spender's secret. */
  lemma CreditStep(h: Hash, v: State, c: CreditWires, amount: int, v': State)
    requires Ideal(h) && NotesOk(h, v) && BetsOk(h, v) && DoCredit(h, v, c, amount) == Some(v')
    ensures NotesOk(h, v') && BetsOk(h, v') && c.nullifierOfBet in v.bets && c.credit == amount >= 0
    ensures v' == v.(leaves := v'.leaves, notes := v'.notes, spent := v.spent + {c.s.nullifier}, openedAt := v.openedAt[c.s.nullifier := Position(c.s.bits)])
    ensures Live(h, v'.notes, v'.spent) <= Live(h, v.notes, v.spent) + amount
    ensures v.bettors[c.nullifierOfBet].secret == c.s.secret && v.bettors[c.nullifierOfBet].nonce < c.s.nonce
  {
    ReplaceStep(h, v, c.s, c.s.balance + c.credit, v');
    var n := c.nullifierOfBet;
    assert BetOk(h, v, n);
    SameHash2(h, c.s.secret, c.betNonce, v.bettors[n].secret, v.bettors[n].nonce);
    forall m | m in v'.bets ensures BetOk(h, v', m) { assert BetOk(h, v, m); }
  }

  /** Changing one bet record and the fee counters after a credit. */
  lemma RecordStep(h: Hash, v: State, v': State, n: int, b: Bet, fee: nat)
    requires NotesOk(h, v) && BetsOk(h, v) && n in v.bets && BetOk(h, v.(bets := v.bets[n := b]), n)
    requires v'.notes == v.notes && v'.leaves == v.leaves && v'.spent == v.spent && v'.deposits == v.deposits && v'.bettors == v.bettors
    requires v'.bets == v.bets[n := b] && v'.protocolFee == v.protocolFee[n := fee]
    ensures NotesOk(h, v') && BetsOk(h, v')
    ensures Claims(h, v') == Claims(h, v) + Stake(b) - Stake(v.bets[n]) + fee - v.protocolFee[n]
                             + (v'.feeAccumulator - v.feeAccumulator) + (v'.paidOut - v.paidOut)
  {
    StakePut(v.bets, n, b);
    MapSumPut(v.protocolFee, n, fee);
    forall i | 0 <= i < |v'.notes| ensures NoteOk(h, v', i) { assert NoteOk(h, v, i); }
    forall m | m in v'.bets ensures BetOk(h, v', m) {
      if m != n { assert BetOk(h, v, m); } else { assert BetOk(h, v.(bets := v.bets[n := b]), n); }
    }
  }

  /** A credit with its change of the record keeps the invariant, if the record's stake and fee
      and the income pay for it. */
  lemma CreditInv(h: Hash, v: State, c: CreditWires, amount: int, credited: State, v': State, b: Bet, fee: nat)
    requires Ideal(h) && Inv(h, v) && DoCredit(h, v, c, amount) == Some(credited)
    requires c.nullifierOfBet in v.bets && c.nullifierOfBet in v.protocolFee
    requires var n := c.nullifierOfBet;
      && v' == credited.(bets := v.bets[n := b], protocolFee := v.protocolFee[n := fee], feeAccumulator := v'.feeAccumulator, income := v'.income)
      && b.soldShares <= b.expectedShares && b.status != Active
      && amount + Stake(b) + fee + v'.feeAccumulator + v.income <= Stake(v.bets[n]) + v.protocolFee[n] + v.feeAccumulator + v'.income
    ensures Inv(h, v')
  {
    CreditStep(h, v, c, amount, credited);
    assert BetOk(h, credited, c.nullifierOfBet);
    RecordStep(h, credited, v', c.nullifierOfBet, b, fee);
  }

  lemma SettleInv(h: Hash, v: State, c: CreditWires, payout: nat, attested: bool, v': State)
    requires Ideal(h) && Inv(h, v) && DoSettle(h, v, c, payout, attested) == Some(v')
    ensures Inv(h, v')
  {
    var n, bet := c.nullifierOfBet, v.bets[c.nullifierOfBet];
    var amount := (bet.expectedShares - bet.soldShares) * payout;
    SettleShape(h, v, c, payout, attested, v', amount);
    CreditInv(h, v, c, amount, DoCredit(h, v, c, amount).value, v', bet.(status := Credited), 0);
  }

  lemma SettleShape(h: Hash, v: State, c: CreditWires, payout: nat, attested: bool, v': State, amount: int)
    requires DoSettle(h, v, c, payout, attested) == Some(v')
    requires amount == (v.bets[c.nullifierOfBet].expectedShares - v.bets[c.nullifierOfBet].soldShares) * payout
    ensures var n := c.nullifierOfBet;
      && DoCredit(h, v, c, amount).Some? && v.bets[n].soldShares <= v.bets[n].expectedShares
      && v' == DoCredit(h, v, c, amount).value.(bets := v.bets[n := v.bets[n].(status := Credited)], protocolFee := v.protocolFee[n := 0],
                 feeAccumulator := v.feeAccumulator + v.protocolFee[n], income := v.income + amount)
  {
  }

  lemma CancelInv(h: Hash, v: State, c: CreditWires, attested: bool, v': State)
    requires Ideal(h) && Inv(h, v) && DoCancel(h, v, c, attested) == Some(v')
    ensures Inv(h, v')
  {
    var n, bet := c.nullifierOfBet, v.bets[c.nullifierOfBet];
    assert BetOk(h, v, n);
    var amount := bet.betAmount + v.protocolFee[n];
    CreditInv(h, v, c, amount, DoCredit(h, v, c, amount).value, v', bet.(status := CancelledCredited), 0);
  }

  lemma NACancelInv(h: Hash, v: State, c: CreditWires, attested: bool, v': State)
    requires Ideal(h) && Inv(h, v) && DoNACancel(h, v, c, attested) == Some(v')
    ensures Inv(h, v')
  {
    var bet := v.bets[c.nullifierOfBet];
    assert BetOk(h, v, c.nullifierOfBet);
    CreditInv(h, v, c, bet.betAmount, DoCredit(h, v, c, bet.betAmount).value, v', bet.(status := CancelledCredited), 0);
  }

  lemma CloseInv(h: Hash, v: State, c: CreditWires, sold: nat, proceeds: nat, v': State)
    requires Ideal(h) && Inv(h, v) && DoClose(h, v, c, sold, proceeds) == Some(v')
    ensures Inv(h, v')
  {
    var n, bet := c.nullifierOfBet, v.bets[c.nullifierOfBet];
    var full := sold == bet.expectedShares;
    var fee := if full then 0 else v.protocolFee[n];
    assert v'.protocolFee == v.protocolFee[n := fee];
    CreditInv(h, v, c, proceeds - bet.sellProceeds, DoCredit(h, v, c, proceeds - bet.sellProceeds).value, v',
              bet.(soldShares := sold, sellProceeds := proceeds, status := if full then ClosedCredited else Filled), fee);
  }

  lemma PartialInv(h: Hash, v: State, c: CreditWires, filled: nat, spentAmount: nat, v': State)
    requires Ideal(h) && Inv(h, v) && DoPartial(h, v, c, filled, spentAmount) == Some(v')
    ensures Inv(h, v')
  {
    var n, bet := c.nullifierOfBet, v.bets[c.nullifierOfBet];
    assert BetOk(h, v, n);
    var refund := (bet.betAmount - spentAmount) + RefundedFee(v.protocolFee[n], bet.betAmount, spentAmount);
    CreditInv(h, v, c, refund, DoCredit(h, v, c, refund).value, v', bet.(expectedShares := filled, betAmount := spentAmount, status := Filled), 0);
  }

  // ---- consolidation ------------------------------------------------------------------

  function NoteOfSlot(x: Slot, owner: int): Note { Note(x.secret, x.balance, x.nonce, owner) }

  ghost predicate SlotsOk(h: Hash, v: State, owner: int, root: int, slots: seq<Slot>) {
    forall j :: 0 <= j < |slots| ==> SlotOk(h, owner, root, slots[j])
  }

  /** Marking nullifiers one at a time never counts a note twice: whatever the slots, the
      live total drops by at least the sum of the active balances. */
  lemma {:induction false} MarkAllSpends(h: Hash, v: State, owner: int, root: int, slots: seq<Slot>, marked: set<int>)
    requires Ideal(h) && NotesOk(h, v) && KnownRoot(h, v, root) && SlotsOk(h, v, owner, root, slots)
    requires MarkAll(v.spent, slots) == Some(marked)
    ensures v.spent <= marked && Total(slots) >= 0
    ensures Live(h, v.notes, marked) + Total(slots) <= Live(h, v.notes, v.spent)
    ensures forall j :: 0 <= j < |slots| && slots[j].active == 1 ==> NoteOfSlot(slots[j], owner) in v.notes
  {
    if slots == [] { return; }
    var n := |slots| - 1;
    var x, before := slots[n], MarkAll(v.spent, slots[..n]).value;
    MarkAllSpends(h, v, owner, root, slots[..n], before);
    assert SlotOk(h, owner, root, x);
    if x.active == 1 {
      var i := SpentNote(h, v, root, NoteOfSlot(x, owner), x.sib, x.bits);
      assert x.nullifier != 0 by { NonzeroHash2(h, x.secret, x.nonce); }
      Balances(h, v);
      LiveSpend(h, v.notes, before, i);
    }
    forall j | 0 <= j < |slots| && slots[j].active == 1 ensures NoteOfSlot(slots[j], owner) in v.notes {
      if j < n { assert slots[..n][j] == slots[j]; }
    }
  }

  lemma NonzeroHash2(h: Hash, a: int, b: int)
    requires Ideal(h)
    ensures h.h2(a, b) != 0
  {
  }

  lemma ConsolidateInv(h: Hash, v: State, k: ConsolidateWires, v': State)
    requires Ideal(h) && Inv(h, v) && DoConsolidate(h, v, k) == Some(v')
    ensures Inv(h, v')
  {
    var marked := MarkAll(v.spent, k.slots).value;
    MarkAllSpends(h, v, k.owner, k.root, k.slots, marked);
    var first := NoteOfSlot(k.slots[0], k.owner);
    assert SlotOk(h, k.owner, k.root, k.slots[0]);
    var i :| 0 <= i < |v.notes| && v.notes[i] == first;
    assert NoteOk(h, v, i);
    var n := Note(k.slots[0].secret, Total(k.slots), k.slots[0].nonce + 1, k.owner);
    LiveAppend(h, v.notes, marked, n);
    forall j | 0 <= j < |v'.notes| ensures NoteOk(h, v', j) {
      if j < |v.notes| { assert NoteOk(h, v, j); }
    }
    forall m | m in v'.bets ensures BetOk(h, v', m) { assert BetOk(h, v, m); }
  }

  lemma AdminCancelInv(h: Hash, v: State, n: int, v': State)
    requires Inv(h, v) && DoAdminCancel(v, n) == Some(v')
    ensures Inv(h, v')
  {
    assert BetOk(h, v, n);
    assert v'.protocolFee == v.protocolFee[n := v.protocolFee[n]];
    RecordStep(h, v, v', n, v.bets[n].(status := Failed), v.protocolFee[n]);
  }

  lemma ClaimFeesInv(h: Hash, v: State, amount: nat, v': State)
    requires Inv(h, v) && DoClaimFees(v, amount) == Some(v')
    ensures Inv(h, v')
  {
    forall i | 0 <= i < |v'.notes| ensures NoteOk(h, v', i) { assert NoteOk(h, v, i); }
    forall m | m in v'.bets ensures BetOk(h, v', m) { assert BetOk(h, v, m); }
  }

  // ---- every run -------------------------------------------------------------------------

  lemma StepInv(h: Hash, v: State, op: Op, v': State)
    requires Ideal(h) && Inv(h, v) && Step(h, v, op) == Some(v')
    ensures Inv(h, v')
  {
    match op
    case Deposit(d, sender) => DepositInv(h, v, d, sender, v');
    case AuthorizeBet(b, fees) => BetInv(h, v, b, fees, v');
    case Withdraw(w, recipient, fees) => WithdrawInv(h, v, w, recipient, fees, v');
    case CreditSettlement(c, payout, attested, _) => SettleInv(h, v, c, payout, attested, v');
    case BetCancellation(c, attested) => CancelInv(h, v, c, attested, v');
    case NACancellation(c, attested) => NACancelInv(h, v, c, attested, v');
    case ClosePosition(c, sold, proceeds, _) => CloseInv(h, v, c, sold, proceeds, v');
    case PartialFill(c, filled, spentAmount) => PartialInv(h, v, c, filled, spentAmount, v');
    case Consolidate(k) => ConsolidateInv(h, v, k, v');
    case AdminCancel(bet) => AdminCancelInv(h, v, bet, v');
    case ClaimFees(amount) => ClaimFeesInv(h, v, amount, v');
  }

  lemma {:induction false} RunInv(h: Hash, ops: seq<Op>)
    requires Ideal(h)
    ensures Inv(h, Run(h, INITIAL, ops))
  {
    if ops == [] {
      InitialInv(h);
    } else {
      var before := Run(h, INITIAL, ops[..|ops| - 1]);
      RunInv(h, ops[..|ops| - 1]);
      if Step(h, before, ops[|ops| - 1]).Some? {
        StepInv(h, before, ops[|ops| - 1], Step(h, before, ops[|ops| - 1]).value);
      }
    }
  }

  /** Solvency over every run: what has left the vault never exceeds what came in, and every
      balance and nonce behind a leaf is a 64-bit number. */
  lemma Solvent(h: Hash, ops: seq<Op>)
    requires Ideal(h)
    ensures var v := Run(h, INITIAL, ops);
      && v.paidOut + v.feeAccumulator + MapSum(StakeMap(v.bets)) + MapSum(v.protocolFee) + Live(h, v.notes, v.spent) <= v.deposited + v.income
      && Live(h, v.notes, v.spent) >= 0
      && forall i :: 0 <= i < |v.notes| ==> IsU64(v.notes[i].balance) && IsU64(v.notes[i].nonce)
  {
    RunInv(h, ops);
    var v := Run(h, INITIAL, ops);
    Balances(h, v);
    LiveNonnegative(h, v.notes, v.spent);
    forall i | 0 <= i < |v.notes| ensures IsU64(v.notes[i].balance) && IsU64(v.notes[i].nonce) { assert NoteOk(h, v, i); }
  }

  /** No call of the vault ever inserts a zero leaf, so after every run the tree contract
      knows exactly the roots of the window: `KnownRoot` is `isKnownRoot`. */
  lemma KnownRootsExact(h: Hash, ops: seq<Op>)
    requires Ideal(h)
    ensures var v := Run(h, INITIAL, ops);
      NonzeroLeaves(v.leaves) && forall r :: KnownRoot(h, v, r) <==> r != 0 && Remembered(h.h2, v.leaves, ROOT_WINDOW, r)
  {
    var v := Run(h, INITIAL, ops);
    RunInv(h, ops);
    LeavesNonzero(h, v);
    NonzeroWindow(h.h2, v.leaves, ROOT_WINDOW);
  }

  lemma LeavesNonzero(h: Hash, v: State)
    requires Ideal(h) && NotesOk(h, v)
    ensures NonzeroLeaves(v.leaves)
  {
    forall i | 0 <= i < |v.leaves| ensures v.leaves[i] != 0 { assert NoteOk(h, v, i); }
  }

  lemma {:induction false} LiveNonnegative(h: Hash, notes: seq<Note>, spent: set<int>)
    requires Nonnegative(notes)
    ensures Live(h, notes, spent) >= 0
  {
    if notes != [] { LiveNonnegative(h, notes[..|notes| - 1], spent); }
  }
}
