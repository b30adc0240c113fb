/** The browser client: the witnesses it builds, the notes it keeps, and when the circuits
    and the vault accept what it sends. */
module Clients {
  import opened Arith
  import opened Merkle
  import opened NodeMap
  import opened ChainTree
  import opened Specs
  import opened Vault
  import opened VaultProofs
  import opened VaultRuns
  import opened Wrappers

  /** A locally stored note or bet receipt (notes.ts). */
  datatype WalletNote = WalletNote(id: int, receipt: bool, depositIndex: nat, balance: int, nonce: int, commitment: int, nullifier: int, spent: bool)

  predicate Matches(n: WalletNote, commitment: int) { n.commitment == commitment || n.id == commitment }

  predicate Free(n: WalletNote) { !n.spent && !n.receipt }

  /** `getCashBalance`: the balances of the spendable notes. */
  function Cash(notes: seq<WalletNote>): int {
    if notes == [] then 0
    else
      var n := |notes| - 1;
      Cash(notes[..n]) + (if Free(notes[n]) then notes[n].balance else 0)
  }

  lemma {:induction false} CashUpdate(notes: seq<WalletNote>, i: nat, n: WalletNote)
    requires i < |notes|
    ensures Cash(notes[i := n]) + (if Free(notes[i]) then notes[i].balance else 0)
            == Cash(notes) + (if Free(n) then n.balance else 0)
  {
    var last := |notes| - 1;
    if i < last {
      assert notes[i := n][..last] == notes[..last][i := n];
      CashUpdate(notes[..last], i, n);
    } else {
      assert notes[i := n][..last] == notes[..last];
    }
  }

  /** The first note with this commitment, or this as its id, becomes spent. */
  function Marked(notes: seq<WalletNote>, commitment: int): seq<WalletNote> {
    if notes == [] then []
    else if Matches(notes[0], commitment) then [notes[0].(spent := true)] + notes[1..]
    else [notes[0]] + Marked(notes[1..], commitment)
  }

  lemma {:induction false} MarkedFirst(notes: seq<WalletNote>, commitment: int, i: nat)
    requires i <= |notes| && forall j :: 0 <= j < i ==> !Matches(notes[j], commitment)
    requires i < |notes| ==> Matches(notes[i], commitment)
    ensures Marked(notes, commitment) == if i < |notes| then notes[i := notes[i].(spent := true)] else notes
  {
    if i > 0 {
      MarkedFirst(notes[1..], commitment, i - 1);
      assert notes == [notes[0]] + notes[1..];
    }
  }

  /** A stored note's commitment identifies it: it is neither the commitment nor the id of
      another one. */
  predicate DistinctNotes(notes: seq<WalletNote>) {
    forall i, j :: 0 <= i < |notes| && 0 <= j < |notes| && i != j ==> !Matches(notes[i], notes[j].commitment)
  }

  lemma {:induction false} MarkedAt(notes: seq<WalletNote>, i: nat)
    requires i < |notes| && DistinctNotes(notes)
    ensures Marked(notes, notes[i].commitment) == notes[i := notes[i].(spent := true)]
  {
    if i > 0 {
      MarkedAt(notes[1..], i - 1);
      assert notes == [notes[0]] + notes[1..];
    }
  }

  function MarkedEach(notes: seq<WalletNote>, chosen: seq<WalletNote>): seq<WalletNote> {
    if chosen == [] then notes else Marked(MarkedEach(notes, chosen[..|chosen| - 1]), chosen[|chosen| - 1].commitment)
  }

  function SumOf(notes: seq<WalletNote>): int {
    if notes == [] then 0 else SumOf(notes[..|notes| - 1]) + notes[|notes| - 1].balance
  }

  /** The chosen notes are spent and nothing else has changed. */
  predicate SpentExactly(notes: seq<WalletNote>, chosen: seq<WalletNote>, after: seq<WalletNote>) {
    && |after| == |notes|
    && forall i :: 0 <= i < |notes| ==> after[i] == (if notes[i] in chosen then notes[i].(spent := true) else notes[i])
  }

  lemma SpentOneMore(notes: seq<WalletNote>, chosen: seq<WalletNote>, before: seq<WalletNote>, x: WalletNote, i: nat)
    requires SpentExactly(notes, chosen, before) && DistinctNotes(notes) && i < |notes| && notes[i] == x && x !in chosen
    ensures before[i] == x && DistinctNotes(before)
    ensures SpentExactly(notes, chosen + [x], before[i := x.(spent := true)])
  {
    forall k | 0 <= k < |notes| && k != i ensures notes[k] in chosen + [x] <==> notes[k] in chosen {
      assert notes[k] != x;
    }
  }

  /** Marking the chosen notes one by one spends exactly them and removes their balances. */
  lemma {:induction false} MarkedEachCash(notes: seq<WalletNote>, chosen: seq<WalletNote>)
    requires DistinctNotes(notes) && DistinctNotes(chosen)
    requires forall n :: n in chosen ==> n in notes && Free(n)
    ensures SpentExactly(notes, chosen, MarkedEach(notes, chosen))
    ensures Cash(MarkedEach(notes, chosen)) == Cash(notes) - SumOf(chosen)
  {
    if chosen == [] { return; }
    var n, x := |chosen| - 1, chosen[|chosen| - 1];
    MarkedEachCash(notes, chosen[..n]);
    var before := MarkedEach(notes, chosen[..n]);
    assert x in notes && x !in chosen[..n];
    var i :| 0 <= i < |notes| && notes[i] == x;
    SpentOneMore(notes, chosen[..n], before, x, i);
    assert chosen[..n] + [x] == chosen;
    MarkedAt(before, i);
    CashUpdate(before, i, x.(spent := true));
  }

  /** `getFreeNoteForDeposit`: the highest-nonce spendable note of a deposit. */
  function FreeNoteFor(notes: seq<WalletNote>, depositIndex: nat): (r: Option<WalletNote>)
    ensures r == None <==> forall n :: n in notes ==> !(Free(n) && n.depositIndex == depositIndex)
    ensures r.Some? ==> r.value in notes && Free(r.value) && r.value.depositIndex == depositIndex
    ensures r.Some? ==> forall n :: n in notes && Free(n) && n.depositIndex == depositIndex ==> n.nonce <= r.value.nonce
  {
    if notes == [] then None
    else
      assert forall n :: n in notes <==> n in notes[..|notes| - 1] || n == notes[|notes| - 1];
      var best, x := FreeNoteFor(notes[..|notes| - 1], depositIndex), notes[|notes| - 1];
      if !Free(x) || x.depositIndex != depositIndex then best
      else if best.Some? && best.value.nonce > x.nonce then best else Some(x)
  }

  // ---- what a stored note must record -----------------------------------------------

  /** The note opens its own commitment and nullifier. A receipt keeps the nonce of the note
      the bet was made from; its nullifier names the bet. */
  ghost predicate Owned(h: Hash, wallet: int, secret: int, n: WalletNote) {
    && IsU64(n.balance) && IsU64(n.nonce) && n.nullifier == h.h2(secret, n.nonce)
    && (!n.receipt ==> n.commitment == h.h4(secret, n.balance, n.nonce, wallet))
  }

  ghost predicate PathFor(h: Hash, leaf: int, p: Proof) {
    |p.path| == TREE_DEPTH && |p.bits| == TREE_DEPTH && PathOk(p.bits) && p.root == Fold(h.h2, leaf, p.path, p.bits)
  }

  /** What the relay's cache serves for a commitment is a path for it. */
  lemma ServedPathFits(h: Hash, leaves: seq<int>, i: nat, p: Proof)
    requires IsPath(h.h2, leaves, i, p.path, p.bits) && |p.path| == TREE_DEPTH && i < |leaves| && |leaves| <= TWO_32
    requires p.root == Root(h.h2, leaves)
    ensures PathFor(h, leaves[i], p)
  {
    Pow2Of32();
    PathFoldsToRoot(h.h2, leaves, i, p.path, p.bits);
  }

  /** A path served for the first `n` leaves stays acceptable to the vault for exactly the
      next 1023 insertions. */
  lemma ServedRootExpires(h: Hash, v: State, n: nat)
    requires Ideal(h) && NonzeroLeaves(v.leaves) && n <= |v.leaves|
    ensures KnownRoot(h, v, Root(h.h2, v.leaves[..n])) <==> |v.leaves| - n < 1024
  {
    RootNonzero(h, v.leaves[..n]);
    assert RootAt(h.h2, v.leaves, n) == Root(h.h2, v.leaves[..n]);
    forall s: nat | s <= |v.leaves| && s != n ensures RootAt(h.h2, v.leaves, s) != RootAt(h.h2, v.leaves, n) {
      if s < n { RootsDistinct(h.h2, v.leaves, s, n); } else { RootsDistinct(h.h2, v.leaves, n, s); }
    }
  }

  // ---- consolidate (consolidate.ts:47-143) ---------------------------------------------

  const PADDING: Slot := Slot(0, 0, 0, 0, 0, seq(TREE_DEPTH, _ => 0), seq(TREE_DEPTH, _ => 0))

  /** The witness for the selected notes: active slots first, zero padding after. */
  method BuildConsolidate(h: Hash, wallet: int, notes: seq<WalletNote>, secrets: seq<int>, paths: seq<Proof>)
    returns (r: Result<ConsolidateWires, string>)
    requires |secrets| == |paths| == |notes|
    ensures r.Success? <==> 2 <= |notes| <= SLOTS
    ensures r.Success? ==> ConsolidateFor(h, wallet, notes, secrets, paths, r.value)
  {
    if |notes| < 2 { return Failure("consolidateNotes requires at least 2 notes"); }
    if |notes| > SLOTS { return Failure("consolidateNotes accepts too many notes"); }
    var slots: seq<Slot> := [];
    var j := 0;
    while j < SLOTS
      invariant |slots| == j <= SLOTS
      invariant forall i :: 0 <= i < j ==> slots[i] == SlotFor(h, notes, secrets, paths, i)
    {
      if j < |notes| {
        slots := slots + [Slot(secrets[j], notes[j].balance, notes[j].nonce, 1, h.h2(secrets[j], notes[j].nonce), paths[j].path, paths[j].bits)];
      } else {
        slots := slots + [PADDING];
      }
      j := j + 1;
    }
    var sum, k := 0, 0;
    while k < |notes|
      invariant k <= |notes| && sum == SumOf(notes[..k])
    {
      sum := sum + notes[k].balance;
      k := k + 1;
      assert notes[..k][..k - 1] == notes[..k - 1];
    }
    assert notes[..|notes|] == notes;
    r := Success(ConsolidateWires(slots, wallet, paths[0].root, h.h4(secrets[0], sum, notes[0].nonce + 1, wallet)));
  }

  function SlotFor(h: Hash, notes: seq<WalletNote>, secrets: seq<int>, paths: seq<Proof>, j: nat): Slot
    requires |secrets| == |paths| == |notes|
  {
    if j < |notes| then Slot(secrets[j], notes[j].balance, notes[j].nonce, 1, h.h2(secrets[j], notes[j].nonce), paths[j].path, paths[j].bits)
    else PADDING
  }

  ghost predicate ConsolidateFor(h: Hash, wallet: int, notes: seq<WalletNote>, secrets: seq<int>, paths: seq<Proof>, w: ConsolidateWires)
    requires |secrets| == |paths| == |notes|
  {
    && |notes| >= 2 && |w.slots| == SLOTS && w.owner == wallet && w.root == paths[0].root
    && (forall j :: 0 <= j < SLOTS ==> w.slots[j] == SlotFor(h, notes, secrets, paths, j))
    && w.newCommitment == h.h4(secrets[0], SumOf(notes), notes[0].nonce + 1, wallet)
  }

  lemma {:induction false} TotalIsSum(h: Hash, notes: seq<WalletNote>, secrets: seq<int>, paths: seq<Proof>, slots: seq<Slot>)
    requires |secrets| == |paths| == |notes| && |notes| <= SLOTS
    requires forall j :: 0 <= j < |slots| ==> slots[j] == SlotFor(h, notes, secrets, paths, j)
    ensures |slots| <= |notes| ==> Total(slots) == SumOf(notes[..|slots|])
    ensures |slots| >= |notes| ==> Total(slots) == SumOf(notes)
  {
    assert notes[..|notes|] == notes;
    if slots == [] { return; }
    var n := |slots| - 1;
    TotalIsSum(h, notes, secrets, paths, slots[..n]);
    if n < |notes| { assert notes[..n + 1][..n] == notes[..n]; }
  }

  ghost predicate PathsOk(h: Hash, wallet: int, notes: seq<WalletNote>, secrets: seq<int>, paths: seq<Proof>)
    requires |secrets| == |paths| == |notes|
  {
    forall j :: 0 <= j < |notes| ==> Owned(h, wallet, secrets[j], notes[j]) && !notes[j].receipt && PathFor(h, notes[j].commitment, paths[j])
  }

  /** For well-formed notes and honest paths, the witness satisfies every consolidate clause
      exactly when all paths were served under one root and nothing overflows. */
  lemma {:induction false} ConsolidateSatisfies(h: Hash, wallet: int, notes: seq<WalletNote>, secrets: seq<int>, paths: seq<Proof>, w: ConsolidateWires)
    requires |secrets| == |paths| == |notes| && 2 <= |notes| <= SLOTS
    requires ConsolidateFor(h, wallet, notes, secrets, paths, w) && PathsOk(h, wallet, notes, secrets, paths)
    ensures SpecConsolidate(h, w) <==>
      (forall j :: 0 <= j < |notes| ==> paths[j].root == paths[0].root) && SumOf(notes) < U64 && notes[0].nonce + 1 < U64
  {
    TotalIsSum(h, notes, secrets, paths, w.slots);
    forall j | 0 <= j < |notes| ensures SlotOk(h, wallet, w.root, w.slots[j]) <==> paths[j].root == paths[0].root {
      assert w.slots[j] == SlotFor(h, notes, secrets, paths, j);
    }
    forall j | |notes| <= j < SLOTS ensures SlotOk(h, wallet, w.root, w.slots[j]) {
      assert w.slots[j] == SlotFor(h, notes, secrets, paths, j);
    }
    assert w.slots[0] == SlotFor(h, notes, secrets, paths, 0);
  }

  /** The paths are fetched one after the other. If the tree grew in between, the roots
      differ and no proof exists; if it did not, only the two bounds remain. */
  lemma {:induction false} ConsolidateNeedsOneSnapshot(h: Hash, wallet: int, notes: seq<WalletNote>, secrets: seq<int>, paths: seq<Proof>, trees: seq<seq<int>>, w: ConsolidateWires)
    requires Ideal(h) && |secrets| == |paths| == |notes| == |trees| && 2 <= |notes| <= SLOTS
    requires ConsolidateFor(h, wallet, notes, secrets, paths, w) && PathsOk(h, wallet, notes, secrets, paths)
    requires forall j :: 0 <= j < |trees| ==> paths[j].root == Root(h.h2, trees[j]) && trees[0] <= trees[j] && NonzeroLeaves(trees[j]) && |trees[j]| <= TWO_32
    ensures SpecConsolidate(h, w) <==> (forall j :: 0 <= j < |trees| ==> trees[j] == trees[0]) && SumOf(notes) < U64 && notes[0].nonce + 1 < U64
  {
    ConsolidateSatisfies(h, wallet, notes, secrets, paths, w);
    forall j | 0 <= j < |trees| ensures paths[j].root == paths[0].root <==> trees[j] == trees[0] {
      var more := trees[j][|trees[0]|..];
      assert trees[j] == trees[0] + more;
      if more != [] {
        assert more[0] == trees[j][|trees[0]|];
        Pow2Of32();
        RootChanges(h.h2, trees[0], more);
      }
    }
  }

  // ---- credits (finalizeClose.ts:65-103, cancelAndReclaim.ts:111-155) -----------------------

  /** The witness of `position_close` and of `bet_cancel`: the two builders differ only in the
      amount credited. */
  function CreditWitness(h: Hash, wallet: int, secret: int, free: WalletNote, receipt: WalletNote, path: Proof, credit: int): CreditWires {
    CreditWires(SpendWires(secret, free.balance, free.nonce, wallet, path.path, path.bits, path.root, free.nullifier),
                credit, receipt.nonce, receipt.nullifier, h.h4(secret, free.balance + credit, free.nonce + 1, wallet))
  }

  /** The witness is good exactly when the bet precedes the free note and nothing overflows. */
  lemma CreditSatisfies(h: Hash, wallet: int, secret: int, free: WalletNote, receipt: WalletNote, path: Proof, credit: int)
    requires Owned(h, wallet, secret, free) && !free.receipt && Owned(h, wallet, secret, receipt) && PathFor(h, free.commitment, path)
    ensures SpecCredit(h, CreditWitness(h, wallet, secret, free, receipt, path, credit)) <==>
      receipt.nonce < free.nonce && IsU64(credit) && free.balance + credit < U64 && free.nonce + 1 < U64
  {
  }

  /** With the receipt of another deposit the nullifier of the bet does not match, whatever
      the nonces: the free note must come from the receipt's own lineage. */
  lemma ForeignReceiptFails(h: Hash, wallet: int, secret: int, other: int, free: WalletNote, receipt: WalletNote, path: Proof, credit: int)
    requires Ideal(h) && secret != other && Owned(h, wallet, other, receipt)
    ensures !SpecCredit(h, CreditWitness(h, wallet, secret, free, receipt, path, credit))
  {
    if h.h2(secret, receipt.nonce) == h.h2(other, receipt.nonce) { SameHash2(h, secret, receipt.nonce, other, receipt.nonce); }
  }

  /** The vault accepts the credit in any state where the note is unspent and the path is of
      the current tree. */
  lemma CreditAccepted(h: Hash, v: State, wallet: int, secret: int, free: WalletNote, receipt: WalletNote, path: Proof, credit: int)
    requires Ideal(h) && Inv(h, v) && |v.leaves| < TWO_32
    requires Owned(h, wallet, secret, free) && !free.receipt && Owned(h, wallet, secret, receipt) && PathFor(h, free.commitment, path)
    requires path.root == Root(h.h2, v.leaves) && free.nullifier !in v.spent && receipt.nullifier in v.bets
    ensures DoCredit(h, v, CreditWitness(h, wallet, secret, free, receipt, path, credit), credit).Some? <==>
      receipt.nonce < free.nonce && IsU64(credit) && free.balance + credit < U64 && free.nonce + 1 < U64
  {
    CreditSatisfies(h, wallet, secret, free, receipt, path, credit);
    CurrentRootKnown(h, v);
  }

  /** A claim on a resolved market goes through exactly when the amount is the payout of the
      shares still held. */
  lemma SettleAccepted(h: Hash, v: State, wallet: int, secret: int, free: WalletNote, receipt: WalletNote, path: Proof, claim: int, payout: nat, attested: bool, resolved: bool)
    requires Ideal(h) && Inv(h, v) && |v.leaves| < TWO_32
    requires Owned(h, wallet, secret, free) && !free.receipt && Owned(h, wallet, secret, receipt) && PathFor(h, free.commitment, path)
    requires path.root == Root(h.h2, v.leaves) && free.nullifier !in v.spent && receipt.nullifier in v.bets
    ensures var bet := v.bets[receipt.nullifier];
      Step(h, v, CreditSettlement(CreditWitness(h, wallet, secret, free, receipt, path, claim), payout, attested, resolved)).Some? <==>
        && resolved && (bet.status == Filled || (bet.status == Active && attested))
        && claim == (bet.expectedShares - bet.soldShares) * payout
        && receipt.nonce < free.nonce && IsU64(claim) && free.balance + claim < U64 && free.nonce + 1 < U64
  {
    CreditAccepted(h, v, wallet, secret, free, receipt, path, claim);
  }

  /** The refund of a failed bet, end to end: the amount the client computes from the record
      is the amount the vault demands. */
  lemma ReclaimAccepted(h: Hash, v: State, wallet: int, secret: int, free: WalletNote, receipt: WalletNote, path: Proof, attested: bool)
    requires Ideal(h) && Inv(h, v) && |v.leaves| < TWO_32
    requires Owned(h, wallet, secret, free) && !free.receipt && Owned(h, wallet, secret, receipt) && PathFor(h, free.commitment, path)
    requires path.root == Root(h.h2, v.leaves) && free.nullifier !in v.spent && receipt.nullifier in v.bets
    ensures var n := receipt.nullifier; var refund := v.bets[n].betAmount + v.protocolFee[n];
      DoCancel(h, v, CreditWitness(h, wallet, secret, free, receipt, path, refund), attested).Some? <==>
        && (v.bets[n].status == Failed || (v.bets[n].status == Active && attested))
        && receipt.nonce < free.nonce && refund < U64 && free.balance + refund < U64 && free.nonce + 1 < U64
  {
    CreditAccepted(h, v, wallet, secret, free, receipt, path, v.bets[receipt.nullifier].betAmount + v.protocolFee[receipt.nullifier]);
  }

  /** What `finalizePartialFill` computes as the refund. */
  function PartialRefund(betAmount: nat, protocolFee: nat, spentAmount: nat): nat {
    var unspent := if betAmount > spentAmount then betAmount - spentAmount else 0;
    if unspent > 0 && betAmount > 0 then unspent + (protocolFee * unspent) / betAmount else 0
  }

  /** The client's refund is the vault's to the last unit, so a partial fill is credited
      exactly when the attested amounts are in the vault's bounds. */
  lemma PartialAccepted(h: Hash, v: State, wallet: int, secret: int, free: WalletNote, receipt: WalletNote, path: Proof, filled: nat, spentAmount: nat)
    requires Ideal(h) && Inv(h, v) && |v.leaves| < TWO_32
    requires Owned(h, wallet, secret, free) && !free.receipt && Owned(h, wallet, secret, receipt) && PathFor(h, free.commitment, path)
    requires path.root == Root(h.h2, v.leaves) && free.nullifier !in v.spent && receipt.nullifier in v.bets
    ensures var bet := v.bets[receipt.nullifier]; var refund := PartialRefund(bet.betAmount, v.protocolFee[receipt.nullifier], spentAmount);
      DoPartial(h, v, CreditWitness(h, wallet, secret, free, receipt, path, refund), filled, spentAmount).Some? <==>
        && bet.status == Active && 0 < filled < bet.expectedShares && 0 < spentAmount <= bet.betAmount
        && receipt.nonce < free.nonce && refund < U64 && free.balance + refund < U64 && free.nonce + 1 < U64
  {
    var bet, fee := v.bets[receipt.nullifier], v.protocolFee[receipt.nullifier];
    if 0 < spentAmount <= bet.betAmount {
      assert fee * 0 / bet.betAmount == 0;
      assert PartialRefund(bet.betAmount, fee, spentAmount) == (bet.betAmount - spentAmount) + RefundedFee(fee, bet.betAmount, spentAmount);
    }
    CreditAccepted(h, v, wallet, secret, free, receipt, path, PartialRefund(bet.betAmount, fee, spentAmount));
  }

  /** `finalizeClose` credits the attested proceeds, which are cumulative, while the vault
      credits only what is new; so it needs a record without proceeds. */
  lemma CloseAccepted(h: Hash, v: State, wallet: int, secret: int, free: WalletNote, receipt: WalletNote, path: Proof, sold: nat, proceeds: nat, resolved: bool)
    requires Ideal(h) && Inv(h, v) && |v.leaves| < TWO_32
    requires Owned(h, wallet, secret, free) && !free.receipt && Owned(h, wallet, secret, receipt) && PathFor(h, free.commitment, path)
    requires path.root == Root(h.h2, v.leaves) && free.nullifier !in v.spent && receipt.nullifier in v.bets
    ensures var bet := v.bets[receipt.nullifier];
      Step(h, v, ClosePosition(CreditWitness(h, wallet, secret, free, receipt, path, proceeds), sold, proceeds, resolved)).Some? <==>
        && !resolved && (bet.status == Active || bet.status == Filled) && bet.soldShares < sold <= bet.expectedShares
        && bet.sellProceeds == 0
        && receipt.nonce < free.nonce && proceeds < U64 && free.balance + proceeds < U64 && free.nonce + 1 < U64
  {
    CreditAccepted(h, v, wallet, secret, free, receipt, path, proceeds);
  }

  /** A merge sent with paths of the current tree goes through exactly when the notes are
      unspent and different; the new leaf holds their sum in the first note's lineage. */
  lemma {:induction false} MergeAccepted(h: Hash, v: State, wallet: int, notes: seq<WalletNote>, secrets: seq<int>, paths: seq<Proof>, w: ConsolidateWires)
    requires Ideal(h) && |v.leaves| < TWO_32 && |secrets| == |paths| == |notes| && 2 <= |notes| <= SLOTS
    requires ConsolidateFor(h, wallet, notes, secrets, paths, w) && PathsOk(h, wallet, notes, secrets, paths)
    requires forall j :: 0 <= j < |notes| ==> paths[j].root == Root(h.h2, v.leaves)
    ensures DoConsolidate(h, v, w).Some? <==>
      && SumOf(notes) < U64 && notes[0].nonce + 1 < U64
      && (forall j :: 0 <= j < |notes| ==> notes[j].nullifier !in v.spent)
      && (forall i, j :: 0 <= i < j < |notes| ==> notes[i].nullifier != notes[j].nullifier)
    ensures DoConsolidate(h, v, w).Some? ==>
      DoConsolidate(h, v, w).value.notes == v.notes + [Note(secrets[0], SumOf(notes), notes[0].nonce + 1, wallet)]
  {
    ConsolidateSatisfies(h, wallet, notes, secrets, paths, w);
    TotalIsSum(h, notes, secrets, paths, w.slots);
    MarkAllExact(v.spent, w.slots);
    CurrentRootKnown(h, v);
    SlotNullifiers(h, wallet, notes, secrets, paths, w);
    assert w.slots[0] == SlotFor(h, notes, secrets, paths, 0);
  }

  lemma {:induction false} SlotNullifiers(h: Hash, wallet: int, notes: seq<WalletNote>, secrets: seq<int>, paths: seq<Proof>, w: ConsolidateWires)
    requires Ideal(h) && |secrets| == |paths| == |notes| && 2 <= |notes| <= SLOTS
    requires ConsolidateFor(h, wallet, notes, secrets, paths, w) && PathsOk(h, wallet, notes, secrets, paths)
    ensures w.slots[0].nullifier != 0
    ensures forall x :: x in SlotMarks(w.slots) <==> exists j :: 0 <= j < |notes| && notes[j].nullifier == x
    ensures Distinct(w.slots) <==> forall i, j :: 0 <= i < j < |notes| ==> notes[i].nullifier != notes[j].nullifier
  {
    forall j | 0 <= j < SLOTS
      ensures w.slots[j].nullifier == (if j < |notes| then notes[j].nullifier else 0)
      ensures j < |notes| ==> w.slots[j].nullifier != 0
    {
      assert w.slots[j] == SlotFor(h, notes, secrets, paths, j);
      if j < |notes| { NonzeroHash2(h, secrets[j], notes[j].nonce); }
    }
    forall i, j | 0 <= i < j < |notes| && Distinct(w.slots) ensures notes[i].nullifier != notes[j].nullifier {
      assert w.slots[i].nullifier != w.slots[j].nullifier;
    }
    forall x | exists j :: 0 <= j < |notes| && notes[j].nullifier == x ensures x in SlotMarks(w.slots) {
      var j :| 0 <= j < |notes| && notes[j].nullifier == x;
      assert w.slots[j].nullifier == x;
    }
  }

  // ---- local state -----------------------------------------------------------------------------

  class Wallet {
    var notes: seq<WalletNote>

    /** `markNoteSpent` (notes.ts:1578-1586): the first match by commitment or id. */
    method MarkNoteSpent(commitment: int)
      modifies this
      ensures notes == Marked(old(notes), commitment)
    {
      var i := 0;
      while i < |notes| && !Matches(notes[i], commitment)
        invariant i <= |notes| && notes == old(notes)
        invariant forall j :: 0 <= j < i ==> !Matches(notes[j], commitment)
      {
        i := i + 1;
      }
      MarkedFirst(notes, commitment, i);
      if i < |notes| { notes := notes[i := notes[i].(spent := true)]; }
    }

    method AddNote(n: WalletNote)
      modifies this
      ensures notes == old(notes) + [n]
    {
      notes := notes + [n];
    }

    /** After an accepted merge: the inputs are spent, the merged note continues the first
        one's lineage, and the wallet's cash is what it was. */
    method AfterConsolidate(h: Hash, wallet: int, chosen: seq<WalletNote>, secrets: seq<int>)
      requires 2 <= |chosen| == |secrets| && DistinctNotes(notes) && DistinctNotes(chosen)
      requires forall n :: n in chosen ==> n in notes && Free(n)
      requires forall j :: 0 <= j < |chosen| ==> Owned(h, wallet, secrets[j], chosen[j])
      modifies this
      ensures Cash(notes) == old(Cash(notes))
      ensures |notes| == |old(notes)| + 1 && SpentExactly(old(notes), chosen, notes[..|old(notes)|])
      ensures var merged := notes[|old(notes)|];
        && Free(merged) && merged.depositIndex == chosen[0].depositIndex
        && (SumOf(chosen) < U64 && chosen[0].nonce + 1 < U64 ==> Owned(h, wallet, secrets[0], merged))
    {
      ghost var before := notes;
      MarkedEachCash(notes, chosen);
      var k, sum := 0, 0;
      while k < |chosen|
        invariant k <= |chosen| && sum == SumOf(chosen[..k]) && notes == MarkedEach(before, chosen[..k])
      {
        MarkNoteSpent(chosen[k].commitment);
        sum := sum + chosen[k].balance;
        assert chosen[..k + 1][..k] == chosen[..k];
        k := k + 1;
      }
      assert chosen[..k] == chosen;
      ghost var marked := notes;
      SumNonnegative(h, wallet, chosen, secrets);
      var nonce := chosen[0].nonce + 1;
      var commitment := h.h4(secrets[0], sum, nonce, wallet);
      AddNote(WalletNote(commitment, false, chosen[0].depositIndex, sum, nonce, commitment, h.h2(secrets[0], nonce), false));
      assert notes[..|marked|] == marked;
    }
  }

  lemma {:induction false} SumNonnegative(h: Hash, wallet: int, notes: seq<WalletNote>, secrets: seq<int>)
    requires |notes| == |secrets| && forall j :: 0 <= j < |notes| ==> Owned(h, wallet, secrets[j], notes[j])
    ensures SumOf(notes) >= 0
  {
    if notes == [] { return; }
    var n := |notes| - 1;
    forall j | 0 <= j < n ensures Owned(h, wallet, secrets[..n][j], notes[..n][j]) {
      assert Owned(h, wallet, secrets[j], notes[j]);
    }
    SumNonnegative(h, wallet, notes[..n], secrets[..n]);
    assert Owned(h, wallet, secrets[n], notes[n]);
  }
}
