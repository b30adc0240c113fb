/** The security clauses of the circuits, as predicates over the wires of an accepted
    witness. Arithmetic is over the integers. */
module Specs {
  import opened Arith
  import opened Merkle

  type Hash4 = (int, int, int, int) -> int

  datatype Hash = Hash(h2: Hash2, h4: Hash4)

  ghost predicate Injective4(h: Hash4) {
    forall a, b, c, d, a', b', c', d' :: h(a, b, c, d) == h(a', b', c', d') ==> a == a' && b == b' && c == c' && d == d'
  }

  /** The ideal hash: collision-free, and zero (the empty leaf, the padding nullifier) has
      no known preimage. */
  ghost predicate Ideal(h: Hash) {
    && Injective2(h.h2) && Injective4(h.h4)
    && (forall a, b :: h.h2(a, b) != 0) && (forall a, b, c, d :: h.h4(a, b, c, d) != 0)
  }

  const PRICE_PRECISION: int := 100_000_000

  predicate IsU64(x: int) { 0 <= x < U64 }

  predicate PathOk(bits: seq<int>) { forall i :: 0 <= i < |bits| ==> bits[i] == 0 || bits[i] == 1 }

  // ---- deposit (specs.py:55-61) -------------------------------------------------

  datatype DepositWires = DepositWires(secret: int, amount: int, owner: int, commitment: int)

  ghost predicate SpecDeposit(h: Hash, w: DepositWires) {
    IsU64(w.amount) && w.commitment == h.h4(w.secret, w.amount, 0, w.owner)
  }

  // ---- spending a note (specs.py:64-75) -------------------------------------------

  datatype SpendWires = SpendWires(secret: int, balance: int, nonce: int, owner: int,
                                   sib: seq<int>, bits: seq<int>, root: int, nullifier: int)

  ghost predicate SpecSpend(h: Hash, s: SpendWires) {
    && |s.sib| == TREE_DEPTH && |s.bits| == TREE_DEPTH && PathOk(s.bits)
    && s.root == Fold(h.h2, h.h4(s.secret, s.balance, s.nonce, s.owner), s.sib, s.bits)
    && s.nullifier == h.h2(s.secret, s.nonce)
    && s.nonce + 1 < U64
  }

  // ---- bet_auth (specs.py:78-98) ----------------------------------------------------

  datatype BetWires = BetWires(s: SpendWires, betAmount: int, fee: int, price: int, expectedShares: int,
                               shareRemainder: int, outcomeSide: int, newCommitment: int)

  ghost predicate SpecBetAuth(h: Hash, w: BetWires) {
    && SpecSpend(h, w.s)
    && IsU64(w.s.balance) && IsU64(w.s.nonce) && IsU64(w.betAmount) && IsU64(w.fee) && IsU64(w.price)
    && IsU64(w.expectedShares) && IsU64(w.shareRemainder) && 0 <= w.outcomeSide < 256
    && w.s.balance >= w.betAmount + w.fee
    && w.price > 0 && w.shareRemainder < w.price
    && w.expectedShares * w.price + w.shareRemainder == w.betAmount * PRICE_PRECISION
    && w.expectedShares == (w.betAmount * PRICE_PRECISION) / w.price
    && w.newCommitment == h.h4(w.s.secret, w.s.balance - w.betAmount - w.fee, w.s.nonce + 1, w.s.owner)
  }

  // ---- withdrawal (specs.py:101-113) ---------------------------------------------------

  datatype WithdrawWires = WithdrawWires(s: SpendWires, amount: int, recipientHash: int, recipient: int, newCommitment: int)

  ghost predicate SpecWithdrawal(h: Hash, w: WithdrawWires) {
    && SpecSpend(h, w.s)
    && IsU64(w.s.balance) && IsU64(w.s.nonce) && IsU64(w.amount)
    && w.amount <= w.s.balance
    && w.recipientHash == h.h2(w.s.owner, 0) && w.recipient == w.s.owner
    && w.newCommitment == (if w.amount < w.s.balance
                           then h.h4(w.s.secret, w.s.balance - w.amount, w.s.nonce + 1, w.s.owner) else 0)
  }

  // ---- the five credit circuits (specs.py:116-129, 153-157) ------------------------------

  datatype CreditWires = CreditWires(s: SpendWires, credit: int, betNonce: int, nullifierOfBet: int, newCommitment: int)

  ghost predicate SpecCredit(h: Hash, w: CreditWires) {
    && SpecSpend(h, w.s)
    && IsU64(w.s.balance) && IsU64(w.s.nonce) && IsU64(w.credit)
    && w.s.balance + w.credit < U64
    && w.newCommitment == h.h4(w.s.secret, w.s.balance + w.credit, w.s.nonce + 1, w.s.owner)
    && IsU64(w.betNonce) && w.betNonce < w.s.nonce
    && w.nullifierOfBet == h.h2(w.s.secret, w.betNonce)
  }

  // ---- consolidate (specs.py:160-184) ------------------------------------------------------

  const SLOTS: nat := 4

  datatype Slot = Slot(secret: int, balance: int, nonce: int, active: int, nullifier: int, sib: seq<int>, bits: seq<int>)

  datatype ConsolidateWires = ConsolidateWires(slots: seq<Slot>, owner: int, root: int, newCommitment: int)

  ghost predicate SlotOk(h: Hash, owner: int, root: int, x: Slot) {
    && (x.active == 0 || x.active == 1)
    && |x.sib| == TREE_DEPTH && |x.bits| == TREE_DEPTH
    && IsU64(x.balance) && IsU64(x.nonce)
    && (x.active == 1 ==> PathOk(x.bits) && root == Fold(h.h2, h.h4(x.secret, x.balance, x.nonce, owner), x.sib, x.bits))
    && x.nullifier == (if x.active == 1 then h.h2(x.secret, x.nonce) else 0)
  }

  /** The sum of the active balances. */
  function Total(slots: seq<Slot>): int {
    if slots == [] then 0
    else
      var n := |slots| - 1;
      Total(slots[..n]) + (if slots[n].active == 1 then slots[n].balance else 0)
  }

  ghost predicate SpecConsolidate(h: Hash, w: ConsolidateWires) {
    && |w.slots| == SLOTS && w.slots[0].active == 1
    && (forall j :: 0 <= j < SLOTS ==> SlotOk(h, w.owner, w.root, w.slots[j]))
    && Total(w.slots) < U64
    && w.slots[0].nonce + 1 < U64
    && w.newCommitment == h.h4(w.slots[0].secret, Total(w.slots), w.slots[0].nonce + 1, w.owner)
  }
}
