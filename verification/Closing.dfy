/** Closing a position through the outcome store: the store keeps one sale per bet, and the
    vault accepts the same sale once. */
module Closing {
  import Attestations
  import opened Money
  import opened Specs
  import opened Vault
  import opened VaultRuns

  /** The sale the store has for the bet is what a client sends. */
  ghost predicate FromStore(rows: Attestations.Store, op: Op) {
    && op.ClosePosition?
    && var slot := Attestations.Slot(op.c.nullifierOfBet, SOLD);
       slot in rows && rows[slot].amountA == op.soldShares && rows[slot].amountB == op.proceeds
  }

  /** Over every run of the store and every run of the vault: once a close with the stored
      sale has succeeded, no later close with what the store then holds for the bet does. A
      partial close therefore leaves a remainder that cannot be closed this way. */
  lemma RemainderNeverCloses(h: Hash, ops: seq<Op>, i: nat, j: nat, events: seq<Attestations.Event>, m: nat)
    requires Ideal(h) && i < j < |ops| && m <= |events|
    requires Succeeds(h, ops, i) && FromStore(Attestations.Run(events[..m]).store, ops[i])
    requires FromStore(Attestations.Run(events).store, ops[j]) && ops[j].c.nullifierOfBet == ops[i].c.nullifierOfBet
    ensures !Succeeds(h, ops, j)
  {
    Attestations.SlotWriteOnce(events, m, Attestations.Slot(ops[i].c.nullifierOfBet, SOLD));
    AttestationClosesOnce(h, ops, i, j);
  }
}
