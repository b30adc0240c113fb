# Polyshield: a verified model

Polyshield keeps bets on prediction markets private: users hold notes, commitments in a Merkle
tree, and every state change is gated by a zero-knowledge proof. This project models the parts
of the repository whose correctness is not visible from one function at a time, and proves what
they are for. `dafny verify dfyconfig.toml` checks everything.

## What is modelled

**From circuits to solver formulas** (`R1cs`, `LinComb`, `Formulas`, `Classes`, `Encoding`,
`Encoder`, `SkipGuard`, `HashModel`, `Audit`). The verification tools compile rank-1
constraints over F_p to integer formulas: union-find substitution with constants to a fixpoint,
detection of boolean wires, interval analysis that turns congruences into finitely many
equations, case splits on boolean factors. P is any prime. `Encoder.Model.Build` is exact in
both directions; `Encode` is exact up to the constraints that its skip leaves out; `SkipGuard`
says by their coefficients which of those are lost. A solver's refutation, over the variables
that substitution leaves and under hash axioms for the circuit's own calls, is a proof about
the circuit up to a collision of these calls, also along a chain of clauses that assume each
other (`Audit.RunClauses`).

**Uniqueness of witnesses** (`BitSums`, `Determinism`, `Uniqueness`, `TwoCopies`). The
propagation rules, the rule for binary decompositions, the outer loop over hash outputs and the
query over two copies: every wire is a function of the inputs. The only demand on the prime is
that 2^253 lies below it.

**One tree in four forms** (`Merkle`, `NodeMap`, `MerkleCache`, `MerkleRebuild`, `ChainTree`).
The recursive zero-padded tree is the reference. The sparse one-path update, the layer-by-layer
rebuild, the contract's filled-subtree insertion and the circuit's path fold all agree with it.
The cache is followed through windows, gaps, crashes between any two writes, any number of
times, and restarts. The depth 32 is a constant given by its bounds; the 32-bit shifts of the
source are modelled, which gives the exact limit 2^31 on indices.

**The vault** (`Specs`, `Shares`, `IdealHash`, `Vault`, `VaultProofs`, `VaultLedger`,
`VaultLineage`, `VaultHistory`, `VaultRuns`). The specification clauses of the circuits are the
guards, the Solidity code is the effect. Eleven operations in any order, arbitrary attested
amounts: solvency, an exact ledger, records that are the history of the accepted calls, no
double spend, no double payout, credits only to the bettor's lineage, withdrawals only to the
owner.

**The client** (`Clients`, `Closing`). The witnesses the browser builds, the conditions under
which circuits and vault accept them, each as an if-and-only-if, the wallet's own bookkeeping,
and what the outcome store and the vault make of a partial close.

**Scanning** (`LogScan`, `EventIndex`, `EventListener`, `ListenerGuard`). Adaptive paging, the
idempotent index, the cursor-driven consumer, and the overlap of its two scans.

**Outcomes and money** (`Attestations`, `FillTracker`, `Money`, `Decimal`, `NonceMutex`).
Asynchronous code is modelled as a state machine whose steps are the stretches between two
suspensions; a class beside it carries the source's fields, and each of its methods is proved
to perform one step.

Conventions. A database is a map with the source's keys and conflict rules; a trace records its
contents after each single write, so a property of the whole trace holds wherever a crash
falls, and a run of several lives can go back to any of its states. A solver is a function from
queries to answers, assumed truthful. Hash functions are parameters. The protocol proofs assume
the ideal hash: injective, and never zero. It is a hash into the unbounded integers, because no
injective function of two field elements into one exists; `IdealHash` shows that the assumption
is satisfiable. Signatures, proofs and the answers of nodes and services are inputs of a step.

## Where code and comments disagree

- `Vault.sol:833-837` says that normalisation after a partial fill is the only way a record
  becomes FILLED. A partial close also leaves it FILLED (`VaultLogic.sol:278`). The model
  follows the code; `VaultRuns.FilledOnlyBy` states both ways and no other.
- `finalizeClose.ts:73` takes the attested cumulative proceeds as the credit, with the comment
  that the vault injects them. The vault injects the difference to what it credited before
  (`VaultLogic.sol:270`), so the client's credit fits only the first close with proceeds:
  `Clients.CloseAccepted`. The outcome store keeps one sale per bet and the seller refuses a
  second one (`orderBuilder.ts:877`, `993`), so a remainder that a partial close leaves can
  never be closed through the store: `Closing.RemainderNeverCloses`.
- `attestationStore.ts:143-149` states exactly one outcome per bet. Calls that overlap can
  break it (`Attestations.OverlapStoresTwoOutcomes`), but only if a signature arrives after a
  different outcome was stored: `Attestations.OneOutcomeExactly`. The fill tracker alone never
  does that (`FillTracker.TrackerSignsOneOutcome`). `autoSettlement.ts:294` holds that no order
  was ever placed when none is tracked; while the tracker signs, its order is hidden
  (`wsFillTracker.ts:289`), and a cancellation then attests FAILED beside the outcome being
  signed: `FillTracker.CancelDuringSigning`. Both windows need a signer that really yields,
  such as a KMS or an HSM; with an in-process key the awaits most likely resolve within one
  event-loop task, before another request runs.
- `merkleTree.ts:148-154` deletes rows and cursor in two statements, with nothing around them
  that makes them one. A crash in between leaves a cursor without rows; once the first leaf is
  stored again, a start believes that cursor and does not ask for the leaves up to it:
  `MerkleCache.CrashInsideReset`. `MerkleCache.CachedMerkleTree.LoadFromDb` says exactly which
  stored states resume without loss. A later leaf exposes the gap and resets again.
- `relayer.ts:68-70` gives back the nonce of a transaction that was never broadcast by
  decrementing the counter. That is the caller's nonce only while no later call holds one:
  `NonceMutex.GiveBackReissues`, `NonceMutex.GiveBackOutOfOrder`.
- `CommitmentMerkleTree.sol:127-131` guards against forgetting a root that is still known, but
  only against the newest root. A zero commitment, which `insert` accepts although the vault
  never sends one (`VaultProofs.KnownRootsExact`), repeats a root; when its first copy leaves
  the window the others are forgotten too: `ChainTree.WindowExactly`,
  `ChainTree.ZeroLeafForgets`.
- `encode.py:264-268` speaks of skipping the pure boolean pattern; the guard skips more:
  `SkipGuard.SkipLosesConstraint`. Soundness is not affected, and which constraints are lost
  shows in their coefficients: `SkipGuard.HarmlessExactly`.

## Model

| member | source | states |
|---|---|---|
| `R1cs.LcEval` | security-fv/witness/differential.py:44-45 | the loop computes the residue of the combination's integer value, whatever the order of the dictionary |
| `R1cs.R1csOk` | security-fv/witness/differential.py:48-53 | counts the violated constraints; zero exactly for the witnesses of the system |
| `Formulas.Signed` | security-fv/tools/encode.py:26-28 | the signed residue is congruent to the coefficient and lies in the symmetric range around zero |
| `Formulas.QuotientRange` | security-fv/tools/encode.py:228-229 | a value within its bounds is a multiple of P exactly when it is P times some integer between the computed ceiling and floor |
| `Formulas.LinZero` | security-fv/tools/encode.py:214-233 | for every assignment within the wire intervals the formula, of whichever shape, holds if and only if the combination is 0 mod P |
| `Encoder.Model.Find` | security-fv/tools/encode.py:83-87 | path halving returns the class representative and leaves every class unchanged |
| `Encoder.Model.Norm` | security-fv/tools/encode.py:89-101 | the normalised combination has nonzero residues on open representatives only and the same value under every witness that respects the classes |
| `Classes.NormalUnique` | security-fv/tools/encode.py:89-101 | a combination has only one such form, so that the order of the dictionary does not matter |
| `LinComb.ScaleMinus` | security-fv/tools/encode.py:113-118 | k*Y - C entry by entry, reduced and without zeros, and of that value under every witness |
| `Encoder.SolveOne` | security-fv/tools/encode.py:120-124 | a one-wire equation forces exactly the recorded constant (prime P) |
| `Encoder.SolveTwo` | security-fv/tools/encode.py:125-129 | opposite coefficients and no constant force two wires to be equal (prime P) |
| `Encoder.Model.Absorb` | security-fv/tools/encode.py:110-130 | a constant-factor constraint only adds facts every solution has; it changes nothing exactly if its equation neither has a single wire nor makes two wires equal, and each change strictly shrinks the set of undetermined classes |
| `Encoder.Model.Merge` | security-fv/tools/encode.py:125-129 | two different open representatives are linked; one class disappears and nothing true is lost |
| `Encoder.Model.Build` | security-fv/tools/encode.py:103-145 | the loop ends at a fixpoint: no normal form with a constant factor still fixes a wire or makes two equal; the normalised system consists of the normal forms with the wires of their origins, the flag says whether one cannot hold; and a witness satisfies the original constraints if and only if it respects the classes and constants, satisfies the normalised system and the flag is not set |
| `Encoder.Model.Normalise` | security-fv/tools/encode.py:131-145 | what is kept is exactly the normal forms that are not constant, each with the wires of its original constraint |
| `Encoder.NormalisedSystem` | security-fv/tools/encode.py:103-145 | from implied classes to the full equivalence, and from the last pass to the fixpoint |
| `Encoding.BitConstraint` | security-fv/tools/encode.py:163-172 | under a prime P a constraint of the detected form holds if and only if the wire is 0 or 1 (Euclid's lemma) |
| `Encoder.Model.Select` | security-fv/tools/encode.py:155-172 | keeps exactly the constraints touching the support; the detected boolean wires are those some kept constraint forces to be bits |
| `Encoder.KeptMembers` | security-fv/tools/encode.py:155-161 | a slice has exactly the constraints whose original mentions a wire of the support |
| `Encoding.SplitOnBit` | security-fv/tools/encode.py:272-288 | the case split on a boolean factor is equivalent to the constraint |
| `Encoding.EncodeConstraint` | security-fv/tools/encode.py:251-304 | each branch emits formulas equivalent to the constraint for assignments in range with mul read as product; nothing is emitted exactly for skipped constraints, and the listed applications of mul are exactly those that occur |
| `Encoding.ProductInRange` | security-fv/tools/encode.py:307-314 | the range axiom of the multiplication atom is true of the integer product |
| `Encoder.Model.Encode` | security-fv/tools/encode.py:242-305 | the emitted list holds exactly when the boolean wires carry bits, no contradiction was recorded and every non-skipped selected constraint holds; the recorded applications of mul are exactly those in the formulas, so that each gets its axiom |
| `Encoder.EncodingSound` | security-fv/tools/encode.py:242-305 | every witness of the selected constraints satisfies every emitted formula |
| `SkipGuard.HarmlessExactly` | security-fv/tools/encode.py:264-268 | a skipped constraint follows from the booleanity of its wire if and only if the products of its two factors at 0 and at 1, read off the coefficients, vanish mod P |
| `SkipGuard.HarmlessIsBit` | security-fv/tools/encode.py:164-172 | among products over one wire the harmless ones are exactly those recognised as booleanity: the pattern is neither wider nor narrower than it should be |
| `SkipGuard.EncodingExact` | security-fv/tools/encode.py:242-305 | an assignment that satisfies the formulas satisfies the selected constraints if and only if every skipped one's coefficients vanish at the bit it carries |
| `SkipGuard.EncodingComplete` | security-fv/tools/encode.py:155-172 | for any system and slice: if every skipped constraint passes the coefficient test, whatever the formulas admit satisfies the slice |
| `SkipGuard.CompleteExactly` | security-fv/tools/encode.py:264-268 | next to the booleanity of its wire a skipped constraint survives encoding if and only if it passes the test, so the test cannot be weakened |
| `SkipGuard.SolutionsExactly` | security-fv/tools/encode.py:103-305 | if no harmful constraint is skipped, the solutions of the original system are exactly the assignments that respect the classes and satisfy the formulas |
| `SkipGuard.SkipLosesConstraint` | security-fv/tools/encode.py:242-305 | the compiler run on v*(v-1)=0 and v*(v+1)=0 emits formulas that v=1 satisfies, an assignment that respects the classes and violates the second equation |
| `Encoder.RepExprsRead` | security-fv/tools/encode.py:175-184 | an assignment gives every wire the value of its solver expression if and only if it respects the classes and constants: those are the assignments a query ranges over |
| `Encoder.Model.RepExpr` | security-fv/tools/encode.py:175-184 | the expression of a wire is its constant or the variable of its class |
| `HashModel.AxiomsExactly` | security-fv/tools/encode.py:198-207 | the inverse and tag axioms of the circuit's calls can be satisfied for a given hash if and only if these calls do not collide |
| `Audit.RefutationIsProof` | security-fv/tools/encode.py:155-157 | if no assignment that respects the classes satisfies the formulas, the mul and hash axioms, true assumptions and the negated claim, then every solution of the original system satisfies the claim or exhibits a hash collision, for any support slice |
| `Audit.MergedWires` | security-fv/tools/encode.py:125-129 | where substitution leaves nothing to emit, the claim that two merged wires are equal is refuted and proved |
| `Audit.Compile` | security-fv/tools/audit_circuit.py:46-54 | building a model and encoding any slice of it yields formulas, applications and classes for which every refutation proves its claim |
| `Audit.RunClauses` | security-fv/tools/audit_circuit.py:42-71 | a clause is reported as proved exactly if the solver refutes its query, made of its own slice, its formula and the assumed clauses proved before; with a truthful solver it is then true of all solutions without a collision |
| `BitSums.DecompositionUnique` | security-fv/tools/determinism.py:53-62 | two bit vectors under doubling weights of one sign with equal sums mod P are equal, for up to 253 bits |
| `Determinism.BitRuleDecided` | security-fv/tools/determinism.py:56-61 | sorting by absolute weight and testing for doubling decides whether a binary decomposition exists |
| `Determinism.DecompositionTest` | security-fv/tools/determinism.py:55-61 | the test succeeds if and only if the unknown wires are boolean and form a decomposition |
| `Determinism.LearnSound` | security-fv/tools/determinism.py:37-62 | each rule that fires determines the wires it adds: two solutions that agree on the known wires agree on them |
| `Determinism.Learn` | security-fv/tools/determinism.py:37-62 | one constraint learns something if and only if one of the rules applies to it |
| `Determinism.NoRuleMeans` | security-fv/tools/determinism.py:42-62 | where no rule applies, a product with known factors has no single unknown and no unknown bits with powers of two, and an equation with a nonzero constant factor and a known right side no single unknown |
| `Determinism.Pass` | security-fv/tools/determinism.py:37-62 | a pass keeps determination and either learns a wire or proves that no rule applies anywhere |
| `Determinism.Propagate` | security-fv/tools/determinism.py:29-63 | any two solutions that agree on the start agree on every returned wire; on return no rule applies; the loop terminates |
| `Uniqueness.AddOutputs` | security-fv/tools/determinism.py:108-110 | hash outputs whose inputs are known are determined under any functional hash |
| `Uniqueness.KnownWires` | security-fv/tools/determinism.py:105-113 | the outer loop keeps determination, terminates, and ends closed under both the rules and the hash outputs |
| `Uniqueness.BoolWires` | security-fv/tools/determinism.py:100-103 | mapping the boolean wires through find keeps exactly the wires of boolean classes |
| `Uniqueness.CircuitBools` | security-fv/tools/determinism.py:100-103 | the wires counted as boolean are exactly those whose class a normalised constraint forces to be a bit, after substitution has gone to its fixpoint, and each carries a bit in every solution of the raw system |
| `Uniqueness.NormAllSat` | security-fv/tools/determinism.py:66-67 | reducing all coefficients and dropping zeros keeps every solution |
| `Uniqueness.AnalysisSound` | security-fv/tools/determinism.py:97-113 | determination of the reduced system with its boolean side facts is uniqueness for the circuit itself |
| `Uniqueness.UniqueByPropagation` | security-fv/tools/determinism.py:96-116 | end to end: all solutions of a circuit that share their inputs and obey one hash function share every wire reported unique; and what is reported is closed under the rules, with exactly the circuit's boolean wires, and under the hash calls |
| `TwoCopies.QueryIsProof` | security-fv/tools/determinism.py:117-141 | if two copies that share the known wires cannot differ on a remaining one, any two solutions that share their inputs agree on known and remaining wires or collide in a hash call |
| `TwoCopies.AllWiresUnique` | security-fv/tools/determinism.py:96-147 | the verdict is positive exactly if propagation leaves no wire open or the solver refutes the query about those left; with a truthful solver every wire of the system is then a function of the inputs, up to a collision among the circuit's own hash calls |
| `Merkle.PathFolds` | security-fv/tools/specs.py:44-48 | completeness: the fold of a sibling path reaches the ancestor at every height |
| `Merkle.FoldBinds` | security-fv/tools/specs.py:44-51 | binding: with an injective hash any path that folds to a node starts from the leaf stored at the position its bits spell |
| `Merkle.RootBinds` | security-fv/tools/specs.py:44-51 | the same for the root of the 32-level tree |
| `Merkle.NodeAppend` | packages/backend/proof-relay/src/merkleTree.ts:108-123 | an append changes only the nodes on the new leaf's path |
| `Merkle.RootChanges` | packages/backend/proof-relay/src/merkleTree.ts:108-123 | appending nonzero leaves always changes the root |
| `NodeMap.AppendRepresents` | packages/backend/proof-relay/src/merkleTree.ts:108-123 | for an index below 2^31 the one-path update turns a faithful node map into a faithful one for the longer list |
| `NodeMap.AppendRootExact` | packages/backend/proof-relay/src/merkleTree.ts:115 | with 32-bit shifts the computed root is the true one if and only if the index is below 2^31 |
| `NodeMap.ServedIsPath` | packages/backend/proof-relay/src/merkleTree.ts:129-139 | siblings and bits read from a faithful map are the true path of the index |
| `MerkleCache.CachedMerkleTree.Append` | packages/backend/proof-relay/src/merkleTree.ts:109-123 | the climbing loop performs exactly the path update and records the leaf's index |
| `MerkleCache.CachedMerkleTree.ProofForIndex` | packages/backend/proof-relay/src/merkleTree.ts:129-139 | the loop reads exactly the path of the index and the current root |
| `MerkleCache.CachedMerkleTree.ProofFor` | packages/backend/proof-relay/src/merkleTree.ts:142-146 | a proof is served exactly when a catch-up has completed, the tree has not diverged and the leaf is present; it is for the last occurrence, folds to its root, and that root is the one the chain emitted with the newest cached leaf |
| `MerkleCache.CachedMerkleTree.LoadFromDb` | packages/backend/proof-relay/src/merkleTree.ts:156-172 | contiguous rows and their cursor are loaded as they are, a gap empties cache and tables; the result is always a prefix of the chain, and misses no leaf up to its cursor if and only if the rows have a gap, or are none, or miss none up to the stored cursor |
| `MerkleCache.CachedMerkleTree.Ingest` | packages/backend/proof-relay/src/merkleTree.ts:213-234 | old logs are skipped, a gap resets, a wrong root stops; what is stored stays true |
| `MerkleCache.CachedMerkleTree.IngestAll` | packages/backend/proof-relay/src/merkleTree.ts:205-234 | a complete window of true logs never stops the scan and leaves no log of the window out |
| `MerkleCache.CachedMerkleTree.ScanWindow` | packages/backend/proof-relay/src/merkleTree.ts:191-243 | one window: rows first, cursor after; covered logs stay covered at every write |
| `MerkleCache.CachedMerkleTree.Sync` | packages/backend/proof-relay/src/merkleTree.ts:184-244 | whatever a truthful source omits, cache and every state of the tables stay a prefix of the chain, and only leaves three blocks deep are added; it throws only if a request does; a source that omits nothing brings the cache, in memory and on disk, exactly to the confirmed head without losing a log |
| `MerkleCache.CachedMerkleTree.CatchUp` | packages/backend/proof-relay/src/merkleTree.ts:283-288 | resuming from any prefix of the chain the cache is again a prefix; with complete windows it reaches the head without losing a leaf whenever the stored state passes the test of LoadFromDb, and from a covered state every state it stores is covered |
| `MerkleCache.StartAfterCrashes` | packages/backend/proof-relay/src/merkleTree.ts:156-243 | over any sequence of starts and crashes at any write the tables stay a prefix of the chain; if no source omits a log, no crash ever leaves a cursor past a missing leaf, and the next uninterrupted start reaches the head without a loss |
| `MerkleCache.CrashInsideReset` | packages/backend/proof-relay/src/merkleTree.ts:148-154 | the reset can break that test: a crash between its two statements, and another after the first leaf is stored again, leave a state from which a start resumes at the old cursor with one leaf |
| `MerkleRebuild.BuildZeros` | packages/backend/proof-relay/src/merkle.ts:17-25 | entry k is the root of the empty subtree of height k |
| `MerkleRebuild.NextLayer` | packages/backend/proof-relay/src/merkle.ts:245-253 | one layer-by-layer step yields the next level of the padded tree |
| `MerkleRebuild.ComputeMerkleProof` | packages/backend/proof-relay/src/merkle.ts:225-266 | the rebuild returns the first occurrence's path and the root of the padded tree, or nothing if the leaf is absent |
| `MerkleRebuild.ProofsAgree` | packages/backend/proof-relay/src/merkleTree.ts:142-146 | cache and rebuild return the same proof if and only if the leaf occurs once; otherwise one answers with the last and one with the first position |
| `ChainTree.CommitmentTree.Insert` | packages/contracts/src/CommitmentMerkleTree.sol:101-138 | for every commitment the contract's filled-subtree insertion computes the root of the extended tree, reverts exactly when full, and rolls the root window |
| `ChainTree.CommitmentTree.IsKnownRoot` | packages/contracts/src/CommitmentMerkleTree.sol:141-144 | a root is known if and only if it is nonzero, among the last window of roots, and not forgotten with an equal root that has just left it; with nonzero commitments, if and only if it is nonzero and in the window |
| `ChainTree.WindowExactly` | packages/contracts/src/CommitmentMerkleTree.sol:121-135 | the remembered roots are exactly the window's if and only if the window is not full, or the leaf that has just left it was not zero, or the root has not changed since |
| `ChainTree.ZeroLeafForgets` | packages/contracts/src/CommitmentMerkleTree.sol:127-131 | the failing input: after a zero leaf and another, the root of the empty tree is in a window of two and forgotten |
| `VaultProofs.KnownRootsExact` | packages/contracts/src/Vault.sol:333-344 | after every run of the vault no leaf is zero, so the tree knows exactly the roots of its window |
| `ChainTree.CommitmentTree.RollWindow` | packages/contracts/src/CommitmentMerkleTree.sol:121-135 | ring and mapping stay in step for every commitment: the ring holds the window, and the mapping exactly the remembered roots |
| `ChainTree.RootsDistinct` | packages/contracts/src/CommitmentMerkleTree.sol:121-131 | no two prefixes of nonzero leaves share a root, so that then eviction never forgets a root still in the window |
| `Shares.WrapFree` | security-fv/tools/specs.py:90-98 | with 64-bit inputs and a field of at least 2^128 the modular identity with remainder below price holds if and only if shares and remainder are quotient and remainder |
| `Shares.FieldFormIsIntegerForm` | security-fv/tools/specs.py:78-101 | the modular clauses of a bet are equivalent to the integer specification, quotient clause included |
| `Shares.SmallFieldWraps` | security-fv/tools/specs.py:92-96 | the field bound is needed: in a small field the identity wraps |
| `Shares.LiveCreditIsCredit` | security-fv/tools/specs.py:132-150 | every witness of the deployed credit circuits satisfies the present credit clauses with the preceding nonce as bet nonce, and conversely |
| `IdealHash.IdealExists` | security-fv/tools/specs.py:44-51 | the assumptions on the hash are satisfiable |
| `VaultProofs.SpentNote` | security-fv/tools/specs.py:64-75 | the note an accepted witness opens is a note recorded in the tree |
| `VaultProofs.ReplaceStep` | packages/contracts/src/Vault.sol:341-344 | spending a note and inserting its successor changes the live total by at most the difference of the balances |
| `VaultProofs.MarkAllSpends` | packages/contracts/src/VaultLogic.sol:342-364 | marking the published nullifiers one by one removes at least the sum of the active balances, even if slots repeat |
| `VaultRuns.MarkAllExact` | packages/contracts/src/NullifierRegistry.sol:38-41 | sequential marking succeeds exactly when the nonzero nullifiers are unspent and pairwise different |
| `VaultProofs.DepositInv` | packages/contracts/src/Vault.sol:471-484 | a deposit keeps the invariant: leaves commit to in-range notes of depositors, bets are keyed by spent nullifiers, claims do not exceed what came in |
| `VaultProofs.BetInv` | packages/contracts/src/Vault.sol:493-555 | a bet keeps the invariant: stake, provisional fee and relay fee come out of the note |
| `VaultProofs.WithdrawInv` | packages/contracts/src/Vault.sol:712-743 | a withdrawal keeps the invariant, and its recipient is the note's owner and has deposited |
| `VaultProofs.SettleInv` | packages/contracts/src/VaultLogic.sol:122-159 | a settlement keeps the invariant |
| `VaultProofs.CancelInv` | packages/contracts/src/VaultLogic.sol:161-193 | a cancellation, which returns stake and provisional fee, keeps the invariant |
| `VaultProofs.NACancelInv` | packages/contracts/src/VaultLogic.sol:195-239 | a void-market refund keeps the invariant |
| `VaultProofs.CloseInv` | packages/contracts/src/VaultLogic.sol:243-282 | a full or partial close keeps the invariant |
| `VaultProofs.PartialInv` | packages/contracts/src/VaultLogic.sol:286-338 | a partial fill, with its rounded fee split and normalised record, keeps the invariant; VaultHistory.StateIsHistory says what the record is |
| `VaultProofs.ConsolidateInv` | packages/contracts/src/VaultLogic.sol:342-364 | a merge keeps the invariant, whatever the slots contain |
| `VaultProofs.RunInv` | packages/contracts/src/Vault.sol:471-868 | the invariant (leaves commit to in-range notes of depositors, bets are keyed by spent nullifiers, claims are covered) holds after every run of all eleven operations |
| `VaultProofs.Solvent` | packages/contracts/src/Vault.sol:471-868 | over every run, paid out + fees + stakes + balances of unspent notes never exceed deposits + trading income, and no balance or nonce leaves 64 bits |
| `VaultLedger.HeldSpend` | packages/contracts/src/Vault.sol:341-344 | spending a note takes exactly its own balance out of what was never spent, whatever other notes share its nullifier |
| `VaultLedger.OpenAllHeld` | packages/contracts/src/VaultLogic.sol:342-364 | sequential marking takes exactly the sum of the active balances |
| `VaultLedger.StepAccounted` | packages/contracts/src/Vault.sol:471-868 | every operation, for any secrets, keeps the account of never-spent notes, stakes in the market, fees and payments equal to what came in |
| `VaultLedger.Conservation` | packages/contracts/src/Vault.sol:471-868 | over every run, deposits plus trading income equal, to the unit, unspent notes + stakes that went to the market + fees + what was paid out + the stranded balances; the last are absent if and only if no note of positive balance is stranded |
| `VaultLineage.SuccessorIsNew` | security-fv/tools/specs.py:64-75 | the successor of an unspent note is not in the tree and not spent |
| `VaultLineage.StepLinear` | packages/contracts/src/Vault.sol:471-868 | every operation keeps all nullifiers different, a deposit if and only if its secret is new |
| `VaultLineage.FreshExactly` | packages/contracts/src/Vault.sol:471-868 | over every run all notes have nullifiers of their own if and only if no successful deposit repeats a secret |
| `VaultLineage.FreshConservation` | packages/contracts/src/Vault.sol:471-868 | in such a run nothing is stranded, and the ledger is exact without a remainder |
| `VaultLineage.RepeatedSecretStrands` | packages/contracts/src/Vault.sol:410-415 | the run deposit, withdraw, deposit again with one secret: the second amount was paid, nobody can claim it, and the ledger without it does not balance |
| `VaultRuns.NoDoubleSpend` | packages/contracts/src/Vault.sol:333-344 | no two successful calls of a run consume a common nullifier |
| `VaultRuns.CreditPays` | packages/contracts/src/VaultLogic.sol:122-338 | a successful credit leaves the bet paid if and only if it is a settlement, a cancellation, a void refund or a close of all shares |
| `VaultRuns.NoDoublePayout` | packages/contracts/src/VaultLogic.sol:122-338 | after one of these four succeeded, every later credit on the same bet reverts, over every run |
| `VaultRuns.FilledOnlyBy` | packages/contracts/src/Vault.sol:833-837 | a record becomes FILLED exactly by a partial fill or by a close that leaves shares; the comment names only the first |
| `VaultHistory.StateIsHistory` | packages/contracts/src/Vault.sol:471-868 | over every run, the stake, shares, sales, proceeds, status and held fee of every bet, the operator's fees, what was paid out and each owner's deposits are what the list of accepted calls says, read without any state |
| `VaultHistory.SettleExactly` | packages/contracts/src/VaultLogic.sol:122-159 | a settlement is accepted exactly on a resolved market for a bet filled or attested so, for the payout of the shares bought and not sold |
| `VaultHistory.CancelExactly` | packages/contracts/src/VaultLogic.sol:161-193 | a cancellation is accepted exactly for a failed bet, for its stake and provisional fee |
| `VaultHistory.NACancelExactly` | packages/contracts/src/VaultLogic.sol:195-239 | a void refund is accepted exactly for an unsold bet, for its stake without the fee |
| `VaultHistory.CloseExactly` | packages/contracts/src/VaultLogic.sol:243-282 | a close is accepted exactly for more shares than the last one on an open market, for what its proceeds exceed those of the last one |
| `VaultHistory.PartialExactly` | packages/contracts/src/VaultLogic.sol:286-338 | a partial fill is accepted exactly within the bounds of an active bet, for the unspent stake and its share of the fee |
| `VaultHistory.PartialThenSettle` | packages/contracts/src/VaultLogic.sol:286-338 | over every run, a settlement that follows a partial fill pays for the filled shares less those sold meanwhile |
| `VaultHistory.InsertsPublished` | packages/contracts/src/Vault.sol:341-344 | each call adds exactly the commitment it publishes to the tree |
| `VaultHistory.DepositExactly` | packages/contracts/src/Vault.sol:471-484 | a deposit is accepted exactly within the owner's cap over all deposits so far |
| `VaultHistory.BetExactly` | packages/contracts/src/Vault.sol:493-555 | a bet is accepted exactly for its fee in basis points plus the relay fee, and buys the shares of its stake at its price, rounded down |
| `VaultHistory.WithdrawExactly` | packages/contracts/src/Vault.sol:712-743 | a withdrawal is accepted exactly for the owner above the minimum and the fee, and leaves no note exactly if it takes all |
| `VaultRuns.SoldGrows` | packages/contracts/src/VaultLogic.sol:243-282 | no call lowers a bet's recorded sales, and a close raises them to the attested ones |
| `VaultRuns.AttestationClosesOnce` | packages/contracts/src/VaultLogic.sol:262-278 | over every run, after a close with some attested sale every later close of the bet with that or a smaller one reverts |
| `Closing.RemainderNeverCloses` | packages/backend/signing-layer/src/orderBuilder.ts:874-879 | over every run of outcome store and vault: after one close with the stored sale no later close with what the store holds succeeds, so the rest of a partly closed position cannot be closed this way |
| `VaultRuns.CreditGoesToBettor` | security-fv/tools/specs.py:116-129 | every credit of every run lands on the lineage whose earlier note paid for the bet |
| `VaultRuns.WithdrawalPaysOwner` | packages/contracts/src/Vault.sol:729-730 | a withdrawal pays the owner bound in a recorded note, who has deposited |
| `Clients.BuildConsolidate` | packages/frontend/src/lib/consolidate.ts:47-108 | two to four notes give the padded witness with exact sum and nonce; any other count is an error |
| `Clients.ConsolidateSatisfies` | packages/frontend/src/lib/consolidate.ts:67-108 | for well-formed notes and honest paths every consolidate clause holds if and only if all paths carry one root and sum and nonce do not overflow |
| `Clients.ConsolidateNeedsOneSnapshot` | packages/frontend/src/lib/consolidate.ts:60-68 | paths fetched one after the other satisfy the circuit if and only if the tree did not grow in between (and nothing overflows) |
| `Clients.MergeAccepted` | packages/contracts/src/VaultLogic.sol:342-364 | with current paths the vault accepts the merge exactly when the notes are unspent and different; the new leaf holds their sum in the first lineage |
| `Clients.CreditSatisfies` | packages/frontend/src/lib/finalizeClose.ts:65-103 | the credit witness satisfies every clause if and only if the bet's nonce precedes the free note's and nothing overflows |
| `Clients.ForeignReceiptFails` | packages/frontend/src/lib/finalizeClose.ts:65-71 | a free note of another deposit can never credit the receipt |
| `Clients.CreditAccepted` | packages/frontend/src/lib/finalizeClose.ts:73-109 | the step that all credits share (spend, insert, verify) is accepted under exactly those conditions |
| `Clients.SettleAccepted` | packages/frontend/src/lib/settlePosition.ts:55-108 | a claim is accepted if and only if the market is resolved, the bet filled or attested so, and the amount the payout of the shares still held, under the conditions of every credit (in the modelled state: signatures, pausing and market ids are further conditions of the contract, so only necessity carries over to it) |
| `Clients.ReclaimAccepted` | packages/frontend/src/lib/cancelAndReclaim.ts:111-155 | the refund the client computes is the one the vault demands; acceptance is characterised exactly (in the modelled state: signatures, pausing and market ids are further conditions of the contract, so only necessity carries over to it) |
| `Clients.PartialAccepted` | packages/frontend/src/lib/finalizePartial.ts:55-93 | the client's floor arithmetic equals the vault's; acceptance is characterised exactly (in the modelled state: signatures, pausing and market ids are further conditions of the contract, so only necessity carries over to it) |
| `Clients.CloseAccepted` | packages/frontend/src/lib/finalizeClose.ts:73-109 | the client credits the cumulative proceeds: a close is accepted if and only if the market is unresolved, the position open with more shares sold than recorded, no proceeds credited before, and the credit's own conditions hold (in the modelled state: signatures, pausing and market ids are further conditions of the contract, so only necessity carries over to it) |
| `Clients.ServedPathFits` | packages/backend/proof-relay/src/merkleTree.ts:129-146 | a proof served by the cache is a valid path input for the circuits |
| `Clients.ServedRootExpires` | packages/contracts/src/CommitmentMerkleTree.sol:119-144 | a root stays acceptable for exactly the next 1023 insertions |
| `Clients.FreeNoteFor` | packages/frontend/src/lib/notes.ts:392-396 | returns a spendable note of the deposit with the highest nonce, or nothing exactly when there is none |
| `Clients.MarkedEachCash` | packages/frontend/src/lib/consolidate.ts:125-126 | marking the inputs spends exactly them and lowers the cash by their sum |
| `Clients.Wallet.MarkNoteSpent` | packages/frontend/src/lib/notes.ts:1578-1586 | only the first note with the commitment, or with it as its id, changes |
| `Clients.Wallet.AfterConsolidate` | packages/frontend/src/lib/consolidate.ts:125-143 | after a merge the wallet's cash is unchanged and the new note is well formed in slot 0's lineage |
| `LogScan.GetLogsChunked` | packages/backend/proof-relay/src/merkle.ts:163-191 | a scan that returns has every log of the range once, in order, for any pattern of refused ranges; at most one request per block plus one per halving; it fails only on a rate limit or a single refused block |
| `LogScan.PageThrough` | packages/backend/signing-layer/src/logScan.ts:78-95 | the loop makes the requests of the reference scan, fails as it fails, and returns exactly the range's logs |
| `LogScan.ScanCauses` | packages/backend/proof-relay/src/merkle.ts:180-188 | a scan fails only on a rate limit inside its range or on a single block that the node cannot serve |
| `LogScan.ScanEconomical` | packages/backend/proof-relay/src/merkle.ts:176-190 | if the node accepts ranges up to some limit the scan returns, its span never falls below half the limit, and it needs at most one request for each so many blocks and one for each halving |
| `LogScan.ScanServed` | packages/backend/proof-relay/src/merkle.ts:163-191 | a node that serves everything is asked exactly once for each span of blocks |
| `LogScan.QueryFilterChunked` | packages/backend/signing-layer/src/logScan.ts:70-96 | the same contents, request bound and causes of failure from the clamped start block |
| `LogScan.CombinedScanAgrees` | packages/backend/proof-relay/src/merkle.ts:144-161 | filtering one combined scan gives the same logs as scanning the one contract |
| `LogScan.OrderUnique` | packages/backend/proof-relay/src/eventIndex.ts:129-137 | an ordered answer is determined by its members |
| `EventIndex.VaultEventIndex.constructor` | packages/backend/proof-relay/src/eventIndex.ts:88-121 | a start on any correct tables is valid |
| `EventIndex.StartAfterCrashes` | packages/backend/proof-relay/src/eventIndex.ts:88-210 | over any sequence of starts and crashes at any commit the tables stay correct, the next start is valid, and if it is not interrupted it reaches the confirmed head |
| `EventIndex.VaultEventIndex.InsertRows` | packages/backend/proof-relay/src/eventIndex.ts:181-204 | the transaction ignores existing keys, keeps every old row and adds exactly the new keys |
| `EventIndex.VaultEventIndex.IndexWindow` | packages/backend/proof-relay/src/eventIndex.ts:164-208 | rows, then cursor: the disk is correct before, between and after the two writes, has exactly the window's rows more, and its cursor is the end of the window |
| `EventIndex.VaultEventIndex.Sync` | packages/backend/proof-relay/src/eventIndex.ts:158-210 | at every write the disk holds true rows and every event up to the cursor; a sync throws only if the node refuses a window, and otherwise ends exactly three blocks behind the head, in memory and on disk |
| `EventIndex.VaultEventIndex.BetAuthorizedEvents` | packages/backend/proof-relay/src/eventIndex.ts:129-137 | up to the head the answer is exactly the chain's bets of the range, once each and oldest first; beyond it nothing is invented |
| `EventIndex.VaultEventIndex.RecoveryData` | packages/backend/proof-relay/src/eventIndex.ts:214-223 | a wallet's deposits and all other events, in order, complete up to the head and only true ones |
| `EventListener.IndexIsHonest` | packages/backend/signing-layer/src/vaultEventSource.ts:134-150 | answers given from true tables that are complete up to the head read before contain every bet of a range up to it |
| `EventListener.AskIndex` | packages/backend/proof-relay/src/api.ts:613-621 | a request to the event index in any valid state at or after that head is answered so |
| `EventListener.Listener.HandleBetRecord` | packages/backend/signing-layer/src/eventListener.ts:182-223 | at most one submission per bet and process; exactly when no check stops it |
| `EventListener.Listener.FetchBets` | packages/backend/signing-layer/src/vaultEventSource.ts:134-150 | the index's answer if it is preferred and answers, else exactly the chain's bets of the window; nothing only if the node refuses it |
| `EventListener.Listener.ScanFrom` | packages/backend/signing-layer/src/eventListener.ts:242-258 | the start is a hundred blocks before the cursor, clamped to the head and the deploy block, and everything below it has been handled |
| `EventListener.Listener.CatchUp` | packages/backend/signing-layer/src/eventListener.ts:230-277 | every cursor ever saved has all bets from the deploy block up to it handled, over any mix of sources, failures and head regressions; a scan fails only without a head or on a window that neither source has, and otherwise it has looked at every bet from its start to the head, where it leaves the cursor; a deep sweep does so without moving it |
| `ListenerGuard.NoDoubleSubmission` | packages/backend/signing-layer/src/eventListener.ts:293-302 | with the scanning guard no interleaving of scans submits a bet twice |
| `ListenerGuard.ScanTakesBet` | packages/backend/signing-layer/src/eventListener.ts:182-223 | a guarded scan takes its bets one by one and submits each that is open, found and not in flight |
| `ListenerGuard.ScanEnds` | packages/backend/signing-layer/src/eventListener.ts:293-302 | a scan that ends lets the next one start |
| `ListenerGuard.UnguardedDoubles` | packages/backend/signing-layer/src/eventListener.ts:194-207 | without it the check-then-await lets two scans submit the same bet |
| `Attestations.AttestationStore.SignAndStore` | packages/backend/signing-layer/src/attestationStore.ts:151-206 | on any table an atomic call returns a stored row, changes none, and adds no second outcome to a bet; unless an outcome is there, a signature stores and returns the amounts that were signed, in their order, in the slot of their type and nowhere else |
| `Attestations.FinishStores` | packages/backend/signing-layer/src/attestationStore.ts:179-197 | of interleaved calls only a signature that arrives stores anything, and it stores what its call asked to have signed |
| `Attestations.SlotWriteOnce` | packages/backend/signing-layer/src/attestationStore.ts:180-197 | over every interleaving a stored (bet, type) row never changes |
| `Attestations.OneOutcomeExactly` | packages/backend/signing-layer/src/attestationStore.ts:151-206 | over every interleaving a bet has at most one of FILLED, FAILED and PARTIAL if and only if no signature arrives for an outcome after a different outcome of the bet was stored |
| `Attestations.SerialCallsOneOutcome` | packages/backend/signing-layer/src/attestationStore.ts:156-165 | a discipline of the callers that suffices: outcome calls of one bet do not overlap; SOLD coexists |
| `Attestations.OverlapStoresTwoOutcomes` | packages/backend/signing-layer/src/attestationStore.ts:156-178 | two overlapping calls leave a bet both FILLED and FAILED |
| `Attestations.AtomicCall` | packages/backend/signing-layer/src/attestationStore.ts:151-206 | a call that nothing interleaves with is the atomic call |
| `FillTracker.TrackerSignsOneOutcome` | packages/backend/signing-layer/src/wsFillTracker.ts:574-610 | over every run with crashes, restarts and repeated reports the tracker alone signs at most one outcome per bet |
| `FillTracker.SignedStores` | packages/backend/signing-layer/src/wsFillTracker.ts:595-607 | in every step of the tracker or of another writer the outcomes change only by a signature, and then by what was asked to be signed |
| `FillTracker.BuyAttested` | packages/backend/signing-layer/src/wsFillTracker.ts:574-610 | a waiting buy ends FAILED without a fill, FILLED if at most a hundredth share is missing, else PARTIAL with its fill and what it spent of the stake, the taker fee included; then the order is forgotten in memory and on disk |
| `FillTracker.SaleAttested` | packages/backend/signing-layer/src/wsFillTracker.ts:585-610 | a waiting sale ends SOLD with its shares, rounded up within the dust, and its proceeds less the taker fee; without a fill nothing is attested and the order is let go |
| `FillTracker.TrackedWaits` | packages/backend/signing-layer/src/wsFillTracker.ts:267-275 | an accepted order waits from the call on, in memory and on disk |
| `FillTracker.RestartResumes` | packages/backend/signing-layer/src/wsFillTracker.ts:228-251 | after a restart every persisted order waits again, unless its outcome is known, in which case its row is gone |
| `FillTracker.OneOutcomeAmongWriters` | packages/backend/signing-layer/src/attestationStore.ts:156-165 | with any other writers of the outcome table in the run a bet ends with at most one outcome if and only if no signature, the tracker's or theirs, arrives after a different outcome was stored |
| `FillTracker.SigningHidesOrder` | packages/backend/signing-layer/src/wsFillTracker.ts:288-291 | while the tracker waits for a signature a cancellation takes the bet for one never placed, exactly as long as no outcome is stored |
| `FillTracker.CancelDuringSigning` | packages/backend/signing-layer/src/autoSettlement.ts:244-297 | so a filled order whose bet is cancelled in that window ends FILLED and FAILED |
| `FillTracker.DurableStep` | packages/backend/signing-layer/src/wsFillTracker.ts:120-144 | a bet's durability is lost in a step exactly when a sale takes over the row of a bet without outcome, or such a row is dropped |
| `FillTracker.DurableExactly` | packages/backend/signing-layer/src/wsFillTracker.ts:120-144 | over every run a durable bet stays so at every later point if and only if none of its two losing steps occurs |
| `FillTracker.AcceptedStaysDurable` | packages/backend/signing-layer/src/wsFillTracker.ts:228-275 | every accepted buy is, at every later point of a run in which this bet's own signing succeeds or finds an outcome and its sales follow the outcome, still persisted or attested |
| `FillTracker.SigningFailureLoses` | packages/backend/signing-layer/src/wsFillTracker.ts:585-610 | the signing condition is needed: a failed signature is swallowed and the row dropped |
| `FillTracker.SaleOverwritesBuy` | packages/backend/signing-layer/src/wsFillTracker.ts:120-140 | the sale condition is needed: the row is keyed by the bet alone, and only the caller guards it (orderBuilder.ts:997) |
| `FillTracker.TrackerProcess.StartFillTracker` | packages/backend/signing-layer/src/wsFillTracker.ts:228-251 | the boot loop drops attested rows and resumes the others |
| `FillTracker.TrackerProcess.TrackOrder` | packages/backend/signing-layer/src/wsFillTracker.ts:267-275 | an accepted buy is durable from the call on; a finalized or attested one changes nothing |
| `FillTracker.TrackerProcess.BeginFinalize` | packages/backend/signing-layer/src/wsFillTracker.ts:585-606 | the bet is claimed before the first suspension; without a wallet the claim is undone |
| `FillTracker.TrackerProcess.HandleOne` | packages/backend/signing-layer/src/wsFillTracker.ts:530-583 | a message about an order still on the book attests nothing |
| `FillTracker.TrackerProcess.FinishSigning` | packages/backend/signing-layer/src/wsFillTracker.ts:595-610 | the answer of the signer writes the outcome of its own bet only; a failure leaves the order to be dropped |
| `FillTracker.TrackerProcess.Forget` | packages/backend/signing-layer/src/wsFillTracker.ts:607-610 | the end of finalize removes the order from memory and disk |
| `Money.SpentBounds` | packages/backend/signing-layer/src/orderBuilder.ts:322-326 | spent never exceeds the stake, and below the dust threshold the refund is exactly the ceiling of the unfilled part of the stake |
| `Money.SpentMonotone` | packages/backend/signing-layer/src/orderBuilder.ts:322-326 | the refund never grows with the fill |
| `Money.VerdictBounds` | packages/backend/signing-layer/src/terminalAttestation.ts:102-120 | the verdict is monotone in the fill; FAILED means exactly an empty fill and FILLED exactly that at most the dust is missing; PARTIAL states the fill and what it spent of the stake |
| `Money.SaleBounds` | packages/backend/signing-layer/src/terminalAttestation.ts:72-95 | a sale is attested exactly if something was sold, with its proceeds and its shares as they are, except that a remainder within the dust counts as sold |
| `Money.PartialMeetsVaultBounds` | packages/contracts/src/VaultLogic.sol:305-314 | a partial verdict meets the vault's bounds except, exactly, when the spent part rounds to zero |
| `Money.PartialCanRoundToZero` | packages/backend/signing-layer/src/orderBuilder.ts:324 | that exception is reachable |
| `Decimal.RoundTrip` | packages/backend/signing-layer/src/orderBuilder.ts:191-197 | parsing what was printed gives the integer back, and the output is canonical |
| `Decimal.CanonicalUnique` | packages/backend/signing-layer/src/orderBuilder.ts:191-197 | the output is the only canonical decimal of its value |
| `NonceMutex.NoncesAreConsecutive` | packages/backend/proof-relay/src/relayer.ts:49-66 | over every interleaving without reset or give-back the nonces are distinct, in call order and consecutive from the seed |
| `NonceMutex.FailureDoesNotBlock` | packages/backend/proof-relay/src/relayer.ts:59-64 | whoever is next can complete, also after a failed seed |
| `NonceMutex.ResetReseeds` | packages/backend/proof-relay/src/relayer.ts:74-76 | after a reset the next call gets the node's count, without one the counter |
| `NonceMutex.NonceManager.Reset` | packages/backend/proof-relay/src/relayer.ts:74-76 | the reset step on the manager's fields |
| `NonceMutex.GiveBacksExactly` | packages/backend/proof-relay/src/relayer.ts:68-72 | over every run without reset, at every point the outstanding nonces are without repetition and gap if and only if each call that gives its nonce back is the last one granted |
| `NonceMutex.GiveBackReissues` | packages/backend/proof-relay/src/relayer.ts:147-149 | a give-back re-issues the caller's own nonce if and only if no later call holds one; otherwise it repeats the nonce of a call that still holds it, and the caller's own is lost |
| `NonceMutex.GiveBackOutOfOrder` | packages/backend/proof-relay/src/relayer.ts:68-72 | a run in which the earlier of two calls gives back, and a third gets the second's nonce |
| `NonceMutex.NonceManager.ChainCall` | packages/backend/proof-relay/src/relayer.ts:49-52 | a call takes its place in the queue before its first suspension |
| `NonceMutex.NonceManager.Decrement` | packages/backend/proof-relay/src/relayer.ts:70-72 | the give-back step on the manager's fields |
| `NonceMutex.NonceManager.EnterSection` | packages/backend/proof-relay/src/relayer.ts:52-57 | the critical section grants the next nonce or suspends for the seed |
| `NonceMutex.NonceManager.SeedAnswer` | packages/backend/proof-relay/src/relayer.ts:52-64 | an answer seeds and grants, an error passes the lock on |

## Left out

- VaultProofs.Solvent: an inequality; `VaultLedger.Conservation` is the equality behind it, with the stranded balances as the difference. `adminSweep` (`Vault.sol:420`), by which the owner moves pool funds at will, is outside it.
- VaultRuns.NoDoublePayout: successive partial closes are meant to pay several times and are bounded by the cumulative amounts in the record.
- VaultProofs.RunInv: market ids, resolution times, the payout table, attestation signatures, pausing, timelocks and token liquidity, and the movements between vault and trading wallet (`fundPolymarketWallet`, `acknowledgePolymarketReturn`), are not in the state; a call is accepted at least whenever the contract accepts it, so what is proved holds for the contract's runs.
- Audit.RefutationIsProof: holds up to a collision among the circuit's own hash calls, because the axioms of `encode.py:198-207` assume that there is none; that the abstracted instances compute one function is a premise.
- Audit.RunClauses: the exactness of multiplications in clauses (`audit_circuit.py:52-53`) is assumed for all of them at once; timeouts are negative answers.
- Encoder.Model.Select: a support is given as the set of wires it selects; the matching of component names is not modelled.
- TwoCopies.AllWiresUnique: the two copies of `determinism.py:121-127` are one model read under two assignments; the check that each hash instance is functional (`determinism.py:79-93`) is a premise.
- MerkleCache.CachedMerkleTree.Sync: one synchronisation at a time, as the shared in-flight promise provides; the logs of a window are an input.
- MerkleRebuild.ComputeMerkleProof: takes the leaf list that the log scan produced; a hole in that list, which the scan cannot produce when the node answers, is not modelled.
- EventIndex.VaultEventIndex.Sync: one synchronisation at a time; block timestamps and the decoding of event payloads are not modelled.
- EventListener.Listener.CatchUp: a bet whose on-chain lookup fails counts as handled, as in the source, where only the safety buffer and the deep sweep come back to it; the index's honesty is a hypothesis here, which `EventListener.IndexIsHonest` and `AskIndex` discharge for the relay's own index; a scan with an explicit start never persists its cursor, as both callers have it.
- ListenerGuard.NoDoubleSubmission: within one process; a crash between submission and its durable marker is not covered by the source either.
- FillTracker.TrackerProcess.HandleOne: matching a message to an order by token id, the parsing of amounts, and the exchange queries of the reconcile paths are inputs; zero-fill finalization on market resolution is the same step with a zero fill.
- Attestations.AttestationStore.SignAndStore: the signature is an opaque value, and a failed signing is the absence of one.
- Clients.Wallet.AfterConsolidate: stored notes are taken to have different commitments, none of which is another note's id.
- Clients.ConsolidateSatisfies: the selection of notes before a merge is not modelled.
- FillTracker.CancelDuringSigning: of `/cancel-bet` only the branch for bets without a market order is modelled; the reconciliation of submitted orders is an input.
- NonceMutex.NoncesAreConsecutive: the retry with a fresh nonce after a nonce error is outside, as it resets the manager.
- Decimal.RoundTrip: only `microToDecimal`; the display formatting of amounts is not modelled.
- Poseidon, the proof system, the solver and witness generation: replaced by the hash parameter and by accepted witnesses.
- `r1cs.py`, `.wtns` parsing, mutation runs and reports: plumbing around the compiler.
- Floating-point sizing and fees of orders, funding of wallets, settlement back-off, circuit breaker: either not exact arithmetic or short once stated.
- Pages, catalog search, analytics, consent, middleware and the portfolio's profit display: no law to prove.
- Chain reorganisations deeper than the confirmation buffer.
