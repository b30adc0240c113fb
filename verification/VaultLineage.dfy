/** Lineages: when no secret is deposited twice, every note has its own nullifier, and nothing
    is ever stranded. */
module VaultLineage {
  import opened Merkle
  import opened NodeMap
  import opened Specs
  import opened Vault
  import opened VaultLedger
  import opened VaultProofs
  import VaultRuns
  import opened Wrappers

  /** Every lineage is a line: no note twice, each successor's predecessor is spent, and only
      recorded notes are spent. */
  ghost predicate Linear(h: Hash, notes: seq<Note>, spent: set<int>) {
    && OwnNullifiers(h, notes)
    && (forall i :: 0 <= i < |notes| ==> PredecessorSpent(h, notes[i], spent))
    && (forall x :: x in spent ==> HasNullifier(h, notes, x))
  }

  ghost predicate OwnNullifiers(h: Hash, notes: seq<Note>) {
    forall i, j :: 0 <= i < j < |notes| ==> Nullifier(h, notes[i]) != Nullifier(h, notes[j])
  }

  ghost predicate PredecessorSpent(h: Hash, n: Note, spent: set<int>) { n.nonce > 0 ==> h.h2(n.secret, n.nonce - 1) in spent }

  ghost predicate HasNullifier(h: Hash, notes: seq<Note>, x: int) { exists i :: 0 <= i < |notes| && Nullifier(h, notes[i]) == x }

  lemma Successor(h: Hash, n: Note, secret: int, nonce: int)
    requires Ideal(h)
    ensures Nullifier(h, n) == h.h2(secret, nonce + 1) ==> n.secret == secret && n.nonce == nonce + 1
    ensures h.h2(secret, nonce) != h.h2(secret, nonce + 1)
  {
  }

  /** The successor of an unspent note is new. */
  lemma SuccessorIsNew(h: Hash, notes: seq<Note>, spent: set<int>, secret: int, nonce: int)
    requires Ideal(h) && Linear(h, notes, spent) && nonce >= 0 && h.h2(secret, nonce) !in spent
    ensures !HasNullifier(h, notes, h.h2(secret, nonce + 1)) && h.h2(secret, nonce + 1) !in spent
  {
    forall i | 0 <= i < |notes| ensures Nullifier(h, notes[i]) != h.h2(secret, nonce + 1) {
      assert PredecessorSpent(h, notes[i], spent);
      Successor(h, notes[i], secret, nonce);
    }
  }

  /** Spending recorded notes and adding a new one whose predecessor is spent stays linear. */
  lemma LinearStep(h: Hash, notes: seq<Note>, spent: set<int>, more: set<int>, n: Note)
    requires Linear(h, notes, spent) && spent <= more && forall x :: x in more ==> HasNullifier(h, notes, x)
    requires PredecessorSpent(h, n, more) && !HasNullifier(h, notes, Nullifier(h, n))
    ensures Linear(h, notes + [n], more)
  {
    var longer := notes + [n];
    forall i, j | 0 <= i < j < |longer| ensures Nullifier(h, longer[i]) != Nullifier(h, longer[j]) {
      if j == |notes| { assert Nullifier(h, notes[i]) != Nullifier(h, n); }
    }
    forall i | 0 <= i < |longer| ensures PredecessorSpent(h, longer[i], more) {
      if i < |notes| { assert PredecessorSpent(h, notes[i], spent); }
    }
    forall x | x in more ensures HasNullifier(h, longer, x) {
      var i :| 0 <= i < |notes| && Nullifier(h, notes[i]) == x;
      assert longer[i] == notes[i];
    }
  }

  lemma LinearSpend(h: Hash, notes: seq<Note>, spent: set<int>, i: nat)
    requires Linear(h, notes, spent) && i < |notes|
    ensures Linear(h, notes, spent + {Nullifier(h, notes[i])})
  {
    var more := spent + {Nullifier(h, notes[i])};
    forall k | 0 <= k < |notes| ensures PredecessorSpent(h, notes[k], more) { assert PredecessorSpent(h, notes[k], spent); }
    forall x | x in more ensures HasNullifier(h, notes, x) {}
  }

  // ---- each call -----------------------------------------------------------------------

  /** Spending a note in favour of its successor stays linear. */
  lemma SuccessorLinear(h: Hash, notes: seq<Note>, spent: set<int>, i: nat, n: Note)
    requires Ideal(h) && Linear(h, notes, spent) && i < |notes| && Nullifier(h, notes[i]) !in spent
    requires n.secret == notes[i].secret && n.nonce == notes[i].nonce + 1 && notes[i].nonce >= 0
    ensures Linear(h, notes + [n], spent + {Nullifier(h, notes[i])})
  {
    SuccessorIsNew(h, notes, spent, n.secret, notes[i].nonce);
    LinearSpend(h, notes, spent, i);
    LinearStep(h, notes, spent, spent + {Nullifier(h, notes[i])}, n);
  }

  /** The two outcomes of spending a note, for every call that does. */
  lemma SpendLinear(h: Hash, v: State, s: SpendWires, balance: int)
    requires Ideal(h) && NotesOk(h, v) && Linear(h, v.notes, v.spent) && Vault.Spendable(h, v, s) && SpecSpend(h, s) && IsU64(s.nonce)
    ensures Linear(h, v.notes, v.spent + {s.nullifier})
    ensures Linear(h, v.notes + [Note(s.secret, balance, s.nonce + 1, s.owner)], v.spent + {s.nullifier})
  {
    var i := SpentIndex(h, v, s);
    LinearSpend(h, v.notes, v.spent, i);
    SuccessorLinear(h, v.notes, v.spent, i, Note(s.secret, balance, s.nonce + 1, s.owner));
  }

  /** The call spends this note, and inserts its successor or nothing. */
  ghost predicate SpendsTo(h: Hash, v: State, s: SpendWires, v': State) {
    && Vault.Spendable(h, v, s) && SpecSpend(h, s) && IsU64(s.nonce) && v'.spent == v.spent + {s.nullifier}
    && (v'.notes == v.notes || (|v'.notes| == |v.notes| + 1 && v.notes <= v'.notes && Succeeds(v'.notes[|v.notes|], s)))
  }

  predicate Succeeds(n: Note, s: SpendWires) { n.secret == s.secret && n.nonce == s.nonce + 1 && n.owner == s.owner }

  predicate Spends(op: Op) { op.AuthorizeBet? || op.Withdraw? || VaultRuns.Target(op).Some? }

  function InputOf(op: Op): SpendWires
    requires Spends(op)
  {
    match op
    case AuthorizeBet(b, _) => b.s
    case Withdraw(w, _, _) => w.s
    case _ => op.c.s
  }

  lemma SpendShape(h: Hash, v: State, op: Op, v': State)
    requires Spends(op) && Step(h, v, op) == Some(v')
    ensures SpendsTo(h, v, InputOf(op), v') && v.notes <= v'.notes
  {
    if VaultRuns.Target(op).Some? { CreditShape(h, v, op, v'); }
    if op.Withdraw? { WithdrawShape(h, v, op, v'); }
  }

  lemma WithdrawShape(h: Hash, v: State, op: Op, v': State)
    requires op.Withdraw? && Step(h, v, op) == Some(v')
    ensures SpendsTo(h, v, op.w.s, v')
  {
    var w := op.w;
    assert v'.spent == v.spent + {w.s.nullifier};
    if w.newCommitment == 0 {
      assert v'.notes == v.notes;
    } else {
      assert v'.notes == v.notes + [Note(w.s.secret, w.s.balance - w.amount, w.s.nonce + 1, w.s.owner)];
    }
  }

  lemma CreditShape(h: Hash, v: State, op: Op, v': State)
    requires VaultRuns.Target(op).Some? && Step(h, v, op) == Some(v')
    ensures SpendsTo(h, v, op.c.s, v')
  {
  }

  lemma SpendsLinear(h: Hash, v: State, s: SpendWires, v': State)
    requires Ideal(h) && NotesOk(h, v) && Linear(h, v.notes, v.spent) && SpendsTo(h, v, s, v')
    ensures Linear(h, v'.notes, v'.spent)
  {
    if v'.notes == v.notes {
      SpendLinear(h, v, s, 0);
    } else {
      SpendLinear(h, v, s, v'.notes[|v.notes|].balance);
      assert v'.notes == v.notes + [v'.notes[|v.notes|]];
    }
  }

  lemma {:induction false} MarkAllLinear(h: Hash, v: State, owner: int, root: int, slots: seq<Slot>, marked: set<int>)
    requires Ideal(h) && NotesOk(h, v) && Linear(h, v.notes, v.spent) && KnownRoot(h, v, root) && SlotsOk(h, v, owner, root, slots)
    requires MarkAll(v.spent, slots) == Some(marked)
    ensures Linear(h, v.notes, marked)
  {
    if slots == [] { return; }
    var n := |slots| - 1;
    var x, before := slots[n], MarkAll(v.spent, slots[..n]).value;
    MarkAllLinear(h, v, owner, root, slots[..n], before);
    assert SlotOk(h, owner, root, x);
    NonzeroHash2(h, x.secret, x.nonce);
    if x.active == 1 { MarkOneLinear(h, v, owner, root, x, before); }
  }

  lemma MarkOneLinear(h: Hash, v: State, owner: int, root: int, x: Slot, before: set<int>)
    requires Ideal(h) && NotesOk(h, v) && Linear(h, v.notes, before) && KnownRoot(h, v, root)
    requires SlotOk(h, owner, root, x) && x.active == 1
    ensures Linear(h, v.notes, before + {x.nullifier})
  {
    var i := SpentNote(h, v, root, NoteOfSlot(x, owner), x.sib, x.bits);
    assert Nullifier(h, v.notes[i]) == x.nullifier;
    LinearSpend(h, v.notes, before, i);
  }

  lemma ConsolidateLinear(h: Hash, v: State, k: ConsolidateWires, v': State)
    requires Ideal(h) && NotesOk(h, v) && Linear(h, v.notes, v.spent) && DoConsolidate(h, v, k) == Some(v')
    ensures Linear(h, v'.notes, v'.spent)
  {
    var marked := MarkAll(v.spent, k.slots).value;
    var first := k.slots[0];
    MarkAllLinear(h, v, k.owner, k.root, k.slots, marked);
    assert SlotOk(h, k.owner, k.root, first);
    NonzeroHash2(h, first.secret, first.nonce);
    VaultRuns.MarkAllExact(v.spent, k.slots);
    assert first.nullifier in VaultRuns.SlotMarks(k.slots);
    MergedNote(h, v.notes, v.spent, marked, Note(first.secret, Total(k.slots), first.nonce + 1, k.owner));
  }

  /** The merged note succeeds slot 0 and is new among everything marked. */
  lemma MergedNote(h: Hash, notes: seq<Note>, spent: set<int>, marked: set<int>, n: Note)
    requires Ideal(h) && Linear(h, notes, spent) && Linear(h, notes, marked) && n.nonce > 0
    requires h.h2(n.secret, n.nonce - 1) !in spent && h.h2(n.secret, n.nonce - 1) in marked
    ensures Linear(h, notes + [n], marked)
  {
    SuccessorIsNew(h, notes, spent, n.secret, n.nonce - 1);
    LinearStep(h, notes, marked, marked, n);
  }

  // ---- deposits --------------------------------------------------------------------------

  /** A deposit under a secret that has not been used. */
  ghost predicate FreshDeposit(v: State, op: Op) {
    op.Deposit? ==> forall i :: 0 <= i < |v.notes| ==> v.notes[i].secret != op.d.secret
  }

  /** Every lineage starts at nonce zero. */
  lemma {:induction false} Origin(h: Hash, v: State, i: nat) returns (j: nat)
    requires Ideal(h) && NotesOk(h, v) && Linear(h, v.notes, v.spent) && i < |v.notes|
    ensures j < |v.notes| && v.notes[j].secret == v.notes[i].secret && v.notes[j].nonce == 0
    decreases v.notes[i].nonce
  {
    assert NoteOk(h, v, i) && PredecessorSpent(h, v.notes[i], v.spent);
    var n := v.notes[i];
    if n.nonce == 0 {
      j := i;
    } else {
      assert HasNullifier(h, v.notes, h.h2(n.secret, n.nonce - 1));
      var k: int :| 0 <= k < |v.notes| && Nullifier(h, v.notes[k]) == h.h2(n.secret, n.nonce - 1);
      SameHash2(h, v.notes[k].secret, v.notes[k].nonce, n.secret, n.nonce - 1);
      j := Origin(h, v, k);
    }
  }

  /** A deposit keeps all nullifiers different if and only if its secret is new. */
  lemma DepositLinear(h: Hash, v: State, op: Op, v': State)
    requires Ideal(h) && NotesOk(h, v) && Linear(h, v.notes, v.spent) && op.Deposit? && Step(h, v, op) == Some(v')
    ensures if FreshDeposit(v, op) then Linear(h, v'.notes, v'.spent) else !OwnNullifiers(h, v'.notes)
    ensures v.notes <= v'.notes
  {
    var n := Note(op.d.secret, op.d.amount, 0, op.d.owner);
    assert v'.notes == v.notes + [n];
    if FreshDeposit(v, op) {
      forall i | 0 <= i < |v.notes| ensures Nullifier(h, v.notes[i]) != Nullifier(h, n) { Successor(h, v.notes[i], n.secret, -1); }
      LinearStep(h, v.notes, v.spent, v.spent, n);
    } else {
      var i: int :| 0 <= i < |v.notes| && v.notes[i].secret == op.d.secret;
      var j := Origin(h, v, i);
      assert Nullifier(h, v'.notes[j]) == Nullifier(h, v'.notes[|v.notes|]);
    }
  }

  lemma StepLinear(h: Hash, v: State, op: Op, v': State)
    requires Ideal(h) && NotesOk(h, v) && Linear(h, v.notes, v.spent) && Step(h, v, op) == Some(v')
    ensures if FreshDeposit(v, op) then Linear(h, v'.notes, v'.spent) else !OwnNullifiers(h, v'.notes)
  {
    if Spends(op) {
      SpendShape(h, v, op, v');
      SpendsLinear(h, v, InputOf(op), v');
    } else {
      match op
      case Deposit(_, _) => DepositLinear(h, v, op, v');
      case Consolidate(k) => ConsolidateLinear(h, v, k, v');
      case _ =>
    }
  }

  lemma NotesGrow(h: Hash, v: State, op: Op, v': State)
    requires Step(h, v, op) == Some(v')
    ensures v.notes <= v'.notes
  {
    if Spends(op) { SpendShape(h, v, op, v'); }
  }

  // ---- every run ------------------------------------------------------------------------------

  /** Every deposit of the run that succeeds has a new secret. */
  ghost predicate FreshRun(h: Hash, ops: seq<Op>) {
    ops != [] ==>
      var before := Run(h, INITIAL, ops[..|ops| - 1]);
      FreshRun(h, ops[..|ops| - 1]) && (Step(h, before, ops[|ops| - 1]).Some? ==> FreshDeposit(before, ops[|ops| - 1]))
  }

  /** Over every run, all notes have their own nullifiers if and only if no successful deposit
      repeats a secret. */
  lemma {:induction false} FreshExactly(h: Hash, ops: seq<Op>)
    requires Ideal(h)
    ensures var v := Run(h, INITIAL, ops);
      if FreshRun(h, ops) then Linear(h, v.notes, v.spent) else !OwnNullifiers(h, v.notes)
  {
    if ops != [] {
      var prior, op := ops[..|ops| - 1], ops[|ops| - 1];
      var before := Run(h, INITIAL, prior);
      FreshExactly(h, prior);
      NotesOkAfter(h, prior);
      if Step(h, before, op).Some? {
        var after := Step(h, before, op).value;
        if FreshRun(h, prior) {
          StepLinear(h, before, op, after);
        } else {
          NotesGrow(h, before, op, after);
          DuplicatesStay(h, before.notes, after.notes);
        }
      }
    }
  }

  lemma NotesOkAfter(h: Hash, ops: seq<Op>)
    requires Ideal(h)
    ensures NotesOk(h, Run(h, INITIAL, ops))
  {
    RunInv(h, ops);
  }

  lemma DuplicatesStay(h: Hash, notes: seq<Note>, more: seq<Note>)
    requires notes <= more && !OwnNullifiers(h, notes)
    ensures !OwnNullifiers(h, more)
  {
    var i, j :| 0 <= i < j < |notes| && Nullifier(h, notes[i]) == Nullifier(h, notes[j]);
    assert more[i] == notes[i] && more[j] == notes[j];
  }

  lemma NothingStranded(h: Hash, notes: seq<Note>, spent: set<int>, openedAt: map<int, nat>)
    requires OwnNullifiers(h, notes) && OpenedOk(h, notes, spent, openedAt)
    ensures forall i :: 0 <= i < |notes| ==> !IsStranded(h, notes, spent, openedAt, i)
  {
    forall i | 0 <= i < |notes| && Nullifier(h, notes[i]) in spent ensures Consumed(h, notes, openedAt, i) {
      var x := Nullifier(h, notes[i]);
      assert Nullifier(h, notes[openedAt[x]]) == x;
    }
  }

  /** So in a run without a repeated secret the ledger is exact without a remainder. */
  lemma FreshConservation(h: Hash, ops: seq<Op>)
    requires Ideal(h) && FreshRun(h, ops)
    ensures var v := Run(h, INITIAL, ops); Ledger(h, v) == v.deposited + v.income
  {
    var v := Run(h, INITIAL, ops);
    FreshExactly(h, ops);
    RunAccounted(h, ops);
    NothingStranded(h, v.notes, v.spent, v.openedAt);
    Conservation(h, ops);
  }

  // ---- a run that strands value ----------------------------------------------------------------

  function Zeroes(n: nat): (r: seq<int>) ensures |r| == n && forall i :: 0 <= i < n ==> r[i] == 0 { seq(n, _ => 0) }

  lemma {:induction false} PositionOfZeroes(n: nat)
    ensures Position(Zeroes(n)) == 0
  {
    if n > 0 {
      PositionOfZeroes(n - 1);
      assert Zeroes(n)[..n - 1] == Zeroes(n - 1);
    }
  }

  /** The path of the only leaf of a tree. */
  ghost function FirstPath(h: Hash2, leaf: int): seq<int> {
    seq(TREE_DEPTH, l requires 0 <= l < TREE_DEPTH => Node(h, [leaf], l, 1))
  }

  lemma FirstPathFolds(h: Hash2, leaf: int)
    ensures Fold(h, leaf, FirstPath(h, leaf), Zeroes(TREE_DEPTH)) == Root(h, [leaf])
  {
    forall l: nat | l < TREE_DEPTH ensures Up(0, l) == 0 { UpZero(l); }
    assert IsPath(h, [leaf], 0, FirstPath(h, leaf), Zeroes(TREE_DEPTH));
    Pow2Of32();
    PathFoldsToRoot(h, [leaf], 0, FirstPath(h, leaf), Zeroes(TREE_DEPTH));
  }

  lemma {:induction false} UpZero(level: nat)
    ensures Up(0, level) == 0
  {
    if level > 0 { UpZero(level - 1); }
  }

  ghost function FirstDeposit(h: Hash, n: Note): Op {
    Deposit(DepositWires(n.secret, n.balance, n.owner, Commit(h, n)), n.owner)
  }

  ghost function FirstSpend(h: Hash, n: Note): SpendWires {
    SpendWires(n.secret, n.balance, 0, n.owner, FirstPath(h.h2, Commit(h, n)), Zeroes(TREE_DEPTH), Root(h.h2, [Commit(h, n)]), h.h2(n.secret, 0))
  }

  ghost function FullWithdrawal(h: Hash, n: Note): Op {
    Withdraw(WithdrawWires(FirstSpend(h, n), n.balance, h.h2(n.owner, 0), n.owner, 0), n.owner, FeeConfig(0, 0, 0, 0, 0))
  }

  /** Deposit, withdraw everything, deposit with the same secret again: the second amount was
      paid, cannot be claimed, and is all that is missing from the ledger. */
  lemma RepeatedSecretStrands(h: Hash, n: Note)
    requires Ideal(h) && n.nonce == 0 && 0 < n.balance && 2 * n.balance <= DEPOSIT_CAP
    ensures var v := Run(h, INITIAL, [FirstDeposit(h, n), FullWithdrawal(h, n), FirstDeposit(h, n)]);
      && v.deposited == 2 * n.balance && v.paidOut == n.balance && Live(h, v.notes, v.spent) == 0
      && StrandedIn(h, v) == n.balance && Ledger(h, v) != v.deposited + v.income
  {
    var ops := [FirstDeposit(h, n), FullWithdrawal(h, n), FirstDeposit(h, n)];
    assert ops[..3] == ops && ops[..3][..2] == ops[..2] && ops[..2][..1] == ops[..1] && ops[..1][..0] == [];
    var v1 := AfterDeposit(h, n, INITIAL);
    assert Run(h, INITIAL, ops[..1]) == v1;
    var v2 := AfterWithdrawal(h, n, v1);
    assert Run(h, INITIAL, ops[..2]) == v2;
    var v3 := AfterDeposit(h, n, v2);
    assert Run(h, INITIAL, ops) == v3;
    TwoNotes(h, n, v3);
    Conservation(h, ops);
  }

  lemma AfterDeposit(h: Hash, n: Note, v: State) returns (v': State)
    requires n.nonce == 0 && 0 < n.balance && 2 * n.balance <= DEPOSIT_CAP && |v.leaves| < 2
    requires (if n.owner in v.deposits then v.deposits[n.owner] else 0) <= n.balance
    ensures Step(h, v, FirstDeposit(h, n)) == Some(v')
    ensures v' == v.(leaves := v.leaves + [Commit(h, n)], notes := v.notes + [n], deposited := v.deposited + n.balance, deposits := v'.deposits)
    ensures n.owner in v'.deposits && v'.deposits[n.owner] == (if n.owner in v.deposits then v.deposits[n.owner] else 0) + n.balance
  {
    v' := Step(h, v, FirstDeposit(h, n)).value;
  }

  lemma AfterWithdrawal(h: Hash, n: Note, v: State) returns (v': State)
    requires Ideal(h) && n.nonce == 0 && 0 < n.balance && 2 * n.balance <= DEPOSIT_CAP
    requires v.leaves == [Commit(h, n)] && v.spent == {}
    ensures Step(h, v, FullWithdrawal(h, n)) == Some(v')
    ensures v' == v.(spent := {h.h2(n.secret, 0)}, openedAt := v.openedAt[h.h2(n.secret, 0) := 0], paidOut := v.paidOut + n.balance)
  {
    FirstPathFolds(h.h2, Commit(h, n));
    PositionOfZeroes(TREE_DEPTH);
    CurrentRootKnown(h, v);
    v' := Step(h, v, FullWithdrawal(h, n)).value;
  }

  lemma TwoNotes(h: Hash, n: Note, v: State)
    requires n.nonce == 0 && v.notes == [n, n] && v.spent == {h.h2(n.secret, 0)} && v.openedAt == map[h.h2(n.secret, 0) := 0]
    ensures Live(h, v.notes, v.spent) == 0 && StrandedIn(h, v) == n.balance
  {
    assert v.notes[..1] == [n] && [n][..0] == [];
    assert Nullifier(h, n) == h.h2(n.secret, 0);
    assert Stranded(h, [n], v.spent, v.openedAt) == 0 && Live(h, [n], v.spent) == 0;
  }
}
