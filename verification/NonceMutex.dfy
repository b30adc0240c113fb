/** The relay's nonce allocation: a counter behind a promise-chain lock. */
module NonceMutex {
  import opened Wrappers

  /** A call is queued on the chain, inside the critical section (awaiting the seed), or done
      with its nonce or its error. */
  datatype Phase = Queued | Seeding | Done(nonce: nat) | Failed

  /** `calls` in the order in which they chained themselves onto the lock; the first `released`
      of them have left the critical section. `granted` lists the nonces handed out, and
      `returned` the calls that gave theirs back. */
  datatype State = State(nonce: Option<nat>, calls: seq<Phase>, released: nat, granted: seq<nat>, returned: set<nat>)

  const IDLE: State := State(None, [], 0, [], {})

  /** `Call` is a call of `getAndIncrement`, which chains synchronously. `Enter` runs the next
      queued callback up to its await; `Answer` resumes it with the node's transaction count,
      or with an error. `GiveBack` is the `decrement()` of a call whose transaction was never
      broadcast (relayer.ts:147-149), at most once a call. */
  datatype Event = Call | Enter | Answer(count: Option<nat>) | GiveBack(call: nat) | Reset

  /** The call holds a nonce: granted and not given back. */
  predicate Holds(s: State, i: nat) { i < |s.calls| && s.calls[i].Done? && i !in s.returned }

  function Step(s: State, e: Event): State {
    match e
    case Call => s.(calls := s.calls + [Queued])
    case Enter =>
      if s.released >= |s.calls| || s.calls[s.released] != Queued then s
      else if s.nonce.Some? then Grant(s, s.nonce.value)
      else s.(calls := s.calls[s.released := Seeding])
    case Answer(count) =>
      if s.released >= |s.calls| || s.calls[s.released] != Seeding then s
      else if count.None? then s.(calls := s.calls[s.released := Failed], released := s.released + 1)
      else Grant(s, count.value)
    case GiveBack(i) => if Holds(s, i) then Decrement(s).(returned := s.returned + {i}) else s
    case Reset => s.(nonce := None)
  }

  function Decrement(s: State): State {
    if s.nonce.Some? && s.nonce.value > 0 then s.(nonce := Some(s.nonce.value - 1)) else s
  }

  /** `allocated = this.nonce++`, and the lock passes to the next call. */
  function Grant(s: State, n: nat): State
    requires s.released < |s.calls|
  {
    State(Some(n + 1), s.calls[s.released := Done(n)], s.released + 1, s.granted + [n], s.returned)
  }

  function Run(events: seq<Event>): State {
    if events == [] then IDLE else Step(Run(events[..|events| - 1]), events[|events| - 1])
  }

  predicate Plain(e: Event) { !e.GiveBack? && e != Reset }

  ghost predicate Consecutive(s: seq<nat>) { forall i :: 0 <= i < |s| ==> s[i] == s[0] + i }

  /** Nobody has passed the lock out of turn, and the nonces run on from the seed. */
  ghost predicate Inv(s: State) {
    && s.released <= |s.calls|
    && (forall i :: 0 <= i < s.released ==> s.calls[i].Done? || s.calls[i] == Failed)
    && (forall i :: s.released <= i < |s.calls| ==> s.calls[i] == Queued || (i == s.released && s.calls[i] == Seeding && s.nonce == None))
    && Consecutive(s.granted)
    && (if s.granted == [] then s.nonce == None else s.nonce == Some(s.granted[0] + |s.granted|))
    && (forall i :: 0 <= i < |s.calls| && s.calls[i].Done? ==> s.calls[i].nonce in s.granted)
    && (forall i, j :: 0 <= i < j < |s.calls| && s.calls[i].Done? && s.calls[j].Done? ==> s.calls[i].nonce < s.calls[j].nonce)
  }

  lemma StepInv(s: State, e: Event)
    requires Inv(s) && Plain(e)
    ensures Inv(Step(s, e))
  {
    var s' := Step(s, e);
    if |s'.granted| > |s.granted| {
      var n := s'.granted[|s.granted|];
      assert s'.granted == s.granted + [n];
      assert s.granted != [] ==> n == s.granted[0] + |s.granted|;
      assert forall x :: x in s.granted ==> x < n;
    }
  }

  /** Over every interleaving of calls without reset or decrement, each call that succeeds
      gets its own nonce, in the order of the calls, consecutively from the one seed. */
  lemma {:induction false} NoncesAreConsecutive(events: seq<Event>)
    requires forall i :: 0 <= i < |events| ==> Plain(events[i])
    ensures Inv(Run(events)) && Consecutive(Run(events).granted)
  {
    if events != [] {
      NoncesAreConsecutive(events[..|events| - 1]);
      StepInv(Run(events[..|events| - 1]), events[|events| - 1]);
    }
  }

  /** Whoever is next can always proceed, also right after a failed seed: entering and one
      good answer complete the call. */
  lemma FailureDoesNotBlock(s: State, count: nat)
    requires Inv(s) && s.released < |s.calls|
    ensures var done := Step(Step(s, Enter), Answer(Some(count)));
      done.released > s.released && done.calls[s.released].Done?
  {
    var entered := Step(s, Enter);
    if s.calls[s.released] == Queued && s.nonce == None {
      assert entered.calls[s.released] == Seeding && entered.released == s.released;
    }
  }

  /** After a reset the next call asks the node again and gets its count, whatever the counter
      was; without one it gets the counter. */
  lemma ResetReseeds(s: State, count: nat)
    requires s.released < |s.calls| && s.calls[s.released] == Queued
    ensures var r := Step(Step(Step(s, Reset), Enter), Answer(Some(count)));
      && r.calls == s.calls[s.released := Done(count)] && r.nonce == Some(count + 1)
      && r.released == s.released + 1 && r.granted == s.granted + [count] && r.returned == s.returned
    ensures s.nonce.Some? ==>
      var r := Step(s, Enter); r.calls == s.calls[s.released := Done(s.nonce.value)] && r.nonce == Some(s.nonce.value + 1)
  {
    var entered := Step(Step(s, Reset), Enter);
    assert entered.calls == s.calls[s.released := Seeding] && entered.released == s.released;
  }

  // ---- giving back -----------------------------------------------------------------------

  /** Every nonce from the seed up to the counter is held by one call and by one only, in the
      order of the calls: no repetition, no gap. */
  ghost predicate Tight(s: State) {
    && s.released <= |s.calls|
    && (forall i :: 0 <= i < s.released ==> s.calls[i].Done? || s.calls[i] == Failed)
    && (forall i :: s.released <= i < |s.calls| ==> s.calls[i] == Queued || (i == s.released && s.calls[i] == Seeding && s.nonce == None))
    && (if s.granted == [] then s.nonce == None else s.nonce.Some? && s.granted[0] <= s.nonce.value)
    && (forall i: nat :: Holds(s, i) ==> s.granted != [] && s.granted[0] <= s.calls[i].nonce < s.nonce.value)
    && (forall i: nat, j: nat :: Holds(s, i) && Holds(s, j) && i < j ==> s.calls[i].nonce < s.calls[j].nonce)
    && (s.granted != [] ==> forall m :: s.granted[0] <= m < s.nonce.value ==> HeldBy(s, m))
  }

  ghost predicate HeldBy(s: State, m: int) { exists i: nat :: Holds(s, i) && s.calls[i].nonce == m }

  /** Nothing was granted after the call, so the counter stands right behind its nonce. */
  predicate Orderly(s: State, e: Event) {
    e.GiveBack? && Holds(s, e.call) && s.nonce.Some? ==> s.calls[e.call].nonce + 1 == s.nonce.value
  }

  lemma GrantTight(s: State, n: nat)
    requires Tight(s) && s.released < |s.calls| && s.released !in s.returned
    requires if s.granted == [] then s.nonce == None else s.nonce == Some(n)
    ensures Tight(Grant(s, n))
  {
    var s' := Grant(s, n);
    assert forall i: nat :: Holds(s', i) <==> Holds(s, i) || i == s.released;
    assert forall i: nat :: Holds(s, i) ==> s'.calls[i] == s.calls[i] && i < s.released;
    assert s'.granted[0] == (if s.granted == [] then n else s.granted[0]);
    forall m | s'.granted[0] <= m < s'.nonce.value ensures HeldBy(s', m) {
      if m == n {
        assert Holds(s', s.released);
      } else {
        assert HeldBy(s, m);
        var i: nat :| Holds(s, i) && s.calls[i].nonce == m;
        assert Holds(s', i);
      }
    }
  }

  lemma GiveBackTight(s: State, i: nat)
    requires Tight(s) && Holds(s, i)
    ensures Tight(Step(s, GiveBack(i))) <==> s.calls[i].nonce + 1 == s.nonce.value
  {
    var s' := Step(s, GiveBack(i));
    var top := s.nonce.value - 1;
    assert HeldBy(s, top);
    var j: nat :| Holds(s, j) && s.calls[j].nonce == top;
    assert forall k: nat :: Holds(s', k) <==> Holds(s, k) && k != i;
    if s.calls[i].nonce == top {
      assert i == j;
      forall m | s'.granted[0] <= m < s'.nonce.value ensures HeldBy(s', m) {
        assert HeldBy(s, m);
        var k: nat :| Holds(s, k) && s.calls[k].nonce == m;
        assert Holds(s', k);
      }
    } else {
      assert Holds(s', j) && s'.calls[j].nonce == s'.nonce.value;
    }
  }

  /** The calls that have given back have been released. */
  ghost predicate ReturnedOk(s: State) { forall i :: i in s.returned ==> i < s.released }

  lemma StepTight(s: State, e: Event)
    requires Tight(s) && ReturnedOk(s) && e != Reset
    ensures Tight(Step(s, e)) <==> Orderly(s, e)
    ensures ReturnedOk(Step(s, e))
  {
    match e
    case Call => CallTight(s);
    case Enter =>
      if s.released < |s.calls| && s.calls[s.released] == Queued && s.nonce.Some? { GrantTight(s, s.nonce.value); } else { SameHolders(s, Step(s, e)); }
    case Answer(count) =>
      if s.released < |s.calls| && s.calls[s.released] == Seeding && count.Some? { GrantTight(s, count.value); } else { SameHolders(s, Step(s, e)); }
    case GiveBack(i) =>
      if Holds(s, i) { GiveBackTight(s, i); }
  }

  lemma CallTight(s: State)
    requires Tight(s)
    ensures Tight(Step(s, Call))
  {
    SameHolders(s, Step(s, Call));
  }

  /** Steps that grant nothing keep who holds what. */
  lemma SameHolders(s: State, s': State)
    requires Tight(s) && s'.nonce == s.nonce && s'.granted == s.granted && s'.returned == s.returned
    requires s'.released <= |s'.calls| && |s.calls| <= |s'.calls|
    requires forall i: nat :: Holds(s', i) <==> Holds(s, i)
    requires forall i :: 0 <= i < |s.calls| && s.calls[i].Done? ==> s'.calls[i] == s.calls[i]
    requires forall i :: 0 <= i < s'.released ==> s'.calls[i].Done? || s'.calls[i] == Failed
    requires forall i :: s'.released <= i < |s'.calls| ==> s'.calls[i] == Queued || (i == s'.released && s'.calls[i] == Seeding && s'.nonce == None)
    ensures Tight(s')
  {
    if s'.granted != [] {
      forall m | s'.granted[0] <= m < s'.nonce.value ensures HeldBy(s', m) {
        assert HeldBy(s, m);
        var i: nat :| Holds(s, i) && s.calls[i].nonce == m;
        assert Holds(s', i);
      }
    }
  }

  /** At the end of every prefix of the run. */
  ghost predicate AlwaysTight(events: seq<Event>) {
    Tight(Run(events)) && (events != [] ==> AlwaysTight(events[..|events| - 1]))
  }

  /** At every event of the run. */
  ghost predicate AlwaysOrderly(events: seq<Event>) {
    events != [] ==>
      AlwaysOrderly(events[..|events| - 1]) && Orderly(Run(events[..|events| - 1]), events[|events| - 1])
  }

  /** Over every run without reset, the outstanding nonces stay without repetition and gap
      at every point if and only if each call that gives back is the last one granted. */
  lemma {:induction false} GiveBacksExactly(events: seq<Event>)
    requires forall i :: 0 <= i < |events| ==> events[i] != Reset
    ensures AlwaysTight(events) <==> AlwaysOrderly(events)
    ensures AlwaysTight(events) ==> ReturnedOk(Run(events))
  {
    if events == [] {
      assert Tight(IDLE);
    } else {
      var before := events[..|events| - 1];
      GiveBacksExactly(before);
      if AlwaysTight(before) { StepTight(Run(before), events[|events| - 1]); }
    }
  }

  /** What the decrement of a call re-issues: its own nonce if and only if no later call holds
      one; otherwise the next grant repeats the nonce of another call that still holds it,
      while the caller's own nonce, below the counter, is held by nobody. */
  lemma GiveBackReissues(s: State, i: nat)
    requires Tight(s) && Holds(s, i)
    ensures Step(s, GiveBack(i)).nonce == Some(s.nonce.value - 1)
    ensures s.nonce.value - 1 == s.calls[i].nonce <==> forall j: nat :: Holds(s, j) ==> j <= i
    ensures s.nonce.value - 1 != s.calls[i].nonce ==>
      var s' := Step(s, GiveBack(i));
      HeldBy(s', s.nonce.value - 1) && s.calls[i].nonce < s.nonce.value - 1 && !HeldBy(s', s.calls[i].nonce)
  {
    var s' := Step(s, GiveBack(i));
    var top := s.nonce.value - 1;
    assert HeldBy(s, top);
    var j: nat :| Holds(s, j) && s.calls[j].nonce == top;
    assert s'.nonce == Some(top);
    if i != j {
      assert i < j && Holds(s', j);
      forall k: nat | Holds(s', k) ensures s'.calls[k].nonce != s.calls[i].nonce { assert Holds(s, k) && k != i; }
    }
  }

  /** The failing run: the first of two calls gives back, and a third call receives the nonce
      that the second still holds, while the first's is lost. */
  lemma GiveBackOutOfOrder(seed: nat)
    ensures var s := Run([Call, Enter, Answer(Some(seed)), Call, Enter, GiveBack(0), Call, Enter]);
      && s.calls == [Done(seed), Done(seed + 1), Done(seed + 1)] && Holds(s, 1) && Holds(s, 2) && !HeldBy(s, seed)
  {
    var e := [Call, Enter, Answer(Some(seed)), Call, Enter, GiveBack(0), Call, Enter];
    var s1 := Step(IDLE, e[0]);
    var s2 := Step(s1, e[1]);
    var s3 := Step(s2, e[2]);
    var s4 := Step(s3, e[3]);
    var s5 := Step(s4, e[4]);
    var s6 := Step(s5, e[5]);
    var s7 := Step(s6, e[6]);
    assert e[..0] == [] && e[..1][..0] == e[..0] && e[..2][..1] == e[..1] && e[..3][..2] == e[..2] && e[..4][..3] == e[..3];
    assert e[..5][..4] == e[..4] && e[..6][..5] == e[..5] && e[..7][..6] == e[..6] && e[..8] == e && e[..8][..7] == e[..7];
    assert Run(e[..1]) == s1 && Run(e[..2]) == s2 && Run(e[..3]) == s3 && Run(e[..4]) == s4;
    assert Run(e[..5]) == s5 && Run(e[..6]) == s6 && Run(e[..7]) == s7;
    var s8 := Step(s7, e[7]);
    assert s6.nonce == Some(seed + 1) && s6.returned == {0};
    assert Run(e) == s8 && s8.calls == [Done(seed), Done(seed + 1), Done(seed + 1)];
  }

  /** The manager's fields; `chain` stands for the promise chain, one entry per call. */
  class NonceManager {
    var nonce: Option<nat>
    var chain: seq<Phase>
    var released: nat
    ghost var granted: seq<nat>
    ghost var returned: set<nat>

    ghost function View(): State reads this { State(nonce, chain, released, granted, returned) }

    constructor ()
      ensures View() == IDLE && Inv(View())
    {
      nonce, chain, released, granted, returned := None, [], 0, [], {};
    }

    /** `getAndIncrement` up to its first suspension. */
    method ChainCall() returns (ticket: nat)
      modifies this
      ensures View() == Step(old(View()), Call) && ticket == |old(chain)|
    {
      ticket := |chain|;
      chain := chain + [Queued];
    }

    /** The callback of the call whose turn it is; `needsSeed` when it suspends again. */
    method EnterSection() returns (needsSeed: bool)
      modifies this
      ensures View() == Step(old(View()), Enter)
      ensures needsSeed <==> released < |chain| && chain[released] == Seeding
    {
      if released >= |chain| || chain[released] != Queued { return released < |chain| && chain[released] == Seeding; }
      if nonce == None {
        chain := chain[released := Seeding];
        return true;
      }
      TakeNonce(nonce.value);
      needsSeed := released < |chain| && chain[released] == Seeding;
    }

    /** The node has answered the seed request. */
    method SeedAnswer(count: Option<nat>)
      modifies this
      ensures View() == Step(old(View()), Answer(count))
    {
      if released >= |chain| || chain[released] != Seeding { return; }
      if count == None {
        chain := chain[released := Failed];
        released := released + 1;
        return;
      }
      TakeNonce(count.value);
    }

    /** `decrement`, called for a transaction that was never broadcast. */
    method Decrement(ghost call: nat)
      requires Holds(View(), call)
      modifies this`nonce, this`returned
      ensures View() == Step(old(View()), GiveBack(call))
    {
      if nonce.Some? && nonce.value > 0 { nonce := Some(nonce.value - 1); }
      returned := returned + {call};
    }

    /** `reset`, after an error that names the nonce. */
    method Reset()
      modifies this`nonce
      ensures View() == Step(old(View()), Event.Reset)
    {
      nonce := None;
    }

    method TakeNonce(n: nat)
      requires released < |chain|
      modifies this
      ensures View() == Grant(old(View()), n)
    {
      nonce := Some(n + 1);
      chain := chain[released := Done(n)];
      granted := granted + [n];
      released := released + 1;
    }
  }
}
