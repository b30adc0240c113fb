/** Overlapping scans: the forward poll and the deep sweep run as asynchronous tasks, and the
    check of a bet and its submission are separated by a suspension. */
module ListenerGuard {
  import opened EventListener

  /** A scan: the bets still to do, and the one whose on-chain lookup is awaited. */
  datatype Task = Task(queue: seq<int>, awaiting: bool)

  datatype State = State(scanning: bool, tasks: map<nat, Task>, inFlight: set<int>, submitted: seq<int>)

  const IDLE: State := State(false, map[], {}, [])

  /** `Check` runs up to the lookup, `Resume` from its answer to the submission. */
  datatype Event =
    | Start(id: nat, queue: seq<int>)
    | Check(id: nat, settled: bool)
    | Resume(id: nat, exists_: bool)
    | Finish(id: nat)

  function Pop(t: Task): Task requires t.queue != [] { Task(t.queue[1..], false) }

  /** One uninterrupted piece of execution; `guarded` is whether `runScan` tests `scanning`. */
  function Step(guarded: bool, s: State, e: Event): State {
    match e
    case Start(id, queue) =>
      if (guarded && s.scanning) || id in s.tasks then s
      else s.(scanning := true, tasks := s.tasks[id := Task(queue, false)])
    case Check(id, settled) =>
      if id !in s.tasks || s.tasks[id].queue == [] || s.tasks[id].awaiting then s
      else
        var t := s.tasks[id];
        if settled || t.queue[0] in s.inFlight then s.(tasks := s.tasks[id := Pop(t)])
        else s.(tasks := s.tasks[id := t.(awaiting := true)])
    case Resume(id, found) =>
      if id !in s.tasks || s.tasks[id].queue == [] || !s.tasks[id].awaiting then s
      else
        var t := s.tasks[id];
        var n := t.queue[0];
        if !found then s.(tasks := s.tasks[id := Pop(t)])
        else s.(tasks := s.tasks[id := Pop(t)], inFlight := s.inFlight + {n}, submitted := s.submitted + [n])
    case Finish(id) =>
      if id !in s.tasks || s.tasks[id].queue != [] then s
      else s.(scanning := false, tasks := s.tasks - {id})
  }

  function Run(guarded: bool, events: seq<Event>): State {
    if events == [] then IDLE else Step(guarded, Run(guarded, events[..|events| - 1]), events[|events| - 1])
  }

  /** At most one scan is active, what it awaits is not in flight, and what is in flight is
      what has been submitted, once each. */
  ghost predicate Inv(s: State) {
    && (forall i, j :: i in s.tasks && j in s.tasks ==> i == j)
    && (s.scanning <==> s.tasks != map[])
    && (forall i :: i in s.tasks && s.tasks[i].awaiting ==> s.tasks[i].queue != [] && s.tasks[i].queue[0] !in s.inFlight)
    && (forall n :: n in s.inFlight <==> n in s.submitted)
    && NoRepeats(s.submitted)
  }

  lemma StepInv(s: State, e: Event)
    requires Inv(s)
    ensures Inv(Step(true, s, e))
  {
    var s' := Step(true, s, e);
    if e.id in s.tasks {
      assert forall i :: i in s.tasks ==> i == e.id;
      if e.Finish? && s' != s { assert s'.tasks == map[]; } else { assert e.id in s'.tasks; }
    } else if s' != s {
      assert e.Start? && s.tasks == map[] && e.id in s'.tasks;
    }
  }

  /** With the guard no interleaving of scans submits a bet twice. */
  lemma {:induction false} NoDoubleSubmission(events: seq<Event>)
    ensures Inv(Run(true, events)) && NoRepeats(Run(true, events).submitted)
  {
    if events != [] {
      NoDoubleSubmission(events[..|events| - 1]);
      StepInv(Run(true, events[..|events| - 1]), events[|events| - 1]);
    }
  }

  /** Nor does the guard lose a bet: the scan takes its bets one by one, submits each that is
      open and found unless it is in flight already, and at its end lets the next scan start. */
  lemma ScanTakesBet(s: State, id: nat)
    requires Inv(s) && id in s.tasks && s.tasks[id].queue != [] && !s.tasks[id].awaiting
    ensures var n := s.tasks[id].queue[0]; var checked := Step(true, s, Check(id, false)); var after := Step(true, checked, Resume(id, true));
      if n in s.inFlight then checked.tasks[id] == Task(s.tasks[id].queue[1..], false) && checked.submitted == s.submitted
      else after.tasks[id] == Task(s.tasks[id].queue[1..], false) && after.submitted == s.submitted + [n]
    ensures Step(true, s, Check(id, true)).tasks[id] == Task(s.tasks[id].queue[1..], false) && Step(true, s, Check(id, true)).submitted == s.submitted
  {
  }

  lemma ScanEnds(s: State, id: nat, next: nat, queue: seq<int>)
    requires Inv(s) && id in s.tasks && s.tasks[id].queue == []
    ensures var after := Step(true, Step(true, s, Finish(id)), Start(next, queue));
      after.tasks == map[next := Task(queue, false)] && after.scanning
  {
    assert forall i :: i in s.tasks ==> i == id;
    assert Step(true, s, Finish(id)).tasks == map[];
  }

  /** The in-flight set alone is not enough: without the guard two scans that both passed
      the check submit the same bet. */
  lemma UnguardedDoubles(n: int)
    ensures var events := [Start(0, [n]), Start(1, [n]), Check(0, false), Check(1, false), Resume(0, true), Resume(1, true)];
      Run(false, events).submitted == [n, n]
  {
    var e := [Start(0, [n]), Start(1, [n]), Check(0, false), Check(1, false), Resume(0, true), Resume(1, true)];
    var s1 := Step(false, IDLE, e[0]);
    var s2 := Step(false, s1, e[1]);
    var s3 := Step(false, s2, e[2]);
    var s4 := Step(false, s3, e[3]);
    var s5 := Step(false, s4, e[4]);
    assert Run(false, e[..0]) == IDLE;
    assert e[..1][..0] == e[..0] && Run(false, e[..1]) == s1;
    assert e[..2][..1] == e[..1] && Run(false, e[..2]) == s2;
    assert e[..3][..2] == e[..2] && Run(false, e[..3]) == s3;
    assert e[..4][..3] == e[..3] && Run(false, e[..4]) == s4;
    assert e[..5][..4] == e[..4] && Run(false, e[..5]) == s5;
    assert e[..6] == e && e[..6][..5] == e[..5];
  }
}
