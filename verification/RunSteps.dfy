/** What every step of the run controller keeps, one party at a time: the slots and their queue, the runs
    and the waiters on them, and the messages parked behind an execution. The slot count is the number of
    executions in the holding phase, so a step that moves one execution moves the count by one. */
module RunSteps {
  import opened Basics
  import opened RunController

  // ----- the invariant -----

  /** An execution not yet counted gets a slot. */
  lemma ResumeKeeps(s: Slots, e: Execution)
    requires SlotInv(s) && (e in s.phase ==> s.phase[e] == Woken)
    ensures SlotInv(ResumeSlot(s, e))
  {
    var t := ResumeSlot(s, e);
    assert InPhase(t, Holding) == InPhase(s, Holding) + {e};
    assert InPhase(t, Woken) == InPhase(s, Woken) - {e};
  }

  lemma AcquireKeeps(s: Slots, e: Execution)
    requires SlotInv(s) && e !in s.phase
    ensures SlotInv(AcquireSlot(s, e))
  {
    var t := AcquireSlot(s, e);
    if s.active < s.concurrency {
      ResumeKeeps(s, e);
    } else {
      assert InPhase(t, Woken) == InPhase(s, Woken) && InPhase(t, Holding) == InPhase(s, Holding);
      assert e !in s.queue;
      assert forall x :: x in t.queue <==> x in s.queue || x == e;
    }
  }

  lemma ReleaseKeeps(s: Slots, e: Execution)
    requires SlotInv(s) && e in s.phase && s.phase[e] == Holding
    ensures SlotInv(ReleaseSlot(s, e))
  {
    var t := ReleaseSlot(s, e);
    assert e in InPhase(s, Holding) && e !in s.queue;
    assert InPhase(t, Holding) == InPhase(s, Holding) - {e};
    if s.queue == [] {
      assert InPhase(t, Woken) == InPhase(s, Woken);
    } else {
      var next := s.queue[0];
      assert next in s.queue && next !in InPhase(s, Woken);
      assert InPhase(t, Woken) == InPhase(s, Woken) + {next};
      assert forall x :: x in t.queue <==> x in s.queue && x != next;
    }
  }

  lemma TouchKeeps(s: Runs, run: RunId, status: Status)
    requires RunInv(s) && run in s.runs
    ensures RunInv(Touch(s, run, status))
  {
  }

  lemma AppendIsMore(q: seq<nat>, x: nat)
    requires Distinct(q) && x !in q
    ensures Distinct(q + [x]) && forall y :: y in q + [x] <==> y in q || y == x
  {
  }

  lemma WaitKeeps(s: Runs, run: RunId, w: Waiter)
    requires RunInv(s) && run in s.runs && w !in s.registered
    ensures RunInv(Wait(s, run, w))
  {
    var t := Wait(s, run, w);
    assert RunOk(s, run) && w !in s.runs[run].waiters;
    AppendIsMore(s.runs[run].waiters, w);
    forall r | r in t.runs ensures RunOk(t, r) { assert RunOk(s, r); }
    forall x | x in t.registered ensures WaiterOk(t, x) {
      if x != w { assert WaiterOk(s, x); }
    }
  }

  lemma {:induction false} RemoveIsPart(waiters: seq<Waiter>, w: Waiter)
    requires Distinct(waiters)
    ensures Distinct(Remove(waiters, w))
    ensures forall x :: x in Remove(waiters, w) <==> x in waiters && x != w
  {
    if waiters != [] {
      RemoveIsPart(waiters[1..], w);
      assert forall x :: x in waiters <==> x == waiters[0] || x in waiters[1..];
      assert waiters[0] !in waiters[1..];
      assert waiters[0] !in Remove(waiters[1..], w);
    }
  }

  lemma AbortKeeps(s: Runs, w: Waiter)
    requires RunInv(s) && w in s.registered
    ensures RunInv(AbortWait(s, w))
  {
    var run, t := s.registered[w], AbortWait(s, w);
    RemoveIsPart(s.runs[run].waiters, w);
    forall r | r in t.runs ensures RunOk(t, r) { assert RunOk(s, r); }
    forall x | x in t.registered ensures WaiterOk(t, x) { assert WaiterOk(s, x); }
  }

  lemma QueueHasPhases(s: Slots)
    requires SlotInv(s)
    ensures s.queue != [] ==> s.queue[0] in s.phase
  {
    if s.queue != [] { assert s.queue[0] in s.queue; }
  }

  lemma ExecuteKeeps(slots: Slots, runs: Runs, run: RunId, e: Execution)
    requires Inv(State(slots, runs)) && run in runs.runs && e !in slots.phase
    ensures Inv(Execute(slots, runs, run, e)) && Execute(slots, runs, run, e).slots.concurrency == slots.concurrency
  {
    AcquireKeeps(slots, e);
    OwnKeeps(runs, run, e);
  }

  lemma OwnKeeps(s: Runs, run: RunId, e: Execution)
    requires RunInv(s) && run in s.runs
    ensures RunInv(s.(owner := s.owner[e := run], runs := s.runs[run := s.runs[run].(current := e)]))
  {
    UnseenKeeps(s, s.(runs := s.runs[run := s.runs[run].(current := e)]));
  }

  lemma DeliverKeeps(slots: Slots, runs: Runs, run: RunId, e: Execution)
    requires Inv(State(slots, runs)) && run in runs.runs && e !in slots.phase
    ensures Inv(Deliver(slots, runs, run, e)) && Deliver(slots, runs, run, e).slots.concurrency == slots.concurrency
  {
    TouchKeeps(runs, run, Running);
    if !(runs.runs[run].status == Running && runs.runs[run].hasHandle) {
      ExecuteKeeps(slots, Touch(runs, run, Running), run, e);
    }
  }

  lemma FinishKeeps(s: State, e: Execution, status: Status)
    requires Inv(s) && Can(s, Finishes(e, status))
    ensures Inv(Do(s, Finishes(e, status)))
  {
    ReleaseKeeps(s.slots, e);
    QueueHasPhases(s.slots);
    TouchKeeps(s.runs, s.runs.owner[e], status);
  }

  /** A change that no waiter can see. */
  lemma UnseenKeeps(s: Runs, t: Runs)
    requires RunInv(s) && t.registered == s.registered && t.settled == s.settled && t.owner == s.owner
    requires s.runs.Keys <= t.runs.Keys
    requires forall r | r in s.runs :: t.runs[r].status == s.runs[r].status && t.runs[r].waiters == s.runs[r].waiters
    requires forall r | r in t.runs && r !in s.runs :: t.runs[r].waiters == []
    ensures RunInv(t)
  {
  }

  predicate OnlyWaiters(ev: Event) {
    ev.Waits? || ev.AbortsWait? || ev.Interrupts? || ev.Closes? || ev.HandleChanges?
  }

  lemma WaitersStepKeeps(s: State, ev: Event)
    requires Inv(s) && Can(s, ev) && OnlyWaiters(ev)
    ensures Inv(Do(s, ev)) && Do(s, ev).slots == s.slots
  {
    match ev
    case Waits(run, w) => WaitKeeps(s.runs, run, w);
    case AbortsWait(w) => AbortKeeps(s.runs, w);
    case Interrupts(run) => TouchKeeps(s.runs, run, Interrupted);
    case Closes(run) => TouchKeeps(s.runs, run, Closed);
    case HandleChanges(run, present) => UnseenKeeps(s.runs, Do(s, ev).runs);
  }

  lemma ParkKeeps(s: Runs, run: RunId, p: Parked)
    requires RunInv(s) && run in s.runs
    ensures RunInv(Park(s, run)) && RunInv(Unpark(s, p))
  {
    UnseenKeeps(s, Park(s, run));
    UnseenKeeps(s, Unpark(s, p));
  }

  lemma MessageKeeps(s: State, run: RunId, e: Execution)
    requires Inv(s) && Can(s, Messages(run, e))
    ensures Inv(Do(s, Messages(run, e))) && Do(s, Messages(run, e)).slots.concurrency == s.slots.concurrency
  {
    DeliverKeeps(s.slots, s.runs, run, e);
    ParkKeeps(s.runs, run, Parked(run, e));
  }

  lemma MessageResumeKeeps(s: State, run: RunId, awaited: Execution, e: Execution)
    requires Inv(s) && Can(s, MessageResumes(run, awaited, e))
    ensures Inv(Do(s, MessageResumes(run, awaited, e)))
    ensures Do(s, MessageResumes(run, awaited, e)).slots.concurrency == s.slots.concurrency
  {
    ParkKeeps(s.runs, run, Parked(run, awaited));
    DeliverKeeps(s.slots, Unpark(s.runs, Parked(run, awaited)), run, e);
  }

  lemma StartKeeps(s: State, run: RunId, e: Execution)
    requires Inv(s) && Can(s, Starts(run, e))
    ensures Inv(Do(s, Starts(run, e))) && Do(s, Starts(run, e)).slots.concurrency == s.slots.concurrency
  {
    var added := s.runs.(runs := s.runs.runs[run := Run(Running, false, [], e)]);
    UnseenKeeps(s.runs, added);
    ExecuteKeeps(s.slots, added, run, e);
  }

  lemma StepKeeps(s: State, ev: Event)
    requires Inv(s) && Can(s, ev)
    ensures Inv(Do(s, ev)) && Do(s, ev).slots.concurrency == s.slots.concurrency
  {
    if OnlyWaiters(ev) {
      WaitersStepKeeps(s, ev);
    } else {
      match ev
      case Starts(run, e) => StartKeeps(s, run, e);
      case Resumes(e) => ResumeKeeps(s.slots, e);
      case Finishes(e, status) => FinishKeeps(s, e, status);
      case Messages(run, e) => MessageKeeps(s, run, e);
      case MessageResumes(run, awaited, e) => MessageResumeKeeps(s, run, awaited, e);
    }
  }

  lemma {:induction false} RunKeeps(s: State, run: seq<Event>)
    requires Inv(s) && CanRun(s, run)
    ensures Inv(After(s, run)) && After(s, run).slots.concurrency == s.slots.concurrency
    decreases |run|
  {
    if run != [] {
      StepKeeps(s, run[0]);
      RunKeeps(Do(s, run[0]), run[1..]);
    }
  }

  lemma StartInv(concurrency: nat)
    ensures Inv(Start(concurrency)) && AwaitedBegan(Start(concurrency))
  {
    assert InPhase(Start(concurrency).slots, Holding) == {};
  }

  // ----- what messages wait for -----

  lemma PhasesGrow(s: State, ev: Event)
    requires Can(s, ev)
    ensures s.slots.phase.Keys <= Do(s, ev).slots.phase.Keys
  {
  }

  lemma DeliverBegins(slots: Slots, runs: Runs, run: RunId, e: Execution)
    requires AwaitedBegan(State(slots, runs)) && run in runs.runs
    ensures AwaitedBegan(Deliver(slots, runs, run, e))
  {
  }

  lemma AwaitedKeeps(s: State, ev: Event)
    requires AwaitedBegan(s) && Can(s, ev)
    ensures AwaitedBegan(Do(s, ev))
  {
    PhasesGrow(s, ev);
    match ev
    case Messages(run, e) => DeliverBegins(s.slots, s.runs, run, e);
    case MessageResumes(run, awaited, e) => DeliverBegins(s.slots, Unpark(s.runs, Parked(run, awaited)), run, e);
    case _ =>
  }

  lemma {:induction false} AwaitedKept(s: State, run: seq<Event>)
    requires AwaitedBegan(s) && CanRun(s, run)
    ensures AwaitedBegan(After(s, run))
    decreases |run|
  {
    if run != [] {
      AwaitedKeeps(s, run[0]);
      AwaitedKept(Do(s, run[0]), run[1..]);
    }
  }

  // ----- what settles or ends -----

  predicate StaysSettled(s: Runs, t: Runs, w: Waiter)
    requires w in s.settled
  {
    w in t.settled && t.settled[w] == s.settled[w]
  }

  lemma TouchLeavesSettled(s: Runs, run: RunId, status: Status, w: Waiter)
    requires RunInv(s) && run in s.runs && w in s.settled
    ensures StaysSettled(s, Touch(s, run, status), w) && StaysSettled(s, TouchIfRunning(s, run, status), w)
  {
    assert w !in s.runs[run].waiters;
  }

  lemma DeliverLeavesSettled(slots: Slots, s: Runs, run: RunId, e: Execution, w: Waiter)
    requires RunInv(s) && run in s.runs && w in s.settled
    ensures StaysSettled(s, Deliver(slots, s, run, e).runs, w)
  {
    TouchLeavesSettled(s, run, Running, w);
  }

  lemma StepLeavesSettled(s: State, ev: Event, w: Waiter)
    requires Inv(s) && Can(s, ev) && w in s.runs.settled
    ensures StaysSettled(s.runs, Do(s, ev).runs, w)
  {
    match ev
    case Finishes(e, status) => TouchLeavesSettled(s.runs, s.runs.owner[e], status, w);
    case Interrupts(run) => TouchLeavesSettled(s.runs, run, Interrupted, w);
    case Closes(run) => TouchLeavesSettled(s.runs, run, Closed, w);
    case Messages(run, e) => DeliverLeavesSettled(s.slots, s.runs, run, e, w);
    case MessageResumes(run, awaited, e) =>
      ParkKeeps(s.runs, run, Parked(run, awaited));
      DeliverLeavesSettled(s.slots, Unpark(s.runs, Parked(run, awaited)), run, e, w);
    case _ =>
  }

  predicate IsOver(s: State, e: Execution) {
    e in s.slots.phase && s.slots.phase[e] == Over
  }

  lemma StepLeavesOver(s: State, ev: Event, e: Execution)
    requires Inv(s) && Can(s, ev) && IsOver(s, e)
    ensures IsOver(Do(s, ev), e)
  {
    if s.slots.queue != [] { assert s.slots.queue[0] in s.slots.queue; }
  }

  // ----- the queue -----

  /** The later queue is the earlier one without its first `k`, and new executions after it. */
  ghost predicate Advances(s: Slots, t: Slots, k: nat, added: seq<Execution>) {
    && k <= |s.queue| && t.queue == s.queue[k..] + added
    && (forall e | e in added :: e !in s.phase)
    && s.phase.Keys <= t.phase.Keys
  }

  ghost predicate FirstInFirstOut(s: Slots, t: Slots) {
    exists k: nat, added :: Advances(s, t, k, added)
  }

  lemma AcquireAdvances(s: Slots, e: Execution)
    requires e !in s.phase
    ensures FirstInFirstOut(s, AcquireSlot(s, e))
  {
    var added := if s.active < s.concurrency then [] else [e];
    assert Advances(s, AcquireSlot(s, e), 0, added);
  }

  lemma ReleaseAdvances(s: Slots, e: Execution)
    requires SlotInv(s)
    ensures FirstInFirstOut(s, ReleaseSlot(s, e))
  {
    if s.queue != [] { assert s.queue[0] in s.queue; }
    assert Advances(s, ReleaseSlot(s, e), if s.queue == [] then 0 else 1, []);
  }

  lemma SameQueueAdvances(s: Slots, t: Slots)
    requires t.queue == s.queue && s.phase.Keys <= t.phase.Keys
    ensures FirstInFirstOut(s, t)
  {
    assert Advances(s, t, 0, []);
  }

  lemma StepAdvances(s: State, ev: Event)
    requires Inv(s) && Can(s, ev)
    ensures FirstInFirstOut(s.slots, Do(s, ev).slots)
  {
    match ev
    case Starts(_, e) => AcquireAdvances(s.slots, e);
    case Messages(_, e) => AcquireAdvances(s.slots, e); SameQueueAdvances(s.slots, s.slots);
    case MessageResumes(_, _, e) => AcquireAdvances(s.slots, e); SameQueueAdvances(s.slots, s.slots);
    case Finishes(e, _) => ReleaseAdvances(s.slots, e);
    case _ => SameQueueAdvances(s.slots, Do(s, ev).slots);
  }

  lemma AdvancesOn(s: Slots, t: Slots, u: Slots)
    requires FirstInFirstOut(s, t) && FirstInFirstOut(t, u)
    ensures FirstInFirstOut(s, u)
  {
    var j: nat, a :| Advances(s, t, j, a);
    var k: nat, b :| Advances(t, u, k, b);
    var left := |s.queue| - j;
    if k <= left {
      assert u.queue == s.queue[j + k..] + (a + b);
      assert Advances(s, u, j + k, a + b);
    } else {
      assert u.queue == s.queue[|s.queue|..] + (a[k - left..] + b);
      assert forall e | e in a[k - left..] :: e in a;
      assert Advances(s, u, |s.queue|, a[k - left..] + b);
    }
  }

  // ----- a closed run -----

  predicate HasStatus(s: State, run: RunId, status: Status) {
    run in s.runs.runs && s.runs.runs[run].status == status
  }

  lemma TouchStatus(s: Runs, r: RunId, status: Status, run: RunId)
    requires r in s.runs && run in s.runs
    ensures run in Touch(s, r, status).runs
    ensures Touch(s, r, status).runs[run].status == if r == run then status else s.runs[run].status
    ensures TouchIfRunning(s, r, status).runs.Keys == s.runs.Keys
    ensures s.runs[run].status != Running ==> TouchIfRunning(s, r, status).runs[run].status == s.runs[run].status
  {
  }

  lemma DeliverStatus(slots: Slots, s: Runs, r: RunId, e: Execution, run: RunId)
    requires r in s.runs && run in s.runs && s.runs[run].status == Closed
    ensures HasStatus(Deliver(slots, s, r, e), run, if r == run then Running else Closed)
  {
    TouchStatus(s, r, Running, run);
  }

  /** A run whose session does not exist yet, with its execution holding a slot. */
  predicate Starting(s: State, run: RunId, e: Execution) {
    && run in s.runs.runs && s.runs.runs[run] == Run(Running, false, s.runs.runs[run].waiters, e)
    && e in s.slots.phase && s.slots.phase[e] == Holding
    && e in s.runs.owner && s.runs.owner[e] == run
  }

  /** A message to such a run waits for its execution, and goes on waiting when the run is closed. */
  lemma ClosedWhileWaiting(s: State, run: RunId, e: Execution, x: Execution)
    requires Starting(s, run, e) && x !in s.slots.phase
    ensures var t := Do(s, Messages(run, x));
      && Can(t, Closes(run)) && t.slots == s.slots
      && var u := Do(t, Closes(run));
      && u.slots == s.slots && u.runs.owner == s.runs.owner && Parked(run, e) in u.runs.parked
      && run in u.runs.runs && u.runs.runs[run].status == Closed
  {
  }

  /** When the execution ends, the message goes ahead, and the closed run is running again. */
  lemma ReopenedOnce(u: State, run: RunId, e: Execution, x: Execution)
    requires SlotInv(u.slots) && x !in u.slots.phase && e in u.slots.phase && u.slots.phase[e] == Holding
    requires e in u.runs.owner && u.runs.owner[e] == run && Parked(run, e) in u.runs.parked
    requires run in u.runs.runs && u.runs.runs[run].status == Closed
    ensures Can(u, Finishes(e, Completed))
    ensures var v := Do(u, Finishes(e, Completed));
      Can(v, MessageResumes(run, e, x)) && Do(v, MessageResumes(run, e, x)).runs.runs[run].status == Running
  {
    if u.slots.queue != [] { assert u.slots.queue[0] in u.slots.queue; }
  }

  // ----- short runs -----

  lemma FirstHolds(concurrency: nat, run: RunId, e: Execution)
    requires concurrency > 0
    ensures Can(Start(concurrency), Starts(run, e))
    ensures var s := Do(Start(concurrency), Starts(run, e));
      && Inv(s) && s.slots.active == 1 && s.slots.concurrency == concurrency && s.slots.queue == []
      && s.slots.phase == map[e := Holding] && s.runs.owner == map[e := run] && s.runs.runs.Keys == {run}
  {
    StartInv(concurrency);
    StartKeeps(Start(concurrency), run, e);
  }

  lemma SecondWaits(s: State, run: RunId, e: Execution)
    requires Inv(s) && Can(s, Starts(run, e)) && s.slots.active == s.slots.concurrency
    ensures var t := Do(s, Starts(run, e));
      && Inv(t) && t.slots == s.slots.(queue := s.slots.queue + [e], phase := s.slots.phase[e := Queued])
      && t.runs.owner == s.runs.owner[e := run] && t.runs.runs.Keys == s.runs.runs.Keys + {run}
  {
    StartKeeps(s, run, e);
  }

  lemma InTwoHalves(s: State, a: Event, b: Event, c: Event, d: Event)
    requires Can(s, a) && Can(Do(s, a), b)
    requires var u := Do(Do(s, a), b); Can(u, c) && Can(Do(u, c), d)
    ensures var u := Do(Do(s, a), b);
      && CanRun(s, [a, b]) && After(s, [a, b]) == u
      && CanRun(s, [a, b, c, d]) && After(s, [a, b, c, d]) == Do(Do(u, c), d)
  {
    Twice(s, a, b);
    Twice(Do(Do(s, a), b), c, d);
    Append(s, [a, b], [c, d]);
    assert [a, b] + [c, d] == [a, b, c, d];
  }

  lemma Once(s: State, a: Event)
    requires Can(s, a)
    ensures CanRun(s, [a]) && After(s, [a]) == Do(s, a)
  {
    assert [a][1..] == [];
    Unroll(s, [a]);
  }

  lemma Before(s: State, a: Event, rest: seq<Event>)
    requires Can(s, a) && CanRun(Do(s, a), rest)
    ensures CanRun(s, [a] + rest) && After(s, [a] + rest) == After(Do(s, a), rest)
  {
    assert ([a] + rest)[1..] == rest;
    Unroll(s, [a] + rest);
  }

  lemma Thrice(s: State, a: Event, b: Event, c: Event)
    requires Can(s, a) && Can(Do(s, a), b) && Can(Do(Do(s, a), b), c)
    ensures CanRun(s, [a, b, c]) && After(s, [a, b, c]) == Do(Do(Do(s, a), b), c)
  {
    Twice(Do(s, a), b, c);
    Before(s, a, [b, c]);
    assert [a] + [b, c] == [a, b, c];
  }

  lemma Twice(s: State, a: Event, b: Event)
    requires Can(s, a) && Can(Do(s, a), b)
    ensures CanRun(s, [a, b]) && After(s, [a, b]) == Do(Do(s, a), b)
  {
    assert [a, b][1..] == [b];
    Unroll(s, [a, b]);
    Once(Do(s, a), b);
  }

  lemma {:induction false} Append(s: State, first: seq<Event>, rest: seq<Event>)
    requires CanRun(s, first) && CanRun(After(s, first), rest)
    ensures CanRun(s, first + rest) && After(s, first + rest) == After(After(s, first), rest)
    decreases |first|
  {
    if first == [] {
      assert first + rest == rest;
    } else {
      assert (first + rest)[1..] == first[1..] + rest;
      Append(Do(s, first[0]), first[1..], rest);
    }
  }

  lemma Unroll(s: State, run: seq<Event>)
    requires run != [] && Can(s, run[0])
    ensures CanRun(s, run) <==> CanRun(Do(s, run[0]), run[1..])
    ensures CanRun(s, run) ==> After(s, run) == After(Do(s, run[0]), run[1..])
  {
  }
}
