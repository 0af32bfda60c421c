/** The run controller over every interleaving of its asynchronous parts. */
module RunHistory {
  import opened Options
  import opened RunController
  import opened RunSteps
  import opened RunProgress
  import opened RunReserve

  /** No slot is lost: `active` counts exactly the executions that hold one and have yet to release it,
      each of which can finish; and while an execution is queued, those and the ones just woken fill
      the limit, so somebody is there to wake it. */
  lemma SlotsAreNeverLost(concurrency: nat, run: seq<Event>)
    requires CanRun(Start(concurrency), run)
    ensures var s := After(Start(concurrency), run);
      && s.slots.active == |InPhase(s.slots, Holding)| == s.slots.acquired - s.slots.released
      && (s.slots.queue != [] ==> s.slots.active + |InPhase(s.slots, Woken)| >= concurrency)
      && (forall e | e in InPhase(s.slots, Holding) :: Can(s, Finishes(e, Completed)))
  {
    StartInv(concurrency);
    RunKeeps(Start(concurrency), run);
  }

  /** A run has waiters only while it is running; everybody who ever waited on a run that is not running
      any more has been told; and who is still listed has not been. */
  lemma WaitersAreNeverLost(concurrency: nat, run: seq<Event>)
    requires CanRun(Start(concurrency), run)
    ensures var s := After(Start(concurrency), run).runs;
      && (forall r | r in s.runs && s.runs[r].status != Running :: s.runs[r].waiters == [])
      && (forall w | w in s.registered :: s.registered[w] in s.runs)
      && (forall w | w in s.registered && s.runs[s.registered[w]].status != Running :: w in s.settled)
      && (forall w | w in s.registered :: w in s.settled <==> w !in s.runs[s.registered[w]].waiters)
  {
    StartInv(concurrency);
    RunKeeps(Start(concurrency), run);
  }

  /** How a waiter settled never changes, whatever follows. */
  lemma {:induction false} SettledForGood(s: State, run: seq<Event>, w: Waiter)
    requires Inv(s) && CanRun(s, run) && w in s.runs.settled
    ensures StaysSettled(s.runs, After(s, run).runs, w)
    decreases |run|
  {
    if run != [] {
      StepKeeps(s, run[0]);
      StepLeavesSettled(s, run[0], w);
      SettledForGood(Do(s, run[0]), run[1..], w);
    }
  }

  /** An execution that gave its slot back never holds one again. */
  lemma {:induction false} OverForGood(s: State, run: seq<Event>, e: Execution)
    requires Inv(s) && CanRun(s, run) && IsOver(s, e)
    ensures IsOver(After(s, run), e)
    decreases |run|
  {
    if run != [] {
      StepKeeps(s, run[0]);
      StepLeavesOver(s, run[0], e);
      OverForGood(Do(s, run[0]), run[1..], e);
    }
  }

  /** Nobody jumps the queue: over any run it loses executions only at its front and gains only new
      ones, at its end. */
  lemma {:induction false} NobodyJumpsTheQueue(s: State, run: seq<Event>)
    requires Inv(s) && CanRun(s, run)
    ensures FirstInFirstOut(s.slots, After(s, run).slots)
    decreases |run|
  {
    if run == [] {
      SameQueueAdvances(s.slots, s.slots);
    } else {
      StepKeeps(s, run[0]);
      StepAdvances(s, run[0]);
      NobodyJumpsTheQueue(Do(s, run[0]), run[1..]);
      AdvancesOn(s.slots, Do(s, run[0]).slots, After(s, run).slots);
    }
  }

  /** Over every run in which no execution begins on a slot that is due to one woken before, the limit
      holds, and even with all the woken ones counted. */
  lemma LimitKept(concurrency: nat, run: seq<Event>)
    requires CanRun(Start(concurrency), run) && NoneOvertakes(Start(concurrency), run)
    ensures var s := After(Start(concurrency), run).slots;
      s.active <= concurrency && s.active + |InPhase(s, Woken)| <= concurrency
  {
    StartInv(concurrency);
    assert InPhase(Start(concurrency).slots, Woken) == {};
    ReservedKept(Start(concurrency), run);
    RunKeeps(Start(concurrency), run);
  }

  /** The woken executions, going on, stay within the limit in every order. */
  ghost predicate ResumesStayWithin(s: State) {
    forall run | CanRun(s, run) && OnlyResumes(run) :: After(s, run).slots.active <= s.slots.concurrency
  }

  /** What the woken executions can still do to the limit: they exceed it, in some run of theirs, exactly
      when the reserve is broken. */
  lemma WithinExactly(s: State)
    requires Inv(s)
    ensures ResumesStayWithin(s) <==> Reserved(s.slots)
  {
    if Reserved(s.slots) {
      forall run | CanRun(s, run) && OnlyResumes(run) ensures After(s, run).slots.active <= s.slots.concurrency {
        ResumesOvertakeNobody(s, run);
        ReservedKept(s, run);
        RunKeeps(s, run);
      }
    } else {
      var run := ResumeAll(s);
      assert After(s, run).slots.active > s.slots.concurrency;
    }
  }

  /** So the limit is lost at exactly one kind of step: after any run without one, the next step lets the
      woken executions exceed the limit if and only if it begins an execution on a slot due to them. */
  lemma LimitLostExactly(concurrency: nat, run: seq<Event>, ev: Event)
    requires CanRun(Start(concurrency), run) && NoneOvertakes(Start(concurrency), run)
    requires Can(After(Start(concurrency), run), ev)
    ensures var s := After(Start(concurrency), run);
      ResumesStayWithin(Do(s, ev)) <==> !TakesReserved(s, ev)
  {
    var s := After(Start(concurrency), run);
    LimitKept(concurrency, run);
    StartInv(concurrency);
    RunKeeps(Start(concurrency), run);
    ReservedKeptExactly(s, ev);
    StepKeeps(s, ev);
    WithinExactly(Do(s, ev));
  }

  /** And it is lost without bound: whatever the limit, there is a run with any number of executions
      active at once. */
  lemma {:induction false} ActiveHasNoBound(concurrency: nat, n: nat) returns (run: seq<Event>)
    requires concurrency > 0
    ensures CanRun(Start(concurrency), run)
    ensures var s := After(Start(concurrency), run);
      Quiet(s) && s.slots.active == n && s.slots.concurrency == concurrency
    decreases n
  {
    if n == 0 {
      StartInv(concurrency);
      assert InPhase(Start(concurrency).slots, Woken) == {};
      run := [];
    } else {
      var before := ActiveHasNoBound(concurrency, n - 1);
      var s := After(Start(concurrency), before);
      var more: seq<Event>;
      if n - 1 < concurrency {
        var ev := StartFresh(s);
        Once(s, ev);
        more := [ev];
      } else {
        more := Grow(s);
      }
      Append(Start(concurrency), before, more);
      run := before + more;
    }
  }

  /** A fresh start can take the slot between a release and the moment the execution it woke counts
      itself; whenever somebody is queued at the limit, this takes `active` past it. */
  lemma StartOvertakes(s: State, done: Execution, run: RunId, e: Execution)
    requires Inv(s) && s.slots.active == s.slots.concurrency && s.slots.queue != []
    requires Can(s, Finishes(done, Completed)) && Can(s, Starts(run, e))
    ensures var t := Do(s, Finishes(done, Completed));
      && Can(t, Starts(run, e))
      && Can(Do(t, Starts(run, e)), Resumes(s.slots.queue[0]))
      && Do(Do(t, Starts(run, e)), Resumes(s.slots.queue[0])).slots.active == s.slots.concurrency + 1
  {
    QueueHasPhases(s.slots);
    var t := Do(s, Finishes(done, Completed));
    assert t.slots.active == s.slots.concurrency - 1 && t.slots.phase[s.slots.queue[0]] == Woken;
  }

  predicate Different(a: nat, b: nat, c: nat) {
    a != b && a != c && b != c
  }

  /** The limit is not an invariant: any three runs on a controller with one slot exceed it when the
      third starts just after the first ended. */
  lemma LimitCanBeExceeded(r0: RunId, e0: Execution, r1: RunId, e1: Execution, r2: RunId, e2: Execution)
    requires Different(r0, r1, r2) && Different(e0, e1, e2)
    ensures var run := [Starts(r0, e0), Starts(r1, e1), Finishes(e0, Completed), Starts(r2, e2), Resumes(e1)];
      CanRun(Start(1), run) && After(Start(1), run).slots.active == 2
  {
    FirstHolds(1, r0, e0);
    ThirdOvertakes(Do(Start(1), Starts(r0, e0)), r1, e1, e0, r2, e2);
    var first, rest := Starts(r0, e0), [Starts(r1, e1)] + [Finishes(e0, Completed), Starts(r2, e2), Resumes(e1)];
    Before(Start(1), first, rest);
    assert [first] + rest == [first, rest[0], rest[1], rest[2], rest[3]];
  }

  /** With all slots taken and nobody waiting, two more starts around an end exceed the limit. */
  lemma ThirdOvertakes(s: State, r1: RunId, e1: Execution, done: Execution, r2: RunId, e2: Execution)
    requires Inv(s) && s.slots.active == s.slots.concurrency && s.slots.queue == []
    requires Can(s, Starts(r1, e1)) && Can(s, Finishes(done, Completed)) && Can(s, Starts(r2, e2))
    requires r1 != r2 && e1 != e2
    ensures var run := [Starts(r1, e1)] + [Finishes(done, Completed), Starts(r2, e2), Resumes(e1)];
      CanRun(s, run) && After(s, run).slots.active == s.slots.concurrency + 1
  {
    var t := Do(s, Starts(r1, e1));
    SecondWaits(s, r1, e1);
    StartOvertakes(t, done, r2, e2);
    Thrice(t, Finishes(done, Completed), Starts(r2, e2), Resumes(e1));
    Before(s, Starts(r1, e1), [Finishes(done, Completed), Starts(r2, e2), Resumes(e1)]);
  }

  /** A closed run stays closed over all continuations exactly when no message is parked on it at the
      time: every parked one can go ahead, whatever its execution still has to wait for, and then the run
      is running again. */
  lemma ClosedForGoodExactly(s: State, run: RunId)
    requires Inv(s) && AwaitedBegan(s) && s.slots.concurrency > 0 && HasStatus(s, run, Closed)
    ensures ClosedForGood(s, run) <==> forall p | p in s.runs.parked :: p.run != run
  {
    if NoneParked(s, run) { NoneParkedIsForGood(s, run); }
    forall p | p in s.runs.parked && p.run == run ensures !ClosedForGood(s, run) { ParkedIsNotForGood(s, p); }
  }

  ghost predicate ClosedForGood(s: State, run: RunId) {
    forall events | CanRun(s, events) :: HasStatus(After(s, events), run, Closed)
  }

  lemma NoneParkedIsForGood(s: State, run: RunId)
    requires HasStatus(s, run, Closed) && NoneParked(s, run)
    ensures ClosedForGood(s, run)
  {
    forall events | CanRun(s, events) ensures HasStatus(After(s, events), run, Closed) {
      StaysClosed(s, events, run);
    }
  }

  lemma ParkedIsNotForGood(s: State, p: Parked)
    requires Live(s, p.run) && p in s.runs.parked && p.awaited in s.slots.phase
    ensures !ClosedForGood(s, p.run)
  {
    var events := ParkedReopens(s, p);
    assert CanRun(s, events) && !HasStatus(After(s, events), p.run, Closed);
  }

  /** The states these statements speak of are all that a controller can reach. */
  lemma EveryStateIsCovered(concurrency: nat, events: seq<Event>)
    requires CanRun(Start(concurrency), events)
    ensures var s := After(Start(concurrency), events);
      Inv(s) && AwaitedBegan(s) && s.slots.concurrency == concurrency
  {
    StartInv(concurrency);
    RunKeeps(Start(concurrency), events);
    AwaitedKept(Start(concurrency), events);
  }

  /** Every run that is closed before its session exists, with a message waiting, is opened again when
      its execution ends. */
  lemma ClosedIsNotFinal(s: State, run: RunId, e: Execution, x: Execution)
    requires Inv(s) && Starting(s, run, e) && x !in s.slots.phase
    ensures var events := [Messages(run, x), Closes(run), Finishes(e, Completed), MessageResumes(run, e, x)];
      && CanRun(s, events[..2]) && HasStatus(After(s, events[..2]), run, Closed)
      && CanRun(s, events) && HasStatus(After(s, events), run, Running)
  {
    var a, b, c, d := Messages(run, x), Closes(run), Finishes(e, Completed), MessageResumes(run, e, x);
    ClosedWhileWaiting(s, run, e, x);
    var u := Do(Do(s, a), b);
    ReopenedOnce(u, run, e, x);
    InTwoHalves(s, a, b, c, d);
    assert [a, b, c, d][..2] == [a, b];
  }

  /** The first start of a controller with a free slot makes such a run. */
  lemma FirstStart(concurrency: nat, run: RunId, e: Execution)
    requires concurrency > 0
    ensures Can(Start(concurrency), Starts(run, e))
    ensures var s := Do(Start(concurrency), Starts(run, e)); Inv(s) && Starting(s, run, e)
  {
    StartInv(concurrency);
    StepKeeps(Start(concurrency), Starts(run, e));
  }

  // ----- the status of a run -----

  function StatusOf(s: State, run: RunId): Option<Status> {
    StatusIn(s.runs, run)
  }

  /** What each event makes of the status of a run: the end of an execution and an interrupt change it only
      while it is running, a close always, and a message sets it running again. */
  lemma StatusExactly(s: State, ev: Event, run: RunId)
    requires Can(s, ev)
    ensures var old_ := StatusOf(s, run);
      StatusOf(Do(s, ev), run) == match ev
        case Starts(r, _) => if r == run then Some(Running) else old_
        case Finishes(e, status) => if s.runs.owner[e] == run && old_ == Some(Running) then Some(status) else old_
        case Interrupts(r) => if r == run && old_ == Some(Running) then Some(Interrupted) else old_
        case Closes(r) => if r == run then Some(Closed) else old_
        case Messages(r, _) => if r == run then Some(Running) else old_
        case MessageResumes(r, _, _) => if r == run then Some(Running) else old_
        case _ => old_
  {
    match ev
    case Messages(r, e) => DeliveredStatus(s.slots, s.runs, r, e, run);
    case MessageResumes(r, awaited, e) => DeliveredStatus(s.slots, Unpark(s.runs, Parked(r, awaited)), r, e, run);
    case Finishes(e, status) => TouchedStatus(s.runs, s.runs.owner[e], status, run);
    case Interrupts(r) => TouchedStatus(s.runs, r, Interrupted, run);
    case Closes(r) => TouchedStatus(s.runs, r, Closed, run);
    case _ =>
  }

  function StatusIn(s: Runs, run: RunId): Option<Status> {
    if run in s.runs then Some(s.runs[run].status) else None
  }

  lemma TouchedStatus(s: Runs, r: RunId, status: Status, run: RunId)
    requires r in s.runs
    ensures StatusIn(Touch(s, r, status), run) == if r == run then Some(status) else StatusIn(s, run)
    ensures StatusIn(TouchIfRunning(s, r, status), run)
         == if r == run && StatusIn(s, run) == Some(Running) then Some(status) else StatusIn(s, run)
  {
  }

  lemma DeliveredStatus(slots: Slots, s: Runs, r: RunId, e: Execution, run: RunId)
    requires r in s.runs
    ensures StatusOf(Deliver(slots, s, r, e), run)
         == if r == run then Some(Running) else StatusOf(State(slots, s), run)
  {
  }

  /** An event that can change the status of a run which is not running. */
  predicate Rouses(ev: Event, run: RunId) {
    (ev.Messages? || ev.MessageResumes? || ev.Closes? || ev.Starts?) && ev.run == run
  }

  /** A run that has ended, however it ended, keeps that status until somebody sends it a message or closes
      it. */
  lemma {:induction false} EndStays(s: State, events: seq<Event>, run: RunId, status: Status)
    requires CanRun(s, events) && HasStatus(s, run, status) && status != Running
    requires forall i | 0 <= i < |events| :: !Rouses(events[i], run)
    ensures HasStatus(After(s, events), run, status)
    decreases |events|
  {
    if events != [] {
      assert !Rouses(events[0], run);
      StatusExactly(s, events[0], run);
      assert forall i | 0 <= i < |events[1..]| :: events[1..][i] == events[i + 1];
      EndStays(Do(s, events[0]), events[1..], run, status);
    }
  }

  function CurrentOf(s: State, run: RunId): Option<Execution> {
    if run in s.runs.runs then Some(s.runs.runs[run].current) else None
  }

  /** The execution whose end a run waits for is the last that was begun for it: at its start, or by a
      message to a run that is not running, or that goes on to one without a session. */
  lemma CurrentExactly(s: State, ev: Event, run: RunId)
    requires Can(s, ev)
    ensures CurrentOf(Do(s, ev), run) == if Begins(s, ev) && ev.run == run then Some(ev.e) else CurrentOf(s, run)
    ensures Begins(s, ev) ==> ev.e in Do(s, ev).runs.owner && Do(s, ev).runs.owner[ev.e] == ev.run
  {
  }

  /** A message waits exactly if its run is running and has no session yet, and then for the execution the
      run has at the time; it stops waiting when it goes on. */
  lemma ParkedExactly(s: State, ev: Event)
    requires Can(s, ev)
    ensures Do(s, ev).runs.parked ==
      if ev.Messages? && s.runs.runs[ev.run].status == Running && !s.runs.runs[ev.run].hasHandle then
        s.runs.parked + multiset{Parked(ev.run, s.runs.runs[ev.run].current)}
      else if ev.MessageResumes? then s.runs.parked - multiset{Parked(ev.run, ev.awaited)}
      else s.runs.parked
  {
  }

  /** Whether a run has a session changes only where a session is created or disposed; a start has none
      yet. */
  lemma SessionExactly(s: State, ev: Event, run: RunId)
    requires Can(s, ev)
    ensures HasSession(Do(s, ev).runs, run) <==>
      if ev.HandleChanges? && ev.run == run then ev.present else HasSession(s.runs, run)
  {
    match ev
    case Messages(r, e) => DeliveredSession(s.slots, s.runs, r, e, run);
    case MessageResumes(r, awaited, e) => DeliveredSession(s.slots, Unpark(s.runs, Parked(r, awaited)), r, e, run);
    case Finishes(e, status) => TouchedSession(s.runs, s.runs.owner[e], status, run);
    case Interrupts(r) => TouchedSession(s.runs, r, Interrupted, run);
    case Closes(r) => TouchedSession(s.runs, r, Closed, run);
    case _ =>
  }

  predicate HasSession(s: Runs, run: RunId) {
    run in s.runs && s.runs[run].hasHandle
  }

  lemma TouchedSession(s: Runs, r: RunId, status: Status, run: RunId)
    requires r in s.runs
    ensures HasSession(Touch(s, r, status), run) <==> HasSession(s, run)
    ensures HasSession(TouchIfRunning(s, r, status), run) <==> HasSession(s, run)
  {
  }

  lemma DeliveredSession(slots: Slots, s: Runs, r: RunId, e: Execution, run: RunId)
    requires r in s.runs
    ensures HasSession(Deliver(slots, s, r, e).runs, run) <==> HasSession(s, run)
  {
    TouchedSession(s, r, Running, run);
  }

  /** Who waits on a run that is running is listed last, and registered with it; on any other run nobody
      waits. */
  lemma WaitingExactly(s: State, run: RunId, w: Waiter)
    requires Can(s, Waits(run, w))
    ensures var t := Do(s, Waits(run, w)).runs;
      if s.runs.runs[run].status == Running then
        t.registered == s.runs.registered[w := run] && t.runs[run].waiters == s.runs.runs[run].waiters + [w]
      else t == s.runs
  {
  }

  /** How a step settles a waiter: an abort rejects the one it names if it is still listed, everything else
      wakes, and wakes exactly those listed on a run that stops running. */
  lemma SettlementExactly(s: State, ev: Event, w: Waiter)
    requires Inv(s) && Can(s, ev) && w in s.runs.registered && w !in s.runs.settled
    ensures var run, t := s.runs.registered[w], Do(s, ev);
      && (w in t.runs.settled <==> ev == AbortsWait(w) || StatusOf(t, run) != Some(Running))
      && (w in t.runs.settled ==> t.runs.settled[w] == if ev == AbortsWait(w) then Aborted else Woke)
  {
    var run := s.runs.registered[w];
    assert WaiterOk(s.runs, w) && RunOk(s.runs, run);
    assert StatusOf(s, run) == Some(Running);
    StatusExactly(s, ev, run);
    if ev.Finishes? || ev.Interrupts? || ev.Closes? {
      TouchStep(s, ev, w);
    } else if ev.Messages? || ev.MessageResumes? {
      MessageStep(s, ev, w);
    } else {
      OtherStep(s, ev, w);
    }
  }

  /** What touching a run does to a waiter that has not been told. */
  lemma TouchTells(s: Runs, r: RunId, status: Status, w: Waiter)
    requires RunInv(s) && r in s.runs && w in s.registered && w !in s.settled
    ensures var t := Touch(s, r, status);
      && t.registered == s.registered
      && (w in t.settled <==> status != Running && r == s.registered[w])
      && (w in t.settled ==> t.settled[w] == Woke)
  {
    assert WaiterOk(s, w) && RunOk(s, r);
  }

  lemma DeliverTells(slots: Slots, s: Runs, r: RunId, e: Execution, w: Waiter)
    requires RunInv(s) && r in s.runs && w in s.registered && w !in s.settled
    ensures var t := Deliver(slots, s, r, e).runs; t.registered == s.registered && w !in t.settled
  {
    TouchTells(s, r, Running, w);
  }

  /** What a step does to a waiter that has not been told: the run it waits for, and what it is told. */
  ghost predicate Tells(s: State, t: State, w: Waiter, aborted: bool, stops: bool) {
    && t.runs.registered.Keys >= s.runs.registered.Keys
    && (w in s.runs.registered ==> t.runs.registered[w] == s.runs.registered[w])
    && (w in t.runs.settled <==> aborted || stops)
    && (w in t.runs.settled ==> t.runs.settled[w] == if aborted then Aborted else Woke)
  }

  lemma TouchStep(s: State, ev: Event, w: Waiter)
    requires Inv(s) && Can(s, ev) && w in s.runs.registered && w !in s.runs.settled
    requires ev.Finishes? || ev.Interrupts? || ev.Closes?
    ensures Tells(s, Do(s, ev), w, false, StatusOf(Do(s, ev), s.runs.registered[w]) != Some(Running))
  {
    var run := s.runs.registered[w];
    assert WaiterOk(s.runs, w) && RunOk(s.runs, run);
    StatusExactly(s, ev, run);
    match ev
    case Finishes(e, status) => TouchTells(s.runs, s.runs.owner[e], status, w);
    case Interrupts(r) => TouchTells(s.runs, r, Interrupted, w);
    case Closes(r) => TouchTells(s.runs, r, Closed, w);
  }

  lemma MessageStep(s: State, ev: Event, w: Waiter)
    requires Inv(s) && Can(s, ev) && w in s.runs.registered && w !in s.runs.settled
    requires ev.Messages? || ev.MessageResumes?
    ensures Tells(s, Do(s, ev), w, false, false)
  {
    match ev
    case Messages(r, e) => DeliverTells(s.slots, s.runs, r, e, w);
    case MessageResumes(r, awaited, e) =>
      ParkKeeps(s.runs, r, Parked(r, awaited));
      DeliverTells(s.slots, Unpark(s.runs, Parked(r, awaited)), r, e, w);
  }

  lemma OtherStep(s: State, ev: Event, w: Waiter)
    requires Inv(s) && Can(s, ev) && w in s.runs.registered && w !in s.runs.settled
    requires !ev.Finishes? && !ev.Interrupts? && !ev.Closes? && !ev.Messages? && !ev.MessageResumes?
    ensures Tells(s, Do(s, ev), w, ev == AbortsWait(w), false)
  {
    assert WaiterOk(s.runs, w);
  }
}
