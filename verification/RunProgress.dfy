/** Progress in the run controller: while there are slots at all, every execution that was begun can be
    brought to its end by steps of the controller alone. One that is queued waits for somebody who holds
    a slot or has just been woken, and each such end makes the queue in front of it shorter. */
module RunProgress {
  import opened RunController
  import opened RunSteps

  // ----- steps that leave a closed run and the parked messages alone -----

  /** The runs that `t` closes and the messages it parks are those of `s`. */
  ghost predicate Undisturbed(s: State, t: State, run: RunId) {
    && t.runs.parked == s.runs.parked && HasStatus(t, run, Closed)
    && t.slots.concurrency == s.slots.concurrency && t.slots.phase.Keys == s.slots.phase.Keys
  }

  /** A state in which executions can be brought to an end, seen from a closed run. */
  ghost predicate Live(s: State, run: RunId) {
    Inv(s) && HasStatus(s, run, Closed) && s.slots.concurrency > 0
  }

  lemma FinishOne(s: State, e: Execution, run: RunId)
    requires Live(s, run) && e in s.slots.phase && s.slots.phase[e] == Holding
    ensures Can(s, Finishes(e, Completed))
    ensures var t := Do(s, Finishes(e, Completed));
      && Live(t, run) && Undisturbed(s, t, run) && IsOver(t, e)
      && |t.slots.queue| == if s.slots.queue == [] then 0 else |s.slots.queue| - 1
  {
    StepKeeps(s, Finishes(e, Completed));
    TouchStatus(s.runs, s.runs.owner[e], Completed, run);
    FinishShape(s.slots, e);
  }

  lemma FinishShape(s: Slots, e: Execution)
    requires SlotInv(s) && e in s.phase && s.phase[e] == Holding
    ensures var t := ReleaseSlot(s, e);
      && t.phase.Keys == s.phase.Keys && t.phase[e] == Over
      && |t.queue| == if s.queue == [] then 0 else |s.queue| - 1
  {
    if s.queue != [] { assert s.queue[0] in s.queue; }
  }

  lemma ResumeOne(s: State, e: Execution, run: RunId)
    requires Live(s, run) && Can(s, Resumes(e))
    ensures var t := Do(s, Resumes(e));
      && Live(t, run) && Undisturbed(s, t, run)
      && e in t.slots.phase && t.slots.phase[e] == Holding && t.slots.queue == s.slots.queue
  {
    StepKeeps(s, Resumes(e));
  }

  /** Who holds a slot or has been woken can go to its end. */
  lemma EndWoken(s: State, e: Execution, run: RunId) returns (events: seq<Event>)
    requires Live(s, run) && e in s.slots.phase && s.slots.phase[e] in {Holding, Woken}
    ensures CanRun(s, events)
    ensures var t := After(s, events);
      && Live(t, run) && Undisturbed(s, t, run) && IsOver(t, e)
      && |t.slots.queue| == if s.slots.queue == [] then 0 else |s.slots.queue| - 1
  {
    if s.slots.phase[e] == Holding {
      FinishOne(s, e, run);
      Once(s, Finishes(e, Completed));
      events := [Finishes(e, Completed)];
    } else {
      ResumeOne(s, e, run);
      FinishOne(Do(s, Resumes(e)), e, run);
      Twice(s, Resumes(e), Finishes(e, Completed));
      events := [Resumes(e), Finishes(e, Completed)];
    }
  }

  /** While an execution is queued, another is on its way. */
  lemma SomebodyHasASlot(s: Slots) returns (h: Execution)
    requires SlotInv(s) && s.queue != [] && s.concurrency > 0
    ensures h in s.phase && s.phase[h] in {Holding, Woken}
  {
    if InPhase(s, Holding) != {} {
      h :| h in InPhase(s, Holding);
    } else {
      assert InPhase(s, Woken) != {};
      h :| h in InPhase(s, Woken);
    }
  }

  /** Any execution that was begun can be brought to its end. */
  lemma {:induction false} EndExecution(s: State, e: Execution, run: RunId) returns (events: seq<Event>)
    requires Live(s, run) && e in s.slots.phase
    ensures CanRun(s, events)
    ensures var t := After(s, events); Inv(t) && Undisturbed(s, t, run) && IsOver(t, e)
    decreases |s.slots.queue|
  {
    if s.slots.phase[e] == Over {
      events := [];
    } else if s.slots.phase[e] in {Holding, Woken} {
      events := EndWoken(s, e, run);
    } else {
      assert e in s.slots.queue;
      var h := SomebodyHasASlot(s.slots);
      var first := EndWoken(s, h, run);
      var rest := EndExecution(After(s, first), e, run);
      Append(s, first, rest);
      events := first + rest;
    }
  }

  // ----- a message that goes on -----

  lemma {:induction false} FreshExecution(seen: set<Execution>) returns (x: Execution)
    ensures forall e | e in seen :: e < x
  {
    if seen == {} {
      x := 0;
    } else {
      var last :| last in seen;
      var below := FreshExecution(seen - {last});
      x := if below <= last then last + 1 else below;
      assert forall e | e in seen :: e == last || e in seen - {last};
    }
  }

  /** A message parked on a closed run opens it again, in some continuation. */
  lemma ParkedReopens(s: State, p: Parked) returns (events: seq<Event>)
    requires Live(s, p.run) && p in s.runs.parked && p.awaited in s.slots.phase
    ensures CanRun(s, events) && HasStatus(After(s, events), p.run, Running)
  {
    var ends := EndExecution(s, p.awaited, p.run);
    var t := After(s, ends);
    var x := FreshExecution(t.slots.phase.Keys);
    var resumes := MessageResumes(p.run, p.awaited, x);
    assert p == Parked(p.run, p.awaited);
    DeliverStatus(t.slots, Unpark(t.runs, p), p.run, x, p.run);
    Once(t, resumes);
    Append(s, ends, [resumes]);
    events := ends + [resumes];
  }

  // ----- no message parked -----

  ghost predicate NoneParked(s: State, run: RunId) {
    forall p | p in s.runs.parked :: p.run != run
  }

  /** Nothing but a parked message opens a closed run, and a closed run parks none. */
  lemma StepStaysClosed(s: State, ev: Event, run: RunId)
    requires Can(s, ev) && HasStatus(s, run, Closed) && NoneParked(s, run)
    ensures HasStatus(Do(s, ev), run, Closed) && NoneParked(Do(s, ev), run)
  {
    match ev
    case Messages(r, e) => DeliverStatus(s.slots, s.runs, r, e, run);
    case MessageResumes(r, awaited, e) => DeliverStatus(s.slots, Unpark(s.runs, Parked(r, awaited)), r, e, run);
    case Finishes(e, status) => TouchStatus(s.runs, s.runs.owner[e], status, run);
    case Interrupts(r) => TouchStatus(s.runs, r, Interrupted, run);
    case Closes(r) => TouchStatus(s.runs, r, Closed, run);
    case _ =>
  }

  lemma {:induction false} StaysClosed(s: State, events: seq<Event>, run: RunId)
    requires CanRun(s, events) && HasStatus(s, run, Closed) && NoneParked(s, run)
    ensures HasStatus(After(s, events), run, Closed)
    decreases |events|
  {
    if events != [] {
      StepStaysClosed(s, events[0], run);
      StaysClosed(Do(s, events[0]), events[1..], run);
    }
  }
}
