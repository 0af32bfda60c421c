/** The slots that `active` does not count yet: an execution woken by a release has a slot coming to it,
    but counts itself only when it goes on. The limit is kept as long as those slots are left to it; once
    a new execution takes one of them, the woken ones, going on, exceed the limit. */
module RunReserve {
  import opened RunController
  import opened RunSteps
  import opened RunProgress

  /** The counted slots and the ones that the woken executions will take are within the limit. */
  ghost predicate Reserved(s: Slots) {
    s.active + |InPhase(s, Woken)| <= s.concurrency
  }

  /** The event begins an execution. */
  predicate Begins(s: State, ev: Event) {
    match ev
    case Starts(_, _) => true
    case Messages(run, _) => run in s.runs.runs && s.runs.runs[run].status != Running
    case MessageResumes(run, _, _) =>
      run in s.runs.runs && !(s.runs.runs[run].status == Running && s.runs.runs[run].hasHandle)
    case _ => false
  }

  /** It begins one on a free slot, and all free slots are due to executions woken before. */
  ghost predicate TakesReserved(s: State, ev: Event) {
    Begins(s, ev) && s.slots.active < s.slots.concurrency == s.slots.active + |InPhase(s.slots, Woken)|
  }

  // ----- one step -----

  lemma AcquireReserves(s: Slots, e: Execution)
    requires e !in s.phase && Reserved(s)
    ensures Reserved(AcquireSlot(s, e)) <==> !(s.active < s.concurrency == s.active + |InPhase(s, Woken)|)
  {
    assert InPhase(AcquireSlot(s, e), Woken) == InPhase(s, Woken);
  }

  lemma ResumeMoves(s: Slots, e: Execution)
    requires e in InPhase(s, Woken)
    ensures var t := ResumeSlot(s, e);
      InPhase(t, Woken) == InPhase(s, Woken) - {e} && |InPhase(t, Woken)| == |InPhase(s, Woken)| - 1
  {
    assert InPhase(ResumeSlot(s, e), Woken) == InPhase(s, Woken) - {e};
  }

  lemma ReleaseMoves(s: Slots, e: Execution)
    requires SlotInv(s) && e in s.phase && s.phase[e] == Holding
    ensures |InPhase(ReleaseSlot(s, e), Woken)| == |InPhase(s, Woken)| + if s.queue == [] then 0 else 1
  {
    var t := ReleaseSlot(s, e);
    if s.queue == [] {
      assert InPhase(t, Woken) == InPhase(s, Woken);
    } else {
      assert s.queue[0] in s.queue && s.queue[0] !in InPhase(s, Woken);
      assert InPhase(t, Woken) == InPhase(s, Woken) + {s.queue[0]};
    }
  }

  lemma BeginsAcquires(s: State, ev: Event)
    requires Can(s, ev) && Begins(s, ev)
    ensures ev.e !in s.slots.phase && Do(s, ev).slots == AcquireSlot(s.slots, ev.e)
  {
  }

  lemma OthersLeaveSlots(s: State, ev: Event)
    requires Can(s, ev) && !Begins(s, ev) && !ev.Resumes? && !ev.Finishes?
    ensures Do(s, ev).slots == s.slots
  {
  }

  /** From a state that keeps the reserve, exactly such a step breaks it. */
  lemma ReservedKeptExactly(s: State, ev: Event)
    requires Inv(s) && Can(s, ev) && Reserved(s.slots)
    ensures Reserved(Do(s, ev).slots) <==> !TakesReserved(s, ev)
  {
    if Begins(s, ev) {
      BeginsAcquires(s, ev);
      AcquireReserves(s.slots, ev.e);
    } else if ev.Resumes? {
      ResumeMoves(s.slots, ev.e);
    } else if ev.Finishes? {
      ReleaseMoves(s.slots, ev.e);
    } else {
      OthersLeaveSlots(s, ev);
    }
  }

  // ----- over runs -----

  /** No step of the run begins an execution on a slot due to another. */
  ghost predicate NoneOvertakes(s: State, run: seq<Event>)
    requires CanRun(s, run)
    decreases |run|
  {
    run == [] || (!TakesReserved(s, run[0]) && NoneOvertakes(Do(s, run[0]), run[1..]))
  }

  lemma {:induction false} ReservedKept(s: State, run: seq<Event>)
    requires Inv(s) && Reserved(s.slots) && CanRun(s, run) && NoneOvertakes(s, run)
    ensures Reserved(After(s, run).slots)
    decreases |run|
  {
    if run != [] {
      StepKeeps(s, run[0]);
      ReservedKeptExactly(s, run[0]);
      ReservedKept(Do(s, run[0]), run[1..]);
    }
  }

  predicate OnlyResumes(run: seq<Event>) {
    forall i | 0 <= i < |run| :: run[i].Resumes?
  }

  lemma {:induction false} ResumesOvertakeNobody(s: State, run: seq<Event>)
    requires CanRun(s, run) && OnlyResumes(run)
    ensures NoneOvertakes(s, run)
    decreases |run|
  {
    if run != [] {
      assert run[0].Resumes?;
      ResumesOvertakeNobody(Do(s, run[0]), run[1..]);
    }
  }

  /** All that were woken go on. */
  lemma {:induction false} ResumeAll(s: State) returns (run: seq<Event>)
    requires Inv(s)
    ensures CanRun(s, run) && OnlyResumes(run)
    ensures var t := After(s, run);
      && Inv(t) && InPhase(t.slots, Woken) == {} && t.slots.queue == s.slots.queue
      && t.slots.active == s.slots.active + |InPhase(s.slots, Woken)|
      && t.slots.concurrency == s.slots.concurrency
    decreases |InPhase(s.slots, Woken)|
  {
    if InPhase(s.slots, Woken) == {} {
      run := [];
    } else {
      var e :| e in InPhase(s.slots, Woken);
      StepKeeps(s, Resumes(e));
      ResumeMoves(s.slots, e);
      var rest := ResumeAll(Do(s, Resumes(e)));
      Before(s, Resumes(e), rest);
      run := [Resumes(e)] + rest;
    }
  }

  // ----- any number of executions at once -----

  /** Nobody waits for a slot. */
  ghost predicate Quiet(s: State) {
    Inv(s) && s.slots.queue == [] && InPhase(s.slots, Woken) == {}
  }

  lemma StartFresh(s: State) returns (ev: Event)
    requires Inv(s)
    ensures ev.Starts? && Can(s, ev)
    ensures var t := Do(s, ev);
      && Inv(t) && t.slots == AcquireSlot(s.slots, ev.e)
      && InPhase(t.slots, Woken) == InPhase(s.slots, Woken)
  {
    var run := FreshExecution(s.runs.runs.Keys);
    var e := FreshExecution(s.slots.phase.Keys);
    ev := Starts(run, e);
    StepKeeps(s, ev);
    assert InPhase(Do(s, ev).slots, Woken) == InPhase(s.slots, Woken);
  }

  /** At the limit, new executions queue. */
  lemma {:induction false} QueueMore(s: State, k: nat) returns (run: seq<Event>)
    requires Inv(s) && s.slots.active >= s.slots.concurrency
    ensures CanRun(s, run)
    ensures var t := After(s, run);
      && Inv(t) && |t.slots.queue| == |s.slots.queue| + k && t.slots.active == s.slots.active
      && InPhase(t.slots, Woken) == InPhase(s.slots, Woken) && t.slots.concurrency == s.slots.concurrency
    decreases k
  {
    if k == 0 {
      run := [];
    } else {
      var ev := StartFresh(s);
      var rest := QueueMore(Do(s, ev), k - 1);
      Before(s, ev, rest);
      run := [ev] + rest;
    }
  }

  /** All that hold a slot end, and each wakes another. */
  lemma {:induction false} FinishAll(s: State) returns (run: seq<Event>)
    requires Inv(s) && |s.slots.queue| == s.slots.active
    ensures CanRun(s, run)
    ensures var t := After(s, run);
      && Inv(t) && t.slots.queue == [] && t.slots.active == 0
      && |InPhase(t.slots, Woken)| == |InPhase(s.slots, Woken)| + s.slots.active
      && t.slots.concurrency == s.slots.concurrency
    decreases s.slots.active
  {
    if s.slots.active == 0 {
      run := [];
    } else {
      assert InPhase(s.slots, Holding) != {};
      var e :| e in InPhase(s.slots, Holding);
      var ev := Finishes(e, Completed);
      StepKeeps(s, ev);
      ReleaseMoves(s.slots, e);
      var rest := FinishAll(Do(s, ev));
      Before(s, ev, rest);
      run := [ev] + rest;
    }
  }

  /** With everybody at rest and the limit reached, there can be one more. */
  lemma Grow(s: State) returns (run: seq<Event>)
    requires Quiet(s) && s.slots.active >= s.slots.concurrency > 0
    ensures CanRun(s, run)
    ensures var t := After(s, run);
      Quiet(t) && t.slots.active == s.slots.active + 1 && t.slots.concurrency == s.slots.concurrency
  {
    var queues := QueueMore(s, s.slots.active);
    var s1 := After(s, queues);
    var ends := FinishAll(s1);
    var s2 := After(s1, ends);
    var ev := StartFresh(s2);
    var s3 := Do(s2, ev);
    var goes := ResumeAll(s3);
    Before(s2, ev, goes);
    Append(s1, ends, [ev] + goes);
    Append(s, queues, ends + ([ev] + goes));
    run := queues + (ends + ([ev] + goes));
  }
}
