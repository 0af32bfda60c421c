/** What every step of the limiter and of a workflow of calls keeps: the grants not yet released are as many
    as `active`, whoever waits does so at the limit, and every call of the workflow is where the queue has
    it. How a call ended fits whether it reached the remote, which decides what its error may report. */
module ToolCallSteps {
  import opened Options
  import opened CodeUnits
  import opened Json
  import opened ToolCalls

  lemma AcquireKeeps(q: Queue, id: Id)
    requires Inv(q) && id !in q.outcome && id !in q.arrived
    ensures Inv(Acquire(q, id))
  {
    var r := Acquire(q, id);
    if q.cancelled.Some? {
      assert Held(r) == Held(q);
    } else if q.active < q.limit {
      assert Held(r) == Held(q) + {id};
      assert q.waiting == [];
    } else {
      assert Held(r) == Held(q);
      assert r.arrived == q.granted + r.waiting;
    }
  }

  lemma ReleaseKeeps(q: Queue, id: Id)
    requires Inv(q) && id in q.outcome && q.outcome[id] == Granted
    ensures Inv(Release(q, id))
  {
    var r := Release(q, id);
    if id !in q.released {
      HeldIsActive(q, id);
      if q.waiting != [] {
        var next := q.waiting[0];
        assert next !in q.outcome;
        assert next !in q.released;
        assert Held(r) == Held(q) - {id} + {next};
        assert r.arrived == r.granted + r.waiting;
        forall w | w in r.waiting ensures w !in r.outcome {
          var k :| 0 <= k < |r.waiting| && r.waiting[k] == w;
          assert q.arrived[|q.granted|] == next && q.arrived[|q.granted| + 1 + k] == w;
        }
      } else {
        assert Held(r) == Held(q) - {id};
      }
    }
  }

  lemma CancelKeeps(q: Queue, error: Error)
    requires Inv(q)
    ensures Inv(Cancel(q, error))
  {
    assert Held(Cancel(q, error)) == Held(q);
  }

  lemma {:induction false} RunKeeps(q: Queue, run: seq<Event>)
    requires Inv(q) && LegalRun(q, run)
    ensures Inv(After(q, run))
    decreases |run|
  {
    if run != [] {
      StepKeeps(q, run[0]);
      RunKeeps(Step(q, run[0]), run[1..]);
    }
  }

  lemma StepKeeps(q: Queue, e: Event)
    requires Inv(q) && Legal(q, e)
    ensures Inv(Step(q, e))
  {
    match e
    case Acquires(id) => AcquireKeeps(q, id);
    case Releases(id) => ReleaseKeeps(q, id);
    case Cancels(error) => CancelKeeps(q, error);
  }

  lemma {:induction false} LimitIsFixed(q: Queue, run: seq<Event>)
    ensures After(q, run).limit == q.limit
    decreases |run|
  {
    if run != [] { LimitIsFixed(Step(q, run[0]), run[1..]); }
  }

  lemma {:induction false} RejectionNeedsCancel(q: Queue, run: seq<Event>)
    requires LegalRun(q, run)
    requires q.cancelled.None? ==> forall id | id in q.outcome :: q.outcome[id] == Granted
    ensures After(q, run).cancelled.None? ==>
      forall id | id in After(q, run).outcome :: After(q, run).outcome[id] == Granted
    decreases |run|
  {
    if run != [] { RejectionNeedsCancel(Step(q, run[0]), run[1..]); }
  }

  // ----- what a failed call reports -----

  lemma UnknownIsNotNotStarted()
    ensures UNKNOWN != NOT_STARTED
  {
    assert |Of("unknown")| != |Of("not_started")|;
  }

  /** Whose word a report of not started is. */
  lemma SaysNotStartedExactly(e: Ending)
    ensures SaysNotStarted(e) <==> (RemoteSaysNotStarted(e)
      || (e.Threw? && e.improved.RunTimeout? && RemoteOutcome(e).None?))
  {
    UnknownIsNotNotStarted();
  }

  /** The details of a tool result marked as an error: its `error` entry if it has one, or the result
      itself; and the outcome they give, if they are an object with one. */
  lemma ToolResultDetails(fields: map<Text, Value>, details: map<Text, Value>)
    requires if Of("error") in fields then fields[Of("error")] == Object(details) else details == fields
    ensures ToolResultError(Some(Object(fields)))
         == Remote(if Of("outcome") in details then Some(details[Of("outcome")]) else None)
  {
  }

  /** Anything else gives none. */
  lemma NoToolResultDetails(parsed: Option<Value>)
    requires parsed.Some? && parsed.value.Object? ==>
      Of("error") in parsed.value.fields && !parsed.value.fields[Of("error")].Object?
    ensures ToolResultError(parsed) == Remote(None)
  {
  }

  // ----- a whole workflow of calls -----

  /** What is known of a call's ending: a call that never ran was stopped by the deadline, one that ran
      was not. */
  predicate EndingFits(e: Ending, ran: bool) {
    if ran then e.Threw? ==> e.error != RunTimeout && Improves(e.error, e.improved)
    else e.Threw? && e.error == RunTimeout && Improves(RunTimeout, e.improved)
  }

  /** A call in flight holds its slot; a settled call holds none; the deadline is the only rejection. */
  ghost predicate Consistent(w: Workflow) {
    && Inv(w.queue)
    && (forall id | id in w.invoked :: id in w.queue.outcome && w.queue.outcome[id] == Granted)
    && (forall id | id in w.invoked && id !in w.settled :: id in Held(w.queue))
    && (forall id | id in w.queue.released :: id in w.settled)
    && (forall id | id in w.settled :: id in w.queue.outcome)
    && (forall id | id in w.settled && w.queue.outcome[id] == Granted :: id in w.queue.released)
    && (w.queue.cancelled.Some? ==> w.queue.cancelled.value == RunTimeout)
    && (forall id | id in w.queue.outcome && w.queue.outcome[id].Rejected? :: w.queue.outcome[id].error == RunTimeout)
    && (forall id | id in w.settled :: EndingFits(w.settled[id], id in w.invoked))
  }

  lemma StartKeeps(w: Workflow, id: Id)
    requires Consistent(w) && Enabled(w, Starts(id))
    ensures Consistent(Moved(w, Starts(id)))
  {
    AcquireKeeps(w.queue, id);
    assert Held(w.queue) <= Held(Acquire(w.queue, id));
  }

  /** What a release does to the promises: it may grant one that was waiting. */
  lemma ReleaseGrants(q: Queue, id: Id)
    requires Inv(q) && id in q.outcome && q.outcome[id] == Granted
    ensures var r := Release(q, id);
      && r.cancelled == q.cancelled && r.released == q.released + {id}
      && q.outcome.Keys <= r.outcome.Keys
      && (forall x | x in q.outcome :: r.outcome[x] == q.outcome[x])
      && (forall x | x in r.outcome && x !in q.outcome :: r.outcome[x] == Granted)
  {
  }

  lemma EndKeeps(w: Workflow, id: Id, e: Ending)
    requires Consistent(w) && id in w.queue.outcome && w.queue.outcome[id] == Granted
    requires id !in w.settled && EndingFits(e, id in w.invoked)
    ensures Consistent(Workflow(Release(w.queue, id), w.invoked, w.settled[id := e]))
  {
    ReleaseKeeps(w.queue, id);
    ReleaseGrants(w.queue, id);
  }

  lemma RejectionKeeps(w: Workflow, id: Id, e: Ending)
    requires Consistent(w) && id in w.queue.outcome && w.queue.outcome[id].Rejected?
    requires id !in w.settled && EndingFits(e, false)
    ensures Consistent(w.(settled := w.settled[id := e]))
  {
  }

  lemma InvocationKeeps(w: Workflow, id: Id)
    requires Consistent(w) && id in w.queue.outcome && w.queue.outcome[id] == Granted
    requires id !in w.settled && id !in w.invoked
    ensures Consistent(w.(invoked := w.invoked + {id}))
  {
  }

  lemma ExpiryKeeps(w: Workflow)
    requires Consistent(w)
    ensures Consistent(Moved(w, Expires))
  {
    CancelKeeps(w.queue, RunTimeout);
    assert Held(Cancel(w.queue, RunTimeout)) == Held(w.queue);
  }

  lemma MoveKeeps(w: Workflow, m: Move)
    requires Consistent(w) && Enabled(w, m)
    ensures Consistent(Moved(w, m))
  {
    match m
    case Starts(id) => StartKeeps(w, id);
    case Resumes(id, expired, improved) =>
      if w.queue.outcome[id].Rejected? {
        RejectionKeeps(w, id, Threw(w.queue.outcome[id].error, improved));
      } else if expired {
        EndKeeps(w, id, Threw(RunTimeout, improved));
      } else {
        InvocationKeeps(w, id);
      }
    case Answers(id, failure, improved) =>
      EndKeeps(w, id, if failure.None? then Answered else Threw(failure.value, improved));
    case Expires => ExpiryKeeps(w);
  }

  lemma {:induction false} MovesKeep(w: Workflow, moves: seq<Move>)
    requires Consistent(w) && EnabledRun(w, moves)
    ensures Consistent(AfterMoves(w, moves)) && AfterMoves(w, moves).queue.limit == w.queue.limit
    decreases |moves|
  {
    if moves != [] {
      MoveKeeps(w, moves[0]);
      MovesKeep(Moved(w, moves[0]), moves[1..]);
    }
  }

  lemma WorkflowKeeps(limit: nat, moves: seq<Move>)
    requires EnabledRun(NewWorkflow(limit), moves)
    ensures Consistent(AfterMoves(NewWorkflow(limit), moves))
    ensures AfterMoves(NewWorkflow(limit), moves).queue.limit == limit
  {
    assert Held(NewWorkflow(limit).queue) == {};
    MovesKeep(NewWorkflow(limit), moves);
  }

  lemma BusyError()
    ensures ToolResultError(Some(BusyResult())) == Remote(Some(NOT_STARTED))
  {
    var error := BusyResult().fields[Of("error")];
    assert Of("outcome") in error.fields && error.fields[Of("outcome")] == NOT_STARTED;
  }

  lemma AnyErrorAfterCall(error: Error)
    requires error != RunTimeout
    ensures var moves := [Starts(0), Resumes(0, false, RunTimeout), Answers(0, Some(error), error)];
      && EnabledRun(NewWorkflow(1), moves)
      && 0 in AfterMoves(NewWorkflow(1), moves).invoked
      && 0 in AfterMoves(NewWorkflow(1), moves).settled
      && AfterMoves(NewWorkflow(1), moves).settled[0] == Threw(error, error)
  {
    var moves := [Starts(0), Resumes(0, false, RunTimeout), Answers(0, Some(error), error)];
    var w1 := Moved(NewWorkflow(1), moves[0]);
    assert w1.queue.outcome == map[0 := Granted] && w1.invoked == {} && w1.settled == map[];
    var w2 := Moved(w1, moves[1]);
    var w3 := Moved(w2, moves[2]);
    assert moves[1..][1..] == [moves[2]] && moves[1..][1..][1..] == [];
    FirstMove(w2, moves[1..][1..]);
    FirstMove(w1, moves[1..]);
    FirstMove(NewWorkflow(1), moves);
  }

  lemma {:induction false} FirstMove(w: Workflow, moves: seq<Move>)
    requires moves != [] && Enabled(w, moves[0])
    ensures EnabledRun(w, moves) <==> EnabledRun(Moved(w, moves[0]), moves[1..])
    ensures EnabledRun(w, moves) ==> AfterMoves(w, moves) == AfterMoves(Moved(w, moves[0]), moves[1..])
  {
  }

  // ----- which move ended a call -----

  /** The move ends the call in this way: the tool answered, or failed; or the call resumed after the
      deadline or without a slot. */
  predicate EndsWith(w: Workflow, m: Move, id: Id, e: Ending) {
    match m
    case Answers(i, failure, improved) =>
      i == id && (if failure.None? then e.Answered? else e == Threw(failure.value, improved))
    case Resumes(i, expired, improved) =>
      && i == id && e == Threw(RunTimeout, improved)
      && (expired || (id in w.queue.outcome && w.queue.outcome[id] != Granted))
    case _ => false
  }

  /** Some move of the run ends the call in this way. */
  predicate EndedWith(w: Workflow, moves: seq<Move>, id: Id, e: Ending)
    requires EnabledRun(w, moves)
    decreases |moves|
  {
    moves != [] && (EndsWith(w, moves[0], id, e) || EndedWith(Moved(w, moves[0]), moves[1..], id, e))
  }

  predicate HasEnded(w: Workflow, id: Id, e: Ending) {
    id in w.settled && w.settled[id] == e
  }

  lemma MoveEnds(w: Workflow, m: Move, id: Id, e: Ending)
    requires Consistent(w) && Enabled(w, m)
    ensures HasEnded(Moved(w, m), id, e) <==> HasEnded(w, id, e) || EndsWith(w, m, id, e)
  {
  }

  lemma {:induction false} MovesEnd(w: Workflow, moves: seq<Move>, id: Id, e: Ending)
    requires Consistent(w) && EnabledRun(w, moves)
    ensures HasEnded(AfterMoves(w, moves), id, e) <==> HasEnded(w, id, e) || EndedWith(w, moves, id, e)
    decreases |moves|
  {
    if moves != [] {
      MoveEnds(w, moves[0], id, e);
      MoveKeeps(w, moves[0]);
      MovesEnd(Moved(w, moves[0]), moves[1..], id, e);
    }
  }

  /** The move sends the call to the remote. */
  predicate Sends(w: Workflow, m: Move, id: Id) {
    m.Resumes? && m.id == id && !m.expired && id in w.queue.outcome && w.queue.outcome[id] == Granted
  }

  predicate Sent(w: Workflow, moves: seq<Move>, id: Id)
    requires EnabledRun(w, moves)
    decreases |moves|
  {
    moves != [] && (Sends(w, moves[0], id) || Sent(Moved(w, moves[0]), moves[1..], id))
  }

  lemma {:induction false} MovesSend(w: Workflow, moves: seq<Move>, id: Id)
    requires EnabledRun(w, moves)
    ensures id in AfterMoves(w, moves).invoked <==> id in w.invoked || Sent(w, moves, id)
    decreases |moves|
  {
    if moves != [] { MovesSend(Moved(w, moves[0]), moves[1..], id); }
  }

  predicate SuccessAt(moves: seq<Move>, id: Id, k: nat) {
    k < |moves| && moves[k].Answers? && moves[k].id == id && moves[k].failure.None?
  }

  lemma {:induction false} AnsweredBySome(w: Workflow, moves: seq<Move>, id: Id)
    requires EnabledRun(w, moves)
    ensures EndedWith(w, moves, id, Answered) <==> exists k: nat :: SuccessAt(moves, id, k)
    decreases |moves|
  {
    if moves != [] {
      var rest := moves[1..];
      AnsweredBySome(Moved(w, moves[0]), rest, id);
      if k: nat :| SuccessAt(moves, id, k) {
        if k > 0 { assert SuccessAt(rest, id, k - 1); } else { assert EndsWith(w, moves[0], id, Answered); }
      }
      if EndsWith(w, moves[0], id, Answered) { assert SuccessAt(moves, id, 0); }
      if k: nat :| SuccessAt(rest, id, k) { assert SuccessAt(moves, id, k + 1); }
    }
  }

  /** A call that has been sent or ended does not resume again. */
  lemma {:induction false} NotSentAgain(w: Workflow, moves: seq<Move>, id: Id)
    requires EnabledRun(w, moves) && id in w.settled
    ensures !Sent(w, moves, id) && id in AfterMoves(w, moves).settled
    decreases |moves|
  {
    if moves != [] { NotSentAgain(Moved(w, moves[0]), moves[1..], id); }
  }

  lemma {:induction false} MovesAppend(w: Workflow, first: seq<Move>, rest: seq<Move>)
    requires EnabledRun(w, first + rest)
    ensures EnabledRun(w, first) && EnabledRun(AfterMoves(w, first), rest)
    ensures AfterMoves(w, first + rest) == AfterMoves(AfterMoves(w, first), rest)
    decreases |first|
  {
    if first == [] {
      assert first + rest == rest;
    } else {
      assert (first + rest)[1..] == first[1..] + rest;
      MovesAppend(Moved(w, first[0]), first[1..], rest);
    }
  }
}
