/** The limiter and a workflow of calls in every run. */
module ToolCallRuns {
  import opened Options
  import opened Basics
  import opened CodeUnits
  import opened Json
  import opened ToolCalls
  import opened ToolCallSteps

  /** In every reachable state the slots in use are the unreleased grants and never exceed the limit,
      nobody waits while a slot is free or after a cancel, and grants were given in order of arrival. */
  lemma LimiterIsSafe(limit: nat, run: seq<Event>)
    requires LegalRun(NewQueue(limit), run)
    ensures var q := After(NewQueue(limit), run);
      && |Held(q)| == q.active <= limit
      && (q.waiting != [] ==> q.active == limit && q.cancelled.None?)
      && q.granted <= q.arrived && Distinct(q.arrived)
  {
    var q0 := NewQueue(limit);
    assert Held(q0) == {};
    RunKeeps(q0, run);
    LimitIsFixed(q0, run);
  }

  /** A promise settles once: no later event changes how. */
  lemma {:induction false} SettledStaysSettled(q: Queue, run: seq<Event>, id: Id)
    requires Inv(q) && LegalRun(q, run) && id in q.outcome
    ensures id in After(q, run).outcome && After(q, run).outcome[id] == q.outcome[id]
    decreases |run|
  {
    if run != [] {
      StepKeeps(q, run[0]);
      SettledStaysSettled(Step(q, run[0]), run[1..], id);
    }
  }

  /** After a cancel nothing more is granted, whatever happens. */
  lemma {:induction false} NoGrantAfterCancel(q: Queue, run: seq<Event>)
    requires Inv(q) && LegalRun(q, run) && q.cancelled.Some?
    ensures After(q, run).granted == q.granted && After(q, run).waiting == [] && After(q, run).cancelled == q.cancelled
    decreases |run|
  {
    if run != [] {
      StepKeeps(q, run[0]);
      NoGrantAfterCancel(Step(q, run[0]), run[1..]);
    }
  }

  /** Using a handle again does nothing. */
  lemma SecondReleaseIsHarmless(q: Queue, id: Id)
    ensures Release(Release(q, id), id) == Release(q, id)
  {
  }

  /** No call is forgotten: in every reachable state each arrival is waiting, or was granted, or was
      rejected by the cancel, and no two of these. */
  lemma EveryArrivalIsAccountedFor(limit: nat, run: seq<Event>)
    requires LegalRun(NewQueue(limit), run)
    ensures var q := After(NewQueue(limit), run);
      forall id | id in q.arrived ::
        if id in q.outcome then id !in q.waiting && (q.outcome[id] == Granted || q.cancelled.Some?)
        else id in q.waiting
  {
    var q0 := NewQueue(limit);
    assert Held(q0) == {};
    RunKeeps(q0, run);
    RejectionNeedsCancel(q0, run);
  }

  /** In every run a settled call reports not started in exactly two cases: it never reached the remote
      and the deadline's error was passed on as it is; or it did, and the remote's own error details say
      so. */
  lemma NotStartedExactly(limit: nat, moves: seq<Move>, id: Id)
    requires EnabledRun(NewWorkflow(limit), moves) && id in AfterMoves(NewWorkflow(limit), moves).settled
    ensures var w := AfterMoves(NewWorkflow(limit), moves);
      SaysNotStarted(w.settled[id])
      <==> (if id in w.invoked then RemoteSaysNotStarted(w.settled[id])
            else w.settled[id].Threw? && w.settled[id].improved.RunTimeout?)
  {
    WorkflowKeeps(limit, moves);
    var w := AfterMoves(NewWorkflow(limit), moves);
    assert EndingFits(w.settled[id], id in w.invoked);
    SaysNotStartedExactly(w.settled[id]);
  }

  /** Never more than `limit` calls are in flight. */
  lemma InFlightWithinLimit(limit: nat, moves: seq<Move>)
    requires EnabledRun(NewWorkflow(limit), moves)
    ensures |InFlight(AfterMoves(NewWorkflow(limit), moves))| <= limit
  {
    WorkflowKeeps(limit, moves);
    var w := AfterMoves(NewWorkflow(limit), moves);
    assert InFlight(w) <= Held(w.queue);
    assert |Held(w.queue)| == |InFlight(w)| + |Held(w.queue) - InFlight(w)| by {
      assert Held(w.queue) == InFlight(w) + (Held(w.queue) - InFlight(w));
    }
  }

  /** So a report of not started is no proof: a tool result of that form reports it after the call. */
  lemma RemoteCanSayNotStarted()
    ensures var error := ToolResultError(Some(BusyResult()));
      var moves := [Starts(0), Resumes(0, false, RunTimeout), Answers(0, Some(error), error)];
      && EnabledRun(NewWorkflow(1), moves)
      && 0 in AfterMoves(NewWorkflow(1), moves).invoked
      && 0 in AfterMoves(NewWorkflow(1), moves).settled
      && SaysNotStarted(AfterMoves(NewWorkflow(1), moves).settled[0])
  {
    BusyError();
    AnyErrorAfterCall(Remote(Some(NOT_STARTED)));
  }

  // ----- how calls end -----

  /** Over every run: a call has ended in a way exactly when some move ended it so, and it has reached the
      remote exactly when it resumed with a slot and before the deadline. */
  lemma EndingExactly(limit: nat, moves: seq<Move>, id: Id, e: Ending)
    requires EnabledRun(NewWorkflow(limit), moves)
    ensures var w := AfterMoves(NewWorkflow(limit), moves);
      && (HasEnded(w, id, e) <==> EndedWith(NewWorkflow(limit), moves, id, e))
      && (id in w.invoked <==> Sent(NewWorkflow(limit), moves, id))
  {
    WorkflowKeeps(limit, []);
    MovesEnd(NewWorkflow(limit), moves, id, e);
    MovesSend(NewWorkflow(limit), moves, id);
  }

  /** The report a settled call gives. */
  predicate Reports(w: Workflow, id: Id, r: Report) {
    id in w.settled && ReportOf(w.settled[id]) == r
  }

  /** A call succeeds exactly when its tool answers without an error. */
  lemma SucceedsExactly(limit: nat, moves: seq<Move>, id: Id)
    requires EnabledRun(NewWorkflow(limit), moves)
    ensures Reports(AfterMoves(NewWorkflow(limit), moves), id, Succeeded) <==> exists k: nat :: SuccessAt(moves, id, k)
  {
    EndingExactly(limit, moves, id, Answered);
    AnsweredBySome(NewWorkflow(limit), moves, id);
  }

  /** The move at `k` resumes the call after the deadline. */
  predicate ExpiredAt(moves: seq<Move>, id: Id, k: nat) {
    k < |moves| && moves[k].Resumes? && moves[k].id == id && moves[k].expired
  }

  /** A call that resumes after the deadline never reaches the remote. */
  lemma ExpiredIsNeverSent(limit: nat, moves: seq<Move>, id: Id, k: nat)
    requires EnabledRun(NewWorkflow(limit), moves) && ExpiredAt(moves, id, k)
    ensures id !in AfterMoves(NewWorkflow(limit), moves).invoked
  {
    var w0, first, rest := NewWorkflow(limit), moves[..k], moves[k..];
    assert moves == first + rest;
    MovesAppend(w0, first, rest);
    var w := AfterMoves(w0, first);
    assert rest[0] == moves[k] && id !in w.invoked;
    NotSentAgain(Moved(w, rest[0]), rest[1..], id);
    MovesSend(Moved(w, rest[0]), rest[1..], id);
  }

  /** What a call reports that failed at the remote: the improved error's details, or a usage error's none,
      or the original error's details; without any, `unknown` if the text speaks of a timeout. */
  lemma FailureReports(error: Error, improved: Error)
    requires error != RunTimeout && Improves(error, improved)
    ensures ReportOf(Threw(error, improved)) == Failed(
      if improved.Remote? then improved.outcome
      else if improved.Usage? then None
      else if error.Remote? then error.outcome
      else if improved == Other(true) then Some(String(Of("unknown")))
      else None)
  {
  }

  /** And one that never reached it: `not_started`, unless the deadline's error was improved. */
  lemma ExpiryReports(improved: Error)
    requires Improves(RunTimeout, improved)
    ensures ReportOf(Threw(RunTimeout, improved)) == Failed(
      if improved == RunTimeout then Some(String(Of("not_started")))
      else if improved == Other(true) then Some(String(Of("unknown")))
      else None)
  {
  }

  /** So `unknown` is reported without the remote's word exactly for a plain error that speaks of a
      timeout, of a call whose own error was not the remote's. */
  lemma UnknownExactly(e: Ending)
    requires e.Threw? && Improves(e.error, e.improved)
    ensures ReportOf(e) == Failed(Some(String(Of("unknown")))) <==>
      || (e.improved.Remote? && e.improved.outcome == Some(String(Of("unknown"))))
      || (e.improved.Other? && (if e.error.Remote? then e.error.outcome == Some(String(Of("unknown"))) else e.improved.saysTimeout))
  {
    UnknownIsNotNotStarted();
  }
}
