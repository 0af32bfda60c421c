/** Tool calls of `mcp run`: the first-in first-out limiter, and what a call reports when it fails. */
module ToolCalls {
  import opened Options
  import opened Basics
  import opened CodeUnits
  import opened Json

  type Id = nat

  /** Why a call failed, as far as the reporting code tells errors apart. */
  datatype Error =
    | RunTimeout                       // McpRunTimeoutError
    | Usage                            // McpRunUsageError
    | Remote(outcome: Option<Value>)   // McpRemoteToolResultError, with the outcome its details give
    | Other(saysTimeout: bool)

  /** How the promise of an `acquire` settled. */
  datatype Outcome = Granted | Rejected(error: Error)

  /** The limiter's fields, the promises and release handles it gave out, and the order of events. */
  datatype Queue = Queue(
    limit: nat,
    active: nat,
    waiting: seq<Id>,
    cancelled: Option<Error>,
    outcome: map<Id, Outcome>,
    released: set<Id>,
    arrived: seq<Id>,
    granted: seq<Id>)

  function NewQueue(limit: nat): Queue {
    Queue(limit, 0, [], None, map[], {}, [], [])
  }

  function Acquire(q: Queue, id: Id): Queue {
    if q.cancelled.Some? then q.(outcome := q.outcome[id := Rejected(q.cancelled.value)])
    else if q.active < q.limit then
      q.(active := q.active + 1, outcome := q.outcome[id := Granted],
         arrived := q.arrived + [id], granted := q.granted + [id])
    else q.(waiting := q.waiting + [id], arrived := q.arrived + [id])
  }

  function RejectAll(outcome: map<Id, Outcome>, ids: seq<Id>, error: Error): map<Id, Outcome> {
    outcome + map id | id in ids :: Rejected(error)
  }

  function Cancel(q: Queue, error: Error): Queue {
    if q.cancelled.Some? then q
    else q.(cancelled := Some(error), waiting := [], outcome := RejectAll(q.outcome, q.waiting, error))
  }

  /** One call of the release handle that grant `id` was given. */
  function Release(q: Queue, id: Id): Queue {
    if id in q.released then q
    else
      var r := q.(released := q.released + {id});
      if q.waiting != [] && q.cancelled.None? then
        r.(waiting := q.waiting[1..], outcome := q.outcome[q.waiting[0] := Granted], granted := q.granted + [q.waiting[0]])
      else
        r.(waiting := if q.waiting == [] then [] else q.waiting[1..], active := if q.active > 0 then q.active - 1 else 0)
  }

  /** `ToolCallQueue`, with its promises and handles named by the call they belong to. */
  class ToolCallQueue {
    const limit: nat
    var active: int
    var waiting: seq<Id>
    var cancelled: Option<Error>
    var outcome: map<Id, Outcome>
    var released: set<Id>
    ghost var arrived: seq<Id>
    ghost var granted: seq<Id>

    ghost function View(): Queue
      reads this
      requires active >= 0
    {
      Queue(limit, active, waiting, cancelled, outcome, released, arrived, granted)
    }

    constructor (limit: nat)
      ensures active == 0 && View() == NewQueue(limit)
    {
      this.limit := limit;
      active, waiting, cancelled, outcome, released := 0, [], None, map[], {};
      arrived, granted := [], [];
    }

    method AcquireSlot(id: Id)
      requires active >= 0
      modifies this
      ensures active >= 0 && View() == Acquire(old(View()), id)
    {
      if cancelled.Some? {
        outcome := outcome[id := Rejected(cancelled.value)];
        return;
      }
      arrived := arrived + [id];
      if active < limit {
        active := active + 1;
        outcome := outcome[id := Granted];
        granted := granted + [id];
        return;
      }
      waiting := waiting + [id];
    }

    method CancelAll(error: Error)
      requires active >= 0
      modifies this
      ensures active >= 0 && View() == Cancel(old(View()), error)
    {
      if cancelled.Some? { return; }
      cancelled := Some(error);
      outcome := RejectAll(outcome, waiting, error);
      waiting := [];
    }

    method ReleaseSlot(id: Id)
      requires active >= 0 && Inv(View()) && id in outcome && outcome[id] == Granted
      modifies this
      ensures active >= 0 && View() == Release(old(View()), id)
    {
      if id in released { return; }
      HeldIsActive(View(), id);
      released := released + {id};
      if waiting != [] {
        var next := waiting[0];
        waiting := waiting[1..];
        if cancelled.None? {
          outcome := outcome[next := Granted];
          granted := granted + [next];
          return;
        }
      }
      active := active - 1;
    }
  }

  // ----- every run of the limiter -----

  datatype Event = Acquires(id: Id) | Releases(id: Id) | Cancels(error: Error)

  /** Calls have their own names, and only a granted call has a handle. */
  predicate Legal(q: Queue, e: Event) {
    match e
    case Acquires(id) => id !in q.outcome && id !in q.arrived
    case Releases(id) => id in q.outcome && q.outcome[id] == Granted
    case Cancels(_) => true
  }

  function Step(q: Queue, e: Event): Queue {
    match e
    case Acquires(id) => Acquire(q, id)
    case Releases(id) => Release(q, id)
    case Cancels(error) => Cancel(q, error)
  }

  predicate LegalRun(q: Queue, run: seq<Event>)
    decreases |run|
  {
    run == [] || (Legal(q, run[0]) && LegalRun(Step(q, run[0]), run[1..]))
  }

  function After(q: Queue, run: seq<Event>): Queue
    decreases |run|
  {
    if run == [] then q else After(Step(q, run[0]), run[1..])
  }

  /** Grants whose handle has not been used. */
  function Held(q: Queue): set<Id> {
    set id | id in q.outcome && q.outcome[id] == Granted && id !in q.released
  }

  ghost predicate Inv(q: Queue) {
    && |Held(q)| == q.active <= q.limit
    && (q.waiting != [] ==> q.active == q.limit && q.cancelled.None?)
    && Distinct(q.arrived)
    && (if q.cancelled.None? then q.arrived == q.granted + q.waiting else q.granted <= q.arrived)
    && (forall id :: id in q.granted <==> id in q.outcome && q.outcome[id] == Granted)
    && (forall id | id in q.waiting :: id !in q.outcome)
    && q.released <= q.outcome.Keys
    && (forall id | id in q.arrived :: id in q.waiting || id in q.outcome)
  }

  lemma HeldIsActive(q: Queue, id: Id)
    requires Inv(q) && id in q.outcome && q.outcome[id] == Granted && id !in q.released
    ensures q.active > 0
  {
    assert id in Held(q);
  }

  // ----- what a failed call reports -----

  /** `asRecord`. */
  function AsRecord(v: Option<Value>): map<Text, Value> {
    if v.Some? && v.value.Object? then v.value.fields else map[]
  }

  /** The error `checkedCallResult` throws for a tool result marked as an error, from the result read as
      JSON: its details are whatever the remote sent. */
  function ToolResultError(parsed: Option<Value>): Error {
    var record := AsRecord(parsed);
    var details := AsRecord(Some(if Of("error") in record then record[Of("error")] else Object(record)));
    Remote(if Of("outcome") in details then Some(details[Of("outcome")]) else None)
  }

  /** How the call's body ended, with what `improveRunToolError` made of an error. */
  datatype Ending = Answered | Threw(error: Error, improved: Error)

  /** `improveRunToolError` keeps the error, or asks for authentication, or explains it in a plain error. */
  predicate Improves(error: Error, improved: Error) {
    improved == error || improved == Remote(None) || improved.Other?
  }

  /** The `outcome` of the remote details, where there are any: those of the improved error, or else
      those of the original one. */
  function RemoteOutcome(e: Ending): Option<Option<Value>> {
    if e.Answered? || e.improved.Usage? then None
    else if e.improved.Remote? then Some(e.improved.outcome)
    else if e.error.Remote? then Some(e.error.outcome)
    else None
  }

  /** The settled promise of a call, with the `outcome` of a rejection. */
  datatype Report = Succeeded | Failed(outcome: Option<Value>)

  const NOT_STARTED: Value := String(Of("not_started"))
  const UNKNOWN: Value := String(Of("unknown"))

  /** Remote details come first; without them a run timeout is reported as not started, and any error
      that speaks of a timeout as unknown. */
  function ReportOf(e: Ending): Report {
    if e.Answered? then Succeeded
    else if RemoteOutcome(e).Some? then Failed(RemoteOutcome(e).value)
    else match e.improved
      case RunTimeout => Failed(Some(NOT_STARTED))
      case Other(true) => Failed(Some(UNKNOWN))
      case _ => Failed(None)
  }

  predicate SaysNotStarted(e: Ending) {
    ReportOf(e) == Failed(Some(NOT_STARTED))
  }

  predicate RemoteSaysNotStarted(e: Ending) {
    RemoteOutcome(e) == Some(Some(NOT_STARTED))
  }

  // ----- a whole workflow of calls -----

  datatype Workflow = Workflow(queue: Queue, invoked: set<Id>, settled: map<Id, Ending>)

  function NewWorkflow(limit: nat): Workflow {
    Workflow(NewQueue(limit), {}, map[])
  }

  datatype Move =
    | Starts(id: Id)                                             // queue.acquire()
    | Resumes(id: Id, expired: bool, improved: Error)            // the continuation after acquire
    | Answers(id: Id, failure: Option<Error>, improved: Error)   // runtime.callTool settles
    | Expires                                                    // the deadline cancels the queue

  /** Only the deadline makes a run timeout, so no call in flight fails with one. */
  predicate Enabled(w: Workflow, m: Move) {
    match m
    case Starts(id) => id !in w.queue.outcome && id !in w.queue.arrived && id !in w.settled
    case Resumes(id, expired, improved) =>
      id in w.queue.outcome && id !in w.settled && id !in w.invoked && Improves(RunTimeout, improved)
    case Answers(id, failure, improved) =>
      && id in w.invoked && id !in w.settled
      && (failure.Some? ==> failure.value != RunTimeout && Improves(failure.value, improved))
    case Expires => true
  }

  function Moved(w: Workflow, m: Move): Workflow
    requires Enabled(w, m)
  {
    match m
    case Starts(id) => w.(queue := Acquire(w.queue, id))
    case Resumes(id, expired, improved) =>
      if w.queue.outcome[id].Rejected? then
        w.(settled := w.settled[id := Threw(w.queue.outcome[id].error, improved)])
      else if expired then Workflow(Release(w.queue, id), w.invoked, w.settled[id := Threw(RunTimeout, improved)])
      else w.(invoked := w.invoked + {id})
    case Answers(id, failure, improved) =>
      Workflow(Release(w.queue, id), w.invoked,
               w.settled[id := if failure.None? then Answered else Threw(failure.value, improved)])
    case Expires => w.(queue := Cancel(w.queue, RunTimeout))
  }

  predicate EnabledRun(w: Workflow, moves: seq<Move>)
    decreases |moves|
  {
    moves == [] || (Enabled(w, moves[0]) && EnabledRun(Moved(w, moves[0]), moves[1..]))
  }

  function AfterMoves(w: Workflow, moves: seq<Move>): Workflow
    requires EnabledRun(w, moves)
    decreases |moves|
  {
    if moves == [] then w else AfterMoves(Moved(w, moves[0]), moves[1..])
  }

  function InFlight(w: Workflow): set<Id> {
    set id | id in w.invoked && id !in w.settled
  }

  /** `{"error":{"message":"busy","outcome":"not_started"}}`. */
  function BusyResult(): Value {
    Object(map[Of("error") := Object(map[Of("message") := String(Of("busy")), Of("outcome") := NOT_STARTED])])
  }
}
