/** A daemon call told from its events alone: which answer the daemon writes, what the client has of it when
    the race is over, and what the caller gets. None of this looks at a state; that the states of the protocol
    agree with it after every run is what is proved. */
module CallHistory {
  import opened CodeUnits
  import opened Options
  import opened OrderedJson
  import opened Framing
  import opened ErrorFrames
  import opened CallProtocol
  import opened CallSteps

  function Init(run: seq<Event>): seq<Event>
    requires run != []
  {
    run[..|run| - 1]
  }

  function Last(run: seq<Event>): Event
    requires run != []
  {
    run[|run| - 1]
  }

  /** What is thrown by the race, if a socket error came before everything else that could end it. */
  function Rejection(run: seq<Event>): Option<Text>
    decreases |run|
  {
    if run == [] then None
    else if Rejection(Init(run)).Some? then Rejection(Init(run))
    else if Last(run).SocketFails? && Aborts !in Init(run) && SocketEnds !in Init(run) then Some(Last(run).message)
    else None
  }

  /** An error as it is sent. */
  function Written(id: Text, text: Text): Envelope {
    Error(if Fits(id, text) then text else Of("response_too_large"))
  }

  /** The envelope that this event makes the daemon write, after these. */
  ghost function AnswerTo(id: Text, before: seq<Event>, e: Event): Option<Envelope> {
    var cancelled := CancelArrives in before;
    match e
    case Refuses(message) => Some(Written(id, message))
    case AuthorizationFails(message) => Some(Written(id, message))
    case AuthorizationSucceeds(lead) => if cancelled then Some(Written(id, lead)) else None
    case RuntimeFails(message) => Some(Written(id, message))
    case RemoteFails(message) => Some(Written(id, WithMark(message)))
    case RemoteReturns(lead, result) =>
      if cancelled then Some(Written(id, WithMark(lead)))
      else if result.Some? && Serialize(ResultEnvelope(id, result.value)).Some? then Some(Result(result.value))
      else Some(Error(lead + SUFFIX))
    case _ => None
  }

  ghost function Answer(id: Text, run: seq<Event>): Option<Envelope>
    decreases |run|
  {
    if run == [] then None else Or(Answer(id, Init(run)), AnswerTo(id, Init(run), Last(run)))
  }

  /** What the caller gets from the continuation after the race. */
  ghost function Verdict(id: Text, before: seq<Event>, lead: Text): Settlement {
    var unknown := Failed(lead + SUFFIX);
    var asked := Connects in before;
    var heard := if Receives in before then Answer(id, before) else None;
    if Rejection(before).Some? then if asked then unknown else Failed(Rejection(before).value)
    else if Aborts in before then unknown
    else if heard.Some? && heard.value.Result? then Returned(heard.value.result)
    else if heard.Some? && heard.value.message != [] then Failed(Of("MCP daemon: ") + heard.value.message)
    else if asked then unknown
    else Failed(Of("MCP daemon returned no tool result."))
  }

  ghost function Told(id: Text, run: seq<Event>): Option<Settlement>
    decreases |run|
  {
    if run == [] then None
    else if Told(id, Init(run)).Some? then Told(id, Init(run))
    else match Last(run)
      case FailsBeforeStart(message) => Some(Failed(message))
      case Settles(lead) => Some(Verdict(id, Init(run), lead))
      case _ => None
  }

  // ----- one more event -----

  lemma OneMore(run: seq<Event>, e: Event)
    ensures run + [e] != [] && Init(run + [e]) == run && Last(run + [e]) == e
    ensures forall x :: x in run + [e] <==> x in run || x == e
  {
  }

  ghost predicate FlagsAgree(s: State, run: seq<Event>) {
    && (s.aborted <==> Aborts in run)
    && (s.requestWritten <==> Connects in run)
    && (s.signal <==> CancelArrives in run)
    && (s.open <==> SocketEnds !in run && forall i | 0 <= i < |run| :: !run[i].SocketFails?)
  }

  ghost predicate RaceAgrees(s: State, run: seq<Event>) {
    match s.race
    case Running => Rejection(run).None? && Aborts !in run && SocketEnds !in run
    case Rejected(message) => Rejection(run) == Some(message)
    case Finished => Rejection(run).None? && (Aborts in run || SocketEnds in run)
  }

  /** The answer is not there, or on its way, or received. */
  ghost predicate MailAgrees(s: State, answer: Option<Envelope>, received: bool) {
    if answer.None? then s.replies == [] && s.daemonError.None? && s.result.None? && !received
    else
      && s.daemon.Closed?
      && s.replies == (if received then [] else [answer.value])
      && s.result == (if received && answer.value.Result? then Some(answer.value.result) else None)
      && s.daemonError == if received && answer.value.Error? then Some(answer.value.message) else None
  }

  lemma FlagsStep(s: State, run: seq<Event>, e: Event)
    requires FlagsAgree(s, run) && Can(s, e)
    ensures FlagsAgree(Do(s, e), run + [e])
  {
    OneMore(run, e);
    if FromDaemon(e) { DaemonKeepsFlags(s, e); }
  }

  /** The daemon's steps are not the client's. */
  lemma DaemonKeepsFlags(s: State, e: Event)
    requires Can(s, e) && FromDaemon(e)
    ensures SameClient(s, Do(s, e))
  {
    match e
    case Refuses(message) => assert Do(s, e) == Replies(s.(request := Arrived), ErrorSent(s, message));
    case RemoteReturns(lead, result) => assert Do(s, e) == Returns(s, lead, result);
    case AuthorizationFails(message) => assert Do(s, e) == Catches(s, message);
    case AuthorizationSucceeds(lead) => assert s.signal ==> Do(s, e) == Catches(s, lead);
    case RuntimeFails(message) => assert Do(s, e) == Catches(s, message);
    case RemoteFails(message) => assert Do(s, e) == Catches(s, message);
    case _ =>
  }

  lemma RaceStep(s: State, run: seq<Event>, e: Event)
    requires RaceAgrees(s, run) && Can(s, e)
    ensures RaceAgrees(Do(s, e), run + [e])
  {
    OneMore(run, e);
    if FromDaemon(e) { DaemonKeepsFlags(s, e); }
  }

  lemma CatchWrites(s: State, id: Text, message: Text)
    requires SameFrames(Start(id), s)
    ensures Catches(s, message).replies == s.replies + [Written(id, if s.dispatched then WithMark(message) else message)]
    ensures Catches(s, message).daemon.Closed?
  {
  }

  lemma ReturnWrites(s: State, id: Text, lead: Text, result: Option<Tree>)
    requires SameFrames(Start(id), s) && s.dispatched
    ensures var r := Returns(s, lead, result);
      && r.daemon.Closed?
      && r.replies == s.replies + [
           if s.signal then Written(id, WithMark(lead))
           else if result.Some? && Serialize(ResultEnvelope(id, result.value)).Some? then Result(result.value)
           else Error(lead + SUFFIX)]
  {
    if s.signal { CatchWrites(s, id, lead); }
  }

  /** What the daemon writes at a step. */
  lemma DaemonWrites(s: State, id: Text, run: seq<Event>, e: Event)
    requires Inv(s) && Can(s, e) && FromDaemon(e) && SameFrames(Start(id), s)
    requires s.signal <==> CancelArrives in run
    ensures var a := AnswerTo(id, run, e);
      && Do(s, e).replies == s.replies + (if a.Some? then [a.value] else [])
      && (a.Some? ==> Do(s, e).daemon.Closed?) && (s.daemon.Closed? ==> a.None? && Do(s, e).daemon.Closed?)
  {
    match e
    case RemoteReturns(lead, result) => ReturnWrites(s, id, lead, result);
    case AuthorizationFails(message) => CatchWrites(s, id, message);
    case AuthorizationSucceeds(lead) => CatchWrites(s, id, lead);
    case RuntimeFails(message) => CatchWrites(s, id, message);
    case RemoteFails(message) => CatchWrites(s, id, message);
    case _ =>
  }

  lemma OthersWriteNothing(s: State, id: Text, run: seq<Event>, e: Event)
    requires Can(s, e) && !FromDaemon(e) && !e.Receives?
    ensures AnswerTo(id, run, e).None?
    ensures var t := Do(s, e);
      t.replies == s.replies && t.daemon == s.daemon && t.result == s.result && t.daemonError == s.daemonError
  {
  }

  lemma MailStep(s: State, id: Text, run: seq<Event>, e: Event)
    requires Inv(s) && Can(s, e) && SameFrames(Start(id), s) && FlagsAgree(s, run)
    requires MailAgrees(s, Answer(id, run), Receives in run)
    ensures MailAgrees(Do(s, e), Answer(id, run + [e]), Receives in run + [e])
  {
    OneMore(run, e);
    if FromDaemon(e) {
      DaemonWrites(s, id, run, e);
      DaemonKeepsFlags(s, e);
    } else if !e.Receives? {
      OthersWriteNothing(s, id, run, e);
    }
  }

  lemma VerdictAgrees(s: State, id: Text, run: seq<Event>, lead: Text)
    requires FlagsAgree(s, run) && RaceAgrees(s, run) && MailAgrees(s, Answer(id, run), Receives in run)
    requires Can(s, Settles(lead)) && Inv(s)
    ensures Outcome(s, lead) == Verdict(id, run, lead)
  {
  }

  ghost predicate Agrees(s: State, id: Text, run: seq<Event>) {
    && SameFrames(Start(id), s) && FlagsAgree(s, run) && RaceAgrees(s, run)
    && MailAgrees(s, Answer(id, run), Receives in run)
    && s.settled == Told(id, run) && (s.dispatched <==> Dispatches in run)
  }

  lemma DispatchStep(s: State, run: seq<Event>, e: Event)
    requires (s.dispatched <==> Dispatches in run) && Can(s, e)
    ensures Do(s, e).dispatched <==> Dispatches in run + [e]
  {
    OneMore(run, e);
  }

  lemma ToldStep(s: State, id: Text, run: seq<Event>, e: Event)
    requires Agrees(s, id, run) && Inv(s) && Can(s, e)
    ensures Do(s, e).settled == Told(id, run + [e])
  {
    OneMore(run, e);
    if s.settled.Some? {
      StepKeepsSettlement(s, e);
    } else if e.Settles? {
      VerdictAgrees(s, id, run, e.lead);
    } else if FromDaemon(e) {
      DaemonKeepsFlags(s, e);
    }
  }

  lemma Step(s: State, id: Text, run: seq<Event>, e: Event)
    requires Agrees(s, id, run) && Inv(s) && Can(s, e)
    ensures Agrees(Do(s, e), id, run + [e])
  {
    FlagsStep(s, run, e);
    RaceStep(s, run, e);
    MailStep(s, id, run, e);
    ToldStep(s, id, run, e);
    DispatchStep(s, run, e);
    StepKeepsFrames(s, e);
  }

  lemma {:induction false} RunAgrees(s: State, id: Text, past: seq<Event>, run: seq<Event>)
    requires Agrees(s, id, past) && Inv(s) && CanRun(s, run)
    ensures Agrees(After(s, run), id, past + run)
    decreases |run|
  {
    if run == [] {
      assert past + run == past;
    } else {
      Step(s, id, past, run[0]);
      StepKeeps(s, run[0]);
      RunAgrees(Do(s, run[0]), id, past + [run[0]], run[1..]);
      assert (past + [run[0]]) + run[1..] == past + run;
    }
  }

  lemma EveryRunAgrees(id: Text, run: seq<Event>)
    requires CanRun(Start(id), run)
    ensures Agrees(After(Start(id), run), id, run)
  {
    RunAgrees(Start(id), id, [], run);
    assert [] + run == run;
  }

  // ----- the events behind an answer and a settlement -----

  lemma {:induction false} AnswerComesFrom(id: Text, run: seq<Event>) returns (j: nat)
    requires Answer(id, run).Some?
    ensures j < |run| && AnswerTo(id, run[..j], run[j]) == Answer(id, run)
    decreases |run|
  {
    if Answer(id, Init(run)).Some? {
      j := AnswerComesFrom(id, Init(run));
      assert Init(run)[..j] == run[..j];
    } else {
      j := |run| - 1;
    }
  }

  predicate EndsCall(e: Event) {
    e.FailsBeforeStart? || e.Settles?
  }

  /** Event `k` is the first that settles the call. */
  predicate SettledBy(run: seq<Event>, k: nat) {
    k < |run| && EndsCall(run[k]) && forall i | 0 <= i < k :: !EndsCall(run[i])
  }

  lemma {:induction false} NotYetTold(id: Text, run: seq<Event>)
    ensures Told(id, run).None? <==> forall i | 0 <= i < |run| :: !EndsCall(run[i])
    decreases |run|
  {
    if run != [] {
      NotYetTold(id, Init(run));
      assert forall i | 0 <= i < |Init(run)| :: Init(run)[i] == run[i];
    }
  }

  lemma {:induction false} ToldBy(id: Text, run: seq<Event>, k: nat)
    requires SettledBy(run, k)
    ensures Told(id, run) == Some(if run[k].Settles? then Verdict(id, run[..k], run[k].lead) else Failed(run[k].message))
    decreases |run|
  {
    if k == |run| - 1 {
      NotYetTold(id, Init(run));
      assert run[..k] == Init(run);
    } else {
      assert forall i | 0 <= i < |Init(run)| :: Init(run)[i] == run[i];
      NotYetTold(id, Init(run));
      ToldBy(id, Init(run), k);
      assert Init(run)[..k] == run[..k];
    }
  }

  lemma {:induction false} FirstSettling(run: seq<Event>, i: nat) returns (k: nat)
    requires i < |run| && EndsCall(run[i])
    ensures SettledBy(run, k)
    decreases i
  {
    if j: nat :| j < i && EndsCall(run[j]) { k := FirstSettling(run, j); } else { k := i; }
  }

  lemma {:induction false} Cut(s: State, run: seq<Event>, k: nat)
    requires CanRun(s, run) && k < |run|
    ensures CanRun(s, run[..k]) && Can(After(s, run[..k]), run[k])
    decreases |run|
  {
    if k > 0 {
      Cut(Do(s, run[0]), run[1..], k - 1);
      assert run[1..][..k - 1] == run[..k][1..];
    }
  }

  lemma {:induction false} AnswerPersists(id: Text, run: seq<Event>, k: nat)
    requires k <= |run| && Answer(id, run[..k]).Some?
    ensures Answer(id, run) == Answer(id, run[..k])
    decreases |run|
  {
    if k == |run| {
      assert run[..k] == run;
    } else {
      assert Init(run)[..k] == run[..k];
      AnswerPersists(id, Init(run), k);
    }
  }

  /** The daemon writes one answer: the first event that makes it write is the only one. */
  lemma AnswerWritten(id: Text, run: seq<Event>, j: nat)
    requires CanRun(Start(id), run) && j < |run| && FromDaemon(run[j]) && AnswerTo(id, run[..j], run[j]).Some?
    ensures Answer(id, run) == AnswerTo(id, run[..j], run[j])
  {
    Cut(Start(id), run, j);
    EveryRunAgrees(id, run[..j]);
    var s := After(Start(id), run[..j]);
    RunKeeps(Start(id), run[..j]);
    DaemonWrites(s, id, run[..j], run[j]);
    assert Answer(id, run[..j]).None?;
    assert Init(run[..j + 1]) == run[..j] && Last(run[..j + 1]) == run[j];
    AnswerPersists(id, run, j + 1);
  }

  lemma {:induction false} RejectionComesFrom(run: seq<Event>) returns (j: nat)
    requires Rejection(run).Some?
    ensures j < |run| && run[j].SocketFails?
    decreases |run|
  {
    if Rejection(Init(run)).Some? { j := RejectionComesFrom(Init(run)); } else { j := |run| - 1; }
  }

  lemma {:induction false} RejectionPersists(run: seq<Event>, k: nat)
    requires k <= |run| && Rejection(run[..k]).Some?
    ensures Rejection(run).Some?
    decreases |run|
  {
    if k == |run| {
      assert run[..k] == run;
    } else {
      assert Init(run)[..k] == run[..k];
      RejectionPersists(Init(run), k);
    }
  }

  lemma OpenUntilNow(s: State, id: Text, before: seq<Event>, e: Event)
    requires Agrees(s, id, before) && Can(s, e) && e.SocketFails?
    ensures SocketEnds !in before
  {
  }

  lemma RejectedNow(before: seq<Event>, e: Event)
    requires e.SocketFails? && Aborts !in before && SocketEnds !in before
    ensures Rejection(before + [e]).Some?
  {
    OneMore(before, e);
  }

  lemma {:induction false} NotEndedBefore(start: State, id: Text, run: seq<Event>, j: nat)
    requires Agrees(start, id, []) && Inv(start) && CanRun(start, run) && j < |run| && run[j].SocketFails?
    ensures SocketEnds !in run[..j]
  {
    Cut(start, run, j);
    RunAgrees(start, id, [], run[..j]);
    assert [] + run[..j] == run[..j];
    OpenUntilNow(After(start, run[..j]), id, run[..j], run[j]);
  }

  /** Without an abort a socket error rejects the race. */
  lemma {:induction false} FailureRejects(start: State, id: Text, run: seq<Event>, j: nat)
    requires Agrees(start, id, []) && Inv(start) && CanRun(start, run)
    requires j < |run| && run[j].SocketFails? && Aborts !in run
    ensures Rejection(run).Some?
  {
    NotEndedBefore(start, id, run, j);
    RejectedNow(run[..j], run[j]);
    assert run[..j + 1] == run[..j] + [run[j]];
    RejectionPersists(run, j + 1);
  }
}
