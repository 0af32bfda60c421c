/** What every step of a daemon call keeps. The heart of it is `Truthful`: whatever error is under way to
    the caller has the words against retrying, or the tool was not called and no longer can be, or the
    error replaces one that had the words and did not fit a frame. */
module CallSteps {
  import opened CodeUnits
  import opened Options
  import opened OrderedJson
  import opened Framing
  import opened ErrorFrames
  import opened CallProtocol

  /** The tool has not been called and no longer can be. */
  predicate NeverDispatches(s: State) {
    && !s.dispatched
    && (s.daemon.Closed? || (s.request.Unsent? && (!s.open || (!s.started && s.settled.Some?))))
  }

  /** A dispatched call ended with an error that does not fit a frame. */
  ghost predicate EndedTooLarge(s: State) {
    s.dispatched && s.ending.Some? && Marked(s.ending.value) && ErrorEnvelope(s.id, s.ending.value) in s.refused
  }

  /** What the text of an error tells, where `replacement` stands for one that did not fit. */
  ghost predicate Truthful(s: State, message: Text, replacement: Text) {
    Marked(message) || NeverDispatches(s) || (message == replacement && EndedTooLarge(s))
  }

  const LOST: Text := Of("MCP daemon: ") + TOO_LARGE

  ghost predicate Inv(s: State) {
    // the request
    && (s.request.Unsent? <==> !s.requestWritten)
    && (s.requestWritten ==> s.started)
    && (s.daemon in {Authorizing, AwaitingRuntime, Calling} ==> s.request.Arrived?)
    && (s.dispatched <==> s.invocations == 1) && s.invocations <= 1
    && (s.dispatched ==> s.request.Arrived? && s.daemon in {Calling, Closed})
    && (s.daemon.Calling? ==> s.dispatched)
    && (!s.daemon.NoRequest? ==> s.request.Arrived? || s.daemon.Closed?)
    // the replies
    && (s.replies != [] ==> s.daemon.Closed?)
    && (forall i | 0 <= i < |s.replies| :: s.replies[i].Result? ==> s.dispatched)
    && (forall i | 0 <= i < |s.replies| :: s.replies[i].Error? ==> Truthful(s, s.replies[i].message, TOO_LARGE))
    // the client
    && (s.result.Some? ==> s.dispatched)
    && (s.daemonError.Some? ==> s.daemon.Closed? && Truthful(s, s.daemonError.value, TOO_LARGE))
    && (s.ending.Some? ==> s.dispatched && s.daemon.Closed?)
    && (s.race.Rejected? ==> !s.open)
    && (s.race.Finished? ==> !s.open || s.aborted)
    && (!s.started ==> s.race.Running?)
    && (s.settled.Some? && s.settled.value.Returned? ==> s.dispatched)
    && (s.settled.Some? && s.settled.value.Failed? ==> Truthful(s, s.settled.value.message, LOST))
  }

  lemma CatchesKeeps(s: State, message: Text)
    requires Inv(s) && s.daemon in {Authorizing, AwaitingRuntime, Calling}
    ensures Inv(Catches(s, message))
  {
  }

  lemma SettlesKeeps(s: State, lead: Text)
    requires Inv(s) && Can(s, Settles(lead))
    ensures Inv(Do(s, Settles(lead)))
  {
    SuffixMarks(lead);
    var r := Do(s, Settles(lead));
    if !s.race.Rejected? && !s.aborted && s.daemonError.Some? && Marked(s.daemonError.value) {
      PrefixKeepsMark(Of("MCP daemon: "), s.daemonError.value);
    }
  }

  predicate FromDaemon(e: Event) {
    e.Refuses? || e.Accepts? || e.AuthorizationFails? || e.AuthorizationSucceeds? || e.RuntimeFails?
    || e.Dispatches? || e.RemoteReturns? || e.RemoteFails? || e.DaemonDies?
  }

  lemma ReturnsKeeps(s: State, lead: Text, result: Option<Tree>)
    requires Inv(s) && s.daemon.Calling?
    ensures Inv(Returns(s, lead, result))
  {
    if s.signal { CatchesKeeps(s, lead); } else { SuffixMarks(lead); }
  }

  lemma RefusesKeeps(s: State, message: Text)
    requires Inv(s) && Can(s, Refuses(message))
    ensures Inv(Do(s, Refuses(message)))
  {
  }

  lemma DaemonKeeps(s: State, e: Event)
    requires Inv(s) && Can(s, e) && FromDaemon(e)
    ensures Inv(Do(s, e))
  {
    match e
    case AuthorizationFails(message) => CatchesKeeps(s, message);
    case AuthorizationSucceeds(lead) => if s.signal { CatchesKeeps(s, lead); }
    case RuntimeFails(message) => CatchesKeeps(s, message);
    case RemoteReturns(lead, result) => ReturnsKeeps(s, lead, result);
    case RemoteFails(message) => CatchesKeeps(s, message);
    case Refuses(message) => RefusesKeeps(s, message);
    case _ =>
  }

  lemma ReceivesKeeps(s: State)
    requires Inv(s) && Can(s, Receives)
    ensures Inv(Do(s, Receives))
  {
    var rest := Do(s, Receives);
    assert forall i | 0 <= i < |rest.replies| :: rest.replies[i] == s.replies[i + 1];
  }

  /** A change to the race alone. */
  lemma RaceKeeps(s: State, t: State)
    requires Inv(s)
    requires t == s.(open := t.open, aborted := t.aborted, race := t.race)
    requires (t.open ==> s.open) && (s.aborted ==> t.aborted)
    requires t.race.Rejected? ==> !t.open
    requires t.race.Finished? ==> !t.open || t.aborted
    requires !s.started ==> t.race.Running?
    ensures Inv(t)
  {
  }

  predicate EndsRace(e: Event) {
    e.SocketEnds? || e.SocketFails? || e.Aborts?
  }

  lemma EndKeeps(s: State, e: Event)
    requires Inv(s) && Can(s, e) && EndsRace(e)
    ensures Inv(Do(s, e))
  {
    RaceKeeps(s, Do(s, e));
  }

  lemma ClientKeeps(s: State, e: Event)
    requires Inv(s) && Can(s, e) && !FromDaemon(e) && !EndsRace(e) && !e.Settles? && !e.Receives?
    ensures Inv(Do(s, e))
  {
  }

  lemma StepKeeps(s: State, e: Event)
    requires Inv(s) && Can(s, e)
    ensures Inv(Do(s, e))
  {
    if e.Settles? {
      SettlesKeeps(s, e.lead);
    } else if e.Receives? {
      ReceivesKeeps(s);
    } else if EndsRace(e) {
      EndKeeps(s, e);
    } else if FromDaemon(e) {
      DaemonKeeps(s, e);
    } else {
      ClientKeeps(s, e);
    }
  }

  lemma DaemonLeaves(s: State, e: Event)
    requires Can(s, e) && FromDaemon(e)
    ensures Do(s, e).settled == s.settled && SameFrames(s, Do(s, e))
  {
    match e
    case Refuses(message) => assert Do(s, e) == Replies(s.(request := Arrived), ErrorSent(s, message));
    case RemoteReturns(lead, result) => assert Do(s, e) == Returns(s, lead, result);
    case AuthorizationFails(message) => assert Do(s, e) == Catches(s, message);
    case AuthorizationSucceeds(lead) => assert s.signal ==> Do(s, e) == Catches(s, lead);
    case RuntimeFails(message) => assert Do(s, e) == Catches(s, message);
    case RemoteFails(message) => assert Do(s, e) == Catches(s, message);
    case _ =>
  }

  /** The frame rules and the request's id do not change. */
  lemma StepKeepsFrames(s: State, e: Event)
    requires Can(s, e)
    ensures SameFrames(s, Do(s, e))
  {
    if FromDaemon(e) { DaemonLeaves(s, e); }
  }

  lemma {:induction false} RunKeeps(s: State, run: seq<Event>)
    requires Inv(s) && CanRun(s, run)
    ensures Inv(After(s, run)) && SameFrames(s, After(s, run))
    decreases |run|
  {
    if run != [] {
      StepKeeps(s, run[0]);
      StepKeepsFrames(s, run[0]);
      RunKeeps(Do(s, run[0]), run[1..]);
    }
  }

  lemma StepKeepsSettlement(s: State, e: Event)
    requires s.settled.Some? && Can(s, e)
    ensures Do(s, e).settled == s.settled
  {
    if FromDaemon(e) {
      DaemonLeaves(s, e);
    }
  }

  lemma {:induction false} RunAppend(s: State, run: seq<Event>, more: seq<Event>)
    requires CanRun(s, run) && CanRun(After(s, run), more)
    ensures CanRun(s, run + more) && After(s, run + more) == After(After(s, run), more)
    decreases |run|
  {
    if run == [] {
      assert run + more == more;
    } else {
      assert (run + more)[1..] == run[1..] + more;
      RunAppend(Do(s, run[0]), run[1..], more);
    }
  }

  // ----- which errors fit -----

  /** Whether the daemon can send an error with this text. */
  predicate Fits(id: Text, text: Text) {
    Serialize(ErrorEnvelope(id, text)).Some?
  }

  ghost predicate LostItsMark(id: Text, s: State) {
    s.ending.Some? && Marked(s.ending.value) && !Fits(id, s.ending.value)
  }

  /** The errors a dispatched call can end with all fit. */
  ghost predicate ErrorFits(id: Text, e: Event) {
    match e
    case RemoteReturns(lead, _) => Fits(id, WithMark(lead))
    case RemoteFails(message) => Fits(id, WithMark(message))
    case _ => true
  }

  ghost predicate ErrorsFit(id: Text, run: seq<Event>) {
    forall i | 0 <= i < |run| :: ErrorFits(id, run[i])
  }

  predicate EndingFits(s: State) {
    s.ending.Some? ==> Fits(s.id, s.ending.value)
  }

  lemma StepEndingFits(s: State, e: Event)
    requires Inv(s) && Can(s, e) && EndingFits(s) && ErrorFits(s.id, e)
    ensures EndingFits(Do(s, e))
  {
    match e
    case RemoteReturns(lead, result) => assert Do(s, e) == Returns(s, lead, result);
    case RemoteFails(message) => assert Do(s, e) == Catches(s, message);
    case _ => OtherEndingFits(s, e);
  }

  lemma OtherEndingFits(s: State, e: Event)
    requires Inv(s) && Can(s, e) && !e.RemoteReturns? && !e.RemoteFails?
    ensures Do(s, e).ending == s.ending && SameFrames(s, Do(s, e))
  {
    StepKeepsFrames(s, e);
  }

  lemma {:induction false} EndingsFit(s: State, run: seq<Event>)
    requires Inv(s) && CanRun(s, run) && EndingFits(s) && ErrorsFit(s.id, run)
    ensures EndingFits(After(s, run))
    decreases |run|
  {
    if run != [] {
      StepKeeps(s, run[0]);
      StepKeepsFrames(s, run[0]);
      StepEndingFits(s, run[0]);
      EndingsFit(Do(s, run[0]), run[1..]);
    }
  }

  lemma TooLargeIsUnmarked()
    ensures !Marked(LOST) && !Marked(TOO_LARGE)
  {
    assert |MARK| == 26 && MARK[2] == ' ' as int && MARK[6] == ' ' as int;
    assert |LOST| == 30;
    forall i: nat | i + |MARK| <= |LOST| ensures !MarkAt(LOST, i) {
      assert LOST[i..i + |MARK|][6] == LOST[i + 6];
      assert LOST[i..i + |MARK|][0] == LOST[i];
    }
    if Marked(TOO_LARGE) { PrefixKeepsMark(Of("MCP daemon: "), TOO_LARGE); }
  }

  // ----- one run -----

  function ToCalling(): seq<Event> {
    [Starts, Connects, Accepts, AuthorizationSucceeds([]), Dispatches]
  }

  function ToSettled(message: Text): seq<Event> {
    [RemoteFails(message), Receives, SocketEnds, Settles([])]
  }

  function Called(id: Text, refused: iset<Tree>): State {
    Idle(id, refused).(started := true, requestWritten := true, request := Arrived, daemon := Calling,
                    dispatched := true, invocations := 1)
  }

  lemma ReachesCalling(id: Text, refused: iset<Tree>)
    ensures CanRun(Idle(id, refused), ToCalling()) && After(Idle(id, refused), ToCalling()) == Called(id, refused)
  {
    var s := Idle(id, refused);
    var run := ToCalling();
    var s1 := Do(s, Starts);
    var s2 := Do(s1, Connects);
    var s3 := Do(s2, Accepts);
    var s4 := Do(s3, AuthorizationSucceeds([]));
    var s5 := Do(s4, Dispatches);
    assert run[1..][1..][1..][1..] == [Dispatches];
    assert run[1..][1..][1..][1..][1..] == [];
    assert CanRun(s4, [Dispatches]) && After(s4, [Dispatches]) == s5;
    assert run[1..][1..][1..] == [AuthorizationSucceeds([]), Dispatches];
    assert CanRun(s3, run[1..][1..][1..]) && After(s3, run[1..][1..][1..]) == s5;
    assert CanRun(s2, run[1..][1..]) && After(s2, run[1..][1..]) == s5;
    assert CanRun(s1, run[1..]) && After(s1, run[1..]) == s5;
  }

  lemma FinishesOversized(s: State, message: Text)
    requires s == Called(s.id, s.refused) && ErrorEnvelope(s.id, WithMark(message)) in s.refused
    ensures CanRun(s, ToSettled(message))
    ensures After(s, ToSettled(message)).invocations == 1
    ensures After(s, ToSettled(message)).settled == Some(Failed(LOST))
  {
    var run := ToSettled(message);
    var s1 := Do(s, run[0]);
    assert s1.replies == [Error(TOO_LARGE)];
    var s2 := Do(s1, Receives);
    var s3 := Do(s2, SocketEnds);
    var s4 := Do(s3, Settles([]));
    assert TOO_LARGE != [];
    assert run[1..][1..][1..] == [Settles([])] && [Settles([])][1..] == [];
    assert CanRun(s3, [Settles([])]) && After(s3, [Settles([])]) == s4;
    assert CanRun(s2, run[1..][1..]) && After(s2, run[1..][1..]) == s4;
    assert CanRun(s1, run[1..]) && After(s1, run[1..]) == s4;
  }
}
