/** One tool call through the MCP daemon: the client, the socket, the daemon and the remote tool as one
    step system. The question is what the caller may conclude from how its call settled. */
module CallProtocol {
  import opened CodeUnits
  import opened Options
  import opened OrderedJson
  import opened Framing
  import opened ErrorFrames

  // ----- messages -----

  const MARK: Text := Of("do not retry automatically")
  const SUFFIX: Text := Of("; remote outcome is unknown; ") + MARK + Of(".")

  /** `message.includes("do not retry automatically")`. */
  ghost predicate Marked(message: Text) {
    exists i: nat :: MarkAt(message, i)
  }

  predicate MarkAt(message: Text, i: nat) {
    i + |MARK| <= |message| && message[i..i + |MARK|] == MARK
  }

  lemma MarkedAnywhere(before: Text, after: Text)
    ensures Marked(before + MARK + after)
  {
    var m := before + MARK + after;
    assert MarkAt(m, |before|);
  }

  lemma SuffixMarks(message: Text)
    ensures Marked(message + SUFFIX)
  {
    var lead := Of("; remote outcome is unknown; ");
    assert message + SUFFIX == (message + lead) + MARK + Of(".");
    MarkedAnywhere(message + lead, Of("."));
  }

  lemma PrefixKeepsMark(lead: Text, message: Text)
    requires Marked(message)
    ensures Marked(lead + message)
  {
    var i: nat :| MarkAt(message, i);
    assert (lead + message)[|lead| + i..|lead| + i + |MARK|] == message[i..i + |MARK|];
    assert MarkAt(lead + message, |lead| + i);
  }

  /** What the daemon makes of an error after dispatch. */
  ghost function WithMark(message: Text): (m: Text)
    ensures Marked(m)
    ensures exists tail :: m == message + tail
  {
    SuffixMarks(message);
    assert message == message + [];
    if Marked(message) then message else message + SUFFIX
  }

  // ----- state -----

  datatype Envelope = Result(result: Tree) | Error(message: Text)

  datatype Settlement = Returned(result: Tree) | Failed(message: Text)

  /** `Promise.race([exchange, abortPromise])`. */
  datatype Race = Running | Rejected(message: Text) | Finished

  datatype Request = Unsent | OnWire | Arrived | Lost

  /** How far `callToolRequest` has come. */
  datatype Daemon = NoRequest | Authorizing | AwaitingRuntime | Calling | Closed

  datatype State = State(
    id: Text,
    refused: iset<Tree>,         // the envelopes `serializeMcpDaemonEnvelope` refuses
    // callMcpDaemonTool
    started: bool,               // the exchange exists
    requestWritten: bool,
    aborted: bool,
    result: Option<Tree>,
    daemonError: Option<Text>,
    race: Race,
    settled: Option<Settlement>,
    // the socket
    request: Request,
    replies: seq<Envelope>,
    open: bool,                  // no end and no error seen by the client
    // the daemon
    daemon: Daemon,
    signal: bool,                // the request's AbortController
    dispatched: bool,
    ending: Option<Text>,        // the error that ended a dispatched call, before it was framed
    // the remote tool
    invocations: nat)

  function Idle(id: Text, refused: iset<Tree>): State {
    State(id, refused, false, false, false, None, None, Running, None, Unsent, [], true, NoRequest, false, false, None, 0)
  }

  ghost function Start(id: Text): State {
    Idle(id, iset envelope: Tree | Serialize(envelope).None?)
  }

  // ----- steps -----

  /** Texts that depend on names, ids or remote content are carried by the event. */
  datatype Event =
    // client
    | FailsBeforeStart(message: Text)   // aborted before execution, or the daemon did not come up
    | Starts
    | Connects
    | Receives
    | SocketEnds
    | SocketFails(message: Text)        // a socket error, or a frame over the limit
    | Aborts                            // the caller's signal or the hard timeout
    | Settles(lead: Text)               // the continuation after the race
    // network
    | LosesRequest
    // daemon
    | Refuses(message: Text)            // unauthorized, duplicate, unavailable, unreadable
    | Accepts
    | AuthorizationFails(message: Text)
    | AuthorizationSucceeds(lead: Text)
    | RuntimeFails(message: Text)
    | Dispatches
    | RemoteReturns(lead: Text, result: Option<Tree>)  // None: an object in it twice, which is refused
    | RemoteFails(message: Text)
    | CancelArrives                     // a cancel request, a closed socket or a shutdown
    | DaemonDies

  predicate Can(s: State, e: Event) {
    match e
    case FailsBeforeStart(_) => !s.started && s.settled.None?
    case Starts => !s.started && s.settled.None?
    case Connects => s.started && s.open && !s.requestWritten
    case Receives => s.requestWritten && s.open && s.replies != []
    case SocketEnds => s.started && s.open
    case SocketFails(_) => s.started && s.open
    case Aborts => s.started && s.settled.None?
    case Settles(_) => s.settled.None? && !s.race.Running?
    case LosesRequest => s.request.OnWire?
    case Refuses(_) => s.request.OnWire? && s.daemon.NoRequest?
    case Accepts => s.request.OnWire? && s.daemon.NoRequest?
    case AuthorizationFails(_) => s.daemon.Authorizing?
    case AuthorizationSucceeds(_) => s.daemon.Authorizing?
    case RuntimeFails(_) => s.daemon.AwaitingRuntime?
    case Dispatches => s.daemon.AwaitingRuntime?
    case RemoteReturns(_, _) => s.daemon.Calling?
    case RemoteFails(_) => s.daemon.Calling?
    case CancelArrives => true
    case DaemonDies => true
  }

  /** The frame rules and the request's id are the same. */
  ghost predicate SameFrames(s: State, t: State) {
    t.id == s.id && t.refused == s.refused
  }

  /** The client, the socket's ends and the cancel signal are the same. */
  ghost predicate SameClient(s: State, t: State) {
    && t.aborted == s.aborted && t.requestWritten == s.requestWritten && t.signal == s.signal
    && t.race == s.race && t.open == s.open && t.started == s.started && t.settled == s.settled
    && t.result == s.result && t.daemonError == s.daemonError
  }

  function Rejects(s: State, message: Text): (r: State)
    ensures r.settled == s.settled && SameFrames(s, r)
  {
    s.(open := false, race := if s.race.Running? then Rejected(message) else s.race)
  }

  function Finishes(s: State): (r: State)
    ensures r.settled == s.settled && SameFrames(s, r)
  {
    s.(race := if s.race.Running? then Finished else s.race)
  }

  /** The statements after the race in `callMcpDaemonTool`. */
  function Outcome(s: State, lead: Text): Settlement {
    if s.race.Rejected? then
      if s.requestWritten then Failed(lead + SUFFIX) else Failed(s.race.message)
    else if s.aborted then Failed(lead + SUFFIX)
    else if s.daemonError.Some? && s.daemonError.value != [] then Failed(Of("MCP daemon: ") + s.daemonError.value)
    else if s.result.None? then
      if s.requestWritten then Failed(lead + SUFFIX) else Failed(Of("MCP daemon returned no tool result."))
    else Returned(s.result.value)
  }

  /** `callToolRequest` is over, with one last envelope. */
  function Replies(s: State, e: Envelope): (r: State)
    ensures SameClient(s, r) && SameFrames(s, r)
  {
    s.(daemon := Closed, replies := s.replies + [e])
  }

  const TOO_LARGE: Text := Of("response_too_large")

  /** `send` for an error: one whose envelope is refused is replaced by `response_too_large`. */
  function ErrorSent(s: State, text: Text): Envelope {
    Error(if ErrorEnvelope(s.id, text) !in s.refused then text else TOO_LARGE)
  }

  /** The catch clause: an error after dispatch gets the mark unless it has it. */
  ghost function Catches(s: State, message: Text): (r: State)
    ensures SameClient(s, r) && SameFrames(s, r)
  {
    if s.dispatched then Replies(s, ErrorSent(s, WithMark(message))).(ending := Some(WithMark(message)))
    else Replies(s, ErrorSent(s, message))
  }

  /** A result came back: a cancelled call throws, a result that does not fit a frame becomes a marked
      error, which is written without looking at its size. */
  ghost function Returns(s: State, lead: Text, result: Option<Tree>): (r: State)
    ensures SameClient(s, r) && SameFrames(s, r)
  {
    if s.signal then Catches(s, lead)
    else if result.Some? && ResultEnvelope(s.id, result.value) !in s.refused then Replies(s, Result(result.value))
    else Replies(s, Error(lead + SUFFIX))
  }

  ghost function Do(s: State, e: Event): State
    requires Can(s, e)
  {
    match e
    case FailsBeforeStart(message) => s.(settled := Some(Failed(message)))
    case Starts => s.(started := true)
    case Connects => s.(requestWritten := true, request := OnWire)
    case Receives =>
      var rest := s.(replies := s.replies[1..]);
      if s.replies[0].Result? then rest.(result := Some(s.replies[0].result)) else rest.(daemonError := Some(s.replies[0].message))
    case SocketEnds => Finishes(s.(open := false))
    case SocketFails(message) => Rejects(s, message)
    case Aborts => Finishes(s.(aborted := true))
    case Settles(lead) => s.(settled := Some(Outcome(s, lead)))
    case LosesRequest => s.(request := Lost)
    case Refuses(message) => Replies(s.(request := Arrived), ErrorSent(s, message))
    case Accepts => s.(request := Arrived, daemon := Authorizing)
    case AuthorizationFails(message) => Catches(s, message)
    case AuthorizationSucceeds(lead) => if s.signal then Catches(s, lead) else s.(daemon := AwaitingRuntime)
    case RuntimeFails(message) => Catches(s, message)
    case Dispatches => s.(daemon := Calling, dispatched := true, invocations := s.invocations + 1)
    case RemoteReturns(lead, result) => Returns(s, lead, result)
    case RemoteFails(message) => Catches(s, message)
    case CancelArrives => s.(signal := true)
    case DaemonDies => s.(daemon := Closed)
  }

  ghost predicate CanRun(s: State, run: seq<Event>)
    decreases |run|
  {
    run == [] || (Can(s, run[0]) && CanRun(Do(s, run[0]), run[1..]))
  }

  ghost function After(s: State, run: seq<Event>): State
    requires CanRun(s, run)
    decreases |run|
  {
    if run == [] then s else After(Do(s, run[0]), run[1..])
  }
}
