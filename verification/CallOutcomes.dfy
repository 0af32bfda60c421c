/** What the caller of a tool may conclude from how its call settled, in every run. */
module CallOutcomes {
  import opened CodeUnits
  import opened Unicode
  import opened Options
  import opened Json
  import opened CanonicalJson
  import opened Framing
  import opened ErrorFrames
  import opened CallProtocol
  import opened CallSteps
  import opened CallHistory
  import opened OrderedJson

  /** In every run: the tool is called at most once; a returned result means it was; an error that does
      not say not to retry means it was not, unless it reads `MCP daemon: response_too_large` and stands
      for an error that said so and did not fit a frame. */
  lemma CallerIsTold(id: Text, run: seq<Event>)
    requires CanRun(Start(id), run)
    ensures var s := After(Start(id), run);
      && s.invocations <= 1
      && (s.settled.Some? && s.settled.value.Returned? ==> s.invocations == 1)
      && (s.settled.Some? && s.settled.value.Failed? && !Marked(s.settled.value.message)
          ==> s.invocations == 0 || (s.settled.value.message == LOST && LostItsMark(id, s)))
  {
    RunKeeps(Start(id), run);
  }

  /** After any run the caller has been told exactly what the events tell, and the tool was called exactly
      when the call was dispatched. */
  lemma CallerGets(id: Text, run: seq<Event>)
    requires CanRun(Start(id), run)
    ensures After(Start(id), run).settled == Told(id, run)
    ensures After(Start(id), run).invocations == if Dispatches in run then 1 else 0
  {
    RunKeeps(Start(id), run);
    EveryRunAgrees(id, run);
  }

  /** Event `j` brings this result back, uncancelled and within a frame. */
  predicate ResultBack(id: Text, run: seq<Event>, j: nat, result: Tree) {
    && j < |run| && run[j].RemoteReturns? && run[j].result == Some(result)
    && CancelArrives !in run[..j] && Serialize(ResultEnvelope(id, result)).Some?
  }

  /** The answer is received and the call settled, with no abort and no socket error before. */
  predicate Undisturbed(run: seq<Event>, k: nat) {
    && SettledBy(run, k) && run[k].Settles? && Receives in run[..k] && Aborts !in run[..k]
    && forall i | 0 <= i < k :: !run[i].SocketFails?
  }

  /** The caller has the result exactly when it came back, was received, and nothing disturbed the
      exchange before the call settled. */
  lemma ReturnedExactly(id: Text, run: seq<Event>, result: Tree)
    requires CanRun(Start(id), run)
    ensures After(Start(id), run).settled == Some(Returned(result))
       <==> exists k: nat, j: nat :: j < k && Undisturbed(run, k) && ResultBack(id, run, j, result)
  {
    CallerGets(id, run);
    if Told(id, run) == Some(Returned(result)) {
      var k, j := ReturnedFrom(id, run, result);
    }
    forall k: nat, j: nat | j < k && Undisturbed(run, k) && ResultBack(id, run, j, result)
      ensures Told(id, run) == Some(Returned(result))
    {
      ResultReturned(id, run, k, j, result);
    }
  }

  lemma ReturnedFrom(id: Text, run: seq<Event>, result: Tree) returns (k: nat, j: nat)
    requires CanRun(Start(id), run) && Told(id, run) == Some(Returned(result))
    ensures j < k && Undisturbed(run, k) && ResultBack(id, run, j, result)
  {
    NotYetTold(id, run);
    var i: nat :| i < |run| && EndsCall(run[i]);
    k := FirstSettling(run, i);
    ToldBy(id, run, k);
    var before := run[..k];
    j := AnswerComesFrom(id, before);
    assert before[..j] == run[..j] && before[j] == run[j];
    Cut(Start(id), run, k);
    forall i | 0 <= i < k ensures !run[i].SocketFails? {
      if run[i].SocketFails? {
        assert before[i] == run[i];
        FailureRejects(Start(id), id, before, i);
      }
    }
  }

  lemma ResultReturned(id: Text, run: seq<Event>, k: nat, j: nat, result: Tree)
    requires CanRun(Start(id), run) && j < k && Undisturbed(run, k) && ResultBack(id, run, j, result)
    ensures Told(id, run) == Some(Returned(result))
  {
    var before := run[..k];
    Cut(Start(id), run, k);
    assert before[..j] == run[..j] && before[j] == run[j];
    AnswerWritten(id, before, j);
    if Rejection(before).Some? {
      var i := RejectionComesFrom(before);
      assert before[i] == run[i];
    }
    ToldBy(id, run, k);
  }

  /** From any state in which the call is out and nothing has disturbed it, a result that fits reaches the
      caller. */
  lemma ResultArrives(s: State, lead: Text, result: Tree, last: Text)
    requires Inv(s) && s.daemon.Calling? && s.settled.None? && s.race.Running? && s.open && !s.aborted && !s.signal
    requires ResultEnvelope(s.id, result) !in s.refused
    ensures var run := [RemoteReturns(lead, Some(result)), Receives, SocketEnds, Settles(last)];
      CanRun(s, run) && After(s, run).settled == Some(Returned(result))
  {
    var a, b, c, d := RemoteReturns(lead, Some(result)), Receives, SocketEnds, Settles(last);
    assert s.replies == [];
    assert Do(s, a) == Returns(s, lead, Some(result)) == Replies(s, Result(result));
    var s1 := Do(s, a);
    assert s1.replies == [Result(result)];
    var s2 := Do(s1, b);
    var s3 := Do(s2, c);
    TwoSteps(s2, s3, c, d);
    TwoSteps(s, s1, a, b);
    RunAppend(s, [a, b], [c, d]);
    assert [a, b] + [c, d] == [a, b, c, d];
  }

  lemma TwoSteps(s: State, t: State, a: Event, b: Event)
    requires Can(s, a) && t == Do(s, a) && Can(t, b)
    ensures CanRun(s, [a, b]) && After(s, [a, b]) == Do(t, b)
  {
    OneStep(t, b, []);
    OneStep(s, a, [b]);
    assert [b] + [] == [b] && [a] + [b] == [a, b];
  }

  lemma OneStep(s: State, e: Event, rest: seq<Event>)
    requires Can(s, e) && CanRun(Do(s, e), rest)
    ensures CanRun(s, [e] + rest) && After(s, [e] + rest) == After(Do(s, e), rest)
  {
    assert ([e] + rest)[1..] == rest;
  }

  /** When the errors that can end the dispatched call fit, what the caller is told is exact: an error
      without the mark means that the tool was not called. */
  lemma CallerIsToldWithinFrames(id: Text, run: seq<Event>)
    requires CanRun(Start(id), run) && ErrorsFit(id, run)
    ensures var s := After(Start(id), run);
      && (s.settled.Some? && s.settled.value.Failed? && !Marked(s.settled.value.message) ==> s.invocations == 0)
      && (s.invocations == 1 && s.settled.Some? ==> s.settled.value.Returned? || Marked(s.settled.value.message))
  {
    CallerIsTold(id, run);
    RunKeeps(Start(id), run);
    EndingsFit(Start(id), run);
  }

  lemma {:induction false} SettlementStays(s: State, run: seq<Event>)
    requires s.settled.Some? && CanRun(s, run)
    ensures After(s, run).settled == s.settled
    decreases |run|
  {
    if run != [] {
      StepKeepsSettlement(s, run[0]);
      SettlementStays(Do(s, run[0]), run[1..]);
    }
  }

  /** And it stays so: once the caller holds an error without the mark, no continuation calls the tool,
      unless the error is the one that replaces a lost one. */
  lemma UnmarkedMeansNever(id: Text, run: seq<Event>, more: seq<Event>)
    requires CanRun(Start(id), run) && CanRun(After(Start(id), run), more)
    requires var settled := After(Start(id), run).settled;
      settled.Some? && settled.value.Failed? && !Marked(settled.value.message)
    ensures var s := After(After(Start(id), run), more);
      s.invocations == 0 || (After(Start(id), run).settled == Some(Failed(LOST)) && LostItsMark(id, s))
  {
    RunAppend(Start(id), run, more);
    SettlementStays(After(Start(id), run), more);
    CallerIsTold(id, run + more);
  }

  // ----- the frame limit is needed -----

  /** Whether the daemon can write an error: its estimate counts the raw texts, the frame their printed
      form. */
  lemma ErrorFitsExactly(id: Text, message: Text)
    ensures Serialize(ErrorEnvelope(id, message)).Some?
       <==> ByteLength(id) + ByteLength(message) + 23 <= MAX_FRAME_BYTES
            && ByteLength(QuoteBody(id)) + ByteLength(QuoteBody(message)) + 20 <= MAX_FRAME_BYTES
  {
    TwoTexts(Of("id"), id, Of("error"), message);
    FitsWhenBothDo(ErrorEnvelope(id, message));
  }

  lemma LongErrorsDoNotFit(id: Text, message: Text)
    requires ByteLength(message) > MAX_FRAME_BYTES
    ensures Serialize(ErrorEnvelope(id, message)).None?
  {
    ErrorFitsExactly(id, message);
  }

  lemma ShortErrorsFit(id: Text, message: Text)
    requires 6 * (|id| + |message|) + 23 <= MAX_FRAME_BYTES
    ensures Serialize(ErrorEnvelope(id, message)).Some?
  {
    PrintedAtMost(id);
    PrintedAtMost(message);
    ErrorFitsExactly(id, message);
  }

  /** Whatever run leads to the dispatched call: the remote's error is answered with the mark exactly when
      its marked text fits a frame with the request's id. */
  lemma MarkNeedsTheFrame(id: Text, run: seq<Event>, message: Text)
    requires CanRun(Start(id), run) && Can(After(Start(id), run), RemoteFails(message))
    ensures var s := After(Start(id), run);
      var replies := Do(s, RemoteFails(message)).replies;
      && |replies| == |s.replies| + 1 && replies[|s.replies|].Error?
      && (Marked(replies[|s.replies|].message) <==> Fits(id, WithMark(message)))
  {
    RunKeeps(Start(id), run);
    TooLargeIsUnmarked();
  }

  /** A remote error that does not fit reaches the caller as `response_too_large`, without the mark,
      although the tool was called. */
  lemma OversizedErrorLosesMark(id: Text, message: Text)
    requires !Fits(id, WithMark(message))
    ensures var run := ToCalling() + ToSettled(message);
      && CanRun(Start(id), run)
      && After(Start(id), run).invocations == 1
      && After(Start(id), run).settled == Some(Failed(LOST))
      && !Marked(LOST)
  {
    TooLargeIsUnmarked();
    ReachesCalling(id, Start(id).refused);
    FinishesOversized(Called(id, Start(id).refused), message);
    RunAppend(Start(id), ToCalling(), ToSettled(message));
  }

  /** An error whose text alone is over the limit does not fit, with or without the mark. */
  lemma LongMessagesDoNotFit(id: Text, message: Text)
    requires ByteLength(message) > MAX_FRAME_BYTES
    ensures !Fits(id, WithMark(message))
  {
    var tail :| WithMark(message) == message + tail;
    ByteLengthMonotone(message + tail, |message|, |message + tail|);
    assert (message + tail)[..|message|] == message && (message + tail)[..|message + tail|] == message + tail;
    LongErrorsDoNotFit(id, WithMark(message));
  }

  /** And there are such errors. */
  lemma TooLongAMessage(id: Text)
    ensures !Fits(id, WithMark(Letters(MAX_FRAME_BYTES + 1)))
  {
    LongTextsExist(MAX_FRAME_BYTES + 1);
    LongMessagesDoNotFit(id, Letters(MAX_FRAME_BYTES + 1));
  }

  lemma PairMeans(a: Member, b: Member)
    ensures MembersMeaning([a, b]) == map[a.key := Meaning(a.tree)] + map[b.key := Meaning(b.tree)]
    ensures MembersMeaning([b]) == map[b.key := Meaning(b.tree)]
  {
    assert [a, b][1..] == [b] && [b][1..] == [];
    assert MembersMeaning([b]) == map[b.key := Meaning(b.tree)] + MembersMeaning([]);
    assert MembersMeaning([a, b]) == map[a.key := Meaning(a.tree)] + MembersMeaning([b]);
  }

  /** What the two answers to a call say when they are read: the id, and the result or the error. */
  lemma EnvelopesMean(id: Text, result: Tree, message: Text)
    ensures Meaning(ResultEnvelope(id, result))
         == Object(map[Of("id") := String(id)] + map[Of("result") := Meaning(result)])
    ensures Meaning(ErrorEnvelope(id, message))
         == Object(map[Of("id") := String(id)] + map[Of("error") := String(message)])
  {
    PairMeans(Member(Of("id"), Str(id)), Member(Of("result"), result));
    PairMeans(Member(Of("id"), Str(id)), Member(Of("error"), Str(message)));
  }
}
