/** Every run of the completion queue and its deliverer: no batch is stranded, no envelope is duplicated
    or overtaken, and which ones are lost. */
module Completions {
  import opened CodeUnits
  import opened CompletionQueue

  datatype Event =
    | Enqueues(id: Text, failed: bool)
    | Pokes(parent: Parent)             // agent_end
    | Acknowledges(ids: set<Text>)
    | Clears
    | SetsDeliverer(present: bool)
    | FlushTimerFires
    | MicrotaskRuns(parent: Parent)
    | RetryTimerFires(parent: Parent)

  predicate Can(s: State, e: Event) {
    match e
    case FlushTimerFires => s.flushTimer
    case MicrotaskRuns(_) => s.deliveryScheduled
    case RetryTimerFires(_) => s.retryTimer
    case _ => true
  }

  function Do(s: State, e: Event): State {
    match e
    case Enqueues(id, failed) => Enqueue(s, id, failed)
    case Pokes(parent) => Poke(s, parent)
    case Acknowledges(ids) => Acknowledge(s, ids)
    case Clears => Clear(s)
    case SetsDeliverer(present) => SetDeliverer(s, present)
    case FlushTimerFires => FlushNow(s)
    case MicrotaskRuns(parent) => RunMicrotask(s, parent)
    case RetryTimerFires(parent) => Deliver(s, parent)
  }

  predicate CanRun(s: State, run: seq<Event>)
    decreases |run|
  {
    run == [] || (Can(s, run[0]) && CanRun(Do(s, run[0]), run[1..]))
  }

  function After(s: State, run: seq<Event>): State
    decreases |run|
  {
    if run == [] then s else After(Do(s, run[0]), run[1..])
  }

  /** The parent that the deliverer of this event asks. */
  predicate AnswersWhetherIdle(e: Event) {
    match e
    case Pokes(parent) => parent != Throws
    case MicrotaskRuns(parent) => parent != Throws
    case RetryTimerFires(parent) => parent != Throws
    case _ => true
  }

  predicate Answers(run: seq<Event>) {
    forall i | 0 <= i < |run| :: AnswersWhetherIdle(run[i])
  }

  /** Something will call the deliverer. */
  predicate WakeArmed(s: State) {
    s.flushTimer || s.deliveryScheduled || s.retryTimer
  }

  predicate NoLostWakeUp(s: State) {
    s.deliverer && s.pending != [] ==> WakeArmed(s)
  }

  ghost predicate Ordered(batch: seq<Envelope>) {
    forall i, j | 0 <= i < j < |batch| :: batch[i].place < batch[j].place
  }

  /** Each envelope ever enqueued is in exactly one place, and handing over keeps the order. */
  ghost predicate Accounted(s: State) {
    && Ordered(s.handed + s.pending)
    && (forall n: nat :: n < s.enqueued <==>
          n in Places(s.handed) || n in Places(s.pending) || n in s.lost || n in s.acknowledged || n in s.cleared)
    && s.acknowledged !! s.cleared && s.lost !! (s.acknowledged + s.cleared)
    && (Places(s.handed) + Places(s.pending)) !! (s.lost + s.acknowledged + s.cleared)
    && Places(s.handed) !! Places(s.pending)
  }

  lemma OrderedCons(first: Envelope, rest: seq<Envelope>)
    requires Ordered(rest) && forall e | e in rest :: first.place < e.place
    ensures Ordered([first] + rest)
  {
  }

  lemma OrderedTail(batch: seq<Envelope>)
    requires batch != [] && Ordered(batch)
    ensures Ordered(batch[1..]) && forall e | e in batch[1..] :: batch[0].place < e.place
  {
  }

  /** Acknowledging drops exactly the envelopes of the runs it names, and keeps the others in order. */
  lemma {:induction false} AcknowledgeIsExact(batch: seq<Envelope>, ids: set<Text>)
    ensures |Without(batch, ids)| <= |batch|
    ensures forall e :: e in Without(batch, ids) <==> e in batch && e.id !in ids
    ensures Ordered(batch) ==> Ordered(Without(batch, ids))
  {
    if batch != [] {
      AcknowledgeIsExact(batch[1..], ids);
      assert batch == [batch[0]] + batch[1..];
      if Ordered(batch) {
        OrderedTail(batch);
        OrderedCons(batch[0], Without(batch[1..], ids));
      }
    }
  }

  lemma OrderedParts(a: seq<Envelope>, b: seq<Envelope>)
    ensures Ordered(a + b) <==>
      Ordered(a) && Ordered(b) && forall i, j | 0 <= i < |a| && 0 <= j < |b| :: a[i].place < b[j].place
  {
    if Ordered(a + b) {
      forall i, j | 0 <= i < j < |a| ensures a[i].place < a[j].place { assert (a + b)[i] == a[i] && (a + b)[j] == a[j]; }
      forall i, j | 0 <= i < j < |b| ensures b[i].place < b[j].place {
        assert (a + b)[|a| + i] == b[i] && (a + b)[|a| + j] == b[j];
      }
      forall i, j | 0 <= i < |a| && 0 <= j < |b| ensures a[i].place < b[j].place {
        assert (a + b)[i] == a[i] && (a + b)[|a| + j] == b[j];
      }
    }
  }

  lemma EnqueueAccounts(s: State, id: Text, failed: bool)
    requires Accounted(s)
    ensures Accounted(Enqueue(s, id, failed))
  {
    var r := Enqueue(s, id, failed);
    var e := Envelope(s.enqueued, id, failed);
    assert r.handed + r.pending == (s.handed + s.pending) + [e];
    forall i | 0 <= i < |s.handed + s.pending| ensures (s.handed + s.pending)[i].place < s.enqueued {
      var n := (s.handed + s.pending)[i].place;
      assert n in Places(s.handed) || n in Places(s.pending) by {
        if i < |s.handed| { assert s.handed[i].place == n; } else { assert s.pending[i - |s.handed|].place == n; }
      }
    }
    OrderedParts(s.handed + s.pending, [e]);
    PlacesAppend(s.pending, [e]);
    assert Places([e]) == {s.enqueued} by { assert [e][0].place == s.enqueued; }
  }

  lemma PlacesAppend(a: seq<Envelope>, b: seq<Envelope>)
    ensures Places(a + b) == Places(a) + Places(b)
  {
    forall n | n in Places(a) + Places(b) ensures n in Places(a + b) {
      if n in Places(a) {
        var i :| 0 <= i < |a| && a[i].place == n;
        assert (a + b)[i].place == n;
      } else {
        var i :| 0 <= i < |b| && b[i].place == n;
        assert (a + b)[|a| + i].place == n;
      }
    }
  }

  lemma DeliverAccounts(s: State, parent: Parent)
    requires Accounted(s)
    ensures Accounted(Deliver(s, parent))
  {
    var r := Deliver(s, parent);
    PlacesAppend(s.handed, s.pending);
    if parent.SendFails? && s.pending != [] {
      OrderedParts(s.handed, s.pending);
      assert r.handed + r.pending == s.handed;
    } else {
      assert r.handed + r.pending == s.handed + s.pending;
    }
    if r.pending == [] { assert Places(r.pending) == {}; }
  }

  lemma AcknowledgeAccounts(s: State, ids: set<Text>)
    requires Accounted(s)
    ensures Accounted(Acknowledge(s, ids))
  {
    var r := Acknowledge(s, ids);
    OrderedParts(s.handed, s.pending);
    AcknowledgeIsExact(s.pending, ids);
    OrderedParts(r.handed, r.pending);
    assert Places(r.pending) <= Places(s.pending);
  }

  lemma ClearAccounts(s: State)
    requires Accounted(s)
    ensures Accounted(Clear(s))
  {
    var r := Clear(s);
    OrderedParts(s.handed, s.pending);
    assert r.handed + r.pending == s.handed;
    assert Places(r.pending) == {};
  }

  lemma StepAccounts(s: State, e: Event)
    requires Accounted(s) && Can(s, e)
    ensures Accounted(Do(s, e))
  {
    match e
    case Enqueues(id, failed) => EnqueueAccounts(s, id, failed);
    case Pokes(parent) => if s.pending != [] && s.deliverer { DeliverAccounts(s.(flushTimer := false), parent); }
    case Acknowledges(ids) => AcknowledgeAccounts(s, ids);
    case Clears => ClearAccounts(s);
    case SetsDeliverer(_) =>
    case FlushTimerFires =>
    case MicrotaskRuns(parent) => DeliverAccounts(s.(deliveryScheduled := false), parent);
    case RetryTimerFires(parent) => DeliverAccounts(s, parent);
  }

  /** In every run each envelope is in exactly one place, and none was overtaken on its way to the
      parent. */
  lemma {:induction false} AlwaysAccounted(s: State, run: seq<Event>)
    requires Accounted(s) && CanRun(s, run)
    ensures Accounted(After(s, run))
    decreases |run|
  {
    if run != [] {
      StepAccounts(s, run[0]);
      AlwaysAccounted(Do(s, run[0]), run[1..]);
    }
  }

  lemma {:induction false} StepKeepsWakeUp(s: State, e: Event)
    requires NoLostWakeUp(s) && Can(s, e) && AnswersWhetherIdle(e)
    ensures NoLostWakeUp(Do(s, e))
  {
    if e.Acknowledges? { NothingToAcknowledge(s.pending, e.ids); }
  }

  lemma {:induction false} WakeUpKept(s: State, run: seq<Event>)
    requires NoLostWakeUp(s) && CanRun(s, run) && Answers(run)
    ensures NoLostWakeUp(After(s, run))
    decreases |run|
  {
    if run != [] {
      StepKeepsWakeUp(s, run[0]);
      WakeUpKept(Do(s, run[0]), run[1..]);
    }
  }

  /** In every run in which the idle check answers: with a deliverer set and envelopes pending, a
      timer or the microtask is armed; and every envelope is in exactly one place, none overtaken. */
  lemma NeverStranded(run: seq<Event>)
    requires CanRun(START, run) && Answers(run)
    ensures NoLostWakeUp(After(START, run)) && Accounted(After(START, run))
  {
    WakeUpKept(START, run);
    AlwaysAccounted(START, run);
  }

  /** The deliverer takes the batch and the message is not sent. */
  predicate LosesBatch(s: State, e: Event) {
    match e
    case Pokes(parent) => parent == SendFails && s.deliverer
    case MicrotaskRuns(parent) => parent == SendFails && s.deliverer
    case RetryTimerFires(parent) => parent == SendFails
    case _ => false
  }

  /** The places of the batches that such steps of a run take. */
  function LostIn(s: State, run: seq<Event>): set<nat>
    decreases |run|
  {
    if run == [] then {}
    else (if LosesBatch(s, run[0]) then Places(s.pending) else {}) + LostIn(Do(s, run[0]), run[1..])
  }

  lemma StepLoses(s: State, e: Event)
    ensures Do(s, e).lost == s.lost + if LosesBatch(s, e) then Places(s.pending) else {}
  {
    if s.pending == [] { assert Places(s.pending) == {}; }
  }

  /** Exactly the envelopes pending when a deliverer took the batch and could not send it are lost, and
      nothing brings them back: the queue does not have them any more. */
  lemma {:induction false} LostExactly(s: State, run: seq<Event>)
    ensures After(s, run).lost == s.lost + LostIn(s, run)
    decreases |run|
  {
    if run != [] {
      StepLoses(s, run[0]);
      LostExactly(Do(s, run[0]), run[1..]);
    }
  }

  /** With no message refused, none is lost. */
  lemma {:induction false} NothingLostWhenSent(s: State, run: seq<Event>)
    requires forall i | 0 <= i < |run| :: run[i] !in {Pokes(SendFails), MicrotaskRuns(SendFails), RetryTimerFires(SendFails)}
    ensures LostIn(s, run) == {} && After(s, run).lost == s.lost
    decreases |run|
  {
    if run != [] {
      NothingLostWhenSent(Do(s, run[0]), run[1..]);
    }
    LostExactly(s, run);
  }

  /** The deliverer finds the parent idle and hands it the batch. */
  predicate HandsOver(s: State, e: Event) {
    match e
    case Pokes(parent) => parent == Idle && s.deliverer
    case MicrotaskRuns(parent) => parent == Idle && s.deliverer
    case RetryTimerFires(parent) => parent == Idle
    case _ => false
  }

  /** The batches that such steps of a run take, one after the other. */
  function HandedIn(s: State, run: seq<Event>): seq<Envelope>
    decreases |run|
  {
    if run == [] then []
    else (if HandsOver(s, run[0]) then s.pending else []) + HandedIn(Do(s, run[0]), run[1..])
  }

  lemma StepHands(s: State, e: Event)
    ensures Do(s, e).handed == s.handed + if HandsOver(s, e) then s.pending else []
    ensures HandsOver(s, e) ==> Do(s, e).pending == []
  {
  }

  /** The parent is given exactly the batches pending when a deliverer found it idle: by a poke, by the
      microtask or by the retry timer, each batch whole and in order. */
  lemma {:induction false} HandedExactly(s: State, run: seq<Event>)
    ensures After(s, run).handed == s.handed + HandedIn(s, run)
    decreases |run|
  {
    if run != [] {
      var first := if HandsOver(s, run[0]) then s.pending else [];
      StepHands(s, run[0]);
      HandedExactly(Do(s, run[0]), run[1..]);
      assert (s.handed + first) + HandedIn(Do(s, run[0]), run[1..]) == s.handed + HandedIn(s, run);
    }
  }

  /** The end of a turn with the session idle hands over what is pending at once, and leaves no timer. */
  lemma TurnEndDelivers(s: State)
    requires s.deliverer && s.pending != []
    ensures var t := Do(s, Pokes(Idle));
      t.pending == [] && t.handed == s.handed + s.pending && !t.flushTimer && !t.retryTimer
  {
  }

  /** A run that completed does not wake the parent at once: it arms the batch timer, and only when that
      fires is the microtask scheduled. */
  lemma CompletedRunsWait(s: State, id: Text)
    ensures var t := Do(s, Enqueues(id, false));
      && t.pending == s.pending + [Envelope(s.enqueued, id, false)]
      && t.flushTimer && t.deliveryScheduled == s.deliveryScheduled && t.handed == s.handed
      && Can(t, FlushTimerFires) && !Do(t, FlushTimerFires).flushTimer && Do(t, FlushTimerFires).deliveryScheduled
  {
  }

  /** What each event makes of the queue: only an enqueue adds to it, an acknowledgement takes out the
      named runs, and it is emptied by a clear or by a deliverer that finds the parent idle. */
  lemma PendingExactly(s: State, e: Event)
    ensures var t := Do(s, e);
      if e.Enqueues? then t.pending == s.pending + [Envelope(s.enqueued, e.id, e.failed)]
      else if e.Acknowledges? then forall x :: x in t.pending <==> x in s.pending && x.id !in e.ids
      else t.pending == if e.Clears? || HandsOver(s, e) || LosesBatch(s, e) then [] else s.pending
  {
    if e.Acknowledges? { AcknowledgeIsExact(s.pending, e.ids); }
  }

  /** The microtask and the retry timer run once; the retry timer is armed anew only by a busy parent. */
  lemma WakeUpsAreUsedUp(s: State, e: Event)
    requires Can(s, e)
    ensures e.MicrotaskRuns? ==> !Do(s, e).deliveryScheduled
    ensures e.FlushTimerFires? ==> !Do(s, e).flushTimer
    ensures e.RetryTimerFires? ==> (Do(s, e).retryTimer <==> e.parent == Busy && s.pending != [])
  {
  }

  /** What arms and stops the batch timer and the microtask, and what sets the deliverer. */
  lemma TimersExactly(s: State, e: Event)
    ensures var t := Do(s, e);
      && t.flushTimer == (if e.Enqueues? then !e.failed
                          else if (e.Pokes? || (e.SetsDeliverer? && e.present)) && s.pending != [] then false
                          else if e.Clears? || e.FlushTimerFires? then false
                          else s.flushTimer)
      && t.deliveryScheduled == (if (e.Enqueues? && e.failed) || e.FlushTimerFires? then true
                                 else if e.SetsDeliverer? && e.present && s.pending != [] then true
                                 else if e.MicrotaskRuns? then false
                                 else s.deliveryScheduled)
      && t.deliverer == (if e.SetsDeliverer? then e.present else s.deliverer)
  {
  }

  /** A lost envelope stays lost: no continuation hands it over or has it pending again. */
  lemma LostForGood(run: seq<Event>, more: seq<Event>, n: nat)
    requires CanRun(START, run + more) && n in After(START, run).lost
    ensures var t := After(START, run + more);
      n in t.lost && n !in Places(t.handed) && n !in Places(t.pending)
  {
    AfterParts(START, run, more);
    LostExactly(After(START, run), more);
    AlwaysAccounted(START, run + more);
  }

  // ----- what an armed wake-up achieves -----

  /** From every such state, letting one armed wake-up run to its end while the parent is idle hands
      over everything pending, in order. */
  lemma WakeUpDelivers(s: State) returns (run: seq<Event>)
    requires s.deliverer && s.pending != [] && NoLostWakeUp(s)
    ensures CanRun(s, run) && |run| <= 2
    ensures After(s, run).pending == [] && After(s, run).handed == s.handed + s.pending
    ensures forall i | 0 <= i < |run| ::
      run[i].FlushTimerFires? || run[i] == MicrotaskRuns(Idle) || run[i] == RetryTimerFires(Idle)
  {
    if s.retryTimer {
      run := [RetryTimerFires(Idle)];
      assert run[1..] == [];
    } else if s.deliveryScheduled {
      run := [MicrotaskRuns(Idle)];
      assert run[1..] == [];
    } else {
      run := [FlushTimerFires, MicrotaskRuns(Idle)];
      assert run[1..] == [MicrotaskRuns(Idle)] && run[1..][1..] == [];
    }
  }

  /** A failed run does not wait for the batch window: with the parent idle the next microtask hands it
      over, and everything before it. */
  lemma FailuresDoNotWait(s: State, id: Text)
    requires s.deliverer
    ensures var t := Do(s, Enqueues(id, true));
      && Can(t, MicrotaskRuns(Idle))
      && Do(t, MicrotaskRuns(Idle)).handed == s.handed + (s.pending + [Envelope(s.enqueued, id, true)])
      && Do(t, MicrotaskRuns(Idle)).pending == []
  {
  }

  /** While the parent stays busy, the wake-up re-arms itself and nothing leaves the queue. */
  lemma BusyParentKeepsQueue(s: State, e: Event)
    requires s.deliverer && s.pending != [] && Can(s, e)
    requires e == Pokes(Busy) || e == MicrotaskRuns(Busy) || e == RetryTimerFires(Busy)
    ensures Do(s, e).retryTimer && Do(s, e).pending == s.pending && Do(s, e).handed == s.handed
  {
  }

  /** Something else is armed besides the wake-up that this event uses up. */
  predicate AnotherArmed(s: State, e: Event) {
    match e
    case Pokes(_) => s.deliveryScheduled
    case MicrotaskRuns(_) => s.flushTimer
    case RetryTimerFires(_) => s.flushTimer || s.deliveryScheduled
    case _ => true
  }

  /** The idle check throws with a batch pending and nothing else armed. */
  predicate Strands(s: State, e: Event) {
    !AnswersWhetherIdle(e) && s.deliverer && s.pending != [] && !AnotherArmed(s, e)
  }

  /** When a step keeps the wake-up: always, unless it strands the batch. */
  lemma WakeUpKeptExactly(s: State, e: Event)
    requires NoLostWakeUp(s) && Can(s, e)
    ensures NoLostWakeUp(Do(s, e)) <==> !Strands(s, e)
  {
  }

  /** What wakes the deliverer of a stranded batch: another run that ends, the end of a turn of the
      parent, or a new deliverer. */
  predicate Revives(e: Event) {
    match e
    case Enqueues(_, _) => true
    case Pokes(parent) => parent != Throws
    case SetsDeliverer(present) => present
    case _ => false
  }

  predicate NothingRevives(run: seq<Event>) {
    forall i | 0 <= i < |run| :: !Revives(run[i])
  }

  /** A stranded batch is woken or handed over by nothing else. */
  lemma RevivedExactly(s: State, e: Event)
    requires !NoLostWakeUp(s) && Can(s, e) && Do(s, e).deliverer && Do(s, e).pending != []
    ensures NoLostWakeUp(Do(s, e)) <==> Revives(e)
  {
  }

  lemma StepSleeps(s: State, e: Event)
    requires !WakeArmed(s) && Can(s, e) && !Revives(e)
    ensures var t := Do(s, e);
      && !WakeArmed(t) && t.handed == s.handed && t.lost == s.lost
      && Places(s.pending) + s.acknowledged + s.cleared <= Places(t.pending) + t.acknowledged + t.cleared
  {
  }

  /** Without them it stays: whatever else happens, nothing is handed over or armed, and the batch is
      there but for what is acknowledged or cleared. */
  lemma {:induction false} SleepsUntilRevived(s: State, run: seq<Event>)
    requires !WakeArmed(s) && CanRun(s, run) && NothingRevives(run)
    ensures var t := After(s, run);
      && !WakeArmed(t) && t.handed == s.handed && t.lost == s.lost
      && Places(s.pending) + s.acknowledged + s.cleared <= Places(t.pending) + t.acknowledged + t.cleared
    decreases |run|
  {
    if run != [] {
      StepSleeps(s, run[0]);
      assert NothingRevives(run[1..]);
      SleepsUntilRevived(Do(s, run[0]), run[1..]);
    }
  }

  lemma {:induction false} AfterParts(s: State, first: seq<Event>, rest: seq<Event>)
    requires CanRun(s, first + rest)
    ensures CanRun(s, first) && CanRun(After(s, first), rest)
    ensures After(s, first + rest) == After(After(s, first), rest)
    decreases |first|
  {
    if first == [] {
      assert first + rest == rest;
    } else {
      assert (first + rest)[1..] == first[1..] + rest;
      AfterParts(Do(s, first[0]), first[1..], rest);
    }
  }

  lemma LastStep(s: State, e: Event)
    ensures After(s, [e]) == Do(s, e) && (CanRun(s, [e]) ==> Can(s, e))
  {
    assert [e][1..] == [];
  }

  /** Step `k` of a run strands the batch, and nothing after it revives. */
  predicate StrandsAt(s: State, run: seq<Event>, k: nat) {
    k < |run| && Strands(After(s, run[..k]), run[k]) && NothingRevives(run[k + 1..])
  }

  lemma StrandedBySome(s: State, run: seq<Event>, k: nat)
    requires CanRun(s, run) && StrandsAt(s, run, k)
    ensures !WakeArmed(After(s, run))
  {
    var before, after := After(s, run[..k]), run[k + 1..];
    assert run == run[..k] + ([run[k]] + after);
    AfterParts(s, run[..k], [run[k]] + after);
    AfterParts(before, [run[k]], after);
    LastStep(before, run[k]);
    SleepsUntilRevived(Do(before, run[k]), after);
  }

  lemma OneMoreSleeps(s: State, run: seq<Event>, e: Event, k: nat)
    requires StrandsAt(s, run, k) && !Revives(e)
    ensures StrandsAt(s, run + [e], k)
  {
    assert (run + [e])[..k] == run[..k] && (run + [e])[k + 1..] == run[k + 1..] + [e];
  }

  lemma {:induction false} SomeStepStrands(s: State, run: seq<Event>) returns (k: nat)
    requires NoLostWakeUp(s) && CanRun(s, run) && !NoLostWakeUp(After(s, run))
    ensures StrandsAt(s, run, k)
    decreases |run|
  {
    var init, e := run[..|run| - 1], run[|run| - 1];
    assert run == init + [e];
    AfterParts(s, init, [e]);
    var before := After(s, init);
    LastStep(before, e);
    if NoLostWakeUp(before) {
      WakeUpKeptExactly(before, e);
      k := |run| - 1;
    } else {
      RevivedExactly(before, e);
      k := SomeStepStrands(s, init);
      OneMoreSleeps(s, init, e, k);
    }
  }

  /** After any run a batch that has a deliverer is stranded if and only if some step stranded it and
      nothing revived it since. */
  lemma StrandedExactly(run: seq<Event>)
    requires CanRun(START, run)
    requires After(START, run).deliverer && After(START, run).pending != []
    ensures !WakeArmed(After(START, run)) <==> exists k: nat :: StrandsAt(START, run, k)
  {
    if !WakeArmed(After(START, run)) {
      var k := SomeStepStrands(START, run);
    }
    if k: nat :| StrandsAt(START, run, k) { StrandedBySome(START, run, k); }
  }

  /** If the idle check throws, the exception is swallowed and the batch is stranded: pending, with a
      deliverer, and nothing armed. */
  lemma ThrowingIdleCheckStrands(id: Text)
    ensures var run := [SetsDeliverer(true), Enqueues(id, true), MicrotaskRuns(Throws)];
      && CanRun(START, run)
      && After(START, run).pending == [Envelope(0, id, true)]
      && !NoLostWakeUp(After(START, run))
  {
    var run := [SetsDeliverer(true), Enqueues(id, true), MicrotaskRuns(Throws)];
    var s1 := Do(START, run[0]);
    var s2 := Do(s1, run[1]);
    var s3 := Do(s2, run[2]);
    assert run[1..][1..] == [MicrotaskRuns(Throws)] && run[1..][1..][1..] == [];
    assert CanRun(s2, run[1..][1..]) && After(s2, run[1..][1..]) == s3;
    assert CanRun(s1, run[1..]) && After(s1, run[1..]) == s3;
  }
}
