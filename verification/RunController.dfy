/** The in-process run controller: execution slots and run waiters, over every interleaving of its
    asynchronous parts. */
module RunController {
  import opened Basics

  type RunId = nat
  type Execution = nat
  type Waiter = nat

  // ----- slots -----

  /** An execution between the `await`s that matter: queued, woken by a release but not yet counted,
      holding a slot, or over. */
  datatype Phase = Queued | Woken | Holding | Over

  datatype Slots = Slots(
    concurrency: nat,
    active: int,
    queue: seq<Execution>,
    phase: map<Execution, Phase>,
    acquired: nat,
    released: nat)

  /** `acquireSlot` up to its first `await`. */
  function AcquireSlot(s: Slots, e: Execution): Slots {
    if s.active < s.concurrency then
      s.(active := s.active + 1, acquired := s.acquired + 1, phase := s.phase[e := Holding])
    else s.(queue := s.queue + [e], phase := s.phase[e := Queued])
  }

  /** The rest of `acquireSlot`, after the wake-up. */
  function ResumeSlot(s: Slots, e: Execution): Slots {
    s.(active := s.active + 1, acquired := s.acquired + 1, phase := s.phase[e := Holding])
  }

  function ReleaseSlot(s: Slots, e: Execution): Slots {
    var freed := s.(active := s.active - 1, released := s.released + 1, phase := s.phase[e := Over]);
    if s.queue == [] then freed
    else freed.(queue := s.queue[1..], phase := freed.phase[s.queue[0] := Woken])
  }

  function InPhase(s: Slots, p: Phase): set<Execution> {
    set e | e in s.phase && s.phase[e] == p
  }

  ghost predicate SlotInv(s: Slots) {
    && s.active == |InPhase(s, Holding)| == s.acquired - s.released
    && (s.queue != [] ==> s.active + |InPhase(s, Woken)| >= s.concurrency)
    && Distinct(s.queue)
    && (forall e :: e in s.queue <==> e in s.phase && s.phase[e] == Queued)
  }

  // ----- runs and their waiters -----

  datatype Status = Running | Completed | Failed | Interrupted | Closed

  datatype Settlement = Woke | Aborted

  /** A run's record; `current` is the execution whose end resolves `run.settled`. */
  datatype Run = Run(status: Status, hasHandle: bool, waiters: seq<Waiter>, current: Execution)

  /** A message of a run that waits for the end of an execution. */
  datatype Parked = Parked(run: RunId, awaited: Execution)

  datatype Runs = Runs(
    runs: map<RunId, Run>,
    owner: map<Execution, RunId>,
    parked: multiset<Parked>,
    registered: map<Waiter, RunId>,
    settled: map<Waiter, Settlement>)

  function SettleAll(settled: map<Waiter, Settlement>, waiters: seq<Waiter>, how: Settlement): map<Waiter, Settlement> {
    settled + map w | w in waiters :: how
  }

  /** `touch` with a new status. */
  function Touch(s: Runs, run: RunId, status: Status): Runs
    requires run in s.runs
  {
    var r := s.runs[run];
    if status == Running then s.(runs := s.runs[run := r.(status := status)])
    else s.(runs := s.runs[run := r.(status := status, waiters := [])], settled := SettleAll(s.settled, r.waiters, Woke))
  }

  /** `touch` by a party that leaves a run alone once it is no longer running. */
  function TouchIfRunning(s: Runs, run: RunId, status: Status): Runs
    requires run in s.runs
  {
    if s.runs[run].status == Running then Touch(s, run, status) else s
  }

  /** `wait`, up to its `await`. */
  function Wait(s: Runs, run: RunId, w: Waiter): Runs
    requires run in s.runs
  {
    var r := s.runs[run];
    if r.status != Running then s
    else s.(runs := s.runs[run := r.(waiters := r.waiters + [w])], registered := s.registered[w := run])
  }

  function Remove(waiters: seq<Waiter>, w: Waiter): seq<Waiter> {
    if waiters == [] then [] else if waiters[0] == w then waiters[1..] else [waiters[0]] + Remove(waiters[1..], w)
  }

  /** The abort listener of a waiter; once woken, the waiter has removed it. */
  function AbortWait(s: Runs, w: Waiter): Runs
    requires w in s.registered && s.registered[w] in s.runs
  {
    var run := s.registered[w];
    var r := s.runs[run];
    if w !in r.waiters then s
    else s.(runs := s.runs[run := r.(waiters := Remove(r.waiters, w))], settled := s.settled[w := Aborted])
  }

  /** A run has waiters only while it is running, each of them once, registered with it and not told yet. */
  ghost predicate RunOk(s: Runs, run: RunId)
    requires run in s.runs
  {
    var r := s.runs[run];
    && (r.waiters != [] ==> r.status == Running)
    && Distinct(r.waiters)
    && forall w | w in r.waiters :: w in s.registered && s.registered[w] == run && w !in s.settled
  }

  /** Whoever waited has been told or is still listed. */
  ghost predicate WaiterOk(s: Runs, w: Waiter)
    requires w in s.registered
  {
    s.registered[w] in s.runs && (w in s.settled || w in s.runs[s.registered[w]].waiters)
  }

  ghost predicate RunInv(s: Runs) {
    && (forall run | run in s.runs :: RunOk(s, run))
    && (forall w | w in s.registered :: WaiterOk(s, w))
    && s.settled.Keys <= s.registered.Keys
    && (forall e | e in s.owner :: s.owner[e] in s.runs)
  }

  // ----- the controller -----

  datatype State = State(slots: Slots, runs: Runs)

  function Start(concurrency: nat): State {
    State(Slots(concurrency, 0, [], map[], 0, 0), Runs(map[], map[], multiset{}, map[], map[]))
  }

  /** The loop over a run's waiters in `touch`. */
  method WakeAll(settled: map<Waiter, Settlement>, waiters: seq<Waiter>) returns (s: map<Waiter, Settlement>)
    ensures s == SettleAll(settled, waiters, Woke)
  {
    s := settled;
    for i := 0 to |waiters|
      invariant s == SettleAll(settled, waiters[..i], Woke)
    {
      SettleOneMore(settled, waiters, i);
      s := s[waiters[i] := Woke];
    }
    assert waiters[..|waiters|] == waiters;
  }

  lemma SettleOneMore(settled: map<Waiter, Settlement>, waiters: seq<Waiter>, i: nat)
    requires i < |waiters|
    ensures SettleAll(settled, waiters[..i + 1], Woke) == SettleAll(settled, waiters[..i], Woke)[waiters[i] := Woke]
  {
    assert waiters[..i + 1] == waiters[..i] + [waiters[i]];
  }

  /** The closure state of `createInProcessRunController` and its synchronous stretches. */
  class Controller {
    const concurrency: nat
    var active: int
    var queue: seq<Execution>
    var phase: map<Execution, Phase>
    var runs: map<RunId, Run>
    var owner: map<Execution, RunId>
    var parked: multiset<Parked>
    var registered: map<Waiter, RunId>
    var settled: map<Waiter, Settlement>
    ghost var acquired: nat
    ghost var released: nat

    ghost function SlotsView(): Slots
      reads this
    {
      Slots(concurrency, active, queue, phase, acquired, released)
    }

    ghost function RunsView(): Runs
      reads this
    {
      Runs(runs, owner, parked, registered, settled)
    }

    constructor (concurrency: nat)
      ensures State(SlotsView(), RunsView()) == Start(concurrency)
    {
      this.concurrency := concurrency;
      active, queue, phase, runs, owner := 0, [], map[], map[], map[];
      parked, registered, settled := multiset{}, map[], map[];
      acquired, released := 0, 0;
    }

    method DoAcquireSlot(e: Execution)
      modifies this
      ensures SlotsView() == AcquireSlot(old(SlotsView()), e) && RunsView() == old(RunsView())
    {
      if active < concurrency {
        active := active + 1;
        phase := phase[e := Holding];
        acquired := acquired + 1;
        return;
      }
      queue := queue + [e];
      phase := phase[e := Queued];
    }

    method DoResumeSlot(e: Execution)
      modifies this
      ensures SlotsView() == ResumeSlot(old(SlotsView()), e) && RunsView() == old(RunsView())
    {
      active := active + 1;
      phase := phase[e := Holding];
      acquired := acquired + 1;
    }

    method DoReleaseSlot(e: Execution)
      modifies this
      ensures SlotsView() == ReleaseSlot(old(SlotsView()), e) && RunsView() == old(RunsView())
    {
      active := active - 1;
      phase := phase[e := Over];
      released := released + 1;
      if queue != [] {
        phase := phase[queue[0] := Woken];
        queue := queue[1..];
      }
    }

    method DoTouch(run: RunId, status: Status)
      requires run in runs
      modifies this
      ensures RunsView() == Touch(old(RunsView()), run, status) && SlotsView() == old(SlotsView())
    {
      runs := runs[run := runs[run].(status := status)];
      if status == Running { return; }
      var waiters := runs[run].waiters;
      runs := runs[run := runs[run].(waiters := [])];
      settled := WakeAll(settled, waiters);
    }

    method DoWait(run: RunId, w: Waiter)
      requires run in runs
      modifies this
      ensures RunsView() == Wait(old(RunsView()), run, w) && SlotsView() == old(SlotsView())
    {
      if runs[run].status != Running { return; }
      runs := runs[run := runs[run].(waiters := runs[run].waiters + [w])];
      registered := registered[w := run];
    }

    method DoAbortWait(w: Waiter)
      requires w in registered && registered[w] in runs
      modifies this
      ensures RunsView() == AbortWait(old(RunsView()), w) && SlotsView() == old(SlotsView())
    {
      var run := registered[w];
      if w !in runs[run].waiters { return; }
      runs := runs[run := runs[run].(waiters := Remove(runs[run].waiters, w))];
      settled := settled[w := Aborted];
    }

    /** The last stretch of `executePrompt`. */
    method DoFinish(e: Execution, status: Status)
      requires e in owner && owner[e] in runs
      modifies this
      ensures SlotsView() == ReleaseSlot(old(SlotsView()), e)
      ensures RunsView() == TouchIfRunning(old(RunsView()), old(owner[e]), status)
    {
      if runs[owner[e]].status == Running { DoTouch(owner[e], status); }
      DoReleaseSlot(e);
    }
  }

  datatype Event =
    | Starts(run: RunId, e: Execution)
    | Resumes(e: Execution)
    | Finishes(e: Execution, status: Status)
    | Waits(run: RunId, w: Waiter)
    | AbortsWait(w: Waiter)
    | Messages(run: RunId, e: Execution)        // arrives on a run that is not closed
    | MessageResumes(run: RunId, awaited: Execution, e: Execution)  // after awaiting `settled`
    | Interrupts(run: RunId)
    | Closes(run: RunId)
    | HandleChanges(run: RunId, present: bool)  // a session is created or disposed

  predicate Can(s: State, ev: Event) {
    match ev
    case Starts(run, e) => run !in s.runs.runs && e !in s.slots.phase
    case Resumes(e) => e in s.slots.phase && s.slots.phase[e] == Woken
    case Finishes(e, status) =>
      && e in s.slots.phase && s.slots.phase[e] == Holding
      && e in s.runs.owner && s.runs.owner[e] in s.runs.runs
      && (status == Completed || status == Failed)
    case Waits(run, w) => run in s.runs.runs && w !in s.runs.registered
    case AbortsWait(w) => w in s.runs.registered && s.runs.registered[w] in s.runs.runs
    case Messages(run, e) => run in s.runs.runs && s.runs.runs[run].status != Closed && e !in s.slots.phase
    case MessageResumes(run, awaited, e) =>
      && run in s.runs.runs && Parked(run, awaited) in s.runs.parked
      && awaited in s.slots.phase && s.slots.phase[awaited] == Over && e !in s.slots.phase
    case Interrupts(run) => run in s.runs.runs
    case Closes(run) => run in s.runs.runs
    case HandleChanges(run, _) => run in s.runs.runs
  }

  /** A message waits for `run.settled`, and stops waiting. */
  function Park(s: Runs, run: RunId): Runs
    requires run in s.runs
  {
    s.(parked := s.parked + multiset{Parked(run, s.runs[run].current)})
  }

  function Unpark(s: Runs, p: Parked): Runs {
    s.(parked := s.parked - multiset{p})
  }

  /** `executePrompt` begins. */
  function Execute(slots: Slots, runs: Runs, run: RunId, e: Execution): State
    requires run in runs.runs
  {
    State(AcquireSlot(slots, e),
          runs.(owner := runs.owner[e := run], runs := runs.runs[run := runs.runs[run].(current := e)]))
  }

  /** The last part of `message`: it does not look at `closed` again. */
  function Deliver(slots: Slots, runs: Runs, run: RunId, e: Execution): State
    requires run in runs.runs
  {
    if runs.runs[run].status == Running && runs.runs[run].hasHandle then State(slots, runs)
    else Execute(slots, Touch(runs, run, Running), run, e)
  }

  function Do(s: State, ev: Event): State
    requires Can(s, ev)
  {
    var runs := s.runs;
    match ev
    case Starts(run, e) => Execute(s.slots, runs.(runs := runs.runs[run := Run(Running, false, [], e)]), run, e)
    case Resumes(e) => s.(slots := ResumeSlot(s.slots, e))
    case Finishes(e, status) => State(ReleaseSlot(s.slots, e), TouchIfRunning(runs, runs.owner[e], status))
    case Waits(run, w) => s.(runs := Wait(runs, run, w))
    case AbortsWait(w) => s.(runs := AbortWait(runs, w))
    case Messages(run, e) =>
      if runs.runs[run].status == Running && !runs.runs[run].hasHandle then
        s.(runs := Park(runs, run))
      else Deliver(s.slots, runs, run, e)
    case MessageResumes(run, awaited, e) => Deliver(s.slots, Unpark(runs, Parked(run, awaited)), run, e)
    case Interrupts(run) => s.(runs := TouchIfRunning(runs, run, Interrupted))
    case Closes(run) => if runs.runs[run].status != Closed then s.(runs := Touch(runs, run, Closed)) else s
    case HandleChanges(run, present) =>
      s.(runs := runs.(runs := runs.runs[run := runs.runs[run].(hasHandle := present)]))
  }

  ghost predicate Inv(s: State) {
    SlotInv(s.slots) && RunInv(s.runs) && s.slots.phase.Keys == s.runs.owner.Keys
  }

  /** What a message waits for is an execution that was begun. */
  ghost predicate AwaitedBegan(s: State) {
    && (forall r | r in s.runs.runs :: s.runs.runs[r].current in s.slots.phase)
    && forall p | p in s.runs.parked :: p.run in s.runs.runs && p.awaited in s.slots.phase
  }

  // ----- every interleaving -----

  predicate CanRun(s: State, run: seq<Event>)
    decreases |run|
  {
    run == [] || (Can(s, run[0]) && CanRun(Do(s, run[0]), run[1..]))
  }

  function After(s: State, run: seq<Event>): State
    requires CanRun(s, run)
    decreases |run|
  {
    if run == [] then s else After(Do(s, run[0]), run[1..])
  }
}
