/** Delivery of finished child runs to the parent: the completion queue, and the deliverer that holds a
    batch while the parent is busy. Timers and the microtask are flags; when they fire is up to the
    environment. */
module CompletionQueue {
  import opened CodeUnits

  /** One finished run: its place in the order of enqueueing, its run id, and whether it failed. */
  datatype Envelope = Envelope(place: nat, id: Text, failed: bool)

  datatype State = State(
    // ChildCompletionQueue
    pending: seq<Envelope>,
    deliverer: bool,
    flushTimer: bool,
    deliveryScheduled: bool,
    // the deliverer's closure
    retryTimer: bool,
    // what became of every envelope
    enqueued: nat,
    handed: seq<Envelope>,
    lost: set<nat>,              // taken from the queue, but the message was not sent
    acknowledged: set<nat>,
    cleared: set<nat>)

  const START: State := State([], false, false, false, false, 0, [], {}, {}, {})

  function Places(batch: seq<Envelope>): set<nat> {
    set i | 0 <= i < |batch| :: batch[i].place
  }

  function FlushNow(s: State): State {
    s.(flushTimer := false, deliveryScheduled := true)
  }

  /** What the parent does: it is idle and takes the message, is busy, throws when asked whether it is
      idle, or is idle and throws when sent the message. */
  datatype Parent = Idle | Busy | Throws | SendFails

  /** `deliverCompletions`: any exception inside its `try` is swallowed. */
  function Deliver(s: State, parent: Parent): State {
    var woken := s.(retryTimer := false);
    if s.pending == [] then woken
    else match parent
      case Busy => woken.(retryTimer := true)
      case Throws => woken
      case Idle => woken.(pending := [], handed := s.handed + s.pending)
      case SendFails => woken.(pending := [], lost := s.lost + Places(s.pending))
  }

  function Enqueue(s: State, id: Text, failed: bool): State {
    var added := s.(pending := s.pending + [Envelope(s.enqueued, id, failed)], enqueued := s.enqueued + 1);
    if failed then FlushNow(added) else added.(flushTimer := true)
  }

  function Poke(s: State, parent: Parent): State {
    if s.pending == [] then s
    else
      var stopped := s.(flushTimer := false);
      if s.deliverer then Deliver(stopped, parent) else stopped
  }

  function Without(batch: seq<Envelope>, ids: set<Text>): seq<Envelope> {
    if batch == [] then []
    else (if batch[0].id in ids then [] else [batch[0]]) + Without(batch[1..], ids)
  }

  function Acknowledge(s: State, ids: set<Text>): State {
    s.(pending := Without(s.pending, ids),
       acknowledged := s.acknowledged + (Places(s.pending) - Places(Without(s.pending, ids))))
  }

  function Clear(s: State): State {
    s.(pending := [], flushTimer := false, cleared := s.cleared + Places(s.pending))
  }

  function SetDeliverer(s: State, present: bool): State {
    var set_ := s.(deliverer := present);
    if present && s.pending != [] then FlushNow(set_) else set_
  }

  function RunMicrotask(s: State, parent: Parent): State {
    var cleared := s.(deliveryScheduled := false);
    if s.deliverer then Deliver(cleared, parent) else cleared
  }

  // ----- the queue and the deliverer as objects -----

  class CompletionSystem {
    var pending: seq<Envelope>
    var deliverer: bool
    var flushTimer: bool
    var deliveryScheduled: bool
    var retryTimer: bool
    var enqueued: nat
    ghost var handed: seq<Envelope>
    ghost var lost: set<nat>
    ghost var acknowledged: set<nat>
    ghost var cleared: set<nat>

    ghost function View(): State
      reads this
    {
      State(pending, deliverer, flushTimer, deliveryScheduled, retryTimer, enqueued, handed, lost, acknowledged, cleared)
    }

    constructor ()
      ensures View() == START
    {
      pending, deliverer, flushTimer, deliveryScheduled, retryTimer := [], false, false, false, false;
      enqueued := 0;
      handed, lost, acknowledged, cleared := [], {}, {}, {};
    }

    method DoFlushNow()
      modifies this
      ensures View() == FlushNow(old(View()))
    {
      if flushTimer { flushTimer := false; }
      if deliveryScheduled { return; }
      deliveryScheduled := true;
    }

    method DoEnqueue(id: Text, failed: bool)
      modifies this
      ensures View() == Enqueue(old(View()), id, failed)
    {
      pending := pending + [Envelope(enqueued, id, failed)];
      enqueued := enqueued + 1;
      if failed {
        DoFlushNow();
        return;
      }
      if !flushTimer { flushTimer := true; }
    }

    method DoDeliver(parent: Parent)
      modifies this
      ensures View() == Deliver(old(View()), parent)
    {
      if retryTimer { retryTimer := false; }
      if pending == [] { return; }
      match parent {
        case Busy => retryTimer := true;
        case Throws =>
        case Idle =>
          handed := handed + pending;
          pending := [];
        case SendFails =>
          lost := lost + Places(pending);
          pending := [];
      }
    }

    method DoPoke(parent: Parent)
      modifies this
      ensures View() == Poke(old(View()), parent)
    {
      if pending == [] { return; }
      if flushTimer { flushTimer := false; }
      if deliverer { DoDeliver(parent); }
    }

    method DoAcknowledge(ids: set<Text>)
      modifies this
      ensures View() == Acknowledge(old(View()), ids)
    {
      NothingToAcknowledge(pending, ids);
      if ids == {} || pending == [] { return; }
      acknowledged := acknowledged + (Places(pending) - Places(Without(pending, ids)));
      pending := Without(pending, ids);
    }

    method DoClear()
      modifies this
      ensures View() == Clear(old(View()))
    {
      cleared := cleared + Places(pending);
      pending := [];
      if flushTimer { flushTimer := false; }
    }

    method DoSetDeliverer(present: bool)
      modifies this
      ensures View() == SetDeliverer(old(View()), present)
    {
      deliverer := present;
      if present && pending != [] { DoFlushNow(); }
    }

    method DoMicrotask(parent: Parent)
      requires deliveryScheduled
      modifies this
      ensures View() == RunMicrotask(old(View()), parent)
    {
      deliveryScheduled := false;
      if deliverer { DoDeliver(parent); }
    }
  }

  lemma {:induction false} NothingToAcknowledge(batch: seq<Envelope>, ids: set<Text>)
    ensures ids == {} || batch == [] ==> Without(batch, ids) == batch
  {
    if batch != [] {
      NothingToAcknowledge(batch[1..], ids);
      assert [batch[0]] + batch[1..] == batch;
    }
  }
}
