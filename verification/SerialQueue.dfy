/** The hub's callback queue (internal/hub/hub.go; internal/kite/lanefeed.go uses the same
    protocol): changes are queued under the hub lock and delivered outside it by whichever
    caller finds the queue idle. The state is seen by one connection listener, which may
    register at any time. */
module SerialQueue {
  type CallId = nat

  /** A connection change, which the listener is among the receivers of or not, or any
      other callback. */
  datatype Event = Change(connected: bool, heard: bool) | Other(n: nat)

  datatype Phase = Owing | Running(event: Event) | Ran | Returned

  datatype Hub = Hub(
    connected: bool,
    registered: bool,
    since: bool,
    queue: seq<Event>,
    draining: bool,
    calls: map<CallId, Phase>,
    pushed: seq<Event>,
    delivered: seq<Event>)

  function NewHub(connected: bool): Hub { Hub(connected, false, connected, [], false, map[], [], []) }

  datatype Step =
    | RegisterStep(id: CallId)
    | NotifyStep(id: CallId, connected: bool, listeners: bool)
    | PushStep(id: CallId, n: nat)
    | DrainStep(id: CallId)
    | RunStep(id: CallId)
    | NextStep(id: CallId)

  predicate Resting(h: Hub, id: CallId) {
    id in h.calls ==> h.calls[id].Owing? || h.calls[id].Returned?
  }

  /** A callback may itself change the state and drain: that is another call, under way
      while the outer one is Running. */
  predicate Enabled(h: Hub, step: Step) {
    match step
    case RegisterStep(id) => !h.registered && Resting(h, id)
    case NotifyStep(id, _, _) => Resting(h, id)
    case PushStep(id, _) => Resting(h, id)
    case DrainStep(id) => Resting(h, id)
    case RunStep(id) => id in h.calls && h.calls[id].Running?
    case NextStep(id) => id in h.calls && h.calls[id].Ran?
  }

  function At(h: Hub, id: CallId, phase: Phase): Hub { h.(calls := h.calls[id := phase]) }

  function Push(h: Hub, id: CallId, event: Event): Hub {
    At(h, id, Owing).(queue := h.queue + [event], pushed := h.pushed + [event])
  }

  /** AddConnectionListener: the state at that moment goes through the queue too. */
  function Register(h: Hub, id: CallId): Hub {
    Push(h.(registered := true, since := h.connected), id, Change(h.connected, true))
  }

  /** notifyLocked: repeats are dropped, and so is a change nobody listens for. */
  function Notify(h: Hub, id: CallId, connected: bool, others: bool): Hub {
    if h.connected == connected then At(h, id, Owing)
    else
      var h1 := h.(connected := connected);
      if h.registered || others then Push(h1, id, Change(connected, h.registered)) else At(h1, id, Owing)
  }

  /** The loop test of drain, under the queue's lock: take the next callback or stop. */
  function Take(h: Hub, id: CallId): Hub {
    if h.queue == [] then At(h, id, Returned).(draining := false)
    else At(h, id, Running(h.queue[0])).(draining := true, queue := h.queue[1..])
  }

  function After(h: Hub, step: Step): Hub
    requires Enabled(h, step)
  {
    match step
    case RegisterStep(id) => Register(h, id)
    case NotifyStep(id, connected, others) => Notify(h, id, connected, others)
    case PushStep(id, n) => Push(h, id, Other(n))
    case DrainStep(id) => if h.draining then At(h, id, Returned) else Take(h, id)
    case RunStep(id) => At(h, id, Ran).(delivered := h.delivered + [h.calls[id].event])
    case NextStep(id) => Take(h, id)
  }

  // ---------------------------------------------------------------- single drainer

  predicate Drains(h: Hub, id: CallId) { id in h.calls && (h.calls[id].Running? || h.calls[id].Ran?) }

  predicate Owes(h: Hub, id: CallId) { id in h.calls && h.calls[id].Owing? }

  /** The callback under way. */
  function Current(h: Hub, id: CallId): seq<Event> {
    if id in h.calls && h.calls[id].Running? then [h.calls[id].event] else []
  }

  ghost predicate QueueInv(h: Hub) {
    && (h.draining <==> exists a: CallId :: Drains(h, a))
    && (forall a: CallId, b: CallId :: Drains(h, a) && Drains(h, b) ==> a == b)
    && (forall a: CallId :: Drains(h, a) ==> h.pushed == h.delivered + Current(h, a) + h.queue)
    && (!h.draining ==> h.pushed == h.delivered + h.queue)
    && (h.queue != [] ==> h.draining || exists a: CallId :: Owes(h, a))
  }

  lemma TakeKeeps(h: Hub, id: CallId)
    requires QueueInv(h)
    requires if h.draining then Drains(h, id) && h.calls[id].Ran? else Resting(h, id)
    ensures QueueInv(Take(h, id))
  {
    var h' := Take(h, id);
    if !h.draining { assert forall a: CallId :: !Drains(h, a); }
    assert forall a: CallId :: a != id ==> !Drains(h, a);
    assert forall a: CallId :: a != id ==> Drains(h', a) == Drains(h, a);
    assert h.pushed == h.delivered + h.queue;
    if h.queue != [] {
      assert Drains(h', id) && Current(h', id) == [h.queue[0]];
      assert h.queue == [h.queue[0]] + h.queue[1..];
    }
  }

  lemma PushKeeps(h: Hub, id: CallId, event: Event)
    requires QueueInv(h) && Resting(h, id)
    ensures QueueInv(Push(h, id, event))
  {
    var h' := Push(h, id, event);
    assert Owes(h', id) && !Drains(h, id) && !Drains(h', id);
    assert forall a: CallId :: Drains(h', a) == Drains(h, a) && (Drains(h, a) ==> Current(h', a) == Current(h, a));
    forall a: CallId | Drains(h', a)
      ensures h'.pushed == h'.delivered + Current(h', a) + h'.queue
    {
      assert h.delivered + Current(h, a) + h.queue + [event] == h.delivered + Current(h, a) + (h.queue + [event]);
    }
    assert h.delivered + h.queue + [event] == h.delivered + (h.queue + [event]);
  }

  /** A call that has nothing to deliver rests, or returns while someone else drains. */
  lemma RestKeeps(h: Hub, h': Hub, id: CallId, phase: Phase)
    requires QueueInv(h) && Resting(h, id)
    requires phase == Owing || (phase == Returned && h.draining)
    requires h' == At(h, id, phase).(connected := h'.connected)
    ensures QueueInv(h')
  {
    assert forall a: CallId :: Drains(h', a) == Drains(h, a) && (Drains(h, a) ==> Current(h', a) == Current(h, a));
    assert phase == Owing ==> Owes(h', id);
  }

  lemma RunStepKeeps(h: Hub, id: CallId)
    requires QueueInv(h) && Enabled(h, RunStep(id))
    ensures QueueInv(After(h, RunStep(id)))
  {
    var h' := After(h, RunStep(id));
    assert Drains(h, id) && Drains(h', id);
    assert forall a: CallId :: Drains(h', a) == Drains(h, a);
    assert Current(h', id) == [] && Current(h, id) == [h.calls[id].event];
  }

  lemma StepKeepsQueue(h: Hub, step: Step)
    requires QueueInv(h) && Enabled(h, step)
    ensures QueueInv(After(h, step))
  {
    var h' := After(h, step);
    match step
    case RegisterStep(id) =>
      var h1 := h.(registered := true, since := h.connected);
      assert forall a: CallId :: Drains(h1, a) == Drains(h, a) && Owes(h1, a) == Owes(h, a);
      assert forall a: CallId :: Current(h1, a) == Current(h, a);
      PushKeeps(h1, id, Change(h.connected, true));
    case NotifyStep(id, connected, others) =>
      if h.connected == connected || !(h.registered || others) {
        RestKeeps(h, h', id, Owing);
      } else {
        var h1 := h.(connected := connected);
        assert forall a: CallId :: Drains(h1, a) == Drains(h, a) && Owes(h1, a) == Owes(h, a);
        assert forall a: CallId :: Current(h1, a) == Current(h, a);
        PushKeeps(h1, id, Change(connected, h.registered));
      }
    case PushStep(id, n) => PushKeeps(h, id, Other(n));
    case DrainStep(id) => if h.draining { RestKeeps(h, h', id, Returned); } else { TakeKeeps(h, id); }
    case RunStep(id) => RunStepKeeps(h, id);
    case NextStep(id) => assert Drains(h, id); TakeKeeps(h, id);
  }

  // ---------------------------------------------------------------- what the listener sees

  /** The states the listener is told, in order. */
  function Heard(events: seq<Event>): seq<bool> {
    if events == [] then []
    else
      var rest := Heard(events[..|events| - 1]);
      var e := events[|events| - 1];
      if e.Change? && e.heard then rest + [e.connected] else rest
  }

  lemma {:induction false} HeardAppends(a: seq<Event>, b: seq<Event>)
    ensures Heard(a + b) == Heard(a) + Heard(b)
    decreases |b|
  {
    if b == [] {
      assert a + b == a;
    } else {
      var b' := b[..|b| - 1];
      assert (a + b)[..|a + b| - 1] == a + b';
      HeardAppends(a, b');
    }
  }

  lemma HeardOne(events: seq<Event>, e: Event)
    ensures Heard(events + [e]) == if e.Change? && e.heard then Heard(events) + [e.connected] else Heard(events)
  {
    assert (events + [e])[..|events|] == events;
  }

  /** The first state, then each the opposite of the one before it. */
  predicate Alternates(first: bool, s: seq<bool>) {
    forall i :: 0 <= i < |s| ==> s[i] == if i % 2 == 0 then first else !first
  }

  lemma AlternatesPrefix(first: bool, s: seq<bool>, t: seq<bool>)
    requires Alternates(first, s + t)
    ensures Alternates(first, s)
  {
    assert forall i :: 0 <= i < |s| ==> s[i] == (s + t)[i];
  }

  lemma AlternatesMore(first: bool, s: seq<bool>)
    requires Alternates(first, s) && s != []
    ensures Alternates(first, s + [!s[|s| - 1]])
  {
  }

  /** The listener is told the state it registered in and then every change, up to the
      current state. */
  predicate ListenerInv(h: Hub) {
    var heard := Heard(h.pushed);
    if h.registered then heard != [] && Alternates(h.since, heard) && heard[|heard| - 1] == h.connected
    else heard == []
  }

  lemma NotifyKeepsListener(h: Hub, id: CallId, connected: bool, others: bool)
    requires ListenerInv(h)
    ensures ListenerInv(Notify(h, id, connected, others))
  {
    var h', heard := Notify(h, id, connected, others), Heard(h.pushed);
    if h'.pushed != h.pushed {
      HeardOne(h.pushed, Change(connected, h.registered));
      if h.registered {
        AlternatesMore(h.since, heard);
        assert Heard(h'.pushed) == heard + [!heard[|heard| - 1]];
      }
    }
  }

  lemma RegisterKeepsListener(h: Hub, id: CallId)
    requires ListenerInv(h) && !h.registered
    ensures ListenerInv(Register(h, id))
  {
    HeardOne(h.pushed, Change(h.connected, true));
    assert Heard(Register(h, id).pushed) == [h.connected];
  }

  lemma StepKeepsListener(h: Hub, step: Step)
    requires ListenerInv(h) && Enabled(h, step)
    ensures ListenerInv(After(h, step))
  {
    match step
    case RegisterStep(id) => RegisterKeepsListener(h, id);
    case NotifyStep(id, connected, others) => NotifyKeepsListener(h, id, connected, others);
    case PushStep(_, n) => HeardOne(h.pushed, Other(n));
    case _ =>
      assert After(h, step).pushed == h.pushed;
  }

  /** What the calls that push achieve: the state is the one notified; a change with a listener
      is queued once, a repeat or an unheard one not at all; a new listener is queued its state;
      any other callback is queued. */
  lemma StepEffect(h: Hub, step: Step)
    requires Enabled(h, step)
    ensures var h' := After(h, step);
            match step
            case RegisterStep(_) =>
              && h'.registered && h'.connected == h.connected == h'.since
              && h'.queue == h.queue + [Change(h.connected, true)]
            case NotifyStep(_, connected, others) =>
              && h'.connected == connected && h'.registered == h.registered
              && h'.queue == h.queue + if h.connected != connected && (h.registered || others)
                                       then [Change(connected, h.registered)] else []
            case PushStep(_, n) => h'.connected == h.connected && h'.queue == h.queue + [Other(n)]
            case _ => h'.connected == h.connected && h'.registered == h.registered && h'.pushed == h.pushed
  {
  }

  // ---------------------------------------------------------------- runs

  ghost predicate Reaches(h: Hub, steps: seq<Step>, h': Hub)
    decreases |steps|
  {
    if steps == [] then h' == h
    else Enabled(h, steps[0]) && Reaches(After(h, steps[0]), steps[1..], h')
  }

  lemma {:induction false} RunKeeps(h: Hub, steps: seq<Step>, h': Hub)
    requires QueueInv(h) && ListenerInv(h) && Reaches(h, steps, h')
    ensures QueueInv(h') && ListenerInv(h')
    decreases |steps|
  {
    if steps != [] {
      StepKeepsQueue(h, steps[0]);
      StepKeepsListener(h, steps[0]);
      RunKeeps(After(h, steps[0]), steps[1..], h');
    }
  }

  ghost predicate Quiescent(h: Hub) { forall a: CallId :: a in h.calls ==> h.calls[a].Returned? }

  /** In every interleaving, callbacks that push from inside included: delivery is one at a
      time in push order, the listener sees the state it registered in and then a strict
      alternation, and once every drain has returned nothing is queued and the last state it
      saw is the current one. */
  lemma ListenersSeeChangesInOrder(connected: bool, steps: seq<Step>, h: Hub)
    requires Reaches(NewHub(connected), steps, h)
    ensures h.delivered <= h.pushed
    ensures forall a: CallId, b: CallId :: Drains(h, a) && Drains(h, b) ==> a == b
    ensures h.registered ==> Alternates(h.since, Heard(h.delivered))
    ensures Quiescent(h) ==> h.queue == [] && h.delivered == h.pushed
    ensures Quiescent(h) && h.registered
        ==> Heard(h.delivered) != [] && Heard(h.delivered)[|Heard(h.delivered)| - 1] == h.connected
  {
    var h0 := NewHub(connected);
    assert forall a: CallId :: !Drains(h0, a);
    RunKeeps(h0, steps, h);
    DeliveredInOrder(h);
    if h.registered { HeardSoFar(h); }
    if Quiescent(h) {
      assert !h.draining && h.queue == [];
      assert h.pushed == h.delivered;
    }
  }

  lemma DeliveredInOrder(h: Hub)
    requires QueueInv(h)
    ensures h.delivered <= h.pushed
  {
    if h.draining {
      var a: CallId :| Drains(h, a);
      assert h.pushed == h.delivered + (Current(h, a) + h.queue);
    }
  }

  lemma HeardSoFar(h: Hub)
    requires h.delivered <= h.pushed && ListenerInv(h) && h.registered
    ensures Alternates(h.since, Heard(h.delivered))
  {
    var later := h.pushed[|h.delivered|..];
    assert h.pushed == h.delivered + later;
    HeardAppends(h.delivered, later);
    AlternatesPrefix(h.since, Heard(h.delivered), Heard(later));
  }

  // ---------------------------------------------------------------- the object

  class Serial {
    var queue: seq<Event>
    var draining: bool
    var ran: seq<Event>

    constructor ()
      ensures queue == [] && !draining && ran == []
    {
      queue, draining, ran := [], false, [];
    }

    method Push(e: Event)
      modifies this`queue
      ensures queue == old(queue) + [e]
    {
      queue := queue + [e];
    }

    /** drain with nobody else about; a nested or second call returns at once. */
    method Drain()
      modifies this
      ensures old(draining) ==> queue == old(queue) && ran == old(ran) && draining
      ensures !old(draining) ==> queue == [] && ran == old(ran) + old(queue) && !draining
    {
      if draining { return; }
      draining := true;
      ghost var all := queue;
      while |queue| > 0
        invariant draining && ran + queue == old(ran) + all
        decreases |queue|
      {
        var e := queue[0];
        queue := queue[1..];
        assert ran + ([e] + queue) == (ran + [e]) + queue;
        ran := ran + [e];
      }
      draining := false;
    }
  }
}
