/** The historical-request gate (internal/kite/historical_gate.go): one slot handed over
    directly, interactive callers ahead of background ones, a watchdog that takes the slot
    back, and cancellation that may race with a handover. Each step is one critical section
    or one timer of one caller. */
module HistoricalGate {
  import opened Base

  type CallId = nat

  /** A queued caller; ticket numbers record the order of arrival. */
  datatype Waiter = Waiter(id: CallId, background: bool, ticket: nat)

  datatype Phase =
    | Waiting            // queued
    | Handed             // given the slot, has not noticed yet
    | Entered            // holds the slot, has not looked at the last start
    | Pacing(until: int) // waits out the start gap
    | Started
    | Finished

  /** released: this call's sync.Once has fired. */
  datatype Call = Call(phase: Phase, released: bool)

  datatype Gate = Gate(
    minGap: nat,
    busy: bool,
    waiting: seq<Waiter>,
    lastStart: Option<int>,
    now: int,
    calls: map<CallId, Call>,
    tickets: nat,
    starts: seq<int>)

  function NewGate(minGap: nat, now: int): Gate { Gate(minGap, false, [], None, now, map[], 0, []) }

  // ---------------------------------------------------------------- the queue

  /** How many leading waiters are interactive. */
  function Lead(ws: seq<Waiter>): (n: nat)
    ensures n <= |ws|
    ensures forall i :: 0 <= i < n ==> !ws[i].background
    ensures n < |ws| ==> ws[n].background
  {
    if ws == [] || ws[0].background then 0 else 1 + Lead(ws[1..])
  }

  function Enqueue(ws: seq<Waiter>, w: Waiter): seq<Waiter> {
    if w.background then ws + [w] else ws[..Lead(ws)] + [w] + ws[Lead(ws)..]
  }

  function Remove(ws: seq<Waiter>, id: CallId): seq<Waiter> {
    if ws == [] then [] else if ws[0].id == id then ws[1..] else [ws[0]] + Remove(ws[1..], id)
  }

  lemma RemoveSkips(ws: seq<Waiter>, i: nat, id: CallId)
    requires i < |ws| && ws[i].id != id
    ensures ws[..i] + Remove(ws[i..], id) == ws[..i + 1] + Remove(ws[i + 1..], id)
  {
    assert ws[i..][1..] == ws[i + 1..];
    assert ws[..i + 1] == ws[..i] + [ws[i]];
  }

  predicate Queued(ws: seq<Waiter>, id: CallId) { exists i :: 0 <= i < |ws| && ws[i].id == id }

  /** a is served before b: interactive before background, then by arrival. */
  predicate Before(a: Waiter, b: Waiter) {
    if a.background == b.background then a.ticket < b.ticket else b.background
  }

  ghost predicate Ordered(ws: seq<Waiter>) {
    forall i, k :: 0 <= i < k < |ws| ==> Before(ws[i], ws[k]) && ws[i].id != ws[k].id
  }

  lemma EnqueueOrdered(ws: seq<Waiter>, w: Waiter)
    requires Ordered(ws)
    requires forall i :: 0 <= i < |ws| ==> ws[i].ticket < w.ticket && ws[i].id != w.id
    ensures Ordered(Enqueue(ws, w))
  {
    var r := Enqueue(ws, w);
    forall i, k | 0 <= i < k < |r|
      ensures Before(r[i], r[k]) && r[i].id != r[k].id
    {
      EnqueueBefore(ws, w, i, k);
    }
  }

  /** Behind the interactive waiters only background ones stand. */
  lemma RestIsBackground(ws: seq<Waiter>, i: nat)
    requires Ordered(ws) && Lead(ws) <= i < |ws|
    ensures ws[i].background
  {
    if i > Lead(ws) { assert Before(ws[Lead(ws)], ws[i]); }
  }

  lemma EnqueueBefore(ws: seq<Waiter>, w: Waiter, i: nat, k: nat)
    requires Ordered(ws) && i < k < |Enqueue(ws, w)|
    requires forall i :: 0 <= i < |ws| ==> ws[i].ticket < w.ticket && ws[i].id != w.id
    ensures Before(Enqueue(ws, w)[i], Enqueue(ws, w)[k]) && Enqueue(ws, w)[i].id != Enqueue(ws, w)[k].id
  {
    var n, r := Place(ws, w), Enqueue(ws, w);
    EnqueueAt(ws, w);
    if i == n {
      RestIsBackground(ws, k - 1);
    } else if k != n {
      var x, y := if i < n then i else i - 1, if k < n then k else k - 1;
      assert r[i] == ws[x] && r[k] == ws[y] && x < y;
    }
  }

  /** Where a newcomer goes. */
  function Place(ws: seq<Waiter>, w: Waiter): nat { if w.background then |ws| else Lead(ws) }

  lemma EnqueueAt(ws: seq<Waiter>, w: Waiter)
    ensures var n, r := Place(ws, w), Enqueue(ws, w);
            && n <= |ws| && |r| == |ws| + 1 && r[n] == w
            && (forall i :: 0 <= i < n ==> r[i] == ws[i])
            && (forall i :: n < i < |r| ==> r[i] == ws[i - 1])
  {
  }

  lemma EnqueueQueued(ws: seq<Waiter>, w: Waiter, id: CallId)
    ensures Queued(Enqueue(ws, w), id) <==> Queued(ws, id) || id == w.id
  {
    var n, r := Place(ws, w), Enqueue(ws, w);
    EnqueueAt(ws, w);
    if Queued(ws, id) {
      var i :| 0 <= i < |ws| && ws[i].id == id;
      assert r[if i < n then i else i + 1].id == id;
    }
    if Queued(r, id) && id != w.id {
      var i :| 0 <= i < |r| && r[i].id == id;
      assert ws[if i < n then i else i - 1].id == id;
    }
    if id == w.id { assert r[n].id == id; }
  }

  lemma TailQueued(ws: seq<Waiter>, x: CallId)
    requires ws != []
    ensures Queued(ws, x) <==> ws[0].id == x || Queued(ws[1..], x)
  {
    if Queued(ws[1..], x) {
      var i :| 0 <= i < |ws[1..]| && ws[1..][i].id == x;
      assert ws[i + 1].id == x;
    }
    if Queued(ws, x) && ws[0].id != x {
      var i :| 0 <= i < |ws| && ws[i].id == x;
      assert ws[1..][i - 1].id == x;
    }
  }

  lemma HeadOnlyOnce(ws: seq<Waiter>)
    requires Ordered(ws) && ws != []
    ensures !Queued(ws[1..], ws[0].id)
  {
    assert forall i :: 0 <= i < |ws[1..]| ==> ws[1..][i] == ws[i + 1];
  }

  lemma {:induction false} RemoveQueued(ws: seq<Waiter>, id: CallId, x: CallId)
    requires Ordered(ws)
    ensures Queued(Remove(ws, id), x) <==> Queued(ws, x) && x != id
  {
    if ws != [] {
      TailQueued(ws, x);
      RemoveQueued(ws[1..], id, x);
      if ws[0].id == id {
        HeadOnlyOnce(ws);
      } else {
        TailQueued(Remove(ws, id), x);
        assert Remove(ws, id)[1..] == Remove(ws[1..], id);
      }
    }
  }

  lemma {:induction false} RemoveOrdered(ws: seq<Waiter>, id: CallId)
    requires Ordered(ws)
    ensures Ordered(Remove(ws, id))
  {
    if ws != [] {
      var rest := Remove(ws[1..], id);
      RemoveOrdered(ws[1..], id);
      RemoveKeepsFrom(ws[1..], id);
      forall k | 0 <= k < |rest|
        ensures Before(ws[0], rest[k]) && ws[0].id != rest[k].id
      {
        var i :| 0 <= i < |ws[1..]| && ws[1..][i] == rest[k];
        assert Before(ws[0], ws[i + 1]);
      }
    }
  }

  lemma {:induction false} RemoveKeepsFrom(ws: seq<Waiter>, id: CallId)
    ensures forall i :: 0 <= i < |Remove(ws, id)| ==> Remove(ws, id)[i] in ws
  {
    if ws != [] { RemoveKeepsFrom(ws[1..], id); }
  }

  // ---------------------------------------------------------------- critical sections

  function SetPhase(g: Gate, id: CallId, phase: Phase): Gate
    requires id in g.calls
  {
    g.(calls := g.calls[id := g.calls[id].(phase := phase)])
  }

  /** The first critical section of acquire. */
  function Arrive(g: Gate, id: CallId, background: bool): Gate {
    var g' := g.(tickets := g.tickets + 1);
    if !g.busy then g'.(busy := true, calls := g.calls[id := Call(Entered, false)])
    else g'.(waiting := Enqueue(g.waiting, Waiter(id, background, g.tickets)),
             calls := g.calls[id := Call(Waiting, false)])
  }

  /** release: the slot goes straight to the next waiter, or the gate becomes free. */
  function Release(g: Gate): Gate
    requires g.waiting != [] ==> g.waiting[0].id in g.calls
  {
    if g.waiting == [] then g.(busy := false)
    else SetPhase(g.(waiting := g.waiting[1..]), g.waiting[0].id, Handed)
  }

  /** The cancelled branch of acquire: leave the queue, or pass on a slot handed over just now. */
  function Abandon(g: Gate, id: CallId): Gate
    requires id in g.calls && (g.waiting != [] ==> g.waiting[0].id in g.calls)
  {
    var g' := SetPhase(g, id, Finished);
    if Queued(g.waiting, id) then g'.(waiting := Remove(g.waiting, id)) else Release(g')
  }

  /** The call's Once has fired: it no longer holds the slot. */
  function Fired(g: Gate, id: CallId): Gate
    requires id in g.calls
  {
    g.(calls := g.calls[id := g.calls[id].(released := true)])
  }

  /** releaseOnce, run by the watchdog or when the call returns. */
  function ReleaseOnce(g: Gate, id: CallId): Gate
    requires id in g.calls && (g.waiting != [] ==> g.waiting[0].id in g.calls)
  {
    if g.calls[id].released then g
    else Release(Fired(g, id))
  }

  datatype Step =
    | ArriveStep(id: CallId, background: bool)
    | WakeStep(id: CallId)
    | CancelWait(id: CallId)
    | ReadGap(id: CallId)
    | CancelPacing(id: CallId)
    | Stamp(id: CallId)
    | Return(id: CallId)
    | Watchdog(id: CallId)
    | Tick(elapsed: nat)

  predicate Holding(c: Call) { c.phase.Entered? || c.phase.Pacing? || c.phase.Started? }

  predicate Enabled(g: Gate, step: Step) {
    match step
    case ArriveStep(id, _) => id !in g.calls
    case WakeStep(id) => id in g.calls && g.calls[id].phase == Handed
    case CancelWait(id) => id in g.calls && (g.calls[id].phase == Waiting || g.calls[id].phase == Handed)
    case ReadGap(id) => id in g.calls && g.calls[id].phase == Entered
    case CancelPacing(id) => id in g.calls && g.calls[id].phase.Pacing?
    case Stamp(id) => id in g.calls && g.calls[id].phase.Pacing? && g.now >= g.calls[id].phase.until
    case Return(id) => id in g.calls && g.calls[id].phase == Started
    case Watchdog(id) => id in g.calls && Holding(g.calls[id])
    case Tick(_) => true
  }

  /** When a caller that looks at the last start now may start. */
  function GapEnd(g: Gate): int {
    if g.lastStart.None? || g.minGap - (g.now - g.lastStart.value) <= 0 then g.now
    else g.now + (g.minGap - (g.now - g.lastStart.value))
  }

  /** A start at x keeps the distance to the last one. */
  predicate KeepsGap(g: Gate, x: int) { g.lastStart.None? || x - g.lastStart.value >= g.minGap }

  /** The holder waits no longer than it must: until the first moment that keeps the gap. */
  lemma GapEndLeast(g: Gate)
    ensures GapEnd(g) >= g.now && KeepsGap(g, GapEnd(g))
    ensures forall x :: x >= g.now && KeepsGap(g, x) ==> GapEnd(g) <= x
    ensures KeepsGap(g, g.now) ==> GapEnd(g) == g.now
  {
  }

  ghost function After(g: Gate, step: Step): Gate
    requires Enabled(g, step) && QueueInv(g)
  {
    match step
    case ArriveStep(id, background) => Arrive(g, id, background)
    case WakeStep(id) => SetPhase(g, id, Entered)
    case CancelWait(id) => Abandon(g, id)
    case ReadGap(id) => SetPhase(g, id, Pacing(GapEnd(g)))
    case CancelPacing(id) => ReleaseOnce(SetPhase(g, id, Finished), id)
    case Stamp(id) => SetPhase(g.(lastStart := Some(g.now), starts := g.starts + [g.now]), id, Started)
    case Return(id) => ReleaseOnce(SetPhase(g, id, Finished), id)
    case Watchdog(id) => ReleaseOnce(g, id)
    case Tick(d) => g.(now := g.now + d)
  }

  // ---------------------------------------------------------------- slot ownership

  /** The queue holds exactly the waiting callers, in service order. */
  ghost predicate QueueInv(g: Gate) {
    && Ordered(g.waiting)
    && (forall id :: Queued(g.waiting, id) <==> id in g.calls && g.calls[id].phase == Waiting)
    && (forall i :: 0 <= i < |g.waiting| ==> g.waiting[i].ticket < g.tickets && g.waiting[i].id in g.calls)
  }

  /** The caller that must still release the slot. */
  predicate Owner(g: Gate, id: CallId) {
    id in g.calls && (g.calls[id].phase == Handed || (Holding(g.calls[id]) && !g.calls[id].released))
  }

  /** Exactly one owner when busy, none and no waiter when free; a finished call has released. */
  ghost predicate SlotInv(g: Gate) {
    && (forall a: CallId, b: CallId :: Owner(g, a) && Owner(g, b) ==> a == b)
    && (g.busy <==> exists a: CallId :: Owner(g, a))
    && (!g.busy ==> g.waiting == [])
    && (forall id :: id in g.calls && (g.calls[id].phase == Waiting || g.calls[id].phase == Handed)
          ==> !g.calls[id].released)
  }

  ghost predicate Inv(g: Gate) { QueueInv(g) && SlotInv(g) }

  lemma HeadQueued(g: Gate)
    requires QueueInv(g) && g.waiting != []
    ensures g.waiting[0].id in g.calls && g.calls[g.waiting[0].id].phase == Waiting
  {
    assert Queued(g.waiting, g.waiting[0].id);
  }

  /** Whoever held the slot is about to release it. */
  ghost predicate Unowned(g: Gate) {
    && QueueInv(g) && g.busy
    && (forall a: CallId :: !Owner(g, a))
    && (forall id :: id in g.calls && (g.calls[id].phase == Waiting || g.calls[id].phase == Handed)
          ==> !g.calls[id].released)
  }

  /** Releasing a slot that now has no owner makes the head of the queue the only owner,
      or frees the gate. */
  lemma ReleaseKeeps(g: Gate)
    requires Unowned(g)
    ensures Inv(Release(g))
  {
    var g' := Release(g);
    if g.waiting == [] {
      assert forall a: CallId :: Owner(g', a) ==> Owner(g, a);
    } else {
      HeadQueued(g);
      var head := g.waiting[0].id;
      assert Owner(g', head);
      assert forall a: CallId :: Owner(g', a) && a != head ==> Owner(g, a);
      forall id: CallId
        ensures Queued(g'.waiting, id) <==> Queued(g.waiting, id) && id != head
      {
        TailQueued(g.waiting, id);
        HeadOnlyOnce(g.waiting);
      }
    }
  }

  /** A step that leaves the owners as they are keeps the slot invariant. */
  lemma SameOwners(g: Gate, g': Gate)
    requires SlotInv(g) && g'.busy == g.busy
    requires forall a: CallId :: Owner(g', a) <==> Owner(g, a)
    ensures forall a: CallId, b: CallId :: Owner(g', a) && Owner(g', b) ==> a == b
    ensures g'.busy <==> exists a: CallId :: Owner(g', a)
  {
    if g.busy {
      var a: CallId :| Owner(g, a);
      assert Owner(g', a);
    }
  }

  lemma ArriveQueues(g: Gate, id: CallId, background: bool)
    requires QueueInv(g) && id !in g.calls && g.busy
    ensures QueueInv(Arrive(g, id, background))
  {
    var g', w := Arrive(g, id, background), Waiter(id, background, g.tickets);
    EnqueueOrdered(g.waiting, w);
    EnqueueAt(g.waiting, w);
    forall x: CallId
      ensures Queued(g'.waiting, x) <==> x in g'.calls && g'.calls[x].phase == Waiting
    {
      EnqueueQueued(g.waiting, w, x);
    }
  }

  lemma ArriveKeeps(g: Gate, id: CallId, background: bool)
    requires Inv(g) && id !in g.calls
    ensures Inv(Arrive(g, id, background))
  {
    var g' := Arrive(g, id, background);
    if g.busy {
      ArriveQueues(g, id, background);
      SameOwners(g, g');
    } else {
      assert Owner(g', id);
      assert forall a: CallId :: Owner(g', a) && a != id ==> Owner(g, a);
    }
  }

  /** A caller that gives up and is not in the queue was just handed the slot. */
  lemma AbandonedIsUnowned(g: Gate, id: CallId)
    requires Inv(g) && Enabled(g, CancelWait(id)) && !Queued(g.waiting, id)
    ensures Unowned(SetPhase(g, id, Finished))
  {
    assert Owner(g, id);
    assert forall a: CallId :: Owner(SetPhase(g, id, Finished), a) ==> Owner(g, a) && a != id;
  }

  lemma AbandonKeeps(g: Gate, id: CallId)
    requires Inv(g) && Enabled(g, CancelWait(id))
    ensures Inv(Abandon(g, id))
  {
    if Queued(g.waiting, id) {
      RemoveOrdered(g.waiting, id);
      RemoveKeepsFrom(g.waiting, id);
      forall x: CallId
        ensures Queued(Remove(g.waiting, id), x) <==> Queued(g.waiting, x) && x != id
      {
        RemoveQueued(g.waiting, id, x);
      }
      SameOwners(g, Abandon(g, id));
    } else {
      AbandonedIsUnowned(g, id);
      ReleaseKeeps(SetPhase(g, id, Finished));
    }
  }

  lemma ReleasedIsUnowned(g: Gate, id: CallId, phase: Phase)
    requires Inv(g) && id in g.calls && Holding(g.calls[id]) && !g.calls[id].released
    requires phase == Finished || phase == g.calls[id].phase
    ensures Unowned(Fired(SetPhase(g, id, phase), id))
  {
    assert Owner(g, id);
    assert forall a: CallId :: Owner(Fired(SetPhase(g, id, phase), id), a) ==> Owner(g, a) && a != id;
  }

  lemma ReleaseOnceKeeps(g: Gate, id: CallId, phase: Phase)
    requires Inv(g) && id in g.calls && Holding(g.calls[id])
    requires phase == Finished || phase == g.calls[id].phase
    ensures Inv(ReleaseOnce(SetPhase(g, id, phase), id))
  {
    var g1 := SetPhase(g, id, phase);
    if g.calls[id].released {
      SameOwners(g, g1);
    } else {
      ReleasedIsUnowned(g, id, phase);
      ReleaseKeeps(Fired(SetPhase(g, id, phase), id));
    }
  }

  /** Whoever still owns the slot and lets go of it, the watchdog included, owns it no longer:
      the head of the queue does, or the gate is free. A second letting go moves no slot. */
  lemma LettingGo(g: Gate, id: CallId)
    requires Inv(g) && id in g.calls && Holding(g.calls[id])
    ensures var g' := ReleaseOnce(g, id);
            && id in g'.calls && g'.calls[id] == g.calls[id].(released := true) && !Owner(g', id)
            && if g.calls[id].released then g' == g
               else if g.waiting == [] then !g'.busy
               else Owner(g', g.waiting[0].id) && g'.waiting == g.waiting[1..]
  {
    if !g.calls[id].released && g.waiting != [] { HeadQueued(g); }
  }

  lemma PhaseKeeps(g: Gate, g': Gate, id: CallId, phase: Phase)
    requires Inv(g) && id in g.calls && (g.calls[id].phase == Handed || Holding(g.calls[id]))
    requires phase.Entered? || phase.Pacing? || phase.Started?
    requires g' == SetPhase(g.(lastStart := g'.lastStart, starts := g'.starts), id, phase)
    ensures Inv(g')
  {
    SameOwners(g, g');
  }

  lemma StepKeeps(g: Gate, step: Step)
    requires Inv(g) && Enabled(g, step)
    ensures Inv(After(g, step))
  {
    match step
    case ArriveStep(id, background) => ArriveKeeps(g, id, background);
    case WakeStep(id) => PhaseKeeps(g, After(g, step), id, Entered);
    case CancelWait(id) => AbandonKeeps(g, id);
    case ReadGap(id) => PhaseKeeps(g, After(g, step), id, Pacing(GapEnd(g)));
    case CancelPacing(id) => ReleaseOnceKeeps(g, id, Finished);
    case Stamp(id) => PhaseKeeps(g, After(g, step), id, Started);
    case Return(id) => ReleaseOnceKeeps(g, id, Finished);
    case Watchdog(id) => assert SetPhase(g, id, g.calls[id].phase) == g; ReleaseOnceKeeps(g, id, g.calls[id].phase);
    case Tick(_) =>
      SameOwners(g, After(g, step));
  }

  ghost predicate Reaches(g: Gate, steps: seq<Step>, g': Gate)
    decreases |steps|
  {
    if steps == [] then g' == g
    else QueueInv(g) && Enabled(g, steps[0]) && Reaches(After(g, steps[0]), steps[1..], g')
  }

  lemma {:induction false} RunKeeps(g: Gate, steps: seq<Step>, g': Gate)
    requires Inv(g) && Reaches(g, steps, g')
    ensures Inv(g')
    decreases |steps|
  {
    if steps != [] {
      StepKeeps(g, steps[0]);
      RunKeeps(After(g, steps[0]), steps[1..], g');
    }
  }

  /** No run is cut short: QueueInv, which only makes the next step well defined, never fails,
      so every enabled step extends the run. */
  lemma {:induction false} RunExtends(g: Gate, steps: seq<Step>, g': Gate, step: Step)
    requires Inv(g) && Reaches(g, steps, g') && Enabled(g', step)
    ensures QueueInv(g') && Reaches(g, steps + [step], After(g', step))
    decreases |steps|
  {
    var more := steps + [step];
    if steps == [] {
      assert more[1..] == [] && Reaches(After(g, step), [], After(g, step));
    } else {
      StepKeeps(g, steps[0]);
      RunExtends(After(g, steps[0]), steps[1..], g', step);
      assert more[1..] == steps[1..] + [step];
    }
  }

  /** In every interleaving of arrivals, handovers, cancellations, watchdogs and returns the
      slot is never lost and never released twice, and the queue stays in service order. */
  lemma GateSafety(minGap: nat, now: int, steps: seq<Step>, g: Gate)
    requires Reaches(NewGate(minGap, now), steps, g)
    ensures Ordered(g.waiting)
    ensures g.busy <==> exists a: CallId :: Owner(g, a)
    ensures forall a: CallId, b: CallId :: Owner(g, a) && Owner(g, b) ==> a == b
    ensures !g.busy ==> g.waiting == []
  {
    RunKeeps(NewGate(minGap, now), steps, g);
  }

  /** Handover: the new owner is the waiter that everyone else in the queue comes after. */
  lemma HandoverOrder(g: Gate, i: nat)
    requires Inv(g) && g.waiting != [] && i < |g.waiting|
    ensures Release(g).calls[g.waiting[0].id].phase == Handed
    ensures i > 0 ==> Before(g.waiting[0], g.waiting[i])
  {
  }

  // ---------------------------------------------------------------- spacing

  /** Successive starts are at least the gap apart. */
  ghost predicate Spaced(starts: seq<int>, minGap: nat) {
    forall i :: 0 < i < |starts| ==> starts[i] - starts[i - 1] >= minGap
  }

  /** The watchdog does not overtake a holder that has yet to stamp its start. */
  predicate Punctual(g: Gate, step: Step) {
    match step
    case Watchdog(id) => id in g.calls ==> g.calls[id].phase == Started
    case _ => true
  }

  ghost predicate SpacingInv(g: Gate) { Inv(g) && StartsInv(g) }

  /** Starts so far are spaced, and nobody who has yet to start has lost the slot or may
      start too early. */
  ghost predicate StartsInv(g: Gate) {
    && Spaced(g.starts, g.minGap)
    && (g.lastStart.Some? <==> g.starts != [])
    && (g.starts != [] ==> g.lastStart.value == g.starts[|g.starts| - 1] && g.lastStart.value <= g.now)
    && (forall id :: id in g.calls && (g.calls[id].phase.Entered? || g.calls[id].phase.Pacing?)
          ==> !g.calls[id].released)
    && (forall id :: id in g.calls && g.calls[id].phase.Pacing? && g.lastStart.Some?
          ==> g.calls[id].phase.until >= g.lastStart.value + g.minGap)
  }

  lemma StampSpaced(g: Gate, id: CallId)
    requires SpacingInv(g) && Enabled(g, Stamp(id))
    ensures SpacingInv(After(g, Stamp(id)))
  {
    StepKeeps(g, Stamp(id));
    assert Owner(g, id);
    assert forall x: CallId :: x in g.calls && g.calls[x].phase.Pacing? ==> Owner(g, x);
  }

  /** Handing the slot on leaves the starts and every pacing caller alone. */
  lemma ReleaseSpaced(g: Gate)
    requires StartsInv(g) && (g.waiting != [] ==> g.waiting[0].id in g.calls)
    ensures StartsInv(Release(g))
  {
  }

  lemma OnceSpaced(g: Gate, id: CallId, phase: Phase)
    requires SpacingInv(g) && id in g.calls && Holding(g.calls[id])
    requires phase == Finished || (phase == g.calls[id].phase && phase == Started)
    ensures SpacingInv(ReleaseOnce(SetPhase(g, id, phase), id))
  {
    ReleaseOnceKeeps(g, id, phase);
    var g1 := SetPhase(g, id, phase);
    assert StartsInv(g1);
    if !g.calls[id].released {
      var g2 := g1.(calls := g1.calls[id := g1.calls[id].(released := true)]);
      assert StartsInv(g2);
      ReleaseSpaced(g2);
    }
  }

  lemma AbandonSpaced(g: Gate, id: CallId)
    requires SpacingInv(g) && Enabled(g, CancelWait(id))
    ensures SpacingInv(Abandon(g, id))
  {
    AbandonKeeps(g, id);
    var g1 := SetPhase(g, id, Finished);
    assert StartsInv(g1);
    if !Queued(g.waiting, id) { ReleaseSpaced(g1); }
  }

  lemma SpacingStep(g: Gate, step: Step)
    requires SpacingInv(g) && Enabled(g, step) && Punctual(g, step)
    ensures SpacingInv(After(g, step))
  {
    match step
    case Stamp(id) => StampSpaced(g, id);
    case CancelWait(id) => AbandonSpaced(g, id);
    case CancelPacing(id) => OnceSpaced(g, id, Finished);
    case Return(id) => OnceSpaced(g, id, Finished);
    case Watchdog(id) => assert SetPhase(g, id, Started) == g; OnceSpaced(g, id, Started);
    case _ => StepKeeps(g, step);
  }

  ghost predicate PunctualRun(g: Gate, steps: seq<Step>, g': Gate)
    decreases |steps|
  {
    if steps == [] then g' == g
    else QueueInv(g) && Enabled(g, steps[0]) && Punctual(g, steps[0]) && PunctualRun(After(g, steps[0]), steps[1..], g')
  }

  lemma {:induction false} SpacingRun(g: Gate, steps: seq<Step>, g': Gate)
    requires SpacingInv(g) && PunctualRun(g, steps, g')
    ensures SpacingInv(g')
    decreases |steps|
  {
    if steps != [] {
      SpacingStep(g, steps[0]);
      SpacingRun(After(g, steps[0]), steps[1..], g');
    }
  }

  /** If every holder stamps its start before its watchdog fires, request starts are at
      least minGap apart. */
  lemma StartsAreSpaced(minGap: nat, now: int, steps: seq<Step>, g: Gate)
    requires PunctualRun(NewGate(minGap, now), steps, g)
    ensures Spaced(g.starts, minGap)
  {
    SpacingRun(NewGate(minGap, now), steps, g);
    SameGap(NewGate(minGap, now), steps, g);
  }

  lemma {:induction false} SameGap(g: Gate, steps: seq<Step>, g': Gate)
    requires PunctualRun(g, steps, g')
    ensures g'.minGap == g.minGap
    decreases |steps|
  {
    if steps != [] { SameGap(After(g, steps[0]), steps[1..], g'); }
  }

  // ---------------------------------------------------------------- exactly when

  /** However the gate goes on from here without a further overtaking, starts stay spaced. */
  ghost predicate StaysSpaced(g: Gate) {
    forall steps, g' :: PunctualRun(g, steps, g') ==> Spaced(g'.starts, g.minGap)
  }

  /** A call that holds, or believes it holds, the slot and has yet to stamp its start. */
  predicate Unstamped(g: Gate, id: CallId) {
    id in g.calls && (g.calls[id].phase.Entered? || g.calls[id].phase.Pacing?)
  }

  lemma OneStep(g: Gate, step: Step)
    requires Inv(g) && Enabled(g, step) && Punctual(g, step)
    ensures Inv(After(g, step)) && PunctualRun(g, [step], After(g, step))
  {
    StepKeeps(g, step);
    assert [step][1..] == [] && PunctualRun(After(g, step), [], After(g, step));
  }

  lemma {:induction false} Joined(g: Gate, first: seq<Step>, mid: Gate, second: seq<Step>, end: Gate)
    requires PunctualRun(g, first, mid) && PunctualRun(mid, second, end)
    ensures PunctualRun(g, first + second, end)
    decreases |first|
  {
    if first == [] {
      assert first + second == second;
    } else {
      assert (first + second)[1..] == first[1..] + second;
      Joined(After(g, first[0]), first[1..], mid, second, end);
    }
  }

  /** Let call id look at the gap, if it has not yet. */
  lemma LooksAtGap(g: Gate, id: CallId) returns (steps: seq<Step>, g': Gate)
    requires Inv(g) && Unstamped(g, id)
    ensures Inv(g') && PunctualRun(g, steps, g') && g'.minGap == g.minGap
    ensures id in g'.calls && g'.calls[id].phase.Pacing?
    ensures forall x: CallId :: x != id && x in g.calls ==> x in g'.calls && g'.calls[x] == g.calls[x]
  {
    if g.calls[id].phase.Pacing? {
      steps, g' := [], g;
    } else {
      steps, g' := [ReadGap(id)], After(g, ReadGap(id));
      OneStep(g, ReadGap(id));
    }
  }

  /** Wait until call id may start. */
  lemma WaitsFor(g: Gate, id: CallId) returns (steps: seq<Step>, g': Gate)
    requires Inv(g) && id in g.calls && g.calls[id].phase.Pacing?
    ensures Inv(g') && PunctualRun(g, steps, g') && g' == g.(now := g'.now)
    ensures g.now <= g'.now && g.calls[id].phase.until <= g'.now
  {
    var d := Max(0, g.calls[id].phase.until - g.now);
    steps, g' := [Tick(d)], After(g, Tick(d));
    OneStep(g, Tick(d));
  }

  /** Both may start now: they start together. */
  lemma StampTogether(g: Gate, a: CallId, b: CallId) returns (steps: seq<Step>, g': Gate)
    requires Inv(g) && a != b && Enabled(g, Stamp(a)) && Enabled(g, Stamp(b)) && g.minGap > 0
    ensures PunctualRun(g, steps, g') && !Spaced(g'.starts, g.minGap)
  {
    var g1 := After(g, Stamp(a));
    OneStep(g, Stamp(a));
    g' := After(g1, Stamp(b));
    OneStep(g1, Stamp(b));
    steps := [Stamp(a)] + [Stamp(b)];
    Joined(g, [Stamp(a)], g1, [Stamp(b)], g');
    var n := |g.starts|;
    assert g'.starts[n + 1] - g'.starts[n] == 0;
  }

  /** Two calls past acquire with no start stamped can always start together. */
  lemma TwoUnstampedCollide(g: Gate, a: CallId, b: CallId)
    requires Inv(g) && a != b && Unstamped(g, a) && Unstamped(g, b) && g.minGap > 0
    ensures !StaysSpaced(g)
  {
    var s1, g1 := BothLook(g, a, b);
    var s2, g2 := BothWait(g1, a, b);
    Joined(g, s1, g1, s2, g2);
    var s3, g3 := StampTogether(g2, a, b);
    Joined(g, s1 + s2, g2, s3, g3);
  }

  lemma BothLook(g: Gate, a: CallId, b: CallId) returns (steps: seq<Step>, g': Gate)
    requires Inv(g) && a != b && Unstamped(g, a) && Unstamped(g, b)
    ensures Inv(g') && PunctualRun(g, steps, g') && g'.minGap == g.minGap
    ensures a in g'.calls && g'.calls[a].phase.Pacing? && b in g'.calls && g'.calls[b].phase.Pacing?
  {
    var s1, g1 := LooksAtGap(g, a);
    var s2, g2 := LooksAtGap(g1, b);
    Joined(g, s1, g1, s2, g2);
    steps, g' := s1 + s2, g2;
  }

  lemma BothWait(g: Gate, a: CallId, b: CallId) returns (steps: seq<Step>, g': Gate)
    requires Inv(g) && a in g.calls && g.calls[a].phase.Pacing? && b in g.calls && g.calls[b].phase.Pacing?
    ensures Inv(g') && PunctualRun(g, steps, g') && g'.minGap == g.minGap
    ensures Enabled(g', Stamp(a)) && Enabled(g', Stamp(b))
  {
    var s1, g1 := WaitsFor(g, a);
    var s2, g2 := WaitsFor(g1, b);
    Joined(g, s1, g1, s2, g2);
    steps, g' := s1 + s2, g2;
  }

  lemma FreshCall(calls: map<CallId, Call>) returns (id: CallId)
    ensures id !in calls
  {
    id := 0;
    while id in calls
      invariant forall x: CallId :: x < id ==> x in calls
      decreases |calls| - id
    {
      Below(id + 1, calls.Keys);
      id := id + 1;
    }
  }

  lemma {:induction false} Below(n: nat, s: set<nat>)
    requires forall x: nat :: x < n ==> x in s
    ensures n <= |s|
    decreases n
  {
    if n > 0 { Below(n - 1, s - {n - 1}); }
  }

  /** After a call loses the slot unstamped, another one can get there beside it. */
  lemma OvertakingLetsAnotherIn(g: Gate, id: CallId)
    requires SpacingInv(g) && Unstamped(g, id) && g.minGap > 0
    ensures !StaysSpaced(After(g, Watchdog(id)))
  {
    var g1 := After(g, Watchdog(id));
    StepKeeps(g, Watchdog(id));
    var b, step;
    if g.waiting == [] {
      b := FreshCall(g1.calls);
      step := ArriveStep(b, false);
    } else {
      HeadQueued(g);
      b := g.waiting[0].id;
      step := WakeStep(b);
    }
    var g2 := After(g1, step);
    OneStep(g1, step);
    assert Unstamped(g1, id) && Unstamped(g2, id) && Unstamped(g2, b);
    TwoUnstampedCollide(g2, id, b);
    var steps, g3 :| PunctualRun(g2, steps, g3) && !Spaced(g3.starts, g2.minGap);
    Joined(g1, [step], g2, steps, g3);
  }

  /** With no gap to keep, time itself keeps starts apart. */
  lemma {:induction false} NoGapRun(g: Gate, steps: seq<Step>, g': Gate)
    requires Spaced(g.starts, 0) && (g.starts != [] ==> g.starts[|g.starts| - 1] <= g.now)
    requires PunctualRun(g, steps, g')
    ensures Spaced(g'.starts, 0)
    decreases |steps|
  {
    if steps != [] { NoGapRun(After(g, steps[0]), steps[1..], g'); }
  }

  /** Exactly when a watchdog is harmless: starts stay spaced however the gate goes on if and
      only if the holder had stamped its start, or there is no gap to keep. */
  lemma WatchdogHarmlessExactly(g: Gate, id: CallId)
    requires SpacingInv(g) && Enabled(g, Watchdog(id))
    ensures StaysSpaced(After(g, Watchdog(id))) <==> g.calls[id].phase == Started || g.minGap == 0
  {
    var g1 := After(g, Watchdog(id));
    if g.calls[id].phase == Started {
      SpacingStep(g, Watchdog(id));
      forall steps, g' | PunctualRun(g1, steps, g')
        ensures Spaced(g'.starts, g1.minGap)
      {
        SpacingRun(g1, steps, g');
        SameGap(g1, steps, g');
      }
    } else if g.minGap == 0 {
      forall steps, g' | PunctualRun(g1, steps, g')
        ensures Spaced(g'.starts, g1.minGap)
      {
        NoGapRun(g1, steps, g');
      }
    } else {
      OvertakingLetsAnotherIn(g, id);
    }
  }

  lemma {:induction false} PunctualReaches(g: Gate, steps: seq<Step>, g': Gate)
    requires PunctualRun(g, steps, g')
    ensures Reaches(g, steps, g')
    decreases |steps|
  {
    if steps != [] { PunctualReaches(After(g, steps[0]), steps[1..], g'); }
  }

  /** It happens from a new gate: a caller that stalls past its watchdog before stamping
      starts together with the next one. */
  lemma OvertakenStartsCollide(minGap: nat)
    requires minGap > 0
    ensures exists steps, g :: Reaches(NewGate(minGap, 0), steps, g) && !Spaced(g.starts, minGap)
  {
    var g0, arrive, fire := NewGate(minGap, 0), ArriveStep(0, false), Watchdog(0);
    var g1 := After(g0, arrive);
    SpacingStep(g0, arrive);
    var g2 := After(g1, fire);
    WatchdogHarmlessExactly(g1, 0);
    var rest, g :| PunctualRun(g2, rest, g) && !Spaced(g.starts, g2.minGap);
    PunctualReaches(g2, rest, g);
    var later := [fire] + rest;
    assert later[1..] == rest && Reaches(g1, later, g);
    assert ([arrive] + later)[1..] == later && Reaches(g0, [arrive] + later, g);
  }
}
