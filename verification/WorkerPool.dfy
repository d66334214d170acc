/** The analytics worker pool (internal/fairvalue/workers.go) as a state machine: submit,
    a worker receiving its job, a worker finishing, a deadline firing, dispose. Timer
    callbacks may fire at any time, also after Stop was called on their timer, and a retired
    worker may still be running. */
module WorkerPool {
  import opened Base

  type Job = nat
  type SlotId = nat

  datatype Outcome = Value | JobError | TimeBudget | Stopped

  /** A slot, its one-element job channel and the job its goroutine has taken from it. */
  datatype Slot = Slot(job: Option<Job>, channel: seq<Job>, closed: bool, gone: bool, running: Option<Job>)

  datatype Pool = Pool(
    concurrency: nat,
    maxQueue: nat,
    slots: seq<SlotId>,
    table: map<SlotId, Slot>,
    queue: seq<Job>,
    disposed: bool,
    failures: nat,
    accepted: nat,
    results: seq<(Job, Outcome)>,
    timers: set<(SlotId, Job)>)

  function NewPool(concurrency: nat, maxQueue: nat): Pool {
    Pool(concurrency, maxQueue, [], map[], [], false, 0, 0, [], {})
  }

  ghost predicate Settled(p: Pool, j: Job) { exists i :: 0 <= i < |p.results| && p.results[i].0 == j }

  predicate Live(p: Pool, s: SlotId) { s in p.slots }

  /** Slot s is working on job j. */
  predicate Holds(p: Pool, s: SlotId, j: Job) { s in p.slots && s in p.table && p.table[s].job == Some(j) }

  // ---------------------------------------------------------------- dispatch

  /** The first idle live slot. */
  function FirstIdle(p: Pool, n: nat): (r: Option<SlotId>)
    requires n <= |p.slots| && forall i :: 0 <= i < |p.slots| ==> p.slots[i] in p.table
    ensures r.Some? ==> r.value in p.slots && p.table[r.value].job.None?
    ensures r.Some? ==> exists k :: n <= k < |p.slots| && p.slots[k] == r.value
                          && forall i :: n <= i < k ==> p.table[p.slots[i]].job.Some?
    ensures r.None? ==> forall i :: n <= i < |p.slots| ==> p.table[p.slots[i]].job.Some?
    decreases |p.slots| - n
  {
    if n == |p.slots| then None
    else if p.table[p.slots[n]].job.None? then Some(p.slots[n])
    else FirstIdle(p, n + 1)
  }

  /** The smallest slot number never used; numbers stand for distinct slot objects. */
  function FreshSlot(p: Pool): SlotId { |p.table| }

  function NewSlot(p: Pool): Pool {
    p.(slots := p.slots + [FreshSlot(p)], table := p.table[FreshSlot(p) := Slot(None, [], false, false, None)])
  }

  /** Hand the head of the queue to slot s. The send must neither block on a full channel
      nor hit a closed one. */
  function Assign(p: Pool, s: SlotId): Pool
    requires p.queue != [] && s in p.table
    requires !p.table[s].closed && p.table[s].channel == []
  {
    var j := p.queue[0];
    p.(queue := p.queue[1..],
       table := p.table[s := p.table[s].(job := Some(j), channel := [j])],
       timers := p.timers + {(s, j)})
  }

  function Dispatch(p: Pool): Pool
    requires SlotsInv(p)
    decreases |p.queue|
  {
    if p.disposed || p.queue == [] then p
    else
      var idle := FirstIdle(p, 0);
      if idle.Some? then
        AssignKeepsSlots(p, idle.value);
        Dispatch(Assign(p, idle.value))
      else if |p.slots| >= p.concurrency then p
      else
        NewSlotKeepsSlots(p);
        AssignKeepsSlots(NewSlot(p), FreshSlot(p));
        Dispatch(Assign(NewSlot(p), FreshSlot(p)))
  }

  // ---------------------------------------------------------------- critical sections

  function Settle(p: Pool, j: Job, o: Outcome): Pool { p.(results := p.results + [(j, o)]) }

  /** Submit: refused when disposed or when the queue is full. */
  function Submit(p: Pool): Pool
    requires SlotsInv(p)
  {
    if p.disposed || |p.queue| >= p.maxQueue then p
    else Dispatch(Accept(p))
  }

  function Accept(p: Pool): Pool { p.(queue := p.queue + [p.accepted], accepted := p.accepted + 1) }

  /** The goroutine of slot s takes the next job off its channel. */
  function Receive(p: Pool, s: SlotId): Pool
    requires s in p.table && p.table[s].channel != [] && p.table[s].running.None?
  {
    var slot := p.table[s];
    p.(table := p.table[s := slot.(channel := slot.channel[1..], running := Some(slot.channel[0]))])
  }

  /** finish: the late result of a retired slot is dropped. */
  function Finish(p: Pool, s: SlotId, o: Outcome): Pool
    requires SlotsInv(p) && s in p.table && p.table[s].running.Some?
  {
    var j := p.table[s].running.value;
    var slot := p.table[s].(running := None);
    if slot.gone || slot.job != Some(j) then p.(table := p.table[s := slot])
    else
      FinishKeepsSlots(p, s, o);
      Dispatch(Finished(p, s, j, o))
  }

  /** Slot s freed and its job settled. */
  function Finished(p: Pool, s: SlotId, j: Job, o: Outcome): Pool
    requires s in p.table
  {
    Settle(p.(table := p.table[s := p.table[s].(running := None, job := None)],
              failures := p.failures + if o == Value then 0 else 1), j, o)
  }

  function DropSlot(slots: seq<SlotId>, s: SlotId): (r: seq<SlotId>)
    ensures forall x :: x in r ==> x in slots
    ensures |r| <= |slots|
  {
    if slots == [] then [] else if slots[0] == s then slots[1..] else [slots[0]] + DropSlot(slots[1..], s)
  }

  /** failSlot: only the job that owns the deadline can be failed by it. */
  function FailSlot(p: Pool, s: SlotId, j: Job): Pool
    requires SlotsInv(p) && s in p.table
  {
    var slot := p.table[s];
    if slot.gone || slot.job != Some(j) then p
    else
      FailKeepsSlots(p, s, j);
      Dispatch(Retire(p, s, j))
  }

  function Retire(p: Pool, s: SlotId, j: Job): Pool
    requires s in p.table
  {
    Settle(p.(slots := DropSlot(p.slots, s),
              table := p.table[s := p.table[s].(job := None, gone := true, closed := true)],
              failures := p.failures + 1), j, TimeBudget)
  }

  function SettleAll(results: seq<(Job, Outcome)>, jobs: seq<Job>): seq<(Job, Outcome)> {
    if jobs == [] then results else SettleAll(results, jobs[..|jobs| - 1]) + [(jobs[|jobs| - 1], Stopped)]
  }

  /** The jobs of the given slots, in slot order. */
  function JobsOf(p: Pool, slots: seq<SlotId>): seq<Job>
    requires forall i :: 0 <= i < |slots| ==> slots[i] in p.table
  {
    if slots == [] then []
    else
      var rest := JobsOf(p, slots[..|slots| - 1]);
      var s := p.table[slots[|slots| - 1]];
      if s.job.Some? then rest + [s.job.value] else rest
  }

  function Dispose(p: Pool): Pool
    requires SlotsInv(p)
  {
    p.(disposed := true, queue := [], slots := [],
       results := SettleAll(SettleAll(p.results, p.queue), JobsOf(p, p.slots)),
       table := map s | s in p.table ::
                  if s in p.slots then p.table[s].(job := None, gone := true, closed := true) else p.table[s])
  }

  // ---------------------------------------------------------------- slots

  /** A live slot is open, and its channel and goroutine hold exactly its own job. */
  predicate LiveSlot(s: Slot) {
    && !s.gone && !s.closed
    && match s.job
       case None => s.channel == [] && s.running.None?
       case Some(j) => (s.channel == [j] && s.running.None?) || (s.channel == [] && s.running == Some(j))
  }

  /** A retired slot is closed and owns no job, whatever its goroutine still does. */
  predicate RetiredSlot(s: Slot) { s.gone && s.closed && s.job.None? && |s.channel| <= 1 }

  ghost predicate SlotsInv(p: Pool) {
    && (forall i, k :: 0 <= i < k < |p.slots| ==> p.slots[i] != p.slots[k])
    && (forall i :: 0 <= i < |p.slots| ==> p.slots[i] in p.table)
    && (forall s :: s in p.table ==> if s in p.slots then LiveSlot(p.table[s]) else RetiredSlot(p.table[s]))
    && (forall s :: s in p.table ==> s < |p.table|)
    && |p.slots| <= p.concurrency
  }

  lemma AssignKeepsSlots(p: Pool, s: SlotId)
    requires SlotsInv(p) && p.queue != [] && s in p.slots && p.table[s].job.None?
    ensures SlotsInv(Assign(p, s))
  {
    assert Assign(p, s).table.Keys == p.table.Keys;
  }

  lemma NewSlotKeepsSlots(p: Pool)
    requires SlotsInv(p) && |p.slots| < p.concurrency
    ensures SlotsInv(NewSlot(p))
    ensures FreshSlot(p) in NewSlot(p).slots && NewSlot(p).table[FreshSlot(p)].job.None?
  {
    var p', n := NewSlot(p), FreshSlot(p);
    assert n !in p.table;
    assert p'.table.Keys == p.table.Keys + {n};
    assert |p'.table| == |p.table| + 1;
    assert p'.slots[|p.slots|] == n;
    assert forall s :: s in p'.slots <==> s in p.slots || s == n;
  }

  lemma FinishKeepsSlots(p: Pool, s: SlotId, o: Outcome)
    requires SlotsInv(p) && s in p.table && p.table[s].running.Some?
    requires !p.table[s].gone && p.table[s].job == p.table[s].running
    ensures SlotsInv(Finished(p, s, p.table[s].running.value, o))
  {
    assert p.table[s := p.table[s].(running := None, job := None)].Keys == p.table.Keys;
  }

  lemma {:induction false} DropSlotIs(slots: seq<SlotId>, s: SlotId)
    requires forall i, k :: 0 <= i < k < |slots| ==> slots[i] != slots[k]
    ensures forall x :: x in DropSlot(slots, s) <==> x in slots && x != s
    ensures forall i, k :: 0 <= i < k < |DropSlot(slots, s)| ==> DropSlot(slots, s)[i] != DropSlot(slots, s)[k]
    ensures s in slots ==> |DropSlot(slots, s)| == |slots| - 1
  {
    if slots != [] && slots[0] != s {
      DropSlotIs(slots[1..], s);
      assert slots[0] !in DropSlot(slots[1..], s);
    }
  }

  lemma FailKeepsSlots(p: Pool, s: SlotId, j: Job)
    requires SlotsInv(p) && s in p.table && !p.table[s].gone && p.table[s].job == Some(j)
    ensures SlotsInv(Retire(p, s, j))
  {
    DropSlotIs(p.slots, s);
    var p' := Retire(p, s, j);
    assert p'.table.Keys == p.table.Keys;
    forall i | 0 <= i < |p'.slots|
      ensures p'.slots[i] in p'.table
    {
      assert p'.slots[i] in DropSlot(p.slots, s);
    }
  }

  // ---------------------------------------------------------------- jobs

  /** Every accepted job is in exactly one place: queued once, held by one live slot, or
      settled once. */
  ghost predicate JobsInv(p: Pool) {
    && (forall i :: 0 <= i < |p.queue| ==> p.queue[i] < p.accepted && !Settled(p, p.queue[i]))
    && (forall i, k :: 0 <= i < k < |p.queue| ==> p.queue[i] != p.queue[k])
    && (forall s: SlotId, j: Job :: Holds(p, s, j) ==> j < p.accepted && j !in p.queue && !Settled(p, j))
    && (forall s: SlotId, s': SlotId, j: Job :: Holds(p, s, j) && Holds(p, s', j) ==> s == s')
    && (forall i :: 0 <= i < |p.results| ==> p.results[i].0 < p.accepted)
    && (forall i, k :: 0 <= i < k < |p.results| ==> p.results[i].0 != p.results[k].0)
    && (forall j: Job :: j < p.accepted ==> j in p.queue || Settled(p, j) || exists s: SlotId :: Holds(p, s, j))
    && (p.disposed ==> p.slots == [] && p.queue == [])
    && (forall s: SlotId, j: Job :: (s, j) in p.timers ==> s in p.table)
    && (forall s: SlotId, j: Job :: Holds(p, s, j) ==> (s, j) in p.timers)
  }

  /** First come, first served: the queue is the jobs accepted last, in order of acceptance. */
  predicate OrderInv(p: Pool) {
    |p.queue| <= p.accepted && forall i :: 0 <= i < |p.queue| ==> p.queue[i] == p.accepted - |p.queue| + i
  }

  predicate Failed(o: Outcome) { o == JobError || o == TimeBudget }

  function Failures(results: seq<(Job, Outcome)>): nat {
    if results == [] then 0
    else Failures(results[..|results| - 1]) + if Failed(results[|results| - 1].1) then 1 else 0
  }

  lemma FailuresNext(results: seq<(Job, Outcome)>, j: Job, o: Outcome)
    ensures Failures(results + [(j, o)]) == Failures(results) + if Failed(o) then 1 else 0
  {
    assert (results + [(j, o)])[..|results|] == results;
  }

  /** No job waits while a slot could take it. */
  ghost predicate WorkConserving(p: Pool) {
    || p.disposed || p.queue == []
    || (|p.slots| == p.concurrency
        && forall i :: 0 <= i < |p.slots| ==> p.slots[i] in p.table && p.table[p.slots[i]].job.Some?)
  }

  ghost predicate Inv(p: Pool) {
    SlotsInv(p) && JobsInv(p) && WorkConserving(p) && OrderInv(p) && p.failures == Failures(p.results)
  }

  lemma SettleAdds(p: Pool, j: Job, o: Outcome)
    ensures forall x: Job :: Settled(Settle(p, j, o), x) <==> Settled(p, x) || x == j
  {
    var p' := Settle(p, j, o);
    assert p'.results[|p.results|].0 == j;
    forall x: Job | Settled(p, x)
      ensures Settled(p', x)
    {
      var i :| 0 <= i < |p.results| && p.results[i].0 == x;
      assert p'.results[i].0 == x;
    }
  }

  lemma SameResults(p: Pool, p': Pool)
    requires p'.results == p.results
    ensures forall x: Job :: Settled(p', x) <==> Settled(p, x)
  {
  }

  lemma AssignPlaces(p: Pool, s: SlotId, i: Job)
    requires SlotsInv(p) && JobsInv(p) && p.queue != [] && s in p.slots && p.table[s].job.None? && i < p.accepted
    ensures var p' := Assign(p, s);
            i in p'.queue || Settled(p', i) || exists x: SlotId :: Holds(p', x, i)
  {
    var p', j := Assign(p, s), p.queue[0];
    if i == j {
      assert Holds(p', s, j);
    } else if i in p.queue {
      var k :| 0 <= k < |p.queue| && p.queue[k] == i;
      assert p'.queue[k - 1] == i;
    } else if Settled(p, i) {
      assert Settled(p', i);
    } else {
      var x: SlotId :| Holds(p, x, i);
      assert Holds(p', x, i);
    }
  }

  lemma AssignHolds(p: Pool, s: SlotId, x: SlotId, i: Job)
    requires SlotsInv(p) && p.queue != [] && s in p.slots && p.table[s].job.None?
    ensures Holds(Assign(p, s), x, i) <==> (if x == s then i == p.queue[0] else Holds(p, x, i))
  {
  }

  lemma AssignKeepsJobs(p: Pool, s: SlotId)
    requires SlotsInv(p) && JobsInv(p) && !p.disposed && p.queue != [] && s in p.slots && p.table[s].job.None?
    ensures JobsInv(Assign(p, s)) && Assign(p, s).results == p.results && Assign(p, s).accepted == p.accepted
  {
    var p', j := Assign(p, s), p.queue[0];
    SameResults(p, p');
    forall x: SlotId, i: Job
      ensures Holds(p', x, i) <==> (if x == s then i == j else Holds(p, x, i))
    {
      AssignHolds(p, s, x, i);
    }
    forall i: Job | i < p.accepted
      ensures i in p'.queue || Settled(p', i) || exists x: SlotId :: Holds(p', x, i)
    {
      AssignPlaces(p, s, i);
    }
  }

  lemma NewSlotKeepsJobs(p: Pool)
    requires SlotsInv(p) && JobsInv(p) && !p.disposed
    ensures JobsInv(NewSlot(p)) && NewSlot(p).results == p.results && NewSlot(p).accepted == p.accepted
  {
    var p' := NewSlot(p);
    assert FreshSlot(p) !in p.table;
    assert forall x: Job :: Settled(p', x) <==> Settled(p, x);
    assert forall x: SlotId, i: Job :: Holds(p', x, i) <==> Holds(p, x, i);
  }

  /** Dispatching moves queued jobs to free slots, settles nothing and leaves no slot idle. */
  lemma {:induction false} DispatchKeepsJobs(p: Pool)
    requires SlotsInv(p) && JobsInv(p)
    ensures var p' := Dispatch(p);
            && SlotsInv(p') && JobsInv(p') && WorkConserving(p')
            && p'.results == p.results && p'.accepted == p.accepted && p'.concurrency == p.concurrency
    decreases |p.queue|
  {
    if !p.disposed && p.queue != [] {
      var idle := FirstIdle(p, 0);
      if idle.Some? {
        AssignKeepsSlots(p, idle.value);
        AssignKeepsJobs(p, idle.value);
        DispatchKeepsJobs(Assign(p, idle.value));
      } else if |p.slots| < p.concurrency {
        NewSlotKeepsSlots(p);
        NewSlotKeepsJobs(p);
        AssignKeepsSlots(NewSlot(p), FreshSlot(p));
        AssignKeepsJobs(NewSlot(p), FreshSlot(p));
        DispatchKeepsJobs(Assign(NewSlot(p), FreshSlot(p)));
      }
    }
  }

  /** Jobs leave the queue from its head. */
  lemma {:induction false} DispatchKeepsOrder(p: Pool)
    requires SlotsInv(p) && OrderInv(p) && p.failures == Failures(p.results)
    ensures OrderInv(Dispatch(p)) && Dispatch(p).failures == Failures(Dispatch(p).results)
    decreases |p.queue|
  {
    if !p.disposed && p.queue != [] {
      var idle := FirstIdle(p, 0);
      if idle.Some? {
        AssignKeepsSlots(p, idle.value);
        DispatchKeepsOrder(Assign(p, idle.value));
      } else if |p.slots| < p.concurrency {
        NewSlotKeepsSlots(p);
        AssignKeepsSlots(NewSlot(p), FreshSlot(p));
        DispatchKeepsOrder(Assign(NewSlot(p), FreshSlot(p)));
      }
    }
  }

  /** Every live slot holds a job. */
  ghost predicate AllBusy(p: Pool) {
    forall i :: 0 <= i < |p.slots| ==> p.slots[i] in p.table && p.table[p.slots[i]].job.Some?
  }

  /** p' is p with some queued jobs handed out: nothing under way is disturbed. */
  ghost predicate Dispatched(p: Pool, p': Pool) {
    && p.slots <= p'.slots
    && (forall s :: s in p.table ==> s in p'.table && p'.table[s].running == p.table[s].running)
    && (forall s :: s in p.table && p.table[s].job.Some? ==> p'.table[s].job == p.table[s].job)
  }

  lemma AssignDisturbsNothing(p: Pool, s: SlotId)
    requires SlotsInv(p) && p.queue != [] && s in p.slots && p.table[s].job.None?
    ensures Dispatched(p, Assign(p, s))
  {
  }

  lemma BusyStays(p: Pool, p': Pool)
    requires AllBusy(p) && Dispatched(p, p') && (p'.slots != p.slots ==> AllBusy(p'))
    ensures AllBusy(p')
  {
  }

  lemma OpenedIsBusy(p: Pool)
    requires SlotsInv(p) && AllBusy(p) && p.queue != [] && |p.slots| < p.concurrency && SlotsInv(NewSlot(p))
    ensures FreshSlot(p) !in p.table
    ensures AllBusy(Assign(NewSlot(p), FreshSlot(p))) && Dispatched(p, Assign(NewSlot(p), FreshSlot(p)))
  {
  }

  /** Dispatching disturbs no job under way, and opens a slot only when every other is busy. */
  lemma {:induction false} DispatchDisturbsNothing(p: Pool)
    requires SlotsInv(p)
    ensures Dispatched(p, Dispatch(p)) && (Dispatch(p).slots != p.slots ==> AllBusy(Dispatch(p)))
    decreases |p.queue|
  {
    if !p.disposed && p.queue != [] {
      var idle := FirstIdle(p, 0);
      if idle.Some? {
        AssignKeepsSlots(p, idle.value);
        AssignDisturbsNothing(p, idle.value);
        DispatchDisturbsNothing(Assign(p, idle.value));
      } else if |p.slots| < p.concurrency {
        NewSlotKeepsSlots(p);
        AssignKeepsSlots(NewSlot(p), FreshSlot(p));
        OpenedIsBusy(p);
        DispatchDisturbsNothing(Assign(NewSlot(p), FreshSlot(p)));
        BusyStays(Assign(NewSlot(p), FreshSlot(p)), Dispatch(p));
      }
    }
  }

  // ---------------------------------------------------------------- steps

  lemma AcceptPlaces(p: Pool, i: Job)
    requires JobsInv(p) && i < p.accepted + 1
    ensures i in Accept(p).queue || Settled(Accept(p), i) || exists x: SlotId :: Holds(Accept(p), x, i)
  {
    if i == p.accepted {
      assert Accept(p).queue[|p.queue|] == i;
    } else if i in p.queue {
      var k :| 0 <= k < |p.queue| && p.queue[k] == i;
      assert Accept(p).queue[k] == i;
    } else if Settled(p, i) {
      assert Settled(Accept(p), i);
    } else {
      var x: SlotId :| Holds(p, x, i);
      assert Holds(Accept(p), x, i);
    }
  }

  lemma AcceptKeepsJobs(p: Pool)
    requires JobsInv(p) && !p.disposed
    ensures JobsInv(Accept(p))
  {
    var p1 := Accept(p);
    assert forall x: Job :: Settled(p1, x) <==> Settled(p, x);
    assert forall x: SlotId, i: Job :: Holds(p1, x, i) <==> Holds(p, x, i);
    assert !Settled(p, p.accepted);
    forall i: Job | i < p1.accepted
      ensures i in p1.queue || Settled(p1, i) || exists x: SlotId :: Holds(p1, x, i)
    {
      AcceptPlaces(p, i);
    }
  }

  lemma AcceptKeepsSlots(p: Pool)
    requires SlotsInv(p) && OrderInv(p)
    ensures SlotsInv(Accept(p)) && OrderInv(Accept(p))
  {
  }

  lemma SubmitKeeps(p: Pool)
    requires Inv(p)
    ensures Inv(Submit(p)) && Submit(p).results == p.results
    ensures if p.disposed || |p.queue| >= p.maxQueue then Submit(p) == p else Submit(p).accepted == p.accepted + 1
  {
    if !p.disposed && |p.queue| < p.maxQueue {
      AcceptKeepsJobs(p);
      AcceptKeepsSlots(p);
      DispatchKeepsJobs(Accept(p));
      DispatchKeepsOrder(Accept(p));
    }
  }

  lemma TableOnlyKeeps(p: Pool, s: SlotId, slot: Slot)
    requires Inv(p) && s in p.table && slot.job == p.table[s].job
    requires if s in p.slots then LiveSlot(slot) else RetiredSlot(slot)
    ensures Inv(p.(table := p.table[s := slot]))
  {
    var p' := p.(table := p.table[s := slot]);
    assert p'.table.Keys == p.table.Keys;
    assert forall x: Job :: Settled(p', x) <==> Settled(p, x);
    assert forall x: SlotId, i: Job :: Holds(p', x, i) <==> Holds(p, x, i);
  }

  lemma ReceiveKeeps(p: Pool, s: SlotId)
    requires Inv(p) && s in p.table && p.table[s].channel != [] && p.table[s].running.None?
    ensures Inv(Receive(p, s)) && Receive(p, s).results == p.results
    ensures Receive(p, s).table[s].running == Some(p.table[s].channel[0]) && Receive(p, s).table[s].channel == []
  {
    var slot := p.table[s];
    TableOnlyKeeps(p, s, slot.(channel := slot.channel[1..], running := Some(slot.channel[0])));
  }

  /** Settling a slot's own job and freeing the slot keeps every other job where it is. */
  lemma FreeKeepsJobs(p: Pool, p1: Pool, s: SlotId, j: Job, o: Outcome)
    requires SlotsInv(p) && JobsInv(p) && Holds(p, s, j)
    requires p1.results == p.results + [(j, o)] && p1.accepted == p.accepted && p1.queue == p.queue
    requires p1.disposed == p.disposed && p1.timers == p.timers && p1.table.Keys == p.table.Keys
    requires forall x: SlotId, i: Job :: Holds(p1, x, i) <==> x != s && Holds(p, x, i)
    requires p.disposed ==> p1.slots == []
    ensures JobsInv(p1)
  {
    SettleAdds(p, j, o);
    assert forall x: Job :: Settled(p1, x) <==> Settled(Settle(p, j, o), x);
    forall i: Job | i < p.accepted
      ensures i in p1.queue || Settled(p1, i) || exists x: SlotId :: Holds(p1, x, i)
    {
      if i != j && i !in p.queue && !Settled(p, i) {
        var x: SlotId :| Holds(p, x, i);
        assert Holds(p1, x, i);
      }
    }
    forall i, k | 0 <= i < k < |p1.results|
      ensures p1.results[i].0 != p1.results[k].0
    {
      if k == |p.results| { assert !Settled(p, j); }
    }
  }

  lemma FinishFrees(p: Pool, s: SlotId, j: Job, o: Outcome)
    requires SlotsInv(p) && JobsInv(p) && Holds(p, s, j)
    ensures JobsInv(Finished(p, s, j, o))
  {
    FreeKeepsJobs(p, Finished(p, s, j, o), s, j, o);
  }

  lemma FinishedKeeps(p: Pool, s: SlotId, o: Outcome)
    requires Inv(p) && s in p.table && p.table[s].running.Some? && o in {Value, JobError}
    requires !p.table[s].gone && p.table[s].job == p.table[s].running
    ensures var p' := Finished(p, s, p.table[s].running.value, o);
            SlotsInv(p') && JobsInv(p') && OrderInv(p') && p'.failures == Failures(p'.results)
  {
    FinishKeepsSlots(p, s, o);
    FinishFrees(p, s, p.table[s].running.value, o);
    FailuresNext(p.results, p.table[s].running.value, o);
  }

  lemma FinishKeeps(p: Pool, s: SlotId, o: Outcome)
    requires Inv(p) && s in p.table && p.table[s].running.Some? && o in {Value, JobError}
    ensures Inv(Finish(p, s, o))
    ensures var j := p.table[s].running.value;
            Finish(p, s, o).results == if Holds(p, s, j) then p.results + [(j, o)] else p.results
  {
    var j := p.table[s].running.value;
    if p.table[s].gone || p.table[s].job != Some(j) {
      TableOnlyKeeps(p, s, p.table[s].(running := None));
    } else {
      FinishedKeeps(p, s, o);
      DispatchKeepsJobs(Finished(p, s, j, o));
      DispatchKeepsOrder(Finished(p, s, j, o));
    }
  }

  /** The slot has given its job back, and no other job under way is disturbed; a late result
      changes nothing else at all. */
  lemma FinishLeavesOthers(p: Pool, s: SlotId, o: Outcome)
    requires Inv(p) && s in p.table && p.table[s].running.Some?
    ensures var p', j := Finish(p, s, o), p.table[s].running.value;
            && s in p'.table && p'.table[s].running.None?
            && (forall x: SlotId, i: Job :: x != s && Holds(p, x, i) ==> Holds(p', x, i))
            && (!Holds(p, s, j) ==> p' == p.(table := p.table[s := p.table[s].(running := None)]))
  {
    var j := p.table[s].running.value;
    if Holds(p, s, j) {
      FinishKeepsSlots(p, s, o);
      DispatchDisturbsNothing(Finished(p, s, j, o));
    }
  }

  lemma FailKeeps(p: Pool, s: SlotId, j: Job)
    requires Inv(p) && s in p.table
    ensures Inv(FailSlot(p, s, j))
    ensures FailSlot(p, s, j).results == if Holds(p, s, j) then p.results + [(j, TimeBudget)] else p.results
    ensures !Holds(p, s, j) ==> FailSlot(p, s, j) == p
  {
    if Holds(p, s, j) {
      FailKeepsSlots(p, s, j);
      DropSlotIs(p.slots, s);
      FreeKeepsJobs(p, Retire(p, s, j), s, j, TimeBudget);
      FailuresNext(p.results, j, TimeBudget);
      DispatchKeepsJobs(Retire(p, s, j));
      DispatchKeepsOrder(Retire(p, s, j));
    }
  }

  /** The jobs of some results, in order. */
  function Jobs(results: seq<(Job, Outcome)>): (r: seq<Job>)
    ensures |r| == |results| && forall i :: 0 <= i < |r| ==> r[i] == results[i].0
  {
    seq(|results|, i requires 0 <= i < |results| => results[i].0)
  }

  /** Everything added is Stopped. */
  predicate StoppedAfter(before: seq<(Job, Outcome)>, after: seq<(Job, Outcome)>) {
    before <= after && forall i :: |before| <= i < |after| ==> after[i].1 == Stopped
  }

  lemma {:induction false} SettleAllStops(results: seq<(Job, Outcome)>, jobs: seq<Job>)
    ensures StoppedAfter(results, SettleAll(results, jobs))
    ensures Failures(SettleAll(results, jobs)) == Failures(results)
  {
    if jobs != [] {
      var n := |jobs| - 1;
      SettleAllStops(results, jobs[..n]);
      FailuresNext(SettleAll(results, jobs[..n]), jobs[n], Stopped);
    }
  }

  lemma {:induction false} SettleAllAdds(results: seq<(Job, Outcome)>, jobs: seq<Job>)
    ensures Jobs(SettleAll(results, jobs)) == Jobs(results) + jobs
  {
    if jobs != [] {
      var n := |jobs| - 1;
      SettleAllAdds(results, jobs[..n]);
      assert jobs == jobs[..n] + [jobs[n]];
      assert Jobs(results) + jobs == Jobs(results) + jobs[..n] + [jobs[n]];
    }
  }

  ghost predicate HeldIn(p: Pool, slots: seq<SlotId>, j: Job) {
    exists i :: 0 <= i < |slots| && Holds(p, slots[i], j)
  }

  lemma {:induction false} JobsOfHas(p: Pool, slots: seq<SlotId>, j: Job)
    requires SlotsInv(p) && forall i :: 0 <= i < |slots| ==> slots[i] in p.slots
    ensures j in JobsOf(p, slots) <==> HeldIn(p, slots, j)
  {
    if slots != [] {
      var n := |slots| - 1;
      JobsOfHas(p, slots[..n], j);
      if HeldIn(p, slots[..n], j) {
        var i :| 0 <= i < n && Holds(p, slots[..n][i], j);
        assert Holds(p, slots[i], j);
      }
      if HeldIn(p, slots, j) && !Holds(p, slots[n], j) {
        var i :| 0 <= i < |slots| && Holds(p, slots[i], j);
        assert Holds(p, slots[..n][i], j);
      }
    }
  }

  lemma {:induction false} JobsOfDistinct(p: Pool, slots: seq<SlotId>)
    requires SlotsInv(p) && JobsInv(p)
    requires forall i :: 0 <= i < |slots| ==> slots[i] in p.slots
    requires Distinct(slots)
    ensures Distinct(JobsOf(p, slots))
  {
    if slots != [] {
      var n := |slots| - 1;
      JobsOfDistinct(p, slots[..n]);
      if p.table[slots[n]].job.Some? {
        var j := p.table[slots[n]].job.value;
        assert Holds(p, slots[n], j);
        JobsOfHas(p, slots[..n], j);
      }
    }
  }

  /** What Dispose settles: first everything queued, then everything held. */
  lemma DisposeResults(p: Pool)
    requires SlotsInv(p)
    ensures Jobs(Dispose(p).results) == Jobs(p.results) + p.queue + JobsOf(p, p.slots)
  {
    SettleAllAdds(p.results, p.queue);
    SettleAllAdds(SettleAll(p.results, p.queue), JobsOf(p, p.slots));
  }

  lemma DisposeStops(p: Pool)
    requires SlotsInv(p)
    ensures StoppedAfter(p.results, Dispose(p).results) && Failures(Dispose(p).results) == Failures(p.results)
  {
    SettleAllStops(p.results, p.queue);
    SettleAllStops(SettleAll(p.results, p.queue), JobsOf(p, p.slots));
  }

  /** Three lists without repetitions and with nothing in common. */
  lemma JoinedDistinct(a: seq<Job>, b: seq<Job>, c: seq<Job>)
    requires Distinct(a) && Distinct(b) && Distinct(c)
    requires forall x :: x in a ==> x !in b && x !in c
    requires forall x :: x in b ==> x !in c
    ensures Distinct(a + b + c)
  {
    var all := a + b + c;
    forall i, k | 0 <= i < k < |all|
      ensures all[i] != all[k]
    {
      assert i < |a| ==> all[i] in a;
      assert |a| <= i < |a| + |b| ==> all[i] in b;
      assert |a| <= k < |a| + |b| ==> all[k] in b;
      assert k >= |a| + |b| ==> all[k] in c;
    }
  }

  lemma HeldIsAlone(p: Pool, j: Job)
    requires Inv(p) && j in JobsOf(p, p.slots)
    ensures j < p.accepted && j !in p.queue && !Settled(p, j)
  {
    JobsOfHas(p, p.slots, j);
    var i :| 0 <= i < |p.slots| && Holds(p, p.slots[i], j);
  }

  lemma DisposeDistinct(p: Pool)
    requires Inv(p)
    ensures Distinct(Jobs(Dispose(p).results))
    ensures forall j :: j in Jobs(Dispose(p).results) ==> j < p.accepted
  {
    var done, held := Jobs(p.results), JobsOf(p, p.slots);
    DisposeResults(p);
    JobsOfDistinct(p, p.slots);
    forall j | j in held
      ensures j < p.accepted && j !in p.queue && j !in done
    {
      HeldIsAlone(p, j);
    }
    forall j | j in done
      ensures j < p.accepted && j !in p.queue
    {
      var i :| 0 <= i < |done| && done[i] == j;
      assert Settled(p, j);
    }
    JoinedDistinct(done, p.queue, held);
  }

  lemma SettledIn(p: Pool, j: Job)
    ensures Settled(p, j) <==> j in Jobs(p.results)
  {
    if j in Jobs(p.results) {
      var i :| 0 <= i < |p.results| && Jobs(p.results)[i] == j;
      assert p.results[i].0 == j;
    }
    if Settled(p, j) {
      var i :| 0 <= i < |p.results| && p.results[i].0 == j;
      assert Jobs(p.results)[i] == j;
    }
  }

  lemma DisposeSettles(p: Pool, j: Job)
    requires Inv(p) && j < p.accepted
    ensures Settled(Dispose(p), j)
  {
    DisposeResults(p);
    SettledIn(p, j);
    SettledIn(Dispose(p), j);
    if !Settled(p, j) && j !in p.queue {
      var s: SlotId :| Holds(p, s, j);
      var n :| 0 <= n < |p.slots| && p.slots[n] == s;
      JobsOfHas(p, p.slots, j);
    }
  }

  lemma DisposeKeepsSlots(p: Pool)
    requires SlotsInv(p)
    ensures SlotsInv(Dispose(p))
  {
    assert Dispose(p).table.Keys == p.table.Keys;
  }

  /** Dispose stops everything that was accepted and not settled yet, and retires every slot. */
  lemma DisposeKeeps(p: Pool)
    requires Inv(p)
    ensures Inv(Dispose(p)) && Dispose(p).disposed && StoppedAfter(p.results, Dispose(p).results)
    ensures forall j: Job :: j < p.accepted ==> Settled(Dispose(p), j)
  {
    var p' := Dispose(p);
    DisposeKeepsSlots(p);
    DisposeDistinct(p);
    DisposeStops(p);
    forall i, k | 0 <= i < k < |p'.results|
      ensures p'.results[i].0 != p'.results[k].0
    {
      assert Jobs(p'.results)[i] != Jobs(p'.results)[k];
    }
    forall i | 0 <= i < |p'.results|
      ensures p'.results[i].0 < p.accepted
    {
      assert Jobs(p'.results)[i] in Jobs(p'.results);
    }
    forall j: Job | j < p.accepted
      ensures Settled(Dispose(p), j)
    {
      DisposeSettles(p, j);
    }
  }

  datatype Step =
    | SubmitStep
    | ReceiveStep(slot: SlotId)
    | FinishStep(slot: SlotId, outcome: Outcome)
    | DeadlineStep(slot: SlotId, job: Job)
    | DisposeStep

  /** A deadline callback that was ever armed may fire, however stale it is. */
  predicate Enabled(p: Pool, step: Step) {
    match step
    case SubmitStep => true
    case ReceiveStep(s) => s in p.table && p.table[s].channel != [] && p.table[s].running.None?
    case FinishStep(s, o) => s in p.table && p.table[s].running.Some? && (o == Value || o == JobError)
    case DeadlineStep(s, j) => (s, j) in p.timers && s in p.table
    case DisposeStep => true
  }

  ghost function After(p: Pool, step: Step): Pool
    requires SlotsInv(p) && Enabled(p, step)
  {
    match step
    case SubmitStep => Submit(p)
    case ReceiveStep(s) => Receive(p, s)
    case FinishStep(s, o) => Finish(p, s, o)
    case DeadlineStep(s, j) => FailSlot(p, s, j)
    case DisposeStep => Dispose(p)
  }

  lemma StepKeeps(p: Pool, step: Step)
    requires Inv(p) && Enabled(p, step)
    ensures Inv(After(p, step))
  {
    match step
    case SubmitStep => SubmitKeeps(p);
    case ReceiveStep(s) => ReceiveKeeps(p, s);
    case FinishStep(s, o) => FinishKeeps(p, s, o);
    case DeadlineStep(s, j) => FailKeeps(p, s, j);
    case DisposeStep => DisposeKeeps(p);
  }

  /** Late results and stale deadlines: a step other than Dispose settles at most the job
      that its own slot still holds, and an event that lost its slot settles nothing. */
  lemma EventsTouchOnlyTheirJob(p: Pool, step: Step)
    requires Inv(p) && Enabled(p, step) && step != DisposeStep
    ensures var r := After(p, step).results;
            match step
            case FinishStep(s, o) =>
              var j := p.table[s].running.value;
              r == if Holds(p, s, j) then p.results + [(j, o)] else p.results
            case DeadlineStep(s, j) =>
              r == (if Holds(p, s, j) then p.results + [(j, TimeBudget)] else p.results)
              && (!Holds(p, s, j) ==> After(p, step) == p)
            case _ => r == p.results
  {
    match step
    case SubmitStep => SubmitKeeps(p);
    case ReceiveStep(s) => ReceiveKeeps(p, s);
    case FinishStep(s, o) => FinishKeeps(p, s, o);
    case DeadlineStep(s, j) => FailKeeps(p, s, j);
  }

  ghost predicate Reaches(p: Pool, steps: seq<Step>, p': Pool)
    decreases |steps|
  {
    if steps == [] then p' == p
    else SlotsInv(p) && Enabled(p, steps[0]) && Reaches(After(p, steps[0]), steps[1..], p')
  }

  lemma {:induction false} RunKeeps(p: Pool, steps: seq<Step>, p': Pool)
    requires Inv(p) && Reaches(p, steps, p')
    ensures Inv(p')
    decreases |steps|
  {
    if steps != [] {
      StepKeeps(p, steps[0]);
      RunKeeps(After(p, steps[0]), steps[1..], p');
    }
  }

  lemma OneStep(p: Pool, step: Step)
    requires SlotsInv(p) && Enabled(p, step)
    ensures Reaches(p, [step], After(p, step))
  {
    assert [step][1..] == [] && Reaches(After(p, step), [], After(p, step));
  }

  /** No run is cut short: SlotsInv, which only makes the next step well defined, never fails,
      so every enabled step extends the run. */
  lemma {:induction false} RunExtends(p: Pool, steps: seq<Step>, p': Pool, step: Step)
    requires Inv(p) && Reaches(p, steps, p') && Enabled(p', step)
    ensures SlotsInv(p') && Reaches(p, steps + [step], After(p', step))
    decreases |steps|
  {
    var more := steps + [step];
    if steps == [] {
      assert more == [step];
      OneStep(p, step);
    } else {
      StepKeeps(p, steps[0]);
      RunExtends(After(p, steps[0]), steps[1..], p', step);
      assert more[1..] == steps[1..] + [step];
    }
  }

  lemma LastOnesQueue(p: Pool, j: Job)
    requires OrderInv(p) && j < p.accepted
    ensures j in p.queue <==> j >= p.accepted - |p.queue|
  {
    var first := p.accepted - |p.queue|;
    if j >= first { assert p.queue[j - first] == j; }
  }

  /** Over every run: no more slots than the limit, every accepted job in exactly one place
      and settled at most once, no queued job while a permitted slot is free, jobs leave the
      queue in order of acceptance, and failures counts the jobs that failed. */
  lemma PoolSafety(concurrency: nat, maxQueue: nat, steps: seq<Step>, p: Pool)
    requires Reaches(NewPool(concurrency, maxQueue), steps, p)
    ensures SlotsInv(p) && JobsInv(p) && WorkConserving(p) && p.failures == Failures(p.results)
    ensures forall i, k :: 0 <= i < k < |p.queue| ==> p.queue[i] < p.queue[k]
    ensures forall j: Job, i :: j < p.accepted && j !in p.queue && 0 <= i < |p.queue| ==> j < p.queue[i]
  {
    RunKeeps(NewPool(concurrency, maxQueue), steps, p);
    forall j: Job, i | j < p.accepted && j !in p.queue && 0 <= i < |p.queue|
      ensures j < p.queue[i]
    {
      LastOnesQueue(p, j);
    }
  }
}
