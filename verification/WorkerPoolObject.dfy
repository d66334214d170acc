/** The worker pool's critical sections as methods over its own fields
    (internal/fairvalue/workers.go), each tied to the step of module WorkerPool. */
module WorkerPoolObject {
  import opened Base
  import opened WorkerPool

  class Workers {
    const concurrency: nat
    const maxQueue: nat
    var slots: seq<SlotId>
    var table: map<SlotId, Slot>
    var queue: seq<Job>
    var disposed: bool
    var failures: nat
    var accepted: nat
    var results: seq<(Job, Outcome)>
    var timers: set<(SlotId, Job)>

    function State(): Pool
      reads this
    {
      Pool(concurrency, maxQueue, slots, table, queue, disposed, failures, accepted, results, timers)
    }

    constructor (concurrency: nat, maxQueue: nat)
      ensures State() == NewPool(concurrency, maxQueue) && Inv(State())
    {
      this.concurrency, this.maxQueue := concurrency, maxQueue;
      slots, table, queue := [], map[], [];
      disposed, failures, accepted := false, 0, 0;
      results, timers := [], {};
    }

    /** The idle slot the dispatch loop picks, the first in slot order. */
    method FindIdle() returns (slot: Option<SlotId>)
      requires SlotsInv(State())
      ensures slot == FirstIdle(State(), 0)
    {
      slot := None;
      var i := 0;
      while i < |slots|
        invariant 0 <= i <= |slots| && FirstIdle(State(), 0) == FirstIdle(State(), i)
      {
        if table[slots[i]].job.None? { return Some(slots[i]); }
        i := i + 1;
      }
    }

    /** newSlotLocked, within the limit: a slot that was never in use, idle and open, with an
        empty channel, so that a send to it cannot block; no other slot is touched. */
    method OpenSlot() returns (s: SlotId)
      requires SlotsInv(State()) && |slots| < concurrency
      modifies this`slots, this`table
      ensures s == FreshSlot(old(State())) && State() == NewSlot(old(State())) && SlotsInv(State())
      ensures s !in old(table) && s in slots && LiveSlot(table[s]) && table[s].job.None? && table[s].channel == []
      ensures forall x :: x in old(table) ==> x in table && table[x] == old(table)[x]
    {
      NewSlotKeepsSlots(State());
      s := |table|;
      table := table[s := Slot(None, [], false, false, None)];
      slots := slots + [s];
    }

    /** Give slot s the head of the queue and arm its deadline. */
    method AssignHead(s: SlotId)
      requires |queue| > 0 && s in table && !table[s].closed && table[s].channel == []
      modifies this`table, this`queue, this`timers
      ensures State() == Assign(old(State()), s)
    {
      var j := queue[0];
      queue := queue[1..];
      timers := timers + {(s, j)};
      assert table[s].channel + [j] == [j];
      table := table[s := table[s].(job := Some(j), channel := table[s].channel + [j])];
    }

    /** dispatchLocked: feed free slots from the head of the queue, opening slots up to the limit. */
    method DispatchLocked()
      requires SlotsInv(State())
      modifies this`slots, this`table, this`queue, this`timers
      ensures State() == Dispatch(old(State())) && SlotsInv(State())
    {
      if disposed { return; }
      while |queue| > 0
        invariant SlotsInv(State()) && !disposed
        invariant Dispatch(State()) == Dispatch(old(State()))
        decreases |queue|
      {
        ghost var p := State();
        var slot := FindIdle();
        var s;
        if slot.None? {
          if |slots| >= concurrency { return; }
          s := OpenSlot();
        } else {
          s := slot.value;
        }
        AssignKeepsSlots(State(), s);
        AssignHead(s);
      }
    }

    method TakeIn()
      modifies this`queue, this`accepted
      ensures State() == Accept(old(State()))
    {
      queue, accepted := queue + [accepted], accepted + 1;
    }

    /** The critical section of Submit: a job is accepted unless the pool is disposed or the
        queue is full. */
    method Submit() returns (job: Option<Job>)
      requires Inv(State())
      modifies this
      ensures State() == WorkerPool.Submit(old(State())) && Inv(State())
      ensures job == if old(disposed) || |old(queue)| >= maxQueue then None else Some(old(accepted))
    {
      SubmitKeeps(State());
      if disposed { return None; }
      if |queue| >= maxQueue { return None; }
      job := Some(accepted);
      TakeIn();
      DispatchLocked();
    }

    /** failSlot: a deadline retires its slot only while its own job is still there. */
    method FailSlot(s: SlotId, j: Job)
      requires Inv(State()) && s in table
      modifies this
      ensures State() == WorkerPool.FailSlot(old(State()), s, j) && Inv(State())
    {
      FailKeeps(State(), s, j);
      if table[s].gone || table[s].job != Some(j) { return; }
      FailKeepsSlots(State(), s, j);
      RetireSlot(s, j);
      DispatchLocked();
    }

    method RetireSlot(s: SlotId, j: Job)
      requires s in table
      modifies this`slots, this`table, this`failures, this`results
      ensures State() == Retire(old(State()), s, j)
    {
      failures := failures + 1;
      slots := DropSlot(slots, s);
      results := results + [(j, TimeBudget)];
      table := table[s := table[s].(gone := true, job := None, closed := true)];
    }

    /** finish: called by slot s's goroutine with the outcome of the job it ran. */
    method Finish(s: SlotId, o: Outcome)
      requires Inv(State()) && s in table && table[s].running.Some? && o in {Value, JobError}
      modifies this
      ensures State() == WorkerPool.Finish(old(State()), s, o) && Inv(State())
    {
      FinishKeeps(State(), s, o);
      var j := table[s].running.value;
      if table[s].gone || table[s].job != Some(j) {
        table := table[s := table[s].(running := None)];
        return;
      }
      FinishKeepsSlots(State(), s, o);
      FreeSlot(s, j, o);
      DispatchLocked();
    }

    method FreeSlot(s: SlotId, j: Job, o: Outcome)
      requires s in table
      modifies this`table, this`failures, this`results
      ensures State() == Finished(old(State()), s, j, o)
    {
      table := table[s := table[s].(running := None, job := None)];
      failures := failures + if o == Value then 0 else 1;
      results := results + [(j, o)];
    }

    /** The settling half of Dispose: queued jobs first, then those in slots. */
    method SettleEverything()
      requires SlotsInv(State())
      modifies this`results
      ensures results == SettleAll(SettleAll(old(results), queue), JobsOf(State(), slots))
    {
      for i := 0 to |queue|
        invariant results == SettleAll(old(results), queue[..i])
      {
        assert queue[..i + 1][..i] == queue[..i];
        results := results + [(queue[i], Stopped)];
      }
      assert queue[..|queue|] == queue;
      ghost var first, p := results, State();
      for i := 0 to |slots|
        invariant results == SettleAll(first, JobsOf(p, slots[..i]))
      {
        assert slots[..i + 1][..i] == slots[..i];
        if table[slots[i]].job.Some? {
          ghost var done := JobsOf(p, slots[..i]);
          assert (done + [table[slots[i]].job.value])[..|done|] == done;
          results := results + [(table[slots[i]].job.value, Stopped)];
        }
      }
      assert slots[..|slots|] == slots;
      JobsOfSame(p, State(), slots);
    }

    /** Dispose: reject queued and running jobs and retire every slot. */
    method Dispose()
      requires Inv(State())
      modifies this
      ensures State() == WorkerPool.Dispose(old(State())) && Inv(State())
    {
      DisposeKeeps(State());
      disposed := true;
      SettleEverything();
      JobsOfSame(State(), old(State()), slots);
      table := map s | s in table ::
        if s in slots then table[s].(job := None, gone := true, closed := true) else table[s];
      queue, slots := [], [];
    }
  }

  lemma {:induction false} JobsOfSame(p: Pool, q: Pool, slots: seq<SlotId>)
    requires p.table == q.table && forall i :: 0 <= i < |slots| ==> slots[i] in p.table
    ensures JobsOf(p, slots) == JobsOf(q, slots)
  {
    if slots != [] { JobsOfSame(p, q, slots[..|slots| - 1]); }
  }
}
