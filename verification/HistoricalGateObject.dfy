/** The gate's critical sections as methods over its own fields
    (internal/kite/historical_gate.go), each tied to the step of module HistoricalGate. */
module HistoricalGateObject {
  import opened Base
  import opened HistoricalGate

  class Monitor {
    const minGap: nat
    var busy: bool
    var waiting: seq<Waiter>
    var lastStart: Option<int>
    var now: int
    var calls: map<CallId, Call>
    var tickets: nat
    var starts: seq<int>

    function State(): Gate
      reads this
    {
      Gate(minGap, busy, waiting, lastStart, now, calls, tickets, starts)
    }

    constructor (minGap: nat, now: int)
      ensures State() == NewGate(minGap, now) && Inv(State())
    {
      this.minGap, this.now := minGap, now;
      busy, waiting, lastStart := false, [], None;
      calls, tickets, starts := map[], 0, [];
    }

    method Mark(id: CallId, phase: Phase)
      requires id in calls
      modifies this`calls
      ensures State() == SetPhase(old(State()), id, phase)
    {
      calls := calls[id := calls[id].(phase := phase)];
    }

    /** Where the insertion loop puts an interactive caller: behind the interactive waiters. */
    method FindPlace() returns (i: nat)
      ensures i == Lead(waiting)
    {
      i := 0;
      while i < |waiting| && !waiting[i].background
        invariant 0 <= i <= |waiting| && i + Lead(waiting[i..]) == Lead(waiting)
      {
        assert waiting[i..][1..] == waiting[i + 1..];
        i := i + 1;
      }
    }

    /** The first critical section of acquire: take a free slot, or queue ahead of every
        background caller and behind the interactive ones already waiting. */
    method Acquire(id: CallId, background: bool) returns (entered: bool)
      requires Inv(State()) && id !in calls
      modifies this`busy, this`waiting, this`calls, this`tickets
      ensures State() == Arrive(old(State()), id, background) && Inv(State())
      ensures entered == !old(busy) && busy && id in calls
      ensures if entered then Owner(State(), id) else Queued(waiting, id)
    {
      ArriveKeeps(State(), id, background);
      var w := Waiter(id, background, tickets);
      tickets := tickets + 1;
      entered := !busy;
      if entered {
        busy := true;
        calls := calls[id := Call(Entered, false)];
      } else {
        calls := calls[id := Call(Waiting, false)];
        if background {
          waiting := waiting + [w];
        } else {
          var i := FindPlace();
          waiting := waiting[..i] + [w] + waiting[i..];
        }
      }
    }

    /** release, by a caller that has given the slot up: it goes to the waiter that comes before
        all others, or the gate becomes free. */
    method Release() returns (next: Option<Waiter>)
      requires Unowned(State())
      modifies this`busy, this`waiting, this`calls
      ensures State() == HistoricalGate.Release(old(State())) && Inv(State())
      ensures next.Some? <==> busy
      ensures next.Some? ==> Owner(State(), next.value.id) && old(waiting) == [next.value] + waiting
      ensures next.Some? ==> forall i :: 0 <= i < |waiting| ==> Before(next.value, waiting[i])
    {
      ReleaseKeeps(State());
      if |waiting| > 0 {
        HeadQueued(State());
        next := Some(waiting[0]);
        waiting := waiting[1..];
        Mark(next.value.id, Handed);
      } else {
        next := None;
        busy := false;
      }
    }

    /** The cancelled branch of acquire: leave the queue, or pass on a slot handed over just now. */
    method Abandon(id: CallId)
      requires Inv(State()) && Enabled(State(), CancelWait(id))
      modifies this`busy, this`waiting, this`calls
      ensures State() == HistoricalGate.Abandon(old(State()), id) && Inv(State())
      ensures id in calls && calls[id].phase == Finished && !Queued(waiting, id) && !Owner(State(), id)
    {
      AbandonKeeps(State(), id);
      var left := LeaveQueue(id);
      Mark(id, Finished);
      if !left {
        AbandonedIsUnowned(old(State()), id);
        var next := Release();
      }
    }

    /** The search of the queue for the cancelled waiter. */
    method LeaveQueue(id: CallId) returns (left: bool)
      modifies this`waiting
      ensures left == Queued(old(waiting), id)
      ensures waiting == if left then Remove(old(waiting), id) else old(waiting)
    {
      var ws, i := waiting, 0;
      while i < |ws|
        invariant 0 <= i <= |ws| && waiting == ws
        invariant forall k :: 0 <= k < i ==> ws[k].id != id
        invariant ws[..i] + Remove(ws[i..], id) == Remove(ws, id)
      {
        if ws[i].id == id {
          assert Remove(ws[i..], id) == ws[i..][1..] == ws[i + 1..];
          waiting := ws[..i] + ws[i + 1..];
          return true;
        }
        RemoveSkips(ws, i, id);
        i := i + 1;
      }
      left := false;
    }

    /** releaseOnce: the watchdog and the end of the call run it, and only the first of them
        releases the slot. The call's own end leaves it Finished. */
    method ReleaseOnce(id: CallId, ends: bool)
      requires Inv(State()) && id in calls && Holding(calls[id])
      modifies this`busy, this`waiting, this`calls
      ensures var phase := if ends then Finished else old(calls)[id].phase;
              State() == HistoricalGate.ReleaseOnce(SetPhase(old(State()), id, phase), id)
      ensures Inv(State()) && id in calls && !Owner(State(), id)
      ensures calls[id] == Call(if ends then Finished else old(calls)[id].phase, true)
      ensures if old(calls)[id].released then busy == old(busy) && waiting == old(waiting)
              else if old(waiting) == [] then !busy
              else Owner(State(), old(waiting)[0].id) && waiting == old(waiting)[1..]
    {
      var phase := if ends then Finished else calls[id].phase;
      ReleaseOnceKeeps(State(), id, phase);
      Mark(id, phase);
      if !calls[id].released {
        calls := calls[id := calls[id].(released := true)];
        ReleasedIsUnowned(old(State()), id, phase);
        var next := Release();
      }
    }

    /** The caller reads the clock and learns when it may start. */
    method ReadGap(id: CallId, clock: int)
      requires Inv(State()) && now <= clock && id in calls && calls[id].phase == Entered
      modifies this`now, this`calls
      ensures State() == After(After(old(State()), Tick(clock - old(now))), HistoricalGate.ReadGap(id)) && Inv(State())
      ensures id in calls && calls[id].phase.Pacing? && calls[id].phase.until >= clock
      ensures lastStart.Some? ==> calls[id].phase.until - lastStart.value >= minGap
      ensures forall x :: x >= clock && KeepsGap(State(), x) ==> calls[id].phase.until <= x
      ensures lastStart.None? || clock - lastStart.value >= minGap ==> calls[id].phase.until == clock
    {
      StepKeeps(State(), Tick(clock - now));
      now := clock;
      StepKeeps(State(), HistoricalGate.ReadGap(id));
      var waited := if lastStart.Some? then minGap - (now - lastStart.value) else 0;
      Mark(id, Pacing(if waited > 0 then now + waited else now));
    }

    /** The start is stamped once the gap is over. */
    method StampStart(id: CallId, clock: int)
      requires Inv(State()) && now <= clock && id in calls && calls[id].phase.Pacing? && calls[id].phase.until <= clock
      modifies this`now, this`lastStart, this`starts, this`calls
      ensures State() == After(After(old(State()), Tick(clock - old(now))), Stamp(id)) && Inv(State())
      ensures lastStart == Some(clock) && starts == old(starts) + [clock] && id in calls && calls[id].phase == Started
    {
      StepKeeps(State(), Tick(clock - now));
      now := clock;
      StepKeeps(State(), Stamp(id));
      lastStart, starts := Some(now), starts + [now];
      Mark(id, Started);
    }

    /** The waiting caller notices that it was handed the slot. */
    method Wake(id: CallId)
      requires Inv(State()) && Enabled(State(), WakeStep(id))
      modifies this`calls
      ensures State() == After(old(State()), WakeStep(id)) && Inv(State())
      ensures id in calls && calls[id].phase == Entered && Owner(State(), id)
    {
      StepKeeps(State(), WakeStep(id));
      Mark(id, Entered);
    }
  }
}
