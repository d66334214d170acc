/** The capture queues (internal/captures/hourly.go, internal/captures/eod.go): many threads
    push rows and then call drain; whoever finds the queue undrained writes it head by head,
    and everyone else returns at once. Every step is one critical section, one store write or
    one pause. */
module Drains {
  type CallId = nat

  /** Where a thread stands: rows pushed and drain not yet called, or a place in the drain. */
  datatype Phase<Row> = Owing | Looping | Writing(row: Row) | Wrote | Pausing | GivingUp(failed: bool) | Returned

  /** The last push or drain end; left: were there rows when a cancelled pause ended a drain? */
  datatype Last = Start | Push | FoundEmpty | WriteFailed | PauseCancelled(left: bool)

  datatype State<Row> = State(
    queue: seq<Row>,
    draining: bool,
    calls: map<CallId, Phase<Row>>,
    // logs: rows pushed, rows whose write succeeded, rows taken off the queue
    pushed: seq<Row>,
    written: seq<Row>,
    removed: seq<Row>,
    last: Last,
    // has a write failed or a pause been cancelled since the last push?
    troubled: bool)

  function Fresh<Row>(): State<Row> { State([], false, map[], [], [], [], Start, false) }

  datatype Step<Row> =
    | PushStep(id: CallId, row: Row)
    | CallStep(id: CallId)
    | HeadStep(id: CallId)
    | WriteStep(id: CallId, ok: bool)
    | RemoveStep(id: CallId)
    | PauseStep(id: CallId, ok: bool)
    | ReleaseStep(id: CallId)

  /** A thread pushes any number of rows and then drains; it may come back and do so again. */
  predicate Enabled<Row>(s: State<Row>, step: Step<Row>) {
    match step
    case PushStep(id, _) => id in s.calls ==> s.calls[id].Owing? || s.calls[id].Returned?
    case CallStep(id) => id in s.calls ==> s.calls[id].Owing? || s.calls[id].Returned?
    case HeadStep(id) => id in s.calls && s.calls[id].Looping?
    case WriteStep(id, _) => id in s.calls && s.calls[id].Writing?
    case RemoveStep(id) => id in s.calls && s.calls[id].Wrote?
    case PauseStep(id, _) => id in s.calls && s.calls[id].Pausing?
    case ReleaseStep(id) => id in s.calls && s.calls[id].GivingUp?
  }

  function At<Row>(s: State<Row>, id: CallId, phase: Phase<Row>): State<Row> {
    s.(calls := s.calls[id := phase])
  }

  function After<Row>(s: State<Row>, step: Step<Row>): State<Row>
    requires Enabled(s, step)
  {
    match step
    case PushStep(id, row) =>
      At(s, id, Owing).(queue := s.queue + [row], pushed := s.pushed + [row], last := Push, troubled := false)
    case CallStep(id) => if s.draining then At(s, id, Returned) else At(s, id, Looping).(draining := true)
    case HeadStep(id) =>
      if s.queue == [] then At(s, id, Returned).(draining := false, last := FoundEmpty)
      else At(s, id, Writing(s.queue[0]))
    case WriteStep(id, ok) =>
      if ok then At(s, id, Wrote).(written := s.written + [s.calls[id].row])
      else At(s, id, GivingUp(true)).(troubled := true)
    case RemoveStep(id) =>
      var s1 := At(s, id, Pausing);
      if s.queue == [] then s1 else s1.(queue := s.queue[1..], removed := s.removed + [s.queue[0]])
    case PauseStep(id, ok) =>
      if ok then At(s, id, Looping) else At(s, id, GivingUp(false)).(troubled := true)
    case ReleaseStep(id) =>
      At(s, id, Returned).(draining := false,
                           last := if s.calls[id].failed then WriteFailed else PauseCancelled(s.queue != []))
  }

  /** Inside the drain. */
  predicate Drains<Row>(s: State<Row>, id: CallId) {
    id in s.calls && !s.calls[id].Owing? && !s.calls[id].Returned?
  }

  predicate Owes<Row>(s: State<Row>, id: CallId) { id in s.calls && s.calls[id].Owing? }

  ghost predicate OneDrainer<Row>(s: State<Row>) {
    && (s.draining <==> exists a: CallId :: Drains(s, a))
    && (forall a: CallId, b: CallId :: Drains(s, a) && Drains(s, b) ==> a == b)
  }

  /** The row a drainer at id has written and not yet taken off the queue. */
  function Unremoved<Row>(s: State<Row>, id: CallId): seq<Row> {
    if id in s.calls && s.calls[id].Wrote? then s.queue[..if s.queue == [] then 0 else 1] else []
  }

  /** The drainer works on the head; a row leaves the queue only after its own write. */
  ghost predicate HeadInv<Row>(s: State<Row>) {
    && s.pushed == s.removed + s.queue
    && (forall a: CallId :: Drains(s, a) ==>
          && (s.calls[a].Writing? ==> s.queue != [] && s.queue[0] == s.calls[a].row)
          && (s.calls[a].Wrote? ==> s.queue != [])
          && (s.calls[a] == GivingUp(true) ==> s.queue != [])
          && s.written == s.removed + Unremoved(s, a))
    && (!s.draining ==> s.written == s.removed)
  }

  /** No wakeup is lost: after a push someone is draining or still owes a drain. */
  ghost predicate WakeInv<Row>(s: State<Row>) {
    && (s.last == Push ==> s.draining || exists a: CallId :: Owes(s, a))
    && (s.last == Start || s.last == FoundEmpty ==> s.queue == [])
    && (s.last == PauseCancelled(false) ==> s.queue == [])
    && (s.last == WriteFailed || s.last == PauseCancelled(true) ==> s.draining || s.queue != [])
  }

  ghost predicate Inv<Row>(s: State<Row>) { OneDrainer(s) && HeadInv(s) && WakeInv(s) }

  lemma StepKeepsDrainer<Row>(s: State<Row>, step: Step<Row>)
    requires OneDrainer(s) && Enabled(s, step)
    ensures OneDrainer(After(s, step))
  {
    var s', id := After(s, step), step.id;
    forall a: CallId | a != id
      ensures Drains(s', a) == Drains(s, a)
    {
    }
    if Drains(s, id) {
      // the drainer itself: it goes on, or it clears the flag and returns
      assert forall a: CallId :: Drains(s, a) ==> a == id;
      assert s'.draining == Drains(s', id);
    } else if Drains(s', id) {
      // a call that found the flag clear
      assert !s.draining && s'.draining;
      assert forall a: CallId :: !Drains(s, a);
    } else {
      assert s'.draining == s.draining;
      assert forall a: CallId :: Drains(s', a) == Drains(s, a);
    }
  }

  lemma PushKeepsHead<Row>(s: State<Row>, id: CallId, row: Row)
    requires OneDrainer(s) && HeadInv(s) && Enabled(s, PushStep(id, row))
    ensures HeadInv(After(s, PushStep(id, row)))
  {
    var s' := After(s, PushStep(id, row));
    assert s.removed + (s.queue + [row]) == s.removed + s.queue + [row];
    assert !Drains(s, id) && !Drains(s', id);
    forall a: CallId | Drains(s', a)
      ensures Drains(s, a) && Unremoved(s', a) == Unremoved(s, a)
    {
    }
  }

  lemma RemoveKeepsHead<Row>(s: State<Row>, id: CallId)
    requires OneDrainer(s) && HeadInv(s) && Enabled(s, RemoveStep(id))
    ensures HeadInv(After(s, RemoveStep(id)))
  {
    var s' := After(s, RemoveStep(id));
    assert Drains(s, id) && s.queue == [s.queue[0]] + s.queue[1..] && Unremoved(s, id) == [s.queue[0]];
    assert forall a: CallId :: Drains(s', a) ==> Drains(s, a);
    assert Unremoved(s', id) == [];
  }

  lemma WriteKeepsHead<Row>(s: State<Row>, id: CallId, ok: bool)
    requires OneDrainer(s) && HeadInv(s) && Enabled(s, WriteStep(id, ok))
    ensures HeadInv(After(s, WriteStep(id, ok)))
  {
    var s' := After(s, WriteStep(id, ok));
    assert Drains(s, id) && Unremoved(s, id) == [];
    assert forall a: CallId :: Drains(s', a) ==> Drains(s, a);
    assert Unremoved(s', id) == if ok then [s.queue[0]] else [];
  }

  lemma StepKeepsHead<Row>(s: State<Row>, step: Step<Row>)
    requires OneDrainer(s) && HeadInv(s) && Enabled(s, step)
    ensures HeadInv(After(s, step))
  {
    match step
    case PushStep(id, row) => PushKeepsHead(s, id, row);
    case RemoveStep(id) => RemoveKeepsHead(s, id);
    case WriteStep(id, ok) => WriteKeepsHead(s, id, ok);
    case _ =>
      StepKeepsDrainer(s, step);
      assert forall a: CallId :: a != step.id ==> Drains(After(s, step), a) == Drains(s, a);
      assert Drains(s, step.id) ==> Unremoved(s, step.id) == [];
  }

  lemma StepKeepsWake<Row>(s: State<Row>, step: Step<Row>)
    requires Inv(s) && Enabled(s, step)
    ensures WakeInv(After(s, step))
  {
    var s', id := After(s, step), step.id;
    match step
    case PushStep(_, _) => assert Owes(s', id);
    case CallStep(_) => assert s'.draining;
    case _ =>
      assert Drains(s, id);
  }

  ghost predicate Reaches<Row>(s: State<Row>, steps: seq<Step<Row>>, s': State<Row>)
    decreases |steps|
  {
    if steps == [] then s' == s
    else Enabled(s, steps[0]) && Reaches(After(s, steps[0]), steps[1..], s')
  }

  lemma {:induction false} RunKeeps<Row>(s: State<Row>, steps: seq<Step<Row>>, s': State<Row>)
    requires Inv(s) && Reaches(s, steps, s')
    ensures Inv(s')
    decreases |steps|
  {
    if steps != [] {
      StepKeepsDrainer(s, steps[0]);
      StepKeepsHead(s, steps[0]);
      StepKeepsWake(s, steps[0]);
      RunKeeps(After(s, steps[0]), steps[1..], s');
    }
  }

  /** Every drain call has returned and no pusher still owes one. */
  ghost predicate Quiescent<Row>(s: State<Row>) {
    forall a: CallId :: a in s.calls ==> s.calls[a].Returned?
  }

  lemma FreshInv<Row>()
    ensures Inv<Row>(Fresh())
  {
    assert forall a: CallId :: !Drains<Row>(Fresh(), a);
  }

  /** In every interleaving there is one drainer at a time, rows are written in push order,
      and the rows written are those gone from the queue plus at most the head. */
  lemma DrainOrder<Row>(steps: seq<Step<Row>>, s: State<Row>)
    requires Reaches(Fresh(), steps, s)
    ensures forall a: CallId, b: CallId :: Drains(s, a) && Drains(s, b) ==> a == b
    ensures s.pushed == s.removed + s.queue
    ensures s.removed <= s.written <= s.pushed && |s.written| <= |s.removed| + 1
  {
    FreshInv<Row>();
    RunKeeps(Fresh(), steps, s);
    if s.draining {
      var a: CallId :| Drains(s, a);
      assert s.pushed == s.removed + s.queue;
      assert s.queue != [] ==> s.queue == [s.queue[0]] + s.queue[1..];
    }
  }

  /** Once everyone has returned, the queue is empty exactly when the last thing to happen
      among pushes and drain ends was a drain that found nothing or left nothing: no row waits
      for a wakeup, and rows are left only by a drain that gave up with nothing pushed since. */
  lemma NothingIsLost<Row>(steps: seq<Step<Row>>, s: State<Row>)
    requires Reaches(Fresh(), steps, s) && Quiescent(s)
    ensures s.last != Push && s.written == s.removed
    ensures s.queue == [] <==> s.last.Start? || s.last.FoundEmpty? || s.last == PauseCancelled(false)
  {
    FreshInv<Row>();
    RunKeeps(Fresh(), steps, s);
    assert !s.draining;
  }

  /** A push is a push: the row joins the queue and nobody drains any less. */
  lemma PushAdds<Row>(s: State<Row>, id: CallId, row: Row)
    requires Enabled(s, PushStep(id, row))
    ensures var s' := After(s, PushStep(id, row));
            && s'.pushed == s.pushed + [row] && s'.queue == s.queue + [row] && Owes(s', id)
            && s'.draining == s.draining && s'.written == s.written && s'.removed == s.removed
  {
  }

  /** One row written, taken off and paused after, when nothing goes wrong. */
  lemma OneRow<Row>(s: State<Row>, a: CallId) returns (s': State<Row>, steps: seq<Step<Row>>)
    requires s.queue != [] && s.draining && a in s.calls && s.calls[a].Looping?
    ensures Reaches(s, steps, s') && AllWell(steps)
    ensures s'.queue == s.queue[1..] && s'.written == s.written + [s.queue[0]]
    ensures s'.draining && s'.calls == s.calls && s'.troubled == s.troubled
  {
    var s1 := After(s, HeadStep(a));
    var s2 := After(s1, WriteStep(a, true));
    var s3 := After(s2, RemoveStep(a));
    s' := After(s3, PauseStep(a, true));
    assert s'.calls == s.calls;
    Prepend(s3, PauseStep(a, true), [], s');
    Prepend(s2, RemoveStep(a), [PauseStep(a, true)] + [], s');
    Prepend(s1, WriteStep(a, true), [RemoveStep(a)] + ([PauseStep(a, true)] + []), s');
    steps := [HeadStep(a)] + ([WriteStep(a, true)] + ([RemoveStep(a)] + ([PauseStep(a, true)] + [])));
    Prepend(s, HeadStep(a), [WriteStep(a, true)] + ([RemoveStep(a)] + ([PauseStep(a, true)] + [])), s');
  }

  /** No write fails and no pause is cancelled. */
  predicate AllWell<Row>(steps: seq<Step<Row>>) {
    forall i :: 0 <= i < |steps| ==> (steps[i].WriteStep? || steps[i].PauseStep? ==> steps[i].ok)
  }

  lemma {:induction false} ReachesOn<Row>(
    s: State<Row>, a: seq<Step<Row>>, m: State<Row>, b: seq<Step<Row>>, s': State<Row>)
    requires Reaches(s, a, m) && Reaches(m, b, s')
    ensures Reaches(s, a + b, s')
    decreases |a|
  {
    if a == [] {
      assert a + b == b;
    } else {
      ReachesOn(After(s, a[0]), a[1..], m, b, s');
      assert (a + b)[1..] == a[1..] + b;
    }
  }

  /** While nothing goes wrong a drain writes everything queued, in order, and ends by finding
      the queue empty. */
  lemma {:induction false} DrainWritesAll<Row>(s: State<Row>, a: CallId) returns (s': State<Row>, steps: seq<Step<Row>>)
    requires s.draining && a in s.calls && s.calls[a].Looping?
    ensures Reaches(s, steps, s') && AllWell(steps)
    ensures s'.queue == [] && s'.written == s.written + s.queue
    ensures !s'.draining && s'.last == FoundEmpty && s'.calls == s.calls[a := Returned]
    decreases |s.queue|
  {
    if s.queue == [] {
      s' := After(s, HeadStep(a));
      steps := [HeadStep(a)] + [];
      Prepend(s, HeadStep(a), [], s');
    } else {
      var m, first := OneRow(s, a);
      var rest;
      s', rest := DrainWritesAll(m, a);
      steps := first + rest;
      ReachesOn(s, first, m, rest, s');
      assert s.written + [s.queue[0]] + s.queue[1..] == s.written + s.queue;
    }
  }

  lemma CancelledAfter<Row>(s: State<Row>, a: CallId)
    requires a in s.calls && s.calls[a].Pausing?
    ensures var s' := After(After(s, PauseStep(a, false)), ReleaseStep(a));
            Reaches(s, [PauseStep(a, false)] + [ReleaseStep(a)], s')
  {
    var s1 := After(s, PauseStep(a, false));
    var last: seq<Step<Row>> := [ReleaseStep(a)];
    assert last + [] == last;
    Prepend(s1, ReleaseStep(a), [], After(s1, ReleaseStep(a)));
    Prepend(s, PauseStep(a, false), [ReleaseStep(a)], After(s1, ReleaseStep(a)));
  }

  /** A drain that pushes its rows, writes the first and is cancelled in the pause after it. */
  lemma CancelledRun<Row>(s: State<Row>, a: CallId) returns (s': State<Row>)
    requires s.queue != [] && !s.draining && a in s.calls && s.calls[a].Owing?
    ensures exists steps :: Reaches(s, steps, s')
    ensures s'.queue == s.queue[1..] && s'.calls == s.calls[a := Returned] && s'.last == PauseCancelled(s'.queue != [])
  {
    var s1 := After(s, CallStep(a));
    var s2 := After(s1, HeadStep(a));
    var s3 := After(s2, WriteStep(a, true));
    var s4 := After(s3, RemoveStep(a));
    s' := After(After(s4, PauseStep(a, false)), ReleaseStep(a));
    var r4: seq<Step<Row>> := [PauseStep(a, false)] + [ReleaseStep(a)];
    CancelledAfter(s4, a);
    var r3 := [RemoveStep(a)] + r4;
    Prepend(s3, RemoveStep(a), r4, s');
    var r2 := [WriteStep(a, true)] + r3;
    Prepend(s2, WriteStep(a, true), r3, s');
    var r1 := [HeadStep(a)] + r2;
    Prepend(s1, HeadStep(a), r2, s');
    Prepend(s, CallStep(a), r1, s');
  }

  /** A cancelled pause may leave rows behind and may not: both happen. */
  lemma CancelledBothWays<Row>(first: Row, second: Row, left: bool)
    ensures exists steps, s: State<Row> ::
              Reaches(Fresh(), steps, s) && Quiescent(s) && s.last == PauseCancelled(left)
  {
    var a: CallId := 0;
    var s1 := After(Fresh(), PushStep(a, first));
    if left {
      var s2 := After(s1, PushStep(a, second));
      var s := CancelledRun(s2, a);
      var rest :| Reaches(s2, rest, s);
      Prepend(s1, PushStep(a, second), rest, s);
      Prepend(Fresh(), PushStep(a, first), [PushStep(a, second)] + rest, s);
    } else {
      var s := CancelledRun(s1, a);
      var rest :| Reaches(s1, rest, s);
      Prepend(Fresh(), PushStep(a, first), rest, s);
    }
  }

  /** A drainer whose first write has failed and who has yet to release. */
  function Failing<Row>(first: Row): State<Row> {
    State([first], true, map[0 := GivingUp(true)], [first], [], [], Push, true)
  }

  lemma ReachesFailing<Row>(first: Row, rest: seq<Step<Row>>, s': State<Row>)
    requires Reaches(Failing(first), rest, s')
    ensures exists steps :: Reaches(Fresh(), steps, s')
  {
    var a: CallId := 0;
    var s1 := After(Fresh(), PushStep(a, first));
    var s2 := After(s1, CallStep(a));
    var s3 := After(s2, HeadStep(a));
    assert After(s3, WriteStep(a, false)) == Failing(first);
    var r3 := [WriteStep(a, false)] + rest;
    Prepend(s3, WriteStep(a, false), rest, s');
    var r2 := [HeadStep(a)] + r3;
    Prepend(s2, HeadStep(a), r3, s');
    var r1 := [CallStep(a)] + r2;
    Prepend(s1, CallStep(a), r2, s');
    Prepend(Fresh(), PushStep(a, first), r1, s');
  }

  lemma FailingStrands<Row>(first: Row, second: Row) returns (steps: seq<Step<Row>>, s': State<Row>)
    ensures Reaches(Failing(first), steps, s')
    ensures Quiescent(s') && !s'.troubled && s'.queue == [first, second]
  {
    var b: CallId := 1;
    var s1 := After(Failing(first), PushStep(b, second));
    var s2 := After(s1, CallStep(b));
    s' := After(s2, ReleaseStep(0));
    var r2: seq<Step<Row>> := [ReleaseStep(0)];
    assert r2[1..] == [] && Reaches(s', [], s') && Reaches(s2, r2, s');
    var r1 := [CallStep(b)] + r2;
    Prepend(s1, CallStep(b), r2, s');
    steps := [PushStep(b, second)] + r1;
    Prepend(Failing(first), PushStep(b, second), r1, s');
  }

  /** Timing the failure at the write instead of at the release is not enough: a row pushed
      between the two finds the queue still draining, its pusher's drain returns at once, and
      the release leaves it there with no failure after the push. */
  lemma FailureBeforePushStrands<Row>(first: Row, second: Row)
    ensures exists steps, s: State<Row> ::
              Reaches(Fresh(), steps, s) && Quiescent(s) && !s.troubled && s.queue == [first, second]
  {
    var rest, s := FailingStrands(first, second);
    ReachesFailing(first, rest, s);
  }

  lemma Prepend<Row>(s: State<Row>, step: Step<Row>, rest: seq<Step<Row>>, s': State<Row>)
    requires Enabled(s, step) && Reaches(After(s, step), rest, s')
    ensures Reaches(s, [step] + rest, s')
  {
    assert ([step] + rest)[1..] == rest;
  }

  // ---------------------------------------------------------------- the object

  /** The first of writes 0.. to fail, at most n. */
  function FirstFailure(ok: nat -> bool, from: nat, n: nat): nat
    requires from <= n
    decreases n - from
  {
    if from == n || !ok(from) then from else FirstFailure(ok, from + 1, n)
  }

  class CaptureQueue<Row> {
    var pendingWrites: seq<Row>
    var draining: bool
    var stored: seq<Row>
    ghost var pushed: seq<Row>

    /** Every row pushed is stored or still queued, in push order. */
    ghost predicate Valid()
      reads this
    {
      pushed == stored + pendingWrites
    }

    constructor ()
      ensures Valid() && pushed == [] && !draining
    {
      pendingWrites, draining, stored, pushed := [], false, [], [];
    }

    method Push(row: Row)
      requires Valid()
      modifies this`pendingWrites, this`pushed
      ensures Valid() && pushed == old(pushed) + [row]
    {
      pendingWrites := pendingWrites + [row];
      pushed := pushed + [row];
    }

    /** DrainCacheToDB with nobody else about; ok gives each write's outcome and pause says
        after how many writes a pause is cancelled. Nothing is lost, and exactly the rows
        before the first failure or cancelled pause are gone. */
    method DrainCacheToDB(ok: nat -> bool, pause: nat)
      requires Valid()
      modifies this`pendingWrites, this`draining, this`stored
      ensures Valid()
      ensures old(draining) ==> pendingWrites == old(pendingWrites) && stored == old(stored) && draining
      ensures !old(draining) ==>
                var all := old(pendingWrites);
                var failure := FirstFailure(ok, 0, |all|);
                var k := if pause < failure then pause + 1 else failure;
                !draining && k <= |all| && stored == old(stored) + all[..k] && pendingWrites == all[k..]
    {
      if draining { return; }
      draining := true;
      ghost var all := pendingWrites;
      assert all[..0] == [];
      var k := 0;
      while |pendingWrites| > 0
        invariant draining && k <= |all| && k <= pause
        invariant pendingWrites == all[k..] && stored == old(stored) + all[..k] && pushed == old(stored) + all
        invariant FirstFailure(ok, k, |all|) == FirstFailure(ok, 0, |all|)
        decreases |pendingWrites|
      {
        var row := pendingWrites[0];
        if !ok(k) {
          Conserved(old(stored), all, k);
          draining := false;
          return;
        }
        stored := stored + [row];
        pendingWrites := pendingWrites[1..];
        assert all[..k + 1] == all[..k] + [all[k]];
        k := k + 1;
        FailureLater(ok, k, |all|);
        if k == pause + 1 {
          Conserved(old(stored), all, k);
          draining := false;
          return;
        }
      }
      Conserved(old(stored), all, k);
      draining := false;
    }
  }

  lemma Conserved<Row>(stored: seq<Row>, all: seq<Row>, k: nat)
    requires k <= |all|
    ensures stored + all == (stored + all[..k]) + all[k..]
  {
    assert all == all[..k] + all[k..];
  }

  lemma {:induction false} FailureLater(ok: nat -> bool, from: nat, n: nat)
    requires from <= n
    ensures from <= FirstFailure(ok, from, n) <= n
    ensures forall i :: from <= i < FirstFailure(ok, from, n) ==> ok(i)
    ensures FirstFailure(ok, from, n) < n ==> !ok(FirstFailure(ok, from, n))
    decreases n - from
  {
    if from < n && ok(from) { FailureLater(ok, from + 1, n); }
  }
}
