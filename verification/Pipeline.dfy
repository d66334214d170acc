/** The write-behind pipeline over time: pending writes, the batch in flight and the store
    (internal/analytics/writebehind.go), with flushes that may fail anywhere. */
module Pipeline {
  import opened Base
  import opened WriteBehind

  datatype Pipe<V> = Pipe(pending: Buffer<V>, inFlight: Option<Buffer<V>>, store: Store<V>)

  predicate ValidPipe<V>(p: Pipe<V>) {
    ValidBuffer(p.pending) && (p.inFlight.Some? ==> ValidBuffer(p.inFlight.value))
  }

  function Sending<V>(p: Pipe<V>): Buffer<V> {
    if p.inFlight.Some? then p.inFlight.value else EmptyBuffer()
  }

  /** What (key, field) will hold once everything in flight and pending has been written. */
  function View<V>(p: Pipe<V>, key: Key, field: int): Option<V> {
    Overlay(p.pending, key, field, Overlay(Sending(p), key, field, Stored(p.store, key, field)))
  }

  function ViewPlain<V>(p: Pipe<V>, key: Key): Option<V> {
    OverlayPlain(p.pending, key, OverlayPlain(Sending(p), key, StoredPlain(p.store, key)))
  }

  function PutField<V>(p: Pipe<V>, key: Key, field: int, value: V, maxFields: nat): Pipe<V> {
    p.(pending := QueueField(p.pending, key, field, value, maxFields))
  }

  function DropFields<V>(p: Pipe<V>, key: Key, fields: set<int>): Pipe<V> {
    p.(pending := QueueDrop(p.pending, key, fields))
  }

  function PutPlain<V>(p: Pipe<V>, key: Key, value: V): Pipe<V> {
    p.(pending := QueuePlain(p.pending, key, value))
  }

  function BeginFlush<V>(p: Pipe<V>): Pipe<V>
    requires p.inFlight.None?
  {
    Pipe(EmptyBuffer(), Some(p.pending), p.store)
  }

  function FlushDone<V>(p: Pipe<V>, store: Store<V>): Pipe<V> {
    Pipe(p.pending, None, store)
  }

  function FlushFailed<V>(p: Pipe<V>, store: Store<V>): Pipe<V> {
    Pipe(Requeue(Sending(p), p.pending), None, store)
  }

  /** The fields of key that the backlog cap gives up when the flush in flight fails. */
  function CapLoss<V>(p: Pipe<V>, key: Key): set<int> {
    var m := Merge(Sending(p), p.pending);
    if key in m.hashes then Excess(m.hashes[key]) else {}
  }

  lemma PutFieldView<V>(p: Pipe<V>, key: Key, field: int, value: V, maxFields: nat)
    requires ValidPipe(p) && maxFields > 0
    ensures var p' := PutField(p, key, field, value, maxFields);
            && ValidPipe(p')
            && (forall k, f :: View(p', k, f) == if k == key && f == field then Some(value) else View(p, k, f))
            && (forall k :: ViewPlain(p', k) == ViewPlain(p, k))
  {
    if key in p.pending.hashes { assert ValidHash(p.pending.hashes[key]); }
    var h := PutField(p, key, field, value, maxFields).pending.hashes[key];
    assert field in h.entries.Keys;
  }

  lemma DropFieldsView<V>(p: Pipe<V>, key: Key, fields: set<int>)
    requires ValidPipe(p)
    ensures var p' := DropFields(p, key, fields);
            && ValidPipe(p')
            && (forall k, f :: View(p', k, f) == if k == key && f in fields then None else View(p, k, f))
            && (forall k :: ViewPlain(p', k) == ViewPlain(p, k))
  {
    if fields != {} {
      var p' := DropFields(p, key, fields);
      if key in p.pending.hashes { assert ValidHash(p.pending.hashes[key]); }
      assert Pick(fields) in p'.pending.hashes[key].stale;
      assert ValidHash(p'.pending.hashes[key]);
    }
  }

  lemma PutPlainView<V>(p: Pipe<V>, key: Key, value: V)
    requires ValidPipe(p)
    ensures var p' := PutPlain(p, key, value);
            && ValidPipe(p')
            && (forall k, f :: View(p', k, f) == View(p, k, f))
            && (forall k :: ViewPlain(p', k) == if k == key then Some(value) else ViewPlain(p, k))
  {
  }

  /** Detaching the buffer changes nothing a reader of the finished pipeline would see. */
  lemma BeginFlushView<V>(p: Pipe<V>)
    requires ValidPipe(p) && p.inFlight.None?
    ensures ValidPipe(BeginFlush(p)) && !HasPending(BeginFlush(p).pending) && Sending(BeginFlush(p)) == p.pending
    ensures forall k, f :: View(BeginFlush(p), k, f) == View(p, k, f)
    ensures forall k :: ViewPlain(BeginFlush(p), k) == ViewPlain(p, k)
  {
  }

  lemma FlushDoneView<V>(p: Pipe<V>, store: Store<V>)
    requires ValidPipe(p) && FullyApplied(p.store, Sending(p), store)
    ensures ValidPipe(FlushDone(p, store)) && FlushDone(p, store).inFlight.None? && FlushDone(p, store).store == store
    ensures forall k, f :: View(FlushDone(p, store), k, f) == View(p, k, f)
    ensures forall k :: ViewPlain(FlushDone(p, store), k) == ViewPlain(p, k)
  {
  }

  /** A flush that fails after any part of it took effect loses only what the cap gives up. */
  lemma FlushFailedView<V>(p: Pipe<V>, store: Store<V>, k: Key, f: int)
    requires ValidPipe(p) && PartlyApplied(p.store, Sending(p), store)
    ensures View(FlushFailed(p, store), k, f)
         == if f in CapLoss(p, k) then Stored(store, k, f) else View(p, k, f)
    ensures ViewPlain(FlushFailed(p, store), k) == ViewPlain(p, k)
  {
    MergeValid(Sending(p), p.pending);
    MergeRefines(p.store, Sending(p), p.pending, store, k, f);
    CapLosesExactly(Merge(Sending(p), p.pending), k, f, Stored(store, k, f));
  }

  lemma FlushFailedValid<V>(p: Pipe<V>, store: Store<V>)
    requires ValidPipe(p)
    ensures ValidPipe(FlushFailed(p, store))
  {
    MergeValid(Sending(p), p.pending);
    CapValid(Merge(Sending(p), p.pending));
  }

  /** What the cap gives up: nothing while the backlog fits; otherwise exactly the
      numerically smallest buffered fields, leaving exactly maxFields of them. */
  lemma CapLossExact<V>(p: Pipe<V>, store: Store<V>, key: Key)
    requires ValidPipe(p) && key in Merge(Sending(p), p.pending).hashes
    ensures var h := Merge(Sending(p), p.pending).hashes[key];
            var h' := FlushFailed(p, store).pending.hashes[key];
            && h'.entries.Keys == h.entries.Keys - CapLoss(p, key)
            && CapLoss(p, key) <= h.entries.Keys
            && h'.stale == h.stale
            && |h'.entries| <= h.maxFields
            && |CapLoss(p, key)| == Max(0, |h.entries| - h.maxFields)
            && (forall lost, kept :: lost in CapLoss(p, key) && kept in h'.entries ==> lost < kept)
  {
    CapHashSize(Merge(Sending(p), p.pending).hashes[key]);
  }

  // ---------------------------------------------------------------- whole runs

  /** The pipeline beside the store that would result from applying every queued event at
      once, and the fields the cap has given up since they were last queued. */
  datatype System<V> = System(pipe: Pipe<V>, intended: Store<V>, lost: set<(Key, int)>)

  datatype Step<V> =
    | Put(key: Key, field: int, value: V, maxFields: nat)
    | Drop(key: Key, fields: set<int>)
    | Plain(key: Key, value: V)
    | Begin
    | Done(store: Store<V>)
    | Failed(store: Store<V>)

  ghost predicate Enabled<V>(s: System<V>, step: Step<V>) {
    match step
    case Put(_, _, _, maxFields) => maxFields > 0
    case Drop(_, _) => true
    case Plain(_, _) => true
    case Begin => s.pipe.inFlight.None? && HasPending(s.pipe.pending)
    case Done(store) => s.pipe.inFlight.Some? && FullyApplied(s.pipe.store, Sending(s.pipe), store)
    case Failed(store) => s.pipe.inFlight.Some? && PartlyApplied(s.pipe.store, Sending(s.pipe), store)
  }

  /** Every (key, field) the cap gives up when the flush in flight fails. */
  ghost function AllCapLoss<V>(p: Pipe<V>): (r: set<(Key, int)>)
    ensures forall k, f :: (k, f) in r <==> f in CapLoss(p, k)
  {
    var m := Merge(Sending(p), p.pending);
    set k, f | k in m.hashes && f in CapLoss(p, k) :: (k, f)
  }

  function AfterPut<V>(s: System<V>, k: Key, f: int, v: V, maxFields: nat): System<V> {
    System(PutField(s.pipe, k, f, v, maxFields), ApplyOp(s.intended, HSet(k, map[f := v])), s.lost - {(k, f)})
  }

  function AfterDrop<V>(s: System<V>, k: Key, fs: set<int>): System<V> {
    System(DropFields(s.pipe, k, fs), ApplyOp(s.intended, HDel(k, fs)), s.lost - (set f | f in fs :: (k, f)))
  }

  function AfterPlain<V>(s: System<V>, k: Key, v: V): System<V> {
    System(PutPlain(s.pipe, k, v), ApplyOp(s.intended, SetPlain(k, v)), s.lost)
  }

  ghost function AfterFailed<V>(s: System<V>, store: Store<V>): System<V> {
    System(FlushFailed(s.pipe, store), s.intended, s.lost + AllCapLoss(s.pipe))
  }

  ghost function After<V>(s: System<V>, step: Step<V>): System<V> {
    match step
    case Put(k, f, v, maxFields) => AfterPut(s, k, f, v, maxFields)
    case Drop(k, fs) => AfterDrop(s, k, fs)
    case Plain(k, v) => AfterPlain(s, k, v)
    case Begin => if s.pipe.inFlight.None? then s.(pipe := BeginFlush(s.pipe)) else s
    case Done(store) => s.(pipe := FlushDone(s.pipe, store))
    case Failed(store) => AfterFailed(s, store)
  }

  /** The refinement: reading through the buffers gives every queued event in order. */
  ghost predicate Refines<V>(s: System<V>) {
    && ValidPipe(s.pipe)
    && (forall k, f :: (k, f) !in s.lost ==> View(s.pipe, k, f) == Stored(s.intended, k, f))
    && (forall k :: ViewPlain(s.pipe, k) == StoredPlain(s.intended, k))
  }

  lemma StoredAfterSet<V>(st: Store<V>, k: Key, f: int, v: V, k': Key, f': int)
    ensures Stored(ApplyOp(st, HSet(k, map[f := v])), k', f')
         == if k' == k && f' == f then Some(v) else Stored(st, k', f')
  {
  }

  lemma PutRefines<V>(s: System<V>, k: Key, f: int, v: V, maxFields: nat)
    requires Refines(s) && maxFields > 0
    ensures Refines(AfterPut(s, k, f, v, maxFields))
  {
    PutFieldView(s.pipe, k, f, v, maxFields);
    var s' := AfterPut(s, k, f, v, maxFields);
    forall k', f' | (k', f') !in s'.lost
      ensures View(s'.pipe, k', f') == Stored(s'.intended, k', f')
    {
      StoredAfterSet(s.intended, k, f, v, k', f');
      assert (k', f') != (k, f) ==> (k', f') !in s.lost;
    }
  }

  lemma DropRefines<V>(s: System<V>, k: Key, fs: set<int>)
    requires Refines(s)
    ensures Refines(AfterDrop(s, k, fs))
  {
    DropFieldsView(s.pipe, k, fs);
  }

  lemma PlainRefines<V>(s: System<V>, k: Key, v: V)
    requires Refines(s)
    ensures Refines(AfterPlain(s, k, v))
  {
    PutPlainView(s.pipe, k, v);
  }

  lemma FailureRefines<V>(s: System<V>, store: Store<V>)
    requires Refines(s) && PartlyApplied(s.pipe.store, Sending(s.pipe), store)
    ensures Refines(AfterFailed(s, store))
  {
    FlushFailedValid(s.pipe, store);
    forall k, f
      ensures f !in CapLoss(s.pipe, k) ==> View(FlushFailed(s.pipe, store), k, f) == View(s.pipe, k, f)
      ensures ViewPlain(FlushFailed(s.pipe, store), k) == ViewPlain(s.pipe, k)
    {
      FlushFailedView(s.pipe, store, k, f);
    }
  }

  /** What counts as lost is exactly what the cap has given up and nobody has queued since. */
  lemma LostExactly<V>(s: System<V>, step: Step<V>, k: Key, f: int)
    ensures (k, f) in After(s, step).lost <==>
              match step
              case Put(k', f', _, _) => (k, f) in s.lost && !(k == k' && f == f')
              case Drop(k', fs) => (k, f) in s.lost && !(k == k' && f in fs)
              case Failed(_) => (k, f) in s.lost || f in CapLoss(s.pipe, k)
              case _ => (k, f) in s.lost
  {
  }

  lemma StepRefines<V>(s: System<V>, step: Step<V>)
    requires Refines(s) && Enabled(s, step)
    ensures Refines(After(s, step))
  {
    match step
    case Put(k, f, v, maxFields) => PutRefines(s, k, f, v, maxFields);
    case Drop(k, fs) => DropRefines(s, k, fs);
    case Plain(k, v) => PlainRefines(s, k, v);
    case Begin => BeginFlushView(s.pipe);
    case Done(store) => FlushDoneView(s.pipe, store);
    case Failed(store) => FailureRefines(s, store);
  }

  /** s' is reached from s by the given steps. */
  ghost predicate Reaches<V>(s: System<V>, steps: seq<Step<V>>, s': System<V>)
    decreases |steps|
  {
    if steps == [] then s' == s
    else Enabled(s, steps[0]) && Reaches(After(s, steps[0]), steps[1..], s')
  }

  lemma {:induction false} RunRefines<V>(s: System<V>, steps: seq<Step<V>>, s': System<V>)
    requires Refines(s) && Reaches(s, steps, s')
    ensures Refines(s')
    decreases |steps|
  {
    if steps != [] {
      StepRefines(s, steps[0]);
      RunRefines(After(s, steps[0]), steps[1..], s');
    }
  }

  /** Once nothing is buffered the store itself holds every queued event, whatever flushes
      failed on the way, except fields the cap gave up. */
  lemma DrainedStoreIsIntended<V>(init: Store<V>, steps: seq<Step<V>>, s: System<V>)
    requires Reaches(System(Pipe(EmptyBuffer(), None, init), init, {}), steps, s)
    requires s.pipe.inFlight.None? && !HasPending(s.pipe.pending)
    ensures forall k, f :: (k, f) !in s.lost ==> Stored(s.pipe.store, k, f) == Stored(s.intended, k, f)
    ensures forall k :: StoredPlain(s.pipe.store, k) == StoredPlain(s.intended, k)
  {
    RunRefines(System(Pipe(EmptyBuffer(), None, init), init, {}), steps, s);
    assert s.pipe.pending.hashes == map[] && s.pipe.pending.plains == map[];
    forall k, f | (k, f) !in s.lost
      ensures Stored(s.pipe.store, k, f) == Stored(s.intended, k, f)
    {
      assert View(s.pipe, k, f) == Stored(s.intended, k, f);
    }
    forall k
      ensures StoredPlain(s.pipe.store, k) == StoredPlain(s.intended, k)
    {
      assert ViewPlain(s.pipe, k) == StoredPlain(s.intended, k);
    }
  }
}
