/** Broker namespaces and epochs (internal/analytics/namespace.go, backfill.go and
    warmload.go): operations read outside the lock and commit only while their scope is
    still current. Goroutines appear as operations that hold data; every step is one
    critical section, one read of the store or one event of the flush pipeline. */
module Namespaces {
  import opened Base
  import opened WriteBehind
  import opened Pipeline

  datatype Broker = Zerodha | Dhan

  datatype Namespace = Namespace(broker: Broker, generation: int)

  datatype Scope = Scope(namespace: Namespace, epoch: nat)

  datatype Family = OptionFrames | FuturesFrames | PreviousClose

  /** A bucket, reduced to the broker its data came from. */
  datatype Bucket = Bucket(origin: Broker, payload: int)

  /** A bucket in memory and the scope of the operation that put it there. */
  datatype Kept = Kept(bucket: Bucket, setBy: Scope)

  /** An operation between beginOperation and its cleanup, with what it has read so far. */
  datatype Operation = Operation(scope: Scope, held: set<Bucket>)

  const DHAN_PREFIX: string := "analytics:dhan:"

  function AnalyticsCacheKey(b: Broker, key: Key): Key {
    if b == Dhan then DHAN_PREFIX + key else key
  }

  predicate HasPrefix(key: Key) { DHAN_PREFIX <= key }

  /** A key as the service names it, before the namespace is applied: "oiframe:v2:1m",
      "futcontracts" and so on, never one that already carries a broker prefix. */
  predicate BaseKey(key: Key) { !HasPrefix(key) }

  /** The key alone tells whose data it is. */
  lemma CacheKeyTellsBroker(b: Broker, key: Key)
    requires BaseKey(key)
    ensures HasPrefix(AnalyticsCacheKey(b, key)) <==> b == Dhan
  {
  }

  lemma CacheKeysNeverCollide(b: Broker, key: Key, b': Broker, key': Key)
    requires BaseKey(key) && BaseKey(key')
    ensures AnalyticsCacheKey(b, key) == AnalyticsCacheKey(b', key') <==> b == b' && key == key'
  {
    CacheKeyTellsBroker(b, key);
    CacheKeyTellsBroker(b', key');
    if b == Dhan && b' == Dhan && DHAN_PREFIX + key == DHAN_PREFIX + key' {
      assert (DHAN_PREFIX + key)[|DHAN_PREFIX|..] == key;
      assert (DHAN_PREFIX + key')[|DHAN_PREFIX|..] == key';
    }
  }

  datatype Service = Service(
    registry: Namespace,
    scope: Scope,
    stopped: bool,
    memory: set<Kept>,
    pipe: Pipe<Bucket>,
    ops: map<nat, Operation>,
    running: set<Family>,
    owners: map<Family, nat>,
    jobs: set<(nat, Family)>)

  /** resetNamespaceLocked: a new epoch with empty memory; buffered writes stay, because
      they already carry their broker's key. */
  function Reset(s: Service): Service {
    s.(scope := Scope(s.registry, s.scope.epoch + 1), memory := {}, running := {})
  }

  function Sync(s: Service): Service {
    if s.scope.namespace != s.registry then Reset(s) else s
  }

  predicate ScopeCurrent(s: Service, scope: Scope) {
    scope == s.scope && !s.stopped && s.registry == scope.namespace
  }

  /** What the caller's context carries: whether it is still live, the namespace its request
      was made under, and the operation it already runs inside. */
  datatype Parent = Parent(live: bool, namespace: Option<Namespace>, within: Option<Scope>)

  predicate Admits(parent: Parent, scope: Scope) {
    && parent.live
    && (parent.namespace.Some? ==> parent.namespace.value == scope.namespace)
    && (parent.within.Some? ==> parent.within.value == scope)
  }

  datatype Step =
    | Publish(namespace: Namespace)
    | SyncStep
    | Invalidate
    | Stop
    | BeginOperation(id: nat, parent: Parent)
    | EndOperation(id: nat)
    | Fetch(id: nat, payload: int)
    | ReadStore(id: nat, key: Key)
    | Commit(id: nat)
    | ReadPlain(id: nat, key: Key)
    | CommitWrite(id: nat, key: Key, field: int, bucket: Bucket, maxFields: nat)
    | CommitPlain(id: nat, key: Key, bucket: Bucket)
    | CommitDrop(id: nat, key: Key, fields: set<int>)
    | Derive(source: Kept, payload: int, key: Key, field: int, maxFields: nat)
    | DeriveDrop(key: Key, fields: set<int>)
    | BeginBackfill(id: nat, family: Family)
    | EndBackfill(id: nat, family: Family)
    | Flush
    | Flushed(store: Store<Bucket>)
    | FlushLost(store: Store<Bucket>)

  /** What a commit may write: data its operation holds, or data already in memory, as when a
      merge mirrors the whole frame or the previous close is persisted. */
  predicate AtHand(s: Service, id: nat, bucket: Bucket)
    requires id in s.ops
  {
    bucket in s.ops[id].held || exists k :: k in s.memory && k.bucket == bucket
  }

  ghost predicate Enabled(s: Service, step: Step) {
    match step
    case Publish(_) => true
    case SyncStep => true
    case Invalidate => true
    case Stop => true
    case BeginOperation(id, _) => id !in s.ops
    case EndOperation(id) => id in s.ops && forall f :: (id, f) !in s.jobs
    case Fetch(id, _) => id in s.ops
    case ReadStore(id, key) => id in s.ops && BaseKey(key)
    case Commit(id) => id in s.ops
    case ReadPlain(id, key) => id in s.ops && BaseKey(key)
    case CommitWrite(id, key, _, bucket, maxFields) =>
      id in s.ops && BaseKey(key) && AtHand(s, id, bucket) && maxFields > 0
    case CommitPlain(id, key, bucket) => id in s.ops && BaseKey(key) && AtHand(s, id, bucket)
    case CommitDrop(id, key, _) => id in s.ops && BaseKey(key)
    case Derive(source, _, key, _, maxFields) => source in s.memory && BaseKey(key) && maxFields > 0
    case DeriveDrop(key, _) => BaseKey(key)
    case BeginBackfill(id, family) => id in s.ops && (id, family) !in s.jobs
    case EndBackfill(id, family) => id in s.ops && (id, family) in s.jobs
    case Flush => s.pipe.inFlight.None?
    case Flushed(store) => s.pipe.inFlight.Some? && FullyApplied(s.pipe.store, Sending(s.pipe), store)
    case FlushLost(store) => s.pipe.inFlight.Some? && PartlyApplied(s.pipe.store, Sending(s.pipe), store)
  }

  /** beginOperation adopts the registry's namespace first; an operation begun inside another
      one must find the same epoch. */
  function Begin(s: Service, id: nat, parent: Parent): Service {
    var s' := Sync(s);
    if s'.stopped || !Admits(parent, s'.scope) then s' else s'.(ops := s'.ops[id := Operation(s'.scope, {})])
  }

  /** Data arrives outside the lock: whatever the provider returns belongs to the broker
      the operation was begun for. */
  function Hold(s: Service, id: nat, buckets: set<Bucket>): Service
    requires id in s.ops
  {
    s.(ops := s.ops[id := s.ops[id].(held := s.ops[id].held + buckets)])
  }

  /** hgetAll reads under the key of the operation's own namespace. */
  function StoredUnder(st: Store<Bucket>, key: Key): set<Bucket> {
    var h := HashAt(st, key);
    set f | f in h :: h[f]
  }

  /** The scope-checked merge of what an operation holds into memory. */
  function CommitHeld(s: Service, id: nat): Service
    requires id in s.ops
  {
    var op := s.ops[id];
    if ScopeCurrent(s, op.scope)
    then s.(memory := s.memory + set b | b in op.held :: Kept(b, op.scope))
    else s
  }

  /** getRaw, likewise. */
  function PlainUnder(st: Store<Bucket>, key: Key): set<Bucket> {
    if key in st.plains then {st.plains[key]} else {}
  }

  /** cacheKeyLocked: every write is filed under the key of the scope in force. */
  function ScopeKey(s: Service, key: Key): Key { AnalyticsCacheKey(s.scope.namespace.broker, key) }

  /** The scope-checked mirror write of one bucket, filed under the current scope's key. */
  function CommitField(s: Service, id: nat, key: Key, field: int, bucket: Bucket, maxFields: nat): Service
    requires id in s.ops
  {
    if ScopeCurrent(s, s.ops[id].scope)
    then s.(pipe := PutField(s.pipe, ScopeKey(s, key), field, bucket, maxFields))
    else s
  }

  function CommitWhole(s: Service, id: nat, key: Key, bucket: Bucket): Service
    requires id in s.ops
  {
    if ScopeCurrent(s, s.ops[id].scope) then s.(pipe := PutPlain(s.pipe, ScopeKey(s, key), bucket)) else s
  }

  function CommitDropped(s: Service, id: nat, key: Key, fields: set<int>): Service
    requires id in s.ops
  {
    if ScopeCurrent(s, s.ops[id].scope) then s.(pipe := DropFields(s.pipe, ScopeKey(s, key), fields)) else s
  }

  /** coarsenFrames: a bucket computed from one in memory, stored and mirrored under whatever
      scope is in force, with no operation and no check: only what memory may hold fences it. */
  function DeriveBucket(s: Service, source: Kept, payload: int, key: Key, field: int, maxFields: nat): Service {
    var bucket := Bucket(source.bucket.origin, payload);
    s.(memory := s.memory + {Kept(bucket, s.scope)},
       pipe := PutField(s.pipe, ScopeKey(s, key), field, bucket, maxFields))
  }

  function StartBackfill(s: Service, id: nat, family: Family): Service
    requires id in s.ops
  {
    var scope := s.ops[id].scope;
    if family in s.running || !ScopeCurrent(s, scope) then s
    else s.(running := s.running + {family}, owners := s.owners[family := scope.epoch], jobs := s.jobs + {(id, family)})
  }

  /** endBackfill clears the flag only for the epoch that owns it. */
  function FinishBackfill(s: Service, id: nat, family: Family): Service
    requires id in s.ops
  {
    var s' := s.(jobs := s.jobs - {(id, family)});
    if family in s.owners && s.owners[family] == s.ops[id].scope.epoch
    then s'.(running := s'.running - {family})
    else s'
  }

  ghost function After(s: Service, step: Step): Service
    requires Enabled(s, step)
  {
    match step
    case Publish(ns) => s.(registry := ns)
    case SyncStep => Sync(s)
    case Invalidate => Reset(s)
    case Stop => s.(stopped := true)
    case BeginOperation(id, parent) => Begin(s, id, parent)
    case EndOperation(id) => s.(ops := s.ops - {id})
    case Fetch(id, payload) => Hold(s, id, {Bucket(s.ops[id].scope.namespace.broker, payload)})
    case ReadStore(id, key) =>
      Hold(s, id, StoredUnder(s.pipe.store, AnalyticsCacheKey(s.ops[id].scope.namespace.broker, key)))
    case Commit(id) => CommitHeld(s, id)
    case ReadPlain(id, key) =>
      Hold(s, id, PlainUnder(s.pipe.store, AnalyticsCacheKey(s.ops[id].scope.namespace.broker, key)))
    case CommitWrite(id, key, field, bucket, maxFields) => CommitField(s, id, key, field, bucket, maxFields)
    case CommitPlain(id, key, bucket) => CommitWhole(s, id, key, bucket)
    case CommitDrop(id, key, fields) => CommitDropped(s, id, key, fields)
    case Derive(source, payload, key, field, maxFields) => DeriveBucket(s, source, payload, key, field, maxFields)
    case DeriveDrop(key, fields) => s.(pipe := DropFields(s.pipe, ScopeKey(s, key), fields))
    case BeginBackfill(id, family) => StartBackfill(s, id, family)
    case EndBackfill(id, family) => FinishBackfill(s, id, family)
    case Flush => s.(pipe := BeginFlush(s.pipe))
    case Flushed(store) => s.(pipe := FlushDone(s.pipe, store))
    case FlushLost(store) => s.(pipe := FlushFailed(s.pipe, store))
  }

  // ---------------------------------------------------------------- provenance of writes

  /** Every value sits under the key of the broker that produced it. */
  predicate OwnHash(key: Key, m: map<int, Bucket>) {
    forall f :: f in m ==> (m[f].origin == Dhan <==> HasPrefix(key))
  }

  predicate OwnPlains(m: map<Key, Bucket>) {
    forall k :: k in m ==> (m[k].origin == Dhan <==> HasPrefix(k))
  }

  predicate OwnBuffer(b: Buffer<Bucket>) {
    (forall k :: k in b.hashes ==> OwnHash(k, b.hashes[k].entries)) && OwnPlains(b.plains)
  }

  predicate OwnStore(st: Store<Bucket>) {
    (forall k :: k in st.hashes ==> OwnHash(k, st.hashes[k])) && OwnPlains(st.plains)
  }

  predicate OwnPipe(p: Pipe<Bucket>) {
    OwnBuffer(p.pending) && OwnBuffer(Sending(p)) && OwnStore(p.store)
  }

  lemma PartialKeepsOwn(st: Store<Bucket>, b: Buffer<Bucket>, st': Store<Bucket>)
    requires OwnStore(st) && OwnBuffer(b) && PartlyApplied(st, b, st')
    ensures OwnStore(st')
  {
    forall k, f | k in st'.hashes && f in st'.hashes[k]
      ensures st'.hashes[k][f].origin == Dhan <==> HasPrefix(k)
    {
      assert Stored(st', k, f) == Some(st'.hashes[k][f]);
      assert Stored(st', k, f) == Stored(st, k, f) || Stored(st', k, f) == Overlay(b, k, f, Stored(st, k, f));
    }
    forall k | k in st'.plains
      ensures st'.plains[k].origin == Dhan <==> HasPrefix(k)
    {
      assert StoredPlain(st', k) == Some(st'.plains[k]);
      assert StoredPlain(st', k) == StoredPlain(st, k) || StoredPlain(st', k) == OverlayPlain(b, k, StoredPlain(st, k));
    }
  }

  lemma FullKeepsOwn(st: Store<Bucket>, b: Buffer<Bucket>, st': Store<Bucket>)
    requires OwnStore(st) && OwnBuffer(b) && FullyApplied(st, b, st')
    ensures OwnStore(st')
  {
    assert PartlyApplied(st, b, st');
    PartialKeepsOwn(st, b, st');
  }

  lemma RequeueKeepsOwn(sent: Buffer<Bucket>, cur: Buffer<Bucket>)
    requires OwnBuffer(sent) && OwnBuffer(cur)
    ensures OwnBuffer(Requeue(sent, cur))
  {
    forall k | k in Requeue(sent, cur).hashes
      ensures OwnHash(k, Requeue(sent, cur).hashes[k].entries)
    {
      MergedIsOwn(sent, cur, k);
    }
    assert Requeue(sent, cur).plains == sent.plains + cur.plains;
  }

  lemma MergedIsOwn(sent: Buffer<Bucket>, cur: Buffer<Bucket>, k: Key)
    requires OwnBuffer(sent) && OwnBuffer(cur) && k in sent.hashes.Keys + cur.hashes.Keys
    ensures OwnHash(k, CapHash(MergedAt(sent.hashes, cur.hashes, k)).entries)
  {
    assert OwnHash(k, MergedAt(sent.hashes, cur.hashes, k).entries);
  }

  // ---------------------------------------------------------------- the invariant

  /** A running backfill belongs to a live operation, and no two of one family share an epoch. */
  ghost predicate JobsInv(s: Service) {
    && (forall id, f :: (id, f) in s.jobs ==> id in s.ops)
    && (forall id, id', f :: (id, f) in s.jobs && (id', f) in s.jobs && s.ops[id].scope.epoch == s.ops[id'].scope.epoch
          ==> id == id')
  }

  /** The single-flight flag of a family is up exactly while this epoch's backfill runs. */
  ghost predicate FlagsInv(s: Service)
    requires forall id, f :: (id, f) in s.jobs ==> id in s.ops
  {
    && (forall id, f :: (id, f) in s.jobs && s.ops[id].scope.epoch == s.scope.epoch
          ==> f in s.running && f in s.owners && s.owners[f] == s.scope.epoch)
    && (forall f :: f in s.running ==>
          exists id :: (id, f) in s.jobs && s.ops[id].scope.epoch == s.scope.epoch)
  }

  ghost predicate OpsInv(s: Service) {
    && (forall id :: id in s.ops ==> s.ops[id].scope.epoch <= s.scope.epoch)
    && (forall id :: id in s.ops && s.ops[id].scope.epoch == s.scope.epoch ==> s.ops[id].scope == s.scope)
    && (forall id, b :: id in s.ops && b in s.ops[id].held ==> b.origin == s.ops[id].scope.namespace.broker)
  }

  /** Everything in memory was put there in this epoch and is this broker's data. */
  ghost predicate MemoryInv(s: Service) {
    forall k :: k in s.memory ==> k.setBy == s.scope && k.bucket.origin == s.scope.namespace.broker
  }

  ghost predicate Fenced(s: Service) {
    && OpsInv(s) && MemoryInv(s)
    && JobsInv(s) && FlagsInv(s)
    && OwnPipe(s.pipe)
  }

  lemma ResetFenced(s: Service)
    requires Fenced(s)
    ensures Fenced(Reset(s))
  {
  }

  lemma SyncFenced(s: Service)
    requires Fenced(s)
    ensures Fenced(Sync(s))
  {
    ResetFenced(s);
  }

  lemma BeginFenced(s: Service, id: nat, parent: Parent)
    requires Fenced(s) && id !in s.ops
    ensures Fenced(Begin(s, id, parent))
  {
    SyncFenced(s);
    var s1 := Sync(s);
    if !s1.stopped && Admits(parent, s1.scope) {
      var s2 := Begin(s, id, parent);
      forall f | f in s2.running
        ensures exists i :: (i, f) in s2.jobs && s2.ops[i].scope.epoch == s2.scope.epoch
      {
        var i :| (i, f) in s1.jobs && s1.ops[i].scope.epoch == s1.scope.epoch;
        assert (i, f) in s2.jobs && s2.ops[i].scope.epoch == s2.scope.epoch;
      }
    }
  }

  lemma HoldFenced(s: Service, id: nat, buckets: set<Bucket>)
    requires Fenced(s) && id in s.ops
    requires forall b :: b in buckets ==> b.origin == s.ops[id].scope.namespace.broker
    ensures Fenced(Hold(s, id, buckets))
  {
    var s' := Hold(s, id, buckets);
    assert forall i :: i in s.ops ==> s'.ops[i].scope == s.ops[i].scope;
    forall f | f in s'.running
      ensures exists i :: (i, f) in s'.jobs && s'.ops[i].scope.epoch == s'.scope.epoch
    {
      var i :| (i, f) in s.jobs && s.ops[i].scope.epoch == s.scope.epoch;
      assert (i, f) in s'.jobs && s'.ops[i].scope.epoch == s'.scope.epoch;
    }
  }

  lemma EndFenced(s: Service, id: nat)
    requires Fenced(s) && id in s.ops && forall f :: (id, f) !in s.jobs
    ensures Fenced(s.(ops := s.ops - {id}))
  {
    var s' := s.(ops := s.ops - {id});
    forall f | f in s'.running
      ensures exists i :: (i, f) in s'.jobs && s'.ops[i].scope.epoch == s'.scope.epoch
    {
      var i :| (i, f) in s.jobs && s.ops[i].scope.epoch == s.scope.epoch;
      assert (i, f) in s'.jobs && s'.ops[i].scope.epoch == s'.scope.epoch;
    }
  }

  lemma StoredUnderOwn(s: Service, b: Broker, key: Key)
    requires OwnStore(s.pipe.store) && BaseKey(key)
    ensures forall x :: x in StoredUnder(s.pipe.store, AnalyticsCacheKey(b, key)) ==> x.origin == b
    ensures forall x :: x in PlainUnder(s.pipe.store, AnalyticsCacheKey(b, key)) ==> x.origin == b
  {
    CacheKeyTellsBroker(b, key);
  }

  /** Whatever a commit may write is the current broker's. */
  lemma AtHandIsOwn(s: Service, id: nat, bucket: Bucket)
    requires Fenced(s) && id in s.ops && ScopeCurrent(s, s.ops[id].scope) && AtHand(s, id, bucket)
    ensures bucket.origin == s.scope.namespace.broker
  {
  }

  lemma PutOwn(p: Pipe<Bucket>, key: Key, field: int, bucket: Bucket, maxFields: nat)
    requires OwnPipe(p) && (bucket.origin == Dhan <==> HasPrefix(key))
    ensures OwnPipe(PutField(p, key, field, bucket, maxFields))
    ensures OwnPipe(PutPlain(p, key, bucket))
  {
  }

  lemma DropOwn(p: Pipe<Bucket>, key: Key, fields: set<int>)
    requires OwnPipe(p)
    ensures OwnPipe(DropFields(p, key, fields))
  {
  }

  /** The write buffer and nothing else. */
  lemma PipeFenced(s: Service, p: Pipe<Bucket>)
    requires Fenced(s) && OwnPipe(p)
    ensures Fenced(s.(pipe := p))
  {
  }

  lemma CommitFenced(s: Service, id: nat, key: Key, field: int, bucket: Bucket, maxFields: nat)
    requires Fenced(s) && id in s.ops && BaseKey(key) && AtHand(s, id, bucket)
    ensures Fenced(CommitField(s, id, key, field, bucket, maxFields))
    ensures Fenced(CommitWhole(s, id, key, bucket))
  {
    if ScopeCurrent(s, s.ops[id].scope) {
      AtHandIsOwn(s, id, bucket);
      CacheKeyTellsBroker(s.scope.namespace.broker, key);
      PutOwn(s.pipe, ScopeKey(s, key), field, bucket, maxFields);
      PipeFenced(s, PutField(s.pipe, ScopeKey(s, key), field, bucket, maxFields));
      PipeFenced(s, PutPlain(s.pipe, ScopeKey(s, key), bucket));
    }
  }

  lemma DropFenced(s: Service, key: Key, fields: set<int>)
    requires Fenced(s)
    ensures Fenced(s.(pipe := DropFields(s.pipe, key, fields)))
  {
    DropOwn(s.pipe, key, fields);
    PipeFenced(s, DropFields(s.pipe, key, fields));
  }

  lemma DeriveFenced(s: Service, source: Kept, payload: int, key: Key, field: int, maxFields: nat)
    requires Fenced(s) && source in s.memory && BaseKey(key)
    ensures Fenced(DeriveBucket(s, source, payload, key, field, maxFields))
  {
    var bucket := Bucket(source.bucket.origin, payload);
    CacheKeyTellsBroker(s.scope.namespace.broker, key);
    PutOwn(s.pipe, ScopeKey(s, key), field, bucket, maxFields);
    var s1 := s.(memory := s.memory + {Kept(bucket, s.scope)});
    assert Fenced(s1);
    PipeFenced(s1, PutField(s.pipe, ScopeKey(s, key), field, bucket, maxFields));
  }

  lemma StartFenced(s: Service, id: nat, family: Family)
    requires Fenced(s) && id in s.ops && (id, family) !in s.jobs
    ensures Fenced(StartBackfill(s, id, family))
  {
    var s' := StartBackfill(s, id, family);
    if s' != s {
      forall f | f in s'.running
        ensures exists i :: (i, f) in s'.jobs && s'.ops[i].scope.epoch == s'.scope.epoch
      {
        if f == family {
          assert (id, f) in s'.jobs && s'.ops[id].scope.epoch == s'.scope.epoch;
        } else {
          var i :| (i, f) in s.jobs && s.ops[i].scope.epoch == s.scope.epoch;
          assert (i, f) in s'.jobs && s'.ops[i].scope.epoch == s'.scope.epoch;
        }
      }
    }
  }

  lemma FinishFenced(s: Service, id: nat, family: Family)
    requires Fenced(s) && id in s.ops && (id, family) in s.jobs
    ensures Fenced(FinishBackfill(s, id, family))
  {
    var s' := FinishBackfill(s, id, family);
    forall f | f in s'.running
      ensures exists i :: (i, f) in s'.jobs && s'.ops[i].scope.epoch == s'.scope.epoch
    {
      var i :| (i, f) in s.jobs && s.ops[i].scope.epoch == s.scope.epoch;
      assert (i, f) in s'.jobs && s'.ops[i].scope.epoch == s'.scope.epoch;
    }
  }

  /** Steps of the flush pipeline, which act on all keys alike. */
  predicate IsFlush(step: Step) { step.Flush? || step.Flushed? || step.FlushLost? }

  lemma FlushFenced(s: Service, step: Step)
    requires Fenced(s) && Enabled(s, step) && IsFlush(step)
    ensures Fenced(After(s, step))
  {
    match step {
      case Flush =>
      case Flushed(store) => FullKeepsOwn(s.pipe.store, Sending(s.pipe), store);
      case FlushLost(store) =>
        PartialKeepsOwn(s.pipe.store, Sending(s.pipe), store);
        RequeueKeepsOwn(Sending(s.pipe), s.pipe.pending);
    }
    PipeFenced(s, After(s, step).pipe);
  }

  /** Steps that queue writes or deletions. */
  predicate IsWrite(step: Step) {
    step.CommitWrite? || step.CommitPlain? || step.CommitDrop? || step.Derive? || step.DeriveDrop?
  }

  lemma WriteFenced(s: Service, step: Step)
    requires Fenced(s) && Enabled(s, step) && IsWrite(step)
    ensures Fenced(After(s, step))
  {
    match step
    case CommitWrite(id, key, field, bucket, maxFields) => CommitFenced(s, id, key, field, bucket, maxFields);
    case CommitPlain(id, key, bucket) => CommitFenced(s, id, key, 0, bucket, 1);
    case CommitDrop(id, key, fields) => DropFenced(s, ScopeKey(s, key), fields);
    case Derive(source, payload, key, field, maxFields) => DeriveFenced(s, source, payload, key, field, maxFields);
    case DeriveDrop(key, fields) => DropFenced(s, ScopeKey(s, key), fields);
  }

  lemma HeldFenced(s: Service, id: nat)
    requires Fenced(s) && id in s.ops
    ensures Fenced(CommitHeld(s, id))
  {
  }

  /** Steps that bring data to an operation. */
  predicate IsRead(step: Step) { step.Fetch? || step.ReadStore? || step.ReadPlain? }

  lemma ReadFenced(s: Service, step: Step)
    requires Fenced(s) && Enabled(s, step) && IsRead(step)
    ensures Fenced(After(s, step))
  {
    var b := s.ops[step.id].scope.namespace.broker;
    match step
    case Fetch(id, payload) => HoldFenced(s, id, {Bucket(b, payload)});
    case ReadStore(id, key) =>
      StoredUnderOwn(s, b, key);
      HoldFenced(s, id, StoredUnder(s.pipe.store, AnalyticsCacheKey(b, key)));
    case ReadPlain(id, key) =>
      StoredUnderOwn(s, b, key);
      HoldFenced(s, id, PlainUnder(s.pipe.store, AnalyticsCacheKey(b, key)));
  }

  /** Steps of the registry, the scope, the operations and the backfill flags. */
  lemma ScopeFenced(s: Service, step: Step)
    requires Fenced(s) && Enabled(s, step) && !IsRead(step) && !IsWrite(step) && !IsFlush(step)
    ensures Fenced(After(s, step))
  {
    match step
    case Publish(_) =>
    case SyncStep => SyncFenced(s);
    case Invalidate => ResetFenced(s);
    case Stop =>
    case BeginOperation(id, parent) => BeginFenced(s, id, parent);
    case EndOperation(id) => EndFenced(s, id);
    case Commit(id) => HeldFenced(s, id);
    case BeginBackfill(id, family) => StartFenced(s, id, family);
    case EndBackfill(id, family) => FinishFenced(s, id, family);
  }

  lemma StepFenced(s: Service, step: Step)
    requires Fenced(s) && Enabled(s, step)
    ensures Fenced(After(s, step))
  {
    if IsRead(step) {
      ReadFenced(s, step);
    } else if IsWrite(step) {
      WriteFenced(s, step);
    } else if IsFlush(step) {
      FlushFenced(s, step);
    } else {
      ScopeFenced(s, step);
    }
  }

  /** Nothing is written or deleted under a key of a broker whose scope is not in force: what
      a broker's keys will hold changes only by that broker's own steps. */
  lemma OtherBrokerUntouched(s: Service, step: Step, b: Broker, key: Key, f: int)
    requires Enabled(s, step) && !IsFlush(step)
    requires b != s.scope.namespace.broker && BaseKey(key)
    ensures var k := AnalyticsCacheKey(b, key);
            && View(After(s, step).pipe, k, f) == View(s.pipe, k, f)
            && ViewPlain(After(s, step).pipe, k) == ViewPlain(s.pipe, k)
  {
    var k := AnalyticsCacheKey(b, key);
    if IsWrite(step) {
      CacheKeysNeverCollide(b, key, s.scope.namespace.broker, step.key);
      var own := ScopeKey(s, step.key);
      match step
      case CommitWrite(_, _, field, bucket, maxFields) => PutElsewhere(s.pipe, own, field, bucket, maxFields, k, f);
      case CommitPlain(_, _, bucket) => PutElsewhere(s.pipe, own, 0, bucket, 1, k, f);
      case CommitDrop(_, _, fields) => DropElsewhere(s.pipe, own, fields, k, f);
      case Derive(source, payload, _, field, maxFields) =>
        PutElsewhere(s.pipe, own, field, Bucket(source.bucket.origin, payload), maxFields, k, f);
      case DeriveDrop(_, fields) => DropElsewhere(s.pipe, own, fields, k, f);
    } else {
      assert After(s, step).pipe == s.pipe;
    }
  }

  lemma PutElsewhere(p: Pipe<Bucket>, own: Key, field: int, bucket: Bucket, maxFields: nat, k: Key, f: int)
    requires own != k
    ensures View(PutField(p, own, field, bucket, maxFields), k, f) == View(p, k, f)
    ensures ViewPlain(PutField(p, own, field, bucket, maxFields), k) == ViewPlain(p, k)
    ensures View(PutPlain(p, own, bucket), k, f) == View(p, k, f)
    ensures ViewPlain(PutPlain(p, own, bucket), k) == ViewPlain(p, k)
  {
  }

  lemma DropElsewhere(p: Pipe<Bucket>, own: Key, fields: set<int>, k: Key, f: int)
    requires own != k
    ensures View(DropFields(p, own, fields), k, f) == View(p, k, f)
    ensures ViewPlain(DropFields(p, own, fields), k) == ViewPlain(p, k)
  {
  }

  // ---------------------------------------------------------------- what the steps achieve

  /** A read brings an operation all that is stored under its own broker's key, fields or whole
      value, and nothing else. */
  lemma ReadsBring(s: Service, id: nat, key: Key, b: Bucket)
    requires id in s.ops && BaseKey(key)
    ensures var k := AnalyticsCacheKey(s.ops[id].scope.namespace.broker, key);
            && (b in After(s, ReadStore(id, key)).ops[id].held <==>
                  b in s.ops[id].held || exists f :: Stored(s.pipe.store, k, f) == Some(b))
            && (b in After(s, ReadPlain(id, key)).ops[id].held <==>
                  b in s.ops[id].held || StoredPlain(s.pipe.store, k) == Some(b))
  {
    var k := AnalyticsCacheKey(s.ops[id].scope.namespace.broker, key);
    var h := HashAt(s.pipe.store, k);
    if b in StoredUnder(s.pipe.store, k) {
      var f :| f in h && h[f] == b;
      assert Stored(s.pipe.store, k, f) == Some(b);
    }
    if f :| Stored(s.pipe.store, k, f) == Some(b) { assert f in h && h[f] == b; }
  }

  /** The provider's data reaches the operation as its own broker's, and an operation that ends
      is gone. */
  lemma FetchBrings(s: Service, id: nat, payload: int)
    requires id in s.ops
    ensures var b := Bucket(s.ops[id].scope.namespace.broker, payload);
            After(s, Fetch(id, payload)).ops[id] == s.ops[id].(held := s.ops[id].held + {b})
    ensures (forall f :: (id, f) !in s.jobs) ==> id !in After(s, EndOperation(id)).ops
  {
  }

  /** A write of a current operation lands under the current broker's key: a bucket in its
      field, a whole value in its place, a deletion at exactly its fields. */
  lemma CurrentWritesLand(s: Service, id: nat, key: Key, field: int, bucket: Bucket, maxFields: nat, fields: set<int>)
    requires ValidPipe(s.pipe) && maxFields > 0
    requires id in s.ops && ScopeCurrent(s, s.ops[id].scope)
    ensures var k := AnalyticsCacheKey(s.scope.namespace.broker, key);
            && (forall f :: View(CommitField(s, id, key, field, bucket, maxFields).pipe, k, f) ==
                            if f == field then Some(bucket) else View(s.pipe, k, f))
            && ViewPlain(CommitWhole(s, id, key, bucket).pipe, k) == Some(bucket)
            && (forall f :: View(CommitDropped(s, id, key, fields).pipe, k, f) ==
                            if f in fields then None else View(s.pipe, k, f))
  {
    var k := AnalyticsCacheKey(s.scope.namespace.broker, key);
    PutFieldView(s.pipe, k, field, bucket, maxFields);
    PutPlainView(s.pipe, k, bucket);
    DropFieldsView(s.pipe, k, fields);
  }

  /** One of a superseded operation does nothing at all. */
  lemma StaleWritesNothing(s: Service, id: nat, key: Key, field: int, bucket: Bucket, maxFields: nat, fields: set<int>)
    requires id in s.ops && !ScopeCurrent(s, s.ops[id].scope)
    ensures CommitHeld(s, id) == CommitField(s, id, key, field, bucket, maxFields) == CommitWhole(s, id, key, bucket)
         == CommitDropped(s, id, key, fields) == s
  {
  }

  /** A coarsened bucket is in memory, and will be in its field, as the broker's own. */
  lemma DerivedLands(s: Service, source: Kept, payload: int, key: Key, field: int, maxFields: nat)
    requires ValidPipe(s.pipe) && maxFields > 0
    ensures var s', b := DeriveBucket(s, source, payload, key, field, maxFields), Bucket(source.bucket.origin, payload);
            && s'.memory == s.memory + {Kept(b, s.scope)}
            && forall f :: View(s'.pipe, AnalyticsCacheKey(s.scope.namespace.broker, key), f) ==
                           if f == field then Some(b)
                           else View(s.pipe, AnalyticsCacheKey(s.scope.namespace.broker, key), f)
  {
    PutFieldView(s.pipe, AnalyticsCacheKey(s.scope.namespace.broker, key), field, Bucket(source.bucket.origin, payload),
                 maxFields);
  }

  /** Exactly what supersedes an operation: an invalidation, the stop, or another namespace; and
      only the same namespace published again, before anyone has synchronized, brings one back. */
  lemma SupersededExactly(s: Service, step: Step, scope: Scope)
    requires Enabled(s, step) && scope.epoch <= s.scope.epoch
    ensures ScopeCurrent(s, scope) ==>
              (ScopeCurrent(After(s, step), scope) <==>
               !step.Invalidate? && !step.Stop? && (step.Publish? ==> step.namespace == scope.namespace))
    ensures !ScopeCurrent(s, scope) && ScopeCurrent(After(s, step), scope) ==>
              step.Publish? && step.namespace == scope.namespace && scope == s.scope
  {
  }

  ghost predicate Reaches(s: Service, steps: seq<Step>, s': Service)
    decreases |steps|
  {
    if steps == [] then s' == s
    else Enabled(s, steps[0]) && Reaches(After(s, steps[0]), steps[1..], s')
  }

  lemma {:induction false} RunFenced(s: Service, steps: seq<Step>, s': Service)
    requires Fenced(s) && Reaches(s, steps, s')
    ensures Fenced(s')
    decreases |steps|
  {
    if steps != [] {
      StepFenced(s, steps[0]);
      RunFenced(After(s, steps[0]), steps[1..], s');
    }
  }

  function Fresh(ns: Namespace): Service {
    Service(ns, Scope(ns, 1), false, {}, Pipe(EmptyBuffer(), None, Store(map[], map[])), map[], {}, map[], {})
  }

  /** In every interleaving of broker switches, captures, backfills, warm loads and flushes:
      memory holds only what the current epoch committed or derived from its own broker, every
      buffered or stored field and whole value is under its broker's key, and a family has at most one backfill per
      epoch, however late a superseded one ends. */
  lemma NamespaceFencing(ns: Namespace, steps: seq<Step>, s: Service)
    requires Reaches(Fresh(ns), steps, s)
    ensures forall k :: k in s.memory ==> k.setBy == s.scope && k.bucket.origin == s.scope.namespace.broker
    ensures OwnPipe(s.pipe)
    ensures JobsInv(s)
  {
    RunFenced(Fresh(ns), steps, s);
  }
}
