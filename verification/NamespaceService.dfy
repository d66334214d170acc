/** The namespace fields of the analytics service (internal/analytics/namespace.go,
    internal/analytics/backfill.go): the critical sections that move them, each tied to the
    step of module Namespaces, keeping its fence, and saying what its caller may rely on. */
module NamespaceService {
  import opened Base
  import opened WriteBehind
  import opened Namespaces
  import Pipeline

  class ScopedService {
    var registry: Namespace
    var scope: Scope
    var stopped: bool
    var memory: set<Kept>
    var pipe: Pipeline.Pipe<Bucket>
    var ops: map<nat, Operation>
    var running: set<Family>
    var owners: map<Family, nat>
    var jobs: set<(nat, Family)>

    function State(): Service
      reads this
    {
      Service(registry, scope, stopped, memory, pipe, ops, running, owners, jobs)
    }

    /** No operation already under way can commit any more. */
    ghost predicate AllStale()
      reads this
    {
      forall id :: id in ops ==> !ScopeCurrent(State(), ops[id].scope)
    }

    constructor (namespace: Namespace)
      ensures State() == Fresh(namespace) && Fenced(State())
    {
      registry, scope, stopped := namespace, Scope(namespace, 1), false;
      memory, ops, running, owners, jobs := {}, map[], {}, map[], {};
      pipe := Pipeline.Pipe(EmptyBuffer(), None, Store(map[], map[]));
    }

    /** A new epoch: memory and flags are emptied, the write buffer is left alone, and every
        operation begun before is superseded. */
    method ResetNamespaceLocked()
      requires Fenced(State())
      modifies this`scope, this`memory, this`running
      ensures State() == Reset(old(State())) && Fenced(State())
      ensures AllStale() && scope.namespace == registry
    {
      ResetFenced(State());
      scope := Scope(registry, scope.epoch + 1);
      memory := {};
      running := {};
    }

    /** Afterwards the scope is the registry's; if that is news, everything begun before is
        superseded. */
    method SyncNamespaceLocked()
      requires Fenced(State())
      modifies this`scope, this`memory, this`running
      ensures State() == Sync(old(State())) && Fenced(State())
      ensures scope.namespace == registry && (scope != old(scope) ==> AllStale())
    {
      if scope.namespace != registry { ResetNamespaceLocked(); }
    }

    /** A valid operation may commit until the next reset. It is valid only under a live caller
        that runs under the same namespace and, if inside an operation, under the same epoch. */
    method BeginOperation(id: nat, parent: Parent) returns (valid: bool)
      requires Fenced(State()) && id !in ops
      modifies this`scope, this`memory, this`running, this`ops
      ensures State() == Namespaces.Begin(old(State()), id, parent) && Fenced(State())
      ensures valid == (!stopped && Admits(parent, scope)) && scope.namespace == registry
      ensures valid ==> id in ops && ops[id].held == {} && ScopeCurrent(State(), ops[id].scope)
      ensures valid && parent.within.Some? ==> scope == parent.within.value
      ensures !valid ==> ops == old(ops)
    {
      BeginFenced(State(), id, parent);
      SyncNamespaceLocked();
      valid := !stopped && parent.live;
      if parent.namespace.Some? && parent.namespace.value != scope.namespace { valid := false; }
      if parent.within.Some? && parent.within.value != scope { valid := false; }
      if valid { ops := ops[id := Operation(scope, {})]; }
    }

    /** The commit sections of backfills, captures and warm loads: all that the operation
        holds, or nothing when it was superseded; either way memory stays this broker's. */
    method CommitFrames(id: nat) returns (current: bool)
      requires Fenced(State()) && id in ops
      modifies this`memory
      ensures State() == CommitHeld(old(State()), id) && Fenced(State())
      ensures current == ScopeCurrent(State(), ops[id].scope)
      ensures if current then forall b :: b in ops[id].held ==> Kept(b, scope) in memory else memory == old(memory)
    {
      HeldFenced(State(), id);
      var op := ops[id];
      current := op.scope == scope && !stopped && registry == op.scope.namespace;
      if current { memory := memory + set b | b in op.held :: Kept(b, op.scope); }
    }

    /** A mirror write reaches its own broker's key and no other field of any key. */
    method QueueMirrorWrite(id: nat, key: Key, field: int, bucket: Bucket, maxFields: nat)
      requires Fenced(State()) && Pipeline.ValidPipe(pipe)
      requires id in ops && BaseKey(key) && AtHand(State(), id, bucket) && maxFields > 0
      modifies this`pipe
      ensures State() == CommitField(old(State()), id, key, field, bucket, maxFields)
      ensures Fenced(State()) && Pipeline.ValidPipe(pipe)
      ensures var own := ScopeKey(State(), key);
              forall k, f :: Pipeline.View(pipe, k, f) ==
                if k == own && f == field && ScopeCurrent(State(), ops[id].scope) then Some(bucket)
                else Pipeline.View(old(pipe), k, f)
    {
      CommitFenced(State(), id, key, field, bucket, maxFields);
      if ops[id].scope != scope || stopped || registry != scope.namespace { return; }
      var own := if scope.namespace.broker == Dhan then DHAN_PREFIX + key else key;
      Pipeline.PutFieldView(pipe, own, field, bucket, maxFields);
      pipe := Pipeline.PutField(pipe, own, field, bucket, maxFields);
    }

    /** The second section of beginBackfill: whoever starts is alone in its family and epoch. */
    method BeginBackfill(id: nat, family: Family) returns (started: bool)
      requires Fenced(State()) && id in ops && (id, family) !in jobs
      modifies this`running, this`owners, this`jobs
      ensures State() == StartBackfill(old(State()), id, family) && Fenced(State())
      ensures started == (family !in old(running) && ScopeCurrent(old(State()), ops[id].scope))
      ensures started ==> forall x :: (x, family) in jobs && ops[x].scope == ops[id].scope ==> x == id
    {
      StartFenced(State(), id, family);
      var mine := ops[id].scope;
      if family in running || mine != scope || stopped || registry != mine.namespace { return false; }
      running, owners, jobs := running + {family}, owners[family := mine.epoch], jobs + {(id, family)};
      started := true;
    }

    /** The current epoch's backfill frees its family; a superseded one, ending late, leaves
        the flag of its successor up. */
    method EndBackfill(id: nat, family: Family)
      requires Fenced(State()) && id in ops && (id, family) in jobs
      modifies this`running, this`jobs
      ensures State() == FinishBackfill(old(State()), id, family) && Fenced(State())
      ensures if ops[id].scope.epoch == scope.epoch then family !in running else running == old(running)
    {
      FinishFenced(State(), id, family);
      jobs := jobs - {(id, family)};
      if family in owners && owners[family] == ops[id].scope.epoch { running := running - {family}; }
    }
  }
}
