/** The memory sections of the Spike engine (internal/spike/engine.go,
    internal/spike/actions.go) as methods over its own fields, each tied to the step of
    module SpikeTrades: what an operation relies on (OpInv) is kept always, and memory stays
    in step with the store (InStep) unless a store call has lost its reply. The store calls in
    between are that module's InsertCall and CloseCall. */
module SpikeEngine {
  import opened Base
  import opened SpikeTrades

  class TradeDesk {
    var store: map<Id, Row>
    var open: map<Symbol, Id>
    var closed: seq<Id>
    var pending: map<Symbol, Id>
    var candidates: seq<Candidate>
    var received: Option<Candidate>
    var loaded: bool
    var paper: bool
    var active: bool
    var connected: bool
    var stopped: bool
    var namespace: nat
    var current: nat
    var ready: bool
    var op: Operation

    function State(): Engine
      reads this
    {
      Engine(store, open, pending, candidates, received, loaded, paper, active, connected, stopped,
             namespace, current, ready, op)
    }

    constructor (store: map<Id, Row>, current: nat)
      requires OneOpen(store)
      ensures State() == NewEngine(store, current) && OpInv(State()) && InStep(State()) && closed == []
    {
      this.store, this.current := store, current;
      open, closed, pending, candidates, received := map[], [], map[], [], None;
      loaded, paper, active, connected, stopped := false, false, false, false, false;
      namespace, ready, op := 0, false, Idle;
    }

    /** The candidate push at the end of evaluateLocked, on ticks that OnTicks let through. */
    method QueueCandidate(symbol: Symbol, id: Id) returns (queued: bool)
      requires OpInv(State())
      modifies this`candidates, this`pending
      ensures State() == Signal(old(State()), symbol, id)
      ensures OpInv(State()) && (InStep(old(State())) ==> InStep(State()))
      ensures queued <==> && !stopped && active && connected && namespace == current && paper
                          && symbol !in open && symbol !in old(pending) && |old(candidates)| < QUEUE_LIMIT
      ensures queued ==> loaded && candidates == old(candidates) + [Candidate(id, symbol, namespace)]
                         && pending == old(pending)[symbol := id]
      ensures !queued ==> candidates == old(candidates) && pending == old(pending)
    {
      SignalKeeps(State(), symbol, id);
      queued := false;
      if stopped || !active || !connected || namespace != current { return; }
      if !paper || symbol in open || symbol in pending || |candidates| >= QUEUE_LIMIT { return; }
      candidates := candidates + [Candidate(id, symbol, namespace)];
      pending := pending[symbol := id];
      queued := true;
    }

    /** Invalidate: nothing queued is withdrawn, only its marker; nothing more is queued until
        the engine is active and connected again. */
    method Invalidate()
      requires OpInv(State())
      modifies this`active, this`connected, this`pending
      ensures State() == After(old(State()), InvalidateStep)
      ensures OpInv(State()) && (InStep(old(State())) ==> InStep(State()))
      ensures forall symbol, id :: Signal(State(), symbol, id) == State()
      ensures !active && !connected && pending == map[]
    {
      Keeps(State(), InvalidateStep);
      active, connected, pending := false, false, map[];
    }

    /** The checks of enter: when it goes on, and memory was in step, the symbol has no open
        row, so the insert cannot make a second one. */
    method BeginEnter(inTime: bool)
      requires OpInv(State()) && op.Idle? && received.Some?
      modifies this`op, this`received
      ensures State() == After(old(State()), EnterStep(inTime))
      ensures OpInv(State()) && (InStep(old(State())) ==> InStep(State()))
      ensures InStep(State()) && op.proceed ==> !HasOpen(store, op.cand.symbol)
      ensures received.None? && op.Entering? && op.cand == old(received).value
      ensures op.proceed <==> && !stopped && paper && active && connected && ready && inTime
                              && namespace == op.cand.namespace == current && op.cand.symbol !in open
    {
      EnterEffect(State(), inTime);
      var cand := received.value;
      var valid := !stopped && paper && active && connected && ready && namespace == cand.namespace
                   && current == cand.namespace && inTime;
      var already := cand.symbol in open;
      op, received := Entering(cand, valid && !already), None;
    }

    /** Take away the marker of this trade, if it is still the symbol's. */
    method Unmark(cand: Candidate)
      modifies this`pending
      ensures State() == old(State()).(pending := Unmarked(old(pending), cand))
    {
      if cand.symbol in pending && pending[cand.symbol] == cand.id { pending := pending - {cand.symbol}; }
    }

    method RecordEntry(cand: Candidate, saved: bool)
      modifies this`op, this`open, this`pending
      ensures State() == EnterCommit(old(State()), cand, saved)
    {
      Unmark(cand);
      if saved { open := open[cand.symbol := cand.id]; }
      op := Idle;
    }

    /** The end of enter: memory matches the store again, and only this trade's own marker
        is taken away. */
    method EndEnter()
      requires OpInv(State()) && op.Inserted?
      modifies this`op, this`open, this`pending
      ensures State() == After(old(State()), EnteredStep) && OpInv(State())
      ensures InStep(old(State())) && loaded ==> Matches(open, store)
      ensures forall s :: s in old(pending) && (s != old(op).cand.symbol || old(pending)[s] != old(op).cand.id)
                ==> s in pending && pending[s] == old(pending)[s]
      ensures old(op).cand.symbol in pending ==> pending[old(op).cand.symbol] != old(op).cand.id
      ensures open == if old(op).saved then old(open)[old(op).cand.symbol := old(op).cand.id] else old(open)
    {
      EnteredEffect(State());
      RecordEntry(op.cand, op.saved);
    }

    /** Close's search through the open trades. */
    method FindOpen(id: Id) returns (symbol: Option<Symbol>)
      ensures symbol.Some? ==> symbol.value in open && open[symbol.value] == id
      ensures symbol.None? ==> forall s :: s in open ==> open[s] != id
    {
      symbol := None;
      var rest := open.Keys;
      while rest != {}
        invariant rest <= open.Keys
        invariant forall s :: s in open && s !in rest ==> open[s] != id
        decreases rest
      {
        var s :| s in rest;
        if open[s] == id { return Some(s); }
        rest := rest - {s};
      }
    }

    /** Close up to its store call. A trade already closed is answered from memory and one
        unknown is an error: neither starts an operation. */
    method BeginClose(id: Id, depth: bool) returns (known: bool)
      requires OpInv(State()) && op.Idle?
      modifies this`op
      ensures OpInv(State()) && (InStep(old(State())) ==> InStep(State()))
      ensures op.Idle? ==> State() == old(State())
      ensures InStep(State()) && op.Closing? ==> OpenRow(store, id)
      ensures op != Idle ==> op.Closing? && op.id == id && State() == CloseCheck(old(State()), op.symbol, depth)
      ensures op.Idle? && Live(State()) && ready && depth ==> forall s :: s in open ==> open[s] != id
      ensures op.Closing? ==> !stopped && active && connected && ready && namespace == current && depth
      ensures known <==> op.Closing? || (!stopped && id in closed && forall s :: s in open ==> open[s] != id)
    {
      if stopped { return false; }
      var symbol := FindOpen(id);
      if symbol.None? { return id in closed; }
      if !active || !connected || !ready || namespace != current || !depth { return false; }
      Keeps(State(), CloseStep(symbol.value, depth));
      op := Closing(symbol.value, id);
      known := true;
    }

    /** The end of Close: memory matches the store again, without the trade, which now leads
        the closed ones. */
    method EndClose()
      requires OpInv(State()) && op.Closed?
      modifies this`op, this`open, this`closed
      ensures State() == After(old(State()), ClosedStep) && OpInv(State())
      ensures InStep(old(State())) && loaded ==> Matches(open, store)
      ensures old(op).symbol !in open && closed == [old(op).id] + old(closed)
    {
      Keeps(State(), ClosedStep);
      open := open - {op.symbol};
      closed := [op.id] + closed;
      op := Idle;
    }

    /** The open trades by symbol, as reconcile's loop over the rows read builds them. */
    method IndexRows(rows: seq<(Id, Symbol)>) returns (held: map<Symbol, Id>)
      ensures held == Indexed(rows)
    {
      held := map[];
      for i := 0 to |rows|
        invariant held == Indexed(rows[..i])
      {
        assert rows[..i + 1][..i] == rows[..i];
        held := held[rows[i].1 := rows[i].0];
      }
      assert rows[..|rows|] == rows;
    }

    method RecordLoad(held: map<Symbol, Id>, enabled: bool, under: nat)
      modifies this`op, this`open, this`loaded, this`paper
      ensures State() == old(State()).(open := held, loaded := true, paper := enabled, op := Readying(under))
    {
      open, paper, loaded, op := held, enabled, true, Readying(under);
    }

    /** The commit of reconcile's load: memory matches the store, whatever it held before. */
    method EndLoad(enabled: bool, closedToday: seq<Id>)
      requires OpInv(State()) && op.Read?
      modifies this`op, this`open, this`closed, this`loaded, this`paper
      ensures State() == After(old(State()), LoadStep(enabled)) && closed == closedToday
      ensures OpInv(State()) && loaded && Matches(open, store) && paper == enabled && op.Readying?
    {
      LoadEffect(State(), enabled);
      var held := IndexRows(op.rows);
      RecordLoad(held, enabled, op.namespace);
      closed := closedToday;
    }
  }

  /** The switches: each sets its own flag and leaves trades, candidates and the store alone. */
  lemma SwitchesTake(e: Engine, connected: bool, paper: bool, namespace: nat, ready: bool)
    ensures After(e, ConnectionStep(connected)) == e.(connected := connected)
    ensures After(e, StopStep) == e.(stopped := true)
    ensures After(e, RuntimeStep(namespace, ready)) == e.(current := namespace, ready := ready)
    ensures e.op.Idle? ==> After(e, PaperStep(paper)).paper == if e.stopped then e.paper else paper
  {
  }

  /** A reconcile reads the store exactly when nothing was loaded yet or the day has changed. */
  lemma ReconcileLoads(e: Engine, newDay: bool)
    requires e.op.Idle?
    ensures After(e, ReconcileStep(newDay)).op ==
            if e.stopped then Idle else if e.loaded && !newDay then Readying(e.current) else Loading(e.current)
  {
  }

  /** What the end of a reconcile decides: without a ready runtime the engine stands still
      under the namespace it looked at; when the universes were built and nothing overtook
      them it follows the market under it, and markers of another namespace are gone;
      otherwise it stays as it was. */
  lemma ReadyEffect(e: Engine, ok: bool)
    requires e.op.Readying?
    ensures var e', ns := After(e, ReadyStep(ok)), e.op.namespace;
            && e'.op.Idle? && e'.store == e.store && e'.open == e.open && e'.candidates == e.candidates
            && (!e.ready ==> !e'.active && !e'.connected && e'.namespace == ns && e'.pending == map[])
            && (e.ready && ok && !e.stopped && ns == e.current ==>
                  && e'.active && e'.namespace == e.current && e'.connected == e.connected
                  && e'.pending == if e.namespace == ns then e.pending else map[])
            && (e.ready && !(ok && !e.stopped && ns == e.current) ==> e' == e.(op := Idle))
  {
  }

  /** The two invariants, for a step whose reply was not lost. */
  lemma Keeps(e: Engine, step: Step)
    requires OpInv(e) && Enabled(e, step) && !Lost(step)
    ensures OpInv(After(e, step)) && (InStep(e) ==> InStep(After(e, step)))
  {
    StepKeepsOp(e, step);
    if InStep(e) { StepKeepsMatch(e, step); }
  }

  lemma EnterEffect(e: Engine, inTime: bool)
    requires OpInv(e) && e.op.Idle? && e.received.Some?
    ensures var e' := After(e, EnterStep(inTime));
            && OpInv(e') && (InStep(e) ==> InStep(e'))
            && (InStep(e') && e'.op.proceed ==> !HasOpen(e'.store, e'.op.cand.symbol))
  {
    var e' := After(e, EnterStep(inTime));
    Keeps(e, EnterStep(inTime));
    if InStep(e') && e'.op.proceed { InsertMatches(e'.open, e'.store, e'.op.cand); }
  }

  lemma EnteredEffect(e: Engine)
    requires OpInv(e) && e.op.Inserted?
    ensures var e' := After(e, EnteredStep);
            && OpInv(e') && (InStep(e) && e'.loaded ==> Matches(e'.open, e'.store))
            && forall s :: s in e.pending && (s != e.op.cand.symbol || e.pending[s] != e.op.cand.id)
                 ==> s in e'.pending && e'.pending[s] == e.pending[s]
  {
    Keeps(e, EnteredStep);
  }

  lemma LoadEffect(e: Engine, enabled: bool)
    requires OpInv(e) && e.op.Read?
    ensures var e' := After(e, LoadStep(enabled));
            OpInv(e') && e'.loaded && Matches(e'.open, e'.store)
  {
    StepKeepsOp(e, LoadStep(enabled));
    LoadRestores(e.store, e.op.rows);
  }

  lemma SignalKeeps(e: Engine, symbol: Symbol, id: Id)
    requires OpInv(e)
    ensures OpInv(Signal(e, symbol, id)) && (InStep(e) ==> InStep(Signal(e, symbol, id)))
  {
    Keeps(e, SignalStep(symbol, id));
  }
}
