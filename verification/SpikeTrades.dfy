/** Opening and closing paper trades (internal/spike/engine.go, internal/spike/actions.go,
    internal/spike/store.go). Operations that touch the store hold opMu from start to end;
    memory is read and written in short sections under mu, between which ticks, connection
    changes and Invalidate run freely. Every step is one mu section or one store call. */
module SpikeTrades {
  import opened Base

  type Id = string
  type Symbol = string

  datatype Row = Row(symbol: Symbol, open: bool)
  datatype Candidate = Candidate(id: Id, symbol: Symbol, namespace: nat)

  /** The operation that holds opMu, if any. */
  datatype Operation =
    | Idle
    | Entering(cand: Candidate, proceed: bool)
    | Inserted(cand: Candidate, saved: bool)
    | Closing(symbol: Symbol, id: Id)
    | Closed(symbol: Symbol, id: Id)
    | Loading(namespace: nat)
    | Read(namespace: nat, rows: seq<(Id, Symbol)>)
    | Readying(namespace: nat)

  datatype Engine = Engine(
    store: map<Id, Row>,
    open: map<Symbol, Id>,
    pending: map<Symbol, Id>,
    candidates: seq<Candidate>,
    received: Option<Candidate>,
    loaded: bool,
    paper: bool,
    active: bool,
    connected: bool,
    stopped: bool,
    namespace: nat,
    // the runtime's own namespace and readiness
    current: nat,
    ready: bool,
    op: Operation)

  /** The store call's effect and answer; LostReply is an error after the effect. */
  datatype Outcome = Applied | Refused | LostReply

  const QUEUE_LIMIT: nat := 2

  function NewEngine(store: map<Id, Row>, current: nat): Engine {
    Engine(store, map[], map[], [], None, false, false, false, false, false, 0, current, false, Idle)
  }

  // ---------------------------------------------------------------- the store

  predicate OpenRow(store: map<Id, Row>, id: Id) { id in store && store[id].open }

  ghost predicate HasOpen(store: map<Id, Row>, symbol: Symbol) {
    exists id :: OpenRow(store, id) && store[id].symbol == symbol
  }

  /** The unique index spike_one_open_per_symbol. */
  ghost predicate OneOpen(store: map<Id, Row>) {
    forall a, b :: OpenRow(store, a) && OpenRow(store, b) && store[a].symbol == store[b].symbol ==> a == b
  }

  /** The primary key and the unique index let this row in. */
  ghost predicate InsertAllowed(store: map<Id, Row>, cand: Candidate) {
    cand.id !in store && !HasOpen(store, cand.symbol)
  }

  ghost function Insert(store: map<Id, Row>, cand: Candidate, outcome: Outcome): map<Id, Row> {
    if outcome.Refused? || !InsertAllowed(store, cand) then store
    else store[cand.id := Row(cand.symbol, true)]
  }

  /** Only an open row is updated. */
  function CloseRow(store: map<Id, Row>, id: Id, outcome: Outcome): map<Id, Row> {
    if outcome.Refused? || !OpenRow(store, id) then store else store[id := store[id].(open := false)]
  }

  // ---------------------------------------------------------------- steps

  datatype Step =
    | SignalStep(symbol: Symbol, id: Id)
    | InvalidateStep
    | ConnectionStep(connected: bool)
    | RuntimeStep(namespace: nat, ready: bool)
    | StopStep
    | PaperStep(paper: bool)
    | ReceiveStep
    | EnterStep(inTime: bool)
    | InsertStep(outcome: Outcome)
    | EnteredStep
    | CloseStep(symbol: Symbol, depth: bool)
    | CloseRowStep(outcome: Outcome)
    | ClosedStep
    | ReconcileStep(newDay: bool)
    | ReadStep(rows: seq<(Id, Symbol)>, ok: bool)
    | LoadStep(paper: bool)
    | ReadyStep(ok: bool)

  /** The rows a query may return: each open row once, in any order. */
  ghost predicate OpenRows(store: map<Id, Row>, rows: seq<(Id, Symbol)>) {
    && (forall i :: 0 <= i < |rows| ==> OpenRow(store, rows[i].0) && store[rows[i].0].symbol == rows[i].1)
    && (forall id :: OpenRow(store, id) ==> exists i :: 0 <= i < |rows| && rows[i].0 == id)
  }

  ghost predicate Enabled(e: Engine, step: Step) {
    match step
    case PaperStep(_) => e.op.Idle?
    case ReceiveStep => e.candidates != [] && e.received.None?
    case EnterStep(_) => e.op.Idle? && e.received.Some?
    case InsertStep(_) => e.op.Entering?
    case EnteredStep => e.op.Inserted?
    case CloseStep(_, _) => e.op.Idle?
    case CloseRowStep(_) => e.op.Closing?
    case ClosedStep => e.op.Closed?
    case ReconcileStep(_) => e.op.Idle?
    case ReadStep(rows, ok) => e.op.Loading? && (ok ==> OpenRows(e.store, rows))
    case LoadStep(paper) => e.op.Read?
    case ReadyStep(_) => e.op.Readying?
    case _ => true
  }

  predicate Live(e: Engine) { !e.stopped && e.active && e.connected && e.namespace == e.current }

  /** The end of evaluateLocked on a qualified signal. */
  function Signal(e: Engine, symbol: Symbol, id: Id): Engine {
    if Live(e) && e.paper && symbol !in e.open && symbol !in e.pending && |e.candidates| < QUEUE_LIMIT
    then e.(candidates := e.candidates + [Candidate(id, symbol, e.namespace)], pending := e.pending[symbol := id])
    else e
  }

  /** The first section of enter. */
  function EnterCheck(e: Engine, cand: Candidate, inTime: bool): Engine {
    var valid := Live(e) && e.paper && e.ready && e.namespace == cand.namespace && inTime;
    e.(op := Entering(cand, valid && cand.symbol !in e.open), received := None)
  }

  ghost function InsertCall(e: Engine, outcome: Outcome): Engine
    requires e.op.Entering?
  {
    if !e.op.proceed then e.(op := Inserted(e.op.cand, false))
    else
      e.(store := Insert(e.store, e.op.cand, outcome),
         op := Inserted(e.op.cand, outcome.Applied? && InsertAllowed(e.store, e.op.cand)))
  }

  function Unmarked(pending: map<Symbol, Id>, cand: Candidate): map<Symbol, Id> {
    if cand.symbol in pending && pending[cand.symbol] == cand.id then pending - {cand.symbol} else pending
  }

  /** The second section of enter. */
  function EnterCommit(e: Engine, cand: Candidate, saved: bool): Engine {
    e.(pending := Unmarked(e.pending, cand),
       open := if saved then e.open[cand.symbol := cand.id] else e.open,
       op := Idle)
  }

  /** Close up to its store call: only a trade held open, under the symbol the search by id
      stopped at, with a live book. */
  function CloseCheck(e: Engine, symbol: Symbol, depth: bool): Engine {
    if Live(e) && e.ready && depth && symbol in e.open then e.(op := Closing(symbol, e.open[symbol])) else e
  }

  function CloseCall(e: Engine, outcome: Outcome): Engine
    requires e.op.Closing?
  {
    e.(store := CloseRow(e.store, e.op.id, outcome),
       op := if outcome.Applied? && OpenRow(e.store, e.op.id) then Closed(e.op.symbol, e.op.id) else Idle)
  }

  /** The map reconcile builds from the rows read, later rows over earlier ones. */
  function Indexed(rows: seq<(Id, Symbol)>): map<Symbol, Id> {
    if rows == [] then map[]
    else
      var last := rows[|rows| - 1];
      Indexed(rows[..|rows| - 1])[last.1 := last.0]
  }

  /** reconcile after any load: the runtime is not ready, or the universes were built, or
      building them failed or was overtaken. */
  function Ready(e: Engine, namespace: nat, ok: bool): Engine {
    if !e.ready then e.(active := false, connected := false, namespace := namespace, pending := map[], op := Idle)
    else if !ok || e.stopped || namespace != e.current then e.(op := Idle)
    else
      e.(pending := if e.namespace != namespace then map[] else e.pending,
         namespace := namespace, active := true, op := Idle)
  }

  predicate IsAside(step: Step) {
    !(step.InsertStep? || step.EnteredStep? || step.CloseRowStep? || step.ClosedStep? || step.LoadStep?)
  }

  /** The steps that touch neither the store nor the trades in memory. */
  ghost function Aside(e: Engine, step: Step): (r: Engine)
    requires Enabled(e, step)
    requires IsAside(step)
    ensures r.store == e.store && r.open == e.open && r.loaded == e.loaded
  {
    match step
    case SignalStep(symbol, id) => Signal(e, symbol, id)
    case InvalidateStep => e.(active := false, connected := false, pending := map[])
    case ConnectionStep(connected) => e.(connected := connected)
    case RuntimeStep(namespace, ready) => e.(current := namespace, ready := ready)
    case StopStep => e.(stopped := true)
    case PaperStep(paper) => if e.stopped then e else e.(paper := paper)
    case ReceiveStep => e.(received := Some(e.candidates[0]), candidates := e.candidates[1..])
    case EnterStep(inTime) => EnterCheck(e, e.received.value, inTime)
    case CloseStep(symbol, depth) => CloseCheck(e, symbol, depth)
    case ReconcileStep(newDay) =>
      if e.stopped then e else e.(op := if !e.loaded || newDay then Loading(e.current) else Readying(e.current))
    case ReadStep(rows, ok) => e.(op := if ok then Read(e.op.namespace, rows) else Idle)
    case ReadyStep(ok) => Ready(e, e.op.namespace, ok)
  }

  ghost function After(e: Engine, step: Step): Engine
    requires Enabled(e, step)
  {
    match step
    case InsertStep(outcome) => InsertCall(e, outcome)
    case EnteredStep => EnterCommit(e, e.op.cand, e.op.saved)
    case CloseRowStep(outcome) => CloseCall(e, outcome)
    case ClosedStep => e.(open := e.open - {e.op.symbol}, op := Idle)
    case LoadStep(paper) =>
      e.(open := Indexed(e.op.rows), loaded := true, paper := paper, op := Readying(e.op.namespace))
    case _ => Aside(e, step)
  }

  // ---------------------------------------------------------------- memory equals the store

  /** The trades in memory are exactly the store's open rows, one per symbol. */
  ghost predicate Matches(open: map<Symbol, Id>, store: map<Id, Row>) {
    && (forall s :: s in open ==> OpenRow(store, open[s]) && store[open[s]].symbol == s)
    && (forall id :: OpenRow(store, id) ==> store[id].symbol in open && open[store[id].symbol] == id)
  }

  /** Whoever is between a store call and the section that records it accounts for the
      difference. */
  ghost predicate InStep(e: Engine) {
    match e.op
    case Inserted(cand, true) => e.loaded && cand.symbol !in e.open && Matches(e.open[cand.symbol := cand.id], e.store)
    case Closed(symbol, id) => symbol in e.open && Matches(e.open - {symbol}, e.store)
    case _ => e.loaded ==> Matches(e.open, e.store)
  }

  /** What an operation has established before its store call. */
  ghost predicate OpEstablished(e: Engine) {
    match e.op
    case Entering(cand, proceed) => proceed ==> e.loaded && cand.symbol !in e.open
    case Closing(symbol, id) => e.loaded && symbol in e.open && e.open[symbol] == id
    case Read(_, rows) => OpenRows(e.store, rows)
    case Readying(_) => e.loaded
    case _ => true
  }

  ghost predicate OpInv(e: Engine) { OneOpen(e.store) && (e.active ==> e.loaded) && OpEstablished(e) }

  lemma {:induction false} IndexedMatches(store: map<Id, Row>, rows: seq<(Id, Symbol)>)
    requires OneOpen(store)
    requires forall i :: 0 <= i < |rows| ==> OpenRow(store, rows[i].0) && store[rows[i].0].symbol == rows[i].1
    ensures forall i :: 0 <= i < |rows| ==> rows[i].1 in Indexed(rows) && Indexed(rows)[rows[i].1] == rows[i].0
    ensures forall s :: s in Indexed(rows) ==> OpenRow(store, Indexed(rows)[s]) && store[Indexed(rows)[s]].symbol == s
  {
    if rows != [] { IndexedMatches(store, rows[..|rows| - 1]); }
  }

  /** A load restores the match whatever memory held before. */
  lemma LoadRestores(store: map<Id, Row>, rows: seq<(Id, Symbol)>)
    requires OneOpen(store) && OpenRows(store, rows)
    ensures Matches(Indexed(rows), store)
  {
    IndexedMatches(store, rows);
  }

  /** When memory matches, a symbol not held has no open row. */
  lemma InsertMatches(open: map<Symbol, Id>, store: map<Id, Row>, cand: Candidate)
    requires Matches(open, store) && cand.symbol !in open
    ensures !HasOpen(store, cand.symbol)
    ensures cand.id !in store ==> Matches(open[cand.symbol := cand.id], Insert(store, cand, Applied))
  {
    if cand.id !in store {
      var open', store' := open[cand.symbol := cand.id], Insert(store, cand, Applied);
      assert store' == store[cand.id := Row(cand.symbol, true)];
      forall id | OpenRow(store', id)
        ensures store'[id].symbol in open' && open'[store'[id].symbol] == id
      {
        if id != cand.id { assert OpenRow(store, id); }
      }
    }
  }

  lemma CloseMatches(open: map<Symbol, Id>, store: map<Id, Row>, symbol: Symbol)
    requires Matches(open, store) && symbol in open
    ensures OpenRow(store, open[symbol])
    ensures Matches(open - {symbol}, CloseRow(store, open[symbol], Applied))
  {
    var store' := CloseRow(store, open[symbol], Applied);
    assert forall id :: OpenRow(store', id) <==> OpenRow(store, id) && id != open[symbol];
  }

  predicate Lost(step: Step) {
    (step.InsertStep? || step.CloseRowStep?) && step.outcome.LostReply?
  }

  lemma InsertKeepsOneOpen(store: map<Id, Row>, cand: Candidate, outcome: Outcome)
    requires OneOpen(store)
    ensures OneOpen(Insert(store, cand, outcome))
  {
    var store' := Insert(store, cand, outcome);
    if store' != store {
      assert forall id :: OpenRow(store', id) <==> OpenRow(store, id) || id == cand.id;
      assert forall id :: OpenRow(store, id) ==> store[id].symbol != cand.symbol;
    }
  }

  lemma CloseKeepsOneOpen(store: map<Id, Row>, id: Id, outcome: Outcome)
    requires OneOpen(store)
    ensures OneOpen(CloseRow(store, id, outcome))
  {
    var store' := CloseRow(store, id, outcome);
    assert forall k :: OpenRow(store', k) ==> OpenRow(store, k) && store'[k] == store[k];
  }

  /** The store changes by its two calls alone. */
  ghost function StoreAfter(e: Engine, step: Step): map<Id, Row>
    requires Enabled(e, step)
  {
    match step
    case InsertStep(outcome) => if e.op.proceed then Insert(e.store, e.op.cand, outcome) else e.store
    case CloseRowStep(outcome) => CloseRow(e.store, e.op.id, outcome)
    case _ => e.store
  }

  lemma CommitStores(e: Engine, step: Step)
    requires Enabled(e, step) && !IsAside(step)
    ensures After(e, step).store == StoreAfter(e, step)
  {
    match step
    case InsertStep(outcome) => InsertStores(e, outcome);
    case CloseRowStep(outcome) => CloseStores(e, outcome);
    case EnteredStep => EnterStores(e, e.op.cand, e.op.saved);
    case _ =>
  }

  lemma InsertStores(e: Engine, outcome: Outcome)
    requires e.op.Entering?
    ensures InsertCall(e, outcome).store == if e.op.proceed then Insert(e.store, e.op.cand, outcome) else e.store
    ensures InsertCall(e, outcome).candidates == e.candidates
  {
  }

  lemma CloseStores(e: Engine, outcome: Outcome)
    requires e.op.Closing?
    ensures CloseCall(e, outcome).store == CloseRow(e.store, e.op.id, outcome)
    ensures CloseCall(e, outcome).candidates == e.candidates
  {
  }

  lemma EnterStores(e: Engine, cand: Candidate, saved: bool)
    ensures EnterCommit(e, cand, saved).store == e.store && EnterCommit(e, cand, saved).candidates == e.candidates
  {
  }

  lemma StoreCalls(e: Engine, step: Step)
    requires Enabled(e, step)
    ensures After(e, step).store == StoreAfter(e, step)
  {
    if IsAside(step) {
      assert After(e, step) == Aside(e, step);
    } else {
      CommitStores(e, step);
    }
  }

  lemma OneOpenKept(e: Engine, step: Step)
    requires OneOpen(e.store) && Enabled(e, step)
    ensures OneOpen(After(e, step).store)
  {
    StoreCalls(e, step);
    match step
    case InsertStep(outcome) => InsertKeepsOneOpen(e.store, e.op.cand, outcome);
    case CloseRowStep(outcome) => CloseKeepsOneOpen(e.store, e.op.id, outcome);
    case _ =>
  }

  lemma AsideKeepsOp(e: Engine, step: Step)
    requires OpEstablished(e) && (e.active ==> e.loaded) && Enabled(e, step) && IsAside(step)
    ensures OpEstablished(Aside(e, step)) && (Aside(e, step).active ==> Aside(e, step).loaded)
  {
  }

  /** A store call or the section after one leaves nothing to establish. */
  lemma CommitKeepsOp(e: Engine, step: Step)
    requires OpEstablished(e) && (e.active ==> e.loaded) && Enabled(e, step) && !IsAside(step)
    ensures OpEstablished(After(e, step)) && (After(e, step).active ==> After(e, step).loaded)
  {
  }

  lemma StepKeepsOp(e: Engine, step: Step)
    requires OpInv(e) && Enabled(e, step)
    ensures OpInv(After(e, step))
  {
    OneOpenKept(e, step);
    if IsAside(step) { AsideKeepsOp(e, step); } else { CommitKeepsOp(e, step); }
  }

  /** Without a lost reply the answer tells the effect. */
  lemma InsertEffect(store: map<Id, Row>, cand: Candidate, outcome: Outcome)
    requires !outcome.LostReply?
    ensures var saved := outcome.Applied? && InsertAllowed(store, cand);
            Insert(store, cand, outcome) == if saved then Insert(store, cand, Applied) else store
  {
  }

  lemma InsertCallKeeps(e: Engine, outcome: Outcome)
    requires OpInv(e) && InStep(e) && e.op.Entering? && !outcome.LostReply?
    ensures InStep(InsertCall(e, outcome))
  {
    var cand := e.op.cand;
    if e.op.proceed {
      InsertEffect(e.store, cand, outcome);
      if outcome.Applied? && InsertAllowed(e.store, cand) { InsertMatches(e.open, e.store, cand); }
    }
  }

  lemma CloseCallKeeps(e: Engine, outcome: Outcome)
    requires OpInv(e) && InStep(e) && e.op.Closing? && !outcome.LostReply?
    ensures InStep(CloseCall(e, outcome))
  {
    CloseMatches(e.open, e.store, e.op.symbol);
  }

  /** Steps between operations, or inside one but touching neither open nor the store. */
  lemma SameTrades(e: Engine, e': Engine)
    requires InStep(e) && e'.open == e.open && e'.store == e.store && e'.loaded == e.loaded
    requires e'.op == e.op || !(e.op.Inserted? || e.op.Closed? || e'.op.Inserted? || e'.op.Closed?)
    ensures InStep(e')
  {
  }

  lemma StepKeepsMatch(e: Engine, step: Step)
    requires OpInv(e) && InStep(e) && Enabled(e, step) && !Lost(step)
    ensures InStep(After(e, step))
  {
    match step
    case InsertStep(outcome) => InsertCallKeeps(e, outcome);
    case CloseRowStep(outcome) => CloseCallKeeps(e, outcome);
    case LoadStep(paper) => LoadRestores(e.store, e.op.rows);
    case EnteredStep =>
    case ClosedStep =>
    case _ => SameTrades(e, After(e, step));
  }

  // ---------------------------------------------------------------- runs

  ghost predicate Reaches(e: Engine, steps: seq<Step>, e': Engine)
    decreases |steps|
  {
    if steps == [] then e' == e
    else Enabled(e, steps[0]) && Reaches(After(e, steps[0]), steps[1..], e')
  }

  predicate Honest(steps: seq<Step>) { forall i :: 0 <= i < |steps| ==> !Lost(steps[i]) }

  lemma {:induction false} RunKeepsOp(e: Engine, steps: seq<Step>, e': Engine)
    requires OpInv(e) && Reaches(e, steps, e')
    ensures OpInv(e')
    decreases |steps|
  {
    if steps != [] {
      StepKeepsOp(e, steps[0]);
      RunKeepsOp(After(e, steps[0]), steps[1..], e');
    }
  }

  lemma {:induction false} RunKeepsMatch(e: Engine, steps: seq<Step>, e': Engine)
    requires OpInv(e) && InStep(e) && Reaches(e, steps, e') && Honest(steps)
    ensures InStep(e')
    decreases |steps|
  {
    if steps != [] {
      StepKeepsOp(e, steps[0]);
      StepKeepsMatch(e, steps[0]);
      RunKeepsMatch(After(e, steps[0]), steps[1..], e');
    }
  }

  /** If a store error means no effect, then in every run, from whatever rows the store held,
      memory equals the store's open rows whenever opMu is free after the first load; and in
      every run at all no symbol has two open rows. */
  lemma TradesMatch(store: map<Id, Row>, current: nat, steps: seq<Step>, e: Engine)
    requires OneOpen(store) && Reaches(NewEngine(store, current), steps, e)
    ensures OneOpen(e.store)
    ensures Honest(steps) && e.loaded && e.op.Idle? ==> Matches(e.open, e.store)
  {
    RunKeepsOp(NewEngine(store, current), steps, e);
    if Honest(steps) { RunKeepsMatch(NewEngine(store, current), steps, e); }
  }

  /** Over every honest run the protocol alone keeps the unique index from firing: an entry
      that goes on to its insert finds no open row for its symbol, markers cleared by
      Invalidate and candidates queued twice notwithstanding. */
  lemma IndexNeverFires(store: map<Id, Row>, current: nat, steps: seq<Step>, e: Engine)
    requires OneOpen(store) && Reaches(NewEngine(store, current), steps, e) && Honest(steps)
    requires e.op.Entering? && e.op.proceed
    ensures !HasOpen(e.store, e.op.cand.symbol)
  {
    RunKeepsOp(NewEngine(store, current), steps, e);
    RunKeepsMatch(NewEngine(store, current), steps, e);
    InsertMatches(e.open, e.store, e.op.cand);
  }

  /** Rows are never removed, and a closed one never reopens, lost replies or not. */
  lemma {:induction false} ClosedStaysClosed(e: Engine, steps: seq<Step>, e': Engine, id: Id)
    requires Reaches(e, steps, e') && id in e.store
    ensures id in e'.store && e'.store[id].symbol == e.store[id].symbol
    ensures !e.store[id].open ==> !e'.store[id].open
    decreases |steps|
  {
    if steps != [] {
      StoreCalls(e, steps[0]);
      ClosedStaysClosed(After(e, steps[0]), steps[1..], e', id);
    }
  }

  /** A closed trade is never among the open ones in memory. */
  lemma ClosedIsNotHeldOpen(store: map<Id, Row>, current: nat, steps: seq<Step>, e: Engine, symbol: Symbol)
    requires OneOpen(store) && Reaches(NewEngine(store, current), steps, e) && Honest(steps)
    requires e.loaded && e.op.Idle? && symbol in e.open
    ensures OpenRow(e.store, e.open[symbol])
  {
    TradesMatch(store, current, steps, e);
  }

  /** What one step puts into the candidate channel, and what it takes out of it. */
  ghost function SentBy(e: Engine, step: Step): seq<Candidate>
    requires Enabled(e, step)
  {
    var e' := After(e, step);
    if step.SignalStep? && |e'.candidates| > |e.candidates| then e'.candidates[|e.candidates|..] else []
  }

  ghost function ReceivedBy(e: Engine, step: Step): seq<Candidate>
    requires Enabled(e, step)
  {
    var e' := After(e, step);
    if step.ReceiveStep? && e'.received.Some? then [e'.received.value] else []
  }

  ghost function Sent(e: Engine, steps: seq<Step>, e': Engine): seq<Candidate>
    requires Reaches(e, steps, e')
    decreases |steps|
  {
    if steps == [] then [] else SentBy(e, steps[0]) + Sent(After(e, steps[0]), steps[1..], e')
  }

  ghost function Received(e: Engine, steps: seq<Step>, e': Engine): seq<Candidate>
    requires Reaches(e, steps, e')
    decreases |steps|
  {
    if steps == [] then [] else ReceivedBy(e, steps[0]) + Received(After(e, steps[0]), steps[1..], e')
  }

  lemma AsideKeepsCandidates(e: Engine, step: Step)
    requires Enabled(e, step) && IsAside(step) && !step.SignalStep? && !step.ReceiveStep?
    ensures Aside(e, step).candidates == e.candidates
  {
  }

  lemma CommitKeepsCandidates(e: Engine, step: Step)
    requires Enabled(e, step) && !IsAside(step)
    ensures After(e, step).candidates == e.candidates
  {
    match step
    case InsertStep(outcome) => InsertStores(e, outcome);
    case CloseRowStep(outcome) => CloseStores(e, outcome);
    case EnteredStep => EnterStores(e, e.op.cand, e.op.saved);
    case _ =>
  }

  lemma OthersKeepCandidates(e: Engine, step: Step)
    requires Enabled(e, step) && !step.SignalStep? && !step.ReceiveStep?
    ensures After(e, step).candidates == e.candidates
  {
    if IsAside(step) {
      AsideKeepsCandidates(e, step);
      assert After(e, step) == Aside(e, step);
    } else {
      CommitKeepsCandidates(e, step);
    }
  }

  lemma SignalCandidates(e: Engine, step: Step)
    requires step.SignalStep?
    ensures e.candidates <= After(e, step).candidates
  {
  }

  lemma ReceiveCandidates(e: Engine, step: Step)
    requires Enabled(e, step) && step.ReceiveStep?
    ensures After(e, step).received.Some?
    ensures e.candidates == [After(e, step).received.value] + After(e, step).candidates
  {
  }

  lemma CandidateStep(e: Engine, step: Step)
    requires Enabled(e, step)
    ensures e.candidates + SentBy(e, step) == ReceivedBy(e, step) + After(e, step).candidates
    ensures step.ReceiveStep? ==> |ReceivedBy(e, step)| == 1
  {
    if step.SignalStep? {
      SignalCandidates(e, step);
    } else if step.ReceiveStep? {
      ReceiveCandidates(e, step);
    } else {
      OthersKeepCandidates(e, step);
    }
  }

  /** Candidates are received in the order of their signals, each once and none lost: no
      Invalidate, load or namespace change withdraws or reorders them. */
  lemma {:induction false} CandidatesInOrder(e: Engine, steps: seq<Step>, e': Engine)
    requires Reaches(e, steps, e')
    ensures e.candidates + Sent(e, steps, e') == Received(e, steps, e') + e'.candidates
    decreases |steps|
  {
    if steps == [] {
      assert e.candidates + [] == [] + e.candidates;
    } else {
      var e1 := After(e, steps[0]);
      CandidateStep(e, steps[0]);
      CandidatesInOrder(e1, steps[1..], e');
      Regroup(e.candidates, SentBy(e, steps[0]), ReceivedBy(e, steps[0]), e1.candidates,
              Sent(e1, steps[1..], e'), Received(e1, steps[1..], e'), e'.candidates);
    }
  }

  lemma Regroup<T>(a: seq<T>, put: seq<T>, taken: seq<T>, b: seq<T>, later: seq<T>, more: seq<T>, c: seq<T>)
    requires a + put == taken + b && b + later == more + c
    ensures a + (put + later) == (taken + more) + c
  {
    assert a + (put + later) == (a + put) + later;
    assert (taken + b) + later == taken + (b + later);
    assert taken + (more + c) == (taken + more) + c;
  }

  // ---------------------------------------------------------------- lost replies

  /** Exactly when the match survives an entry: unless the insert took effect and the reply
      was lost. */
  lemma EntryMatchesExactly(e: Engine, outcome: Outcome)
    requires OpInv(e) && InStep(e) && e.op.Entering? && e.op.proceed
    ensures var e' := After(After(e, InsertStep(outcome)), EnteredStep);
            Matches(e'.open, e'.store) <==> !(outcome.LostReply? && e.op.cand.id !in e.store)
  {
    var cand := e.op.cand;
    var e' := After(After(e, InsertStep(outcome)), EnteredStep);
    InsertMatches(e.open, e.store, cand);
    if outcome.LostReply? && cand.id !in e.store {
      assert e'.open == e.open && OpenRow(e'.store, cand.id) && e'.store[cand.id].symbol == cand.symbol;
    } else if outcome.Applied? && cand.id !in e.store {
      assert e'.open == e.open[cand.symbol := cand.id] && e'.store == Insert(e.store, cand, Applied);
    } else {
      assert e'.open == e.open && e'.store == e.store;
    }
  }

  /** The same for a close, which always finds its row open. */
  lemma CloseMatchesExactly(e: Engine, outcome: Outcome)
    requires OpInv(e) && InStep(e) && e.loaded && e.op.Closing?
    ensures var e1 := After(e, CloseRowStep(outcome));
            var e' := if e1.op.Idle? then e1 else After(e1, ClosedStep);
            Matches(e'.open, e'.store) <==> !outcome.LostReply?
  {
    CloseMatches(e.open, e.store, e.op.symbol);
    var e1 := CloseCall(e, outcome);
    if outcome.LostReply? {
      assert e1.op.Idle? && e1.open == e.open && !OpenRow(e1.store, e.open[e.op.symbol]);
    } else if outcome.Applied? {
      assert e1.store == CloseRow(e.store, e.op.id, Applied);
    } else {
      assert e1.store == e.store;
    }
  }

  // ---------------------------------------------------------------- runs that lose a reply

  lemma {:induction false} Extends(e: Engine, steps: seq<Step>, e': Engine, step: Step)
    requires Reaches(e, steps, e') && Enabled(e', step)
    ensures Reaches(e, steps + [step], After(e', step))
    decreases |steps|
  {
    var more := steps + [step];
    if steps == [] {
      assert more[1..] == [] && Reaches(After(e, step), [], After(e, step));
    } else {
      assert more[1..] == steps[1..] + [step];
      Extends(After(e, steps[0]), steps[1..], e', step);
    }
  }

  /** The engine once it has loaded an empty store and follows the market. */
  function Trading(current: nat): Engine {
    NewEngine(map[], current).(ready := true, loaded := true, paper := true, active := true, connected := true,
                               namespace := current)
  }

  lemma StartsTrading(current: nat) returns (steps: seq<Step>)
    ensures Reaches(NewEngine(map[], current), steps, Trading(current))
  {
    var e0 := NewEngine(map[], current);
    Extends(e0, [], e0, RuntimeStep(current, true));
    var e1 := e0.(ready := true);
    Extends(e0, [] + [RuntimeStep(current, true)], e1, ReconcileStep(false));
    var e2 := e1.(op := Loading(current));
    var s2 := [] + [RuntimeStep(current, true)] + [ReconcileStep(false)];
    Extends(e0, s2, e2, ReadStep([], true));
    var e3 := e1.(op := Read(current, []));
    Extends(e0, s2 + [ReadStep([], true)], e3, LoadStep(true));
    var e4 := e1.(open := map[], loaded := true, paper := true, op := Readying(current));
    var s4 := s2 + [ReadStep([], true)] + [LoadStep(true)];
    Extends(e0, s4, e4, ReadyStep(true));
    var e5 := e4.(namespace := current, active := true, op := Idle);
    Extends(e0, s4 + [ReadyStep(true)], e5, ConnectionStep(true));
    steps := s4 + [ReadyStep(true)] + [ConnectionStep(true)];
  }

  /** A signal on that engine takes its candidate to the insert. */
  function Inserting(current: nat, symbol: Symbol, id: Id): Engine {
    Trading(current).(pending := map[symbol := id], op := Entering(Candidate(id, symbol, current), true))
  }

  lemma StartsInserting(current: nat, symbol: Symbol, id: Id) returns (steps: seq<Step>)
    ensures Reaches(NewEngine(map[], current), steps, Inserting(current, symbol, id))
  {
    var e0, e1, cand := NewEngine(map[], current), Trading(current), Candidate(id, symbol, current);
    steps := StartsTrading(current);
    Extends(e0, steps, e1, SignalStep(symbol, id));
    var e2 := e1.(candidates := [cand], pending := map[symbol := id]);
    assert After(e1, SignalStep(symbol, id)) == e2;
    steps := steps + [SignalStep(symbol, id)];
    Extends(e0, steps, e2, ReceiveStep);
    var e3 := e2.(candidates := [], received := Some(cand));
    assert After(e2, ReceiveStep) == e3;
    steps := steps + [ReceiveStep];
    Extends(e0, steps, e3, EnterStep(true));
    assert After(e3, EnterStep(true)) == Inserting(current, symbol, id);
    steps := steps + [EnterStep(true)];
  }

  /** From a new engine: an insert whose reply is lost leaves a row open that memory does not
      know of. */
  lemma LostInsertDiverges(current: nat, symbol: Symbol, id: Id)
    ensures exists steps, e :: Reaches(NewEngine(map[], current), steps, e)
                               && e.loaded && e.op.Idle? && !Matches(e.open, e.store)
  {
    var e0, e1 := NewEngine(map[], current), Inserting(current, symbol, id);
    var steps := StartsInserting(current, symbol, id);
    RunKeepsOp(e0, steps, e1);
    EntryMatchesExactly(e1, LostReply);
    Extends(e0, steps, e1, InsertStep(LostReply));
    var e2 := After(e1, InsertStep(LostReply));
    Extends(e0, steps + [InsertStep(LostReply)], e2, EnteredStep);
  }

  /** The engine with that trade open, in the store and in memory. */
  function Holding(current: nat, symbol: Symbol, id: Id): Engine {
    Trading(current).(store := map[id := Row(symbol, true)], open := map[symbol := id])
  }

  lemma StartsHolding(current: nat, symbol: Symbol, id: Id) returns (steps: seq<Step>)
    ensures Reaches(NewEngine(map[], current), steps, Holding(current, symbol, id))
  {
    var e0, e1 := NewEngine(map[], current), Inserting(current, symbol, id);
    steps := StartsInserting(current, symbol, id);
    Extends(e0, steps, e1, InsertStep(Applied));
    var e2 := e1.(store := map[id := Row(symbol, true)], op := Inserted(e1.op.cand, true));
    assert After(e1, InsertStep(Applied)) == e2;
    steps := steps + [InsertStep(Applied)];
    Extends(e0, steps, e2, EnteredStep);
    assert After(e2, EnteredStep).pending == map[];
    assert After(e2, EnteredStep) == Holding(current, symbol, id);
    steps := steps + [EnteredStep];
  }

  /** And a close whose reply is lost leaves memory holding a trade that is closed. */
  lemma LostCloseDiverges(current: nat, symbol: Symbol, id: Id)
    ensures exists steps, e :: Reaches(NewEngine(map[], current), steps, e)
                               && e.loaded && e.op.Idle? && !Matches(e.open, e.store)
  {
    var e0, e1 := NewEngine(map[], current), Holding(current, symbol, id);
    var steps := StartsHolding(current, symbol, id);
    Extends(e0, steps, e1, CloseStep(symbol, true));
    var e2 := e1.(op := Closing(symbol, id));
    assert After(e1, CloseStep(symbol, true)) == e2;
    steps := steps + [CloseStep(symbol, true)];
    RunKeepsOp(e0, steps, e2);
    assert Matches(e2.open, e2.store);
    CloseMatchesExactly(e2, LostReply);
    Extends(e0, steps, e2, CloseRowStep(LostReply));
  }
}
