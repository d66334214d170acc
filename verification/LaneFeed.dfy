/** One lane's market-data socket (internal/kite/lanefeed.go): the wanted and confirmed
    token sets, the reconnect timer with its backoff, and EnsureSocket, which checks and
    opens in two critical sections. Socket callbacks and timers may arrive late; every step
    is one critical section. */
module LaneFeed {
  import opened Base

  type Token = int
  type SocketId = nat
  type TimerId = nat

  datatype Feed = Feed(
    base: nat,
    maxDelay: nat,
    sock: Option<SocketId>,
    sockSeq: nat,
    wanted: set<Token>,
    subscribed: set<Token>,
    connected: bool,
    disposed: bool,
    attempts: nat,
    pending: Option<TimerId>,
    timerSeq: nat,
    // the world outside: sockets opened and not yet closed, what each was told, timers that
    // may still call back, timers cancelled, and EnsureSocket calls past their first check
    // with the timer that made them, if any
    open: set<SocketId>,
    told: map<SocketId, set<Token>>,
    armed: set<TimerId>,
    cancelled: set<TimerId>,
    ensuring: multiset<Option<TimerId>>,
    delays: seq<(nat, nat)>)

  function NewFeed(base: nat, maxDelay: nat): Feed
    requires base > 0 && maxDelay > 0
  {
    Feed(base, maxDelay, None, 0, {}, {}, false, false, 0, None, 0, {}, map[], {}, {}, multiset{}, [])
  }

  function Pow2(n: nat): nat { if n == 0 then 1 else 2 * Pow2(n - 1) }

  /** The documented backoff. */
  function Backoff(base: nat, maxDelay: nat, attempts: nat): nat { Min(maxDelay, base * Pow2(attempts)) }

  lemma {:induction false} Pow2Grows(m: nat, n: nat)
    requires m <= n
    ensures 1 <= Pow2(m) <= Pow2(n)
  {
    if m < n { Pow2Grows(m, n - 1); } else if m > 0 { Pow2Grows(m - 1, m - 1); }
  }

  /** The capped doubling loop of scheduleReconnect computes min(max, base * 2^attempts)
      without passing twice the cap. */
  method ReconnectDelay(base: nat, maxDelay: nat, attempts: nat) returns (delay: nat)
    requires base > 0
    ensures delay == Backoff(base, maxDelay, attempts)
  {
    delay := base;
    var i := 0;
    while i < attempts && delay < maxDelay
      invariant 0 <= i <= attempts && delay == base * Pow2(i)
      invariant delay <= Max(base, 2 * maxDelay)
      decreases attempts - i
    {
      assert base * Pow2(i + 1) == 2 * (base * Pow2(i));
      delay := delay * 2;
      i := i + 1;
    }
    Pow2Grows(i, attempts);
    assert base * Pow2(i) <= base * Pow2(attempts) by { Scale(base, Pow2(i), Pow2(attempts)); }
    if delay > maxDelay { delay := maxDelay; }
  }

  lemma Scale(k: nat, a: nat, b: nat)
    requires a <= b
    ensures k * a <= k * b
  {
    assert k * (b - a) >= 0;
  }

  // ---------------------------------------------------------------- critical sections

  /** currentLocked: is this callback from the socket in use? */
  predicate Current(f: Feed, id: SocketId) { f.sock == Some(id) && !f.disposed }

  /** The second half of EnsureSocket: open with the whole wanted list, unless another call
      got there first or the feed was stopped. */
  function Open(f: Feed): Feed {
    if f.disposed || f.sock.Some? then f
    else
      var id := f.sockSeq + 1;
      f.(sockSeq := id, sock := Some(id), open := f.open + {id}, told := f.told[id := f.wanted])
  }

  function OnOpen(f: Feed, id: SocketId): Feed {
    if !Current(f, id) then f else f.(attempts := 0, subscribed := f.wanted, connected := true)
  }

  function CancelReconnect(f: Feed): Feed {
    if f.pending.None? then f
    else f.(pending := None, timerSeq := f.timerSeq + 1, cancelled := f.cancelled + {f.pending.value})
  }

  function Teardown(f: Feed): Feed {
    CancelReconnect(f).(sock := None, subscribed := {}, connected := false,
        open := if f.sock.Some? then f.open - {f.sock.value} else f.open)
  }

  function OnError(f: Feed, id: SocketId): Feed {
    if !Current(f, id) then f else Teardown(f)
  }

  function Schedule(f: Feed): Feed {
    if f.disposed || f.pending.Some? || f.wanted == {} then f
    else
      var seqNo := f.timerSeq + 1;
      f.(attempts := f.attempts + 1, timerSeq := seqNo, pending := Some(seqNo), armed := f.armed + {seqNo},
         delays := f.delays + [(f.attempts, Backoff(f.base, f.maxDelay, f.attempts))])
  }

  function OnClose(f: Feed, id: SocketId): Feed {
    if !Current(f, id) then f
    else Schedule(f.(sock := None, subscribed := {}, connected := false, open := f.open - {id}))
  }

  /** The reconnect callback: stale when the sequence number moved on. */
  function OnTimer(f: Feed, id: TimerId): Feed {
    var f1 := f.(armed := f.armed - {id});
    if f.timerSeq != id then f1
    else
      var f2 := f1.(pending := None);
      if f.disposed then f2 else StartEnsure(f2, Some(id))
  }

  /** The first half of EnsureSocket: go on only while there is no socket. */
  function StartEnsure(f: Feed, from: Option<TimerId>): Feed {
    if !f.disposed && f.sock.None? then f.(ensuring := f.ensuring + multiset{from}) else f
  }

  function Positive(tokens: seq<Token>): set<Token> { set t | t in tokens && t > 0 }

  /** Tell the live socket and record what it should now stream. */
  function Adjust(f: Feed, id: SocketId, drop: set<Token>, add: set<Token>): Feed {
    f.(told := f.told[id := Told(f, id) - drop + add], subscribed := f.subscribed - drop + add)
  }

  function Told(f: Feed, id: SocketId): set<Token> { if id in f.told then f.told[id] else {} }

  function SetTokens(f: Feed, tokens: seq<Token>): Feed {
    var want := Positive(tokens);
    var f1 := f.(wanted := want);
    if f.sock.None? then (if want != {} then StartEnsure(f1, None) else f1)
    else Adjust(f1, f.sock.value, f.wanted - want, want - f.wanted)
  }

  function SubscribeTokens(f: Feed, tokens: seq<Token>): Feed {
    if tokens == [] then f
    else
      var unseen := Positive(tokens) - f.wanted;
      var f1 := f.(wanted := f.wanted + unseen);
      if f.sock.None? then StartEnsure(f1, None) else Adjust(f1, f.sock.value, {}, unseen)
  }

  function UnsubscribeTokens(f: Feed, tokens: seq<Token>): Feed {
    var drop := set t | t in tokens && t in f.wanted;
    var f1 := f.(wanted := f.wanted - drop, subscribed := f.subscribed - drop);
    if f.sock.None? then f1 else f1.(told := f1.told[f.sock.value := Told(f1, f.sock.value) - drop])
  }

  function Stop(f: Feed): Feed { Teardown(f.(disposed := true)).(wanted := {}) }

  // ---------------------------------------------------------------- steps

  datatype Step =
    | EnsureStep
    | OpenStep(from: Option<TimerId>, credentials: bool)
    | OpenedStep(id: SocketId)
    | ErrorStep(id: SocketId)
    | CloseStep(id: SocketId)
    | TimerStep(timer: TimerId)
    | SetStep(tokens: seq<Token>)
    | SubscribeStep(tokens: seq<Token>)
    | UnsubscribeStep(tokens: seq<Token>)
    | StopStep

  /** Callbacks of any socket ever opened may arrive at any time; a timer calls at most once. */
  predicate Enabled(f: Feed, step: Step) {
    match step
    case OpenStep(from, _) => from in f.ensuring
    case TimerStep(timer) => timer in f.armed
    case _ => true
  }

  /** One EnsureSocket call finishes: without credentials it gives up. */
  function FinishEnsure(f: Feed, from: Option<TimerId>, credentials: bool): Feed {
    var f1 := f.(ensuring := f.ensuring - multiset{from});
    if credentials then Open(f1) else f1
  }

  function After(f: Feed, step: Step): Feed {
    match step
    case EnsureStep => StartEnsure(f, None)
    case OpenStep(from, credentials) => FinishEnsure(f, from, credentials)
    case OpenedStep(id) => OnOpen(f, id)
    case ErrorStep(id) => OnError(f, id)
    case CloseStep(id) => OnClose(f, id)
    case TimerStep(timer) => OnTimer(f, timer)
    case SetStep(tokens) => SetTokens(f, tokens)
    case SubscribeStep(tokens) => SubscribeTokens(f, tokens)
    case UnsubscribeStep(tokens) => UnsubscribeTokens(f, tokens)
    case StopStep => Stop(f)
  }

  // ---------------------------------------------------------------- the invariant

  /** At most one live socket, told exactly the wanted set. */
  predicate SocketInv(f: Feed) {
    && f.open == (if f.sock.Some? then {f.sock.value} else {})
    && (f.sock.Some? ==> f.sock.value in f.told && f.told[f.sock.value] == f.wanted && f.sock.value <= f.sockSeq)
    && f.subscribed <= f.wanted
    && (f.connected ==> f.sock.Some? && f.subscribed == f.wanted)
    && (f.sock.None? ==> f.subscribed == {} && !f.connected)
    && (f.disposed ==> f.sock.None? && f.pending.None?)
  }

  /** At most one reconnect is pending; a cancelled timer can no longer match, and none of
      the EnsureSocket calls under way was made by one. */
  ghost predicate TimerInv(f: Feed) {
    && (f.pending.Some? ==> f.pending.value == f.timerSeq && f.pending.value in f.armed)
    && (forall i :: i in f.armed ==> i <= f.timerSeq)
    && (forall i :: i in f.armed && i !in f.cancelled ==> f.pending == Some(i))
    && (forall i :: i in f.cancelled ==> i < f.timerSeq)
    && (forall i: TimerId :: Some(i) in f.ensuring ==> i !in f.cancelled)
    && (forall i: TimerId :: Some(i) in f.ensuring ==> i <= f.timerSeq && f.pending != Some(i))
  }

  /** Each reconnect in a row waits by one more doubling, and a row starts at the base delay. */
  predicate DelayInv(f: Feed) {
    && (forall i :: 0 <= i < |f.delays| ==> f.delays[i].1 == Backoff(f.base, f.maxDelay, f.delays[i].0))
    && (forall i :: 0 <= i < |f.delays| && f.delays[i].0 > 0 ==> i > 0 && f.delays[i].0 == f.delays[i - 1].0 + 1)
    && (f.attempts > 0 ==> f.delays != [] && f.attempts == f.delays[|f.delays| - 1].0 + 1)
  }

  ghost predicate Inv(f: Feed) { SocketInv(f) && TimerInv(f) && DelayInv(f) }

  lemma StepKeepsSocket(f: Feed, step: Step)
    requires SocketInv(f) && Enabled(f, step)
    ensures SocketInv(After(f, step))
  {
  }

  /** Steps that touch neither timers nor EnsureSocket calls. */
  lemma SameTimers(f: Feed, f': Feed)
    requires TimerInv(f)
    requires f'.pending == f.pending && f'.timerSeq == f.timerSeq && f'.armed == f.armed
    requires f'.cancelled == f.cancelled && f'.ensuring == f.ensuring
    ensures TimerInv(f')
  {
  }

  lemma TeardownKeepsTimer(f: Feed)
    requires TimerInv(f)
    ensures TimerInv(Teardown(f))
  {
  }

  lemma ScheduleKeepsTimer(f: Feed)
    requires TimerInv(f)
    ensures TimerInv(Schedule(f))
  {
  }

  lemma EnsureKeepsTimer(f: Feed, from: Option<TimerId>)
    requires TimerInv(f)
    requires from.Some? ==> from.value !in f.cancelled && from.value <= f.timerSeq && f.pending != from
    ensures TimerInv(StartEnsure(f, from))
  {
  }

  lemma TimerKeepsTimer(f: Feed, timer: TimerId)
    requires TimerInv(f) && timer in f.armed
    ensures TimerInv(OnTimer(f, timer))
  {
    var f1 := f.(armed := f.armed - {timer});
    if f.timerSeq == timer {
      var f2 := f1.(pending := None);
      assert TimerInv(f2);
      EnsureKeepsTimer(f2, Some(timer));
    }
  }

  lemma FinishKeepsTimer(f: Feed, from: Option<TimerId>, credentials: bool)
    requires TimerInv(f)
    ensures TimerInv(FinishEnsure(f, from, credentials))
  {
    var f1 := f.(ensuring := f.ensuring - multiset{from});
    assert TimerInv(f1);
    SameTimers(f1, FinishEnsure(f, from, credentials));
  }

  lemma SetKeepsTimer(f: Feed, tokens: seq<Token>)
    requires TimerInv(f)
    ensures TimerInv(SetTokens(f, tokens))
  {
    if f.sock.Some? {
      SameTimers(f, SetTokens(f, tokens));
    } else {
      var f1 := f.(wanted := Positive(tokens));
      SameTimers(f, f1);
      EnsureKeepsTimer(f1, None);
    }
  }

  lemma SubscribeKeepsTimer(f: Feed, tokens: seq<Token>)
    requires TimerInv(f)
    ensures TimerInv(SubscribeTokens(f, tokens))
  {
    if f.sock.Some? {
      SameTimers(f, SubscribeTokens(f, tokens));
    } else {
      var f1 := f.(wanted := f.wanted + (Positive(tokens) - f.wanted));
      SameTimers(f, f1);
      EnsureKeepsTimer(f1, None);
    }
  }

  lemma StopKeepsTimer(f: Feed)
    requires TimerInv(f)
    ensures TimerInv(Stop(f))
  {
    var f1 := f.(disposed := true);
    SameTimers(f, f1);
    TeardownKeepsTimer(f1);
    SameTimers(Teardown(f1), Stop(f));
  }

  lemma StepKeepsTimer(f: Feed, step: Step)
    requires SocketInv(f) && TimerInv(f) && Enabled(f, step)
    ensures TimerInv(After(f, step))
  {
    var f' := After(f, step);
    match step
    case EnsureStep => EnsureKeepsTimer(f, None);
    case OpenStep(from, credentials) => FinishKeepsTimer(f, from, credentials);
    case OpenedStep(id) => SameTimers(f, f');
    case ErrorStep(id) => TeardownKeepsTimer(f);
    case CloseStep(id) =>
      if Current(f, id) {
        var f1 := f.(sock := None, subscribed := {}, connected := false, open := f.open - {id});
        SameTimers(f, f1);
        ScheduleKeepsTimer(f1);
      }
    case TimerStep(timer) => TimerKeepsTimer(f, timer);
    case SetStep(tokens) => SetKeepsTimer(f, tokens);
    case SubscribeStep(tokens) => SubscribeKeepsTimer(f, tokens);
    case UnsubscribeStep(tokens) => SameTimers(f, f');
    case StopStep => StopKeepsTimer(f);
  }

  /** A stopped feed never opens a socket again, and neither does a cancelled timer. */
  lemma NeverOpens(f: Feed, step: Step)
    requires Inv(f) && Enabled(f, step)
    ensures f.disposed ==> After(f, step).disposed && After(f, step).sockSeq == f.sockSeq
    ensures step.TimerStep? && step.timer in f.cancelled
        ==> After(f, step) == f.(armed := f.armed - {step.timer})
    ensures step.OpenStep? && step.from.Some? ==> step.from.value !in f.cancelled
  {
  }

  /** A socket is opened exactly by a call that comes back with credentials while there is none
      and the feed runs. */
  lemma OpensExactly(f: Feed, step: Step)
    requires Enabled(f, step)
    ensures var opens := step.OpenStep? && step.credentials && !f.disposed && f.sock.None?;
            After(f, step).sockSeq == f.sockSeq + if opens then 1 else 0
  {
  }

  /** The calls of EnsureSocket that a step leaves under way. */
  function Asked(f: Feed, f': Feed): multiset<Option<TimerId>> { f'.ensuring - f.ensuring }

  /** Exactly which tokens are wanted after a declaration, and that it makes a feed without a
      socket ask for one. */
  lemma SetEffect(f: Feed, tokens: seq<Token>)
    ensures var f' := SetTokens(f, tokens);
            && (forall t :: t in f'.wanted <==> t in tokens && t > 0)
            && Asked(f, f') == if f.sock.None? && !f.disposed && f'.wanted != {} then multiset{None} else multiset{}
  {
  }

  lemma SubscribeEffect(f: Feed, tokens: seq<Token>)
    ensures var f' := SubscribeTokens(f, tokens);
            && (forall t :: t in f'.wanted <==> t in f.wanted || (t in tokens && t > 0))
            && Asked(f, f') == if f.sock.None? && !f.disposed && tokens != [] then multiset{None} else multiset{}
  {
  }

  lemma UnsubscribeEffect(f: Feed, tokens: seq<Token>)
    ensures forall t :: t in UnsubscribeTokens(f, tokens).wanted <==> t in f.wanted && t !in tokens
    ensures Asked(f, UnsubscribeTokens(f, tokens)) == multiset{}
  {
  }

  lemma LiveTimerIsPending(f: Feed, timer: TimerId)
    requires Inv(f) && timer in f.armed
    ensures timer in f.cancelled ==> timer != f.timerSeq
    ensures timer !in f.cancelled ==> f.pending == Some(timer) && timer == f.timerSeq
  {
  }

  /** A timer that was not cancelled asks for a socket when there is none; one that was
      cancelled, or whose feed was stopped, asks for nothing. */
  lemma TimerEffect(f: Feed, timer: TimerId)
    requires Inv(f) && timer in f.armed
    ensures var live := timer !in f.cancelled && !f.disposed && f.sock.None?;
            Asked(f, OnTimer(f, timer)) == if live then multiset{Some(timer)} else multiset{}
    ensures timer !in f.cancelled ==> f.pending == Some(timer) && OnTimer(f, timer).pending.None?
  {
  }

  lemma ScheduleKeepsDelays(f: Feed)
    requires DelayInv(f)
    ensures DelayInv(Schedule(f))
  {
  }

  lemma OthersKeepDelays(f: Feed, step: Step)
    requires !step.CloseStep?
    ensures var f' := After(f, step);
            && f'.delays == f.delays && (f'.attempts == f.attempts || f'.attempts == 0)
            && f'.base == f.base && f'.maxDelay == f.maxDelay
  {
  }

  lemma StepKeepsDelays(f: Feed, step: Step)
    requires SocketInv(f) && DelayInv(f)
    ensures DelayInv(After(f, step))
  {
    if step.CloseStep? {
      if Current(f, step.id) {
        ScheduleKeepsDelays(f.(sock := None, subscribed := {}, connected := false, open := f.open - {step.id}));
      }
    } else {
      OthersKeepDelays(f, step);
    }
  }

  lemma StepKeeps(f: Feed, step: Step)
    requires Inv(f) && Enabled(f, step)
    ensures Inv(After(f, step))
  {
    StepKeepsSocket(f, step);
    StepKeepsTimer(f, step);
    StepKeepsDelays(f, step);
  }

  lemma TimerKeeps(f: Feed, timer: TimerId)
    requires Inv(f) && timer in f.armed
    ensures Inv(OnTimer(f, timer))
  {
    StepKeeps(f, TimerStep(timer));
  }

  lemma UnsubscribeKeeps(f: Feed, tokens: seq<Token>)
    requires Inv(f)
    ensures Inv(UnsubscribeTokens(f, tokens))
  {
    StepKeeps(f, UnsubscribeStep(tokens));
  }

  lemma TeardownKeeps(f: Feed)
    requires Inv(f)
    ensures Inv(Teardown(f))
  {
    TeardownKeepsTimer(f);
  }

  /** The loss of the socket in use schedules a reconnect exactly when something is wanted;
      a late callback changes nothing. */
  lemma CloseEffect(f: Feed, id: SocketId)
    requires Inv(f)
    ensures var f' := OnClose(f, id);
            && Inv(f')
            && f'.wanted == f.wanted
            && if f.sock == Some(id) then f'.open == {} && (f'.pending.Some? <==> f.wanted != {} || f.pending.Some?)
               else f' == f
    ensures f.sock == Some(id) && f.wanted != {} && f.pending.None? ==>
              OnClose(f, id).delays == f.delays + [(f.attempts, Backoff(f.base, f.maxDelay, f.attempts))]
  {
    StepKeeps(f, CloseStep(id));
  }

  /** A stopped feed has nothing open, scheduled or wanted, and no step opens a socket. */
  lemma StopEffect(f: Feed)
    requires Inv(f)
    ensures var f' := Stop(f);
            && Inv(f') && f'.open == {} && f'.pending.None? && f'.wanted == {} && f'.disposed
            && forall step :: Enabled(f', step) ==> After(f', step).sockSeq == f'.sockSeq
  {
    StepKeeps(f, StopStep);
    forall step | Enabled(Stop(f), step)
      ensures After(Stop(f), step).sockSeq == Stop(f).sockSeq
    {
      NeverOpens(Stop(f), step);
    }
  }

  ghost predicate Reaches(f: Feed, steps: seq<Step>, f': Feed)
    decreases |steps|
  {
    if steps == [] then f' == f
    else Enabled(f, steps[0]) && Reaches(After(f, steps[0]), steps[1..], f')
  }

  lemma {:induction false} RunKeeps(f: Feed, steps: seq<Step>, f': Feed)
    requires Inv(f) && Reaches(f, steps, f')
    ensures Inv(f')
    decreases |steps|
  {
    if steps != [] {
      StepKeeps(f, steps[0]);
      RunKeeps(After(f, steps[0]), steps[1..], f');
    }
  }

  /** Over every run, late callbacks and racing EnsureSocket calls included. */
  lemma FeedSafety(base: nat, maxDelay: nat, steps: seq<Step>, f: Feed)
    requires base > 0 && maxDelay > 0 && Reaches(NewFeed(base, maxDelay), steps, f)
    ensures Inv(f)
    ensures |f.open| <= 1
    ensures |f.armed - f.cancelled| <= 1
    ensures f.connected ==> f.subscribed == f.wanted
  {
    RunKeeps(NewFeed(base, maxDelay), steps, f);
    var live := f.armed - f.cancelled;
    if live != {} {
      assert live == {f.pending.value};
    }
  }
}
