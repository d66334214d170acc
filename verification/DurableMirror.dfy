/** The frames beside their durable copies over whole runs: captures, backfills, coarsenings,
    other writes, flushes that succeed or fail partway, crashes, warm loads and broker switches
    (internal/analytics/frames.go, writebehind.go, warmload.go and namespace.go).

    The main result is that the store seen through the buffers always holds, for each broker
    and frame, exactly the buckets closed at that frame's last operation, apart from a ledger
    that says what it holds elsewhere: what a reload could not see because it was still
    buffered, and what the backlog cap gave up. Runs that return to a broker only after a
    flush have an empty ledger. */
module DurableMirror {
  import opened Base
  import opened Ist
  import opened WriteBehind
  import opened Pipeline
  import opened Frames
  import opened FrameMirror
  import Namespaces

  type Broker = Namespaces.Broker

  // ---------------------------------------------------------------- slots

  /** Each broker has its own four frames: slots 0-3 are Zerodha's, 4-7 Dhan's. */
  const SLOT_COUNT: nat := 2 * FRAME_COUNT

  function Slot(b: Broker, i: nat): nat { if b.Zerodha? then i else FRAME_COUNT + i }

  function SlotBroker(j: nat): Broker { if j < FRAME_COUNT then Namespaces.Zerodha else Namespaces.Dhan }

  function Cfg(j: nat): Config
    requires j < SLOT_COUNT
  {
    FRAMES[j % FRAME_COUNT]
  }

  /** oiFrameKey under the broker's prefix. */
  function SlotKey(j: nat): Key { Namespaces.AnalyticsCacheKey(SlotBroker(j), FrameKey(j % FRAME_COUNT)) }

  lemma FrameKeyIsBase(i: nat)
    ensures Namespaces.BaseKey(FrameKey(i))
  {
    assert FrameKey(i)[0] == 'o' && Namespaces.DHAN_PREFIX[0] == 'a';
  }

  lemma SlotKeysDiffer(i: nat, j: nat)
    requires i < SLOT_COUNT && j < SLOT_COUNT && i != j
    ensures SlotKey(i) != SlotKey(j)
  {
    var x, y := i % FRAME_COUNT, j % FRAME_COUNT;
    FrameKeyIsBase(x);
    FrameKeyIsBase(y);
    if x < y { FrameKeysDiffer(x, y); }
    if y < x { FrameKeysDiffer(y, x); }
    Namespaces.CacheKeysNeverCollide(SlotBroker(i), FrameKey(x), SlotBroker(j), FrameKey(y));
  }

  lemma SlotsAreValid()
    ensures forall j :: 0 <= j < SLOT_COUNT ==> ValidConfig(Cfg(j))
  {
    FramesAreValid();
  }

  // ---------------------------------------------------------------- whole runs

  /** The frames, how far back each durable copy is known, where it strays, the broker in force
      and the pipeline. The frames of the broker in force are in memory; the other's are what
      memory held when it was left. */
  datatype Desk = Desk(frames: seq<Live>, floors: seq<int>, astray: seq<Ledger>, current: Broker, pipe: Pipe<Point>)

  predicate Shaped(d: Desk) { |d.frames| == SLOT_COUNT && |d.floors| == SLOT_COUNT && |d.astray| == SLOT_COUNT }

  ghost predicate SlotInv(d: Desk, j: nat)
    requires Shaped(d) && j < SLOT_COUNT
  {
    FrameMirrored(d.pipe, SlotKey(j), d.frames[j], d.floors[j], d.astray[j], Cfg(j))
  }

  ghost predicate DeskInv(d: Desk) {
    Shaped(d) && ValidPipe(d.pipe) && forall j :: 0 <= j < SLOT_COUNT ==> SlotInv(d, j)
  }

  /** frame and source are indices of the current broker's frames. */
  datatype Event =
    | Append(frame: nat, t: int, agg: Point)
    | Backfill(frame: nat, t: int, candles: seq<Point>)
    | Derive(frame: nat, source: nat, t: int)
    | Other(step: Step<Point>)
    | StartFlush
    | Land(store: Store<Point>)
    | FinishFlush(store: Store<Point>)
    | FailFlush(store: Store<Point>)
    | Switch(to: Broker, t: int)
    | Restart(to: Broker, t: int, store: Store<Point>)

  /** A write to a key that is no frame's. */
  predicate ForeignStep(step: Step<Point>) {
    match step
    case Put(k, _, _, maxFields) => maxFields > 0 && forall j :: 0 <= j < SLOT_COUNT ==> k != SlotKey(j)
    case Drop(k, _) => forall j :: 0 <= j < SLOT_COUNT ==> k != SlotKey(j)
    case Plain(_, _) => true
    case _ => false
  }

  /** Operation times never go back for a frame, and backfilled candles have started. A flush
      may stand anywhere when a broker is switched. */
  ghost predicate Allowed(d: Desk, e: Event)
    requires Shaped(d)
  {
    match e
    case Append(i, t, _) => i < FRAME_COUNT && d.frames[Slot(d.current, i)].clock <= t
    case Backfill(i, t, candles) =>
      i < FRAME_COUNT && d.frames[Slot(d.current, i)].clock <= t && NotBeyond(candles, t, FRAMES[i].size)
    case Derive(i, src, t) => i < FRAME_COUNT && src < FRAME_COUNT && d.frames[Slot(d.current, i)].clock <= t
    case Other(step) => ForeignStep(step)
    case StartFlush => d.pipe.inFlight.None?
    case Land(store) => d.pipe.inFlight.Some? && PartlyApplied(d.pipe.store, Sending(d.pipe), store)
    case FinishFlush(store) => d.pipe.inFlight.Some? && FullyApplied(d.pipe.store, Sending(d.pipe), store)
    case FailFlush(store) => d.pipe.inFlight.Some? && PartlyApplied(d.pipe.store, Sending(d.pipe), store)
    case Switch(to, t) => forall j :: 0 <= j < SLOT_COUNT && SlotBroker(j) == to ==> d.frames[j].clock <= t
    case Restart(_, t, store) =>
      && PartlyApplied(d.pipe.store, Sending(d.pipe), store)
      && forall j :: 0 <= j < SLOT_COUNT ==> d.frames[j].clock <= t
  }

  /** One frame replaced, with its mirror writes queued: the durable copy follows memory at the
      stamps written or dropped. */
  function SetFrame(d: Desk, j: nat, l: Live, written: set<int>, p: Pipe<Point>): Desk
    requires Shaped(d) && j < SLOT_COUNT
  {
    d.(frames := d.frames[j := l], astray := d.astray[j := d.astray[j] - written], pipe := p)
  }

  function AppendDesk(d: Desk, j: nat, t: int, agg: Point): Desk
    requires Shaped(d) && j < SLOT_COUNT
  {
    var frame := d.frames[j].frame;
    if IsPreOpenBucket(BucketEnd(t, Cfg(j).size)) then d
    else SetFrame(d, j, Live(AppendLive(frame, t, agg, Cfg(j)), t), AppendWritten(frame, t, agg, Cfg(j)),
                  PersistAppend(d.pipe, SlotKey(j), frame, t, agg, Cfg(j)))
  }

  /** What rewriting a whole frame writes and drops. */
  function WholeWritten(before: Frame, frame: Frame, now: int): set<int> {
    Written(Closed(frame, now), Stamps(before) - Stamps(frame))
  }

  function PersistDesk(d: Desk, j: nat, frame: Frame, t: int): Desk
    requires Shaped(d) && j < SLOT_COUNT
  {
    SetFrame(d, j, Live(frame, t), WholeWritten(d.frames[j].frame, frame, t),
             PersistWhole(d.pipe, SlotKey(j), d.frames[j].frame, frame, t))
  }

  function Merged(d: Desk, j: nat, t: int, candles: seq<Point>): Frame
    requires Shaped(d) && j < SLOT_COUNT
  {
    MergeFrame(d.frames[j].frame, candles, t, Cfg(j))
  }

  function Derived(d: Desk, j: nat, src: nat, t: int): Frame
    requires Shaped(d) && j < SLOT_COUNT && src < SLOT_COUNT
  {
    Coarsen(d.frames[j].frame, d.frames[src].frame, t, Cfg(j))
  }

  predicate FillsNothing(d: Desk, j: nat, src: nat, t: int)
    requires Shaped(d) && j < SLOT_COUNT && src < SLOT_COUNT
  {
    Fill(d.frames[j].frame, d.frames[src].frame, t, Cfg(j)).Keys == {}
  }

  function DeriveDesk(d: Desk, j: nat, src: nat, t: int): Desk
    requires Shaped(d) && j < SLOT_COUNT && src < SLOT_COUNT
  {
    if FillsNothing(d, j, src, t) then d else PersistDesk(d, j, Derived(d, j, src, t), t)
  }

  function ForeignPipe(p: Pipe<Point>, step: Step<Point>): Pipe<Point> {
    match step
    case Put(k, f, v, maxFields) => PutField(p, k, f, v, maxFields)
    case Drop(k, fs) => DropFields(p, k, fs)
    case Plain(k, v) => PutPlain(p, k, v)
    case _ => p
  }

  function Reloaded(st: Store<Point>, j: nat, t: int): Live
    requires j < SLOT_COUNT
  {
    Restored(st, SlotKey(j), t, Cfg(j))
  }

  function HiddenAt(d: Desk, j: nat, t: int): Ledger
    requires j < SLOT_COUNT
  {
    Hidden(d.pipe, SlotKey(j), t - Cfg(j).retention)
  }

  /** A switch empties memory, keeps the buffers and warm-loads the incoming broker's frames:
      what is still buffered for them stays hidden. */
  function SwitchDesk(d: Desk, to: Broker, t: int): Desk
    requires Shaped(d)
  {
    Desk(seq(SLOT_COUNT, j requires 0 <= j < SLOT_COUNT =>
               if SlotBroker(j) == to then Reloaded(d.pipe.store, j, t) else d.frames[j]),
         seq(SLOT_COUNT, j requires 0 <= j < SLOT_COUNT =>
               if SlotBroker(j) == to then t - Cfg(j).retention else d.floors[j]),
         seq(SLOT_COUNT, j requires 0 <= j < SLOT_COUNT =>
               if SlotBroker(j) == to then HiddenAt(d, j, t) else d.astray[j]),
         to, d.pipe)
  }

  /** A crash loses the buffers; the new process warm-loads every frame of its broker, and the
      other's are what a later switch would find. */
  function RestartDesk(to: Broker, t: int, store: Store<Point>): Desk {
    Desk(seq(SLOT_COUNT, j requires 0 <= j < SLOT_COUNT => Reloaded(store, j, t)),
         seq(SLOT_COUNT, j requires 0 <= j < SLOT_COUNT => t - Cfg(j).retention),
         seq(SLOT_COUNT, j => map[]),
         to, Pipe(EmptyBuffer(), None, store))
  }

  ghost function FailDesk(d: Desk, store: Store<Point>): Desk
    requires Shaped(d)
  {
    d.(pipe := FlushFailed(d.pipe, store),
       astray := seq(SLOT_COUNT, j requires 0 <= j < SLOT_COUNT => d.astray[j] + GivenUp(d.pipe, store, SlotKey(j))))
  }

  ghost function Apply(d: Desk, e: Event): Desk
    requires Shaped(d) && Allowed(d, e)
  {
    match e
    case Append(i, t, agg) => AppendDesk(d, Slot(d.current, i), t, agg)
    case Backfill(i, t, candles) =>
      PersistDesk(d, Slot(d.current, i), Merged(d, Slot(d.current, i), t, candles), t)
    case Derive(i, src, t) => DeriveDesk(d, Slot(d.current, i), Slot(d.current, src), t)
    case Other(step) => d.(pipe := ForeignPipe(d.pipe, step))
    case StartFlush => d.(pipe := BeginFlush(d.pipe))
    case Land(store) => d.(pipe := Landed(d.pipe, store))
    case FinishFlush(store) => d.(pipe := FlushDone(d.pipe, store))
    case FailFlush(store) => FailDesk(d, store)
    case Switch(to, t) => SwitchDesk(d, to, t)
    case Restart(to, t, store) => RestartDesk(to, t, store)
  }

  // ---------------------------------------------------------------- every event

  lemma SameKeyKeeps(p: Pipe<Point>, p': Pipe<Point>, key: Key, l: Live, floor: int, astray: Ledger, cfg: Config)
    requires SameKey(p, p', key) && FrameMirrored(p, key, l, floor, astray, cfg)
    ensures FrameMirrored(p', key, l, floor, astray, cfg)
  {
    forall f
      ensures View(p', key, f) == View(p, key, f)
    {
    }
  }

  /** Replacing frame j and queueing only under its key keeps the other frames mirrored. */
  lemma SetFrameKeeps(d: Desk, j: nat, l: Live, writes: seq<Point>, gone: set<int>)
    requires DeskInv(d) && j < SLOT_COUNT
    requires var p' := Mirror(d.pipe, SlotKey(j), writes, gone);
             && ValidPipe(p')
             && FrameMirrored(p', SlotKey(j), l, d.floors[j], d.astray[j] - Written(writes, gone), Cfg(j))
    ensures DeskInv(SetFrame(d, j, l, Written(writes, gone), Mirror(d.pipe, SlotKey(j), writes, gone)))
  {
    var p' := Mirror(d.pipe, SlotKey(j), writes, gone);
    forall k | 0 <= k < SLOT_COUNT && k != j
      ensures FrameMirrored(p', SlotKey(k), d.frames[k], d.floors[k], d.astray[k], Cfg(k))
    {
      assert SlotInv(d, k);
      SlotKeysDiffer(j, k);
      MirrorOthers(d.pipe, SlotKey(j), writes, gone, SlotKey(k));
      SameKeyKeeps(d.pipe, p', SlotKey(k), d.frames[k], d.floors[k], d.astray[k], Cfg(k));
    }
  }

  lemma AppendDeskKeeps(d: Desk, j: nat, t: int, agg: Point)
    requires DeskInv(d) && j < SLOT_COUNT && d.frames[j].clock <= t
    ensures DeskInv(AppendDesk(d, j, t, agg))
  {
    if !IsPreOpenBucket(BucketEnd(t, Cfg(j).size)) {
      var l := d.frames[j];
      assert SlotInv(d, j);
      AppendMirrors(d.pipe, SlotKey(j), l, d.floors[j], d.astray[j], t, agg, Cfg(j));
      SetFrameKeeps(d, j, Live(AppendLive(l.frame, t, agg, Cfg(j)), t),
                    AppendWrites(l.frame, t, agg, Cfg(j)), Stamps(AppendDropped(l.frame, t, agg, Cfg(j))));
    }
  }

  lemma PersistDeskKeeps(d: Desk, j: nat, frame: Frame, t: int)
    requires DeskInv(d) && j < SLOT_COUNT && d.frames[j].clock <= t && FrameInv(frame, t, Cfg(j))
    ensures DeskInv(PersistDesk(d, j, frame, t))
  {
    var l := d.frames[j];
    assert SlotInv(d, j);
    PersistWholeMirrors(d.pipe, SlotKey(j), l, d.floors[j], d.astray[j], frame, t, Cfg(j));
    SetFrameKeeps(d, j, Live(frame, t), Closed(frame, t), Stamps(l.frame) - Stamps(frame));
  }

  lemma MergeDeskKeeps(d: Desk, j: nat, t: int, candles: seq<Point>)
    requires DeskInv(d) && j < SLOT_COUNT && d.frames[j].clock <= t && NotBeyond(candles, t, Cfg(j).size)
    ensures DeskInv(PersistDesk(d, j, Merged(d, j, t, candles), t))
  {
    assert SlotInv(d, j);
    MergeKeepsInv(d.frames[j].frame, d.frames[j].clock, candles, t, Cfg(j));
    PersistDeskKeeps(d, j, Merged(d, j, t, candles), t);
  }

  lemma DeriveDeskKeeps(d: Desk, j: nat, src: nat, t: int)
    requires DeskInv(d) && j < SLOT_COUNT && src < SLOT_COUNT && d.frames[j].clock <= t
    ensures DeskInv(DeriveDesk(d, j, src, t))
  {
    if !FillsNothing(d, j, src, t) {
      assert SlotInv(d, j);
      CoarsenKeepsInv(d.frames[j].frame, d.frames[j].clock, d.frames[src].frame, t, Cfg(j));
      PersistDeskKeeps(d, j, Derived(d, j, src, t), t);
    }
  }

  lemma ForeignValid(p: Pipe<Point>, step: Step<Point>)
    requires ValidPipe(p) && ForeignStep(step)
    ensures ValidPipe(ForeignPipe(p, step))
  {
    match step
    case Put(k, f, v, maxFields) => PutFieldView(p, k, f, v, maxFields);
    case Drop(k, fs) => DropFieldsView(p, k, fs);
    case Plain(k, v) => PutPlainView(p, k, v);
  }

  lemma ForeignKeeps(d: Desk, step: Step<Point>)
    requires DeskInv(d) && ForeignStep(step)
    ensures DeskInv(d.(pipe := ForeignPipe(d.pipe, step)))
  {
    var p' := ForeignPipe(d.pipe, step);
    ForeignValid(d.pipe, step);
    forall j | 0 <= j < SLOT_COUNT
      ensures FrameMirrored(p', SlotKey(j), d.frames[j], d.floors[j], d.astray[j], Cfg(j))
    {
      assert SlotInv(d, j) && SameKey(d.pipe, p', SlotKey(j));
      SameKeyKeeps(d.pipe, p', SlotKey(j), d.frames[j], d.floors[j], d.astray[j], Cfg(j));
    }
  }

  lemma RestartKeeps(d: Desk, to: Broker, t: int, store: Store<Point>)
    requires DeskInv(d) && PartlyApplied(d.pipe.store, Sending(d.pipe), store)
    requires forall j :: 0 <= j < SLOT_COUNT ==> d.frames[j].clock <= t
    ensures DeskInv(RestartDesk(to, t, store))
  {
    SlotsAreValid();
    var p: Pipe<Point> := Pipe(EmptyBuffer(), None, store);
    forall j | 0 <= j < SLOT_COUNT
      ensures FrameMirrored(p, SlotKey(j), Reloaded(store, j, t), t - Cfg(j).retention, map[], Cfg(j))
    {
      assert SlotInv(d, j);
      PartGood(d.pipe.store, Sending(d.pipe), store, SlotKey(j), d.frames[j].clock, Cfg(j));
      ReloadMirrored(p, SlotKey(j), d.frames[j].clock, t, Cfg(j));
      assert Hidden(p, SlotKey(j), t - Cfg(j).retention) == map[];
    }
  }

  lemma SwitchKeeps(d: Desk, to: Broker, t: int)
    requires DeskInv(d) && Allowed(d, Switch(to, t))
    ensures DeskInv(SwitchDesk(d, to, t))
  {
    SlotsAreValid();
    var d' := SwitchDesk(d, to, t);
    forall j | 0 <= j < SLOT_COUNT
      ensures SlotInv(d', j)
    {
      assert SlotInv(d, j);
      if SlotBroker(j) == to { ReloadMirrored(d.pipe, SlotKey(j), d.frames[j].clock, t, Cfg(j)); }
    }
  }

  predicate IsFlush(e: Event) { e.StartFlush? || e.Land? || e.FinishFlush? || e.FailFlush? }

  lemma FlushValid(d: Desk, e: Event)
    requires Shaped(d) && ValidPipe(d.pipe) && Allowed(d, e) && IsFlush(e)
    ensures ValidPipe(Apply(d, e).pipe)
  {
    match e
    case StartFlush => BeginFlushView(d.pipe);
    case Land(store) =>
    case FinishFlush(store) => FlushDoneView(d.pipe, store);
    case FailFlush(store) => FlushFailedValid(d.pipe, store);
  }

  lemma FlushKeeps(d: Desk, e: Event)
    requires DeskInv(d) && Allowed(d, e) && IsFlush(e)
    ensures DeskInv(Apply(d, e))
  {
    FlushValid(d, e);
    forall j | 0 <= j < SLOT_COUNT
      ensures SlotInv(Apply(d, e), j)
    {
      assert SlotInv(d, j);
      match e {
        case StartFlush => BeginMirrored(d.pipe, SlotKey(j), d.frames[j], d.floors[j], d.astray[j], Cfg(j));
        case Land(store) => LandedMirrored(d.pipe, store, SlotKey(j), d.frames[j], d.floors[j], d.astray[j], Cfg(j));
        case FinishFlush(store) =>
          DoneMirrored(d.pipe, store, SlotKey(j), d.frames[j], d.floors[j], d.astray[j], Cfg(j));
        case FailFlush(store) =>
          FailedMirrored(d.pipe, store, SlotKey(j), d.frames[j], d.floors[j], d.astray[j], Cfg(j));
      }
    }
  }

  predicate IsFrameOp(e: Event) { e.Append? || e.Backfill? || e.Derive? }

  lemma FrameOpKeeps(d: Desk, e: Event)
    requires DeskInv(d) && Allowed(d, e) && IsFrameOp(e)
    ensures DeskInv(Apply(d, e))
  {
    if e.Append? {
      AppendDeskKeeps(d, Slot(d.current, e.frame), e.t, e.agg);
    } else if e.Backfill? {
      assert Cfg(Slot(d.current, e.frame)) == FRAMES[e.frame];
      MergeDeskKeeps(d, Slot(d.current, e.frame), e.t, e.candles);
    } else {
      DeriveDeskKeeps(d, Slot(d.current, e.frame), Slot(d.current, e.source), e.t);
    }
  }

  lemma EventKeeps(d: Desk, e: Event)
    requires DeskInv(d) && Allowed(d, e)
    ensures DeskInv(Apply(d, e))
  {
    if IsFrameOp(e) {
      FrameOpKeeps(d, e);
    } else if IsFlush(e) {
      FlushKeeps(d, e);
    } else if e.Other? {
      ForeignKeeps(d, e.step);
    } else if e.Switch? {
      SwitchKeeps(d, e.to, e.t);
    } else {
      RestartKeeps(d, e.to, e.t, e.store);
    }
  }

  /** What each frame operation leaves in memory: for a capture nothing before the open, else the
      append; for a backfill the merge; for a coarsening the coarsened frame. No other frame
      moves. */
  lemma FramesFollow(d: Desk, e: Event, j: nat)
    requires Shaped(d) && Allowed(d, e) && IsFrameOp(e) && j < SLOT_COUNT
    ensures var l, l' := d.frames[j], Apply(d, e).frames[j];
            if Slot(d.current, e.frame) != j then l' == l
            else match e
                 case Append(_, t, agg) =>
                   if BucketEnd(t, Cfg(j).size) <= SessionOpen(t) then l' == l
                   else l' == Live(AppendLive(l.frame, t, agg, Cfg(j)), t)
                 case Backfill(_, t, candles) => l' == Live(MergeFrame(l.frame, candles, t, Cfg(j)), t)
                 case Derive(_, src, t) =>
                   l'.frame == Coarsen(l.frame, d.frames[Slot(d.current, src)].frame, t, Cfg(j))
  {
    SlotsAreValid();
    if e.Append? { BucketEndRange(e.t, Cfg(j).size); }
  }

  ghost predicate Leads(d: Desk, events: seq<Event>, d': Desk)
    decreases |events|
  {
    if events == [] then d' == d
    else Shaped(d) && Allowed(d, events[0]) && Leads(Apply(d, events[0]), events[1..], d')
  }

  /** A first start with nothing stored: the durable copy is exact however far back one
      looks, so depth is arbitrary. */
  function FirstDesk(b: Broker, start: int, depth: nat): Desk {
    Desk(seq(SLOT_COUNT, j => Live([], start)),
         seq(SLOT_COUNT, j requires 0 <= j < SLOT_COUNT => start - Cfg(j).retention - depth),
         seq(SLOT_COUNT, j => map[]),
         b, Pipe(EmptyBuffer(), None, Store(map[], map[])))
  }

  lemma FirstDeskInv(b: Broker, start: int, depth: nat)
    ensures DeskInv(FirstDesk(b, start, depth))
  {
    SlotsAreValid();
  }

  lemma {:induction false} RunKeeps(d: Desk, events: seq<Event>, d': Desk)
    requires DeskInv(d) && Leads(d, events, d')
    ensures DeskInv(d')
    decreases |events|
  {
    if events != [] {
      EventKeeps(d, events[0]);
      RunKeeps(Apply(d, events[0]), events[1..], d');
    }
  }

  /** The durable mirror of both brokers over every run: partial flush failures, crashes, and
      broker switches at any moment. Through the buffers the store holds the closed buckets of
      memory wherever the ledger is silent, and what the ledger says elsewhere. */
  lemma DurableMirrorHolds(b: Broker, start: int, depth: nat, events: seq<Event>, d: Desk)
    requires Leads(FirstDesk(b, start, depth), events, d)
    ensures DeskInv(d)
    ensures forall j, f :: 0 <= j < SLOT_COUNT && f >= d.floors[j]
              ==> View(d.pipe, SlotKey(j), f) == Durable(d.frames[j], d.astray[j], f)
  {
    FirstDeskInv(b, start, depth);
    RunKeeps(FirstDesk(b, start, depth), events, d);
    forall j, f | 0 <= j < SLOT_COUNT && f >= d.floors[j]
      ensures View(d.pipe, SlotKey(j), f) == Durable(d.frames[j], d.astray[j], f)
    {
      assert SlotInv(d, j);
    }
  }

  // ---------------------------------------------------------------- the ledger

  /** Nothing is buffered under the key. */
  predicate Quiet(p: Pipe<Point>, key: Key) { key !in p.pending.hashes && key !in Sending(p).hashes }

  /** The durable copy of slot j has not strayed, and nothing expired is buffered for it. */
  predicate SlotTidy(d: Desk, j: nat)
    requires Shaped(d) && j < SLOT_COUNT
  {
    d.astray[j] == map[] && Tidy(d.pipe, SlotKey(j), d.floors[j])
  }

  /** A broker is switched to only once nothing is buffered for it. */
  predicate Unhurried(d: Desk, e: Event, j: nat) {
    e.Switch? && e.to == SlotBroker(j) ==> Quiet(d.pipe, SlotKey(j))
  }

  lemma FrameTidy(d: Desk, j: nat, writes: seq<Point>, gone: set<int>, k: nat)
    requires Shaped(d) && ValidPipe(d.pipe) && j < SLOT_COUNT && k < SLOT_COUNT && k != j
    requires Tidy(d.pipe, SlotKey(k), d.floors[k])
    ensures Tidy(Mirror(d.pipe, SlotKey(j), writes, gone), SlotKey(k), d.floors[k])
  {
    SlotKeysDiffer(j, k);
    MirrorOthers(d.pipe, SlotKey(j), writes, gone, SlotKey(k));
  }

  lemma AppendTidy(d: Desk, j: nat, t: int, agg: Point, k: nat)
    requires DeskInv(d) && j < SLOT_COUNT && k < SLOT_COUNT && d.frames[j].clock <= t && SlotTidy(d, k)
    ensures SlotTidy(AppendDesk(d, j, t, agg), k)
  {
    var l := d.frames[j];
    if IsPreOpenBucket(BucketEnd(t, Cfg(j).size)) {
    } else if k == j {
      assert SlotInv(d, j);
      AppendMirrors(d.pipe, SlotKey(j), l, d.floors[j], d.astray[j], t, agg, Cfg(j));
    } else {
      FrameTidy(d, j, AppendWrites(l.frame, t, agg, Cfg(j)), Stamps(AppendDropped(l.frame, t, agg, Cfg(j))), k);
    }
  }

  lemma PersistTidy(d: Desk, j: nat, frame: Frame, t: int, k: nat)
    requires DeskInv(d) && j < SLOT_COUNT && k < SLOT_COUNT && SlotTidy(d, k)
    requires d.frames[j].clock <= t && FrameInv(frame, t, Cfg(j))
    ensures SlotTidy(PersistDesk(d, j, frame, t), k)
  {
    var l := d.frames[j];
    if k == j {
      assert SlotInv(d, j);
      PersistWholeMirrors(d.pipe, SlotKey(j), l, d.floors[j], d.astray[j], frame, t, Cfg(j));
    } else {
      FrameTidy(d, j, Closed(frame, t), Stamps(l.frame) - Stamps(frame), k);
    }
  }

  lemma MergeTidy(d: Desk, j: nat, t: int, candles: seq<Point>, k: nat)
    requires DeskInv(d) && j < SLOT_COUNT && k < SLOT_COUNT && SlotTidy(d, k)
    requires d.frames[j].clock <= t && NotBeyond(candles, t, Cfg(j).size)
    ensures SlotTidy(PersistDesk(d, j, Merged(d, j, t, candles), t), k)
  {
    assert SlotInv(d, j);
    MergeKeepsInv(d.frames[j].frame, d.frames[j].clock, candles, t, Cfg(j));
    PersistTidy(d, j, Merged(d, j, t, candles), t, k);
  }

  lemma DeriveTidy(d: Desk, j: nat, src: nat, t: int, k: nat)
    requires DeskInv(d) && j < SLOT_COUNT && src < SLOT_COUNT && k < SLOT_COUNT && SlotTidy(d, k)
    requires d.frames[j].clock <= t
    ensures SlotTidy(DeriveDesk(d, j, src, t), k)
  {
    if !FillsNothing(d, j, src, t) {
      assert SlotInv(d, j);
      CoarsenKeepsInv(d.frames[j].frame, d.frames[j].clock, d.frames[src].frame, t, Cfg(j));
      PersistTidy(d, j, Derived(d, j, src, t), t, k);
    }
  }

  lemma FlushTidy(d: Desk, e: Event, k: nat)
    requires DeskInv(d) && k < SLOT_COUNT && Allowed(d, e) && IsFlush(e) && SlotTidy(d, k)
    ensures SlotTidy(Apply(d, e), k)
  {
    assert SlotInv(d, k);
    if e.FailFlush? { FailedTidy(d.pipe, e.store, SlotKey(k), d.frames[k], d.floors[k], Cfg(k)); }
  }

  lemma ForeignTidy(d: Desk, step: Step<Point>, k: nat)
    requires DeskInv(d) && k < SLOT_COUNT && ForeignStep(step) && SlotTidy(d, k)
    ensures SlotTidy(d.(pipe := ForeignPipe(d.pipe, step)), k)
  {
    assert SameKey(d.pipe, ForeignPipe(d.pipe, step), SlotKey(k));
  }

  lemma SwitchTidy(d: Desk, to: Broker, t: int, k: nat)
    requires Shaped(d) && k < SLOT_COUNT && SlotTidy(d, k) && Unhurried(d, Switch(to, t), k)
    ensures SlotTidy(SwitchDesk(d, to, t), k)
  {
    if SlotBroker(k) == to { assert Hidden(d.pipe, SlotKey(k), t - Cfg(k).retention) == map[]; }
  }

  lemma AppendOpTidy(d: Desk, i: nat, t: int, agg: Point, k: nat)
    requires DeskInv(d) && Allowed(d, Append(i, t, agg)) && k < SLOT_COUNT && SlotTidy(d, k)
    ensures SlotTidy(Apply(d, Append(i, t, agg)), k)
  {
    AppendTidy(d, Slot(d.current, i), t, agg, k);
  }

  lemma MergeOpTidy(d: Desk, i: nat, t: int, candles: seq<Point>, k: nat)
    requires DeskInv(d) && Allowed(d, Backfill(i, t, candles)) && k < SLOT_COUNT && SlotTidy(d, k)
    ensures SlotTidy(Apply(d, Backfill(i, t, candles)), k)
  {
    assert Cfg(Slot(d.current, i)) == FRAMES[i];
    MergeTidy(d, Slot(d.current, i), t, candles, k);
  }

  lemma DeriveOpTidy(d: Desk, i: nat, src: nat, t: int, k: nat)
    requires DeskInv(d) && Allowed(d, Derive(i, src, t)) && k < SLOT_COUNT && SlotTidy(d, k)
    ensures SlotTidy(Apply(d, Derive(i, src, t)), k)
  {
    DeriveTidy(d, Slot(d.current, i), Slot(d.current, src), t, k);
  }

  /** Only a return to the broker with writes still buffered makes a durable copy stray. */
  lemma EventTidy(d: Desk, e: Event, k: nat)
    requires DeskInv(d) && Allowed(d, e) && k < SLOT_COUNT && SlotTidy(d, k) && Unhurried(d, e, k)
    ensures SlotTidy(Apply(d, e), k)
  {
    if e.Append? {
      AppendOpTidy(d, e.frame, e.t, e.agg, k);
    } else if e.Backfill? {
      MergeOpTidy(d, e.frame, e.t, e.candles, k);
    } else if e.Derive? {
      DeriveOpTidy(d, e.frame, e.source, e.t, k);
    } else if IsFlush(e) {
      FlushTidy(d, e, k);
    } else if e.Other? {
      ForeignTidy(d, e.step, k);
    } else if e.Switch? {
      SwitchTidy(d, e.to, e.t, k);
    }
  }

  ghost predicate UnhurriedRun(d: Desk, events: seq<Event>, j: nat)
    decreases |events|
  {
    events == [] || (Unhurried(d, events[0], j)
                     && (Shaped(d) && Allowed(d, events[0]) ==> UnhurriedRun(Apply(d, events[0]), events[1..], j)))
  }

  lemma {:induction false} UnhurriedKeeps(d: Desk, events: seq<Event>, d': Desk, j: nat)
    requires DeskInv(d) && Leads(d, events, d') && j < SLOT_COUNT && SlotTidy(d, j) && UnhurriedRun(d, events, j)
    ensures Shaped(d') && SlotTidy(d', j)
    decreases |events|
  {
    if events != [] {
      EventKeeps(d, events[0]);
      EventTidy(d, events[0], j);
      UnhurriedKeeps(Apply(d, events[0]), events[1..], d', j);
    }
  }

  /** When every return to a frame's broker waits for the flush, the durable copy of the frame
      is exactly its closed buckets, and the backlog cap never bites it. */
  lemma UnhurriedMirrorIsExact(b: Broker, start: int, depth: nat, events: seq<Event>, d: Desk, j: nat, f: int)
    requires Leads(FirstDesk(b, start, depth), events, d) && j < SLOT_COUNT
    requires UnhurriedRun(FirstDesk(b, start, depth), events, j)
    ensures Shaped(d) && CapLoss(d.pipe, SlotKey(j)) == {}
    ensures f >= d.floors[j] ==> View(d.pipe, SlotKey(j), f) == Mirrored(d.frames[j], f)
  {
    FirstDeskInv(b, start, depth);
    DurableMirrorHolds(b, start, depth, events, d);
    UnhurriedKeeps(FirstDesk(b, start, depth), events, d, j);
    assert SlotInv(d, j);
    CapSparesFrames(d.pipe, SlotKey(j), d.frames[j], d.floors[j], Cfg(j));
  }

  // ---------------------------------------------------------------- one broker and the other

  /** Neither a restart nor a switch to the broker of slot j. */
  predicate Stays(e: Event, j: nat) { !e.Restart? && !(e.Switch? && e.to == SlotBroker(j)) }

  /** The stamps of slot j that an event writes or drops. */
  function Touched(d: Desk, e: Event, j: nat): set<int>
    requires Shaped(d) && j < SLOT_COUNT && Allowed(d, e)
  {
    match e
    case Append(i, t, agg) =>
      if Slot(d.current, i) == j && !IsPreOpenBucket(BucketEnd(t, Cfg(j).size))
      then AppendWritten(d.frames[j].frame, t, agg, Cfg(j)) else {}
    case Backfill(i, t, candles) =>
      if Slot(d.current, i) == j then WholeWritten(d.frames[j].frame, Merged(d, j, t, candles), t) else {}
    case Derive(i, src, t) =>
      if Slot(d.current, i) == j && !FillsNothing(d, j, Slot(d.current, src), t)
      then WholeWritten(d.frames[j].frame, Derived(d, j, Slot(d.current, src), t), t) else {}
    case _ => {}
  }

  /** What the cap takes from slot j. */
  ghost function Capped(d: Desk, e: Event, j: nat): Ledger
    requires j < SLOT_COUNT
  {
    if e.FailFlush? then GivenUp(d.pipe, e.store, SlotKey(j)) else map[]
  }

  lemma LedgerAlgebra(a: Ledger, gone: set<int>)
    ensures a - {} == a && a + map[] == a && a - gone + map[] == a - gone
  {
  }

  lemma AppendLedger(d: Desk, i: nat, t: int, agg: Point, j: nat)
    requires Shaped(d) && j < SLOT_COUNT && Allowed(d, Append(i, t, agg))
    ensures Apply(d, Append(i, t, agg)).astray[j] == d.astray[j] - Touched(d, Append(i, t, agg), j)
  {
    LedgerAlgebra(d.astray[j], {});
  }

  lemma MergeLedger(d: Desk, i: nat, t: int, candles: seq<Point>, j: nat)
    requires Shaped(d) && j < SLOT_COUNT && Allowed(d, Backfill(i, t, candles))
    ensures Apply(d, Backfill(i, t, candles)).astray[j] == d.astray[j] - Touched(d, Backfill(i, t, candles), j)
  {
    LedgerAlgebra(d.astray[j], {});
  }

  lemma DeriveLedger(d: Desk, i: nat, src: nat, t: int, j: nat)
    requires Shaped(d) && j < SLOT_COUNT && Allowed(d, Derive(i, src, t))
    ensures Apply(d, Derive(i, src, t)).astray[j] == d.astray[j] - Touched(d, Derive(i, src, t), j)
  {
    LedgerAlgebra(d.astray[j], {});
  }

  /** The ledger of a slot changes by three things alone: an entry goes when its stamp is
      written or dropped again, the cap adds what it gives up, and a reload starts it anew. */
  lemma LedgerStep(d: Desk, e: Event, j: nat)
    requires Shaped(d) && Allowed(d, e) && j < SLOT_COUNT && Stays(e, j)
    ensures Apply(d, e).astray[j] == d.astray[j] - Touched(d, e, j) + Capped(d, e, j)
  {
    LedgerAlgebra(d.astray[j], Touched(d, e, j));
    match e
    case Append(i, t, agg) => AppendLedger(d, i, t, agg, j);
    case Backfill(i, t, candles) => MergeLedger(d, i, t, candles, j);
    case Derive(i, src, t) => DeriveLedger(d, i, src, t, j);
    case _ =>
  }

  /** Nothing that happens under one broker moves the other's frames. */
  lemma OthersFrozen(d: Desk, e: Event, j: nat)
    requires DeskInv(d) && Allowed(d, e) && j < SLOT_COUNT && Stays(e, j)
    ensures Apply(d, e).floors[j] == d.floors[j]
    ensures SlotBroker(j) != d.current ==> Apply(d, e).frames[j] == d.frames[j] && SlotBroker(j) != Apply(d, e).current
  {
  }

  /** Until a restart or a return the durable copy is known over all of time. */
  lemma {:induction false} FloorsStay(d: Desk, events: seq<Event>, d': Desk, j: nat)
    requires DeskInv(d) && Leads(d, events, d') && j < SLOT_COUNT
    requires forall k :: 0 <= k < |events| ==> Stays(events[k], j)
    ensures Shaped(d') && d'.floors[j] == d.floors[j]
    decreases |events|
  {
    if events != [] {
      EventKeeps(d, events[0]);
      OthersFrozen(d, events[0], j);
      FloorsStay(Apply(d, events[0]), events[1..], d', j);
    }
  }

  lemma {:induction false} AwayStays(d: Desk, events: seq<Event>, d': Desk, j: nat)
    requires DeskInv(d) && Leads(d, events, d') && j < SLOT_COUNT && SlotBroker(j) != d.current && SlotTidy(d, j)
    requires forall k :: 0 <= k < |events| ==> Stays(events[k], j)
    ensures DeskInv(d') && d'.frames[j] == d.frames[j] && SlotTidy(d', j)
    decreases |events|
  {
    if events != [] {
      EventKeeps(d, events[0]);
      OthersFrozen(d, events[0], j);
      EventTidy(d, events[0], j);
      AwayStays(Apply(d, events[0]), events[1..], d', j);
    }
  }

  // ---------------------------------------------------------------- what comes back

  /** A frame reloaded at now, wherever the flushes stand: in retention it is the durable copy,
      except for what is hidden in the buffers, where it is what the store had. */
  lemma ReloadedExactly(d: Desk, j: nat, now: int, f: int)
    requires DeskInv(d) && j < SLOT_COUNT && d.frames[j].clock <= now && f >= d.floors[j]
    ensures At(Reloaded(d.pipe.store, j, now).frame, f) ==
            if f < now - Cfg(j).retention then None
            else if f in HiddenAt(d, j, now) then Stored(d.pipe.store, SlotKey(j), f)
            else Durable(d.frames[j], d.astray[j], f)
  {
    SlotsAreValid();
    assert SlotInv(d, j);
    RestoredAt(d.pipe.store, SlotKey(j), d.frames[j].clock, now, Cfg(j), f);
  }

  /** Flush everything, stop, start again at now: each frame comes back as its durable copy in
      retention; for a frame that has not strayed, exactly its completed buckets. */
  lemma FlushedRestartRoundTrip(d: Desk, b: Broker, now: int, j: nat, f: int)
    requires DeskInv(d) && j < SLOT_COUNT && Quiet(d.pipe, SlotKey(j)) && d.frames[j].clock <= now
    ensures f >= now - Cfg(j).retention ==>
              At(RestartDesk(b, now, d.pipe.store).frames[j].frame, f) == Durable(d.frames[j], d.astray[j], f)
    ensures f < now - Cfg(j).retention ==> At(RestartDesk(b, now, d.pipe.store).frames[j].frame, f).None?
  {
    SlotsAreValid();
    assert SlotInv(d, j);
    RestoredAt(d.pipe.store, SlotKey(j), d.frames[j].clock, now, Cfg(j), f);
    UnbufferedIsStored(d.pipe, SlotKey(j), f);
  }

  /** Leave a broker, run under the other one through any flush failures, and come back at
      now: nothing was lost or relabelled. Every bucket completed when it was left is back in
      memory, as far as retention reaches, or is hidden in the buffers with its value. */
  lemma AwayAndBackRoundTrip(d: Desk, events: seq<Event>, d': Desk, now: int, j: nat, f: int)
    requires DeskInv(d) && Leads(d, events, d') && j < SLOT_COUNT && SlotBroker(j) != d.current && SlotTidy(d, j)
    requires forall k :: 0 <= k < |events| ==> Stays(events[k], j)
    requires Shaped(d') && Allowed(d', Switch(SlotBroker(j), now)) && f >= now - Cfg(j).retention
    ensures var back := SwitchDesk(d', SlotBroker(j), now);
            if f in back.astray[j] then back.astray[j][f] == Mirrored(d.frames[j], f)
            else At(back.frames[j].frame, f) == Mirrored(d.frames[j], f)
  {
    AwayStays(d, events, d', j);
    assert SlotInv(d', j);
    ReloadedExactly(d', j, now, f);
  }

  /** Whatever is buffered for the key in retention has already reached the store. */
  ghost predicate Settled(p: Pipe<Point>, key: Key, cutoff: int) {
    forall f :: f >= cutoff ==> View(p, key, f) == Stored(p.store, key, f)
  }

  /** A switch hides nothing exactly when nothing buffered in retention is still to be written. */
  lemma SwitchExactly(d: Desk, to: Broker, t: int, j: nat)
    requires Shaped(d) && j < SLOT_COUNT && SlotBroker(j) == to
    ensures SwitchDesk(d, to, t).astray[j] == map[] <==> Settled(d.pipe, SlotKey(j), t - Cfg(j).retention)
  {
    var key, cutoff := SlotKey(j), t - Cfg(j).retention;
    var h := Hidden(d.pipe, key, cutoff);
    if h == map[] {
      forall f | f >= cutoff
        ensures View(d.pipe, key, f) == Stored(d.pipe.store, key, f)
      {
        assert f !in h;
      }
    }
    if Settled(d.pipe, key, cutoff) { assert h.Keys == {}; }
  }

  // ---------------------------------------------------------------- when a hidden bucket returns

  /** Along the run the stamp is neither written nor dropped. */
  ghost predicate Untouched(d: Desk, events: seq<Event>, j: nat, f: int)
    requires j < SLOT_COUNT
    decreases |events|
  {
    events == []
    || (Shaped(d) && Allowed(d, events[0])
        && f !in Touched(d, events[0], j) && Untouched(Apply(d, events[0]), events[1..], j, f))
  }

  /** Along the run the backlog cap never gives up the stamp. */
  ghost predicate Uncapped(d: Desk, events: seq<Event>, j: nat, f: int)
    requires j < SLOT_COUNT
    decreases |events|
  {
    events == []
    || (f !in Capped(d, events[0], j)
        && (Shaped(d) && Allowed(d, events[0]) ==> Uncapped(Apply(d, events[0]), events[1..], j, f)))
  }

  /** An entry of the ledger survives a run, with its value, exactly while its stamp is left
      alone, and an absent one stays absent. */
  lemma {:induction false} LedgerSurvives(d: Desk, events: seq<Event>, d': Desk, j: nat, f: int)
    requires DeskInv(d) && Leads(d, events, d') && j < SLOT_COUNT && Uncapped(d, events, j, f)
    requires forall k :: 0 <= k < |events| ==> Stays(events[k], j)
    ensures DeskInv(d')
    ensures f in d'.astray[j] <==> f in d.astray[j] && Untouched(d, events, j, f)
    ensures f in d'.astray[j] ==> d'.astray[j][f] == d.astray[j][f]
    decreases |events|
  {
    if events != [] {
      EventKeeps(d, events[0]);
      LedgerStep(d, events[0], j);
      LedgerSurvives(Apply(d, events[0]), events[1..], d', j, f);
    }
  }

  /** Exactly when a hidden bucket comes back: the load after the next flush returns the value
      that the buffers were hiding if and only if no append, merge or coarsening has written or
      dropped its stamp since, or memory happens to hold the same value; otherwise it is lost
      for good, and the load returns what memory held. */
  lemma HiddenReturnsExactly(d: Desk, events: seq<Event>, d': Desk, b: Broker, now: int, j: nat, f: int)
    requires DeskInv(d) && Leads(d, events, d') && j < SLOT_COUNT && Uncapped(d, events, j, f)
    requires forall k :: 0 <= k < |events| ==> Stays(events[k], j)
    requires f in d.astray[j] && f >= now - Cfg(j).retention
    requires Shaped(d') && Quiet(d'.pipe, SlotKey(j)) && d'.frames[j].clock <= now
    ensures var loaded := At(RestartDesk(b, now, d'.pipe.store).frames[j].frame, f);
            && (loaded == d.astray[j][f] <==>
                  Untouched(d, events, j, f) || Mirrored(d'.frames[j], f) == d.astray[j][f])
            && (!Untouched(d, events, j, f) ==> loaded == Mirrored(d'.frames[j], f))
  {
    LedgerSurvives(d, events, d', j, f);
    FlushedRestartRoundTrip(d', b, now, j, f);
  }

  // ---------------------------------------------------------------- such a case

  lemma AppendStoresNothing(d: Desk, j: nat, t: int, agg: Point)
    requires Shaped(d) && j < SLOT_COUNT
    ensures AppendDesk(d, j, t, agg).pipe.store == d.pipe.store
  {
    var l := d.frames[j];
    MirrorOthers(d.pipe, SlotKey(j), AppendWrites(l.frame, t, agg, Cfg(j)),
                 Stamps(AppendDropped(l.frame, t, agg, Cfg(j))), SlotKey(j) + "x");
  }

  /** 10:00 IST on the first day of the epoch. */
  const TEN: int := 16200000

  lemma TenClosesItsBucket()
    ensures TEN == SessionOpen(0) + 45 * MINUTE_MS && BucketEnd(TEN, MINUTE_MS) == TEN && !IsPreOpenBucket(TEN)
  {
  }

  /** A capture or candle with this reading; complete unless partial. */
  function Reads(t: int, r: Reading, partial: bool): Point { Point(t, r, None, None, partial) }

  lemma TenIsHeld(r: Reading)
    ensures !IsPreOpenBucket(BucketEnd(TEN, Cfg(0).size))
    ensures At(AppendLive([], TEN, Reads(0, r, false), Cfg(0)), TEN) == Some(Reads(TEN, r, false))
  {
    TenClosesItsBucket();
    SlotsAreValid();
    AppendLiveAt([], TEN, TEN, Reads(0, r, false), Cfg(0), TEN);
  }

  /** The desk after a first, complete capture at ten. */
  function TenDesk(r: Reading): Desk {
    AppendDesk(FirstDesk(Namespaces.Zerodha, TEN, 0), 0, TEN, Reads(0, r, false))
  }

  lemma TenDeskLeads(r: Reading)
    ensures DeskInv(TenDesk(r))
    ensures Leads(FirstDesk(Namespaces.Zerodha, TEN, 0), [Append(0, TEN, Reads(0, r, false))], TenDesk(r))
  {
    var d0, e, d := FirstDesk(Namespaces.Zerodha, TEN, 0), Append(0, TEN, Reads(0, r, false)), TenDesk(r);
    FirstDeskInv(Namespaces.Zerodha, TEN, 0);
    assert Allowed(d0, e) && Apply(d0, e) == d && Leads(d, [], d);
    EventKeeps(d0, e);
    assert [e][1..] == [];
  }

  lemma TenDeskHolds(r: Reading)
    ensures Shaped(TenDesk(r)) && At(TenDesk(r).frames[0].frame, TEN) == Some(Reads(TEN, r, false))
    ensures TenDesk(r).frames[0].clock == TEN && TenDesk(r).pipe.store == Store(map[], map[])
    ensures TenDesk(r).current == Namespaces.Zerodha && TenDesk(r).astray[0] == map[]
  {
    TenIsHeld(r);
    AppendStoresNothing(FirstDesk(Namespaces.Zerodha, TEN, 0), 0, TEN, Reads(0, r, false));
  }

  lemma TenDeskClocks(r: Reading)
    ensures Shaped(TenDesk(r)) && forall j :: 0 <= j < SLOT_COUNT ==> TenDesk(r).frames[j].clock == TEN
  {
    var d0 := FirstDesk(Namespaces.Zerodha, TEN, 0);
    assert forall j :: 0 <= j < SLOT_COUNT ==> d0.frames[j] == Live([], TEN);
  }

  /** A first capture at ten leaves its bucket in memory and in the buffer only. */
  lemma HeldOnlyInBuffer(r: Reading) returns (d: Desk)
    ensures Leads(FirstDesk(Namespaces.Zerodha, TEN, 0), [Append(0, TEN, Reads(0, r, false))], d)
    ensures DeskInv(d) && At(d.frames[0].frame, TEN) == Some(Reads(TEN, r, false)) && d.frames[0].clock == TEN
    ensures d.pipe.store == Store(map[], map[]) && d.astray[0] == map[]
    ensures forall j :: 0 <= j < SLOT_COUNT ==> d.frames[j].clock <= TEN
  {
    d := TenDesk(r);
    TenDeskLeads(r);
    TenDeskHolds(r);
    TenDeskClocks(r);
  }

  lemma {:induction false} Extends(d: Desk, events: seq<Event>, d': Desk, e: Event)
    requires DeskInv(d) && Leads(d, events, d') && Shaped(d') && Allowed(d', e)
    ensures Leads(d, events + [e], Apply(d', e))
    decreases |events|
  {
    var more := events + [e];
    if events == [] {
      assert more[1..] == [] && Leads(Apply(d', e), [], Apply(d', e));
    } else {
      EventKeeps(d, events[0]);
      Extends(Apply(d, events[0]), events[1..], d', e);
      assert more[1..] == events[1..] + [e];
    }
  }

  lemma NothingToReload(j: nat, now: int, f: int)
    requires j < SLOT_COUNT
    ensures At(Reloaded(Store(map[], map[]), j, now).frame, f).None?
  {
    SlotsAreValid();
    RestoredAt(Store(map[], map[]), SlotKey(j), now, now, Cfg(j), f);
  }

  /** Away and back at ten: slot 0 is reloaded from the store, and its ledger is what the
      buffers still hide. */
  function AwayAndBack(d: Desk): Desk
    requires Shaped(d)
  {
    SwitchDesk(SwitchDesk(d, Namespaces.Dhan, TEN), Namespaces.Zerodha, TEN)
  }

  lemma AwayAndBackHides(d: Desk, r: Reading)
    requires DeskInv(d) && d.frames[0].clock == TEN && At(d.frames[0].frame, TEN) == Some(Reads(TEN, r, false))
    requires d.pipe.store == Store(map[], map[]) && d.astray[0] == map[]
    ensures var back := AwayAndBack(d);
            && back.current == Namespaces.Zerodha
            && back.frames[0].clock == TEN && At(back.frames[0].frame, TEN).None?
            && TEN in back.astray[0] && back.astray[0][TEN] == Some(Reads(TEN, r, false))
  {
    assert SlotInv(d, 0);
    assert AwayAndBack(d).frames[0] == Reloaded(d.pipe.store, 0, TEN);
    assert AwayAndBack(d).astray[0] == HiddenAt(d, 0, TEN);
    NothingToReload(0, TEN, TEN);
    assert View(d.pipe, SlotKey(0), TEN) == Some(Reads(TEN, r, false));
  }

  lemma SwitchExtends(d0: Desk, events: seq<Event>, d: Desk, to: Broker, t: int)
    requires DeskInv(d0) && Leads(d0, events, d) && DeskInv(d)
    requires forall j :: 0 <= j < SLOT_COUNT ==> d.frames[j].clock <= t
    ensures Leads(d0, events + [Switch(to, t)], SwitchDesk(d, to, t)) && DeskInv(SwitchDesk(d, to, t))
    ensures forall j :: 0 <= j < SLOT_COUNT ==> SwitchDesk(d, to, t).frames[j].clock <= t
  {
    Extends(d0, events, d, Switch(to, t));
    SwitchKeeps(d, to, t);
  }

  /** A bucket closed at 10:00, a switch away and back before any flush: the frame comes back
      without it, and it is hidden in the buffer. */
  lemma SwitchBackTooSoon(r: Reading) returns (events: seq<Event>, d: Desk)
    ensures Leads(FirstDesk(Namespaces.Zerodha, TEN, 0), events, d) && DeskInv(d)
    ensures d.current == Namespaces.Zerodha && d.frames[0].clock == TEN && At(d.frames[0].frame, TEN).None?
    ensures TEN in d.astray[0] && d.astray[0][TEN] == Some(Reads(TEN, r, false))
  {
    var d0 := FirstDesk(Namespaces.Zerodha, TEN, 0);
    var d1 := HeldOnlyInBuffer(r);
    FirstDeskInv(Namespaces.Zerodha, TEN, 0);
    events := [Append(0, TEN, Reads(0, r, false))];
    SwitchExtends(d0, events, d1, Namespaces.Dhan, TEN);
    events := events + [Switch(Namespaces.Dhan, TEN)];
    SwitchExtends(d0, events, SwitchDesk(d1, Namespaces.Dhan, TEN), Namespaces.Zerodha, TEN);
    events := events + [Switch(Namespaces.Zerodha, TEN)];
    d := AwayAndBack(d1);
    AwayAndBackHides(d1, r);
  }

  lemma PartialCandleMerges(frame: Frame, r: Reading)
    requires At(frame, TEN).None?
    ensures var merged := MergeFrame(frame, [Reads(TEN - MINUTE_MS, r, true)], TEN, Cfg(0));
            At(merged, TEN) == Some(Reads(TEN, r, true))
    ensures NotBeyond([Reads(TEN - MINUTE_MS, r, true)], TEN, MINUTE_MS)
  {
    var candles := [Reads(TEN - MINUTE_MS, r, true)];
    TenClosesItsBucket();
    SlotsAreValid();
    assert candles[..0] == [] && CandleEnd(TEN - MINUTE_MS, MINUTE_MS) == TEN;
    assert Downsample(candles, Cfg(0).size) == map[TEN := Reads(TEN, r, true)];
    MergedOver(frame, candles, TEN, Cfg(0), TEN);
  }

  /** And the backfill that follows a switch can lose it for good: the minute comes back as a
      partial candle, which is written over the complete bucket still in the buffer. */
  lemma BackfillLosesHidden(r: Reading, r2: Reading) returns (events: seq<Event>, d: Desk, d': Desk)
    ensures Leads(FirstDesk(Namespaces.Zerodha, TEN, 0), events, d) && DeskInv(d)
    ensures View(d.pipe, SlotKey(0), TEN) == Some(Reads(TEN, r, false))
    ensures Allowed(d, Backfill(0, TEN, [Reads(TEN - MINUTE_MS, r2, true)]))
    ensures d' == Apply(d, Backfill(0, TEN, [Reads(TEN - MINUTE_MS, r2, true)]))
    ensures View(d'.pipe, SlotKey(0), TEN) == Some(Reads(TEN, r2, true))
  {
    var e := Backfill(0, TEN, [Reads(TEN - MINUTE_MS, r2, true)]);
    events, d := SwitchBackTooSoon(r);
    assert SlotInv(d, 0) && d.floors[0] <= TEN;
    PartialCandleMerges(d.frames[0].frame, r2);
    d' := Apply(d, e);
    EventKeeps(d, e);
    WrittenIsMirrored(d, 0, TEN, e.candles, TEN);
  }

  /** A bucket that a merge leaves closed is what the durable copy will hold. */
  lemma WrittenIsMirrored(d: Desk, j: nat, t: int, candles: seq<Point>, f: int)
    requires DeskInv(d) && j < SLOT_COUNT && d.frames[j].clock <= t && NotBeyond(candles, t, Cfg(j).size)
    requires d.floors[j] <= f <= t && At(Merged(d, j, t, candles), f).Some?
    ensures View(PersistDesk(d, j, Merged(d, j, t, candles), t).pipe, SlotKey(j), f) == At(Merged(d, j, t, candles), f)
  {
    var frame := Merged(d, j, t, candles);
    MirrorView(d.pipe, SlotKey(j), Closed(frame, t), Stamps(d.frames[j].frame) - Stamps(frame));
    ClosedAt(frame, t, f);
    StampsAt(frame, f);
  }
}
