/** One frame beside its durable copy: the mirror writes each frame operation queues, what
    flushes that succeed or fail partway and a restart make of them
    (internal/analytics/frames.go, writebehind.go and warmload.go). */
module FrameMirror {
  import opened Base
  import opened Ist
  import opened WriteBehind
  import opened Pipeline
  import opened Frames

  /** oiFrameKey. */
  function FrameKey(i: nat): Key {
    "oiframe:v2:" + (if i == 0 then "1m" else if i == 1 then "5m" else if i == 2 then "15m" else "1h")
  }

  lemma FrameKeysDiffer(i: nat, j: nat)
    requires i < j < FRAME_COUNT
    ensures FrameKey(i) != FrameKey(j)
  {
    var n := |"oiframe:v2:"|;
    assert FrameKey(i)[n..] != FrameKey(j)[n..];
  }

  // ---------------------------------------------------------------- queueing a frame

  function QueueAll(b: Buffer<Point>, key: Key, pts: seq<Point>): Buffer<Point> {
    if pts == [] then b
    else
      var last := pts[|pts| - 1];
      QueueField(QueueAll(b, key, pts[..|pts| - 1]), key, last.t, last, MAX_BUFFERED_FRAME_FIELDS)
  }

  /** The mirror writes of one frame operation: the written buckets, then the dropped ones. */
  function QueueMirror(b: Buffer<Point>, key: Key, writes: seq<Point>, gone: set<int>): Buffer<Point> {
    QueueDrop(QueueAll(b, key, writes), key, gone)
  }

  /** persistWholeFrameLocked: closed buckets are written, buckets that left are dropped. */
  function QueueWhole(b: Buffer<Point>, key: Key, before: Frame, frame: Frame, now: int): Buffer<Point> {
    QueueMirror(b, key, Closed(frame, now), Stamps(before) - Stamps(frame))
  }

  /** The live append mirrors the closed ones of its last two buckets and drops what it pruned. */
  function QueueAppend(b: Buffer<Point>, key: Key, frame: Frame, t: int, agg: Point, cfg: Config): Buffer<Point>
    requires cfg.size > 0
  {
    QueueMirror(b, key, Closed(LastTwo(AppendLive(frame, t, agg, cfg)), t), Stamps(AppendDropped(frame, t, agg, cfg)))
  }

  function PutAll(p: Pipe<Point>, key: Key, pts: seq<Point>): Pipe<Point> {
    p.(pending := QueueAll(p.pending, key, pts))
  }

  function Mirror(p: Pipe<Point>, key: Key, writes: seq<Point>, gone: set<int>): Pipe<Point> {
    p.(pending := QueueMirror(p.pending, key, writes, gone))
  }

  function PersistWhole(p: Pipe<Point>, key: Key, before: Frame, frame: Frame, now: int): Pipe<Point> {
    p.(pending := QueueWhole(p.pending, key, before, frame, now))
  }

  function PersistAppend(p: Pipe<Point>, key: Key, frame: Frame, t: int, agg: Point, cfg: Config): Pipe<Point>
    requires cfg.size > 0
  {
    p.(pending := QueueAppend(p.pending, key, frame, t, agg, cfg))
  }

  /** Key k is untouched between p and p'. */
  predicate SameKey(p: Pipe<Point>, p': Pipe<Point>, k: Key) {
    && p'.store == p.store && p'.inFlight == p.inFlight
    && (k in p.pending.hashes <==> k in p'.pending.hashes)
    && (k in p.pending.hashes ==> p'.pending.hashes[k] == p.pending.hashes[k])
  }

  lemma {:induction false} PutAllOthers(p: Pipe<Point>, key: Key, pts: seq<Point>, k: Key)
    requires k != key
    ensures SameKey(p, PutAll(p, key, pts), k)
  {
    if pts != [] { PutAllOthers(p, key, pts[..|pts| - 1], k); }
  }

  lemma {:induction false} PutAllView(p: Pipe<Point>, key: Key, pts: seq<Point>)
    requires ValidPipe(p)
    ensures var p' := PutAll(p, key, pts);
            && ValidPipe(p') && p'.store == p.store && p'.inFlight == p.inFlight
            && (forall f :: View(p', key, f) == if At(pts, f).Some? then At(pts, f) else View(p, key, f))
  {
    if pts != [] {
      var last, rest := pts[|pts| - 1], pts[..|pts| - 1];
      var q := PutAll(p, key, rest);
      PutAllView(p, key, rest);
      PutFieldView(q, key, last.t, last, MAX_BUFFERED_FRAME_FIELDS);
      var p' := PutAll(p, key, pts);
      forall f
        ensures View(p', key, f) == if At(pts, f).Some? then At(pts, f) else View(p, key, f)
      {
        assert View(p', key, f) == if f == last.t then Some(last) else View(q, key, f);
      }
    }
  }

  lemma MirrorView(p: Pipe<Point>, key: Key, writes: seq<Point>, gone: set<int>)
    requires ValidPipe(p)
    ensures var p' := Mirror(p, key, writes, gone);
            && ValidPipe(p') && p'.store == p.store && p'.inFlight == p.inFlight
            && (forall f :: View(p', key, f) ==
                  if f in gone then None else if At(writes, f).Some? then At(writes, f) else View(p, key, f))
  {
    var q := PutAll(p, key, writes);
    PutAllView(p, key, writes);
    DropFieldsView(q, key, gone);
    forall f
      ensures View(DropFields(q, key, gone), key, f) == if f in gone then None else View(q, key, f)
    {
    }
  }

  lemma MirrorOthers(p: Pipe<Point>, key: Key, writes: seq<Point>, gone: set<int>, k: Key)
    requires k != key
    ensures SameKey(p, Mirror(p, key, writes, gone), k)
  {
    PutAllOthers(p, key, writes, k);
  }

  // ---------------------------------------------------------------- the invariant

  /** A value that may be filed durably under f: its own bucket, closed by clock. */
  predicate Good(f: int, p: Point, clock: int, cfg: Config)
    requires cfg.size > 0
  {
    p.t == f && ValidStamp(f, cfg) && f <= clock
  }

  predicate GoodBuffer(b: Buffer<Point>, key: Key, clock: int, cfg: Config)
    requires cfg.size > 0
  {
    key in b.hashes ==>
      && b.hashes[key].maxFields == MAX_BUFFERED_FRAME_FIELDS
      && forall f :: f in b.hashes[key].entries ==> Good(f, b.hashes[key].entries[f], clock, cfg)
  }

  predicate GoodStore(st: Store<Point>, key: Key, clock: int, cfg: Config)
    requires cfg.size > 0
  {
    forall f :: f in HashAt(st, key) ==> Good(f, HashAt(st, key)[f], clock, cfg)
  }

  /** The bucket f as the durable copy should hold it. */
  function Mirrored(l: Live, f: int): Option<Point> {
    if f <= l.clock then At(l.frame, f) else None
  }

  /** Where the durable copy strays from memory, and what it will hold there: buckets that a
      reload did not see because they were still buffered, and what the cap gave up. */
  type Ledger = map<int, Option<Point>>

  function Durable(l: Live, astray: Ledger, f: int): Option<Point> {
    if f in astray then astray[f] else Mirrored(l, f)
  }

  ghost predicate Mirrors(p: Pipe<Point>, key: Key, l: Live, floor: int, astray: Ledger) {
    forall f :: f >= floor ==> View(p, key, f) == Durable(l, astray, f)
  }

  /** Frame l is in order and its durable copy is known exactly from floor on. Stamps below
      floor left retention before the frame was loaded; no operation reads them again. */
  ghost predicate FrameMirrored(p: Pipe<Point>, key: Key, l: Live, floor: int, astray: Ledger, cfg: Config) {
    && FrameInv(l.frame, l.clock, cfg)
    && floor <= l.clock - cfg.retention
    && Mirrors(p, key, l, floor, astray)
    && GoodStore(p.store, key, l.clock, cfg)
    && GoodBuffer(Sending(p), key, l.clock, cfg)
    && GoodBuffer(p.pending, key, l.clock, cfg)
  }

  /** Nothing buffered under the key lies below floor. */
  predicate TidyBuffer(b: Buffer<Point>, key: Key, floor: int) {
    key in b.hashes ==> forall f :: f in b.hashes[key].entries ==> floor <= f
  }

  predicate Tidy(p: Pipe<Point>, key: Key, floor: int) {
    TidyBuffer(Sending(p), key, floor) && TidyBuffer(p.pending, key, floor)
  }

  // ---------------------------------------------------------------- frame operations

  lemma {:induction false} PutAllGood(p: Pipe<Point>, key: Key, pts: seq<Point>, clock: int, cfg: Config)
    requires ValidConfig(cfg) && GoodBuffer(p.pending, key, clock, cfg)
    requires forall i :: 0 <= i < |pts| ==> Good(pts[i].t, pts[i], clock, cfg)
    ensures GoodBuffer(PutAll(p, key, pts).pending, key, clock, cfg)
  {
    if pts != [] { PutAllGood(p, key, pts[..|pts| - 1], clock, cfg); }
  }

  lemma {:induction false} PutAllTidy(p: Pipe<Point>, key: Key, pts: seq<Point>, floor: int)
    requires TidyBuffer(p.pending, key, floor) && forall i :: 0 <= i < |pts| ==> floor <= pts[i].t
    ensures TidyBuffer(PutAll(p, key, pts).pending, key, floor)
  {
    if pts != [] { PutAllTidy(p, key, pts[..|pts| - 1], floor); }
  }

  lemma MirrorGood(p: Pipe<Point>, key: Key, writes: seq<Point>, gone: set<int>, clock: int, cfg: Config)
    requires ValidConfig(cfg) && GoodBuffer(p.pending, key, clock, cfg)
    requires forall i :: 0 <= i < |writes| ==> Good(writes[i].t, writes[i], clock, cfg)
    ensures GoodBuffer(Mirror(p, key, writes, gone).pending, key, clock, cfg)
  {
    PutAllGood(p, key, writes, clock, cfg);
  }

  lemma MirrorTidy(p: Pipe<Point>, key: Key, writes: seq<Point>, gone: set<int>, floor: int)
    requires ValidPipe(p) && Tidy(p, key, floor) && forall i :: 0 <= i < |writes| ==> floor <= writes[i].t
    ensures Tidy(Mirror(p, key, writes, gone), key, floor)
  {
    PutAllTidy(p, key, writes, floor);
  }

  lemma {:induction false} ClosedWithin(pts: Frame, now: int)
    ensures forall i :: 0 <= i < |Closed(pts, now)| ==> Closed(pts, now)[i] in pts && Closed(pts, now)[i].t <= now
  {
    if pts != [] { ClosedWithin(pts[..|pts| - 1], now); }
  }

  /** Time passing keeps what is already durable acceptable. */
  lemma LaterClock(p: Pipe<Point>, key: Key, clock: int, now: int, cfg: Config)
    requires cfg.size > 0 && clock <= now
    requires GoodStore(p.store, key, clock, cfg) && GoodBuffer(Sending(p), key, clock, cfg)
    requires GoodBuffer(p.pending, key, clock, cfg)
    ensures GoodStore(p.store, key, now, cfg) && GoodBuffer(Sending(p), key, now, cfg)
    ensures GoodBuffer(p.pending, key, now, cfg)
  {
  }

  lemma WritesAreGood(frame: Frame, pts: Frame, now: int, floor: int, cfg: Config)
    requires FrameInv(frame, now, cfg) && floor <= now - cfg.retention
    requires forall i :: 0 <= i < |pts| ==> pts[i] in frame
    ensures forall i :: 0 <= i < |Closed(pts, now)| ==>
              floor <= Closed(pts, now)[i].t && Good(Closed(pts, now)[i].t, Closed(pts, now)[i], now, cfg)
  {
    ClosedWithin(pts, now);
  }

  /** The stamps one operation writes or drops; the durable copy follows memory there. */
  function Written(writes: seq<Point>, gone: set<int>): set<int> { Stamps(writes) + gone }

  /** One field after a whole frame was rewritten. */
  lemma PersistViewAt(
    p: Pipe<Point>, key: Key, l: Live, floor: int, astray: Ledger, frame: Frame, now: int, cfg: Config, f: int)
    requires ValidPipe(p) && Mirrors(p, key, l, floor, astray) && l.clock <= now && f >= floor
    ensures var writes, gone := Closed(frame, now), Stamps(l.frame) - Stamps(frame);
            View(PersistWhole(p, key, l.frame, frame, now), key, f)
            == Durable(Live(frame, now), astray - Written(writes, gone), f)
  {
    var writes, gone := Closed(frame, now), Stamps(l.frame) - Stamps(frame);
    MirrorView(p, key, writes, gone);
    ClosedAt(frame, now, f);
    StampsAt(writes, f);
    StampsAt(frame, f);
    StampsAt(l.frame, f);
  }

  /** Rewriting a whole frame re-establishes the mirror at every closed bucket, whatever the
      new frame is. */
  lemma PersistWholeMirrors(
    p: Pipe<Point>, key: Key, l: Live, floor: int, astray: Ledger, frame: Frame, now: int, cfg: Config)
    requires ValidPipe(p) && FrameMirrored(p, key, l, floor, astray, cfg) && l.clock <= now
    requires FrameInv(frame, now, cfg)
    ensures var writes, gone := Closed(frame, now), Stamps(l.frame) - Stamps(frame);
            var p' := PersistWhole(p, key, l.frame, frame, now);
            && ValidPipe(p')
            && FrameMirrored(p', key, Live(frame, now), floor, astray - Written(writes, gone), cfg)
            && (Tidy(p, key, floor) ==> Tidy(p', key, floor))
  {
    var writes, gone := Closed(frame, now), Stamps(l.frame) - Stamps(frame);
    MirrorView(p, key, writes, gone);
    LaterClock(p, key, l.clock, now, cfg);
    WritesAreGood(frame, frame, now, floor, cfg);
    MirrorGood(p, key, writes, gone, now, cfg);
    if Tidy(p, key, floor) { MirrorTidy(p, key, writes, gone, floor); }
    forall f | f >= floor
      ensures View(PersistWhole(p, key, l.frame, frame, now), key, f)
           == Durable(Live(frame, now), astray - Written(writes, gone), f)
    {
      PersistViewAt(p, key, l, floor, astray, frame, now, cfg, f);
    }
  }

  /** Which buckets of the appended frame are among the two that get re-written. */
  lemma LastTwoAt(frame: Frame, f: int)
    requires Sorted(frame)
    ensures At(LastTwo(frame), f) ==
            if |frame| > 2 && f < frame[|frame| - 2].t then None else At(frame, f)
    ensures forall i :: 0 <= i < |LastTwo(frame)| ==> LastTwo(frame)[i] in frame
  {
    var two := LastTwo(frame);
    AtIndex(two, f);
    AtIndex(frame, f);
    if |frame| > 2 {
      if i :| 0 <= i < |frame| && frame[i].t == f {
        if i >= |frame| - 2 { assert two[i - (|frame| - 2)] == frame[i]; }
      }
    }
  }

  lemma EarlierWasClosed(l: Live, cfg: Config, f: int, g: int)
    requires FrameInv(l.frame, l.clock, cfg) && f < g && At(l.frame, f).Some? && At(l.frame, g).Some?
    ensures f <= l.clock
  {
    AtIndex(l.frame, f);
    AtIndex(l.frame, g);
    var i :| 0 <= i < |l.frame| && l.frame[i].t == f;
    var j :| 0 <= j < |l.frame| && l.frame[j].t == g;
    assert i < j;
    OnlyTailForms(l.frame, l.clock, cfg, i);
  }

  /** The second-last bucket of an appended frame was in the frame before. */
  lemma SecondLastIsOld(l: Live, t: int, agg: Point, cfg: Config)
    requires FrameInv(l.frame, l.clock, cfg) && l.clock <= t
    requires !IsPreOpenBucket(BucketEnd(t, cfg.size))
    requires |AppendLive(l.frame, t, agg, cfg)| > 2
    ensures var frame := AppendLive(l.frame, t, agg, cfg);
            var g := frame[|frame| - 2].t;
            g < BucketEnd(t, cfg.size) && At(l.frame, g).Some?
  {
    var frame := AppendLive(l.frame, t, agg, cfg);
    var g := frame[|frame| - 2].t;
    AppendKeepsInv(l.frame, l.clock, t, agg, cfg);
    assert g < frame[|frame| - 1].t;
    AppendLiveAt(l.frame, l.clock, t, agg, cfg, g);
    AtIndex(frame, g);
  }

  /** A bucket the append does not re-write was closed before and has not changed. */
  lemma UntouchedWasClosed(l: Live, t: int, agg: Point, cfg: Config, f: int)
    requires FrameInv(l.frame, l.clock, cfg) && l.clock <= t
    requires !IsPreOpenBucket(BucketEnd(t, cfg.size))
    requires var frame := AppendLive(l.frame, t, agg, cfg);
             At(frame, f).Some? && |frame| > 2 && f < frame[|frame| - 2].t
    ensures At(AppendLive(l.frame, t, agg, cfg), f) == At(l.frame, f) && f <= l.clock
  {
    var frame := AppendLive(l.frame, t, agg, cfg);
    SecondLastIsOld(l, t, agg, cfg);
    AppendLiveAt(l.frame, l.clock, t, agg, cfg, f);
    EarlierWasClosed(l, cfg, f, frame[|frame| - 2].t);
  }

  lemma ExpiredStamps(pts: Frame, cutoff: int, f: int)
    requires Sorted(pts)
    ensures f in Stamps(pts[..Expired(pts, cutoff)]) <==> f < cutoff && At(pts, f).Some?
  {
    var n := Expired(pts, cutoff);
    AtIndex(pts, f);
    if f < cutoff && At(pts, f).Some? {
      var i :| 0 <= i < |pts| && pts[i].t == f;
      assert i < n;
      assert pts[..n][i].t == f;
    }
  }

  lemma AppendedKeeps(l: Live, t: int, agg: Point, cfg: Config, f: int)
    requires FrameInv(l.frame, l.clock, cfg) && l.clock <= t
    ensures At(l.frame, f).Some? ==> At(Appended(l.frame, t, agg, cfg), f).Some?
  {
    AppendedAt(l.frame, l.clock, t, agg, cfg, f);
  }

  lemma DroppedAt(frame: Frame, t: int, agg: Point, cfg: Config, f: int)
    requires cfg.size > 0 && Sorted(Appended(frame, t, agg, cfg))
    ensures f in Stamps(AppendDropped(frame, t, agg, cfg))
       <==> f < t - cfg.retention && At(Appended(frame, t, agg, cfg), f).Some?
  {
    ExpiredStamps(Appended(frame, t, agg, cfg), t - cfg.retention, f);
  }

  lemma DroppedStamps(l: Live, t: int, agg: Point, cfg: Config, f: int)
    requires FrameInv(l.frame, l.clock, cfg) && l.clock <= t
    requires !IsPreOpenBucket(BucketEnd(t, cfg.size))
    ensures f in Stamps(AppendDropped(l.frame, t, agg, cfg)) ==> f < t - cfg.retention
    ensures f < t - cfg.retention && At(l.frame, f).Some? ==> f in Stamps(AppendDropped(l.frame, t, agg, cfg))
  {
    AppendedKeeps(l, t, agg, cfg, f);
    AppendedStaysSorted(l.frame, l.clock, t, agg, cfg);
    DroppedAt(l.frame, t, agg, cfg, f);
  }

  /** What an append writes and drops. */
  function AppendWrites(frame: Frame, t: int, agg: Point, cfg: Config): Frame
    requires cfg.size > 0
  {
    Closed(LastTwo(AppendLive(frame, t, agg, cfg)), t)
  }

  function AppendWritten(frame: Frame, t: int, agg: Point, cfg: Config): set<int>
    requires cfg.size > 0
  {
    Written(AppendWrites(frame, t, agg, cfg), Stamps(AppendDropped(frame, t, agg, cfg)))
  }

  /** A bucket of an appended frame is written, dropped or was mirrored already. */
  lemma AppendFollows(l: Live, t: int, agg: Point, cfg: Config, f: int)
    requires FrameInv(l.frame, l.clock, cfg) && l.clock <= t && !IsPreOpenBucket(BucketEnd(t, cfg.size))
    ensures var writes, gone := AppendWrites(l.frame, t, agg, cfg), Stamps(AppendDropped(l.frame, t, agg, cfg));
            var after := Mirrored(Live(AppendLive(l.frame, t, agg, cfg), t), f);
            && (f in AppendWritten(l.frame, t, agg, cfg) <==> f in gone || At(writes, f).Some?)
            && after == if f in gone then None else if At(writes, f).Some? then At(writes, f) else Mirrored(l, f)
  {
    var frame := AppendLive(l.frame, t, agg, cfg);
    AppendKeepsInv(l.frame, l.clock, t, agg, cfg);
    ClosedAt(LastTwo(frame), t, f);
    StampsAt(Closed(LastTwo(frame), t), f);
    LastTwoAt(frame, f);
    AppendLiveAt(l.frame, l.clock, t, agg, cfg, f);
    DroppedStamps(l, t, agg, cfg, f);
    if At(frame, f).Some? && |frame| > 2 && f < frame[|frame| - 2].t {
      UntouchedWasClosed(l, t, agg, cfg, f);
    }
  }

  lemma AppendViewAt(p: Pipe<Point>, key: Key, l: Live, astray: Ledger, t: int, agg: Point, cfg: Config, f: int)
    requires ValidPipe(p) && FrameInv(l.frame, l.clock, cfg) && l.clock <= t
    requires View(p, key, f) == Durable(l, astray, f) && !IsPreOpenBucket(BucketEnd(t, cfg.size))
    ensures View(PersistAppend(p, key, l.frame, t, agg, cfg), key, f)
         == Durable(Live(AppendLive(l.frame, t, agg, cfg), t), astray - AppendWritten(l.frame, t, agg, cfg), f)
  {
    MirrorView(p, key, AppendWrites(l.frame, t, agg, cfg), Stamps(AppendDropped(l.frame, t, agg, cfg)));
    AppendFollows(l, t, agg, cfg, f);
  }

  lemma AppendMirrors(
    p: Pipe<Point>, key: Key, l: Live, floor: int, astray: Ledger, t: int, agg: Point, cfg: Config)
    requires ValidPipe(p) && FrameMirrored(p, key, l, floor, astray, cfg) && l.clock <= t
    requires !IsPreOpenBucket(BucketEnd(t, cfg.size))
    ensures var p' := PersistAppend(p, key, l.frame, t, agg, cfg);
            && ValidPipe(p')
            && FrameMirrored(p', key, Live(AppendLive(l.frame, t, agg, cfg), t), floor,
                             astray - AppendWritten(l.frame, t, agg, cfg), cfg)
            && (Tidy(p, key, floor) ==> Tidy(p', key, floor))
  {
    var frame := AppendLive(l.frame, t, agg, cfg);
    var writes, gone := Closed(LastTwo(frame), t), Stamps(AppendDropped(l.frame, t, agg, cfg));
    var p', astray' := Mirror(p, key, writes, gone), astray - AppendWritten(l.frame, t, agg, cfg);
    AppendKeepsInv(l.frame, l.clock, t, agg, cfg);
    MirrorView(p, key, writes, gone);
    LaterClock(p, key, l.clock, t, cfg);
    LastTwoAt(frame, 0);
    WritesAreGood(frame, LastTwo(frame), t, floor, cfg);
    MirrorGood(p, key, writes, gone, t, cfg);
    if Tidy(p, key, floor) { MirrorTidy(p, key, writes, gone, floor); }
    forall f | f >= floor
      ensures View(p', key, f) == Durable(Live(frame, t), astray', f)
    {
      AppendViewAt(p, key, l, astray, t, agg, cfg, f);
    }
  }

  // ---------------------------------------------------------------- the cap never bites

  /** Number of the bucket that ends at or just after t. */
  function Slot(t: int, size: int): int
    requires size > 0
  {
    CeilDiv(t + IST_OFFSET_MS, size)
  }

  lemma StampShape(x: int, cfg: Config)
    requires ValidConfig(cfg) && ValidStamp(x, cfg)
    ensures x <= SessionClose(x) && Midnight(x) < x
    ensures x == AlignUp(x, cfg.size) || x == SessionClose(x)
  {
    BucketEndRange(x, cfg.size);
    DayBounds(x);
  }

  /** Distinct bucket stamps occupy distinct slots, the 15:40 bucket included. */
  lemma SlotsIncrease(x: int, y: int, cfg: Config)
    requires ValidConfig(cfg) && ValidStamp(x, cfg) && ValidStamp(y, cfg) && x < y
    ensures Slot(x, cfg.size) < Slot(y, cfg.size)
  {
    var size := cfg.size;
    AlignUpLeast(x, size);
    AlignUpLeast(y, size);
    StampShape(x, cfg);
    StampShape(y, cfg);
    if Slot(y, size) < Slot(x, size) { MultipleStep(Slot(y, size), Slot(x, size), size); }
    if Slot(x, size) == Slot(y, size) {
      assert x == SessionClose(x);
      if Day(x) != Day(y) {
        LaterDay(x, y);
        DayBounds(x);
        MidnightAligned(y, size);
      }
      assert false;
    }
  }

  lemma MidnightAligned(y: int, size: int)
    requires size > 0 && DAY_MS % size == 0
    ensures Aligned(Midnight(y), size)
  {
    MultipleDivisible(Day(y), DAY_MS);
    AlignedTransfers(Midnight(y), size, DAY_MS);
  }

  lemma {:induction false} SlotsSpread(frame: Frame, cfg: Config, n: nat)
    requires ValidConfig(cfg) && Sorted(frame) && n < |frame|
    requires forall i :: 0 <= i < |frame| ==> ValidStamp(frame[i].t, cfg)
    ensures Slot(frame[0].t, cfg.size) + n <= Slot(frame[n].t, cfg.size)
  {
    if n > 0 {
      SlotsSpread(frame, cfg, n - 1);
      SlotsIncrease(frame[n - 1].t, frame[n].t, cfg);
    }
  }

  lemma SlotSpan(x: int, y: int, size: int, k: nat)
    requires size > 0 && y - x < k * size
    ensures Slot(y, size) - Slot(x, size) <= k
  {
    var a, b := Slot(x, size), Slot(y, size);
    assert b * size - size < y + IST_OFFSET_MS && x + IST_OFFSET_MS <= a * size;
    if b > a + k { FarApart(a, b, k, size); }
  }

  lemma FarApart(a: int, b: int, k: int, size: int)
    requires size > 0 && b > a + k
    ensures b * size >= a * size + k * size + size
  {
    MultipleStep(a + k, b, size);
    assert (a + k) * size == a * size + k * size;
  }

  /** No frame can hold as many buckets as the backlog cap allows. */
  lemma FrameIsSmall(frame: Frame, clock: int, cfg: Config)
    requires FrameInv(frame, clock, cfg)
    ensures |frame| < MAX_BUFFERED_FRAME_FIELDS
  {
    if |frame| > 0 {
      var n := |frame| - 1;
      SlotsSpread(frame, cfg, n);
      AlignUpLeast(clock, cfg.size);
      assert BucketEnd(clock, cfg.size) - clock < cfg.size;
      assert 2002 * cfg.size == 2000 * cfg.size + 2 * cfg.size;
      SlotSpan(frame[0].t, frame[n].t, cfg.size, 2002);
    }
  }

  lemma {:induction false} StampsCount(frame: Frame)
    ensures |Stamps(frame)| <= |frame|
  {
    if frame != [] {
      var n := |frame| - 1;
      StampsCount(frame[..n]);
      assert Stamps(frame) == Stamps(frame[..n]) + {frame[n].t};
    }
  }

  lemma SubsetCount(a: set<int>, b: set<int>)
    requires a <= b
    ensures |a| <= |b|
  {
    assert b == a + (b - a);
  }

  /** The backlog cap never gives up a bucket of a frame whose durable copy has not strayed:
      everything re-queued for the frame is in it, and no frame is that long. */
  lemma CapSparesFrames(p: Pipe<Point>, key: Key, l: Live, floor: int, cfg: Config)
    requires ValidPipe(p) && FrameMirrored(p, key, l, floor, map[], cfg) && Tidy(p, key, floor)
    ensures CapLoss(p, key) == {}
  {
    var m := Merge(Sending(p), p.pending);
    if key in m.hashes {
      var h := m.hashes[key];
      forall f | f in h.entries.Keys
        ensures f in Stamps(l.frame)
      {
        RequeuedIsHeld(p, key, l, floor, cfg, f);
      }
      SubsetCount(h.entries.Keys, Stamps(l.frame));
      StampsCount(l.frame);
      FrameIsSmall(l.frame, l.clock, cfg);
    }
  }

  /** What is re-queued for writing is what readers see, and some buffer held it. */
  lemma RequeuedReads(p: Pipe<Point>, key: Key, f: int)
    requires ValidPipe(p)
    requires var m := Merge(Sending(p), p.pending); key in m.hashes && f in m.hashes[key].entries
    ensures View(p, key, f).Some?
    ensures (key in p.pending.hashes && f in p.pending.hashes[key].entries)
         || (key in Sending(p).hashes && f in Sending(p).hashes[key].entries)
  {
    var under := Stored(p.store, key, f);
    MergeReads(Sending(p), p.pending, key, f, under, under);
    if key in Sending(p).hashes && key in p.pending.hashes {
      MergeHashReads(Sending(p).hashes[key], p.pending.hashes[key], f);
    }
  }

  lemma RequeuedIsHeld(p: Pipe<Point>, key: Key, l: Live, floor: int, cfg: Config, f: int)
    requires ValidPipe(p) && FrameMirrored(p, key, l, floor, map[], cfg) && Tidy(p, key, floor)
    requires var m := Merge(Sending(p), p.pending); key in m.hashes && f in m.hashes[key].entries
    ensures f in Stamps(l.frame)
  {
    RequeuedReads(p, key, f);
    assert f >= floor;
    assert View(p, key, f) == Mirrored(l, f);
    StampsAt(l.frame, f);
  }

  // ---------------------------------------------------------------- flushes and restarts

  lemma PartGood(st: Store<Point>, b: Buffer<Point>, st': Store<Point>, key: Key, clock: int, cfg: Config)
    requires cfg.size > 0 && PartlyApplied(st, b, st')
    requires GoodStore(st, key, clock, cfg) && GoodBuffer(b, key, clock, cfg)
    ensures GoodStore(st', key, clock, cfg)
  {
    forall f | f in HashAt(st', key)
      ensures Good(f, HashAt(st', key)[f], clock, cfg)
    {
      assert Stored(st', key, f) == Stored(st, key, f) || Stored(st', key, f) == Overlay(b, key, f, Stored(st, key, f));
    }
  }

  lemma FullIsPart(st: Store<Point>, b: Buffer<Point>, st': Store<Point>)
    requires FullyApplied(st, b, st')
    ensures PartlyApplied(st, b, st')
  {
  }

  lemma RequeueGood(sent: Buffer<Point>, cur: Buffer<Point>, key: Key, clock: int, cfg: Config)
    requires cfg.size > 0 && GoodBuffer(sent, key, clock, cfg) && GoodBuffer(cur, key, clock, cfg)
    ensures GoodBuffer(Requeue(sent, cur), key, clock, cfg)
  {
  }

  lemma RequeueTidy(sent: Buffer<Point>, cur: Buffer<Point>, key: Key, floor: int)
    requires TidyBuffer(sent, key, floor) && TidyBuffer(cur, key, floor)
    ensures TidyBuffer(Requeue(sent, cur), key, floor)
  {
  }

  lemma BeginMirrored(p: Pipe<Point>, key: Key, l: Live, floor: int, astray: Ledger, cfg: Config)
    requires ValidPipe(p) && p.inFlight.None? && FrameMirrored(p, key, l, floor, astray, cfg)
    ensures FrameMirrored(BeginFlush(p), key, l, floor, astray, cfg)
  {
    BeginFlushView(p);
  }

  /** Part of the batch in flight has reached the store, and readers of the store see it. */
  function Landed(p: Pipe<Point>, store: Store<Point>): Pipe<Point> { p.(store := store) }

  lemma LandedView(p: Pipe<Point>, store: Store<Point>, k: Key, f: int)
    requires PartlyApplied(p.store, Sending(p), store)
    ensures View(Landed(p, store), k, f) == View(p, k, f)
  {
    assert Stored(store, k, f) == Stored(p.store, k, f)
        || Stored(store, k, f) == Overlay(Sending(p), k, f, Stored(p.store, k, f));
  }

  lemma LandedMirrored(p: Pipe<Point>, store: Store<Point>, key: Key, l: Live, floor: int, astray: Ledger, cfg: Config)
    requires ValidPipe(p) && FrameMirrored(p, key, l, floor, astray, cfg) && PartlyApplied(p.store, Sending(p), store)
    ensures FrameMirrored(Landed(p, store), key, l, floor, astray, cfg)
  {
    PartGood(p.store, Sending(p), store, key, l.clock, cfg);
    forall f | f >= floor
      ensures View(Landed(p, store), key, f) == Durable(l, astray, f)
    {
      LandedView(p, store, key, f);
    }
  }

  lemma DoneMirrored(p: Pipe<Point>, store: Store<Point>, key: Key, l: Live, floor: int, astray: Ledger, cfg: Config)
    requires ValidPipe(p) && FrameMirrored(p, key, l, floor, astray, cfg) && FullyApplied(p.store, Sending(p), store)
    ensures FrameMirrored(FlushDone(p, store), key, l, floor, astray, cfg)
  {
    FlushDoneView(p, store);
    FullIsPart(p.store, Sending(p), store);
    PartGood(p.store, Sending(p), store, key, l.clock, cfg);
  }

  /** What the cap gives up when the flush in flight fails falls back to the store. */
  ghost function GivenUp(p: Pipe<Point>, store: Store<Point>, key: Key): Ledger {
    map f | f in CapLoss(p, key) :: Stored(store, key, f)
  }

  lemma GivenUpAt(astray: Ledger, p: Pipe<Point>, store: Store<Point>, key: Key, l: Live, f: int)
    ensures Durable(l, astray + GivenUp(p, store, key), f)
         == if f in CapLoss(p, key) then Stored(store, key, f) else Durable(l, astray, f)
  {
    assert f in GivenUp(p, store, key) <==> f in CapLoss(p, key);
  }

  lemma FailedViewAt(p: Pipe<Point>, store: Store<Point>, key: Key, l: Live, astray: Ledger, f: int)
    requires ValidPipe(p) && PartlyApplied(p.store, Sending(p), store) && View(p, key, f) == Durable(l, astray, f)
    ensures View(FlushFailed(p, store), key, f) == Durable(l, astray + GivenUp(p, store, key), f)
  {
    FlushFailedView(p, store, key, f);
    GivenUpAt(astray, p, store, key, l, f);
  }

  lemma FailedMirrored(p: Pipe<Point>, store: Store<Point>, key: Key, l: Live, floor: int, astray: Ledger, cfg: Config)
    requires ValidPipe(p) && FrameMirrored(p, key, l, floor, astray, cfg) && PartlyApplied(p.store, Sending(p), store)
    ensures FrameMirrored(FlushFailed(p, store), key, l, floor, astray + GivenUp(p, store, key), cfg)
  {
    forall f | f >= floor
      ensures View(FlushFailed(p, store), key, f) == Durable(l, astray + GivenUp(p, store, key), f)
    {
      FailedViewAt(p, store, key, l, astray, f);
    }
    PartGood(p.store, Sending(p), store, key, l.clock, cfg);
    RequeueGood(Sending(p), p.pending, key, l.clock, cfg);
  }

  /** A frame whose durable copy has not strayed stays so when a flush fails. */
  lemma FailedTidy(p: Pipe<Point>, store: Store<Point>, key: Key, l: Live, floor: int, cfg: Config)
    requires ValidPipe(p) && FrameMirrored(p, key, l, floor, map[], cfg) && Tidy(p, key, floor)
    ensures Tidy(FlushFailed(p, store), key, floor) && GivenUp(p, store, key) == map[]
  {
    RequeueTidy(Sending(p), p.pending, key, floor);
    CapSparesFrames(p, key, l, floor, cfg);
  }

  /** What a warm load reads for one frame: the stored buckets still in retention. */
  function Loaded(st: Store<Point>, key: Key, cutoff: int): map<int, Point> {
    map f | f in HashAt(st, key) && f >= cutoff :: HashAt(st, key)[f]
  }

  /** A frame rebuilt by a process that starts at now from the given store. */
  function Restored(st: Store<Point>, key: Key, now: int, cfg: Config): Live {
    Live(WarmLoaded([], Loaded(st, key, now - cfg.retention)), now)
  }

  lemma RestoredAt(st: Store<Point>, key: Key, clock: int, now: int, cfg: Config, f: int)
    requires ValidConfig(cfg) && GoodStore(st, key, clock, cfg)
    ensures Sorted(Restored(st, key, now, cfg).frame)
    ensures At(Restored(st, key, now, cfg).frame, f) == if f < now - cfg.retention then None else Stored(st, key, f)
  {
    assert Keyed(Loaded(st, key, now - cfg.retention));
    WarmLoadedAt([], Loaded(st, key, now - cfg.retention), f);
  }

  lemma RestoredInv(st: Store<Point>, key: Key, clock: int, now: int, cfg: Config)
    requires ValidConfig(cfg) && GoodStore(st, key, clock, cfg) && clock <= now
    ensures FrameInv(Restored(st, key, now, cfg).frame, now, cfg)
  {
    var l := Restored(st, key, now, cfg);
    RestoredAt(st, key, clock, now, cfg, 0);
    forall i | 0 <= i < |l.frame|
      ensures ValidStamp(l.frame[i].t, cfg)
      ensures now - cfg.retention <= l.frame[i].t <= BucketEnd(now, cfg.size)
    {
      var f := l.frame[i].t;
      RestoredAt(st, key, clock, now, cfg, f);
      AtIndex(l.frame, f);
      BucketEndMonotone(f, now, cfg.size);
    }
  }

  // ---------------------------------------------------------------- reloading beside a buffer

  /** The fields buffered under the key, to be written or deleted. */
  function BufferedIn(b: Buffer<Point>, key: Key): set<int> {
    if key in b.hashes then b.hashes[key].entries.Keys + b.hashes[key].stale else {}
  }

  function Buffered(p: Pipe<Point>, key: Key): set<int> { BufferedIn(p.pending, key) + BufferedIn(Sending(p), key) }

  lemma UnbufferedIsStored(p: Pipe<Point>, key: Key, f: int)
    requires f !in Buffered(p, key)
    ensures View(p, key, f) == Stored(p.store, key, f)
  {
  }

  /** The buckets in retention that a reload does not see: what is still buffered for them
      differs from what is stored. */
  function Hidden(p: Pipe<Point>, key: Key, cutoff: int): (r: Ledger)
    ensures forall f :: f in r ==> f >= cutoff && View(p, key, f) != Stored(p.store, key, f) && r[f] == View(p, key, f)
    ensures forall f :: f >= cutoff && f !in r ==> View(p, key, f) == Stored(p.store, key, f)
  {
    assert forall f :: f !in Buffered(p, key) ==> View(p, key, f) == Stored(p.store, key, f);
    map f | f in Buffered(p, key) && f >= cutoff && View(p, key, f) != Stored(p.store, key, f) :: View(p, key, f)
  }

  /** A frame reloaded from the store while the buffers stay: exact but for what they hide. */
  lemma ReloadMirrored(p: Pipe<Point>, key: Key, clock: int, now: int, cfg: Config)
    requires ValidConfig(cfg) && clock <= now && GoodStore(p.store, key, clock, cfg)
    requires GoodBuffer(Sending(p), key, clock, cfg) && GoodBuffer(p.pending, key, clock, cfg)
    ensures var cutoff := now - cfg.retention;
            FrameMirrored(p, key, Restored(p.store, key, now, cfg), cutoff, Hidden(p, key, cutoff), cfg)
  {
    var cutoff, l := now - cfg.retention, Restored(p.store, key, now, cfg);
    RestoredInv(p.store, key, clock, now, cfg);
    LaterClock(p, key, clock, now, cfg);
    forall f | f >= cutoff
      ensures View(p, key, f) == Durable(l, Hidden(p, key, cutoff), f)
    {
      RestoredAt(p.store, key, clock, now, cfg, f);
    }
  }
}
