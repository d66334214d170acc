/** The open-interest frames (internal/analytics/frames.go): live append, merge of
    backfilled candles, coarsening from a finer frame and the warm load.

    The futures frames are the special case in which no point is ever partial. */
module Frames {
  import opened Base
  import opened Ist
  import opened WriteBehind

  datatype Reading = Reading(totalCe: real, totalPe: real, straddle: real, spot: real)

  /** A bucket; wLo and wHi are present only on backfilled points. */
  datatype Point = Point(t: int, reading: Reading, wLo: Option<real>, wHi: Option<real>, partial: bool)

  type Frame = seq<Point>

  /** size is the bucket length and retention how far back points are kept, in ms. */
  datatype Config = Config(size: int, retention: int)

  predicate ValidConfig(cfg: Config) {
    && cfg.size > 0 && cfg.size % MINUTE_MS == 0 && DAY_MS % cfg.size == 0
    && cfg.retention >= DAY_MS
    && cfg.retention <= 2000 * cfg.size
  }

  const FRAME_COUNT: nat := 4

  const FRAMES: seq<Config> :=
    [Config(MINUTE_MS, DAY_MS), Config(5 * MINUTE_MS, 3 * DAY_MS),
     Config(15 * MINUTE_MS, 7 * DAY_MS), Config(60 * MINUTE_MS, 7 * DAY_MS)]

  lemma FramesAreValid()
    ensures |FRAMES| == FRAME_COUNT && forall i :: 0 <= i < FRAME_COUNT ==> ValidConfig(FRAMES[i])
  {
  }

  ghost predicate Sorted(frame: Frame) {
    forall i, j :: 0 <= i < j < |frame| ==> frame[i].t < frame[j].t
  }

  /** The point stamped f, the latest one if several are. */
  function At(pts: Frame, f: int): Option<Point> {
    if pts == [] then None
    else if pts[|pts| - 1].t == f then Some(pts[|pts| - 1])
    else At(pts[..|pts| - 1], f)
  }

  lemma {:induction false} AtIndex(pts: Frame, f: int)
    ensures At(pts, f).Some? ==> exists i :: 0 <= i < |pts| && pts[i].t == f && At(pts, f) == Some(pts[i])
    ensures At(pts, f).None? ==> forall i :: 0 <= i < |pts| ==> pts[i].t != f
    ensures Sorted(pts) ==> forall i :: 0 <= i < |pts| && pts[i].t == f ==> At(pts, f) == Some(pts[i])
  {
    if pts != [] { AtIndex(pts[..|pts| - 1], f); }
  }

  function Stamps(pts: Frame): (s: set<int>) {
    set i | 0 <= i < |pts| :: pts[i].t
  }

  lemma StampsAt(pts: Frame, f: int)
    ensures f in Stamps(pts) <==> At(pts, f).Some?
  {
    AtIndex(pts, f);
  }

  // ---------------------------------------------------------------- ordering

  /** Every value is filed under its own stamp. */
  predicate Keyed(m: map<int, Point>) {
    forall f :: f in m ==> m[f].t == f
  }

  /** The values of m, ascending by stamp. */
  function Ascending(m: map<int, Point>): Frame
    decreases |m|
  {
    if m.Keys == {} then []
    else
      var f := Least(m.Keys);
      assert (m - {f}).Keys == m.Keys - {f};
      [m[f]] + Ascending(m - {f})
  }

  lemma {:induction false} AscendingSorted(m: map<int, Point>)
    requires Keyed(m)
    ensures Sorted(Ascending(m))
    ensures forall i :: 0 <= i < |Ascending(m)| ==> Ascending(m)[i].t in m && m[Ascending(m)[i].t] == Ascending(m)[i]
    decreases |m|
  {
    if m.Keys != {} {
      var f := Least(m.Keys);
      assert (m - {f}).Keys == m.Keys - {f};
      AscendingSorted(m - {f});
    }
  }

  lemma {:induction false} AscendingHas(m: map<int, Point>, f: int)
    requires Keyed(m) && f in m
    ensures exists i :: 0 <= i < |Ascending(m)| && Ascending(m)[i] == m[f]
    decreases |m|
  {
    var g := Least(m.Keys);
    assert (m - {g}).Keys == m.Keys - {g};
    if f == g {
      assert Ascending(m)[0] == m[f];
    } else {
      AscendingHas(m - {g}, f);
      var i :| 0 <= i < |Ascending(m - {g})| && Ascending(m - {g})[i] == m[f];
      assert Ascending(m)[i + 1] == m[f];
    }
  }

  /** Sorting loses and invents nothing. */
  lemma AscendingAt(m: map<int, Point>, f: int)
    requires Keyed(m)
    ensures At(Ascending(m), f) == if f in m then Some(m[f]) else None
  {
    AscendingSorted(m);
    AtIndex(Ascending(m), f);
    if f in m { AscendingHas(m, f); }
  }

  function ByStamp(pts: Frame): (m: map<int, Point>)
    ensures Keyed(m)
    ensures forall f :: f in m <==> At(pts, f).Some?
    ensures forall f :: f in m ==> Some(m[f]) == At(pts, f)
  {
    if pts == [] then map[] else ByStamp(pts[..|pts| - 1])[pts[|pts| - 1].t := pts[|pts| - 1]]
  }

  /** sortedFrame: what is still in retention, ascending. */
  function SortedFrame(m: map<int, Point>, cutoff: int): Frame {
    Ascending(map f | f in m && f >= cutoff :: m[f])
  }

  lemma SortedFrameAt(m: map<int, Point>, cutoff: int, f: int)
    requires Keyed(m)
    ensures Sorted(SortedFrame(m, cutoff))
    ensures At(SortedFrame(m, cutoff), f) == if f in m && f >= cutoff then Some(m[f]) else None
  {
    var kept := map g | g in m && g >= cutoff :: m[g];
    AscendingSorted(kept);
    AscendingAt(kept, f);
  }

  /** A frame rebuilt with new values laid over it. */
  lemma OverlaidAt(frame: Frame, over: map<int, Point>, cutoff: int, f: int)
    requires Keyed(over)
    ensures Sorted(SortedFrame(ByStamp(frame) + over, cutoff))
    ensures At(SortedFrame(ByStamp(frame) + over, cutoff), f) ==
            if f < cutoff then None else if f in over then Some(over[f]) else At(frame, f)
  {
    SortedFrameAt(ByStamp(frame) + over, cutoff, f);
  }

  // ---------------------------------------------------------------- live append

  /** The live aggregate goes into the bucket that t closes; the tail bucket is updated in
      place and keeps its window bounds. */
  function Appended(frame: Frame, t: int, agg: Point, cfg: Config): Frame
    requires cfg.size > 0
  {
    var e := BucketEnd(t, cfg.size);
    var n := |frame|;
    if n > 0 && frame[n - 1].t == e then
      frame[n - 1 := frame[n - 1].(reading := agg.reading, partial := agg.partial)]
    else
      frame + [Point(e, agg.reading, None, None, agg.partial)]
  }

  /** How many leading points are older than cutoff. */
  function Expired(pts: Frame, cutoff: int): (n: nat)
    ensures n <= |pts|
    ensures forall i :: 0 <= i < n ==> pts[i].t < cutoff
    ensures n < |pts| ==> pts[n].t >= cutoff
  {
    if pts == [] || pts[0].t >= cutoff then 0 else 1 + Expired(pts[1..], cutoff)
  }

  function AppendLive(frame: Frame, t: int, agg: Point, cfg: Config): Frame
    requires cfg.size > 0
  {
    var pts := Appended(frame, t, agg, cfg);
    pts[Expired(pts, t - cfg.retention)..]
  }

  function AppendDropped(frame: Frame, t: int, agg: Point, cfg: Config): Frame
    requires cfg.size > 0
  {
    var pts := Appended(frame, t, agg, cfg);
    pts[..Expired(pts, t - cfg.retention)]
  }

  function LastTwo(pts: Frame): Frame {
    if |pts| > 2 then pts[|pts| - 2..] else pts
  }

  /** The points closed at now, in order. */
  function Closed(pts: Frame, now: int): Frame {
    if pts == [] then []
    else
      var rest := Closed(pts[..|pts| - 1], now);
      if pts[|pts| - 1].t <= now then rest + [pts[|pts| - 1]] else rest
  }

  lemma {:induction false} ClosedAt(pts: Frame, now: int, f: int)
    ensures At(Closed(pts, now), f) == if f <= now then At(pts, f) else None
  {
    if pts != [] {
      ClosedAt(pts[..|pts| - 1], now, f);
      var rest := Closed(pts[..|pts| - 1], now);
      var last := pts[|pts| - 1];
      if last.t <= now { assert (rest + [last])[..|rest|] == rest; }
    }
  }

  // ---------------------------------------------------------------- the frame invariant

  predicate ValidStamp(f: int, cfg: Config)
    requires cfg.size > 0
  {
    BucketEnd(f, cfg.size) == f && !IsPreOpenBucket(f)
  }

  /** A frame whose last operation ran at clock: distinct ascending bucket stamps, within
      retention, none beyond the bucket forming at clock. */
  ghost predicate FrameInv(frame: Frame, clock: int, cfg: Config) {
    && ValidConfig(cfg)
    && Sorted(frame)
    && forall i :: 0 <= i < |frame| ==>
         && ValidStamp(frame[i].t, cfg)
         && clock - cfg.retention <= frame[i].t <= BucketEnd(clock, cfg.size)
  }

  /** Only the last point of a frame can still be forming. */
  lemma OnlyTailForms(frame: Frame, clock: int, cfg: Config, i: nat)
    requires FrameInv(frame, clock, cfg) && i < |frame| - 1
    ensures frame[i].t <= clock
  {
    assert frame[i].t < frame[i + 1].t;
    if frame[i].t > clock { FutureStampIsForming(frame[i].t, clock, cfg.size); }
  }

  lemma AppendedSorted(frame: Frame, clock: int, t: int, agg: Point, cfg: Config)
    requires FrameInv(frame, clock, cfg) && t >= clock
    requires !IsPreOpenBucket(BucketEnd(t, cfg.size))
    ensures var pts := Appended(frame, t, agg, cfg);
            && Sorted(pts) && pts != []
            && (forall i :: 0 <= i < |pts| ==> ValidStamp(pts[i].t, cfg) && pts[i].t <= BucketEnd(t, cfg.size))
            && pts[|pts| - 1].t == BucketEnd(t, cfg.size)
  {
    BucketEndMonotone(clock, t, cfg.size);
    BucketEndIdempotent(t, cfg.size);
  }

  /** The append keeps a frame ordered exactly when its tail is not beyond the bucket of t,
      which is what nondecreasing operation times guarantee: a capture stamped before its
      requests and applied after a later backfill may break the order. */
  lemma AppendOrdersExactly(frame: Frame, t: int, agg: Point, cfg: Config)
    requires cfg.size > 0 && Sorted(frame)
    ensures Sorted(Appended(frame, t, agg, cfg)) <==>
            (frame == [] || frame[|frame| - 1].t <= BucketEnd(t, cfg.size))
  {
    var pts, n := Appended(frame, t, agg, cfg), |frame|;
    if n > 0 && frame[n - 1].t > BucketEnd(t, cfg.size) {
      assert pts[n - 1].t > pts[n].t;
    }
  }

  lemma AppendKeepsInv(frame: Frame, clock: int, t: int, agg: Point, cfg: Config)
    requires FrameInv(frame, clock, cfg) && t >= clock
    requires !IsPreOpenBucket(BucketEnd(t, cfg.size))
    ensures FrameInv(AppendLive(frame, t, agg, cfg), t, cfg)
  {
    AppendedSorted(frame, clock, t, agg, cfg);
    PrunedInv(Appended(frame, t, agg, cfg), t, cfg);
  }

  /** Pruning brings an ordered frame into retention. */
  lemma PrunedInv(pts: Frame, t: int, cfg: Config)
    requires ValidConfig(cfg) && Sorted(pts)
    requires forall i :: 0 <= i < |pts| ==> ValidStamp(pts[i].t, cfg) && pts[i].t <= BucketEnd(t, cfg.size)
    ensures FrameInv(pts[Expired(pts, t - cfg.retention)..], t, cfg)
  {
    RetainedSuffix(pts, t - cfg.retention);
  }

  lemma RetainedSuffix(pts: Frame, cutoff: int)
    requires Sorted(pts)
    ensures var n := Expired(pts, cutoff);
            && Sorted(pts[n..])
            && forall i :: 0 <= i < |pts[n..]| ==> pts[n..][i] == pts[n + i] && pts[n..][i].t >= cutoff
  {
    var n := Expired(pts, cutoff);
    var kept := pts[n..];
    forall i | 0 <= i < |kept|
      ensures kept[i].t >= cutoff
    {
      if i > 0 { assert pts[n].t < pts[n + i].t; }
    }
  }

  /** What the appended bucket becomes. */
  function LivePoint(frame: Frame, t: int, agg: Point, cfg: Config): Point
    requires cfg.size > 0
  {
    var e := BucketEnd(t, cfg.size);
    var cur := At(frame, e);
    Point(e, agg.reading,
          if cur.Some? then cur.value.wLo else None, if cur.Some? then cur.value.wHi else None, agg.partial)
  }

  lemma TailReplacedAt(frame: Frame, p: Point, f: int)
    requires frame != [] && frame[|frame| - 1].t == p.t
    ensures At(frame[|frame| - 1 := p], f) == if f == p.t then Some(p) else At(frame, f)
  {
    var n := |frame| - 1;
    assert frame[n := p][..n] == frame[..n];
  }

  lemma TailAddedAt(frame: Frame, p: Point, f: int)
    ensures At(frame + [p], f) == if f == p.t then Some(p) else At(frame, f)
  {
    assert (frame + [p])[..|frame|] == frame;
  }

  lemma BeyondFrame(frame: Frame, e: int)
    requires Sorted(frame) && (frame != [] ==> frame[|frame| - 1].t < e)
    ensures At(frame, e).None?
  {
    AtIndex(frame, e);
  }

  lemma AppendedAt(frame: Frame, clock: int, t: int, agg: Point, cfg: Config, f: int)
    requires FrameInv(frame, clock, cfg) && t >= clock
    ensures At(Appended(frame, t, agg, cfg), f) ==
            if f == BucketEnd(t, cfg.size) then Some(LivePoint(frame, t, agg, cfg)) else At(frame, f)
  {
    var p := LivePoint(frame, t, agg, cfg);
    if |frame| > 0 && frame[|frame| - 1].t == p.t {
      TailReplacedAt(frame, p, f);
    } else {
      BucketEndMonotone(clock, t, cfg.size);
      BeyondFrame(frame, p.t);
      TailAddedAt(frame, p, f);
    }
  }

  lemma RetainedAt(pts: Frame, cutoff: int, f: int)
    requires Sorted(pts)
    ensures Sorted(pts[Expired(pts, cutoff)..])
    ensures At(pts[Expired(pts, cutoff)..], f) == if f < cutoff then None else At(pts, f)
  {
    var n := Expired(pts, cutoff);
    var kept := pts[n..];
    AtIndex(pts, f);
    AtIndex(kept, f);
    if f < cutoff {
      assert forall i :: 0 <= i < |kept| ==> kept[0].t <= kept[i].t;
    } else if i :| 0 <= i < |pts| && pts[i].t == f {
      assert kept[i - n] == pts[i];
    }
  }

  /** The append as a map: the bucket of t is replaced, the rest is kept while in retention. */
  lemma AppendLiveAt(frame: Frame, clock: int, t: int, agg: Point, cfg: Config, f: int)
    requires FrameInv(frame, clock, cfg) && t >= clock
    requires !IsPreOpenBucket(BucketEnd(t, cfg.size))
    ensures At(AppendLive(frame, t, agg, cfg), f) ==
            if f < t - cfg.retention then None
            else if f == BucketEnd(t, cfg.size) then Some(LivePoint(frame, t, agg, cfg))
            else At(frame, f)
  {
    AppendedStaysSorted(frame, clock, t, agg, cfg);
    AppendedAt(frame, clock, t, agg, cfg, f);
    AppendLiveFrom(frame, t, agg, cfg, f);
  }

  lemma AppendedStaysSorted(frame: Frame, clock: int, t: int, agg: Point, cfg: Config)
    requires FrameInv(frame, clock, cfg) && clock <= t
    requires !IsPreOpenBucket(BucketEnd(t, cfg.size))
    ensures Sorted(Appended(frame, t, agg, cfg))
  {
    AppendedSorted(frame, clock, t, agg, cfg);
  }

  lemma AppendLiveFrom(frame: Frame, t: int, agg: Point, cfg: Config, f: int)
    requires cfg.size > 0 && Sorted(Appended(frame, t, agg, cfg))
    ensures At(AppendLive(frame, t, agg, cfg), f) ==
            if f < t - cfg.retention then None else At(Appended(frame, t, agg, cfg), f)
  {
    RetainedAt(Appended(frame, t, agg, cfg), t - cfg.retention, f);
  }

  // ---------------------------------------------------------------- merge

  /** One point per bucket from start-stamped candles, the last candle of a bucket winning. */
  function Downsample(candles: seq<Point>, size: int): (m: map<int, Point>)
    requires size > 0
    ensures Keyed(m)
  {
    if candles == [] then map[]
    else
      var m := Downsample(candles[..|candles| - 1], size);
      var p := candles[|candles| - 1];
      var e := CandleEnd(p.t, size);
      if IsPreOpenBucket(e) then m else m[e := p.(t := e)]
  }

  /** A backfilled point fills a missing bucket or replaces a partial one by a complete one. */
  function Yielding(cur: Option<Point>, p: Point): bool {
    cur.None? || (cur.value.partial && !p.partial)
  }

  function MergeMaps(held: map<int, Point>, fill: map<int, Point>): map<int, Point> {
    map f | f in held.Keys + fill.Keys ::
      if f !in held then fill[f]
      else if f in fill && Yielding(Some(held[f]), fill[f]) then fill[f]
      else held[f]
  }

  function MergeFrame(frame: Frame, candles: seq<Point>, now: int, cfg: Config): Frame
    requires cfg.size > 0
  {
    SortedFrame(MergeMaps(ByStamp(frame), Downsample(candles, cfg.size)), now - cfg.retention)
  }

  lemma MergedOver(frame: Frame, candles: seq<Point>, now: int, cfg: Config, f: int)
    requires cfg.size > 0
    ensures Sorted(MergeFrame(frame, candles, now, cfg))
    ensures var fill := Downsample(candles, cfg.size);
            At(MergeFrame(frame, candles, now, cfg), f) ==
            if f < now - cfg.retention then None
            else if f in fill && Yielding(At(frame, f), fill[f]) then Some(fill[f])
            else At(frame, f)
  {
    var m := MergeMaps(ByStamp(frame), Downsample(candles, cfg.size));
    assert Keyed(m);
    SortedFrameAt(m, now - cfg.retention, f);
  }

  /** The candle falls into bucket f, which the frames keep. */
  predicate FallsInto(candle: Point, f: int, size: int)
    requires size > 0
  {
    BucketEnd(candle.t + MINUTE_MS, size) == f && f > SessionOpen(f)
  }

  /** Candle i is the last of those that fall into bucket f. */
  ghost predicate LastInto(candles: seq<Point>, i: nat, f: int, size: int)
    requires size > 0 && i < |candles|
  {
    FallsInto(candles[i], f, size) && forall k :: i < k < |candles| ==> !FallsInto(candles[k], f, size)
  }

  ghost predicate NoneInto(candles: seq<Point>, f: int, size: int)
    requires size > 0
  {
    forall i :: 0 <= i < |candles| ==> !FallsInto(candles[i], f, size)
  }

  /** Each bucket that some candle falls into gets the last one of them, re-stamped, and no
      other bucket gets anything. */
  lemma {:induction false} DownsampleAt(candles: seq<Point>, size: int, f: int)
    requires size > 0
    ensures f in Downsample(candles, size) <==> !NoneInto(candles, f, size)
    ensures forall i :: 0 <= i < |candles| && LastInto(candles, i, f, size)
              ==> f in Downsample(candles, size) && Downsample(candles, size)[f] == candles[i].(t := f)
  {
    if candles != [] {
      var n := |candles| - 1;
      DownsampleAt(candles[..n], size, f);
      if FallsInto(candles[n], f, size) {
        assert forall i :: 0 <= i < |candles| && LastInto(candles, i, f, size) ==> i == n;
      } else {
        EarlierInto(candles, f, size);
      }
    }
  }

  /** A last candle that falls elsewhere changes nothing for bucket f. */
  lemma EarlierInto(candles: seq<Point>, f: int, size: int)
    requires size > 0 && candles != [] && !FallsInto(candles[|candles| - 1], f, size)
    ensures var n := |candles| - 1;
            && (NoneInto(candles, f, size) <==> NoneInto(candles[..n], f, size))
            && forall i :: 0 <= i < |candles| && LastInto(candles, i, f, size)
                 ==> i < n && LastInto(candles[..n], i, f, size)
  {
    var n := |candles| - 1;
    assert forall i :: 0 <= i < n ==> candles[..n][i] == candles[i];
  }

  /** A merge at every stamp: what left retention goes; the last candle of a bucket is put in
      where no point was, or a partial one and the candle is complete; all else stays. */
  lemma MergeFrameAt(frame: Frame, candles: seq<Point>, now: int, cfg: Config, f: int)
    requires cfg.size > 0
    ensures Sorted(MergeFrame(frame, candles, now, cfg))
    ensures f < now - cfg.retention ==> At(MergeFrame(frame, candles, now, cfg), f).None?
    ensures f >= now - cfg.retention && NoneInto(candles, f, cfg.size) ==>
              At(MergeFrame(frame, candles, now, cfg), f) == At(frame, f)
    ensures forall i :: f >= now - cfg.retention && 0 <= i < |candles| && LastInto(candles, i, f, cfg.size)
              ==> At(MergeFrame(frame, candles, now, cfg), f) ==
                  if At(frame, f).None? || (At(frame, f).value.partial && !candles[i].partial)
                  then Some(candles[i].(t := f)) else At(frame, f)
  {
    MergedOver(frame, candles, now, cfg, f);
    DownsampleAt(candles, cfg.size, f);
  }

  /** Candles that were already under way at now. */
  predicate NotBeyond(candles: seq<Point>, now: int, size: int)
    requires size > 0
  {
    forall i :: 0 <= i < |candles| ==>
      IsPreOpenBucket(CandleEnd(candles[i].t, size)) || CandleEnd(candles[i].t, size) <= BucketEnd(now, size)
  }

  /** Minute candles that started before now meet it. */
  lemma StartedCandlesAreNotBeyond(candles: seq<Point>, now: int, size: int)
    requires size > 0 && size % MINUTE_MS == 0 && DAY_MS % size == 0
    requires forall i :: 0 <= i < |candles| ==> Aligned(candles[i].t, MINUTE_MS) && candles[i].t < now
    ensures NotBeyond(candles, now, size)
  {
    forall i | 0 <= i < |candles|
      ensures IsPreOpenBucket(CandleEnd(candles[i].t, size)) || CandleEnd(candles[i].t, size) <= BucketEnd(now, size)
    {
      StartedCandleIsNotBeyondNow(candles[i].t, now, size);
    }
  }

  lemma {:induction false} DownsampleStamps(candles: seq<Point>, now: int, cfg: Config, f: int)
    requires cfg.size > 0 && NotBeyond(candles, now, cfg.size) && f in Downsample(candles, cfg.size)
    ensures ValidStamp(f, cfg) && f <= BucketEnd(now, cfg.size)
  {
    var p := candles[|candles| - 1];
    BucketEndIdempotent(p.t + MINUTE_MS, cfg.size);
    if f in Downsample(candles[..|candles| - 1], cfg.size) {
      DownsampleStamps(candles[..|candles| - 1], now, cfg, f);
    }
  }

  lemma MergeKeepsInv(frame: Frame, clock: int, candles: seq<Point>, now: int, cfg: Config)
    requires FrameInv(frame, clock, cfg) && now >= clock && NotBeyond(candles, now, cfg.size)
    ensures FrameInv(MergeFrame(frame, candles, now, cfg), now, cfg)
  {
    var frame' := MergeFrame(frame, candles, now, cfg);
    BucketEndMonotone(clock, now, cfg.size);
    MergedOver(frame, candles, now, cfg, 0);
    forall i | 0 <= i < |frame'|
      ensures ValidStamp(frame'[i].t, cfg)
      ensures now - cfg.retention <= frame'[i].t <= BucketEnd(now, cfg.size)
    {
      var f := frame'[i].t;
      MergedOver(frame, candles, now, cfg, f);
      AtIndex(frame', f);
      AtIndex(frame, f);
      if f in Downsample(candles, cfg.size) { DownsampleStamps(candles, now, cfg, f); }
    }
  }

  // ---------------------------------------------------------------- coarsening

  /** collapseToBuckets: the finer points that close a coarse bucket by now. */
  predicate Closes(p: Point, size: int, now: int)
    requires size > 0
  {
    !IsPreOpenBucket(BucketEnd(p.t, size)) && p.t <= now && p.t == BucketEnd(p.t, size)
  }

  function Collapse(pts: Frame, size: int, now: int): (m: map<int, Point>)
    requires size > 0
    ensures Keyed(m)
  {
    var src := ByStamp(pts);
    map f | f in src && Closes(src[f], size, now) :: src[f]
  }

  /** The coarse buckets that the finer frame can fill: missing or partial, in retention,
      and closed by a complete finer point. */
  function Fill(frame: Frame, source: Frame, now: int, cfg: Config): (m: map<int, Point>)
    requires cfg.size > 0
    ensures Keyed(m)
  {
    var src := Collapse(source, cfg.size, now);
    map f | f in src && f >= now - cfg.retention && !src[f].partial && Yielding(At(frame, f), src[f]) :: src[f]
  }

  function Coarsen(frame: Frame, source: Frame, now: int, cfg: Config): Frame
    requires cfg.size > 0
  {
    var fill := Fill(frame, source, now, cfg);
    if fill.Keys == {} then frame
    else SortedFrame(ByStamp(frame) + fill, now - cfg.retention)
  }

  lemma CoarsenedOver(frame: Frame, source: Frame, now: int, cfg: Config, f: int)
    requires cfg.size > 0 && Fill(frame, source, now, cfg).Keys != {}
    ensures Sorted(Coarsen(frame, source, now, cfg))
    ensures var fill := Fill(frame, source, now, cfg);
            At(Coarsen(frame, source, now, cfg), f) ==
            if f < now - cfg.retention then None
            else if f in fill then Some(fill[f])
            else At(frame, f)
  {
    var fill, cutoff := Fill(frame, source, now, cfg), now - cfg.retention;
    assert Coarsen(frame, source, now, cfg) == SortedFrame(ByStamp(frame) + fill, cutoff);
    OverlaidAt(frame, fill, cutoff, f);
  }

  /** The coarse bucket f can be had from the finer frame: a complete point closes it, it is
      over and in retention, and the coarse frame lacks it or has it partial. */
  predicate Recoverable(frame: Frame, source: Frame, now: int, cfg: Config, f: int)
    requires cfg.size > 0
  {
    && At(source, f).Some? && !At(source, f).value.partial
    && BucketEnd(f, cfg.size) == f && f > SessionOpen(f)
    && now - cfg.retention <= f <= now
    && (At(frame, f).None? || At(frame, f).value.partial)
  }

  lemma FillExactly(frame: Frame, source: Frame, now: int, cfg: Config, f: int)
    requires cfg.size > 0
    ensures f in Fill(frame, source, now, cfg) <==> Recoverable(frame, source, now, cfg, f)
    ensures f in Fill(frame, source, now, cfg) ==> Some(Fill(frame, source, now, cfg)[f]) == At(source, f)
  {
  }

  /** Coarsening at every stamp: exactly the recoverable buckets are filled, from the point
      that closes them, and the frame is then pruned; when there is none nothing changes. */
  lemma CoarsenAt(frame: Frame, source: Frame, now: int, cfg: Config, f: int)
    requires cfg.size > 0
    ensures Recoverable(frame, source, now, cfg, f) ==> At(Coarsen(frame, source, now, cfg), f) == At(source, f)
    ensures !Recoverable(frame, source, now, cfg, f) && f >= now - cfg.retention ==>
              At(Coarsen(frame, source, now, cfg), f) == At(frame, f)
    ensures if forall g :: !Recoverable(frame, source, now, cfg, g) then Coarsen(frame, source, now, cfg) == frame
            else Sorted(Coarsen(frame, source, now, cfg))
                 && (f < now - cfg.retention ==> At(Coarsen(frame, source, now, cfg), f).None?)
  {
    var fill := Fill(frame, source, now, cfg);
    FillExactly(frame, source, now, cfg, f);
    if fill.Keys == {} {
      forall g
        ensures !Recoverable(frame, source, now, cfg, g)
      {
        FillExactly(frame, source, now, cfg, g);
      }
    } else {
      var g := Pick(fill.Keys);
      FillExactly(frame, source, now, cfg, g);
      CoarsenedOver(frame, source, now, cfg, f);
    }
  }

  lemma CoarsenKeepsInv(frame: Frame, clock: int, source: Frame, now: int, cfg: Config)
    requires FrameInv(frame, clock, cfg) && now >= clock && Fill(frame, source, now, cfg).Keys != {}
    ensures FrameInv(Coarsen(frame, source, now, cfg), now, cfg)
  {
    var frame' := Coarsen(frame, source, now, cfg);
    BucketEndMonotone(clock, now, cfg.size);
    CoarsenedOver(frame, source, now, cfg, 0);
    forall i | 0 <= i < |frame'|
      ensures ValidStamp(frame'[i].t, cfg)
      ensures now - cfg.retention <= frame'[i].t <= BucketEnd(now, cfg.size)
    {
      var f := frame'[i].t;
      CoarsenedOver(frame, source, now, cfg, f);
      AtIndex(frame', f);
      AtIndex(frame, f);
      if f in Fill(frame, source, now, cfg) { BucketEndMonotone(f, now, cfg.size); }
    }
  }

  /** Reconstruction only ever improves a frame: a complete bucket still in retention is
      untouched, no bucket in retention disappears, and a partial one only becomes complete. */
  ghost predicate Improves(frame: Frame, frame': Frame, cutoff: int) {
    forall f :: f >= cutoff && At(frame, f).Some? ==>
      && At(frame', f).Some?
      && (At(frame', f) == At(frame, f) || (At(frame, f).value.partial && !At(frame', f).value.partial))
  }

  lemma MergeImproves(frame: Frame, candles: seq<Point>, now: int, cfg: Config)
    requires cfg.size > 0
    ensures Improves(frame, MergeFrame(frame, candles, now, cfg), now - cfg.retention)
  {
    forall f | f >= now - cfg.retention && At(frame, f).Some?
      ensures var o := At(MergeFrame(frame, candles, now, cfg), f);
              o.Some? && (o == At(frame, f) || (At(frame, f).value.partial && !o.value.partial))
    {
      MergedOver(frame, candles, now, cfg, f);
    }
  }

  lemma CoarsenImproves(frame: Frame, source: Frame, now: int, cfg: Config)
    requires cfg.size > 0
    ensures Improves(frame, Coarsen(frame, source, now, cfg), now - cfg.retention)
  {
    if Fill(frame, source, now, cfg).Keys != {} {
      forall f | f >= now - cfg.retention && At(frame, f).Some?
        ensures var o := At(Coarsen(frame, source, now, cfg), f);
                o.Some? && (o == At(frame, f) || (At(frame, f).value.partial && !o.value.partial))
      {
        CoarsenedOver(frame, source, now, cfg, f);
      }
    }
  }

  // ---------------------------------------------------------------- live frames agree

  /** A frame with the time of its last append. */
  datatype Live = Live(frame: Frame, clock: int)

  /** One frame's share of a capture: pre-open buckets are skipped. */
  function LiveStep(l: Live, t: int, agg: Point, cfg: Config): Live
    requires cfg.size > 0
  {
    if IsPreOpenBucket(BucketEnd(t, cfg.size)) then l else Live(AppendLive(l.frame, t, agg, cfg), t)
  }

  datatype Capture = Capture(t: int, agg: Point)

  /** A frame built by live captures alone. */
  function LiveRun(captures: seq<Capture>, start: int, cfg: Config): Live
    requires cfg.size > 0
  {
    if captures == [] then Live([], start)
    else
      var c := captures[|captures| - 1];
      LiveStep(LiveRun(captures[..|captures| - 1], start, cfg), c.t, c.agg, cfg)
  }

  ghost predicate Nondecreasing(captures: seq<Capture>, start: int, end: int) {
    && start <= end
    && (forall i :: 0 <= i < |captures| ==> start <= captures[i].t <= end)
    && forall i, j :: 0 <= i < j < |captures| ==> captures[i].t <= captures[j].t
  }

  /** Every fine point that closes a coarse bucket is in the coarse frame, identically. */
  ghost predicate Agree(fine: Frame, coarse: Frame, size: int, cutoff: int)
    requires size > 0
  {
    forall f :: f >= cutoff && At(fine, f).Some? && BucketEnd(f, size) == f && !IsPreOpenBucket(f)
            ==> At(coarse, f) == At(fine, f)
  }

  ghost predicate NoWindow(frame: Frame) {
    forall f :: At(frame, f).Some? ==> At(frame, f).value.wLo.None? && At(frame, f).value.wHi.None?
  }

  lemma LiveStepKeeps(l: Live, t: int, agg: Point, cfg: Config)
    requires FrameInv(l.frame, l.clock, cfg) && l.clock <= t && NoWindow(l.frame)
    ensures var l' := LiveStep(l, t, agg, cfg);
            FrameInv(l'.frame, l'.clock, cfg) && l.clock <= l'.clock <= t && NoWindow(l'.frame)
  {
    if !IsPreOpenBucket(BucketEnd(t, cfg.size)) {
      AppendKeepsInv(l.frame, l.clock, t, agg, cfg);
      forall f
        ensures var o := At(AppendLive(l.frame, t, agg, cfg), f);
                o.Some? ==> o.value.wLo.None? && o.value.wHi.None?
      {
        AppendLiveAt(l.frame, l.clock, t, agg, cfg, f);
      }
    }
  }

  predicate CapturedInto(c: Capture, f: int, size: int)
    requires size > 0
  {
    BucketEnd(c.t, size) == f && f > SessionOpen(f)
  }

  ghost predicate NeverCaptured(captures: seq<Capture>, f: int, size: int)
    requires size > 0
  {
    forall i :: 0 <= i < |captures| ==> !CapturedInto(captures[i], f, size)
  }

  /** Capture i is the last one made in bucket f. */
  ghost predicate LastCapture(captures: seq<Capture>, i: nat, f: int, size: int)
    requires size > 0 && i < |captures|
  {
    CapturedInto(captures[i], f, size) && forall k :: i < k < |captures| ==> !CapturedInto(captures[k], f, size)
  }

  function CapturedPoint(c: Capture, f: int): Point { Point(f, c.agg.reading, None, None, c.agg.partial) }

  /** The frame holds for bucket f the last capture made in it. */
  ghost predicate HoldsLast(captures: seq<Capture>, frame: Frame, f: int, size: int)
    requires size > 0
  {
    && (NeverCaptured(captures, f, size) ==> At(frame, f).None?)
    && forall i :: 0 <= i < |captures| && LastCapture(captures, i, f, size)
         ==> At(frame, f) == Some(CapturedPoint(captures[i], f))
  }

  lemma LiveRunInv(captures: seq<Capture>, start: int, end: int, cfg: Config)
    requires ValidConfig(cfg) && Nondecreasing(captures, start, end)
    ensures var l := LiveRun(captures, start, cfg);
            FrameInv(l.frame, l.clock, cfg) && l.clock <= end && NoWindow(l.frame)
  {
    if captures != [] {
      var n := |captures| - 1;
      LiveRunInv(captures[..n], start, captures[n].t, cfg);
      LiveStepKeeps(LiveRun(captures[..n], start, cfg), captures[n].t, captures[n].agg, cfg);
    }
  }

  lemma EarlierCapture(captures: seq<Capture>, i: nat, f: int, size: int)
    requires size > 0 && i < |captures| - 1 && LastCapture(captures, i, f, size)
    ensures var n := |captures| - 1;
            && !CapturedInto(captures[n], f, size)
            && captures[..n][i] == captures[i] && LastCapture(captures[..n], i, f, size)
  {
  }

  lemma HoldsLastStep(captures: seq<Capture>, frame: Frame, frame': Frame, f: int, size: int)
    requires size > 0 && captures != [] && HoldsLast(captures[..|captures| - 1], frame, f, size)
    requires var c := captures[|captures| - 1];
             At(frame', f) == if CapturedInto(c, f, size) then Some(CapturedPoint(c, f)) else At(frame, f)
    ensures HoldsLast(captures, frame', f, size)
  {
    var n := |captures| - 1;
    forall i | 0 <= i < |captures| && LastCapture(captures, i, f, size)
      ensures At(frame', f) == Some(CapturedPoint(captures[i], f))
    {
      if i < n { EarlierCapture(captures, i, f, size); }
    }
    if NeverCaptured(captures, f, size) { assert forall i :: 0 <= i < n ==> captures[..n][i] == captures[i]; }
  }

  lemma LiveStepAt(l: Live, c: Capture, cfg: Config, f: int)
    requires FrameInv(l.frame, l.clock, cfg) && l.clock <= c.t && NoWindow(l.frame) && f >= c.t - cfg.retention
    ensures At(LiveStep(l, c.t, c.agg, cfg).frame, f) ==
            if CapturedInto(c, f, cfg.size) then Some(CapturedPoint(c, f)) else At(l.frame, f)
  {
    if !IsPreOpenBucket(BucketEnd(c.t, cfg.size)) { AppendLiveAt(l.frame, l.clock, c.t, c.agg, cfg, f); }
  }

  /** Any nondecreasing captures from an empty frame: each bucket in retention holds exactly the
      last capture made in it, and a bucket with none is absent. */
  lemma {:induction false} LiveRunHoldsLast(captures: seq<Capture>, start: int, end: int, cfg: Config, f: int)
    requires ValidConfig(cfg) && Nondecreasing(captures, start, end) && f >= end - cfg.retention
    ensures HoldsLast(captures, LiveRun(captures, start, cfg).frame, f, cfg.size)
  {
    if captures != [] {
      var n := |captures| - 1;
      var c := captures[n];
      var l := LiveRun(captures[..n], start, cfg);
      LiveRunInv(captures[..n], start, c.t, cfg);
      LiveRunHoldsLast(captures[..n], start, c.t, cfg, f);
      LiveStepAt(l, c, cfg, f);
      HoldsLastStep(captures, l.frame, LiveStep(l, c.t, c.agg, cfg).frame, f, cfg.size);
    }
  }

  /** Where the fine and the coarse bucket of one capture lie. */
  lemma TwoBuckets(t: int, fine: Config, coarse: Config)
    requires fine.size > 0 && coarse.size > 0 && coarse.size % fine.size == 0
    ensures BucketEnd(t, fine.size) <= BucketEnd(t, coarse.size)
    ensures BucketEnd(BucketEnd(t, fine.size), coarse.size) == BucketEnd(t, coarse.size)
    ensures IsPreOpenBucket(BucketEnd(t, coarse.size)) ==> IsPreOpenBucket(BucketEnd(t, fine.size))
  {
    var e := BucketEnd(t, fine.size);
    BucketEndComposes(t, fine.size, coarse.size);
    BucketEndRange(t, fine.size);
    BucketEndRange(e, coarse.size);
    BucketEndRange(t, coarse.size);
  }

  lemma AgreeStep(x: Live, y: Live, t: int, agg: Point, fine: Config, coarse: Config, f: int)
    requires coarse.size > 0 && fine.size > 0 && coarse.size % fine.size == 0
    requires FrameInv(x.frame, x.clock, fine) && FrameInv(y.frame, y.clock, coarse)
    requires NoWindow(x.frame) && NoWindow(y.frame)
    requires x.clock <= t && y.clock <= t
    requires f >= t - coarse.retention && BucketEnd(f, coarse.size) == f && !IsPreOpenBucket(f)
    requires At(x.frame, f).Some? ==> At(y.frame, f) == At(x.frame, f)
    requires At(LiveStep(x, t, agg, fine).frame, f).Some?
    ensures At(LiveStep(y, t, agg, coarse).frame, f) == At(LiveStep(x, t, agg, fine).frame, f)
  {
    TwoBuckets(t, fine, coarse);
    var e := BucketEnd(t, fine.size);
    if !IsPreOpenBucket(BucketEnd(t, coarse.size)) {
      AppendLiveAt(y.frame, y.clock, t, agg, coarse, f);
    }
    if IsPreOpenBucket(e) {
      AtIndex(x.frame, f);
      BucketEndMonotone(x.clock, t, fine.size);
      assert f < BucketEnd(t, coarse.size);
    } else {
      AppendLiveAt(x.frame, x.clock, t, agg, fine, f);
      if f != e {
        AtIndex(x.frame, f);
        BucketEndMonotone(x.clock, t, fine.size);
        assert f < BucketEnd(t, coarse.size);
      } else {
        assert LivePoint(x.frame, t, agg, fine) == LivePoint(y.frame, t, agg, coarse);
      }
    }
  }

  lemma {:induction false} LiveFramesAgree(captures: seq<Capture>, start: int, end: int, fine: Config, coarse: Config)
    requires ValidConfig(fine) && ValidConfig(coarse) && coarse.size % fine.size == 0
    requires Nondecreasing(captures, start, end)
    ensures var x, y := LiveRun(captures, start, fine), LiveRun(captures, start, coarse);
            && FrameInv(x.frame, x.clock, fine) && x.clock <= end && NoWindow(x.frame)
            && FrameInv(y.frame, y.clock, coarse) && y.clock <= end && NoWindow(y.frame)
            && Agree(x.frame, y.frame, coarse.size, end - coarse.retention)
  {
    if captures != [] {
      var n := |captures| - 1;
      var c := captures[n];
      LiveFramesAgree(captures[..n], start, c.t, fine, coarse);
      var x, y := LiveRun(captures[..n], start, fine), LiveRun(captures[..n], start, coarse);
      LiveStepKeeps(x, c.t, c.agg, fine);
      LiveStepKeeps(y, c.t, c.agg, coarse);
      var x', y' := LiveStep(x, c.t, c.agg, fine), LiveStep(y, c.t, c.agg, coarse);
      forall f | && f >= end - coarse.retention && At(x'.frame, f).Some?
                 && BucketEnd(f, coarse.size) == f && !IsPreOpenBucket(f)
        ensures At(y'.frame, f) == At(x'.frame, f)
      {
        AgreeStep(x, y, c.t, c.agg, fine, coarse, f);
      }
    }
  }

  /** Coarsening frames built by live captures fills nothing: each coarse bucket that the
      finer frame closes is already there with the same payload. */
  lemma CoarseningLiveFramesIsIdle(captures: seq<Capture>, start: int, now: int, fine: Config, coarse: Config)
    requires ValidConfig(fine) && ValidConfig(coarse) && coarse.size % fine.size == 0
    requires Nondecreasing(captures, start, now)
    ensures var x, y := LiveRun(captures, start, fine).frame, LiveRun(captures, start, coarse).frame;
            && Fill(y, x, now, coarse) == map[]
            && Coarsen(y, x, now, coarse) == y
  {
    LiveFramesAgree(captures, start, now, fine, coarse);
    var x, y := LiveRun(captures, start, fine).frame, LiveRun(captures, start, coarse).frame;
    assert Fill(y, x, now, coarse).Keys == {};
  }

  // ---------------------------------------------------------------- overtaken captures

  /** A capture whose requests a backfill overtook: once the merge has put in a bucket beyond
      the capture's own, appending the capture breaks the frame's order. */
  lemma OvertakenAppendBreaksOrder(frame: Frame, candle: Point, now: int, t: int, agg: Point, cfg: Config)
    requires cfg.size > 0 && !IsPreOpenBucket(CandleEnd(candle.t, cfg.size))
    requires now - cfg.retention <= CandleEnd(candle.t, cfg.size)
    requires BucketEnd(t, cfg.size) < CandleEnd(candle.t, cfg.size)
    ensures !Sorted(Appended(MergeFrame(frame, [candle], now, cfg), t, agg, cfg))
  {
    var e, merged := CandleEnd(candle.t, cfg.size), MergeFrame(frame, [candle], now, cfg);
    assert [candle][..0] == [];
    assert e in Downsample([candle], cfg.size);
    MergedOver(frame, [candle], now, cfg, e);
    AtIndex(merged, e);
    AppendOrdersExactly(merged, t, agg, cfg);
  }

  /** It takes one slow capture: stamped at 10:00 on the first day of the epoch (IST), while a
      backfill at 10:06 merges the candle of 10:05, and applied after it. */
  lemma CaptureOvertakenByBackfill(r: Reading)
    ensures var ten := SessionOpen(0) + 45 * MINUTE_MS;
            var candle := Point(ten + 5 * MINUTE_MS, r, None, None, false);
            var merged := MergeFrame([], [candle], ten + 6 * MINUTE_MS, FRAMES[0]);
            NotBeyond([candle], ten + 6 * MINUTE_MS, MINUTE_MS)
            && !Sorted(Appended(merged, ten, Point(0, r, None, None, false), FRAMES[0]))
  {
    var ten := SessionOpen(0) + 45 * MINUTE_MS;
    var candle := Point(ten + 5 * MINUTE_MS, r, None, None, false);
    assert ten == 16200000 && BucketEnd(ten, MINUTE_MS) == ten;
    assert CandleEnd(candle.t, MINUTE_MS) == ten + 6 * MINUTE_MS;
    OvertakenAppendBreaksOrder([], candle, ten + 6 * MINUTE_MS, ten, Point(0, r, None, None, false), FRAMES[0]);
  }

  // ---------------------------------------------------------------- warm load

  /** mergeWarmLoaded: points already in memory win. */
  function WarmLoaded(frame: Frame, loaded: map<int, Point>): Frame {
    Ascending(loaded + ByStamp(frame))
  }

  lemma WarmLoadedAt(frame: Frame, loaded: map<int, Point>, f: int)
    requires Keyed(loaded)
    ensures Sorted(WarmLoaded(frame, loaded))
    ensures At(WarmLoaded(frame, loaded), f) ==
            if At(frame, f).Some? then At(frame, f) else if f in loaded then Some(loaded[f]) else None
  {
    AscendingSorted(loaded + ByStamp(frame));
    AscendingAt(loaded + ByStamp(frame), f);
  }
}
