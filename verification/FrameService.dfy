/** The frame operations as methods of the service that owns the frames and the buffer
    (internal/analytics/frames.go). Each is tied to the value-level operation of modules
    Frames and FrameMirror, on which the results about whole runs are proved. */
module FrameService {
  import opened Base
  import opened Ist
  import opened WriteBehind
  import opened Frames
  import opened FrameMirror
  import opened Pipeline
  import WriteBuffer

  /** after is frame before once a capture at t has gone through it. */
  predicate Captured(before: Frame, after: Frame, t: int, agg: Point, cfg: Config)
    requires cfg.size > 0
  {
    after == if IsPreOpenBucket(BucketEnd(t, cfg.size)) then before else AppendLive(before, t, agg, cfg)
  }

  /** The first n frames have had their share of the capture, the others have not. */
  predicate CapturedUpTo(before: seq<Frame>, after: seq<Frame>, t: int, agg: Point, n: nat)
    requires n <= FRAME_COUNT
  {
    && |before| == |after| == FRAME_COUNT
    && (forall j :: 0 <= j < n ==> Captured(before[j], after[j], t, agg, FRAMES[j]))
    && (forall j :: n <= j < FRAME_COUNT ==> after[j] == before[j])
  }

  lemma CapturedOneMore(
    before: seq<Frame>, during: seq<Frame>, after: seq<Frame>, t: int, agg: Point, i: nat)
    requires i < FRAME_COUNT && CapturedUpTo(before, during, t, agg, i) && |after| == FRAME_COUNT
    requires Captured(during[i], after[i], t, agg, FRAMES[i])
    requires forall j :: 0 <= j < FRAME_COUNT && j != i ==> after[j] == during[j]
    ensures CapturedUpTo(before, after, t, agg, i + 1)
  {
  }

  function NextBuffer(b: Buffer<Point>, key: Key, frame: Frame, t: int, agg: Point, cfg: Config): Buffer<Point>
    requires cfg.size > 0
  {
    if IsPreOpenBucket(BucketEnd(t, cfg.size)) then b else QueueAppend(b, key, frame, t, agg, cfg)
  }

  /** The buffer after a capture at t has gone through the first n frames. */
  function BufferAfter(b: Buffer<Point>, frames: seq<Frame>, t: int, agg: Point, n: nat): Buffer<Point>
    requires |frames| == FRAME_COUNT && n <= FRAME_COUNT
  {
    if n == 0 then b
    else NextBuffer(BufferAfter(b, frames, t, agg, n - 1), FrameKey(n - 1), frames[n - 1], t, agg, FRAMES[n - 1])
  }

  lemma OtherKey(b: Buffer<Point>, i: nat, frame: Frame, t: int, agg: Point, j: nat)
    requires i < FRAME_COUNT && j < FRAME_COUNT && i != j
    ensures SameHash(NextBuffer(b, FrameKey(i), frame, t, agg, FRAMES[i]), b, FrameKey(j))
  {
    if i < j { FrameKeysDiffer(i, j); } else { FrameKeysDiffer(j, i); }
    QueuedElsewhere(b, FrameKey(i), frame, t, agg, FRAMES[i], FrameKey(j));
  }

  predicate SameHash(x: Buffer<Point>, y: Buffer<Point>, k: Key) {
    (k in x.hashes <==> k in y.hashes) && (k in x.hashes ==> x.hashes[k] == y.hashes[k])
  }

  /** Queueing under one key leaves every other key's backlog alone. */
  lemma QueuedElsewhere(b: Buffer<Point>, key: Key, frame: Frame, t: int, agg: Point, cfg: Config, k: Key)
    requires cfg.size > 0 && k != key
    ensures SameHash(NextBuffer(b, key, frame, t, agg, cfg), b, k)
  {
    MirrorOthers(Pipe(b, None, Store(map[], map[])), key, AppendWrites(frame, t, agg, cfg),
                 Stamps(AppendDropped(frame, t, agg, cfg)), k);
  }

  /** One capture queues, under each frame's key, exactly what that frame's append queues. */
  lemma {:induction false} BufferAfterAt(b: Buffer<Point>, frames: seq<Frame>, t: int, agg: Point, n: nat, j: nat)
    requires |frames| == FRAME_COUNT && n <= FRAME_COUNT && j < FRAME_COUNT
    ensures var after := BufferAfter(b, frames, t, agg, n);
            var alone := if j < n && !IsPreOpenBucket(BucketEnd(t, FRAMES[j].size))
                         then QueueAppend(b, FrameKey(j), frames[j], t, agg, FRAMES[j]) else b;
            SameHash(after, alone, FrameKey(j))
  {
    if n > 0 {
      BufferAfterAt(b, frames, t, agg, n - 1, j);
      var before := BufferAfter(b, frames, t, agg, n - 1);
      if j == n - 1 {
        QueuesByKey(before, b, FrameKey(j), frames[j], t, agg, FRAMES[j]);
      } else {
        OtherKey(before, n - 1, frames[n - 1], t, agg, j);
      }
    }
  }

  lemma {:induction false} QueueAllByKey(x: Buffer<Point>, y: Buffer<Point>, key: Key, pts: seq<Point>)
    requires SameHash(x, y, key)
    ensures SameHash(QueueAll(x, key, pts), QueueAll(y, key, pts), key)
  {
    if pts != [] { QueueAllByKey(x, y, key, pts[..|pts| - 1]); }
  }

  /** What is queued under a key depends on that key's backlog alone. */
  lemma QueuesByKey(x: Buffer<Point>, y: Buffer<Point>, key: Key, frame: Frame, t: int, agg: Point, cfg: Config)
    requires cfg.size > 0 && SameHash(x, y, key)
    ensures SameHash(QueueAppend(x, key, frame, t, agg, cfg), QueueAppend(y, key, frame, t, agg, cfg), key)
  {
    QueueAllByKey(x, y, key, AppendWrites(frame, t, agg, cfg));
  }

  /** Frame k can rebuild frame i: finer, tiling it, and reaching as far back. */
  predicate CanFeed(k: nat, i: nat)
    requires k < FRAME_COUNT && i < FRAME_COUNT
  {
    && FRAMES[k].size < FRAMES[i].size
    && FRAMES[i].size % FRAMES[k].size == 0
    && FRAMES[k].retention >= FRAMES[i].retention
  }

  /** coarsenSourceFor: the coarsest frame that can feed frame i. */
  method CoarsenSourceFor(i: nat) returns (source: Option<nat>)
    requires i < FRAME_COUNT
    ensures source.Some? ==> source.value < FRAME_COUNT && CanFeed(source.value, i)
    ensures forall k :: 0 <= k < FRAME_COUNT && CanFeed(k, i)
              ==> source.Some? && FRAMES[k].size <= FRAMES[source.value].size
    ensures source == if i == 3 then Some(2) else None
  {
    source := None;
    for k := 0 to FRAME_COUNT
      invariant source.Some? ==> source.value < k && CanFeed(source.value, i)
      invariant forall j :: 0 <= j < k && CanFeed(j, i) ==> source.Some? && FRAMES[j].size <= FRAMES[source.value].size
    {
      if k != i && CanFeed(k, i) && (source.None? || FRAMES[k].size > FRAMES[source.value].size) {
        source := Some(k);
      }
    }
    assert CanFeed(2, 3);
  }

  class Service {
    const buffer: WriteBuffer.Queue<Point>
    var oiFrames: seq<Frame>

    ghost predicate Valid()
      reads this, buffer
    {
      |oiFrames| == FRAME_COUNT && buffer.enabled
    }

    constructor ()
      ensures Valid() && fresh(buffer) && buffer.Pending() == EmptyBuffer()
      ensures forall i :: 0 <= i < FRAME_COUNT ==> oiFrames[i] == []
    {
      buffer := new WriteBuffer.Queue<Point>(true);
      oiFrames := seq(FRAME_COUNT, _ => []);
    }

    /** Queue the buckets of pts that are closed at now. */
    method QueueClosed(key: Key, pts: Frame, now: int)
      requires Valid()
      modifies buffer`hashes
      ensures buffer.Pending() == QueueAll(old(buffer.Pending()), key, Closed(pts, now))
    {
      for i := 0 to |pts|
        invariant buffer.Pending() == QueueAll(old(buffer.Pending()), key, Closed(pts[..i], now))
      {
        assert pts[..i + 1][..i] == pts[..i];
        var done := Closed(pts[..i], now);
        if pts[i].t <= now {
          assert (done + [pts[i]])[..|done|] == done;
          buffer.QueueHashField(key, pts[i].t, pts[i], MAX_BUFFERED_FRAME_FIELDS);
        }
      }
      assert pts[..|pts|] == pts;
    }

    /** Drop the points older than cutoff, oldest first. */
    static method Prune(pts: Frame, cutoff: int) returns (kept: Frame, dropped: seq<int>)
      ensures kept == pts[Expired(pts, cutoff)..]
      ensures Elements(dropped) == Stamps(pts[..Expired(pts, cutoff)])
    {
      kept, dropped := pts, [];
      ghost var n := 0;
      while |kept| > 0 && kept[0].t < cutoff
        invariant n <= |pts| && kept == pts[n..] && |dropped| == n
        invariant Expired(pts, cutoff) == n + Expired(kept, cutoff)
        invariant Elements(dropped) == Stamps(pts[..n])
        decreases |kept|
      {
        StampsNext(pts, n);
        ElementsAppend(dropped, kept[0].t);
        dropped := dropped + [kept[0].t];
        kept := kept[1..];
        n := n + 1;
      }
    }

    /** Put the aggregate into the bucket that t closes. */
    static method PutTail(frame: Frame, t: int, agg: Point, cfg: Config) returns (pts: Frame)
      requires cfg.size > 0
      ensures pts == Appended(frame, t, agg, cfg)
    {
      var e := BucketEnd(t, cfg.size);
      pts := frame;
      var n := |pts|;
      if n > 0 && pts[n - 1].t == e {
        var last := pts[n - 1];
        pts := pts[n - 1 := last.(reading := agg.reading, partial := agg.partial)];
      } else {
        pts := pts + [Point(e, agg.reading, None, None, agg.partial)];
      }
    }

    /** One frame's part of appendOiFrameLiveLocked. */
    method AppendFrame(i: nat, t: int, agg: Point, cfg: Config)
      requires Valid() && i < FRAME_COUNT && cfg.size > 0
      modifies this`oiFrames, buffer`hashes
      ensures Valid()
      ensures IsPreOpenBucket(BucketEnd(t, cfg.size)) ==>
                oiFrames == old(oiFrames) && buffer.Pending() == old(buffer.Pending())
      ensures !IsPreOpenBucket(BucketEnd(t, cfg.size)) ==>
                && oiFrames == old(oiFrames)[i := AppendLive(old(oiFrames)[i], t, agg, cfg)]
                && buffer.Pending() == QueueAppend(old(buffer.Pending()), FrameKey(i), old(oiFrames)[i], t, agg, cfg)
    {
      if IsPreOpenBucket(BucketEnd(t, cfg.size)) { return; }
      var pts := PutTail(oiFrames[i], t, agg, cfg);
      var kept, dropped := Prune(pts, t - cfg.retention);
      oiFrames := oiFrames[i := kept];
      QueueClosed(FrameKey(i), LastTwo(kept), t);
      buffer.QueueHashDrop(FrameKey(i), dropped);
    }

    /** appendOiFrameLiveLocked: every frame in turn, pre-open buckets skipped. */
    method AppendOiFrameLive(t: int, agg: Point)
      requires Valid()
      modifies this`oiFrames, buffer`hashes
      ensures Valid()
      ensures forall j :: 0 <= j < FRAME_COUNT ==>
                oiFrames[j] == if IsPreOpenBucket(BucketEnd(t, FRAMES[j].size)) then old(oiFrames)[j]
                               else AppendLive(old(oiFrames)[j], t, agg, FRAMES[j])
      ensures buffer.Pending() == BufferAfter(old(buffer.Pending()), old(oiFrames), t, agg, FRAME_COUNT)
    {
      FramesAreValid();
      ghost var before, queued := oiFrames, buffer.Pending();
      for i := 0 to FRAME_COUNT
        invariant Valid()
        invariant CapturedUpTo(before, oiFrames, t, agg, i)
        invariant buffer.Pending() == BufferAfter(queued, before, t, agg, i)
      {
        ghost var frames := oiFrames;
        AppendFrame(i, t, agg, FRAMES[i]);
        CapturedOneMore(before, frames, oiFrames, t, agg, i);
      }
    }

    /** persistWholeFrameLocked: write what is closed, drop what left. */
    method PersistWholeFrame(key: Key, frame: Frame, before: Frame, now: int)
      requires Valid()
      modifies buffer`hashes
      ensures buffer.Pending() == QueueWhole(old(buffer.Pending()), key, before, frame, now)
    {
      QueueClosed(key, frame, now);
      var gone: seq<int> := [];
      var kept := Stamps(frame);
      var seen: set<int> := {};
      for i := 0 to |before|
        invariant seen == Stamps(before[..i]) && Elements(gone) == seen - kept
        invariant buffer.Pending() == QueueAll(old(buffer.Pending()), key, Closed(frame, now))
      {
        StampsNext(before, i);
        if before[i].t !in seen {
          seen := seen + {before[i].t};
          if before[i].t !in kept {
            ElementsAppend(gone, before[i].t);
            gone := gone + [before[i].t];
          }
        }
      }
      assert before[..|before|] == before;
      assert Elements(gone) == Stamps(before) - Stamps(frame);
      buffer.QueueHashDrop(key, gone);
    }

    /** mergeOiFrameLocked: backfilled candles fill what is missing or partial. */
    method MergeOiFrame(i: nat, candles: seq<Point>, now: int)
      requires Valid() && i < FRAME_COUNT
      modifies this`oiFrames, buffer`hashes
      ensures Valid()
      ensures oiFrames == old(oiFrames)[i := MergeFrame(old(oiFrames)[i], candles, now, FRAMES[i])]
      ensures buffer.Pending() == QueueWhole(old(buffer.Pending()), FrameKey(i), old(oiFrames)[i],
                                             MergeFrame(old(oiFrames)[i], candles, now, FRAMES[i]), now)
    {
      var before := oiFrames[i];
      var fill: map<int, Point> := map[];
      for n := 0 to |candles|
        invariant fill == Downsample(candles[..n], FRAMES[i].size)
      {
        assert candles[..n + 1][..n] == candles[..n];
        var e := CandleEnd(candles[n].t, FRAMES[i].size);
        if !IsPreOpenBucket(e) { fill := fill[e := candles[n].(t := e)]; }
      }
      assert candles[..|candles|] == candles;
      var merged := MergeMaps(ByStamp(before), fill);
      oiFrames := oiFrames[i := SortedFrame(merged, now - FRAMES[i].retention)];
      PersistWholeFrame(FrameKey(i), oiFrames[i], before, now);
    }

    /** collapseToBuckets: the points that close a bucket by now, by stamp. */
    static method CollapseToBuckets(pts: Frame, size: int, now: int) returns (collapsed: map<int, Point>)
      requires size > 0
      ensures forall f :: f in collapsed <==> At(pts, f).Some? && BucketEnd(f, size) == f && SessionOpen(f) < f <= now
      ensures forall f :: f in collapsed ==> Some(collapsed[f]) == At(pts, f)
      ensures collapsed == Collapse(pts, size, now)
    {
      collapsed := map[];
      for n := 0 to |pts|
        invariant collapsed == Collapse(pts[..n], size, now)
      {
        assert pts[..n + 1][..n] == pts[..n];
        var p := pts[n];
        if Closes(p, size, now) { collapsed := collapsed[p.t := p]; }
      }
      assert pts[..|pts|] == pts;
    }

    /** The recoverable buckets, with the points that close them. */
    static method FindFill(frame: Frame, source: Frame, now: int, cfg: Config) returns (fill: map<int, Point>)
      requires cfg.size > 0
      ensures forall f :: f in fill <==> Recoverable(frame, source, now, cfg, f)
      ensures fill == Fill(frame, source, now, cfg)
    {
      var collapsed := CollapseToBuckets(source, cfg.size, now);
      fill := map f | f in collapsed && f >= now - cfg.retention && !collapsed[f].partial
                      && Yielding(At(frame, f), collapsed[f]) :: collapsed[f];
      forall f
        ensures f in fill <==> Recoverable(frame, source, now, cfg, f)
      {
        FillExactly(frame, source, now, cfg, f);
      }
    }

    /** coarsenOiFrameLocked: returns how many coarse buckets were filled. */
    method CoarsenOiFrame(i: nat, src: nat, now: int) returns (filled: nat)
      requires Valid() && i < FRAME_COUNT && src < FRAME_COUNT
      modifies this`oiFrames, buffer`hashes
      ensures Valid()
      ensures filled == |Fill(old(oiFrames)[i], old(oiFrames)[src], now, FRAMES[i])|
      ensures oiFrames == old(oiFrames)[i := Coarsen(old(oiFrames)[i], old(oiFrames)[src], now, FRAMES[i])]
      ensures buffer.Pending() ==
              if filled == 0 then old(buffer.Pending())
              else QueueWhole(old(buffer.Pending()), FrameKey(i), old(oiFrames)[i],
                              Coarsen(old(oiFrames)[i], old(oiFrames)[src], now, FRAMES[i]), now)
    {
      var before := oiFrames[i];
      var fill := FindFill(before, oiFrames[src], now, FRAMES[i]);
      filled := |fill|;
      if filled == 0 {
        assert fill.Keys == {};
        return;
      }
      assert fill.Keys != {};
      oiFrames := oiFrames[i := SortedFrame(ByStamp(before) + fill, now - FRAMES[i].retention)];
      PersistWholeFrame(FrameKey(i), oiFrames[i], before, now);
    }

    /** mergeWarmLoaded: points already in memory win; returns how many buckets were added. */
    static method MergeWarmLoaded(frame: Frame, loaded: seq<Point>) returns (merged: Frame, added: nat)
      ensures loaded == [] ==> merged == frame
      ensures loaded != [] ==> merged == WarmLoaded(frame, ByStamp(loaded))
      ensures added == |Stamps(loaded) - Stamps(frame)|
    {
      if |loaded| == 0 {
        assert Stamps(loaded) - Stamps(frame) == {};
        return frame, 0;
      }
      var points: map<int, Point> := map[];
      for n := 0 to |loaded|
        invariant points == ByStamp(loaded[..n])
      {
        assert loaded[..n + 1][..n] == loaded[..n];
        points := points[loaded[n].t := loaded[n]];
      }
      assert loaded[..|loaded|] == loaded && frame[..0] == [];
      for n := 0 to |frame|
        invariant points == ByStamp(loaded) + ByStamp(frame[..n])
      {
        assert frame[..n + 1][..n] == frame[..n];
        points := points[frame[n].t := frame[n]];
      }
      assert frame[..|frame|] == frame;
      merged := Ascending(points);
      StampsAreKeys(loaded);
      StampsAreKeys(frame);
      assert points.Keys - Stamps(frame) == Stamps(loaded) - Stamps(frame);
      added := |points.Keys - Stamps(frame)|;
    }
  }

  lemma StampsNext(pts: Frame, n: nat)
    requires n < |pts|
    ensures Stamps(pts[..n + 1]) == Stamps(pts[..n]) + {pts[n].t}
  {
    var more, less := pts[..n + 1], pts[..n];
    assert forall i :: 0 <= i < n ==> more[i] == less[i];
  }

  lemma StampsAreKeys(pts: Frame)
    ensures Stamps(pts) == ByStamp(pts).Keys
  {
    forall f
      ensures f in Stamps(pts) <==> f in ByStamp(pts).Keys
    {
      StampsAt(pts, f);
    }
  }
}
