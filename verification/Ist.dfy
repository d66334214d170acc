/** IST session and bucket arithmetic (internal/analytics/ist.go): fixed-offset
    epoch-millisecond arithmetic with no time zone database. */
module Ist {
  const MINUTE_MS: int := 60 * 1000
  const HOUR_MS: int := 60 * MINUTE_MS
  const DAY_MS: int := 24 * HOUR_MS
  const IST_OFFSET_MS: int := 5 * HOUR_MS + 30 * MINUTE_MS
  const SESSION_OPEN_MINUTE: int := 9 * 60 + 15
  const SESSION_CLOSE_MINUTE: int := 15 * 60 + 40

  /** Go's integer division, which truncates toward zero. */
  function TruncDiv(a: int, b: int): int
    requires b != 0
  {
    var m := (if a < 0 then -a else a) / (if b < 0 then -b else b);
    if (a < 0) == (b < 0) then m else -m
  }

  function TruncRem(a: int, b: int): int
    requires b != 0
  {
    a - b * TruncDiv(a, b)
  }

  /** The code's floor division, built from truncating operators, really floors. */
  function FloorDiv(a: int, b: int): (q: int)
    requires b != 0
    ensures b > 0 ==> q * b <= a < q * b + b
    ensures b < 0 ==> q * b + b < a <= q * b
  {
    var q := TruncDiv(a, b);
    if TruncRem(a, b) != 0 && (a < 0) != (b < 0) then q - 1 else q
  }

  function CeilDiv(a: int, b: int): (q: int)
    requires b != 0
    ensures b > 0 ==> q * b - b < a <= q * b
  {
    var n := FloorDiv(-a, b);
    assert b > 0 ==> (-n) * b == -(n * b);
    -n
  }

  /** Epoch ms of an IST wall-clock minute on the IST day containing t. */
  function IstTimeOnDay(t: int, minutesOfDay: int): int {
    FloorDiv(t + IST_OFFSET_MS, DAY_MS) * DAY_MS + minutesOfDay * MINUTE_MS - IST_OFFSET_MS
  }

  function SessionOpen(t: int): int { IstTimeOnDay(t, SESSION_OPEN_MINUTE) }

  function SessionClose(t: int): int { IstTimeOnDay(t, SESSION_CLOSE_MINUTE) }

  predicate IsPreOpenBucket(end: int) { end <= SessionOpen(end) }

  /** The next multiple of size, in IST wall time, at or after t. */
  function AlignUp(t: int, size: int): int
    requires size > 0
  {
    CeilDiv(t + IST_OFFSET_MS, size) * size - IST_OFFSET_MS
  }

  function BucketEnd(t: int, size: int): int
    requires size > 0
  {
    var close := SessionClose(t);
    if t >= close then close
    else
      var aligned := AlignUp(t, size);
      if aligned < close then aligned else close
  }

  /** Broker candles are stamped with their start. */
  function CandleEnd(start: int, size: int): int
    requires size > 0
  {
    BucketEnd(start + MINUTE_MS, size)
  }

  // ---------------------------------------------------------------- the IST day

  /** Number of the IST day containing t. */
  function Day(t: int): int { FloorDiv(t + IST_OFFSET_MS, DAY_MS) }

  function Midnight(t: int): int { Day(t) * DAY_MS - IST_OFFSET_MS }

  predicate Aligned(x: int, size: int)
    requires size > 0
  {
    (x + IST_OFFSET_MS) % size == 0
  }

  lemma SameDay(t: int, x: int)
    requires Midnight(t) <= x < Midnight(t) + DAY_MS
    ensures Day(x) == Day(t)
    ensures SessionClose(x) == SessionClose(t) && SessionOpen(x) == SessionOpen(t)
  {
  }

  lemma DayBounds(t: int)
    ensures Midnight(t) <= t < Midnight(t) + DAY_MS
    ensures Midnight(t) < SessionOpen(t) < SessionClose(t) < Midnight(t) + DAY_MS
  {
  }

  lemma LaterDay(t: int, u: int)
    requires t <= u && Day(t) != Day(u)
    ensures Midnight(t) + DAY_MS <= Midnight(u)
  {
    DayBounds(t);
    DayBounds(u);
  }

  lemma MultipleStep(k: int, n: int, b: int)
    requires b > 0 && k < n
    ensures k * b + b <= n * b
    decreases n - k
  {
    if k + 1 < n { MultipleStep(k + 1, n, b); }
    assert (k + 1) * b == k * b + b;
  }

  lemma DivisibleMultiple(x: int, b: int)
    requires b > 0 && x % b == 0
    ensures x == (x / b) * b
  {
  }

  lemma MultipleDivisible(q: int, b: int)
    requires b > 0
    ensures (q * b) % b == 0
  {
    var x := q * b;
    assert x == (x / b) * b + x % b;
    if q < x / b { MultipleStep(q, x / b, b); } else if x / b < q { MultipleStep(x / b, q, b); }
  }

  lemma CeilLeast(a: int, b: int, y: int)
    requires b > 0 && a <= y && y % b == 0
    ensures CeilDiv(a, b) * b <= y
  {
    var q, k := CeilDiv(a, b), y / b;
    DivisibleMultiple(y, b);
    if k < q { MultipleStep(k, q, b); }
  }

  /** AlignUp gives the least aligned instant at or after t. */
  lemma AlignUpLeast(t: int, size: int)
    requires size > 0
    ensures t <= AlignUp(t, size) < t + size
    ensures Aligned(AlignUp(t, size), size)
    ensures forall x :: t <= x && Aligned(x, size) ==> AlignUp(t, size) <= x
  {
    MultipleDivisible(CeilDiv(t + IST_OFFSET_MS, size), size);
    forall x | t <= x && Aligned(x, size)
      ensures AlignUp(t, size) <= x
    {
      CeilLeast(t + IST_OFFSET_MS, size, x + IST_OFFSET_MS);
    }
  }

  lemma AlignedTransfers(x: int, fine: int, coarse: int)
    requires fine > 0 && coarse > 0 && coarse % fine == 0 && Aligned(x, coarse)
    ensures Aligned(x, fine)
  {
    var y := x + IST_OFFSET_MS;
    DivisibleMultiple(y, coarse);
    DivisibleMultiple(coarse, fine);
    var k, m := y / coarse, coarse / fine;
    assert y == (k * m) * fine by {
      assert k * (m * fine) == (k * m) * fine;
    }
    MultipleDivisible(k * m, fine);
  }

  // ---------------------------------------------------------------- bucket laws

  /** Where a bucket end can lie: inside the IST day of t, never after that day's close,
      and at or after t unless t is at or past the close. */
  lemma BucketEndRange(t: int, size: int)
    requires size > 0
    ensures var e := BucketEnd(t, size);
            && Midnight(t) <= e <= SessionClose(t)
            && Day(e) == Day(t) && SessionClose(e) == SessionClose(t) && SessionOpen(e) == SessionOpen(t)
            && (t < SessionClose(t) ==> t <= e)
            && (t >= SessionClose(t) ==> e == SessionClose(t) == Midnight(t) + 15 * HOUR_MS + 40 * MINUTE_MS)
  {
    DayBounds(t);
    AlignUpLeast(t, size);
    SameDay(t, BucketEnd(t, size));
  }

  /** Before the close the bucket end is the least bucket boundary (an aligned instant or
      the day's close) at or after t. */
  lemma BucketEndLeast(t: int, size: int)
    requires size > 0 && t < SessionClose(t)
    ensures var e := BucketEnd(t, size);
            && t <= e
            && (Aligned(e, size) || e == SessionClose(t))
            && forall x :: t <= x && (Aligned(x, size) || x == SessionClose(t)) ==> e <= x
  {
    AlignUpLeast(t, size);
  }

  /** A bucket is skipped exactly when all the time it covers is at or before 09:15. */
  lemma PreOpenExactly(t: int, size: int)
    requires size > 0
    ensures IsPreOpenBucket(BucketEnd(t, size)) <==>
            forall x :: BucketEnd(x, size) == BucketEnd(t, size) ==> x <= Midnight(x) + 9 * HOUR_MS + 15 * MINUTE_MS
  {
    var e := BucketEnd(t, size);
    BucketEndIdempotent(t, size);
    forall x | BucketEnd(x, size) == e && IsPreOpenBucket(e)
      ensures x <= SessionOpen(x)
    {
      BucketEndRange(x, size);
      DayBounds(x);
    }
  }

  lemma BucketEndMonotone(t: int, u: int, size: int)
    requires size > 0 && t <= u
    ensures BucketEnd(t, size) <= BucketEnd(u, size)
  {
    BucketEndRange(t, size);
    BucketEndRange(u, size);
    if Day(t) != Day(u) {
      LaterDay(t, u);
      DayBounds(t);
    } else if u < SessionClose(u) {
      BucketEndLeast(t, size);
      BucketEndLeast(u, size);
    }
  }

  /** Bucketing at a fine size first never changes the coarse bucket, the 15:40 clamp
      included. */
  lemma BucketEndComposes(t: int, fine: int, coarse: int)
    requires fine > 0 && coarse > 0 && coarse % fine == 0
    ensures BucketEnd(BucketEnd(t, fine), coarse) == BucketEnd(t, coarse)
  {
    var e := BucketEnd(t, fine);
    BucketEndRange(t, fine);
    if t < SessionClose(t) {
      BucketEndLeast(t, fine);
      BucketEndLeast(t, coarse);
      var c := BucketEnd(t, coarse);
      if Aligned(c, coarse) { AlignedTransfers(c, fine, coarse); }
      assert e <= c;
      if e < SessionClose(e) { BucketEndLeast(e, coarse); }
    }
  }

  lemma BucketEndIdempotent(t: int, size: int)
    requires size > 0
    ensures BucketEnd(BucketEnd(t, size), size) == BucketEnd(t, size)
  {
    MultipleDivisible(1, size);
    BucketEndComposes(t, size, size);
  }

  /** A bucket stamp that lies after t is exactly t's own bucket. */
  lemma FutureStampIsForming(stamp: int, t: int, size: int)
    requires size > 0 && BucketEnd(stamp, size) == stamp
    requires t < stamp <= BucketEnd(t, size)
    ensures stamp == BucketEnd(t, size)
  {
    BucketEndMonotone(t, stamp, size);
  }

  lemma StartedCandleCloses(start: int, now: int)
    requires Aligned(start, MINUTE_MS) && start < now
    ensures start + MINUTE_MS <= AlignUp(now, MINUTE_MS)
  {
    AlignUpLeast(now, MINUTE_MS);
  }

  lemma MidnightBucket(t: int, size: int)
    requires size > 0 && DAY_MS % size == 0 && t == Midnight(t)
    ensures BucketEnd(t, size) == t && IsPreOpenBucket(t)
  {
    DayBounds(t);
    AlignedTransfers(t, size, DAY_MS);
    AlignUpLeast(t, size);
  }

  lemma NextMinuteDay(now: int)
    ensures var u := AlignUp(now, MINUTE_MS);
            Day(u) == Day(now) || (u == Midnight(u) && u - MINUTE_MS < now)
  {
    var u, next := AlignUp(now, MINUTE_MS), Midnight(now) + DAY_MS;
    AlignUpLeast(now, MINUTE_MS);
    DayBounds(now);
    DayStartsOnMinute(Day(now) + 1);
    assert u <= next;
    if u < next { SameDay(now, u); }
  }

  /** Midnight falls on a whole minute and starts its own day. */
  lemma DayStartsOnMinute(day: int)
    ensures var m := day * DAY_MS - IST_OFFSET_MS;
            Aligned(m, MINUTE_MS) && Midnight(m) == m
  {
    MultipleDivisible(day * 1440, MINUTE_MS);
  }

  lemma SameDayBucketOfNextMinute(now: int, size: int)
    requires size > 0 && size % MINUTE_MS == 0
    requires Day(AlignUp(now, MINUTE_MS)) == Day(now)
    ensures BucketEnd(AlignUp(now, MINUTE_MS), size) == BucketEnd(now, size)
  {
    var u := AlignUp(now, MINUTE_MS);
    AlignUpLeast(now, MINUTE_MS);
    BucketEndRange(u, size);
    BucketEndRange(now, size);
    BucketEndComposes(now, MINUTE_MS, size);
    BucketEndRange(SessionClose(now), size);
  }

  /** A minute candle that started before `now` never lands beyond the bucket of `now`,
      apart from the pre-open buckets the frames skip. */
  lemma StartedCandleIsNotBeyondNow(start: int, now: int, size: int)
    requires size > 0 && size % MINUTE_MS == 0 && DAY_MS % size == 0
    requires Aligned(start, MINUTE_MS) && start < now
    ensures IsPreOpenBucket(CandleEnd(start, size)) || CandleEnd(start, size) <= BucketEnd(now, size)
  {
    var u := AlignUp(now, MINUTE_MS);
    StartedCandleCloses(start, now);
    NextMinuteDay(now);
    if Day(u) == Day(now) {
      SameDayBucketOfNextMinute(now, size);
      BucketEndMonotone(start + MINUTE_MS, u, size);
    } else if start + MINUTE_MS == u {
      MidnightBucket(u, size);
    } else {
      assert start + MINUTE_MS <= u - MINUTE_MS by { AlignUpLeast(now, MINUTE_MS); }
      BucketEndMonotone(start + MINUTE_MS, now, size);
    }
  }
}
