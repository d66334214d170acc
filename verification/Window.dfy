/** Rolling extrema of a premium (internal/spike/window.go): two monotonic queues that stand
    for every sample ever added. up says which extreme is meant: true for the highs. */
module Window {
  datatype Sample = Sample(t: int, premium: real)

  /** Strictly more extreme. */
  predicate Beats(up: bool, a: Sample, b: Sample) {
    if up then a.premium > b.premium else a.premium < b.premium
  }

  predicate Ordered(s: seq<Sample>) { forall i, j :: 0 <= i < j < |s| ==> s[i].t <= s[j].t }

  /** The samples strictly more extreme than all that follow them. */
  function Records(up: bool, s: seq<Sample>): seq<Sample> {
    if s == [] then []
    else
      var rest := Records(up, s[1..]);
      if rest == [] || Beats(up, s[0], rest[0]) then [s[0]] + rest else rest
  }

  /** What is left after dropping from the front everything older than the window. */
  function Trim(s: seq<Sample>, now: int, window: nat): seq<Sample> {
    if s != [] && now - s[0].t > window then Trim(s[1..], now, window) else s
  }

  /** What is left after dropping from the back everything x is at least as extreme as. */
  function Pop(up: bool, s: seq<Sample>, x: Sample): seq<Sample> {
    if s != [] && !Beats(up, s[|s| - 1], x) then Pop(up, s[..|s| - 1], x) else s
  }

  // ---------------------------------------------------------------- records

  /** The i-th sample is a reference: none in s is more extreme, and every later one is
      strictly less so. */
  ghost predicate Latest(up: bool, s: seq<Sample>, i: nat) {
    && i < |s|
    && (forall j :: 0 <= j < |s| ==> !Beats(up, s[j], s[i]))
    && (forall j :: i < j < |s| ==> Beats(up, s[i], s[j]))
  }

  lemma {:induction false} FirstRecordIsLatest(up: bool, s: seq<Sample>) returns (i: nat)
    requires s != []
    ensures Records(up, s) != [] && Latest(up, s, i) && s[i] == Records(up, s)[0]
  {
    var rest := s[1..];
    if rest == [] {
      i := 0;
    } else {
      var k := FirstRecordIsLatest(up, rest);
      i := if Beats(up, s[0], rest[k]) then 0 else k + 1;
      forall j | 0 <= j < |s|
        ensures !Beats(up, s[j], s[i])
        ensures i < j ==> Beats(up, s[i], s[j])
      {
        if j > 0 { assert s[j] == rest[j - 1]; }
      }
    }
  }

  lemma {:induction false} RecordsFrom(up: bool, s: seq<Sample>, k: nat) returns (i: nat)
    requires k < |Records(up, s)|
    ensures i < |s| && s[i] == Records(up, s)[k]
  {
    var rest := Records(up, s[1..]);
    if Records(up, s) == rest {
      i := RecordsFrom(up, s[1..], k);
      i := i + 1;
    } else if k == 0 {
      i := 0;
    } else {
      i := RecordsFrom(up, s[1..], k - 1);
      i := i + 1;
    }
  }

  lemma {:induction false} PopFront(up: bool, y: Sample, s: seq<Sample>, x: Sample)
    ensures Pop(up, [y] + s, x) == if Pop(up, s, x) == [] && !Beats(up, y, x) then [] else [y] + Pop(up, s, x)
    decreases |s|
  {
    var all := [y] + s;
    if s == [] {
      assert all == [y] && all[..0] == [];
    } else {
      assert all[|all| - 1] == s[|s| - 1];
      if !Beats(up, s[|s| - 1], x) {
        assert all[..|all| - 1] == [y] + s[..|s| - 1];
        PopFront(up, y, s[..|s| - 1], x);
      }
    }
  }

  lemma {:induction false} PopPrefix(up: bool, s: seq<Sample>, x: Sample)
    ensures Pop(up, s, x) <= s
    ensures Pop(up, s, x) != [] ==> Beats(up, Pop(up, s, x)[|Pop(up, s, x)| - 1], x)
    decreases |s|
  {
    if s != [] { PopPrefix(up, s[..|s| - 1], x); }
  }

  /** Popping the back and appending keeps the records of everything seen. */
  lemma {:induction false} AddKeepsRecords(up: bool, s: seq<Sample>, x: Sample)
    ensures Records(up, s + [x]) == Pop(up, Records(up, s), x) + [x]
    decreases |s|
  {
    if s == [] {
      assert s + [x] == [x] && [x][1..] == [];
    } else {
      var rest := Records(up, s[1..]);
      assert (s + [x])[1..] == s[1..] + [x];
      AddKeepsRecords(up, s[1..], x);
      PopPrefix(up, rest, x);
      PopFront(up, s[0], rest, x);
      PoppedAll(up, rest, x);
    }
  }

  /** If everything pops then x is at least as extreme as the first. */
  lemma PoppedAll(up: bool, s: seq<Sample>, x: Sample)
    ensures s != [] && Pop(up, s, x) == [] ==> !Beats(up, s[0], x)
  {
    if s != [] {
      assert s == [s[0]] + s[1..];
      PopFront(up, s[0], s[1..], x);
    }
  }

  // ---------------------------------------------------------------- trimming

  lemma {:induction false} TrimIsSuffix(s: seq<Sample>, now: int, window: nat) returns (k: nat)
    ensures k <= |s| && Trim(s, now, window) == s[k..]
    ensures forall i :: 0 <= i < k ==> now - s[i].t > window
    ensures k < |s| ==> now - s[k].t <= window
  {
    if s != [] && now - s[0].t > window {
      k := TrimIsSuffix(s[1..], now, window);
      assert s[1..][k..] == s[k + 1..];
      k := k + 1;
    } else {
      k := 0;
    }
  }

  /** Trimming the records gives the records of the trimmed samples. */
  lemma {:induction false} TrimKeepsRecords(up: bool, s: seq<Sample>, now: int, window: nat)
    requires Ordered(s)
    ensures Trim(Records(up, s), now, window) == Records(up, Trim(s, now, window))
  {
    if s != [] {
      var r, rest := Records(up, s), Records(up, s[1..]);
      if now - s[0].t > window {
        TrimKeepsRecords(up, s[1..], now, window);
        if r != rest { assert r[1..] == rest; }
      } else if r != [] {
        var i := RecordsFrom(up, s, 0);
        assert s[0].t <= s[i].t;
      }
    }
  }

  /** Trimming early changes nothing later. */
  lemma {:induction false} TrimTwice(s: seq<Sample>, x: seq<Sample>, early: int, late: int, window: nat)
    requires early <= late
    ensures Trim(Trim(s, early, window) + x, late, window) == Trim(s + x, late, window)
  {
    if s != [] && early - s[0].t > window {
      assert (s + x)[1..] == s[1..] + x;
      TrimTwice(s[1..], x, early, late, window);
    }
  }

  // ---------------------------------------------------------------- what References answers

  /** Every sample added so far that is no older than the window. */
  predicate InWindow(s: Sample, now: int, window: nat) { now - s.t <= window }

  /** x is the latest extreme of the samples in the window. */
  ghost predicate IsReference(up: bool, history: seq<Sample>, now: int, window: nat, x: Sample) {
    exists i: nat ::
      && i < |history| && history[i] == x && InWindow(x, now, window)
      && (forall j :: 0 <= j < |history| && InWindow(history[j], now, window) ==> !Beats(up, history[j], x))
      && (forall j :: i < j < |history| ==> Beats(up, x, history[j]))
  }

  /** There is at most one such sample, so the answer is determined. */
  lemma ReferenceIsUnique(up: bool, history: seq<Sample>, now: int, window: nat, x: Sample, y: Sample)
    requires IsReference(up, history, now, window, x) && IsReference(up, history, now, window, y)
    ensures x == y
  {
    var i: nat :| i < |history| && history[i] == x
      && (forall j :: i < j < |history| ==> Beats(up, x, history[j]));
    var j: nat :| j < |history| && history[j] == y
      && (forall k :: j < k < |history| ==> Beats(up, y, history[k]));
    assert i < j ==> Beats(up, x, y);
    assert j < i ==> Beats(up, y, x);
  }

  lemma TrimmedRecordIsReference(up: bool, history: seq<Sample>, now: int, window: nat)
    requires Ordered(history) && Trim(history, now, window) != []
    ensures Records(up, Trim(history, now, window)) != []
    ensures IsReference(up, history, now, window, Records(up, Trim(history, now, window))[0])
  {
    var k := TrimIsSuffix(history, now, window);
    var live := history[k..];
    var i := FirstRecordIsLatest(up, live);
    var x := live[i];
    assert history[k + i] == x && InWindow(x, now, window);
    forall j | 0 <= j < |history| && InWindow(history[j], now, window)
      ensures !Beats(up, history[j], x)
    {
      assert history[j] == live[j - k];
    }
    forall j | k + i < j < |history|
      ensures Beats(up, x, history[j])
    {
      assert history[j] == live[j - k];
    }
  }

  /** Nothing is left exactly when no sample is in the window. */
  lemma TrimmedEmpty(history: seq<Sample>, now: int, window: nat)
    requires Ordered(history)
    ensures Trim(history, now, window) == []
       <==> forall i :: 0 <= i < |history| ==> !InWindow(history[i], now, window)
  {
    var k := TrimIsSuffix(history, now, window);
    if k < |history| { assert InWindow(history[k], now, window); }
  }

  // ---------------------------------------------------------------- the object

  class PriceWindow {
    const windowMs: nat
    var low: seq<Sample>
    var high: seq<Sample>
    ghost var history: seq<Sample>
    ghost var clock: int

    /** Both queues hold the records of what the last operation left in the window. */
    ghost predicate Valid()
      reads this
    {
      && Ordered(history)
      && (forall i :: 0 <= i < |history| ==> history[i].t <= clock)
      && low == Records(false, Trim(history, clock, windowMs))
      && high == Records(true, Trim(history, clock, windowMs))
    }

    constructor (windowMs: nat, start: int)
      ensures Valid() && history == [] && clock == start && this.windowMs == windowMs
    {
      this.windowMs := windowMs;
      low, high, history, clock := [], [], [], start;
    }

    /** Trim both queues to the window. */
    method Expire(now: int)
      modifies this`low, this`high
      ensures low == Trim(old(low), now, windowMs) && high == Trim(old(high), now, windowMs)
    {
      while |low| > 0 && now - low[0].t > windowMs
        invariant Trim(low, now, windowMs) == Trim(old(low), now, windowMs)
        invariant high == old(high)
        decreases |low|
      {
        low := low[1..];
      }
      while |high| > 0 && now - high[0].t > windowMs
        invariant low == Trim(old(low), now, windowMs)
        invariant Trim(high, now, windowMs) == Trim(old(high), now, windowMs)
        decreases |high|
      {
        high := high[1..];
      }
    }

    /** The latest minimum and the latest maximum among all samples ever added that are no
        older than the window, and nothing exactly when there is none. */
    method References(now: int) returns (result: seq<Sample>)
      requires Valid() && clock <= now
      modifies this`low, this`high, this`clock
      ensures Valid() && clock == now
      ensures result == [] <==> forall i :: 0 <= i < |history| ==> !InWindow(history[i], now, windowMs)
      ensures result != [] ==>
                && |result| == 2
                && IsReference(false, history, now, windowMs, result[0])
                && IsReference(true, history, now, windowMs, result[1])
    {
      SuffixOrdered(history, clock, windowMs);
      TrimKeepsRecords(false, Trim(history, clock, windowMs), now, windowMs);
      TrimKeepsRecords(true, Trim(history, clock, windowMs), now, windowMs);
      TrimmedTwice(history, clock, now, windowMs);
      Expire(now);
      clock := now;
      result := [];
      if |low| > 0 { result := result + [low[0]]; }
      if |high| > 0 { result := result + [high[0]]; }
      TrimmedEmpty(history, now, windowMs);
      if Trim(history, now, windowMs) != [] {
        TrimmedRecordIsReference(false, history, now, windowMs);
        TrimmedRecordIsReference(true, history, now, windowMs);
      }
    }

    method Add(sample: Sample)
      requires Valid() && clock <= sample.t
      modifies this
      ensures Valid() && history == old(history) + [sample] && clock == sample.t
    {
      ghost var live := Trim(history, clock, windowMs);
      while |low| > 0 && low[|low| - 1].premium >= sample.premium
        invariant Pop(false, low, sample) == Pop(false, old(low), sample)
        invariant high == old(high) && history == old(history) && clock == old(clock)
        decreases |low|
      {
        low := low[..|low| - 1];
      }
      low := low + [sample];
      while |high| > 0 && high[|high| - 1].premium <= sample.premium
        invariant Pop(true, high, sample) == Pop(true, old(high), sample)
        invariant low == Pop(false, old(low), sample) + [sample]
        invariant history == old(history) && clock == old(clock)
        decreases |high|
      {
        high := high[..|high| - 1];
      }
      high := high + [sample];
      AddKeepsRecords(false, live, sample);
      AddKeepsRecords(true, live, sample);
      SuffixOrdered(history, clock, windowMs);
      SuffixBounded(history, clock, windowMs);
      TrimKeepsRecords(false, live + [sample], sample.t, windowMs);
      TrimKeepsRecords(true, live + [sample], sample.t, windowMs);
      TrimTwice(history, [sample], clock, sample.t, windowMs);
      history := history + [sample];
      Expire(sample.t);
      clock := sample.t;
    }
  }

  lemma SuffixOrdered(s: seq<Sample>, now: int, window: nat)
    requires Ordered(s)
    ensures Ordered(Trim(s, now, window))
  {
    var k := TrimIsSuffix(s, now, window);
  }

  lemma SuffixBounded(s: seq<Sample>, now: int, window: nat)
    requires forall i :: 0 <= i < |s| ==> s[i].t <= now
    ensures forall i :: 0 <= i < |Trim(s, now, window)| ==> Trim(s, now, window)[i].t <= now
  {
    var k := TrimIsSuffix(s, now, window);
  }

  lemma TrimmedTwice(s: seq<Sample>, early: int, late: int, window: nat)
    requires early <= late
    ensures Trim(Trim(s, early, window), late, window) == Trim(s, late, window)
  {
    TrimTwice(s, [], early, late, window);
    assert Trim(s, early, window) + [] == Trim(s, early, window) && s + [] == s;
  }
}
