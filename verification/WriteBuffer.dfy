/** The write-behind buffer as the mutable object it is (internal/analytics/writebehind.go);
    each method is tied to the value-level operation of module WriteBehind.

    Time to live is reduced to the set of keys whose refresh is due, and the transport to
    one outcome per command. */
module WriteBuffer {
  import opened Base
  import opened WriteBehind

  /** What became of one command: a failed one may have taken effect all the same. */
  datatype Outcome = Sent | FailedBefore | FailedAfter

  /** Command i is the first that fails. */
  predicate FailsAt(outcomes: seq<Outcome>, i: nat) {
    i < |outcomes| && !outcomes[i].Sent? && forall j :: 0 <= j < i ==> outcomes[j].Sent?
  }

  /** execOps: commands in order, the first failure fails the flush. */
  method ExecOps<V>(store: Store<V>, ops: seq<Op<V>>, outcomes: seq<Outcome>)
    returns (ok: bool, store': Store<V>, ghost done: nat)
    requires |outcomes| == |ops|
    ensures done <= |ops| && store' == ApplyOps(store, ops[..done])
    ensures ok <==> forall i :: 0 <= i < |ops| ==> outcomes[i].Sent?
    ensures ok ==> store' == ApplyOps(store, ops)
    ensures !ok ==> FailsAt(outcomes, done) || (done > 0 && FailsAt(outcomes, done - 1))
    ensures done < |ops| && FailsAt(outcomes, done) ==> outcomes[done].FailedBefore?
    ensures !ok && done > 0 && FailsAt(outcomes, done - 1) ==> outcomes[done - 1].FailedAfter?
  {
    store' := store;
    done := 0;
    for i := 0 to |ops|
      invariant done == i && store' == ApplyOps(store, ops[..i])
      invariant forall j :: 0 <= j < i ==> outcomes[j].Sent?
    {
      if outcomes[i].FailedBefore? { return false, store', i; }
      assert ops[..i + 1][..i] == ops[..i];
      store' := ApplyOp(store', ops[i]);
      done := i + 1;
      if outcomes[i].FailedAfter? { return false, store', i + 1; }
    }
    assert ops[..|ops|] == ops;
    ok := true;
  }

  /** hashWriteOps: HSET of every entry, HDEL of the stale fields, then EXPIRE when due. */
  function HashWriteOps<V>(key: Key, h: Hash<V>, refresh: bool): seq<Op<V>> {
    var writes := if |h.entries| > 0 then [HSet(key, h.entries)] else [];
    var ops := writes + if |h.stale| > 0 then [HDel(key, h.stale)] else [];
    if ops != [] && refresh then ops + [Expire(key)] else ops
  }

  /** ops carries everything buffered under key. */
  predicate Covers<V(==)>(ops: seq<Op<V>>, key: Key, h: Hash<V>) {
    && (|h.entries| > 0 ==> HSet(key, h.entries) in ops)
    && (|h.stale| > 0 ==> HDel(key, h.stale) in ops)
  }

  method OldestFields(s: set<int>, n: nat) returns (gone: set<int>)
    requires n <= |s|
    ensures gone == Oldest(s, n)
  {
    gone := {};
    var rest := s;
    for k := 0 to n
      invariant n - k <= |rest|
      invariant gone + Oldest(rest, n - k) == Oldest(s, n)
    {
      var f := Least(rest);
      gone, rest := gone + {f}, rest - {f};
    }
  }

  class Queue<V(==)> {
    const enabled: bool
    var hashes: map<Key, Hash<V>>
    var plains: map<Key, V>
    var flushInFlight: bool
    var flushAgain: bool

    function Pending(): Buffer<V>
      reads this
    {
      Buffer(hashes, plains)
    }

    constructor (enabled: bool)
      ensures Pending() == EmptyBuffer() && !flushInFlight && !flushAgain && this.enabled == enabled
    {
      this.enabled := enabled;
      hashes, plains := map[], map[];
      flushInFlight, flushAgain := false, false;
    }

    /** The key will hold the value; no other field of any key is affected, and the key's sets
        and deletes stay disjoint. */
    method QueueHashField(key: Key, field: int, value: V, maxFields: nat)
      modifies this`hashes
      ensures Pending() == if enabled then QueueField(old(Pending()), key, field, value, maxFields) else old(Pending())
      ensures maxFields > 0 && ValidBuffer(old(Pending())) ==> ValidBuffer(Pending())
      ensures forall k, f, under :: Overlay(Pending(), k, f, under) ==
                if enabled && k == key && f == field then Some(value) else Overlay(old(Pending()), k, f, under)
    {
      QueueFieldReads(Pending(), key, field, value, maxFields);
      if !enabled { return; }
      var p := if key in hashes then hashes[key] else Hash(map[], {}, maxFields);
      p := p.(maxFields := maxFields);
      p := p.(stale := p.stale - {field});
      p := p.(entries := p.entries[field := value]);
      hashes := hashes[key := p];
    }

    method QueueHashDrop(key: Key, fields: seq<int>)
      modifies this`hashes
      ensures Pending() == if enabled then QueueDrop(old(Pending()), key, Elements(fields)) else old(Pending())
      ensures ValidBuffer(old(Pending())) ==> ValidBuffer(Pending())
    {
      ghost var b, gone := Pending(), Elements(fields);
      QueueDropReads(b, key, gone);
      assert Elements(fields[..0]) == {} && (|fields| == 0 ==> gone == {});
      if !enabled || |fields| == 0 { return; }
      var start := PendingFor(Pending(), key, MAX_BUFFERED_FRAME_FIELDS);
      var p := start;
      for n := 0 to |fields|
        invariant Pending() == b && p.maxFields == MAX_BUFFERED_FRAME_FIELDS
        invariant p.entries == start.entries - Elements(fields[..n])
        invariant p.stale == start.stale + Elements(fields[..n])
      {
        ElementsNext(fields, n);
        p := p.(entries := p.entries - {fields[n]}, stale := p.stale + {fields[n]});
      }
      assert fields[..|fields|] == fields;
      assert fields[0] in gone;
      hashes := hashes[key := p];
    }

    /** The key will hold the value; no other plain key and no field is affected. */
    method QueuePlainWrite(key: Key, value: V)
      modifies this`plains
      ensures Pending() == if enabled then QueuePlain(old(Pending()), key, value) else old(Pending())
      ensures ValidBuffer(old(Pending())) ==> ValidBuffer(Pending())
      ensures forall k, under :: OverlayPlain(Pending(), k, under) ==
                if enabled && k == key then Some(value) else OverlayPlain(old(Pending()), k, under)
      ensures forall k, f, under :: Overlay(Pending(), k, f, under) == Overlay(old(Pending()), k, f, under)
    {
      if enabled { plains := plains[key := value]; }
    }

    /** beginFlushLocked: detach the buffer and build its commands, or ask for a re-run
        while a flush is in flight. */
    method BeginFlush(ready: bool, refresh: set<Key>) returns (batch: Option<Buffer<V>>, ops: seq<Op<V>>)
      requires ValidBuffer(Pending())
      modifies this
      ensures batch.Some? <==> enabled && !old(flushInFlight) && HasPending(old(Pending())) && ready
      ensures batch.Some? ==>
                && batch.value == old(Pending()) && Pending() == EmptyBuffer()
                && flushInFlight && !flushAgain
                && OpsOf(ops, batch.value) && ops != []
      ensures batch.None? ==> Pending() == old(Pending()) && flushInFlight == old(flushInFlight) && ops == []
      ensures batch.None? ==> flushAgain == (old(flushAgain) || (enabled && old(flushInFlight)))
    {
      batch, ops := None, [];
      if !enabled { return; }
      if flushInFlight {
        flushAgain := true;
        return;
      }
      if |hashes| == 0 && |plains| == 0 { return; }
      if !ready { return; }
      flushInFlight, flushAgain := true, false;
      var sent := Pending();
      hashes, plains := map[], map[];
      ops := HashCommands(sent, refresh);
      ops := PlainCommands(sent, ops);
      batch := Some(sent);
      PendingYieldsCommand(sent, ops);
    }

    static method HashCommands(sent: Buffer<V>, refresh: set<Key>) returns (ops: seq<Op<V>>)
      ensures forall i :: 0 <= i < |ops| ==> OpOf(ops[i], sent)
      ensures forall k :: k in sent.hashes ==> Covers(ops, k, sent.hashes[k])
    {
      ops := [];
      var rest := sent.hashes.Keys;
      while rest != {}
        invariant rest <= sent.hashes.Keys
        invariant forall i :: 0 <= i < |ops| ==> OpOf(ops[i], sent)
        invariant forall k :: k in sent.hashes && k !in rest ==> Covers(ops, k, sent.hashes[k])
        decreases rest
      {
        var k := TakeOne(rest);
        ops := ops + HashWriteOps(k, sent.hashes[k], k in refresh);
        rest := rest - {k};
      }
    }

    static method PlainCommands(sent: Buffer<V>, first: seq<Op<V>>) returns (ops: seq<Op<V>>)
      requires forall i :: 0 <= i < |first| ==> OpOf(first[i], sent)
      requires forall k :: k in sent.hashes ==> Covers(first, k, sent.hashes[k])
      ensures OpsOf(ops, sent)
    {
      ops := first;
      var rest := sent.plains.Keys;
      while rest != {}
        invariant rest <= sent.plains.Keys
        invariant forall i :: 0 <= i < |ops| ==> OpOf(ops[i], sent)
        invariant forall k :: k in sent.hashes ==> Covers(ops, k, sent.hashes[k])
        invariant forall k :: k in sent.plains && k !in rest ==> SetPlain(k, sent.plains[k]) in ops
        decreases rest
      {
        var k := TakeOne(rest);
        ops := ops + [SetPlain(k, sent.plains[k])];
        rest := rest - {k};
      }
    }

    static method MergeEntries(sent: Hash<V>, cur: Hash<V>) returns (entries: map<int, V>)
      ensures entries == MergeHash(sent, cur).entries
    {
      entries := cur.entries;
      var rest := sent.entries.Keys;
      while rest != {}
        invariant rest <= sent.entries.Keys
        invariant entries.Keys == cur.entries.Keys + ((sent.entries.Keys - rest) - cur.stale)
        invariant forall f :: f in entries
                    ==> entries[f] == if f in cur.entries then cur.entries[f] else sent.entries[f]
        decreases rest
      {
        var f := TakeOne(rest);
        if f !in entries && f !in cur.stale { entries := entries[f := sent.entries[f]]; }
        rest := rest - {f};
      }
      ghost var goal := MergeHash(sent, cur).entries;
      assert entries.Keys == goal.Keys;
      assert forall f :: f in goal ==> entries[f] == goal[f];
    }

    static method MergeStale(sent: set<int>, cur: set<int>, written: set<int>) returns (stale: set<int>)
      ensures stale == cur + (sent - written)
    {
      stale := cur;
      var rest := sent;
      while rest != {}
        invariant rest <= sent
        invariant stale == cur + ((sent - rest) - written)
        decreases rest
      {
        var f := TakeOne(rest);
        if f !in written { stale := stale + {f}; }
        rest := rest - {f};
      }
    }

    /** The key-by-key part of the re-queue: newer writes and deletions win. */
    static method MergeKey(sent: Hash<V>, cur: Hash<V>) returns (m: Hash<V>)
      ensures m == MergeHash(sent, cur)
    {
      var entries := MergeEntries(sent, cur);
      var stale := MergeStale(sent.stale, cur.stale, entries.Keys);
      m := Hash(entries, stale, cur.maxFields);
    }

    /** The cap: the numerically smallest buffered fields go first. */
    static method CapKey(h: Hash<V>) returns (r: Hash<V>)
      ensures r == CapHash(h)
    {
      var gone: set<int> := {};
      if |h.entries| > h.maxFields {
        gone := OldestFields(h.entries.Keys, |h.entries| - h.maxFields);
      }
      r := h.(entries := h.entries - gone);
    }

    static method MergeOne(sent: map<Key, Hash<V>>, cur: map<Key, Hash<V>>, k: Key) returns (h: Hash<V>)
      requires k in sent
      ensures h == MergedAt(sent, cur, k)
    {
      h := sent[k];
      if k in cur { h := MergeKey(h, cur[k]); }
    }

    static method MergeBatch(sent: map<Key, Hash<V>>, cur: map<Key, Hash<V>>) returns (merged: map<Key, Hash<V>>)
      ensures merged == MergeHashes(sent, cur)
    {
      ghost var goal := MergeHashes(sent, cur);
      merged := cur;
      var todo := sent.Keys;
      while todo != {}
        invariant todo <= sent.Keys
        invariant forall k :: k in merged <==> k in cur || (k in sent && k !in todo)
        invariant forall k :: k in merged && k !in todo ==> merged[k] == goal[k]
        decreases todo
      {
        var k := TakeOne(todo);
        var h := MergeOne(sent, cur, k);
        merged := merged[k := h];
        todo := todo - {k};
      }
    }

    static method CapAll(all: map<Key, Hash<V>>) returns (capped: map<Key, Hash<V>>)
      ensures capped == CapHashes(all)
    {
      capped := all;
      var rest := all.Keys;
      while rest != {}
        invariant rest <= all.Keys == capped.Keys
        invariant forall k :: k in rest ==> capped[k] == all[k]
        invariant forall k :: k in capped && k !in rest ==> capped[k] == CapHash(all[k])
        decreases rest
      {
        var k := TakeOne(rest);
        var c := CapKey(capped[k]);
        capped := capped[k := c];
        rest := rest - {k};
      }
    }

    method RequeueFailedWrites(sent: Buffer<V>)
      modifies this`hashes, this`plains
      ensures Pending() == Requeue(sent, old(Pending()))
    {
      var merged := MergeBatch(sent.hashes, hashes);
      plains := sent.plains + plains;
      hashes := CapAll(merged);
    }

    /** The locked half of runFlush: a failed batch goes back, and a flush asked for
        meanwhile is reported. */
    method SettleFlush(sent: Buffer<V>, ok: bool) returns (again: bool)
      requires flushInFlight
      modifies this
      ensures Pending() == if ok then old(Pending()) else Requeue(sent, old(Pending()))
      ensures !flushInFlight && !flushAgain && again == old(flushAgain)
    {
      if !ok { RequeueFailedWrites(sent); }
      flushInFlight := false;
      again := flushAgain;
      flushAgain := false;
    }

    /** One whole flush: detach, send, settle. outcome(j) is the fate of command j. Either the
        whole buffer is stored, or it is all back in the buffer, but for the cap, and part of
        it is stored as well. */
    method FlushOnce(store: Store<V>, outcome: nat -> Outcome) returns (ok: bool, store': Store<V>)
      requires (!enabled ==> Pending() == EmptyBuffer()) && !flushInFlight && ValidBuffer(Pending())
      modifies this
      ensures !flushInFlight && ValidBuffer(Pending()) && (!enabled ==> Pending() == EmptyBuffer())
      ensures ok ==> Pending() == EmptyBuffer() && FullyApplied(store, old(Pending()), store')
      ensures !ok ==> Pending() == Cap(old(Pending())) && HasPending(Pending())
                      && PartlyApplied(store, old(Pending()), store')
      ensures AllSent(outcome) ==> ok
    {
      store' := store;
      ghost var b := Pending();
      var batch, ops := BeginFlush(true, {});
      if batch.None? {
        assert b.hashes.Keys == {} && b.plains.Keys == {};
        return true, store';
      }
      ghost var n;
      ok, store', n := ExecOps(store, ops, seq(|ops|, j requires 0 <= j => outcome(j)));
      if ok {
        CompleteFlush(store, b, ops);
      } else {
        PartsOfOps(ops, b, n);
        PrefixIsPartial(store, b, ops[..n]);
        RequeueAlone(b);
        CapValid(b);
        CapKeepsPending(b);
      }
      var _ := SettleFlush(batch.value, ok);
    }

    /** FlushNow, the final flush: up to four attempts, ignoring the cooldown. A batch already
        in flight is waited for, which takes one attempt; inFlight is that batch with its
        outcome, and store what it left. Whatever commands fail on the way, the flush succeeds
        exactly when nothing is left buffered, and then the store holds everything that was
        queued, a failed batch in flight included, but for the fields the cap gave up after a
        failure; and an attempt that is accepted throughout settles it, whichever it is. */
    method FlushNow(store: Store<V>, inFlight: Option<(Buffer<V>, bool)>, outcomes: seq<nat -> Outcome>)
      returns (done: bool, store': Store<V>)
      requires ValidBuffer(Pending()) && (!enabled ==> Pending() == EmptyBuffer()) && |outcomes| == 4
      requires flushInFlight <==> inFlight.Some?
      requires inFlight.Some? ==> enabled && ValidBuffer(inFlight.value.0)
      modifies this
      ensures !flushInFlight && ValidBuffer(Pending())
      ensures done <==> !HasPending(Pending())
      ensures done ==> AppliedButExcess(store, ToFlush(old(Pending()), inFlight), store')
      ensures !done ==> Pending() == Cap(ToFlush(old(Pending()), inFlight))
                        && PartlyApplied(store, ToFlush(old(Pending()), inFlight), store')
      ensures SomeSent(outcomes, if inFlight.Some? then 1 else 0, 4) ==> done
    {
      if inFlight.Some? {
        MergeValid(inFlight.value.0, Pending());
        CapValid(Merge(inFlight.value.0, Pending()));
        ghost var b := ToFlush(Pending(), inFlight);
        var _ := SettleFlush(inFlight.value.0, inFlight.value.1);
        done, store' := FlushRepeatedly(store, outcomes[1..], b);
        SomeSentLater(outcomes);
      } else {
        done, store' := FlushRepeatedly(store, outcomes, Pending());
      }
    }

    /** The attempts of FlushNow; b is what they have to bring to the store, capped or not. */
    method FlushRepeatedly(store: Store<V>, outcomes: seq<nat -> Outcome>, ghost b: Buffer<V>)
      returns (done: bool, store': Store<V>)
      requires !flushInFlight && ValidBuffer(b) && ValidBuffer(Pending()) && |outcomes| > 0
      requires (!enabled ==> Pending() == EmptyBuffer()) && (Pending() == b || Pending() == Cap(b))
      modifies this
      ensures !flushInFlight && ValidBuffer(Pending())
      ensures done <==> !HasPending(Pending())
      ensures done ==> AppliedButExcess(store, b, store')
      ensures !done ==> Pending() == Cap(b) && PartlyApplied(store, b, store')
      ensures SomeSent(outcomes, 0, |outcomes|) ==> done
    {
      store' := store;
      done := false;
      var attempt := 0;
      while attempt < |outcomes| && !done
        invariant 0 <= attempt <= |outcomes| && !flushInFlight
        invariant ValidBuffer(Pending()) && (!enabled ==> Pending() == EmptyBuffer())
        invariant done ==> !HasPending(Pending()) && AppliedButExcess(store, b, store')
        invariant !done ==> PartlyApplied(store, b, store') && (Pending() == Cap(b) || (attempt == 0 && Pending() == b))
        invariant !done && attempt > 0 ==> HasPending(Pending())
        invariant !done ==> !SomeSent(outcomes, 0, attempt)
      {
        ghost var c, before := Pending(), store';
        var ok;
        ok, store' := FlushOnce(store', outcomes[attempt]);
        if ok { PartThenFull(store, b, c, before, store'); } else { PartThenPart(store, b, c, before, store'); }
        CapTwice(b);
        done := |hashes| == 0 && |plains| == 0;
        SomeSentNext(outcomes, attempt);
        attempt := attempt + 1;
      }
    }
  }

  /** Every command is accepted. */
  ghost predicate AllSent(outcome: nat -> Outcome) { forall j: nat :: outcome(j).Sent? }

  /** One of the attempts from..to is accepted throughout. */
  ghost predicate SomeSent(outcomes: seq<nat -> Outcome>, from: nat, to: nat)
    requires to <= |outcomes|
  {
    exists a :: from <= a < to && AllSent(outcomes[a])
  }

  lemma SomeSentNext(outcomes: seq<nat -> Outcome>, n: nat)
    requires n < |outcomes|
    ensures SomeSent(outcomes, 0, n + 1) <==> SomeSent(outcomes, 0, n) || AllSent(outcomes[n])
  {
  }

  lemma SomeSentLater(outcomes: seq<nat -> Outcome>)
    requires |outcomes| > 0
    ensures SomeSent(outcomes, 1, |outcomes|) ==> SomeSent(outcomes[1..], 0, |outcomes| - 1)
  {
    if SomeSent(outcomes, 1, |outcomes|) {
      var a :| 1 <= a < |outcomes| && AllSent(outcomes[a]);
      assert AllSent(outcomes[1..][a - 1]);
    }
  }

  /** Everything FlushNow has to bring to the store: what is pending, over a batch in flight
      that failed. */
  function ToFlush<V>(pending: Buffer<V>, inFlight: Option<(Buffer<V>, bool)>): Buffer<V> {
    if inFlight.Some? && !inFlight.value.1 then Merge(inFlight.value.0, pending) else pending
  }

  // ---------------------------------------------------------------- repeated flushes

  /** The store after b was applied, except where the cap gave a field up. */
  ghost predicate AppliedButExcess<V>(st: Store<V>, b: Buffer<V>, st': Store<V>) {
    && (forall k, f :: (k in b.hashes && f in Excess(b.hashes[k]))
                       || Stored(st', k, f) == Overlay(b, k, f, Stored(st, k, f)))
    && (forall k :: StoredPlain(st', k) == OverlayPlain(b, k, StoredPlain(st, k)))
  }

  lemma PartsOfOps<V>(ops: seq<Op<V>>, b: Buffer<V>, n: nat)
    requires OpsOf(ops, b) && n <= |ops|
    ensures forall i :: 0 <= i < n ==> OpOf(ops[..n][i], b)
  {
  }

  lemma RequeueAlone<V>(b: Buffer<V>)
    ensures Requeue(b, EmptyBuffer()) == Cap(b)
  {
    assert Merge(b, EmptyBuffer()).hashes == b.hashes;
    assert Merge(b, EmptyBuffer()).plains == b.plains;
  }

  lemma CapHashTwice<V>(h: Hash<V>)
    ensures CapHash(CapHash(h)) == CapHash(h)
  {
    CapHashSize(h);
    var c := CapHash(h);
    assert c.entries - {} == c.entries;
  }

  lemma CapTwice<V>(b: Buffer<V>)
    ensures Cap(Cap(b)) == Cap(b)
  {
    var c := CapHashes(b.hashes);
    assert CapHashes(c).Keys == c.Keys;
    forall k | k in c
      ensures CapHashes(c)[k] == c[k]
    {
      CapHashTwice(b.hashes[k]);
    }
    assert Cap(Cap(b)).hashes == CapHashes(c);
    assert CapHashes(c) == c;
  }

  lemma CapKeepsPending<V>(b: Buffer<V>)
    ensures HasPending(Cap(b)) == HasPending(b)
  {
    assert Cap(b).hashes.Keys == b.hashes.Keys;
    assert |Cap(b).hashes| == |Cap(b).hashes.Keys| && |b.hashes| == |b.hashes.Keys|;
  }

  /** A later success completes what earlier failures left. */
  lemma PartThenFull<V>(st: Store<V>, b: Buffer<V>, c: Buffer<V>, part: Store<V>, st': Store<V>)
    requires ValidBuffer(b) && (c == b || c == Cap(b)) && PartlyApplied(st, b, part) && FullyApplied(part, c, st')
    ensures AppliedButExcess(st, b, st')
  {
    forall k, f
      ensures (k in b.hashes && f in Excess(b.hashes[k])) || Stored(st', k, f) == Overlay(b, k, f, Stored(st, k, f))
      ensures StoredPlain(st', k) == OverlayPlain(b, k, StoredPlain(st, k))
    {
      CapLosesExactly(b, k, f, Stored(part, k, f));
      assert Stored(part, k, f) == Stored(st, k, f) || Stored(part, k, f) == Overlay(b, k, f, Stored(st, k, f));
    }
  }

  lemma PartThenPart<V>(st: Store<V>, b: Buffer<V>, c: Buffer<V>, part: Store<V>, st': Store<V>)
    requires ValidBuffer(b) && (c == b || c == Cap(b)) && PartlyApplied(st, b, part) && PartlyApplied(part, c, st')
    ensures PartlyApplied(st, b, st')
  {
    forall k, f
      ensures Stored(st', k, f) == Stored(st, k, f) || Stored(st', k, f) == Overlay(b, k, f, Stored(st, k, f))
      ensures StoredPlain(st', k) == StoredPlain(st, k) || StoredPlain(st', k) == OverlayPlain(b, k, StoredPlain(st, k))
    {
      CapLosesExactly(b, k, f, Stored(part, k, f));
      assert Stored(part, k, f) == Stored(st, k, f) || Stored(part, k, f) == Overlay(b, k, f, Stored(st, k, f));
      assert Stored(st', k, f) == Stored(part, k, f) || Stored(st', k, f) == Overlay(c, k, f, Stored(part, k, f));
    }
  }
}
