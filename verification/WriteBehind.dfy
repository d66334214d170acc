/** The write-behind buffer of internal/analytics/writebehind.go, as values: what the
    buffer holds, what a flush sends, and what a failed flush puts back.

    Field names are the decimal form of an integer stamp, so they are kept as integers. */
module WriteBehind {
  import opened Base

  type Key = string

  const MAX_BUFFERED_FRAME_FIELDS: nat := 3000

  /** One key's buffered field writes and field deletions. */
  datatype Hash<V> = Hash(entries: map<int, V>, stale: set<int>, maxFields: nat)

  datatype Buffer<V> = Buffer(hashes: map<Key, Hash<V>>, plains: map<Key, V>)

  datatype Store<V> = Store(hashes: map<Key, map<int, V>>, plains: map<Key, V>)

  datatype Op<V> =
    | HSet(key: Key, fields: map<int, V>)
    | HDel(key: Key, gone: set<int>)
    | Expire(key: Key)
    | SetPlain(key: Key, value: V)

  predicate ValidHash<V>(h: Hash<V>) {
    && h.entries.Keys !! h.stale
    && (|h.entries| > 0 || |h.stale| > 0)
    && h.maxFields > 0
  }

  predicate ValidBuffer<V>(b: Buffer<V>) {
    forall k :: k in b.hashes ==> ValidHash(b.hashes[k])
  }

  function EmptyBuffer<V>(): Buffer<V> { Buffer(map[], map[]) }

  predicate HasPending<V>(b: Buffer<V>) { |b.hashes| > 0 || |b.plains| > 0 }

  // ---------------------------------------------------------------- queueing

  function PendingFor<V>(b: Buffer<V>, key: Key, maxFields: nat): Hash<V> {
    if key in b.hashes then b.hashes[key].(maxFields := maxFields) else Hash(map[], {}, maxFields)
  }

  function QueueField<V>(b: Buffer<V>, key: Key, field: int, value: V, maxFields: nat): Buffer<V> {
    var p := PendingFor(b, key, maxFields);
    b.(hashes := b.hashes[key := Hash(p.entries[field := value], p.stale - {field}, maxFields)])
  }

  /** Dropping no field leaves the buffer alone; it must not create an empty entry. */
  function QueueDrop<V>(b: Buffer<V>, key: Key, fields: set<int>): Buffer<V> {
    if fields == {} then b
    else
      var p := PendingFor(b, key, MAX_BUFFERED_FRAME_FIELDS);
      b.(hashes := b.hashes[key := Hash(p.entries - fields, p.stale + fields, MAX_BUFFERED_FRAME_FIELDS)])
  }

  function QueuePlain<V>(b: Buffer<V>, key: Key, value: V): Buffer<V> {
    b.(plains := b.plains[key := value])
  }

  // ---------------------------------------------------------------- the store

  function HashAt<V>(st: Store<V>, key: Key): map<int, V> {
    if key in st.hashes then st.hashes[key] else map[]
  }

  function Stored<V>(st: Store<V>, key: Key, field: int): Option<V> {
    var h := HashAt(st, key);
    if field in h then Some(h[field]) else None
  }

  function StoredPlain<V>(st: Store<V>, key: Key): Option<V> {
    if key in st.plains then Some(st.plains[key]) else None
  }

  function ApplyOp<V>(st: Store<V>, op: Op<V>): Store<V> {
    match op
    case HSet(k, fields) => st.(hashes := st.hashes[k := HashAt(st, k) + fields])
    case HDel(k, gone) => st.(hashes := st.hashes[k := HashAt(st, k) - gone])
    case Expire(_) => st
    case SetPlain(k, v) => st.(plains := st.plains[k := v])
  }

  function ApplyOps<V>(st: Store<V>, ops: seq<Op<V>>): Store<V> {
    if ops == [] then st else ApplyOp(ApplyOps(st, ops[..|ops| - 1]), ops[|ops| - 1])
  }

  /** What field (key, field) holds once buffer b is applied on top of `under`. */
  function Overlay<V>(b: Buffer<V>, key: Key, field: int, under: Option<V>): Option<V> {
    if key !in b.hashes then under
    else if field in b.hashes[key].entries then Some(b.hashes[key].entries[field])
    else if field in b.hashes[key].stale then None
    else under
  }

  function OverlayPlain<V>(b: Buffer<V>, key: Key, under: Option<V>): Option<V> {
    if key in b.plains then Some(b.plains[key]) else under
  }

  // ---------------------------------------------------------------- flushing

  /** A queued field is what the key will hold; no other field of any key changes, and sets
      and deletes stay disjoint. */
  lemma QueueFieldReads<V>(b: Buffer<V>, key: Key, field: int, value: V, maxFields: nat)
    ensures var b' := QueueField(b, key, field, value, maxFields);
            && key in b'.hashes && b'.hashes[key].maxFields == maxFields
            && (ValidBuffer(b) && maxFields > 0 ==> ValidBuffer(b'))
            && (forall k, f, under :: Overlay(b', k, f, under) ==
                  if k == key && f == field then Some(value) else Overlay(b, k, f, under))
  {
    var b' := QueueField(b, key, field, value, maxFields);
    QueueFieldValid(b, key, field, value, maxFields);
    forall k, f, under
      ensures Overlay(b', k, f, under) == if k == key && f == field then Some(value) else Overlay(b, k, f, under)
    {
      if k == key { QueueFieldAt(b, key, field, value, maxFields, f, under); }
    }
  }

  lemma QueueFieldValid<V>(b: Buffer<V>, key: Key, field: int, value: V, maxFields: nat)
    ensures ValidBuffer(b) && maxFields > 0 ==> ValidBuffer(QueueField(b, key, field, value, maxFields))
  {
    var h := QueueField(b, key, field, value, maxFields).hashes[key];
    assert field in h.entries.Keys;
  }

  lemma QueueFieldAt<V>(b: Buffer<V>, key: Key, field: int, value: V, maxFields: nat, f: int, under: Option<V>)
    ensures Overlay(QueueField(b, key, field, value, maxFields), key, f, under) ==
            if f == field then Some(value) else Overlay(b, key, f, under)
  {
  }

  /** Dropped fields will be absent; nothing else changes. */
  lemma QueueDropReads<V>(b: Buffer<V>, key: Key, fields: set<int>)
    ensures var b' := QueueDrop(b, key, fields);
            && (ValidBuffer(b) ==> ValidBuffer(b'))
            && (forall k, f, under :: Overlay(b', k, f, under) ==
                  if k == key && f in fields then None else Overlay(b, k, f, under))
  {
    if fields != {} { assert Pick(fields) in QueueDrop(b, key, fields).hashes[key].stale; }
  }

  /** An op that beginFlush may emit for buffer b. */
  predicate OpOf<V(==)>(op: Op<V>, b: Buffer<V>) {
    match op
    case HSet(k, fields) => k in b.hashes && fields == b.hashes[k].entries
    case HDel(k, gone) => k in b.hashes && gone == b.hashes[k].stale
    case Expire(k) => k in b.hashes
    case SetPlain(k, v) => k in b.plains && v == b.plains[k]
  }

  /** ops sends all of b and nothing else, in whatever order the keys are visited. */
  ghost predicate OpsOf<V>(ops: seq<Op<V>>, b: Buffer<V>) {
    && (forall i :: 0 <= i < |ops| ==> OpOf(ops[i], b))
    && (forall k :: k in b.hashes && |b.hashes[k].entries| > 0 ==> HSet(k, b.hashes[k].entries) in ops)
    && (forall k :: k in b.hashes && |b.hashes[k].stale| > 0 ==> HDel(k, b.hashes[k].stale) in ops)
    && (forall k :: k in b.plains ==> SetPlain(k, b.plains[k]) in ops)
  }

  /** st' is st with an arbitrary part of b's writes applied. */
  ghost predicate PartlyApplied<V>(st: Store<V>, b: Buffer<V>, st': Store<V>) {
    && (forall k, f :: Stored(st', k, f) == Stored(st, k, f)
                       || Stored(st', k, f) == Overlay(b, k, f, Stored(st, k, f)))
    && (forall k :: StoredPlain(st', k) == StoredPlain(st, k)
                    || StoredPlain(st', k) == OverlayPlain(b, k, StoredPlain(st, k)))
  }

  ghost predicate FullyApplied<V>(st: Store<V>, b: Buffer<V>, st': Store<V>) {
    && (forall k, f :: Stored(st', k, f) == Overlay(b, k, f, Stored(st, k, f)))
    && (forall k :: StoredPlain(st', k) == OverlayPlain(b, k, StoredPlain(st, k)))
  }

  lemma OpStaysPartial<V>(st: Store<V>, b: Buffer<V>, st': Store<V>, op: Op<V>)
    requires ValidBuffer(b) && OpOf(op, b) && PartlyApplied(st, b, st')
    ensures PartlyApplied(st, b, ApplyOp(st', op))
  {
    var st'' := ApplyOp(st', op);
    forall k, f
      ensures Stored(st'', k, f) == Stored(st', k, f) || Stored(st'', k, f) == Overlay(b, k, f, Stored(st, k, f))
    {
    }
  }

  /** Stopping a flush after any prefix of its commands leaves a partly applied batch. */
  lemma {:induction false} PrefixIsPartial<V>(st: Store<V>, b: Buffer<V>, ops: seq<Op<V>>)
    requires ValidBuffer(b) && forall i :: 0 <= i < |ops| ==> OpOf(ops[i], b)
    ensures PartlyApplied(st, b, ApplyOps(st, ops))
  {
    if ops != [] {
      PrefixIsPartial(st, b, ops[..|ops| - 1]);
      OpStaysPartial(st, b, ApplyOps(st, ops[..|ops| - 1]), ops[|ops| - 1]);
    }
  }

  /** Once sent, a command's effect survives the rest of its batch. */
  lemma {:induction false} EffectPersists<V>(st: Store<V>, b: Buffer<V>, ops: seq<Op<V>>, op: Op<V>)
    requires ValidBuffer(b) && op in ops && forall i :: 0 <= i < |ops| ==> OpOf(ops[i], b)
    ensures var st' := ApplyOps(st, ops);
            match op
            case HSet(k, fields) => forall f :: f in fields ==> Stored(st', k, f) == Some(fields[f])
            case HDel(k, gone) => forall f :: f in gone ==> Stored(st', k, f) == None
            case Expire(_) => true
            case SetPlain(k, v) => StoredPlain(st', k) == Some(v)
  {
    var last := ops[|ops| - 1];
    if op != last {
      EffectPersists(st, b, ops[..|ops| - 1], op);
    }
  }

  /** A flush whose commands all succeed writes exactly the buffer. */
  lemma CompleteFlush<V>(st: Store<V>, b: Buffer<V>, ops: seq<Op<V>>)
    requires ValidBuffer(b) && OpsOf(ops, b)
    ensures FullyApplied(st, b, ApplyOps(st, ops))
  {
    PrefixIsPartial(st, b, ops);
    var st' := ApplyOps(st, ops);
    forall k, f
      ensures Stored(st', k, f) == Overlay(b, k, f, Stored(st, k, f))
    {
      if k in b.hashes {
        if f in b.hashes[k].entries {
          EffectPersists(st, b, ops, HSet(k, b.hashes[k].entries));
        } else if f in b.hashes[k].stale {
          EffectPersists(st, b, ops, HDel(k, b.hashes[k].stale));
        }
      }
    }
    forall k
      ensures StoredPlain(st', k) == OverlayPlain(b, k, StoredPlain(st, k))
    {
      if k in b.plains { EffectPersists(st, b, ops, SetPlain(k, b.plains[k])); }
    }
  }

  /** A non-empty buffer always yields a command, so a flush can never spin on nothing. */
  lemma PendingYieldsCommand<V>(b: Buffer<V>, ops: seq<Op<V>>)
    requires ValidBuffer(b) && OpsOf(ops, b)
    ensures HasPending(b) <==> ops != []
  {
    if ops != [] {
      assert OpOf(ops[0], b);
    } else {
      assert b.hashes.Keys == {} && b.plains.Keys == {};
    }
  }

  // ---------------------------------------------------------------- re-queueing

  function MergeHash<V>(sent: Hash<V>, cur: Hash<V>): Hash<V> {
    var entries := cur.entries + (sent.entries - (cur.entries.Keys + cur.stale));
    Hash(entries, cur.stale + (sent.stale - entries.Keys), cur.maxFields)
  }

  function MergedAt<V>(sent: map<Key, Hash<V>>, cur: map<Key, Hash<V>>, k: Key): Hash<V>
    requires k in sent.Keys + cur.Keys
  {
    if k !in cur then sent[k] else if k !in sent then cur[k] else MergeHash(sent[k], cur[k])
  }

  function MergeHashes<V>(sent: map<Key, Hash<V>>, cur: map<Key, Hash<V>>): map<Key, Hash<V>> {
    map k | k in sent.Keys + cur.Keys :: MergedAt(sent, cur, k)
  }

  /** The failed batch goes back under whatever was queued since. */
  function Merge<V>(sent: Buffer<V>, cur: Buffer<V>): Buffer<V> {
    Buffer(MergeHashes(sent.hashes, cur.hashes), sent.plains + cur.plains)
  }

  /** The least element of a non-empty set. */
  function Least(s: set<int>): (m: int)
    requires s != {}
    ensures m in s && forall x :: x in s ==> m <= x
  {
    LeastExists(s);
    var m :| m in s && forall x :: x in s ==> m <= x;
    m
  }

  lemma {:induction false} LeastExists(s: set<int>)
    requires s != {}
    ensures exists m :: m in s && forall x :: x in s ==> m <= x
  {
    var y := Pick(s);
    var rest := s - {y};
    if rest == {} {
      assert s == {y};
    } else {
      LeastExists(rest);
      var n :| n in rest && forall x :: x in rest ==> n <= x;
      var m := if n <= y then n else y;
      forall x | x in s
        ensures m <= x
      {
        assert x == y || x in rest;
      }
    }
  }

  /** The n numerically smallest fields. */
  function Oldest(s: set<int>, n: nat): (r: set<int>)
    requires n <= |s|
    ensures r <= s && |r| == n
    ensures forall x, y :: x in r && y in s - r ==> x < y
  {
    if n == 0 then {}
    else
      var m := Least(s);
      var rest := Oldest(s - {m}, n - 1);
      assert forall y :: y in s - ({m} + rest) ==> y in (s - {m}) - rest;
      {m} + rest
  }

  /** The fields of h that the backlog cap gives up. */
  function Excess<V>(h: Hash<V>): set<int> {
    if |h.entries| > h.maxFields then Oldest(h.entries.Keys, |h.entries| - h.maxFields) else {}
  }

  function CapHash<V>(h: Hash<V>): Hash<V> { h.(entries := h.entries - Excess(h)) }

  lemma CapHashSize<V>(h: Hash<V>)
    ensures |CapHash(h).entries| <= h.maxFields
    ensures |h.entries| > h.maxFields ==> |CapHash(h).entries| == h.maxFields
  {
    var kept := h.entries - Excess(h);
    assert kept.Keys == h.entries.Keys - Excess(h);
    assert |kept.Keys| == |h.entries.Keys| - |Excess(h)|;
  }

  function CapHashes<V>(m: map<Key, Hash<V>>): map<Key, Hash<V>> { map k | k in m :: CapHash(m[k]) }

  function Cap<V>(b: Buffer<V>): Buffer<V> { b.(hashes := CapHashes(b.hashes)) }

  function Requeue<V>(sent: Buffer<V>, cur: Buffer<V>): Buffer<V> { Cap(Merge(sent, cur)) }

  lemma MergeHashValid<V>(sent: Hash<V>, cur: Hash<V>)
    requires ValidHash(sent) && ValidHash(cur)
    ensures ValidHash(MergeHash(sent, cur))
  {
    var m := MergeHash(sent, cur);
    assert cur.entries.Keys <= m.entries.Keys && cur.stale <= m.stale;
    if |cur.entries.Keys| > 0 {
      assert m.entries.Keys != {};
    } else {
      assert m.stale != {};
    }
  }

  lemma MergeValid<V>(sent: Buffer<V>, cur: Buffer<V>)
    requires ValidBuffer(sent) && ValidBuffer(cur)
    ensures ValidBuffer(Merge(sent, cur))
  {
    var m := Merge(sent, cur);
    forall k | k in m.hashes
      ensures ValidHash(m.hashes[k])
    {
      if k in sent.hashes && k in cur.hashes { MergeHashValid(sent.hashes[k], cur.hashes[k]); }
    }
  }

  lemma CapValid<V>(b: Buffer<V>)
    requires ValidBuffer(b)
    ensures ValidBuffer(Cap(b))
  {
    forall k | k in b.hashes
      ensures ValidHash(CapHash(b.hashes[k]))
    {
      CapHashSize(b.hashes[k]);
      assert ValidHash(b.hashes[k]);
    }
  }

  /** Whatever part of the failed batch reached the store, the merged buffer over that
      store reads as: the store before the flush, then the batch, then the newer writes. */
  lemma MergeRefines<V>(st: Store<V>, sent: Buffer<V>, cur: Buffer<V>, st': Store<V>, k: Key, f: int)
    requires ValidBuffer(sent) && ValidBuffer(cur) && PartlyApplied(st, sent, st')
    ensures Overlay(Merge(sent, cur), k, f, Stored(st', k, f))
         == Overlay(cur, k, f, Overlay(sent, k, f, Stored(st, k, f)))
    ensures OverlayPlain(Merge(sent, cur), k, StoredPlain(st', k))
         == OverlayPlain(cur, k, OverlayPlain(sent, k, StoredPlain(st, k)))
  {
    MergeReads(sent, cur, k, f, Stored(st, k, f), Stored(st', k, f));
  }

  lemma MergeReads<V>(sent: Buffer<V>, cur: Buffer<V>, k: Key, f: int, under: Option<V>, under': Option<V>)
    requires ValidBuffer(sent) && ValidBuffer(cur)
    requires under' == under || under' == Overlay(sent, k, f, under)
    ensures Overlay(Merge(sent, cur), k, f, under') == Overlay(cur, k, f, Overlay(sent, k, f, under))
  {
    if k in sent.hashes && k in cur.hashes {
      MergeHashReads(sent.hashes[k], cur.hashes[k], f);
    }
  }

  /** The limit named last is the one that counts. */
  lemma MergeKeepsLimit<V>(sent: Buffer<V>, cur: Buffer<V>, k: Key)
    requires k in sent.hashes.Keys + cur.hashes.Keys
    ensures Merge(sent, cur).hashes[k].maxFields
         == if k in cur.hashes then cur.hashes[k].maxFields else sent.hashes[k].maxFields
  {
  }

  lemma MergeHashReads<V>(sent: Hash<V>, cur: Hash<V>, f: int)
    requires ValidHash(sent) && ValidHash(cur)
    ensures var m := MergeHash(sent, cur);
            && (f in m.entries <==> f in cur.entries || (f in sent.entries && f !in cur.stale))
            && (f in cur.entries ==> m.entries[f] == cur.entries[f])
            && (f in m.entries && f !in cur.entries ==> m.entries[f] == sent.entries[f])
            && (f in m.stale <==> f in cur.stale || (f in sent.stale && f !in cur.entries))
  {
  }

  /** The cap gives up exactly the Excess fields: every other field keeps its buffered
      write or deletion, and a given-up field falls through to the store. */
  lemma CapLosesExactly<V>(b: Buffer<V>, k: Key, f: int, under: Option<V>)
    requires ValidBuffer(b)
    ensures Overlay(Cap(b), k, f, under)
         == if k in b.hashes && f in Excess(b.hashes[k]) then under else Overlay(b, k, f, under)
    ensures OverlayPlain(Cap(b), k, under) == OverlayPlain(b, k, under)
  {
    if k in b.hashes { assert ValidHash(b.hashes[k]); }
  }
}
