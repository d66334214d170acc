/** The tombstoned insertion-ordered map (internal/analytics/js.go). */
module OrderedMap {
  import opened Base

  // ---------------------------------------------------------------- the abstract map

  /** Keys in order of insertion, and their values. */
  datatype Contents<K, V> = Contents(order: seq<K>, vals: map<K, V>)

  datatype Op<K, V> = SetOp(key: K, value: V) | DeleteOp(key: K)

  function Without<K(==)>(s: seq<K>, k: K): seq<K> {
    if s == [] then []
    else
      var rest := Without(s[..|s| - 1], k);
      if s[|s| - 1] == k then rest else rest + [s[|s| - 1]]
  }

  function Apply<K, V>(m: Contents<K, V>, op: Op<K, V>): Contents<K, V> {
    match op
    case SetOp(k, v) => Contents(if k in m.vals then m.order else m.order + [k], m.vals[k := v])
    case DeleteOp(k) => Contents(Without(m.order, k), m.vals - {k})
  }

  function ApplyAll<K, V>(ops: seq<Op<K, V>>): Contents<K, V> {
    if ops == [] then Contents([], map[]) else Apply(ApplyAll(ops[..|ops| - 1]), ops[|ops| - 1])
  }

  ghost predicate WellFormed<K, V>(m: Contents<K, V>) {
    Distinct(m.order) && (forall k :: k in m.order ==> k in m.vals) && (forall k :: k in m.vals ==> k in m.order)
  }

  lemma {:induction false} WithoutKeeps<K>(s: seq<K>, k: K)
    requires Distinct(s)
    ensures Distinct(Without(s, k)) && forall x :: x in Without(s, k) <==> x in s && x != k
  {
    if s != [] {
      var init, last := s[..|s| - 1], s[|s| - 1];
      WithoutKeeps(init, k);
      assert last !in init;
      assert forall x :: x in s <==> x in init || x == last;
    }
  }

  lemma {:induction false} WithoutAbsent<K>(s: seq<K>, k: K)
    requires k !in s
    ensures Without(s, k) == s
  {
    if s != [] { WithoutAbsent(s[..|s| - 1], k); }
  }

  // ---------------------------------------------------------------- order of insertion

  /** What the last operation on k, if any, left. */
  function Present<K(==), V>(ops: seq<Op<K, V>>, k: K): Option<V> {
    if ops == [] then None
    else
      var op := ops[|ops| - 1];
      if op.key != k then Present(ops[..|ops| - 1], k)
      else if op.SetOp? then Some(op.value) else None
  }

  /** When k was inserted: the last Set that found it absent. */
  function Born<K(==), V>(ops: seq<Op<K, V>>, k: K): nat {
    if ops == [] then 0
    else
      var before, op := ops[..|ops| - 1], ops[|ops| - 1];
      if op.key == k && op.SetOp? && Present(before, k).None? then |ops| else Born(before, k)
  }

  lemma {:induction false} BornInTime<K, V>(ops: seq<Op<K, V>>, k: K)
    ensures Born(ops, k) <= |ops|
  {
    if ops != [] { BornInTime(ops[..|ops| - 1], k); }
  }

  ghost predicate ByBirth<K, V>(s: seq<K>, ops: seq<Op<K, V>>) {
    forall i, j :: 0 <= i < j < |s| ==> Born(ops, s[i]) < Born(ops, s[j])
  }

  lemma {:induction false} WithoutByBirth<K, V>(s: seq<K>, k: K, ops: seq<Op<K, V>>)
    requires ByBirth(s, ops)
    ensures ByBirth(Without(s, k), ops)
    ensures forall x :: x in Without(s, k) ==> x in s && x != k
  {
    if s != [] {
      var init, last := s[..|s| - 1], s[|s| - 1];
      WithoutByBirth(init, k, ops);
      forall x | x in init
        ensures Born(ops, x) < Born(ops, last)
      {
        var i :| 0 <= i < |init| && init[i] == x;
        assert s[i] == x;
      }
    }
  }

  /** After any operations: each key holds the value last set since it was last deleted, no
      key is listed twice, and the keys stand in the order of their insertions, where setting
      a present key keeps its place and deleting and setting again moves it to the end. */
  lemma {:induction false} InsertionOrder<K, V>(ops: seq<Op<K, V>>)
    ensures var m := ApplyAll(ops);
            && WellFormed(m) && ByBirth(m.order, ops)
            && forall k :: Present(ops, k) == if k in m.vals then Some(m.vals[k]) else None
  {
    if ops != [] {
      var before, op := ops[..|ops| - 1], ops[|ops| - 1];
      InsertionOrder(before);
      var m := ApplyAll(before);
      match op
      case SetOp(k, v) =>
        forall x | x in m.order
          ensures Born(ops, x) == Born(before, x) < |ops|
        {
          BornInTime(before, x);
        }
        if k !in m.vals { assert Born(ops, k) == |ops|; }
      case DeleteOp(k) =>
        WithoutKeeps(m.order, k);
        WithoutByBirth(m.order, k, before);
        var s := Without(m.order, k);
        assert forall x :: Born(ops, x) == Born(before, x);
    }
  }

  // ---------------------------------------------------------------- tombstones

  /** The live keys in order. */
  function Live<K>(keys: seq<K>, alive: seq<bool>): seq<K>
    requires |keys| == |alive|
  {
    if keys == [] then []
    else
      var n := |keys| - 1;
      Live(keys[..n], alive[..n]) + if alive[n] then [keys[n]] else []
  }

  function Dead(alive: seq<bool>): nat {
    if alive == [] then 0 else Dead(alive[..|alive| - 1]) + if alive[|alive| - 1] then 0 else 1
  }

  lemma {:induction false} LiveAndDead<K>(keys: seq<K>, alive: seq<bool>)
    requires |keys| == |alive|
    ensures |Live(keys, alive)| + Dead(alive) == |keys|
    ensures forall k :: k in Live(keys, alive) <==> exists i :: 0 <= i < |keys| && alive[i] && keys[i] == k
  {
    if keys != [] {
      var n := |keys| - 1;
      LiveAndDead(keys[..n], alive[..n]);
      assert forall i :: 0 <= i < n ==> keys[..n][i] == keys[i] && alive[..n][i] == alive[i];
      forall k
        ensures k in Live(keys, alive) <==> exists i :: 0 <= i < |keys| && alive[i] && keys[i] == k
      {
        if k in Live(keys[..n], alive[..n]) {
          var i :| 0 <= i < n && alive[..n][i] && keys[..n][i] == k;
          assert alive[i] && keys[i] == k;
        }
        if i :| 0 <= i < |keys| && alive[i] && keys[i] == k {
          if i < n { assert alive[..n][i] && keys[..n][i] == k; }
        }
      }
    }
  }

  lemma WithoutSnoc<K>(s: seq<K>, x: K, k: K)
    ensures Without(s + [x], k) == Without(s, k) + if x == k then [] else [x]
  {
    assert (s + [x])[..|s|] == s;
  }

  lemma NotBefore<K>(keys: seq<K>, alive: seq<bool>, i: nat)
    requires |keys| == |alive| && i < |keys| && alive[i]
    requires forall j :: 0 <= j < |keys| && alive[j] && keys[j] == keys[i] ==> j == i
    ensures keys[i] !in Live(keys[..i], alive[..i])
  {
    LiveAndDead(keys[..i], alive[..i]);
  }

  lemma LiveSnoc<K>(keys: seq<K>, alive: seq<bool>, k: K, here: bool)
    requires |keys| == |alive|
    ensures Live(keys + [k], alive + [here]) == Live(keys, alive) + if here then [k] else []
    ensures Dead(alive + [here]) == Dead(alive) + if here then 0 else 1
  {
    assert (keys + [k])[..|keys|] == keys && (alive + [here])[..|keys|] == alive;
  }

  lemma BuryLast<K>(ks: seq<K>, al: seq<bool>, k: K)
    requires |ks| == |al| && k !in Live(ks, al)
    ensures Live(ks + [k], al + [false]) == Without(Live(ks + [k], al + [true]), k)
  {
    LiveSnoc(ks, al, k, false);
    LiveSnoc(ks, al, k, true);
    WithoutSnoc(Live(ks, al), k, k);
    WithoutAbsent(Live(ks, al), k);
  }

  lemma BuryEarlier<K>(ks: seq<K>, al: seq<bool>, buried: seq<bool>, k: K, here: bool, gone: K)
    requires |ks| == |al| == |buried| && Live(ks, buried) == Without(Live(ks, al), gone)
    requires here ==> k != gone
    ensures Live(ks + [k], buried + [here]) == Without(Live(ks + [k], al + [here]), gone)
  {
    LiveSnoc(ks, al, k, here);
    LiveSnoc(ks, buried, k, here);
    WithoutSnoc(Live(ks, al), k, gone);
    if !here { assert Live(ks, al) + [] == Live(ks, al); }
  }

  /** Marking the only live entry of a key dead removes it from the order. */
  lemma {:induction false} BuryRemoves<K>(keys: seq<K>, alive: seq<bool>, i: nat)
    requires |keys| == |alive| && i < |keys| && alive[i]
    requires forall j :: 0 <= j < |keys| && alive[j] && keys[j] == keys[i] ==> j == i
    ensures Live(keys, alive[i := false]) == Without(Live(keys, alive), keys[i])
  {
    var n := |keys| - 1;
    var ks, al, k := keys[..n], alive[..n], keys[n];
    assert keys == ks + [k] && alive == al + [alive[n]];
    if i == n {
      assert alive[i := false] == al + [false];
      NotBefore(keys, alive, n);
      BuryLast(ks, al, k);
    } else {
      BuryRemoves(ks, al, i);
      assert alive[i := false] == al[i := false] + [alive[n]];
      BuryEarlier(ks, al, al[i := false], k, alive[n], keys[i]);
    }
  }

  lemma {:induction false} BuryCounts(alive: seq<bool>, i: nat)
    requires i < |alive| && alive[i]
    ensures Dead(alive[i := false]) == Dead(alive) + 1
  {
    var n := |alive| - 1;
    if i < n {
      assert alive[i := false][..n] == alive[..n][i := false];
      BuryCounts(alive[..n], i);
    } else {
      assert alive[i := false][..n] == alive[..n];
    }
  }

  lemma {:induction false} AllAlive<K>(keys: seq<K>, alive: seq<bool>)
    requires |keys| == |alive| && forall i :: 0 <= i < |alive| ==> alive[i]
    ensures Live(keys, alive) == keys && Dead(alive) == 0
  {
    if keys != [] {
      var n := |keys| - 1;
      AllAlive(keys[..n], alive[..n]);
      assert keys == keys[..n] + [keys[n]];
    }
  }

  // ---------------------------------------------------------------- the object

  class OMap<K(==), V> {
    var keys: seq<K>
    var alive: seq<bool>
    var pos: map<K, nat>
    var vals: map<K, V>
    var dead: nat

    /** pos points at the one live entry of each key present. */
    ghost predicate Indexed()
      reads this
    {
      && |keys| == |alive|
      && pos.Keys == vals.Keys
      && (forall k :: k in pos ==> pos[k] < |keys| && keys[pos[k]] == k && alive[pos[k]])
      && (forall i :: 0 <= i < |keys| && alive[i] ==> keys[i] in pos && pos[keys[i]] == i)
    }

    ghost predicate Valid()
      reads this
    {
      Indexed() && dead == Dead(alive) && (dead <= 32 || dead * 2 <= |keys|)
    }

    ghost function Abstract(): Contents<K, V>
      requires |keys| == |alive|
      reads this
    {
      Contents(Live(keys, alive), vals)
    }

    constructor ()
      ensures Valid() && Abstract() == ApplyAll([])
    {
      keys, alive, pos, vals, dead := [], [], map[], map[], 0;
    }

    /** The backing array never exceeds the live entries plus the larger of 32 and their number. */
    lemma Bounded()
      requires Valid()
      ensures |keys| <= |vals| + Max(32, |vals|)
      ensures |Live(keys, alive)| == |vals|
    {
      LiveAndDead(keys, alive);
      LiveDistinct(keys, alive);
      DistinctCount(Live(keys, alive));
      assert Elements(Live(keys, alive)) == vals.Keys;
    }

    method Set(k: K, v: V)
      requires Valid()
      modifies this
      ensures Valid() && Abstract() == Apply(old(Abstract()), SetOp(k, v))
    {
      if k !in vals {
        pos := pos[k := |keys|];
        keys := keys + [k];
        alive := alive + [true];
        assert keys[..|keys| - 1] == old(keys) && alive[..|alive| - 1] == old(alive);
      }
      vals := vals[k := v];
    }

    method Delete(k: K)
      requires Valid()
      modifies this
      ensures Valid() && Abstract() == Apply(old(Abstract()), DeleteOp(k))
    {
      if k !in pos {
        LiveAndDead(keys, alive);
        WithoutAbsent(Live(keys, alive), k);
        assert vals - {k} == vals;
        return;
      }
      Bury(k);
      if dead > 32 && dead * 2 > |keys| { Compact(); }
    }

    /** Leave a tombstone where k stands. */
    method Bury(k: K)
      requires Indexed() && k in pos && dead == Dead(alive)
      modifies this`pos, this`vals, this`alive, this`dead
      ensures Indexed() && dead == Dead(alive)
      ensures Abstract() == Apply(old(Abstract()), DeleteOp(k))
    {
      var i := pos[k];
      BuryRemoves(keys, alive, i);
      BuryCounts(alive, i);
      pos, vals, alive, dead := pos - {k}, vals - {k}, alive[i := false], dead + 1;
    }

    lemma PresentAreLive()
      requires Indexed()
      ensures forall k :: k in pos ==> k in Live(keys, alive)
    {
      LiveAndDead(keys, alive);
    }

    /** The loop of compact: the live keys close up and their positions follow. */
    method CloseUp() returns (kept: seq<K>, index: map<K, nat>)
      requires Indexed()
      ensures kept == Live(keys, alive) && index.Keys == pos.Keys
      ensures forall j :: 0 <= j < |kept| ==> kept[j] in index && index[kept[j]] == j
    {
      kept, index := [], pos;
      assert keys[..0] == [] && alive[..0] == [];
      for i := 0 to |keys|
        invariant kept == Live(keys[..i], alive[..i]) && index.Keys == pos.Keys
        invariant forall j :: 0 <= j < |kept| ==> kept[j] in index && index[kept[j]] == j
      {
        assert keys[..i + 1][..i] == keys[..i] && alive[..i + 1][..i] == alive[..i];
        if alive[i] {
          NotBefore(keys, alive, i);
          index := index[keys[i] := |kept|];
          kept := kept + [keys[i]];
        }
      }
      assert keys[..|keys|] == keys && alive[..|alive|] == alive;
    }

    method Compact()
      requires Indexed()
      modifies this
      ensures Valid() && Abstract() == old(Abstract()) && dead == 0
    {
      PresentAreLive();
      var kept, index := CloseUp();
      forall k | k in index
        ensures index[k] < |kept| && kept[index[k]] == k
      {
        var j :| 0 <= j < |kept| && kept[j] == k;
      }
      keys, pos, alive, dead := kept, index, seq(|kept|, _ => true), 0;
      AllAlive(keys, alive);
    }

    /** The live keys in insertion order. */
    method Keys() returns (out: seq<K>)
      requires Valid()
      ensures out == Abstract().order
    {
      out := [];
      assert keys[..0] == [] && alive[..0] == [];
      for i := 0 to |keys|
        invariant out == Live(keys[..i], alive[..i])
      {
        assert keys[..i + 1][..i] == keys[..i] && alive[..i + 1][..i] == alive[..i];
        if alive[i] { out := out + [keys[i]]; }
      }
      assert keys[..|keys|] == keys && alive[..|alive|] == alive;
    }

    /** The values in key order. */
    method Values() returns (out: seq<V>)
      requires Valid()
      ensures var order := Abstract().order;
              |out| == |order| && forall i :: 0 <= i < |out| ==> order[i] in vals && out[i] == vals[order[i]]
    {
      out := [];
      assert keys[..0] == [] && alive[..0] == [];
      for i := 0 to |keys|
        invariant var order := Live(keys[..i], alive[..i]);
                  |out| == |order| && forall j :: 0 <= j < |out| ==> order[j] in vals && out[j] == vals[order[j]]
      {
        assert keys[..i + 1][..i] == keys[..i] && alive[..i + 1][..i] == alive[..i];
        if alive[i] { out := out + [vals[keys[i]]]; }
      }
      assert keys[..|keys|] == keys && alive[..|alive|] == alive;
    }

    method Get(k: K) returns (v: Option<V>)
      requires Valid()
      ensures v == if k in Abstract().vals then Some(Abstract().vals[k]) else None
    {
      v := if k in vals then Some(vals[k]) else None;
    }
  }

  /** Live keys are distinct when each key has one live entry. */
  lemma {:induction false} LiveDistinct<K>(keys: seq<K>, alive: seq<bool>)
    requires |keys| == |alive|
    requires forall i, j :: 0 <= i < j < |keys| && alive[i] && alive[j] ==> keys[i] != keys[j]
    ensures Distinct(Live(keys, alive))
  {
    if keys != [] {
      var n := |keys| - 1;
      var ks, al := keys[..n], alive[..n];
      LiveDistinct(ks, al);
      LiveAndDead(ks, al);
      assert alive[n] ==> keys[n] !in Live(ks, al);
    }
  }
}
