/** The loops behind module Query, byte by byte and segment by segment. */
module QueryLoops {
  import opened Base
  import opened Utf8
  import opened Utf8Decoder
  import opened Query

  lemma {:induction false} FormEncodeAppends(s: Bytes, c: Byte)
    ensures FormEncode(s + [c]) == FormEncode(s) + FormByte(c)
  {
    if s == [] {
      assert s + [c] == [c] && [c][1..] == [];
    } else {
      assert (s + [c])[1..] == s[1..] + [c];
      FormEncodeAppends(s[1..], c);
    }
  }

  /** formEncode. */
  method FormEncodeText(s: Bytes) returns (r: Bytes)
    ensures r == FormEncode(s)
  {
    r := [];
    for i := 0 to |s|
      invariant r == FormEncode(s[..i])
    {
      var c := s[i];
      FormEncodeAppends(s[..i], c);
      assert s[..i + 1] == s[..i] + [c];
      if IsAlnum(c) || c == 0x2A || c == 0x2D || c == 0x2E || c == 0x5F {
        r := r + [c];
      } else if c == SPACE {
        r := r + [PLUS];
      } else {
        r := r + [PERCENT, HexDigit(c / 16), HexDigit(c % 16)];
      }
    }
    assert s[..|s|] == s;
  }

  /** The escape at position i, as the loops test for it. */
  predicate EscapeAt(s: Bytes, i: nat) {
    i + 2 < |s| && s[i] == PERCENT && IsHex(s[i + 1]) && IsHex(s[i + 2])
  }

  function ByteAt(s: Bytes, i: nat): Byte
    requires EscapeAt(s, i)
  {
    Unhex(s[i + 1]) * 16 + Unhex(s[i + 2])
  }

  lemma PercentDecodeStep(done: Bytes, s: Bytes, i: nat)
    requires i < |s|
    ensures done + PercentDecode(s[i..]) ==
            if EscapeAt(s, i) then (done + [ByteAt(s, i)]) + PercentDecode(s[i + 3..])
            else (done + [s[i]]) + PercentDecode(s[i + 1..])
  {
    assert s[i..][1..] == s[i + 1..];
    if EscapeAt(s, i) { assert s[i..][3..] == s[i + 3..]; }
  }

  lemma OnePassStep(done: Bytes, s: Bytes, i: nat)
    requires i < |s|
    ensures done + OnePass(s[i..]) ==
            if s[i] == PLUS then (done + [SPACE]) + OnePass(s[i + 1..])
            else if EscapeAt(s, i) then (done + [ByteAt(s, i)]) + OnePass(s[i + 3..])
            else (done + [s[i]]) + OnePass(s[i + 1..])
  {
    assert s[i..][1..] == s[i + 1..];
    if EscapeAt(s, i) { assert s[i..][3..] == s[i + 3..]; }
  }

  /** unescapeQuery, two passes with the shortcut when nothing is escaped. */
  method UnescapeQuery(text: Bytes) returns (r: Bytes)
    ensures r == Unescape(text)
  {
    var s := Spaced(text);
    if PERCENT !in s {
      NothingEscaped(s);
      return s;
    }
    r := [];
    var i := 0;
    assert s[0..] == s;
    while i < |s|
      invariant 0 <= i <= |s| && r + PercentDecode(s[i..]) == PercentDecode(s)
    {
      PercentDecodeStep(r, s, i);
      if EscapeAt(s, i) {
        r := r + [ByteAt(s, i)];
        i := i + 3;
      } else {
        r := r + [s[i]];
        i := i + 1;
      }
    }
    assert s[i..] == [];
  }

  lemma {:induction false} NothingEscaped(s: Bytes)
    requires PERCENT !in s
    ensures PercentDecode(s) == s
  {
    if s != [] {
      NothingEscaped(s[1..]);
      assert s == [s[0]] + s[1..];
    }
  }

  /** decodeQueryComponent. */
  method DecodeQueryComponent(s: Bytes) returns (r: Bytes)
    ensures r == DecodeComponent(s)
  {
    if PLUS !in s && PERCENT !in s { return s; }
    var b: Bytes := [];
    var i := 0;
    assert s[0..] == s;
    while i < |s|
      invariant 0 <= i <= |s| && b + OnePass(s[i..]) == OnePass(s)
    {
      OnePassStep(b, s, i);
      if s[i] == PLUS {
        b := b + [SPACE];
        i := i + 1;
      } else if EscapeAt(s, i) {
        b := b + [ByteAt(s, i)];
        i := i + 3;
      } else {
        b := b + [s[i]];
        i := i + 1;
      }
    }
    assert s[i..] == [] && b == OnePass(s);
    r := DecodeUTF8(b);
  }

  lemma CollectNext(segments: seq<Bytes>, i: nat, key: Bytes, unescape: Bytes -> Bytes)
    requires i < |segments|
    ensures var seg, sofar := segments[i], Collect(segments[..i], key, unescape);
            Collect(segments[..i + 1], key, unescape) ==
            sofar + if seg != [] && unescape(Before(seg, EQUALS)) == key then [unescape(Beyond(seg, EQUALS))] else []
  {
    assert segments[..i + 1][..i] == segments[..i];
  }

  /** One segment of queryValues. */
  method ReadSegment(seg: Bytes, key: Bytes, before: seq<Bytes>) returns (values: seq<Bytes>)
    ensures values == before + if seg != [] && Unescape(Before(seg, EQUALS)) == key
                               then [Unescape(Beyond(seg, EQUALS))] else []
  {
    values := before;
    if seg == [] { return; }
    var k := UnescapeQuery(Before(seg, EQUALS));
    if k == key {
      var v := UnescapeQuery(Beyond(seg, EQUALS));
      values := values + [v];
    }
  }

  /** queryValues. */
  method QueryValues(raw: Bytes, key: Bytes) returns (values: seq<Bytes>)
    ensures values == ValuesIn(raw, key, Unescape)
  {
    values := [];
    if raw == [] { return; }
    values := ReadSegments(Split(raw, AMPERSAND), key);
  }

  method ReadSegments(segments: seq<Bytes>, key: Bytes) returns (values: seq<Bytes>)
    requires |segments| > 0
    ensures values == Collect(FirstPairs(segments), key, Unescape)
  {
    values := [];
    var pairs := MAX_PAIRS;
    var i := 0;
    while true
      invariant 0 <= i < |segments| && pairs == MAX_PAIRS - i && pairs > 0
      invariant values == Collect(segments[..i], key, Unescape)
      decreases |segments| - i
    {
      CollectNext(segments, i, key, Unescape);
      values := ReadSegment(segments[i], key, values);
      assert values == Collect(segments[..i + 1], key, Unescape);
      if i == |segments| - 1 {
        assert segments[..i + 1] == FirstPairs(segments);
        return;
      }
      pairs := pairs - 1;
      if pairs == 0 {
        assert segments[..i + 1] == FirstPairs(segments);
        return;
      }
      i := i + 1;
    }
  }

  /** What parseQuery has put into its table after some of the segments. */
  ghost predicate Tabulates(table: map<Bytes, seq<Bytes>>, segments: seq<Bytes>) {
    forall key :: (if key in table then table[key] else []) == Collect(segments, key, DecodeComponent)
  }

  lemma TabulatesNext(table: map<Bytes, seq<Bytes>>, segments: seq<Bytes>, seg: Bytes)
    requires Tabulates(table, segments)
    ensures seg == [] ==> Tabulates(table, segments + [seg])
    ensures seg != [] ==>
              var k, v := DecodeComponent(Before(seg, EQUALS)), DecodeComponent(Beyond(seg, EQUALS));
              Tabulates(table[k := (if k in table then table[k] else []) + [v]], segments + [seg])
  {
    assert (segments + [seg])[..|segments|] == segments;
  }

  predicate NoEmptyLists(table: map<Bytes, seq<Bytes>>) { forall key :: key in table ==> table[key] != [] }

  /** One segment of parseQuery. */
  method TableSegment(seg: Bytes, before: map<Bytes, seq<Bytes>>, ghost segments: seq<Bytes>)
    returns (table: map<Bytes, seq<Bytes>>)
    requires Tabulates(before, segments) && NoEmptyLists(before)
    ensures Tabulates(table, segments + [seg]) && NoEmptyLists(table)
  {
    table := before;
    TabulatesNext(before, segments, seg);
    if seg == [] { return; }
    var k := DecodeQueryComponent(Before(seg, EQUALS));
    var v := DecodeQueryComponent(Beyond(seg, EQUALS));
    table := table[k := (if k in table then table[k] else []) + [v]];
  }

  /** parseQuery: the whole table, every key at once. */
  method ParseQuery(raw: Bytes) returns (table: map<Bytes, seq<Bytes>>)
    ensures forall key :: (if key in table then table[key] else []) == ValuesIn(raw, key, DecodeComponent)
    ensures NoEmptyLists(table)
  {
    table := map[];
    if raw == [] { return; }
    var segments := Split(raw, AMPERSAND);
    var pairs := MAX_PAIRS;
    var i := 0;
    while i < |segments| && pairs > 0
      invariant 0 <= i <= |segments| && pairs == MAX_PAIRS - i && pairs >= 0
      invariant Tabulates(table, segments[..i]) && NoEmptyLists(table)
    {
      assert segments[..i + 1] == segments[..i] + [segments[i]];
      table := TableSegment(segments[i], table, segments[..i]);
      pairs := pairs - 1;
      i := i + 1;
    }
    assert segments[..i] == FirstPairs(segments);
  }
}
