/** decodeUTF8 (internal/core/jsreq.go): the state machine of section 8.1.1 of the WHATWG
    Encoding Standard, which looks again at a byte that breaks a sequence, proved against the
    maximal-subpart rule stated with the encoding alone. */
module Utf8Decoder {
  import opened Base
  import opened Utf8

  datatype Machine = Machine(needed: nat, seen: nat, lower: Byte, upper: Byte, cp: nat)

  const GROUND: Machine := Machine(0, 0, 0x80, 0xBF, 0)

  /** One pass of the loop: what is written, the next state, and whether the byte is used up. */
  datatype Turn = Turn(out: seq<int>, next: Machine, used: bool)

  function Lead(m: Machine, c: Byte): Turn {
    if c <= 0x7F then Turn([c], m, true)
    else if 0xC2 <= c <= 0xDF then Turn([], m.(needed := 1, cp := c % 32), true)
    else if 0xE0 <= c <= 0xEF then
      Turn([], m.(lower := if c == 0xE0 then 0xA0 else m.lower, upper := if c == 0xED then 0x9F else m.upper,
                  needed := 2, cp := c % 16), true)
    else if 0xF0 <= c <= 0xF4 then
      Turn([], m.(lower := if c == 0xF0 then 0x90 else m.lower, upper := if c == 0xF4 then 0x8F else m.upper,
                  needed := 3, cp := c % 8), true)
    else Turn([REPLACEMENT], m, true)
  }

  function Next(m: Machine, c: Byte): Turn {
    if m.needed == 0 then Lead(m, c)
    else if c < m.lower || c > m.upper then Turn([REPLACEMENT], GROUND, false)
    else
      var cp := m.cp * 64 + c % 64;
      if m.seen + 1 == m.needed then Turn([cp], GROUND, true)
      else Turn([], Machine(m.needed, m.seen + 1, 0x80, 0xBF, cp), true)
  }

  /** The loop from state m over what is left of the input. */
  function Run(m: Machine, b: seq<Byte>): seq<int>
    decreases |b|, m.needed
  {
    if b == [] then Flush(m)
    else
      var turn := Next(m, b[0]);
      turn.out + Run(turn.next, if turn.used then b[1..] else b)
  }

  /** What the end of input writes. */
  function Flush(m: Machine): seq<int> { if m.needed != 0 then [REPLACEMENT] else [] }

  function Decode(b: seq<Byte>): seq<int> { Run(GROUND, b) }

  // ---------------------------------------------------------------- the rule

  predicate IsScalar(x: int) { 0 <= x <= 0x10FFFF && !(0xD800 <= x <= 0xDFFF) }

  /** The longest prefix of b, of length at most n, that begins some character. */
  ghost function Longest(b: seq<Byte>, n: nat): (k: nat)
    requires n <= |b|
    ensures k <= n
  {
    if n == 0 || Begins(b[..n]) then n else Longest(b, n - 1)
  }

  /** The maximal-subpart rule: take the longest beginning of a character; if it is a whole
      one it is read, and otherwise it is replaced, or one byte when nothing begins there. */
  ghost predicate Decodes(b: seq<Byte>, s: seq<int>) {
    if b == [] then s == []
    else
      var n := Longest(b, |b|);
      && s != [] && IsScalar(s[0])
      && if n > 0 && Whole(b[..n]) then Encode(s[0]) == b[..n] && Decodes(b[n..], s[1..])
         else s[0] == REPLACEMENT && Decodes(b[Max(1, n)..], s[1..])
  }

  // ---------------------------------------------------------------- machine and table

  /** A beginning that is not yet a whole character. */
  predicate Pending(p: seq<Byte>) { InTable(p) && (p == [] || |p| < 1 + Tail(p[0])) }

  /** The state in which the machine has read p. */
  function Reading(p: seq<Byte>): Machine
    requires Pending(p)
  {
    if p == [] then GROUND
    else if |p| == 1 then Machine(Tail(p[0]), 0, Low(p[0]), High(p[0]), Bits(p))
    else Machine(Tail(p[0]), |p| - 1, 0x80, 0xBF, Bits(p))
  }

  lemma LeadFollows(c: Byte)
    ensures Pending([c]) ==> Next(GROUND, c) == Turn([], Reading([c]), true)
    ensures InTable([c]) && !Pending([c]) ==> Next(GROUND, c) == Turn([Bits([c])], GROUND, true)
    ensures !InTable([c]) ==> Next(GROUND, c) == Turn([REPLACEMENT], GROUND, true)
  {
  }

  lemma TailFollows(p: seq<Byte>, c: Byte)
    requires p != [] && Pending(p)
    ensures Pending(p + [c]) ==> Next(Reading(p), c) == Turn([], Reading(p + [c]), true)
    ensures InTable(p + [c]) && !Pending(p + [c]) ==> Next(Reading(p), c) == Turn([Bits(p + [c])], GROUND, true)
    ensures !InTable(p + [c]) ==> Next(Reading(p), c) == Turn([REPLACEMENT], GROUND, false)
  {
    var q := p + [c];
    assert q[..|q| - 1] == p;
    assert Bits(q) == Bits(p) * 64 + c % 64;
    assert InTable(q) <==> Reading(p).lower <= c <= Reading(p).upper;
  }

  /** One turn from a state the machine can be in. */
  lemma TurnFollows(p: seq<Byte>, c: Byte)
    requires Pending(p)
    ensures var turn := Next(Reading(p), c);
            if turn.out == [] then turn.used && Pending(p + [c]) && turn.next == Reading(p + [c])
            else |turn.out| == 1 && IsScalar(turn.out[0]) && turn.next == GROUND
  {
    if p == [] {
      assert p + [c] == [c];
      LeadFollows(c);
    } else {
      TailFollows(p, c);
    }
    if InTable(p + [c]) && !Pending(p + [c]) { CompleteIsWhole(p + [c]); }
  }

  lemma NotWhole(p: seq<Byte>)
    requires p != [] && Pending(p)
    ensures !Whole(p)
  {
    if c: Scalar :| p == Encode(c) { EncodingInTable(c); }
  }

  lemma {:induction false} LongestIs(b: seq<Byte>, m: nat, n: nat)
    requires m <= n <= |b| && InTable(b[..m]) && (m < n ==> !InTable(b[..m + 1]))
    ensures Longest(b, n) == m
    decreases n
  {
    if n == m {
      InTableBegins(b[..m]);
    } else {
      assert b[..n][..m + 1] == b[..m + 1];
      TableIsPrefixClosed(b[..n], m + 1);
      if Begins(b[..n]) { BeginsInTable(b[..n]); }
      LongestIs(b, m, n - 1);
    }
  }

  lemma TableIsPrefixClosed(p: seq<Byte>, k: nat)
    requires k <= |p|
    ensures InTable(p) ==> InTable(p[..k])
  {
  }

  lemma Replaces(b: seq<Byte>, s: seq<int>)
    requires b != [] && (Longest(b, |b|) > 0 ==> !Whole(b[..Longest(b, |b|)]))
    requires Decodes(b[Max(1, Longest(b, |b|))..], s)
    ensures Decodes(b, [REPLACEMENT] + s)
  {
    assert ([REPLACEMENT] + s)[1..] == s;
  }

  /** How far the rule looks when p stops short at the first byte of rest. */
  lemma StopsAt(p: seq<Byte>, rest: seq<Byte>)
    requires InTable(p) && (rest != [] ==> !InTable(p + [rest[0]]))
    ensures Longest(p + rest, |p + rest|) == |p|
  {
    var b := p + rest;
    assert b[..|p|] == p;
    if rest != [] { assert b[..|p| + 1] == p + [rest[0]]; }
    LongestIs(b, |p|, |b|);
  }

  lemma BrokenOff(p: seq<Byte>, rest: seq<Byte>, s: seq<int>)
    requires Pending(p) && p + rest != [] && (rest != [] ==> !InTable(p + [rest[0]]))
    requires Decodes((p + rest)[Max(1, |p|)..], s)
    ensures Decodes(p + rest, [REPLACEMENT] + s)
  {
    StopsAt(p, rest);
    if p != [] {
      NotWhole(p);
      assert (p + rest)[..|p|] == p;
    }
    Replaces(p + rest, s);
  }

  /** The rule applied at a whole character. */
  lemma ReadWhole(p: seq<Byte>, rest: seq<Byte>, x: int, s: seq<int>)
    requires IsScalar(x) && p == Encode(x) && Decodes(rest, s)
    ensures Decodes(p + rest, [x] + s)
  {
    var b := p + rest;
    EncodingInTable(x);
    assert b[..|p|] == p && b[|p|..] == rest;
    if rest != [] { assert (p + [rest[0]])[0] == p[0]; }
    StopsAt(p, rest);
    assert ([x] + s)[1..] == s;
  }

  lemma {:induction false} RunDecodes(p: seq<Byte>, rest: seq<Byte>)
    requires Pending(p)
    ensures Decodes(p + rest, Run(Reading(p), rest))
    decreases |rest|, |p|
  {
    var m := Reading(p);
    if rest == [] {
      assert p + rest == p;
      if p != [] { BrokenOff(p, rest, []); }
    } else {
      var c, after := rest[0], rest[1..];
      assert rest == [c] + after && p + rest == (p + [c]) + after;
      if p == [] { assert p + [c] == [c]; LeadFollows(c); } else { TailFollows(p, c); }
      if Pending(p + [c]) {
        RunDecodes(p + [c], after);
        assert Run(m, rest) == Run(Reading(p + [c]), after);
      } else if InTable(p + [c]) {
        RunDecodes([], after);
        assert [] + after == after;
        CompleteIsWhole(p + [c]);
        ReadWhole(p + [c], after, Bits(p + [c]), Run(GROUND, after));
      } else if p == [] {
        RunDecodes([], after);
        assert [] + after == after && (p + rest)[1..] == after;
        BrokenOff(p, rest, Run(GROUND, after));
      } else {
        RunDecodes([], rest);
        assert [] + rest == rest && (p + rest)[|p|..] == rest;
        BrokenOff(p, rest, Run(GROUND, rest));
      }
    }
  }

  // ---------------------------------------------------------------- main results

  /** On arbitrary bytes the machine follows the rule. */
  lemma DecodeFollowsRule(b: seq<Byte>)
    ensures Decodes(b, Decode(b))
  {
    RunDecodes([], b);
    assert [] + b == b;
  }

  lemma {:induction false} ScalarsOnly(b: seq<Byte>, s: seq<int>)
    requires Decodes(b, s)
    ensures forall i :: 0 <= i < |s| ==> IsScalar(s[i])
    decreases |b|
  {
    if b != [] {
      var n := Longest(b, |b|);
      if n > 0 && Whole(b[..n]) { ScalarsOnly(b[n..], s[1..]); } else { ScalarsOnly(b[Max(1, n)..], s[1..]); }
      assert forall i :: 1 <= i < |s| ==> s[i] == s[1..][i - 1];
    }
  }

  /** Only Unicode scalar values come out. */
  lemma DecodesToScalars(b: seq<Byte>)
    ensures forall i :: 0 <= i < |Decode(b)| ==> IsScalar(Decode(b)[i])
  {
    DecodeFollowsRule(b);
    ScalarsOnly(b, Decode(b));
  }

  lemma Recompose(c: nat)
    ensures c == c / 64 * 64 + c % 64
    ensures c == (c / 4096 * 64 + c / 64 % 64) * 64 + c % 64
    ensures c == ((c / 262144 * 64 + c / 4096 % 64) * 64 + c / 64 % 64) * 64 + c % 64
  {
    assert c / 64 / 64 == c / 4096 && c / 4096 / 64 == c / 262144;
  }

  lemma SameEncoding(x: Scalar, y: Scalar)
    requires Encode(x) == Encode(y)
    ensures x == y
  {
    var p, q := Encode(x), Encode(y);
    Recompose(x);
    Recompose(y);
    assert |p| == |q| && p[0] == q[0];
    if |p| >= 2 { assert p[1] == q[1]; }
    if |p| >= 3 { assert p[2] == q[2]; }
    if |p| >= 4 { assert p[3] == q[3]; }
  }

  /** The rule determines the answer. */
  lemma {:induction false} RuleIsFunctional(b: seq<Byte>, s: seq<int>, t: seq<int>)
    requires Decodes(b, s) && Decodes(b, t)
    ensures s == t
    decreases |b|
  {
    if b != [] {
      var n := Longest(b, |b|);
      if n > 0 && Whole(b[..n]) {
        SameEncoding(s[0], t[0]);
        RuleIsFunctional(b[n..], s[1..], t[1..]);
      } else {
        RuleIsFunctional(b[Max(1, n)..], s[1..], t[1..]);
      }
      assert s == [s[0]] + s[1..] && t == [t[0]] + t[1..];
    }
  }

  lemma {:induction false} EncodedDecodes(s: seq<Scalar>)
    ensures Decodes(EncodeAll(s), s)
  {
    if s != [] {
      EncodedDecodes(s[1..]);
      ReadWhole(Encode(s[0]), EncodeAll(s[1..]), s[0], s[1..]);
      assert s == [s[0]] + s[1..];
    }
  }

  /** Decoding undoes encoding, on every text. */
  lemma RoundTrip(s: seq<Scalar>)
    ensures Decode(EncodeAll(s)) == s
  {
    EncodedDecodes(s);
    DecodeFollowsRule(EncodeAll(s));
    RuleIsFunctional(EncodeAll(s), s, Decode(EncodeAll(s)));
  }

  /** What decodeUTF8 returns: the characters read, written as UTF-8. */
  function Repaired(b: seq<Byte>): seq<Byte> {
    DecodesToScalars(b);
    EncodeAll(Decode(b))
  }

  /** The answer is always well formed, and it is the input exactly when that was: on valid
      input the machine agrees with the fast path that skips it. */
  lemma RepairedExactly(b: seq<Byte>)
    ensures Valid(Repaired(b))
    ensures Repaired(b) == b <==> Valid(b)
  {
    DecodesToScalars(b);
    if Valid(b) {
      var s: seq<Scalar> :| EncodeAll(s) == b;
      RoundTrip(s);
    }
  }

  // ---------------------------------------------------------------- concatenation

  /** The state after a, before any end of input. */
  function StateAfter(m: Machine, a: seq<Byte>): Machine
    decreases |a|, m.needed
  {
    if a == [] then m
    else var turn := Next(m, a[0]); StateAfter(turn.next, if turn.used then a[1..] else a)
  }

  function Written(m: Machine, a: seq<Byte>): seq<int>
    decreases |a|, m.needed
  {
    if a == [] then []
    else var turn := Next(m, a[0]); turn.out + Written(turn.next, if turn.used then a[1..] else a)
  }

  lemma Regroup(x: seq<int>, y: seq<int>, z: seq<int>)
    ensures x + (y + z) == (x + y) + z
  {
  }

  lemma {:induction false} RunSplits(m: Machine, a: seq<Byte>, b: seq<Byte>)
    ensures Run(m, a + b) == Written(m, a) + Run(StateAfter(m, a), b)
    decreases |a|, m.needed
  {
    if a == [] {
      assert a + b == b;
    } else {
      var turn := Next(m, a[0]);
      var rest := if turn.used then a[1..] else a;
      assert (a + b)[0] == a[0] && (a + b)[1..] == a[1..] + b;
      RunSplits(turn.next, rest, b);
      Regroup(turn.out, Written(turn.next, rest), Run(StateAfter(turn.next, rest), b));
    }
  }

  /** Bounds that hold in every state the machine can be in. */
  predicate Sane(m: Machine) { m.needed > 0 ==> 0x80 <= m.lower && m.upper <= 0xBF }

  predicate Grounded(m: Machine) { m.needed == 0 ==> m == GROUND }

  lemma {:induction false} StatesAreSane(m: Machine, a: seq<Byte>)
    requires Sane(m) && Grounded(m)
    ensures Sane(StateAfter(m, a)) && Grounded(StateAfter(m, a))
    decreases |a|, m.needed
  {
    if a != [] {
      var turn := Next(m, a[0]);
      StatesAreSane(turn.next, if turn.used then a[1..] else a);
    }
  }

  /** Inside a character at most one more item is written than from the ground, and fewer
      when the next byte continues it. */
  lemma {:induction false} InsideWritesLess(m: Machine, b: seq<Byte>)
    requires m.needed > 0 && Sane(m)
    ensures |Run(m, b)| <= 1 + |Run(GROUND, b)|
    ensures b != [] && m.lower <= b[0] <= m.upper ==> |Run(m, b)| < 1 + |Run(GROUND, b)|
    decreases |b|
  {
    if b != [] && m.lower <= b[0] <= m.upper {
      assert Next(GROUND, b[0]) == Turn([REPLACEMENT], GROUND, true);
      var turn := Next(m, b[0]);
      if turn.next.needed > 0 { InsideWritesLess(turn.next, b[1..]); }
    }
  }

  lemma OutsideStartsAnew(m: Machine, b: seq<Byte>)
    requires Grounded(m) && (m.needed == 0 || b == [] || b[0] < m.lower || b[0] > m.upper)
    ensures Run(m, b) == Flush(m) + Run(GROUND, b)
  {
  }

  lemma DecodesInParts(a: seq<Byte>, b: seq<Byte>)
    ensures var w, m := Written(GROUND, a), StateAfter(GROUND, a);
            && Decode(a + b) == w + Run(m, b)
            && Decode(a) + Decode(b) == w + (Flush(m) + Run(GROUND, b))
  {
    var w, m := Written(GROUND, a), StateAfter(GROUND, a);
    RunSplits(GROUND, a, b);
    RunSplits(GROUND, a, []);
    assert a + [] == a;
    Regroup(w, Flush(m), Run(GROUND, b));
  }

  /** Decoding distributes over concatenation exactly at sequence boundaries: when the first
      part does not end inside a character, or the second does not continue it. */
  lemma DistributesExactly(a: seq<Byte>, b: seq<Byte>)
    ensures var m := StateAfter(GROUND, a);
            Decode(a + b) == Decode(a) + Decode(b)
            <==> m.needed == 0 || b == [] || b[0] < m.lower || b[0] > m.upper
  {
    var m := StateAfter(GROUND, a);
    DecodesInParts(a, b);
    StatesAreSane(GROUND, a);
    if m.needed > 0 && b != [] && m.lower <= b[0] <= m.upper {
      InsideWritesLess(m, b);
      assert |Decode(a + b)| < |Decode(a) + Decode(b)|;
    } else {
      OutsideStartsAnew(m, b);
    }
  }

  // ---------------------------------------------------------------- the methods

  lemma {:induction false} EncodeAllAppends(s: seq<Scalar>, x: Scalar)
    ensures EncodeAll(s + [x]) == EncodeAll(s) + Encode(x)
  {
    if s == [] {
      assert s + [x] == [x] && [x][1..] == [];
    } else {
      assert (s + [x])[1..] == s[1..] + [x];
      EncodeAllAppends(s[1..], x);
    }
  }

  /** utf8.Valid: whole characters one after the other. */
  method IsValid(b: seq<Byte>) returns (valid: bool)
    ensures valid <==> Valid(b)
  {
    var i := 0;
    ghost var s: seq<Scalar> := [];
    while i < |b|
      invariant 0 <= i <= |b| && EncodeAll(s) == b[..i]
    {
      var n := 1 + Tail(b[i]);
      var rest := b[i..];
      if n == 0 || |rest| < n || !InTable(rest[..n]) {
        if Valid(b) {
          StopsAreInvalid(b, s, i);
          assert false;
        }
        return false;
      }
      CompleteIsWhole(rest[..n]);
      EncodeAllAppends(s, Bits(rest[..n]));
      s := s + [Bits(rest[..n])];
      assert b[..i + n] == b[..i] + rest[..n];
      i := i + n;
    }
    assert b[..|b|] == b;
    valid := true;
  }

  /** Where no whole character follows valid text, the whole is not valid. */
  lemma StopsAreInvalid(b: seq<Byte>, s: seq<Scalar>, i: nat)
    requires i < |b| && EncodeAll(s) == b[..i]
    requires var n := 1 + Tail(b[i]); n == 0 || |b| - i < n || !InTable(b[i..][..n])
    ensures !Valid(b)
  {
    if t: seq<Scalar> :| EncodeAll(t) == b {
      Follows(s, t, b[i..]);
    }
  }

  /** A text that begins with the encoding of s begins with s, and goes on with a whole
      character. */
  lemma {:induction false} Follows(s: seq<Scalar>, t: seq<Scalar>, rest: seq<Byte>)
    requires EncodeAll(t) == EncodeAll(s) + rest && rest != []
    ensures var n := 1 + Tail(rest[0]); 0 < n <= |rest| && InTable(rest[..n])
    decreases |s|
  {
    assert t != [];
    var c := t[0];
    EncodingInTable(c);
    if s == [] {
      assert rest == Encode(c) + EncodeAll(t[1..]);
      assert rest[..|Encode(c)|] == Encode(c);
    } else {
      EncodingInTable(s[0]);
      var b := EncodeAll(t);
      assert b == Encode(s[0]) + (EncodeAll(s[1..]) + rest);
      assert b[0] == Encode(s[0])[0] == Encode(c)[0];
      assert b[..|Encode(c)|] == Encode(c) && b[..|Encode(c)|] == Encode(s[0]);
      assert b[|Encode(c)|..] == EncodeAll(t[1..]);
      Follows(s[1..], t[1..], rest);
    }
  }

  /** A state the machine can be in. */
  ghost predicate Reached(m: Machine) { exists p :: Pending(p) && m == Reading(p) }

  lemma TurnKeepsReached(m: Machine, c: Byte)
    requires Reached(m)
    ensures var turn := Next(m, c);
            && Reached(turn.next) && |turn.out| <= 1 && (turn.out != [] ==> IsScalar(turn.out[0]))
            && (!turn.used ==> turn.next.needed < m.needed)
  {
    var p :| Pending(p) && m == Reading(p);
    TurnFollows(p, c);
    assert Reading([]) == GROUND;
    assert Pending([]) && (Pending(p + [c]) ==> Reached(Reading(p + [c])));
  }

  lemma RunOneTurn(s: seq<int>, m: Machine, b: seq<Byte>, i: nat)
    requires i < |b|
    ensures var turn := Next(m, b[i]);
            s + Run(m, b[i..]) == (s + turn.out) + Run(turn.next, b[if turn.used then i + 1 else i..])
  {
    assert b[i..][1..] == b[i + 1..];
  }

  /** decodeUTF8's loop, byte by byte. */
  method DecodeSlowly(b: seq<Byte>) returns (r: seq<Byte>)
    ensures r == Repaired(b)
  {
    r := [];
    var m := GROUND;
    var i := 0;
    ghost var s: seq<Scalar> := [];
    assert Reading([]) == m;
    while i < |b|
      invariant 0 <= i <= |b| && Reached(m)
      invariant r == EncodeAll(s) && s + Run(m, b[i..]) == Decode(b)
      decreases |b| - i, m.needed
    {
      var turn := Next(m, b[i]);
      TurnKeepsReached(m, b[i]);
      RunOneTurn(s, m, b, i);
      m := turn.next;
      if turn.used { i := i + 1; }
      assert (s + turn.out) + Run(m, b[i..]) == Decode(b);
      if turn.out != [] {
        var x := turn.out[0];
        EncodeAllAppends(s, x);
        r := r + Encode(x);
        assert s + [x] == s + turn.out;
        s := s + [x];
      } else {
        assert s == s + turn.out;
      }
    }
    assert b[i..] == [];
    if m.needed != 0 {
      EncodeAllAppends(s, REPLACEMENT);
      r := r + Encode(REPLACEMENT);
      s := s + [REPLACEMENT];
    }
    assert s == Decode(b);
  }

  /** decodeUTF8, with the fast path for valid input. */
  method DecodeUTF8(b: seq<Byte>) returns (r: seq<Byte>)
    ensures r == Repaired(b)
  {
    var valid := IsValid(b);
    if valid {
      RepairedExactly(b);
      return b;
    }
    r := DecodeSlowly(b);
  }
}
