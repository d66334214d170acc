/** The UTF-8 decoder with replacement (internal/core/jsreq.go), the encoding of section 3 of
    RFC 3629, and what the decoder must answer on arbitrary bytes. */
module Utf8 {
  import opened Base

  type Byte = x: int | 0 <= x < 0x100
  type Scalar = x: int | 0 <= x <= 0x10FFFF && !(0xD800 <= x <= 0xDFFF)

  const REPLACEMENT: Scalar := 0xFFFD

  // ---------------------------------------------------------------- the encoding

  function Encode(c: Scalar): (r: seq<Byte>)
    ensures 1 <= |r| <= 4
  {
    if c <= 0x7F then [c]
    else if c <= 0x7FF then [0xC0 + c / 64, 0x80 + c % 64]
    else if c <= 0xFFFF then [0xE0 + c / 4096, 0x80 + c / 64 % 64, 0x80 + c % 64]
    else [0xF0 + c / 262144, 0x80 + c / 4096 % 64, 0x80 + c / 64 % 64, 0x80 + c % 64]
  }

  function EncodeAll(s: seq<Scalar>): seq<Byte> {
    if s == [] then [] else Encode(s[0]) + EncodeAll(s[1..])
  }

  /** Section 4 of RFC 3629: the bytes are the encoding of some text. */
  ghost predicate Valid(b: seq<Byte>) { exists s: seq<Scalar> :: EncodeAll(s) == b }

  /** p begins the encoding of some character. */
  ghost predicate Begins(p: seq<Byte>) { exists c: Scalar :: p <= Encode(c) }

  ghost predicate Whole(p: seq<Byte>) { exists c: Scalar :: p == Encode(c) }

  // ---------------------------------------------------------------- the byte table

  /** Continuation bytes that follow this lead byte; -1 when it leads nothing. */
  function Tail(c: Byte): int {
    if c <= 0x7F then 0
    else if 0xC2 <= c <= 0xDF then 1
    else if 0xE0 <= c <= 0xEF then 2
    else if 0xF0 <= c <= 0xF4 then 3
    else -1
  }

  /** The range of the second byte. */
  function Low(lead: Byte): Byte { if lead == 0xE0 then 0xA0 else if lead == 0xF0 then 0x90 else 0x80 }
  function High(lead: Byte): Byte { if lead == 0xED then 0x9F else if lead == 0xF4 then 0x8F else 0xBF }

  predicate Continuation(c: Byte) { 0x80 <= c <= 0xBF }

  /** Begins, read off the table. */
  predicate InTable(p: seq<Byte>) {
    p == []
    || (&& Tail(p[0]) >= 0 && |p| <= 1 + Tail(p[0])
        && (|p| >= 2 ==> Low(p[0]) <= p[1] <= High(p[0]))
        && (|p| >= 3 ==> Continuation(p[2]))
        && (|p| >= 4 ==> Continuation(p[3])))
  }

  /** The bits that a lead byte carries. */
  function LeadBits(c: Byte): nat {
    if Tail(c) == 1 then c % 32 else if Tail(c) == 2 then c % 16 else if Tail(c) == 3 then c % 8 else c
  }

  /** The bits read so far. */
  function Bits(p: seq<Byte>): nat
    requires p != []
  {
    if |p| == 1 then LeadBits(p[0]) else Bits(p[..|p| - 1]) * 64 + p[|p| - 1] % 64
  }

  lemma EncodingInTable(c: Scalar)
    ensures InTable(Encode(c)) && |Encode(c)| == 1 + Tail(Encode(c)[0])
  {
    if 0x7F < c <= 0x7FF {
      assert 2 <= c / 64 < 32;
    } else if 0x7FF < c <= 0xFFFF {
      assert c / 4096 < 16 && (c < 4096 ==> 32 <= c / 64 < 64) && (c / 4096 == 13 ==> c < 0xD800);
    } else if 0xFFFF < c {
      assert c / 262144 <= 4 && (c / 262144 == 0 ==> c / 4096 >= 16) && (c / 262144 == 4 ==> c / 4096 % 64 < 16);
    }
  }

  lemma BeginsInTable(p: seq<Byte>)
    requires Begins(p)
    ensures InTable(p)
  {
    var c: Scalar :| p <= Encode(c);
    EncodingInTable(c);
  }

  lemma TwoBits(p: seq<Byte>)
    requires InTable(p) && |p| == 2
    ensures Bits(p) == LeadBits(p[0]) * 64 + p[1] % 64
  {
    assert Bits(p[..1]) == LeadBits(p[0]);
  }

  lemma EncodeTwo(a: nat, x: nat)
    requires 2 <= a < 32 && x < 64
    ensures Encode(a * 64 + x) == [0xC0 + a, 0x80 + x]
  {
    assert (a * 64 + x) / 64 == a && (a * 64 + x) % 64 == x;
  }

  lemma TwoIsWhole(p: seq<Byte>)
    requires InTable(p) && |p| == 2 && Tail(p[0]) == 1
    ensures Bits(p) <= 0x7FF && Encode(Bits(p)) == p
  {
    TwoBits(p);
    TailBits(p[1]);
    EncodeTwo(p[0] - 0xC0, p[1] - 0x80);
    assert LeadBits(p[0]) == p[0] - 0xC0;
    assert p == [p[0], p[1]];
  }

  /** Base-64 digits come back by division. */
  lemma Digits(a: nat, x: nat, y: nat, z: nat)
    requires x < 64 && y < 64 && z < 64
    ensures var v := ((a * 64 + x) * 64 + y) * 64 + z;
            v / 262144 == a && v / 4096 % 64 == x && v / 64 % 64 == y && v % 64 == z && v / 4096 == a * 64 + x
  {
    var v := ((a * 64 + x) * 64 + y) * 64 + z;
    assert v / 4096 == a * 64 + x && v / 64 == (a * 64 + x) * 64 + y;
  }

  lemma EncodeThree(a: nat, x: nat, y: nat)
    requires a < 16 && x < 64 && y < 64 && (a == 0 ==> x >= 32) && (a == 13 ==> x < 32)
    ensures var v := (a * 64 + x) * 64 + y;
            0x800 <= v <= 0xFFFF && !(0xD800 <= v <= 0xDFFF) && Encode(v) == [0xE0 + a, 0x80 + x, 0x80 + y]
  {
    Digits(0, a, x, y);
  }

  lemma EncodeFour(a: nat, x: nat, y: nat, z: nat)
    requires a < 5 && x < 64 && y < 64 && z < 64 && (a == 0 ==> x >= 16) && (a == 4 ==> x < 16)
    ensures var v := ((a * 64 + x) * 64 + y) * 64 + z;
            0x10000 <= v <= 0x10FFFF && Encode(v) == [0xF0 + a, 0x80 + x, 0x80 + y, 0x80 + z]
  {
    Digits(a, x, y, z);
  }

  lemma TailBits(c: Byte)
    requires Continuation(c)
    ensures c % 64 == c - 0x80
  {
  }

  lemma LeadValue(c: Byte)
    ensures Tail(c) == 2 ==> LeadBits(c) == c - 0xE0
    ensures Tail(c) == 3 ==> LeadBits(c) == c - 0xF0
  {
  }

  lemma ThreeBits(p: seq<Byte>)
    requires InTable(p) && |p| == 3
    ensures Bits(p) == (LeadBits(p[0]) * 64 + (p[1] - 0x80)) * 64 + (p[2] - 0x80)
  {
    TailBits(p[1]);
    TailBits(p[2]);
    assert p[..2][..1] == p[..1] && Bits(p[..2]) == LeadBits(p[0]) * 64 + p[1] % 64;
  }

  lemma ThreeIsWhole(p: seq<Byte>)
    requires InTable(p) && |p| == 3 && Tail(p[0]) == 2
    ensures 0x800 <= Bits(p) <= 0xFFFF && !(0xD800 <= Bits(p) <= 0xDFFF) && Encode(Bits(p)) == p
  {
    ThreeBits(p);
    EncodeThree(p[0] - 0xE0, p[1] - 0x80, p[2] - 0x80);
    LeadValue(p[0]);
    assert p == [p[0], p[1], p[2]];
  }

  lemma FourBits(p: seq<Byte>)
    requires InTable(p) && |p| == 4
    ensures Bits(p) == ((LeadBits(p[0]) * 64 + (p[1] - 0x80)) * 64 + (p[2] - 0x80)) * 64 + (p[3] - 0x80)
  {
    ThreeBits(p[..3]);
    TailBits(p[3]);
  }

  lemma FourIsWhole(p: seq<Byte>)
    requires InTable(p) && |p| == 4
    ensures 0x10000 <= Bits(p) <= 0x10FFFF && Encode(Bits(p)) == p
  {
    FourBits(p);
    LeadValue(p[0]);
    EncodeFour(p[0] - 0xF0, p[1] - 0x80, p[2] - 0x80, p[3] - 0x80);
    assert p == [p[0], p[1], p[2], p[3]];
  }

  /** A complete table entry is the encoding of its bits. */
  lemma CompleteIsWhole(p: seq<Byte>)
    requires p != [] && InTable(p) && |p| == 1 + Tail(p[0])
    ensures 0 <= Bits(p) <= 0x10FFFF && !(0xD800 <= Bits(p) <= 0xDFFF) && Encode(Bits(p)) == p
  {
    if |p| == 2 { TwoIsWhole(p); }
    if |p| == 3 { ThreeIsWhole(p); }
    if |p| == 4 { FourIsWhole(p); }
  }

  /** An incomplete entry can be completed: by the lowest bytes allowed. */
  lemma {:induction false} InTableBegins(p: seq<Byte>)
    requires InTable(p)
    ensures Begins(p)
    decreases 4 - |p|
  {
    if p == [] {
      assert p <= Encode(0);
    } else if |p| == 1 + Tail(p[0]) {
      CompleteIsWhole(p);
      assert p <= Encode(Bits(p));
    } else {
      var more := p + [if |p| == 1 then Low(p[0]) else 0x80];
      InTableBegins(more);
      var c: Scalar :| more <= Encode(c);
      assert p <= Encode(c);
    }
  }
}
