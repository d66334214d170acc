/** Query strings: the printers (internal/kite/encode.go), the two parsers
    (internal/marketdata/routes_query.go, internal/core/jsreq.go) and what they undo. The
    form is application/x-www-form-urlencoded, section 5 of the WHATWG URL Standard. */
module Query {
  import opened Base
  import opened Utf8
  import opened Utf8Decoder

  type Bytes = seq<Byte>

  const PERCENT: Byte := 0x25
  const PLUS: Byte := 0x2B
  const SPACE: Byte := 0x20
  const AMPERSAND: Byte := 0x26
  const EQUALS: Byte := 0x3D
  const MAX_PAIRS: nat := 1000

  // ---------------------------------------------------------------- escapes

  predicate IsAlnum(c: Byte) { 0x41 <= c <= 0x5A || 0x61 <= c <= 0x7A || 0x30 <= c <= 0x39 }

  predicate IsHex(c: Byte) { 0x30 <= c <= 0x39 || 0x61 <= c <= 0x66 || 0x41 <= c <= 0x46 }

  function Unhex(c: Byte): int {
    if c <= 0x39 then c - 0x30 else if c >= 0x61 then c - 0x61 + 10 else c - 0x41 + 10
  }

  /** The n-th of the upper-case hexadecimal digits. */
  function HexDigit(n: int): (c: Byte)
    requires 0 <= n < 16
    ensures IsHex(c) && Unhex(c) == n
  {
    if n < 10 then 0x30 + n else 0x41 + (n - 10)
  }

  function Escape(c: Byte): Bytes { [PERCENT, HexDigit(c / 16), HexDigit(c % 16)] }

  /** A well-formed escape starts s. */
  predicate Escaped(s: Bytes) { |s| > 2 && s[0] == PERCENT && IsHex(s[1]) && IsHex(s[2]) }

  function EscapedByte(s: Bytes): Byte
    requires Escaped(s)
  {
    Unhex(s[1]) * 16 + Unhex(s[2])
  }

  /** unescapeBuffer: well-formed escapes become their byte, anything else stays. */
  function PercentDecode(s: Bytes): Bytes {
    if s == [] then []
    else if Escaped(s) then [EscapedByte(s)] + PercentDecode(s[3..])
    else [s[0]] + PercentDecode(s[1..])
  }

  function PlusByte(c: Byte): Byte { if c == PLUS then SPACE else c }

  /** Every plus as a space. */
  function Spaced(s: Bytes): (r: Bytes)
    ensures |r| == |s| && forall i :: 0 <= i < |s| ==> r[i] == PlusByte(s[i])
  {
    seq(|s|, i requires 0 <= i < |s| => PlusByte(s[i]))
  }

  /** unescapeQuery. */
  function Unescape(s: Bytes): Bytes { PercentDecode(Spaced(s)) }

  /** The single pass of decodeQueryComponent. */
  function OnePass(s: Bytes): Bytes {
    if s == [] then []
    else if s[0] == PLUS then [SPACE] + OnePass(s[1..])
    else if Escaped(s) then [EscapedByte(s)] + OnePass(s[3..])
    else [s[0]] + OnePass(s[1..])
  }

  /** The two parsers' unescaping agrees on every input. */
  lemma {:induction false} OnePassIsUnescape(s: Bytes)
    ensures OnePass(s) == Unescape(s)
    decreases |s|
  {
    if s != [] {
      var t := Spaced(s);
      assert t[1..] == Spaced(s[1..]);
      assert Escaped(t) == Escaped(s);
      OnePassIsUnescape(s[1..]);
      if Escaped(s) {
        assert t[3..] == Spaced(s[3..]);
        OnePassIsUnescape(s[3..]);
      }
    }
  }

  // ---------------------------------------------------------------- what the text means

  /** The digits "0123456789ABCDEF" and "0123456789abcdef". */
  const UPPER_HEX: Bytes :=
    [0x30, 0x31, 0x32, 0x33, 0x34, 0x35, 0x36, 0x37, 0x38, 0x39, 0x41, 0x42, 0x43, 0x44, 0x45, 0x46]
  const LOWER_HEX: Bytes :=
    [0x30, 0x31, 0x32, 0x33, 0x34, 0x35, 0x36, 0x37, 0x38, 0x39, 0x61, 0x62, 0x63, 0x64, 0x65, 0x66]

  predicate DigitOf(c: Byte, n: int) { 0 <= n < 16 && (c == UPPER_HEX[n] || c == LOWER_HEX[n]) }

  /** Digits of either case, and nothing else, are read as their values. */
  lemma HexExactly(c: Byte, n: int)
    ensures IsHex(c) && Unhex(c) == n <==> DigitOf(c, n)
  {
  }

  /** Text as a reader sees it: a byte that stands for itself, a plus, or two hexadecimal
      digits, of either case, after a percent sign. */
  datatype Piece = Itself(c: Byte) | PlusSign | Hex(hi: Byte, lo: Byte, high: int, low: int)

  ghost predicate IsDigit(c: Byte) { exists n :: DigitOf(c, n) }

  function PieceText(p: Piece): Bytes {
    match p
    case Itself(c) => [c]
    case PlusSign => [PLUS]
    case Hex(hi, lo, _, _) => [PERCENT, hi, lo]
  }

  /** A piece before this text: a byte stands for itself exactly where no plus and no whole
      escape stands. */
  ghost predicate Fits(p: Piece, rest: Bytes) {
    match p
    case Itself(c) => c != PLUS && !(c == PERCENT && |rest| > 1 && IsDigit(rest[0]) && IsDigit(rest[1]))
    case PlusSign => true
    case Hex(hi, lo, high, low) => DigitOf(hi, high) && DigitOf(lo, low)
  }

  ghost function PieceByte(p: Piece, rest: Bytes): Byte
    requires Fits(p, rest)
  {
    match p
    case Itself(c) => c
    case PlusSign => SPACE
    case Hex(_, _, high, low) => 16 * high + low
  }

  function TextOf(pieces: seq<Piece>): Bytes {
    if pieces == [] then [] else PieceText(pieces[0]) + TextOf(pieces[1..])
  }

  ghost predicate Proper(pieces: seq<Piece>) {
    pieces == [] || (Fits(pieces[0], TextOf(pieces[1..])) && Proper(pieces[1..]))
  }

  ghost function MeaningOf(pieces: seq<Piece>): Bytes
    requires Proper(pieces)
  {
    if pieces == [] then [] else [PieceByte(pieces[0], TextOf(pieces[1..]))] + MeaningOf(pieces[1..])
  }

  lemma HexIsDigit(c: Byte)
    ensures IsHex(c) <==> IsDigit(c)
  {
    if IsHex(c) { HexExactly(c, Unhex(c)); }
    if IsDigit(c) {
      var n :| DigitOf(c, n);
      HexExactly(c, n);
    }
  }

  lemma PieceReads(p: Piece, rest: Bytes)
    requires Fits(p, rest)
    ensures OnePass(PieceText(p) + rest) == [PieceByte(p, rest)] + OnePass(rest)
  {
    match p
    case Itself(c) => ItselfReads(c, rest);
    case PlusSign => assert ([PLUS] + rest)[1..] == rest;
    case Hex(hi, lo, high, low) => HexReads(hi, lo, high, low, rest);
  }

  lemma ItselfReads(c: Byte, rest: Bytes)
    requires Fits(Itself(c), rest)
    ensures OnePass([c] + rest) == [c] + OnePass(rest)
  {
    assert ([c] + rest)[1..] == rest;
    if |rest| > 1 {
      HexIsDigit(rest[0]);
      HexIsDigit(rest[1]);
    }
  }

  lemma HexReads(hi: Byte, lo: Byte, high: int, low: int, rest: Bytes)
    requires Fits(Hex(hi, lo, high, low), rest)
    ensures OnePass([PERCENT, hi, lo] + rest) == [PieceByte(Hex(hi, lo, high, low), rest)] + OnePass(rest)
  {
    var text := [PERCENT, hi, lo] + rest;
    HexExactly(hi, high);
    HexExactly(lo, low);
    assert Escaped(text) && text[3..] == rest;
  }

  /** The single pass reads each text as its pieces say. */
  lemma {:induction false} PiecesRead(pieces: seq<Piece>)
    requires Proper(pieces)
    ensures OnePass(TextOf(pieces)) == MeaningOf(pieces)
  {
    if pieces != [] {
      PiecesRead(pieces[1..]);
      PieceReads(pieces[0], TextOf(pieces[1..]));
    }
  }

  /** What s is read as, starting with this piece. */
  function FirstPiece(s: Bytes): Piece
    requires s != []
  {
    if s[0] == PLUS then PlusSign
    else if Escaped(s) then Hex(s[1], s[2], Unhex(s[1]), Unhex(s[2]))
    else Itself(s[0])
  }

  function PiecesOf(s: Bytes): seq<Piece> {
    if s == [] then []
    else [FirstPiece(s)] + PiecesOf(if FirstPiece(s).Hex? then s[3..] else s[1..])
  }

  lemma FirstPieceFits(s: Bytes)
    requires s != []
    ensures var more := if FirstPiece(s).Hex? then s[3..] else s[1..];
            s == PieceText(FirstPiece(s)) + more && Fits(FirstPiece(s), more)
  {
    var p := FirstPiece(s);
    if p.Hex? {
      HexExactly(p.hi, p.high);
      HexExactly(p.lo, p.low);
    } else if |s| > 2 {
      HexIsDigit(s[1]);
      HexIsDigit(s[2]);
    }
  }

  lemma {:induction false} PiecesAreProper(s: Bytes)
    ensures TextOf(PiecesOf(s)) == s && Proper(PiecesOf(s))
    decreases |s|
  {
    if s != [] {
      var more := if FirstPiece(s).Hex? then s[3..] else s[1..];
      FirstPieceFits(s);
      PiecesAreProper(more);
      assert PiecesOf(s)[1..] == PiecesOf(more);
    }
  }

  /** Unescaping by meaning, both ways: text is read as r exactly when r is what its pieces
      mean. Every text has pieces, so malformed escapes, cut ones included, stay as they are. */
  lemma UnescapeExactly(s: Bytes, r: Bytes)
    ensures Unescape(s) == r <==> exists pieces :: Proper(pieces) && TextOf(pieces) == s && MeaningOf(pieces) == r
  {
    OnePassIsUnescape(s);
    PiecesAreProper(s);
    PiecesRead(PiecesOf(s));
    if pieces :| Proper(pieces) && TextOf(pieces) == s && MeaningOf(pieces) == r { PiecesRead(pieces); }
  }

  // ---------------------------------------------------------------- printing

  /** formEncode of one byte. */
  function FormByte(c: Byte): Bytes {
    if IsAlnum(c) || c == 0x2A || c == 0x2D || c == 0x2E || c == 0x5F then [c]
    else if c == SPACE then [PLUS]
    else Escape(c)
  }

  function FormEncode(s: Bytes): Bytes { if s == [] then [] else FormByte(s[0]) + FormEncode(s[1..]) }

  /** Kept by encodeURIComponent besides letters and digits: - _ . ! ~ * ' ( ) */
  predicate Unreserved(c: Byte) {
    IsAlnum(c) || c == 0x2D || c == 0x5F || c == 0x2E || c == 0x21 || c == 0x7E || c == 0x2A
    || c == 0x27 || c == 0x28 || c == 0x29
  }

  function ComponentByte(c: Byte): Bytes { if Unreserved(c) then [c] else Escape(c) }

  function EncodeURIComponent(s: Bytes): Bytes {
    if s == [] then [] else ComponentByte(s[0]) + EncodeURIComponent(s[1..])
  }

  function Segment(pair: (Bytes, Bytes)): Bytes { FormEncode(pair.0) + [EQUALS] + FormEncode(pair.1) }

  /** searchParams. */
  function SearchParams(pairs: seq<(Bytes, Bytes)>): Bytes {
    if pairs == [] then []
    else if |pairs| == 1 then Segment(pairs[0])
    else Segment(pairs[0]) + [AMPERSAND] + SearchParams(pairs[1..])
  }

  /** "*-._" and "-_.!~*'()". */
  const FORM_KEPT: set<Byte> := {0x2A, 0x2D, 0x2E, 0x5F}
  const COMPONENT_KEPT: set<Byte> := {0x2D, 0x5F, 0x2E, 0x21, 0x7E, 0x2A, 0x27, 0x28, 0x29}

  predicate LetterOrDigit(c: Byte) { 0x30 <= c <= 0x39 || 0x41 <= c <= 0x5A || 0x61 <= c <= 0x7A }

  /** What either printer writes for a byte it does not keep. */
  function PercentForm(c: Byte): Bytes { [PERCENT, UPPER_HEX[c / 16], UPPER_HEX[c % 16]] }

  lemma EscapeIs(c: Byte)
    ensures Escape(c) == PercentForm(c)
  {
    HexDigitIs(c / 16);
    HexDigitIs(c % 16);
  }

  lemma HexDigitIs(n: int)
    requires 0 <= n < 16
    ensures HexDigit(n) == UPPER_HEX[n]
  {
  }

  /** The form encoding byte by byte: which are kept, the space as a plus, the rest as escapes
      with upper-case digits. */
  lemma FormPrints(s: Bytes, c: Byte)
    ensures FormEncode([c] + s) ==
            (if LetterOrDigit(c) || c in FORM_KEPT then [c] else if c == 0x20 then [0x2B] else PercentForm(c))
            + FormEncode(s)
  {
    EscapeIs(c);
    assert ([c] + s)[1..] == s;
  }

  lemma ComponentPrints(s: Bytes, c: Byte)
    ensures EncodeURIComponent([c] + s) ==
            (if LetterOrDigit(c) || c in COMPONENT_KEPT then [c] else PercentForm(c)) + EncodeURIComponent(s)
  {
    EscapeIs(c);
    assert ([c] + s)[1..] == s;
  }

  lemma EscapeReads(c: Byte, rest: Bytes)
    ensures OnePass(Escape(c) + rest) == [c] + OnePass(rest)
  {
    var s := Escape(c) + rest;
    assert Escaped(s) && EscapedByte(s) == c && s[3..] == rest;
  }

  lemma FormByteReads(c: Byte, rest: Bytes)
    ensures OnePass(FormByte(c) + rest) == [c] + OnePass(rest)
  {
    var s := FormByte(c) + rest;
    if |FormByte(c)| == 1 { assert s[1..] == rest; } else { EscapeReads(c, rest); }
  }

  /** Unescaping undoes the form encoding, on all byte strings. */
  lemma {:induction false} FormRoundTrip(s: Bytes)
    ensures Unescape(FormEncode(s)) == s
  {
    OnePassIsUnescape(FormEncode(s));
    if s != [] {
      OnePassIsUnescape(FormEncode(s[1..]));
      FormRoundTrip(s[1..]);
      FormByteReads(s[0], FormEncode(s[1..]));
    }
  }

  /** No byte of the encoded text is a separator. */
  lemma {:induction false} FormHasNoSeparators(s: Bytes)
    ensures AMPERSAND !in FormEncode(s) && EQUALS !in FormEncode(s)
  {
    if s != [] { FormHasNoSeparators(s[1..]); }
  }

  // ---------------------------------------------------------------- splitting

  /** strings.Split at every separator. */
  function Split(s: Bytes, sep: Byte): (r: seq<Bytes>)
    ensures |r| >= 1
  {
    if s == [] then [[]]
    else
      var rest := Split(s[1..], sep);
      if s[0] == sep then [[]] + rest else [[s[0]] + rest[0]] + rest[1..]
  }

  /** The text before the first separator, and after it. */
  function Before(s: Bytes, sep: Byte): Bytes {
    if s == [] || s[0] == sep then [] else [s[0]] + Before(s[1..], sep)
  }

  function Beyond(s: Bytes, sep: Byte): Bytes {
    if s == [] then [] else if s[0] == sep then s[1..] else Beyond(s[1..], sep)
  }

  lemma {:induction false} SplitHead(a: Bytes, b: Bytes, sep: Byte)
    requires sep !in a
    ensures Split(a, sep) == [a]
    ensures Split(a + [sep] + b, sep) == [a] + Split(b, sep)
  {
    var s := a + [sep] + b;
    if a == [] {
      assert s[0] == sep && s[1..] == b;
    } else {
      SplitHead(a[1..], b, sep);
      assert s[0] == a[0] && s[1..] == a[1..] + [sep] + b;
      assert a == [a[0]] + a[1..];
    }
  }

  lemma {:induction false} CutHead(a: Bytes, b: Bytes, sep: Byte)
    requires sep !in a
    ensures Before(a + [sep] + b, sep) == a && Beyond(a + [sep] + b, sep) == b
  {
    var s := a + [sep] + b;
    if a == [] {
      assert s[0] == sep && s[1..] == b;
    } else {
      CutHead(a[1..], b, sep);
      assert s[0] == a[0] && s[1..] == a[1..] + [sep] + b;
      assert a == [a[0]] + a[1..];
    }
  }

  /** Without a separator the text is all key and no value. */
  lemma {:induction false} CutNone(a: Bytes, sep: Byte)
    requires sep !in a
    ensures Before(a, sep) == a && Beyond(a, sep) == []
  {
    if a != [] {
      CutNone(a[1..], sep);
      assert a == [a[0]] + a[1..];
    }
  }

  function Join(segments: seq<Bytes>, sep: Byte): Bytes {
    if segments == [] then []
    else if |segments| == 1 then segments[0]
    else segments[0] + [sep] + Join(segments[1..], sep)
  }

  /** Splitting undoes joining. */
  lemma {:induction false} SplitJoin(segments: seq<Bytes>, sep: Byte)
    requires segments != [] && forall i :: 0 <= i < |segments| ==> sep !in segments[i]
    ensures Split(Join(segments, sep), sep) == segments
  {
    if |segments| == 1 {
      SplitHead(segments[0], [], sep);
    } else {
      SplitJoin(segments[1..], sep);
      SplitHead(segments[0], Join(segments[1..], sep), sep);
    }
  }

  function Segments(pairs: seq<(Bytes, Bytes)>): seq<Bytes> {
    seq(|pairs|, i requires 0 <= i < |pairs| => Segment(pairs[i]))
  }

  lemma SegmentIsWhole(p: (Bytes, Bytes))
    ensures AMPERSAND !in Segment(p)
  {
    FormHasNoSeparators(p.0);
    FormHasNoSeparators(p.1);
  }

  lemma {:induction false} SplitPrinted(pairs: seq<(Bytes, Bytes)>)
    requires pairs != []
    ensures Split(SearchParams(pairs), AMPERSAND) == Segments(pairs)
  {
    var p := pairs[0];
    SegmentIsWhole(p);
    if |pairs| == 1 {
      SplitHead(Segment(p), [], AMPERSAND);
    } else {
      SplitPrinted(pairs[1..]);
      SplitHead(Segment(p), SearchParams(pairs[1..]), AMPERSAND);
      assert Segments(pairs) == [Segment(p)] + Segments(pairs[1..]);
    }
  }

  // ---------------------------------------------------------------- reading

  /** The values of key in these segments, read with the given unescaping; an empty segment
      adds nothing. */
  function Collect(segments: seq<Bytes>, key: Bytes, unescape: Bytes -> Bytes): seq<Bytes> {
    if segments == [] then []
    else
      var seg := segments[|segments| - 1];
      var sofar := Collect(segments[..|segments| - 1], key, unescape);
      if seg != [] && unescape(Before(seg, EQUALS)) == key then sofar + [unescape(Beyond(seg, EQUALS))] else sofar
  }

  function FirstPairs<T>(s: seq<T>): seq<T> { s[..Min(|s|, MAX_PAIRS)] }

  /** What queryValues and, with its own unescaping, parseQuery read. */
  function ValuesIn(raw: Bytes, key: Bytes, unescape: Bytes -> Bytes): seq<Bytes> {
    if raw == [] then [] else Collect(FirstPairs(Split(raw, AMPERSAND)), key, unescape)
  }

  lemma {:induction false} CollectAppends(a: seq<Bytes>, b: seq<Bytes>, key: Bytes, unescape: Bytes -> Bytes)
    ensures Collect(a + b, key, unescape) == Collect(a, key, unescape) + Collect(b, key, unescape)
    decreases |b|
  {
    if b == [] {
      assert a + b == a;
    } else {
      var b' := b[..|b| - 1];
      assert (a + b)[..|a + b| - 1] == a + b';
      CollectAppends(a, b', key, unescape);
    }
  }

  /** What one segment gives a key: split at its first "=", or all key when it has none; an
      empty one gives nothing. */
  lemma SegmentGives(k: Bytes, v: Bytes, key: Bytes, unescape: Bytes -> Bytes)
    requires EQUALS !in k
    ensures Collect([k + [EQUALS] + v], key, unescape) == if unescape(k) == key then [unescape(v)] else []
    ensures k != [] ==> Collect([k], key, unescape) == if unescape(k) == key then [unescape([])] else []
    ensures Collect([[]], key, unescape) == []
  {
    CutHead(k, v, EQUALS);
    CutNone(k, EQUALS);
    assert [k + [EQUALS] + v][..0] == [] && [k][..0] == [];
  }

  /** Any text at all: what is read are the first thousand segments, empty ones counted. */
  lemma ReadsSegments(segments: seq<Bytes>, key: Bytes, unescape: Bytes -> Bytes)
    requires segments != [] && forall i :: 0 <= i < |segments| ==> AMPERSAND !in segments[i]
    ensures ValuesIn(Join(segments, AMPERSAND), key, unescape) ==
            Collect(if |segments| <= 1000 then segments else segments[..1000], key, unescape)
  {
    SplitJoin(segments, AMPERSAND);
    if Join(segments, AMPERSAND) == [] { assert segments == [[]] && segments[..0] == []; }
    if |segments| <= 1000 { assert segments[..|segments|] == segments; }
  }

  /** The values a list of pairs gives a key, in order. */
  function ValuesOf(pairs: seq<(Bytes, Bytes)>, key: Bytes): seq<Bytes> {
    if pairs == [] then []
    else
      var last := pairs[|pairs| - 1];
      var sofar := ValuesOf(pairs[..|pairs| - 1], key);
      if last.0 == key then sofar + [last.1] else sofar
  }

  /** The unescaping reads back every component of these pairs. */
  ghost predicate Reads(pairs: seq<(Bytes, Bytes)>, unescape: Bytes -> Bytes) {
    forall i :: 0 <= i < |pairs| ==>
      unescape(FormEncode(pairs[i].0)) == pairs[i].0 && unescape(FormEncode(pairs[i].1)) == pairs[i].1
  }

  lemma {:induction false} CollectPrinted(pairs: seq<(Bytes, Bytes)>, key: Bytes, unescape: Bytes -> Bytes)
    requires Reads(pairs, unescape)
    ensures Collect(Segments(pairs), key, unescape) == ValuesOf(pairs, key)
  {
    if pairs != [] {
      var n := |pairs| - 1;
      var p := pairs[n];
      assert Segments(pairs)[..n] == Segments(pairs[..n]) && Segments(pairs)[n] == Segment(p);
      CollectPrinted(pairs[..n], key, unescape);
      FormHasNoSeparators(p.0);
      CutHead(FormEncode(p.0), FormEncode(p.1), EQUALS);
    }
  }

  lemma PrintedReadsBack(pairs: seq<(Bytes, Bytes)>, key: Bytes, unescape: Bytes -> Bytes)
    requires Reads(pairs, unescape)
    ensures ValuesIn(SearchParams(pairs), key, unescape) == ValuesOf(FirstPairs(pairs), key)
  {
    if pairs != [] {
      SplitPrinted(pairs);
      assert EQUALS in Segment(pairs[0]);
      assert SearchParams(pairs) != [];
      assert FirstPairs(Segments(pairs)) == Segments(FirstPairs(pairs));
      CollectPrinted(FirstPairs(pairs), key, unescape);
    }
  }

  /** queryValues returns each key's values in order, for any byte-string pairs; beyond the
      thousandth pair nothing is read. */
  lemma QueryRoundTrip(pairs: seq<(Bytes, Bytes)>, key: Bytes)
    ensures ValuesIn(SearchParams(pairs), key, Unescape) == ValuesOf(FirstPairs(pairs), key)
  {
    forall i | 0 <= i < |pairs|
      ensures Unescape(FormEncode(pairs[i].0)) == pairs[i].0 && Unescape(FormEncode(pairs[i].1)) == pairs[i].1
    {
      FormRoundTrip(pairs[i].0);
      FormRoundTrip(pairs[i].1);
    }
    PrintedReadsBack(pairs, key, Unescape);
  }

  lemma {:induction false} NoValues(pairs: seq<(Bytes, Bytes)>, key: Bytes, k: nat)
    requires k <= |pairs| && forall i :: 0 <= i < k ==> pairs[i].0 != key
    ensures ValuesOf(pairs[..k], key) == []
  {
    if k > 0 {
      assert pairs[..k][..k - 1] == pairs[..k - 1];
      NoValues(pairs, key, k - 1);
    }
  }

  lemma {:induction false} ValuesOfAppends(a: seq<(Bytes, Bytes)>, b: seq<(Bytes, Bytes)>, key: Bytes)
    ensures ValuesOf(a + b, key) == ValuesOf(a, key) + ValuesOf(b, key)
    decreases |b|
  {
    if b == [] {
      assert a + b == a;
    } else {
      var b' := b[..|b| - 1];
      assert (a + b)[..|a + b| - 1] == a + b';
      ValuesOfAppends(a, b', key);
    }
  }

  lemma LastHasValue(pairs: seq<(Bytes, Bytes)>)
    requires pairs != []
    ensures ValuesOf(pairs, pairs[|pairs| - 1].0) != []
  {
  }

  /** Reading only the first k pairs loses something of what the last one says. */
  lemma CutLoses(pairs: seq<(Bytes, Bytes)>, k: nat)
    requires k < |pairs|
    ensures ValuesOf(pairs[..k], pairs[|pairs| - 1].0) != ValuesOf(pairs, pairs[|pairs| - 1].0)
  {
    var rest := pairs[k..];
    assert pairs == pairs[..k] + rest && rest[|rest| - 1] == pairs[|pairs| - 1];
    ValuesOfAppends(pairs[..k], rest, pairs[|pairs| - 1].0);
    LastHasValue(rest);
  }

  /** A printed list is read whole, for every key, exactly when it has at most a thousand
      pairs: a longer one loses its last segment, contrary to the note beside queryValues. */
  lemma ReadWholeExactly(pairs: seq<(Bytes, Bytes)>)
    ensures (forall key :: ValuesIn(SearchParams(pairs), key, Unescape) == ValuesOf(pairs, key))
       <==> |pairs| <= MAX_PAIRS
  {
    forall key
      ensures ValuesIn(SearchParams(pairs), key, Unescape) == ValuesOf(FirstPairs(pairs), key)
    {
      QueryRoundTrip(pairs, key);
    }
    if |pairs| <= MAX_PAIRS {
      assert FirstPairs(pairs) == pairs;
    } else {
      CutLoses(pairs, MAX_PAIRS);
    }
  }

  lemma FirstLack(pairs: seq<(Bytes, Bytes)>, key: Bytes, k: nat)
    requires k <= |pairs| && k == Min(|pairs|, MAX_PAIRS)
    requires forall i :: 0 <= i < k ==> pairs[i].0 != key
    ensures ValuesOf(FirstPairs(pairs), key) == []
  {
    NoValues(pairs, key, k);
  }

  /** A key that the first thousand pairs lack is not found. */
  lemma BeyondThousandUnread(pairs: seq<(Bytes, Bytes)>, key: Bytes)
    requires forall i :: 0 <= i < Min(|pairs|, MAX_PAIRS) ==> pairs[i].0 != key
    ensures ValuesIn(SearchParams(pairs), key, Unescape) == []
  {
    QueryRoundTrip(pairs, key);
    FirstLack(pairs, key, Min(|pairs|, MAX_PAIRS));
  }

  /** A thousand pairs with one key, then one with another. */
  function ThousandAndOne(): seq<(Bytes, Bytes)> {
    seq(1001, i => if i < 1000 then ([0x61], [0x31]) else ([0x62], [0x32]))
  }

  lemma LastSegmentUnread()
    ensures |ThousandAndOne()| == 1001 && ThousandAndOne()[1000] == ([0x62], [0x32])
    ensures ValuesIn(SearchParams(ThousandAndOne()), [0x62], Unescape) == []
  {
    BeyondThousandUnread(ThousandAndOne(), [0x62]);
  }

  // ---------------------------------------------------------------- components

  predicate Plain(s: Bytes) { PLUS !in s && PERCENT !in s }

  /** decodeQueryComponent. */
  function DecodeComponent(s: Bytes): Bytes { if Plain(s) then s else Repaired(OnePass(s)) }

  lemma {:induction false} PlainUnescapes(s: Bytes)
    requires Plain(s)
    ensures OnePass(s) == s
  {
    if s != [] {
      PlainUnescapes(s[1..]);
      assert s == [s[0]] + s[1..];
    }
  }

  /** Exactly when the two unescapings agree: only the replacement of invalid text differs. */
  lemma UnescapingsAgreeExactly(s: Bytes)
    ensures DecodeComponent(s) == Unescape(s) <==> Plain(s) || Valid(Unescape(s))
  {
    OnePassIsUnescape(s);
    if Plain(s) { PlainUnescapes(s); }
    RepairedExactly(OnePass(s));
  }

  lemma ComponentByteReads(c: Byte, rest: Bytes)
    ensures OnePass(ComponentByte(c) + rest) == [c] + OnePass(rest)
  {
    var e := ComponentByte(c) + rest;
    if Unreserved(c) { assert e[1..] == rest; } else { EscapeReads(c, rest); }
  }

  lemma {:induction false} ComponentReads(s: Bytes)
    ensures OnePass(EncodeURIComponent(s)) == s
  {
    if s != [] {
      ComponentReads(s[1..]);
      ComponentByteReads(s[0], EncodeURIComponent(s[1..]));
      assert s == [s[0]] + s[1..];
    }
  }

  /** Text that needs no escape is ASCII. */
  lemma {:induction false} PlainComponentIsAscii(s: Bytes)
    requires Plain(EncodeURIComponent(s))
    ensures forall i :: 0 <= i < |s| ==> s[i] <= 0x7F
  {
    if s != [] {
      var first, rest := ComponentByte(s[0]), EncodeURIComponent(s[1..]);
      assert forall c :: c in rest ==> c in first + rest;
      assert first[0] in first + rest;
      PlainComponentIsAscii(s[1..]);
    }
  }

  lemma {:induction false} AsciiIsValid(s: Bytes)
    requires forall i :: 0 <= i < |s| ==> s[i] <= 0x7F
    ensures EncodeAll(s) == s
  {
    if s != [] {
      AsciiIsValid(s[1..]);
      assert s == [s[0]] + s[1..];
    }
  }

  /** decodeQueryComponent undoes EncodeURIComponent exactly on valid UTF-8. */
  lemma ComponentRoundTripExactly(s: Bytes)
    ensures DecodeComponent(EncodeURIComponent(s)) == s <==> Valid(s)
  {
    var e := EncodeURIComponent(s);
    ComponentReads(s);
    RepairedExactly(s);
    if Plain(e) {
      PlainUnescapes(e);
      PlainComponentIsAscii(s);
      AsciiIsValid(s);
    }
  }

  /** The form encoding is read back by decodeQueryComponent too, on valid UTF-8. */
  lemma FormComponentRoundTrip(s: Bytes)
    requires Valid(s)
    ensures DecodeComponent(FormEncode(s)) == s
  {
    FormRoundTrip(s);
    UnescapingsAgreeExactly(FormEncode(s));
  }

  /** parseQuery returns each key's values in order when keys and values are valid UTF-8. */
  lemma ParseRoundTrip(pairs: seq<(Bytes, Bytes)>, key: Bytes)
    requires forall i :: 0 <= i < |pairs| ==> Valid(pairs[i].0) && Valid(pairs[i].1)
    ensures ValuesIn(SearchParams(pairs), key, DecodeComponent) == ValuesOf(FirstPairs(pairs), key)
  {
    forall i | 0 <= i < |pairs|
      ensures DecodeComponent(FormEncode(pairs[i].0)) == pairs[i].0
      ensures DecodeComponent(FormEncode(pairs[i].1)) == pairs[i].1
    {
      FormComponentRoundTrip(pairs[i].0);
      FormComponentRoundTrip(pairs[i].1);
    }
    PrintedReadsBack(pairs, key, DecodeComponent);
  }
}
