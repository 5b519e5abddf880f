/** JSON string literals: escaping, the two passes that read a literal back, and UTF-16 escapes as
    UTF-8. */
module JsonText {
  import opened Text

  // ---- escaping ------------------------------------------------------------------------------

  const HEX := "0123456789abcdef"

  function EscapeChar(c: char): (r: string)
    ensures |r| == 1 || |r| == 2 || |r| == 6
    ensures |r| == 1 <==> c as int > 31 && c != '"' && c != '\\'
    ensures |r| == 6 ==> c as int < 32
  {
    if c as int > 31 && c != '"' && c != '\\' then [c]
    else
      match c
      case '\\' => "\\\\"
      case '"' => "\\\""
      case '\U{08}' => "\\b"
      case '\U{0C}' => "\\f"
      case '\n' => "\\n"
      case '\r' => "\\r"
      case '\t' => "\\t"
      case _ => "\\u00" + [HEX[c as int / 16], HEX[c as int % 16]]
  }

  function Escape(s: string): string {
    if s == "" then "" else EscapeChar(s[0]) + Escape(s[1..])
  }

  function Quote(s: string): string {
    "\"" + Escape(s) + "\""
  }

  // ---- UTF-16 escapes -----------------------------------------------------------------------------

  function HexDigit(c: char): Option<nat> {
    if '0' <= c <= '9' then Some(c as int - '0' as int)
    else if 'A' <= c <= 'F' then Some(10 + c as int - 'A' as int)
    else if 'a' <= c <= 'f' then Some(10 + c as int - 'a' as int)
    else None
  }

  predicate AreHex(s: string) {
    forall i :: 0 <= i < |s| ==> HexDigit(s[i]).Some?
  }

  /** Four hexadecimal digits; zero when one of them is not a digit. */
  function Hex4(s: string): (h: nat)
    requires |s| == 4
    ensures h < 0x10000
    ensures !AreHex(s) ==> h == 0
  {
    if AreHex(s) then
      HexDigit(s[0]).value * 0x1000 + HexDigit(s[1]).value * 0x100 + HexDigit(s[2]).value * 0x10 + HexDigit(s[3]).value
    else 0
  }

  /** RFC 3629, section 3. */
  function Utf8(cp: nat): (r: string)
    requires cp <= 0x10FFFF
    ensures 1 <= |r| <= 4
    ensures |r| == 4 <==> 0x10000 <= cp
  {
    if cp < 0x80 then [cp as char]
    else if cp < 0x800 then [(0xC0 + cp / 0x40) as char, (0x80 + cp % 0x40) as char]
    else if cp < 0x10000 then
      [(0xE0 + cp / 0x1000) as char, (0x80 + cp / 0x40 % 0x40) as char, (0x80 + cp % 0x40) as char]
    else
      [(0xF0 + cp / 0x40000) as char, (0x80 + cp / 0x1000 % 0x40) as char, (0x80 + cp / 0x40 % 0x40) as char,
       (0x80 + cp % 0x40) as char]
  }

  /** The scalar value a UTF-8 sequence stands for. */
  function Utf8Value(r: string): int
    requires 1 <= |r| <= 4
  {
    match |r|
    case 1 => r[0] as int
    case 2 => (r[0] as int - 0xC0) * 0x40 + (r[1] as int - 0x80)
    case 3 => (r[0] as int - 0xE0) * 0x1000 + (r[1] as int - 0x80) * 0x40 + (r[2] as int - 0x80)
    case _ =>
      (r[0] as int - 0xF0) * 0x40000 + (r[1] as int - 0x80) * 0x1000 + (r[2] as int - 0x80) * 0x40 + (r[3] as int - 0x80)
  }

  predicate IsContinuation(c: char) {
    0x80 <= c as int < 0xC0
  }

  /** RFC 3629, section 3, read as a grammar: the lead byte tells the length, the others continue, and
      the value needs that length. */
  predicate IsUtf8(r: string) {
    && 1 <= |r| <= 4
    && (forall i :: 0 < i < |r| ==> IsContinuation(r[i]))
    && match |r|
       case 1 => r[0] as int < 0x80
       case 2 => 0xC0 <= r[0] as int < 0xE0 && 0x80 <= Utf8Value(r)
       case 3 => 0xE0 <= r[0] as int < 0xF0 && 0x800 <= Utf8Value(r)
       case _ => 0xF0 <= r[0] as int < 0xF8 && 0x10000 <= Utf8Value(r) <= 0x10FFFF
  }

  /** The encoding is the one sequence of that form with that value. */
  lemma Utf8Inverts(cp: nat, r: string)
    requires cp <= 0x10FFFF
    ensures r == Utf8(cp) <==> IsUtf8(r) && Utf8Value(r) == cp
  {
    Utf8Form(cp);
    if IsUtf8(r) && Utf8Value(r) == cp {
      Utf8Unique(cp, r);
    }
  }

  lemma Utf8Form(cp: nat)
    requires cp <= 0x10FFFF
    ensures IsUtf8(Utf8(cp)) && Utf8Value(Utf8(cp)) == cp
  {
    if 0x10000 <= cp {
      assert cp / 0x40000 == cp / 0x1000 / 0x40 && cp / 0x1000 == cp / 0x40 / 0x40;
    } else if 0x800 <= cp {
      assert cp / 0x1000 == cp / 0x40 / 0x40;
    }
  }

  lemma Utf8Unique(cp: nat, r: string)
    requires cp <= 0x10FFFF && IsUtf8(r) && Utf8Value(r) == cp
    ensures r == Utf8(cp)
  {
    var n := |r|;
    assert n > 1 ==> IsContinuation(r[1]);
    assert n > 2 ==> IsContinuation(r[2]);
    assert n > 3 ==> IsContinuation(r[3]);
    match n {
      case 1 =>
      case 2 =>
        assert cp / 0x40 == r[0] as int - 0xC0;
      case 3 =>
        assert cp / 0x40 == (r[0] as int - 0xE0) * 0x40 + (r[1] as int - 0x80);
        assert cp / 0x1000 == r[0] as int - 0xE0;
      case _ =>
        assert cp / 0x40 == (r[0] as int - 0xF0) * 0x1000 + (r[1] as int - 0x80) * 0x40 + (r[2] as int - 0x80);
        assert cp / 0x1000 == (r[0] as int - 0xF0) * 0x40 + (r[1] as int - 0x80);
        assert cp / 0x40000 == r[0] as int - 0xF0;
    }
  }

  predicate IsHighSurrogate(u: nat) {
    0xD800 <= u <= 0xDBFF
  }

  predicate IsLowSurrogate(u: nat) {
    0xDC00 <= u <= 0xDFFF
  }

  /** RFC 2781, section 2.2. */
  function FromSurrogates(hi: nat, lo: nat): (cp: nat)
    requires IsHighSurrogate(hi) && IsLowSurrogate(lo)
    ensures 0x10000 <= cp <= 0x10FFFF
  {
    0x10000 + (hi - 0xD800) * 0x400 + (lo - 0xDC00)
  }

  /** The code point of the escape at `i`, and how many bytes it takes: 6, or 12 for a pair. */
  function Utf16Literal(s: string, i: nat, end: nat): (r: Option<(nat, nat)>)
    requires i <= end <= |s|
    ensures r.Some? ==> r.value.0 <= 0x10FFFF && i + r.value.1 <= end
    ensures r.Some? ==> r.value.1 == if 0x10000 <= r.value.0 then 12 else 6
  {
    if end - i < 6 then None
    else
      var first := Hex4(s[i + 2..i + 6]);
      if IsLowSurrogate(first) then None
      else if IsHighSurrogate(first) then
        if end - i < 12 || s[i + 6] != '\\' || s[i + 7] != 'u' then None
        else
          var second := Hex4(s[i + 8..i + 12]);
          if !IsLowSurrogate(second) then None else Some((FromSurrogates(first, second), 12))
      else Some((first, 6))
  }

  // ---- reading a literal back ------------------------------------------------------------------------

  /** First pass: the closing quote, passing over whatever follows a backslash. */
  function CloseQuote(s: string, i: nat): (r: Option<nat>)
    requires i <= |s|
    ensures r.Some? ==> i <= r.value < |s| && s[r.value] == '"'
    decreases |s| - i
  {
    if i == |s| then None
    else if s[i] == '"' then Some(i)
    else if s[i] == '\\' then if i + 1 == |s| then None else CloseQuote(s, i + 2)
    else CloseQuote(s, i + 1)
  }

  function SimpleEscape(c: char): Option<char> {
    match c
    case 'b' => Some('\U{08}')
    case 'f' => Some('\U{0C}')
    case 'n' => Some('\n')
    case 'r' => Some('\r')
    case 't' => Some('\t')
    case '"' | '\\' | '/' => Some(c)
    case _ => None
  }

  /** Second pass: the bytes between `i` and the closing quote at `end`, unescaped. A malformed
      \u escape can leave it inside what the first pass took for an escape, even past `end`. */
  function Decode(s: string, i: nat, end: nat): (r: Option<string>)
    requires end < |s| && i <= |s|
    decreases |s| - i
  {
    if i >= end then Some("")
    else if s[i] != '\\' then Prepend([s[i]], Decode(s, i + 1, end))
    else if s[i + 1] == 'u' then
      var u := Utf16Literal(s, i, end);
      if u.None? then None else Prepend(Utf8(u.value.0), Decode(s, i + u.value.1, end))
    else
      var c := SimpleEscape(s[i + 1]);
      if c.None? then None else Prepend([c.value], Decode(s, i + 2, end))
  }

  function Prepend(p: string, r: Option<string>): Option<string> {
    match r
    case None => None
    case Some(t) => Some(p + t)
  }

  /** A literal at `o`: its decoded bytes and the position after the closing quote. */
  function ReadLiteral(s: string, o: nat): (r: Option<(string, nat)>)
    requires o < |s|
    ensures r.Some? ==> o + 1 < r.value.1 <= |s|
  {
    if s[o] != '"' then None
    else
      var close := CloseQuote(s, o + 1);
      if close.None? then None
      else
        var bytes := Decode(s, o + 1, close.value);
        if bytes.None? then None else Some((bytes.value, close.value + 1))
  }

  // ---- text in place ---------------------------------------------------------------------------------------

  /** `t` stands at position `o` of `s`. */
  ghost predicate Holds(s: string, o: nat, t: string) {
    o + |t| <= |s| && forall k :: 0 <= k < |t| ==> t[k] == s[o + k]
  }

  lemma HoldsParts(s: string, o: nat, a: string, b: string)
    requires Holds(s, o, a + b)
    ensures Holds(s, o, a) && Holds(s, o + |a|, b)
  {
    assert forall k :: 0 <= k < |a| ==> a[k] == (a + b)[k];
    assert forall k :: 0 <= k < |b| ==> b[k] == (a + b)[|a| + k];
  }

  lemma HoldsSlice(s: string, o: nat, t: string)
    requires Holds(s, o, t)
    ensures s[o..o + |t|] == t
  {
  }

  // ---- what a well-formed literal stands for -----------------------------------------------------------

  /** Four hexadecimal digits, in either case, for the UTF-16 unit `u`. */
  predicate IsUnit(t: string, u: nat) {
    |t| == 6 && t[0] == '\\' && t[1] == 'u' && AreHex(t[2..6]) && Hex4(t[2..6]) == u
  }

  /** `t` escapes the scalar value `cp`: one unit, or a high and a low surrogate. */
  ghost predicate EscapesScalar(t: string, cp: nat) {
    || (IsUnit(t, cp) && !IsHighSurrogate(cp) && !IsLowSurrogate(cp))
    || (|t| == 12 && exists hi: nat, lo: nat ::
          IsUnit(t[..6], hi) && IsUnit(t[6..], lo)
          && IsHighSurrogate(hi) && IsLowSurrogate(lo) && cp == FromSurrogates(hi, lo))
  }

  /** A piece of a literal: a byte that stands for itself, a backslash and a letter, or an escaped
      scalar value. */
  datatype Piece = Byte(c: char) | Letter(c: char) | Scalar(text: string, cp: nat)
  {
    ghost predicate Valid() {
      match this
      case Byte(c) => c != '"' && c != '\\'
      case Letter(c) => SimpleEscape(c).Some?
      case Scalar(text, cp) => cp <= 0x10FFFF && EscapesScalar(text, cp)
    }

    function Text(): (r: string)
      requires Valid()
      ensures r != ""
    {
      match this
      case Byte(c) => [c]
      case Letter(c) => ['\\', c]
      case Scalar(text, _) => text
    }

    function Bytes(): string
      requires Valid()
    {
      match this
      case Byte(c) => [c]
      case Letter(c) => [SimpleEscape(c).value]
      case Scalar(_, cp) => Utf8(cp)
    }
  }

  ghost predicate AllValid(ps: seq<Piece>) {
    forall i :: 0 <= i < |ps| ==> ps[i].Valid()
  }

  function Texts(ps: seq<Piece>): string
    requires AllValid(ps)
  {
    if ps == [] then "" else ps[0].Text() + Texts(ps[1..])
  }

  function BytesOf(ps: seq<Piece>): string
    requires AllValid(ps)
  {
    if ps == [] then "" else ps[0].Bytes() + BytesOf(ps[1..])
  }

  lemma UnitInPlace(s: string, o: nat, t: string, u: nat)
    requires Holds(s, o, t) && IsUnit(t, u)
    ensures s[o] == '\\' && s[o + 1] == 'u' && Hex4(s[o + 2..o + 6]) == u
    ensures CloseQuote(s, o) == CloseQuote(s, o + 6)
  {
    assert t[0] == s[o] && t[1] == s[o + 1];
    HoldsSlice(s, o, t);
    assert s[o + 2..o + 6] == t[2..6];
    assert s[o + 2] == t[2..6][0] && s[o + 3] == t[2..6][1] && s[o + 4] == t[2..6][2] && s[o + 5] == t[2..6][3];
    hide HexDigit, Hex4;
    PlainCloses(s, o + 2);
    PlainCloses(s, o + 3);
    PlainCloses(s, o + 4);
    PlainCloses(s, o + 5);
  }

  lemma PlainCloses(s: string, o: nat)
    requires o < |s| && HexDigit(s[o]).Some?
    ensures CloseQuote(s, o) == CloseQuote(s, o + 1)
  {
  }

  /** Both passes over an escaped scalar value. */
  lemma ScalarReads(s: string, o: nat, t: string, cp: nat, end: nat)
    requires cp <= 0x10FFFF && EscapesScalar(t, cp) && Holds(s, o, t)
    ensures CloseQuote(s, o) == CloseQuote(s, o + |t|)
    ensures o + |t| <= end < |s| ==> Decode(s, o, end) == Prepend(Utf8(cp), Decode(s, o + |t|, end))
  {
    hide Utf8, Hex4, CloseQuote;
    if IsUnit(t, cp) && !IsHighSurrogate(cp) && !IsLowSurrogate(cp) {
      UnitInPlace(s, o, t, cp);
    } else {
      var hi: nat, lo: nat :| IsUnit(t[..6], hi) && IsUnit(t[6..], lo)
        && IsHighSurrogate(hi) && IsLowSurrogate(lo) && cp == FromSurrogates(hi, lo);
      assert t == t[..6] + t[6..];
      HoldsParts(s, o, t[..6], t[6..]);
      UnitInPlace(s, o, t[..6], hi);
      UnitInPlace(s, o + 6, t[6..], lo);
    }
  }

  /** The first pass goes over a piece, the second takes its bytes from it. */
  lemma PieceReads(s: string, o: nat, p: Piece, end: nat)
    requires p.Valid() && Holds(s, o, p.Text())
    ensures CloseQuote(s, o) == CloseQuote(s, o + |p.Text()|)
    ensures o + |p.Text()| <= end < |s| ==> Decode(s, o, end) == Prepend(p.Bytes(), Decode(s, o + |p.Text()|, end))
  {
    hide Utf16Literal, Utf8;
    match p {
      case Byte(c) =>
        assert p.Text()[0] == s[o];
      case Letter(c) =>
        assert p.Text()[0] == s[o] && p.Text()[1] == s[o + 1];
      case Scalar(text, cp) =>
        ScalarReads(s, o, text, cp, end);
    }
  }

  lemma PiecesHead(s: string, o: nat, ps: seq<Piece>)
    requires AllValid(ps) && ps != [] && Holds(s, o, Texts(ps))
    ensures ps[0].Valid() && AllValid(ps[1..]) && Holds(s, o, ps[0].Text()) && Holds(s, o + |ps[0].Text()|, Texts(ps[1..]))
    ensures |Texts(ps)| == |ps[0].Text()| + |Texts(ps[1..])|
    ensures forall r: string :: r == BytesOf(ps[1..]) ==> Prepend(ps[0].Bytes(), Some(r)) == Some(BytesOf(ps))
  {
    hide Piece.Valid, Piece.Text, Piece.Bytes;
    HoldsParts(s, o, ps[0].Text(), Texts(ps[1..]));
  }

  lemma {:induction false} PiecesClose(s: string, o: nat, ps: seq<Piece>)
    requires AllValid(ps) && Holds(s, o, Texts(ps)) && o + |Texts(ps)| < |s| && s[o + |Texts(ps)|] == '"'
    ensures CloseQuote(s, o) == Some(o + |Texts(ps)|)
    decreases |ps|
  {
    if ps == [] {
      hide Holds, AllValid;
    } else {
      hide *;
      PiecesHead(s, o, ps);
      PieceReads(s, o, ps[0], 0);
      PiecesClose(s, o + |ps[0].Text()|, ps[1..]);
    }
  }

  lemma {:induction false} PiecesDecode(s: string, o: nat, ps: seq<Piece>, end: nat)
    requires AllValid(ps) && Holds(s, o, Texts(ps)) && end == o + |Texts(ps)| < |s|
    ensures Decode(s, o, end) == Some(BytesOf(ps))
    decreases |ps|
  {
    if ps == [] {
      hide Holds, AllValid;
    } else {
      hide *;
      PiecesHead(s, o, ps);
      PieceReads(s, o, ps[0], end);
      PiecesDecode(s, o + |ps[0].Text()|, ps[1..], end);
    }
  }

  /** A literal made of well-formed pieces is read as the bytes they stand for, up to behind its quote. */
  lemma LiteralReads(s: string, o: nat, ps: seq<Piece>)
    requires AllValid(ps) && Holds(s, o, "\"" + Texts(ps) + "\"")
    ensures o < |s| && ReadLiteral(s, o) == Some((BytesOf(ps), o + |Texts(ps)| + 2))
  {
    hide CloseQuote, Decode, Texts, BytesOf, AllValid;
    var t := "\"" + Texts(ps) + "\"";
    assert t[0] == s[o] && t[|t| - 1] == s[o + (|t| - 1)];
    HoldsParts(s, o, "\"" + Texts(ps), "\"");
    HoldsParts(s, o, "\"", Texts(ps));
    PiecesClose(s, o + 1, ps);
    PiecesDecode(s, o + 1, ps, o + 1 + |Texts(ps)|);
  }

  // ---- escaping inverts ----------------------------------------------------------------------------------

  /** The piece the printer writes for a byte. */
  function PieceOf(c: char): Piece {
    var e := EscapeChar(c);
    if |e| == 1 then Byte(c) else if |e| == 2 then Letter(e[1]) else Scalar(e, c as int)
  }

  lemma PieceIsEscape(c: char)
    ensures PieceOf(c).Valid() && PieceOf(c).Text() == EscapeChar(c) && PieceOf(c).Bytes() == [c]
  {
    var e := EscapeChar(c);
    if |e| == 6 {
      var n := c as int;
      HexOfSmall(n);
      assert e[2..6] == ['0', '0', HEX[n / 16], HEX[n % 16]];
      assert IsUnit(e, n);
    }
  }

  lemma HexOfSmall(n: nat)
    requires n < 32
    ensures HexDigit(HEX[n / 16]) == Some(n / 16) && HexDigit(HEX[n % 16]) == Some(n % 16)
  {
  }

  function PiecesOf(s: string): (ps: seq<Piece>)
    ensures |ps| == |s| && forall i :: 0 <= i < |s| ==> ps[i] == PieceOf(s[i])
  {
    seq(|s|, i requires 0 <= i < |s| => PieceOf(s[i]))
  }

  lemma {:induction false} PiecesAreEscape(s: string)
    ensures AllValid(PiecesOf(s)) && Texts(PiecesOf(s)) == Escape(s) && BytesOf(PiecesOf(s)) == s
    decreases |s|
  {
    hide PieceOf, Piece.Valid, Piece.Text, Piece.Bytes, EscapeChar;
    var ps := PiecesOf(s);
    forall i | 0 <= i < |ps| ensures ps[i].Valid() {
      PieceIsEscape(s[i]);
    }
    if s != "" {
      PiecesAreEscape(s[1..]);
      PieceIsEscape(s[0]);
      assert ps[1..] == PiecesOf(s[1..]);
    }
  }

  /** `parse_string(print_string_ptr(s)) == s`, for every byte string. */
  lemma QuoteInverts(s: string, o: nat, str: string)
    requires Holds(s, o, Quote(str))
    ensures o < |s| && ReadLiteral(s, o) == Some((str, o + |Quote(str)|))
  {
    hide Escape, ReadLiteral, Texts, BytesOf, Holds;
    PiecesAreEscape(str);
    LiteralReads(s, o, PiecesOf(str));
  }

  // ---- the buffer is large enough ------------------------------------------------------------------------------

  /** What the first pass counts between `i` and the closing quote: an escape and a plain byte are
      one each. */
  function Units(s: string, i: nat, end: nat): nat
    requires end <= |s|
    decreases end - i
  {
    if i >= end then 0 else if s[i] == '\\' then 1 + Units(s, i + 2, end) else 1 + Units(s, i + 1, end)
  }

  /** Four bytes on from a boundary of the first pass: at a boundary again, or inside an escape. */
  lemma FourBytes(s: string, j: nat, end: nat)
    requires j + 4 <= end <= |s| && CloseQuote(s, j) == Some(end)
    ensures AreHex(s[j..j + 4]) ==> CloseQuote(s, j + 4) == Some(end) && Units(s, j, end) == 4 + Units(s, j + 4, end)
    ensures || (CloseQuote(s, j + 4) == Some(end) && Units(s, j, end) >= 2 + Units(s, j + 4, end))
      || (j + 5 <= end && CloseQuote(s, j + 5) == Some(end) && Units(s, j, end) >= 3 + Units(s, j + 5, end))
  {
    var t := s[j..j + 4];
    assert t[0] == s[j] && t[1] == s[j + 1] && t[2] == s[j + 2] && t[3] == s[j + 3];
    OneStep(s, j, end);
    OneStep(s, j + 1, end);
    OneStep(s, j + 2, end);
    OneStep(s, j + 3, end);
  }

  /** A step of the first pass. */
  lemma OneStep(s: string, i: nat, end: nat)
    requires i < end <= |s|
    ensures CloseQuote(s, i) == Some(end) && s[i] == '\\' ==>
      i + 2 <= end && CloseQuote(s, i + 2) == Some(end) && Units(s, i, end) == 1 + Units(s, i + 2, end)
    ensures CloseQuote(s, i) == Some(end) && s[i] != '\\' ==>
      CloseQuote(s, i + 1) == Some(end) && Units(s, i, end) == 1 + Units(s, i + 1, end)
  {
  }

  /** How many bytes the second pass may still write at `i`: at a boundary of the first pass, or
      (`mid`) inside one of its escapes, where a malformed escape has left one byte to spare. */
  function Budget(s: string, i: nat, end: nat, mid: bool): nat
    requires end <= |s|
  {
    if i >= end then 0 else if mid then Units(s, i + 1, end) + 1 else Units(s, i, end)
  }

  predicate InStep(s: string, i: nat, end: nat, mid: bool)
    requires end < |s|
  {
    i < end ==> CloseQuote(s, if mid then i + 1 else i) == Some(end)
  }

  lemma PlainStep(s: string, i: nat, end: nat, mid: bool)
    requires i < end < |s| && InStep(s, i, end, mid) && s[i] != '\\'
    ensures InStep(s, i + 1, end, false) && 1 + Budget(s, i + 1, end, false) <= Budget(s, i, end, mid)
  {
    OneStep(s, i, end);
  }

  lemma EscapeStep(s: string, i: nat, end: nat, mid: bool) returns (mid': bool)
    requires i < end < |s| && InStep(s, i, end, mid) && s[i] == '\\'
    ensures InStep(s, i + 2, end, mid') && 1 + Budget(s, i + 2, end, mid') <= Budget(s, i, end, mid)
  {
    hide CloseQuote;
    mid' := mid && i + 1 < end && s[i + 1] == '\\';
    if i + 1 < end || !mid {
      OneStep(s, if mid then i + 1 else i, end);
    }
  }

  lemma UnicodeStep(s: string, i: nat, end: nat, mid: bool) returns (mid': bool)
    requires i < end < |s| && InStep(s, i, end, mid) && s[i] == '\\' && s[i + 1] == 'u'
    requires Utf16Literal(s, i, end).Some?
    ensures var u := Utf16Literal(s, i, end).value;
      && InStep(s, i + u.1, end, mid')
      && |Utf8(u.0)| + Budget(s, i + u.1, end, mid') <= Budget(s, i, end, mid)
  {
    hide CloseQuote, Units, Utf8, Budget, InStep;
    if Utf16Literal(s, i, end).value.1 == 12 {
      PairStep(s, i, end, mid);
      mid' := false;
    } else {
      mid' := UnitStep(s, i, end, mid);
    }
  }

  lemma PairStep(s: string, i: nat, end: nat, mid: bool)
    requires i < end < |s| && InStep(s, i, end, mid) && s[i] == '\\' && s[i + 1] == 'u'
    requires Utf16Literal(s, i, end).Some? && Utf16Literal(s, i, end).value.1 == 12
    ensures InStep(s, i + 12, end, false) && 4 + Budget(s, i + 12, end, false) <= Budget(s, i, end, mid)
  {
    hide CloseQuote, Units, AreHex, Utf16Literal;
    PairDigits(s, i, end);
    OneStep(s, if mid then i + 1 else i, end);
    FourBytes(s, i + 2, end);
    OneStep(s, i + 6, end);
    FourBytes(s, i + 8, end);
    UnitsBound(s, i + 12, end);
  }

  lemma PairDigits(s: string, i: nat, end: nat)
    requires i < end < |s| && Utf16Literal(s, i, end).Some? && Utf16Literal(s, i, end).value.1 == 12
    ensures i + 12 <= end && s[i + 6] == '\\' && AreHex(s[i + 2..i + 6]) && AreHex(s[i + 8..i + 12])
  {
    hide AreHex;
  }

  lemma UnitStep(s: string, i: nat, end: nat, mid: bool) returns (mid': bool)
    requires i < end < |s| && InStep(s, i, end, mid) && s[i] == '\\' && s[i + 1] == 'u'
    requires Utf16Literal(s, i, end).Some? && Utf16Literal(s, i, end).value.1 == 6
    ensures var u := Utf16Literal(s, i, end).value;
      && InStep(s, i + 6, end, mid')
      && |Utf8(u.0)| + Budget(s, i + 6, end, mid') <= Budget(s, i, end, mid)
  {
    hide CloseQuote, Units, AreHex, Hex4;
    UnitLength(s, i, end);
    OneStep(s, if mid then i + 1 else i, end);
    FourBytes(s, i + 2, end);
    mid' := !(CloseQuote(s, i + 6) == Some(end) && Units(s, i + 2, end) >= 2 + Units(s, i + 6, end));
    UnitsBound(s, i + 6, end);
  }

  /** A malformed unit takes one byte, any other at most three. */
  lemma UnitLength(s: string, i: nat, end: nat)
    requires i < end < |s| && Utf16Literal(s, i, end).Some? && Utf16Literal(s, i, end).value.1 == 6
    ensures var n := |Utf8(Utf16Literal(s, i, end).value.0)|;
      n <= 3 && (!AreHex(s[i + 2..i + 6]) ==> n == 1)
  {
    hide AreHex;
  }

  lemma UnitsBound(s: string, i: nat, end: nat)
    requires end <= |s|
    ensures i >= end ==> Units(s, i, end) == 0
    ensures i < end ==> Units(s, i, end) >= 1
  {
  }

  /** In step with the first pass or not, what the second pass still writes fits the budget; so a
      whole literal decodes to no more bytes than the first pass counted. */
  lemma {:induction false} DecodeFits(s: string, i: nat, end: nat, mid: bool)
    requires i <= |s| && end < |s| && InStep(s, i, end, mid)
    ensures Decode(s, i, end).Some? ==> |Decode(s, i, end).value| <= Budget(s, i, end, mid)
    decreases |s| - i
  {
    if i < end && Decode(s, i, end).Some? {
      hide Budget, InStep, Utf16Literal, Utf8;
      if s[i] != '\\' {
        PlainStep(s, i, end, mid);
        DecodeFits(s, i + 1, end, false);
      } else if s[i + 1] == 'u' {
        var mid' := UnicodeStep(s, i, end, mid);
        DecodeFits(s, i + Utf16Literal(s, i, end).value.1, end, mid');
      } else {
        var mid' := EscapeStep(s, i, end, mid);
        DecodeFits(s, i + 2, end, mid');
      }
    }
  }
}
