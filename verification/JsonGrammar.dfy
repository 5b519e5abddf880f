/** Which string literals the parser accepts, measured by the grammar of RFC 8259, section 7. */
module JsonGrammar {
  import opened Text
  import opened JsonText

  // ---- well-formed literals ----------------------------------------------------------------------

  /** The literal from `o` up to `n` is made of these pieces. */
  ghost predicate MadeOf(s: string, o: nat, n: nat, ps: seq<Piece>) {
    AllValid(ps) && Holds(s, o, "\"" + Texts(ps) + "\"") && n == o + |Texts(ps)| + 2
  }

  /** Bytes that stand for themselves are no control characters. */
  predicate NoControlPieces(ps: seq<Piece>) {
    forall i :: 0 <= i < |ps| && ps[i].Byte? ==> ps[i].c >= ' '
  }

  /** A literal of well-formed pieces, control characters admitted. */
  ghost predicate WellFormed(s: string, o: nat, n: nat) {
    exists ps :: MadeOf(s, o, n, ps)
  }

  /** A literal of the grammar, with its surrogates in pairs. */
  ghost predicate Grammatical(s: string, o: nat, n: nat) {
    exists ps :: MadeOf(s, o, n, ps) && NoControlPieces(ps)
  }

  /** Every \u between `i` and the closing quote at `end` has its four hexadecimal digits. */
  predicate HexEscapes(s: string, i: nat, end: nat)
    requires i <= |s| && end < |s|
    decreases |s| - i
  {
    if i >= end then true
    else if s[i] != '\\' then HexEscapes(s, i + 1, end)
    else if s[i + 1] != 'u' then HexEscapes(s, i + 2, end)
    else i + 6 <= end && AreHex(s[i + 2..i + 6]) && HexEscapes(s, i + 6, end)
  }

  predicate NoControls(s: string, i: nat, end: nat)
    requires end <= |s|
  {
    forall k :: i <= k < end ==> s[k] >= ' '
  }

  /** Exactly when what is accepted is well formed: the digits of its \u escapes are digits; and
      when it is of the grammar: besides, no byte in it is a control character. */
  lemma AcceptedExactly(s: string, o: nat, n: nat)
    requires o < |s|
    ensures var r := ReadLiteral(s, o);
      var hex := r.Some? && r.value.1 == n && HexEscapes(s, o + 1, n - 1);
      && (WellFormed(s, o, n) <==> hex)
      && (Grammatical(s, o, n) <==> hex && NoControls(s, o + 1, n - 1))
  {
    hide ReadLiteral, MadeOf, NoControlPieces, HexEscapes, NoControls;
    forall ps | MadeOf(s, o, n, ps)
      ensures
        var r := ReadLiteral(s, o);
        && r.Some? && r.value.1 == n && HexEscapes(s, o + 1, n - 1)
        && (NoControlPieces(ps) <==> NoControls(s, o + 1, n - 1))
    {
      MadeIsAccepted(s, o, n, ps);
    }
    var r := ReadLiteral(s, o);
    if r.Some? && r.value.1 == n && HexEscapes(s, o + 1, n - 1) {
      var ps := AcceptedIsMade(s, o, n);
    }
  }

  lemma MadeIsAccepted(s: string, o: nat, n: nat, ps: seq<Piece>)
    requires o < |s| && MadeOf(s, o, n, ps)
    ensures var r := ReadLiteral(s, o);
      && r.Some? && r.value.1 == n && HexEscapes(s, o + 1, n - 1)
      && (NoControlPieces(ps) <==> NoControls(s, o + 1, n - 1))
  {
    hide ReadLiteral, HexEscapes, NoControls, NoControlPieces, Texts, AllValid, Holds;
    LiteralReads(s, o, ps);
    HoldsParts(s, o, "\"" + Texts(ps), "\"");
    HoldsParts(s, o, "\"", Texts(ps));
    PiecesAreHex(s, o + 1, ps);
    ControlsMean(s, o + 1, ps);
  }

  lemma AcceptedIsMade(s: string, o: nat, n: nat) returns (ps: seq<Piece>)
    requires o < |s| && ReadLiteral(s, o).Some? && ReadLiteral(s, o).value.1 == n && HexEscapes(s, o + 1, n - 1)
    ensures MadeOf(s, o, n, ps)
  {
    hide HexEscapes, CloseQuote, Decode, Texts, AllValid, Holds;
    ps := PiecesAt(s, o + 1, n - 1);
    Quoted(s, o, Texts(ps));
  }

  lemma Quoted(s: string, o: nat, t: string)
    requires Holds(s, o + 1, t) && o + |t| + 1 < |s| && s[o] == '"' && s[o + |t| + 1] == '"'
    ensures Holds(s, o, "\"" + t + "\"")
  {
    HoldsJoin(s, o, "\"", t);
    HoldsJoin(s, o, "\"" + t, "\"");
  }

  // ---- from pieces ----

  lemma {:induction false} PiecesAreHex(s: string, o: nat, ps: seq<Piece>)
    requires AllValid(ps) && Holds(s, o, Texts(ps)) && o + |Texts(ps)| < |s|
    ensures HexEscapes(s, o, o + |Texts(ps)|)
    decreases |ps|
  {
    if ps == [] {
      hide Holds, AllValid;
    } else {
      hide *;
      PiecesHead(s, o, ps);
      PieceIsHex(s, o, ps[0], o + |Texts(ps)|);
      PiecesAreHex(s, o + |ps[0].Text()|, ps[1..]);
    }
  }

  lemma PieceIsHex(s: string, o: nat, p: Piece, end: nat)
    requires p.Valid() && Holds(s, o, p.Text()) && o + |p.Text()| <= end < |s|
    ensures HexEscapes(s, o, end) <==> HexEscapes(s, o + |p.Text()|, end)
  {
    match p {
      case Byte(c) =>
        assert p.Text()[0] == s[o];
      case Letter(c) =>
        assert p.Text()[0] == s[o] && p.Text()[1] == s[o + 1];
      case Scalar(text, cp) =>
        hide Hex4;
        ScalarUnits(s, o, text, cp);
    }
  }

  /** The units an escaped scalar value takes, in place. */
  lemma ScalarUnits(s: string, o: nat, t: string, cp: nat)
    requires EscapesScalar(t, cp) && Holds(s, o, t)
    ensures |t| == 6 || |t| == 12
    ensures s[o] == '\\' && s[o + 1] == 'u' && AreHex(s[o + 2..o + 6])
    ensures |t| == 12 ==> s[o + 6] == '\\' && s[o + 7] == 'u' && AreHex(s[o + 8..o + 12])
  {
    hide Hex4, AreHex;
    HoldsSlice(s, o, t);
    assert t[0] == s[o] && t[1] == s[o + 1] && t[2..6] == s[o + 2..o + 6];
    if |t| == 12 {
      assert t[6..][0] == s[o + 6] && t[6..][1] == s[o + 7] && t[6..][2..6] == s[o + 8..o + 12];
      assert t[..6][0] == s[o] && t[..6][1] == s[o + 1] && t[..6][2..6] == s[o + 2..o + 6];
    }
  }

  lemma {:induction false} ControlsMean(s: string, o: nat, ps: seq<Piece>)
    requires AllValid(ps) && Holds(s, o, Texts(ps))
    ensures NoControlPieces(ps) <==> NoControls(s, o, o + |Texts(ps)|)
    decreases |ps|
  {
    if ps == [] {
      hide Holds, AllValid;
    } else {
      hide *;
      PiecesHead(s, o, ps);
      var j := o + |ps[0].Text()|;
      PieceControls(s, o, ps[0]);
      ControlsMean(s, j, ps[1..]);
      FirstControl(ps);
      HoldsBound(s, o, Texts(ps));
      ControlsJoin(s, o, j, o + |Texts(ps)|);
    }
  }

  lemma FirstControl(ps: seq<Piece>)
    requires ps != []
    ensures NoControlPieces(ps) <==> (ps[0].Byte? ==> ps[0].c >= ' ') && NoControlPieces(ps[1..])
  {
    assert forall i :: 0 < i < |ps| ==> ps[i] == ps[1..][i - 1];
  }

  lemma HoldsBound(s: string, o: nat, t: string)
    requires Holds(s, o, t)
    ensures o + |t| <= |s|
  {
  }

  lemma ControlsJoin(s: string, i: nat, j: nat, end: nat)
    requires i <= j <= end <= |s|
    ensures NoControls(s, i, end) <==> NoControls(s, i, j) && NoControls(s, j, end)
  {
  }

  lemma PieceControls(s: string, o: nat, p: Piece)
    requires p.Valid() && Holds(s, o, p.Text())
    ensures (p.Byte? ==> p.c >= ' ') <==> NoControls(s, o, o + |p.Text()|)
  {
    match p {
      case Byte(c) =>
        assert p.Text()[0] == s[o];
      case Letter(c) =>
        assert p.Text()[0] == s[o] && p.Text()[1] == s[o + 1];
      case Scalar(text, cp) =>
        hide Hex4, EscapesScalar;
        ScalarUnits(s, o, text, cp);
        HexIsPlain(s, o + 2);
        if |text| == 12 {
          HexIsPlain(s, o + 8);
        }
    }
  }

  lemma HexIsPlain(s: string, i: nat)
    requires i + 4 <= |s| && AreHex(s[i..i + 4])
    ensures NoControls(s, i, i + 4)
  {
    forall k | i <= k < i + 4 ensures s[k] >= ' ' {
      assert s[i..i + 4][k - i] == s[k];
    }
  }

  // ---- to pieces ----

  /** The pieces of an accepted text whose \u escapes have their digits. */
  lemma {:induction false} PiecesAt(s: string, i: nat, end: nat) returns (ps: seq<Piece>)
    requires i <= end < |s| && CloseQuote(s, i) == Some(end) && Decode(s, i, end).Some? && HexEscapes(s, i, end)
    ensures AllValid(ps) && Holds(s, i, Texts(ps)) && i + |Texts(ps)| == end
    decreases end - i
  {
    if i == end {
      ps := [];
    } else {
      hide CloseQuote, Decode, HexEscapes, Texts, Piece.Text, Piece.Valid, Holds;
      var p := PieceAt(s, i, end);
      var rest := PiecesAt(s, i + |p.Text()|, end);
      ps := [p] + rest;
      PiecesCons(s, i, p, rest);
    }
  }

  lemma PiecesCons(s: string, i: nat, p: Piece, rest: seq<Piece>)
    requires p.Valid() && AllValid(rest) && Holds(s, i, p.Text()) && Holds(s, i + |p.Text()|, Texts(rest))
    ensures AllValid([p] + rest) && Holds(s, i, Texts([p] + rest))
    ensures |Texts([p] + rest)| == |p.Text()| + |Texts(rest)|
  {
    hide Piece.Valid, Piece.Text;
    var ps := [p] + rest;
    assert ps[1..] == rest;
    HoldsJoin(s, i, p.Text(), Texts(rest));
  }

  lemma HoldsJoin(s: string, o: nat, a: string, b: string)
    requires Holds(s, o, a) && Holds(s, o + |a|, b)
    ensures Holds(s, o, a + b)
  {
    forall k | 0 <= k < |a + b| ensures (a + b)[k] == s[o + k] {
      if k >= |a| {
        assert b[k - |a|] == s[o + |a| + (k - |a|)];
      }
    }
  }

  /** The piece the second pass reads at a boundary of both passes; behind it is another. */
  lemma PieceAt(s: string, i: nat, end: nat) returns (p: Piece)
    requires i < end < |s| && CloseQuote(s, i) == Some(end) && Decode(s, i, end).Some? && HexEscapes(s, i, end)
    ensures p.Valid() && Holds(s, i, p.Text()) && i + |p.Text()| <= end
    ensures var j := i + |p.Text()|;
      CloseQuote(s, j) == Some(end) && Decode(s, j, end).Some? && HexEscapes(s, j, end)
  {
    hide AreHex, Utf16Literal, Utf8, EscapesScalar;
    OneStep(s, i, end);
    if s[i] != '\\' {
      p := Byte(s[i]);
    } else if s[i + 1] != 'u' {
      p := Letter(s[i + 1]);
    } else {
      p := ScalarAt(s, i, end);
    }
  }

  lemma ScalarAt(s: string, i: nat, end: nat) returns (p: Piece)
    requires i < end < |s| && CloseQuote(s, i) == Some(end) && HexEscapes(s, i, end) && s[i] == '\\' && s[i + 1] == 'u'
    requires Utf16Literal(s, i, end).Some?
    ensures p.Valid() && p.Scalar? && Holds(s, i, p.Text()) && |p.Text()| == Utf16Literal(s, i, end).value.1
    ensures var j := i + |p.Text()|; j <= end && CloseQuote(s, j) == Some(end) && HexEscapes(s, j, end)
  {
    hide Utf16Literal, AreHex, EscapesScalar;
    var u := Utf16Literal(s, i, end).value;
    p := Scalar(s[i..i + u.1], u.0);
    ScalarEscapes(s, i, end);
    EscapeSkips(s, i, end);
    if u.1 == 12 {
      PairDigits(s, i, end);
      PairMark(s, i, end);
      EscapeSkips(s, i + 6, end);
    }
  }

  /** The first pass goes over the digits of a \u escape one by one. */
  lemma EscapeSkips(s: string, i: nat, end: nat)
    requires i + 6 <= end < |s| && CloseQuote(s, i) == Some(end) && s[i] == '\\' && AreHex(s[i + 2..i + 6])
    ensures CloseQuote(s, i + 6) == Some(end)
  {
    hide CloseQuote, AreHex;
    OneStep(s, i, end);
    FourBytes(s, i + 2, end);
  }

  lemma PairMark(s: string, i: nat, end: nat)
    requires i <= end < |s| && Utf16Literal(s, i, end).Some? && Utf16Literal(s, i, end).value.1 == 12
    ensures s[i + 7] == 'u'
  {
    hide Hex4;
  }

  lemma ScalarEscapes(s: string, i: nat, end: nat)
    requires i < end < |s| && s[i] == '\\' && s[i + 1] == 'u' && Utf16Literal(s, i, end).Some?
    requires i + 6 <= end && AreHex(s[i + 2..i + 6])
    ensures var u := Utf16Literal(s, i, end).value; EscapesScalar(s[i..i + u.1], u.0)
  {
    hide Hex4, AreHex;
    var u := Utf16Literal(s, i, end).value;
    var t := s[i..i + u.1];
    if u.1 == 6 {
      assert t[2..6] == s[i + 2..i + 6];
    } else {
      PairDigits(s, i, end);
      var hi, lo := Hex4(s[i + 2..i + 6]), Hex4(s[i + 8..i + 12]);
      assert t[..6] == s[i..i + 6] && t[6..] == s[i + 6..i + 12];
      assert s[i..i + 6][2..6] == s[i + 2..i + 6] && s[i + 6..i + 12][2..6] == s[i + 8..i + 12];
      PairMark(s, i, end);
      assert IsUnit(t[..6], hi) && IsUnit(t[6..], lo);
    }
  }

  // ---- literals outside the grammar ---------------------------------------------------------------

  /** A \u escape whose digits are no digits is read as a zero byte, where RFC 8259 has no such literal. */
  lemma MalformedReads(t: string)
    requires |t| == 4 && !AreHex(t) && '"' !in t && '\\' !in t
    ensures ReadLiteral("\"\\u" + t + "\"", 0) == Some(("\0", 8))
  {
    var s := "\"\\u" + t + "\"";
    assert s[3..7] == t && s[7] == '"';
    assert forall i :: 3 <= i < 7 ==> s[i] == t[i - 3];
    hide AreHex;
    assert CloseQuote(s, 3) == Some(7) by {
      assert CloseQuote(s, 5) == CloseQuote(s, 6) == CloseQuote(s, 7);
      assert CloseQuote(s, 3) == CloseQuote(s, 4) == CloseQuote(s, 5);
    }
    assert CloseQuote(s, 7) == Some(7) && CloseQuote(s, 1) == CloseQuote(s, 3);
    assert Utf16Literal(s, 1, 7) == Some((0, 6));
    assert Utf8(0) == "\0" && Decode(s, 7, 7) == Some("");
    assert Decode(s, 1, 7) == Prepend("\0", Decode(s, 7, 7));
    assert "\0" + "" == "\0";
    assert s[0] == '"' && CloseQuote(s, 1) == Some(7);
  }

  /** Digits that reach over an escaped quote take the second pass past it: it reads the quote as a byte,
      where the first pass has gone over it as an escape. */
  lemma PassesDiverge(t: string)
    requires |t| == 3 && '"' !in t && '\\' !in t
    ensures ReadLiteral("\"\\u" + t + "\\\"\"", 0) == Some(("\0\"", 9))
  {
    var s := "\"\\u" + t + "\\\"\"";
    assert s[3] == t[0] && s[4] == t[1] && s[5] == t[2] && s[6] == '\\' && s[7] == '"' && s[8] == '"';
    assert !AreHex(s[3..7]) by {
      assert s[3..7][3] == '\\';
    }
    assert CloseQuote(s, 1) == CloseQuote(s, 3) == CloseQuote(s, 4) == CloseQuote(s, 5);
    assert CloseQuote(s, 5) == CloseQuote(s, 6) == CloseQuote(s, 8) == Some(8);
    hide AreHex;
    assert Utf16Literal(s, 1, 8) == Some((0, 6));
    assert Utf8(0) == "\0";
    assert Decode(s, 7, 8) == Prepend("\"", Decode(s, 8, 8)) && Decode(s, 8, 8) == Some("");
    assert Decode(s, 1, 8) == Prepend("\0", Decode(s, 7, 8));
    assert "\"" + "" == "\"" && "\0" + "\"" == "\0\"";
  }

  /** A control character that is not escaped is read as itself. */
  lemma ControlReads(c: char)
    requires c < ' '
    ensures ReadLiteral(['"', c, '"'], 0) == Some(([c], 3)) && !Grammatical(['"', c, '"'], 0, 3)
  {
    var s := ['"', c, '"'];
    assert CloseQuote(s, 1) == CloseQuote(s, 2) == Some(2);
    assert Decode(s, 1, 2) == Prepend([c], Decode(s, 2, 2)) && [c] + "" == [c];
    AcceptedExactly(s, 0, 3);
  }

  /** An escaped surrogate at `p` that no partner completes. */
  ghost predicate LoneAt(s: string, p: nat, u: nat) {
    && p + 6 <= |s| && IsUnit(s[p..p + 6], u)
    && (IsLowSurrogate(u) || (IsHighSurrogate(u) && !PartnerAt(s, p + 6)))
  }

  ghost predicate PartnerAt(s: string, p: nat) {
    p + 6 <= |s| && exists lo: nat :: IsLowSurrogate(lo) && IsUnit(s[p..p + 6], lo)
  }

  /** The second pass stops there. */
  lemma LoneSurrogateStops(s: string, p: nat, end: nat, u: nat)
    requires LoneAt(s, p, u) && p + 6 <= end < |s|
    ensures Decode(s, p, end) == None
  {
    var t := s[p..p + 6];
    assert t[0] == s[p] && t[1] == s[p + 1] && t[2..6] == s[p + 2..p + 6];
    if IsHighSurrogate(u) && p + 12 <= end {
      var t2 := s[p + 6..p + 12];
      var second := Hex4(s[p + 8..p + 12]);
      assert t2[0] == s[p + 6] && t2[1] == s[p + 7] && t2[2..6] == s[p + 8..p + 12];
      assert IsLowSurrogate(second) && s[p + 6] == '\\' && s[p + 7] == 'u' ==> IsUnit(t2, second);
    }
  }

  /** A literal with a surrogate that has no partner, behind anything well formed, is refused. */
  lemma LoneSurrogatesRejected(s: string, o: nat, ps: seq<Piece>, u: nat)
    requires o < |s| && AllValid(ps) && Holds(s, o, "\"" + Texts(ps)) && LoneAt(s, o + 1 + |Texts(ps)|, u)
    ensures ReadLiteral(s, o) == None
  {
    var p := o + 1 + |Texts(ps)|;
    hide CloseQuote, Decode, Texts, AllValid, LoneAt, Holds;
    HoldsParts(s, o, "\"", Texts(ps));
    PiecesPass(s, o + 1, ps);
    UnitPasses(s, p, u);
    var r := CloseQuote(s, o + 1);
    if r.Some? {
      LoneSurrogateStops(s, p, r.value, u);
      PiecesStop(s, o + 1, ps, r.value);
    }
  }

  lemma UnitPasses(s: string, p: nat, u: nat)
    requires LoneAt(s, p, u)
    ensures p + 6 <= |s| && CloseQuote(s, p) == CloseQuote(s, p + 6)
  {
    hide IsUnit, CloseQuote;
    assert Holds(s, p, s[p..p + 6]);
    UnitInPlace(s, p, s[p..p + 6], u);
  }

  /** The first pass over well-formed pieces, whatever follows. */
  lemma {:induction false} PiecesPass(s: string, o: nat, ps: seq<Piece>)
    requires AllValid(ps) && Holds(s, o, Texts(ps))
    ensures CloseQuote(s, o) == CloseQuote(s, o + |Texts(ps)|)
    decreases |ps|
  {
    hide *;
    if ps == [] {
      NoText(ps);
    } else {
      PiecesHead(s, o, ps);
      PieceReads(s, o, ps[0], 0);
      PiecesPass(s, o + |ps[0].Text()|, ps[1..]);
    }
  }

  /** What the second pass refuses behind well-formed pieces it refuses altogether. */
  lemma {:induction false} PiecesStop(s: string, o: nat, ps: seq<Piece>, end: nat)
    requires AllValid(ps) && Holds(s, o, Texts(ps)) && o + |Texts(ps)| <= end < |s|
    requires Decode(s, o + |Texts(ps)|, end) == None
    ensures Decode(s, o, end) == None
    decreases |ps|
  {
    hide *;
    if ps == [] {
      NoText(ps);
    } else {
      PiecesHead(s, o, ps);
      PieceReads(s, o, ps[0], end);
      PiecesStop(s, o + |ps[0].Text()|, ps[1..], end);
      PrependNone(ps[0].Bytes());
    }
  }

  lemma NoText(ps: seq<Piece>)
    requires ps == []
    ensures AllValid(ps) && Texts(ps) == ""
  {
  }

  lemma PrependNone(p: string)
    ensures Prepend(p, None) == None
  {
  }
}
