/** What the minifier's eraser does to its own output and to printed documents. */
module JsonMinifyLaws {
  import opened Text
  import opened JsonText
  import opened JsonValue
  import opened JsonMinify

  // ---- idempotence -------------------------------------------------------------------------------

  /** A closed string ends at the same quote whatever follows it. */
  lemma {:induction false} StringRestStable(t: string, rest: string)
    requires Closed(t)
    ensures StringRest(t[..StringRest(t)] + rest) == StringRest(t)
    decreases |t|
  {
    var n := StringRest(t);
    var u := t[..n] + rest;
    assert u[0] == t[0];
    if t[0] == '"' {
    } else if t[0] == '\\' && At(t, 1) == '"' {
      hide At;
      ClosedRest(t[2..]);
      assert u[1] == t[1] && At(u, 1) == '"' by { AtInside(u, 1); AtInside(t, 1); }
      assert u[2..] == t[2..][..n - 2] + rest;
      StringRestStable(t[2..], rest);
    } else {
      ClosedRest(t[1..]);
      assert u[1] == t[1] && At(u, 1) == At(t, 1);
      assert u[1..] == t[1..][..n - 1] + rest;
      hide At;
      StringRestStable(t[1..], rest);
    }
  }

  lemma AtInside(s: string, i: nat)
    requires i < |s|
    ensures At(s, i) == s[i]
  {
  }

  lemma ClosedRest(t: string)
    requires Closed(t)
    ensures 0 < StringRest(t) <= |t| && t[StringRest(t) - 1] == '"'
  {
    ClosedEnds(t);
  }

  /** Whether the string is closed at all. */
  predicate Closed(t: string) {
    if t == "" then false
    else if t[0] == '"' then true
    else if t[0] == '\\' && At(t, 1) == '"' then Closed(t[2..])
    else Closed(t[1..])
  }

  lemma {:induction false} ClosedEnds(t: string)
    ensures Closed(t) ==> StringRest(t) > 0 && t[StringRest(t) - 1] == '"'
    ensures !Closed(t) ==> StringRest(t) == |t|
    decreases |t|
  {
    if t == "" || t[0] == '"' {
    } else if t[0] == '\\' && At(t, 1) == '"' {
      ClosedEnds(t[2..]);
    } else {
      ClosedEnds(t[1..]);
    }
  }

  /** Minifying twice is minifying once. */
  lemma {:induction false} ErasedTwice(s: string)
    ensures Erased(Erased(s)) == Erased(s)
    decreases |s|
  {
    if s == "" {
    } else if IsBlank(s[0]) {
      ErasedTwice(s[1..]);
    } else if s[0] == '/' {
      ErasedTwice(s[SlashLength(s)..]);
    } else if s[0] == '"' {
      StringKept(s);
      ErasedTwice(s[1 + StringRest(s[1..])..]);
    } else {
      ErasedTwice(s[1..]);
      assert Erased(s)[1..] == Erased(s[1..]);
    }
  }

  lemma StringKept(s: string)
    requires s != "" && s[0] == '"'
    ensures var n := 1 + StringRest(s[1..]);
      var r := Erased(s[n..]);
      Erased(s) == s[..n] + r && Erased(Erased(s)) == s[..n] + Erased(r)
  {
    hide StringRest, Erased, Closed;
    var n := 1 + StringRest(s[1..]);
    var r := Erased(s[n..]);
    var u := s[..n] + r;
    ErasedQuoted(s);
    ErasedQuoted(u);
    ClosedEnds(s[1..]);
    assert u[1..] == s[1..][..n - 1] + r;
    if Closed(s[1..]) {
      StringRestStable(s[1..], r);
    } else {
      assert s[n..] == "";
      ErasedNothing();
      assert u == s;
    }
    assert u[..n] == s[..n] && u[n..] == r;
  }

  // ---- text the eraser passes through -------------------------------------------------------------

  /** Bytes outside strings that are neither blanks, slashes nor quotes. */
  predicate Passes(t: string) {
    forall i :: 0 <= i < |t| ==> !IsBlank(t[i]) && t[i] != '/' && t[i] != '"'
  }

  lemma {:induction false} ErasedPasses(t: string, rest: string)
    requires Passes(t)
    ensures Erased(t + rest) == t + Erased(rest)
    decreases |t|
  {
    if t == "" {
      assert t + rest == rest;
    } else {
      ErasedPasses(t[1..], rest);
      assert (t + rest)[1..] == t[1..] + rest;
    }
  }

  predicate Blanks(t: string) {
    forall i :: 0 <= i < |t| ==> IsBlank(t[i])
  }

  lemma {:induction false} ErasedBlanks(t: string, rest: string)
    requires Blanks(t)
    ensures Erased(t + rest) == Erased(rest)
    decreases |t|
  {
    if t == "" {
      assert t + rest == rest;
    } else {
      ErasedBlanks(t[1..], rest);
      assert (t + rest)[1..] == t[1..] + rest;
    }
  }

  // ---- printed strings ------------------------------------------------------------------------------

  predicate EndsInBackslash(s: string) {
    s != "" && s[|s| - 1] == '\\'
  }

  /** The minifier finds the end of a printed string, unless the string ends in a backslash: then it
      takes the closing quote for an escaped one and runs on. */
  lemma {:induction false} PrintedString(s: string, rest: string)
    ensures StringRest(Escape(s) + "\"" + rest) ==
      |Escape(s)| + 1 + (if EndsInBackslash(s) then StringRest(rest) else 0)
    decreases |s|
  {
    hide StringRest, Escape, EscapeChar, EndsInBackslash;
    EscapeParts(s);
    if s == "" {
      assert Escape(s) + "\"" + rest == "\"" + rest;
      RestQuote("\"" + rest);
    } else {
      var tail := Escape(s[1..]) + "\"" + rest;
      assert Escape(s) + "\"" + rest == EscapeChar(s[0]) + tail;
      PrintedString(s[1..], rest);
      EscapeStart(s[1..], rest);
      RestAfterChar(s[0], tail);
      EscapeParts(s[1..]);
      if |s| == 1 {
        assert tail == "\"" + rest && tail[1..] == rest;
      }
    }
  }

  lemma EscapeParts(s: string)
    ensures s == "" ==> Escape(s) == "" && !EndsInBackslash(s)
    ensures s != "" ==> Escape(s) == EscapeChar(s[0]) + Escape(s[1..])
    ensures |s| == 1 ==> (EndsInBackslash(s) <==> s[0] == '\\')
    ensures |s| > 1 ==> (EndsInBackslash(s) <==> EndsInBackslash(s[1..]))
    ensures |EscapeChar('\\')| == 2
  {
    hide EscapeChar;
    assert EscapeChar('\\') == "\\\\" by {
      BackslashEscape();
    }
  }

  lemma BackslashEscape()
    ensures EscapeChar('\\') == "\\\\"
  {
  }

  lemma RestQuote(t: string)
    requires t != "" && t[0] == '"'
    ensures StringRest(t) == 1
  {
  }

  /** What follows an escaped byte starts with a quote only at the end. */
  lemma EscapeStart(s: string, rest: string)
    ensures var t := Escape(s) + "\"" + rest; t != "" && (t[0] == '"' <==> s == "")
  {
    if s != "" {
      assert Escape(s)[0] == EscapeChar(s[0])[0];
    }
  }

  /** One escaped byte, in front of something. */
  lemma RestAfterChar(c: char, tail: string)
    requires tail != ""
    ensures StringRest(EscapeChar(c) + tail) ==
      if c == '\\' && tail[0] == '"' then 3 + StringRest(tail[1..]) else |EscapeChar(c)| + StringRest(tail)
  {
    hide EscapeChar, StringRest;
    var e := EscapeChar(c);
    EscapePair(c);
    if |e| == 2 {
      assert e == [e[0], e[1]];
      RestPair(e[1], tail);
    } else {
      RestOver(c, tail);
    }
  }

  lemma EscapePair(c: char)
    ensures var e := EscapeChar(c);
      && (|e| == 2 ==> e[0] == '\\' && (e[1] == '\\' <==> c == '\\'))
      && (|e| != 2 ==> c != '\\')
  {
  }

  lemma RestPair(x: char, tail: string)
    requires tail != ""
    ensures StringRest(['\\', x] + tail) ==
      if x == '\\' && tail[0] == '"' then 3 + StringRest(tail[1..]) else 2 + StringRest(tail)
  {
    var u := ['\\', x] + tail;
    assert u[1..] == [x] + tail && u[2..] == tail && u[1..][1..] == tail;
    if x == '\\' && tail[0] == '"' {
      assert u[1..][2..] == tail[1..];
    }
  }

  /** Six-byte and one-byte escapes hold neither a quote nor a second backslash. */
  lemma RestOver(c: char, tail: string)
    requires |EscapeChar(c)| != 2
    ensures StringRest(EscapeChar(c) + tail) == |EscapeChar(c)| + StringRest(tail)
  {
    var e := EscapeChar(c);
    var u := e + tail;
    if |e| == 1 {
      assert u[1..] == tail;
    } else {
      HexPlain();
      assert u[0] == '\\' && u[1] == 'u';
      RestPlain(u[1..6], tail);
      assert u[1..] == u[1..6] + tail;
    }
  }

  lemma HexPlain()
    ensures forall i :: 0 <= i < 16 ==> HEX[i] != '"' && HEX[i] != '\\'
  {
  }

  lemma {:induction false} RestPlain(t: string, tail: string)
    requires forall i :: 0 <= i < |t| ==> t[i] != '"' && t[i] != '\\'
    ensures StringRest(t + tail) == |t| + StringRest(tail)
    decreases |t|
  {
    if t == "" {
      assert t + tail == tail;
    } else {
      RestPlain(t[1..], tail);
      assert (t + tail)[1..] == t[1..] + tail;
    }
  }

  lemma QuoteText(s: string, rest: string)
    ensures Quote(s) + rest != "" && (Quote(s) + rest)[0] == '"' && (Quote(s) + rest)[1..] == Escape(s) + "\"" + rest
  {
  }

  lemma ErasedString(s: string, rest: string)
    requires !EndsInBackslash(s)
    ensures Erased(Quote(s) + rest) == Quote(s) + Erased(rest)
  {
    hide StringRest, Escape;
    QuoteText(s, rest);
    PrintedString(s, rest);
    var t := Quote(s) + rest;
    assert t[..|Quote(s)|] == Quote(s) && t[|Quote(s)|..] == rest;
  }

  // ---- documents ---------------------------------------------------------------------------------------

  /** No string and no key ends in a backslash. */
  predicate Clean(v: Json) {
    match v
    case String(s) => !EndsInBackslash(s)
    case Array(items) => forall i :: 0 <= i < |items| ==> Clean(items[i])
    case Object(members) =>
      forall i :: 0 <= i < |members| ==> !EndsInBackslash(members[i].key) && Clean(members[i].value)
    case _ => true
  }

  predicate AllClean(items: seq<Json>) {
    forall i :: 0 <= i < |items| ==> Clean(items[i])
  }

  predicate MembersClean(members: seq<Member>) {
    forall i :: 0 <= i < |members| ==> !EndsInBackslash(members[i].key) && Clean(members[i].value)
  }

  /** The same, but for a string at the very end of the document, inside arrays only. */
  predicate CleanButLast(v: Json)
    decreases v
  {
    match v
    case String(s) => true
    case Array(items) => items == [] || (AllClean(items[..|items| - 1]) && CleanButLast(items[|items| - 1]))
    case _ => Clean(v)
  }

  predicate ItemsButLast(items: seq<Json>) {
    items == [] || (AllClean(items[..|items| - 1]) && CleanButLast(items[|items| - 1]))
  }

  lemma ErasedComma(rest: string)
    ensures Erased(", " + rest) == "," + Erased(rest)
  {
    assert (", " + rest)[1..] == " " + rest && (" " + rest)[1..] == rest;
  }

  lemma NumberPasses(n: int)
    ensures Passes(Decimal(n))
  {
  }

  lemma {:induction false} CleanErased(v: Json, d: nat, rest: string)
    requires Clean(v)
    ensures Erased(Render(v, true, d) + rest) == Render(v, false, d) + Erased(rest)
    decreases v, 1
  {
    hide Erased, Passes;
    match v
    case Number(n) =>
      NumberPasses(n);
      ErasedPasses(Decimal(n), rest);
    case String(str) => ErasedString(str, rest);
    case Array(items) => CleanArray(items, d, rest);
    case Object(members) => CleanObject(members, d, rest);
    case _ =>
      LiteralPasses(v);
      ErasedPasses(Render(v, true, d), rest);
  }

  lemma {:induction false} CleanArray(items: seq<Json>, d: nat, rest: string)
    requires AllClean(items)
    ensures Erased(Render(Array(items), true, d) + rest) == Render(Array(items), false, d) + Erased(rest)
    decreases items, 1
  {
    hide Erased, Render, RenderItems, AllClean;
    ArrayText(items, d, rest);
    ArrayText(items, d, Erased(rest));
    CleanItems(items, d + 1, "]" + rest);
    BracketsPass(RenderItems(items, true, d + 1) + ("]" + rest), rest);
  }

  lemma {:induction false} CleanObject(members: seq<Member>, d: nat, rest: string)
    requires MembersClean(members)
    ensures Erased(Render(Object(members), true, d) + rest) == Render(Object(members), false, d) + Erased(rest)
    decreases members, 1
  {
    hide Erased, Render, RenderMembers, MembersClean, Indent;
    ObjectText(members, d, rest);
    ObjectText(members, d, Erased(rest));
    CleanMembers(members, d + 1, Indent(true, d) + "}" + rest);
    BracePass(RenderMembers(members, true, d + 1) + (Indent(true, d) + "}" + rest), d, rest);
  }

  lemma LiteralPasses(v: Json)
    ensures v.Null? || v.Bool? ==> Passes(Render(v, true, 0)) && forall d, fmt :: Render(v, fmt, d) == Render(v, true, 0)
  {
  }

  lemma ArrayText(items: seq<Json>, d: nat, rest: string)
    ensures Render(Array(items), true, d) + rest == "[" + (RenderItems(items, true, d + 1) + ("]" + rest))
    ensures Render(Array(items), false, d) + rest == "[" + (RenderItems(items, false, d + 1) + ("]" + rest))
  {
  }

  lemma ObjectText(members: seq<Member>, d: nat, rest: string)
    ensures Render(Object(members), true, d) + rest ==
      "{\n" + (RenderMembers(members, true, d + 1) + (Indent(true, d) + "}" + rest))
    ensures Render(Object(members), false, d) + rest == "{" + (RenderMembers(members, false, d + 1) + ("}" + rest))
  {
    hide RenderMembers, Indent;
    NoIndent(d);
    SplitBraces(RenderMembers(members, true, d + 1), Indent(true, d), rest);
    SplitBraces(RenderMembers(members, false, d + 1), "", rest);
  }

  lemma NoIndent(d: nat)
    ensures Indent(false, d) == ""
  {
  }

  lemma SplitBraces(body: string, indent: string, rest: string)
    ensures "{" + "\n" + body + indent + "}" + rest == "{\n" + (body + (indent + "}" + rest))
    ensures indent == "" ==> "{" + "" + body + indent + "}" + rest == "{" + (body + ("}" + rest))
  {
  }

  /** Brackets outside strings stay. */
  lemma BracketsPass(inner: string, rest: string)
    ensures Erased("[" + inner) == "[" + Erased(inner)
    ensures Erased("]" + rest) == "]" + Erased(rest)
  {
    assert ("[" + inner)[1..] == inner && ("]" + rest)[1..] == rest;
  }

  lemma BracePass(inner: string, d: nat, rest: string)
    ensures Erased("{\n" + inner) == "{" + Erased(inner)
    ensures Erased(Indent(true, d) + "}" + rest) == "}" + Erased(rest)
  {
    assert ("{\n" + inner)[1..] == "\n" + inner && ("\n" + inner)[1..] == inner;
    assert Indent(true, d) + "}" + rest == Indent(true, d) + ("}" + rest);
    ErasedBlanks(Indent(true, d), "}" + rest);
    assert ("}" + rest)[1..] == rest;
  }

  lemma {:induction false} CleanItems(items: seq<Json>, d: nat, rest: string)
    requires AllClean(items)
    ensures Erased(RenderItems(items, true, d) + rest) == RenderItems(items, false, d) + Erased(rest)
    decreases items, 0
  {
    hide Erased, Render, RenderItems;
    if items == [] {
      NoItems(d);
      assert "" + rest == rest && "" + Erased(rest) == Erased(rest);
    } else {
      var more := RenderItems(items[1..], true, d) + rest;
      ItemsSplit(items, d, rest);
      CleanErased(items[0], d, (if |items| > 1 then ", " else "") + more);
      CleanItems(items[1..], d, rest);
      ErasedComma(more);
      ItemsSplit(items, d, Erased(rest));
      assert "" + more == more;
    }
  }

  lemma NoItems(d: nat)
    ensures RenderItems([], true, d) == "" && RenderItems([], false, d) == ""
  {
  }

  lemma ItemsSplit(items: seq<Json>, d: nat, rest: string)
    requires items != []
    ensures RenderItems(items, true, d) + rest ==
      Render(items[0], true, d) + ((if |items| > 1 then ", " else "") + (RenderItems(items[1..], true, d) + rest))
    ensures RenderItems(items, false, d) + rest ==
      Render(items[0], false, d) + ((if |items| > 1 then "," else "") + (RenderItems(items[1..], false, d) + rest))
  {
    hide Render;
  }

  // ---- members ------------------------------------------------------------------------------------------

  function Separator(more: bool, fmt: bool): string {
    (if more then "," else "") + NewLine(fmt)
  }

  /** A member's line taken apart, in both styles. */
  lemma MembersSplit(members: seq<Member>, d: nat, rest: string)
    requires members != []
    ensures var m, more := members[0], |members| > 1;
      && RenderMembers(members, true, d) + rest ==
           Indent(true, d) + (Quote(m.key) + (":\t" + (Render(m.value, true, d) +
             (Separator(more, true) + (RenderMembers(members[1..], true, d) + rest)))))
      && RenderMembers(members, false, d) + rest ==
           Quote(m.key) + (":" + (Render(m.value, false, d) +
             (Separator(more, false) + (RenderMembers(members[1..], false, d) + rest))))
  {
    hide Render, Quote;
    var m, more := members[0], |members| > 1;
    SplitFormatted(Indent(true, d), Quote(m.key), Render(m.value, true, d), Separator(more, true),
                   RenderMembers(members[1..], true, d), rest);
    SplitPlain(Quote(m.key), Render(m.value, false, d), if more then "," else "",
               RenderMembers(members[1..], false, d), rest);
  }

  lemma SplitFormatted(a: string, b: string, c: string, e: string, f: string, g: string)
    ensures a + b + ":\t" + c + e + f + g == a + (b + (":\t" + (c + (e + (f + g)))))
    ensures forall x, y :: e == x + y ==> a + b + ":\t" + c + x + y + f + g == a + (b + (":\t" + (c + (e + (f + g)))))
  {
  }

  lemma SplitPlain(b: string, c: string, e: string, f: string, g: string)
    ensures "" + b + ":" + c + e + "" + f + g == b + (":" + (c + (e + "" + (f + g))))
  {
  }

  lemma ErasedSeparators(more: bool, rest: string)
    ensures Erased(Separator(more, true) + rest) == Separator(more, false) + Erased(rest)
    ensures Erased(":\t" + rest) == ":" + Erased(rest)
  {
    assert ("\n" + rest)[1..] == rest && (",\n" + rest)[1..] == "\n" + rest;
    assert (":\t" + rest)[1..] == "\t" + rest && ("\t" + rest)[1..] == rest;
    if more {
      assert Separator(true, true) == ",\n" && Separator(true, false) == ",";
    } else {
      assert Separator(false, true) == "\n" && Separator(false, false) == "";
      assert "" + Erased(rest) == Erased(rest);
    }
  }

  lemma {:induction false} CleanMembers(members: seq<Member>, d: nat, rest: string)
    requires MembersClean(members)
    ensures Erased(RenderMembers(members, true, d) + rest) == RenderMembers(members, false, d) + Erased(rest)
    decreases members, 0
  {
    hide Erased, Render, RenderMembers, Indent, Quote, Separator;
    if members == [] {
      NoMembers(d);
      assert "" + rest == rest && "" + Erased(rest) == Erased(rest);
    } else {
      var m, more := members[0], |members| > 1;
      var after := RenderMembers(members[1..], true, d) + rest;
      var line := Render(m.value, true, d) + (Separator(more, true) + after);
      MembersSplit(members, d, rest);
      ErasedBlanks(Indent(true, d), Quote(m.key) + (":\t" + line)) by { IndentBlank(d); }
      ErasedString(m.key, ":\t" + line);
      ErasedSeparators(more, line);
      CleanErased(m.value, d, Separator(more, true) + after);
      ErasedSeparators(more, after);
      CleanMembers(members[1..], d, rest);
      MembersSplit(members, d, Erased(rest));
    }
  }

  lemma IndentBlank(d: nat)
    ensures Blanks(Indent(true, d))
  {
  }

  lemma NoMembers(d: nat)
    ensures RenderMembers([], true, d) == "" && RenderMembers([], false, d) == ""
  {
  }

  // ---- a string that swallows its end -----------------------------------------------------------------

  predicate Closers(t: string) {
    forall i :: 0 <= i < |t| ==> t[i] == ']'
  }

  lemma ClosersStay(t: string)
    requires Closers(t)
    ensures Erased(t) == t && StringRest(t) == |t|
  {
    assert t + "" == t;
    ErasedPasses(t, "");
    assert t + Erased("") == t;
    RestPlain(t, "");
  }

  /** At the very end of the document a string may end in a backslash. */
  lemma {:induction false} LastErased(v: Json, d: nat, t: string)
    requires CleanButLast(v) && Closers(t)
    ensures Erased(Render(v, true, d) + t) == Render(v, false, d) + t
    decreases v, 1
  {
    hide Erased, Render, RenderItems, StringRest, Clean;
    ClosersStay(t);
    match v
    case String(str) => StringAtEnd(str, d, t);
    case Array(items) =>
      ArrayText(items, d, t);
      LastItems(items, d + 1, "]" + t);
      BracketsPass(RenderItems(items, true, d + 1) + ("]" + t), t);
    case _ => CleanErased(v, d, t);
  }

  lemma StringAtEnd(s: string, d: nat, t: string)
    requires StringRest(t) == |t| && Erased(t) == t
    ensures Erased(Render(String(s), true, d) + t) == Render(String(s), false, d) + t
  {
    hide StringRest, Escape;
    if EndsInBackslash(s) {
      QuoteText(s, t);
      PrintedString(s, t);
      var all := Quote(s) + t;
      assert all[..|all|] == all && all[|all|..] == "";
      assert all + Erased("") == all;
    } else {
      ErasedString(s, t);
    }
  }

  lemma {:induction false} LastItems(items: seq<Json>, d: nat, t: string)
    requires ItemsButLast(items) && Closers(t)
    ensures Erased(RenderItems(items, true, d) + t) == RenderItems(items, false, d) + t
    decreases items, 0
  {
    hide Erased, Render, RenderItems, CleanButLast, Clean;
    ClosersStay(t);
    if items == [] {
      NoItems(d);
      assert "" + t == t;
    } else {
      var more := RenderItems(items[1..], true, d) + t;
      ItemsSplit(items, d, t);
      assert "" + more == more;
      if |items| == 1 {
        NoItems(d);
        assert items[1..] == [] && "" + t == t && "" + ("" + t) == t;
        LastErased(items[0], d, t);
      } else {
        assert items[..|items| - 1][0] == items[0];
        assert items[1..][..|items| - 2] == items[..|items| - 1][1..];
        CleanErased(items[0], d, ", " + more);
        ErasedComma(more);
        LastItems(items[1..], d, t);
      }
    }
  }

  /** Two texts that first differ before the first quote of the one. */
  ghost predicate Splits(f: string, u: string) {
    exists k :: 0 <= k < |f| && k < |u| && SplitsAt(f, u, k)
  }

  ghost predicate SplitsAt(f: string, u: string, k: nat)
    requires k < |f| && k < |u|
  {
    f[..k] == u[..k] && '"' !in f[..k + 1] && f[k] != u[k]
  }

  lemma {:induction false} RestPassesNonQuotes(f: string, k: nat)
    requires k <= |f| && '"' !in f[..k]
    ensures StringRest(f) >= k
    decreases |f|
  {
    if k > 0 {
      assert f[0] == f[..k][0] && (k > 1 ==> f[1] == f[..k][1]);
      if f[0] != '\\' || At(f, 1) != '"' {
        assert f[1..][..k - 1] == f[..k][1..];
        RestPassesNonQuotes(f[1..], k - 1);
      }
    }
  }

  lemma ErasedQuoted(t: string)
    requires t != "" && t[0] == '"'
    ensures var n := 1 + StringRest(t[1..]); Erased(t) == t[..n] + Erased(t[n..])
  {
  }

  lemma BadString(s: string, f: string, u: string)
    requires EndsInBackslash(s) && Splits(f, u)
    ensures Erased(Quote(s) + f) != Quote(s) + u
  {
    hide StringRest, Escape, Erased;
    var k: nat :| k < |f| && k < |u| && SplitsAt(f, u, k);
    QuoteText(s, f);
    PrintedString(s, f);
    RestPassesNonQuotes(f, k + 1);
    var all, q := Quote(s) + f, |Quote(s)|;
    var n := q + StringRest(f);
    ErasedQuoted(all);
    assert Erased(all)[q + k] == all[q + k] == f[k];
    assert (Quote(s) + u)[q + k] == u[k];
  }

  lemma Cancel(p: string, a: string, b: string)
    requires a != b
    ensures p + a != p + b
  {
    assert (p + a)[|p|..] == a && (p + b)[|p|..] == b;
  }

  lemma FirstByte(v: Json, d: nat)
    ensures var t := Render(v, false, d); t != "" && t[0] != ' ' && t[0] != '\t'
  {
    match v
    case Number(n) => NumberPasses(n);
    case _ =>
  }

  /** A document with a string that swallows its end comes out wrong, unless the string is the last
      thing in it and what follows the document is no help either. */
  lemma {:induction false} BadErased(v: Json, d: nat, f: string, u: string)
    requires !Clean(v) && (Splits(f, u) || !CleanButLast(v))
    ensures Erased(Render(v, true, d) + f) != Render(v, false, d) + u
    decreases v, 1
  {
    hide Erased, Render, RenderItems, RenderMembers, Splits, Indent;
    match v
    case String(str) => BadQuote(str, d, f, u);
    case Array(items) =>
      ArrayText(items, d, f);
      ArrayText(items, d, u);
      SplitsBehind(f, u);
      BadItems(items, d + 1, "]" + f, "]" + u);
      BracketsPass(RenderItems(items, true, d + 1) + ("]" + f), f);
      Cancel("[", Erased(RenderItems(items, true, d + 1) + ("]" + f)), RenderItems(items, false, d + 1) + ("]" + u));
    case Object(members) =>
      ObjectText(members, d, f);
      ObjectText(members, d, u);
      BadMembers(members, d + 1, Indent(true, d) + "}" + f, "}" + u);
      BracePass(RenderMembers(members, true, d + 1) + (Indent(true, d) + "}" + f), d, f);
      Cancel("{", Erased(RenderMembers(members, true, d + 1) + (Indent(true, d) + "}" + f)),
             RenderMembers(members, false, d + 1) + ("}" + u));
  }

  lemma BadQuote(s: string, d: nat, f: string, u: string)
    requires EndsInBackslash(s) && Splits(f, u)
    ensures Erased(Render(String(s), true, d) + f) != Render(String(s), false, d) + u
  {
    hide Erased, Splits;
    BadString(s, f, u);
  }

  lemma SplitsBehind(f: string, u: string)
    ensures Splits(f, u) ==> Splits("]" + f, "]" + u)
  {
    if Splits(f, u) {
      var k: nat :| k < |f| && k < |u| && SplitsAt(f, u, k);
      assert ("]" + f)[..k + 1] == "]" + f[..k] && ("]" + u)[..k + 1] == "]" + u[..k];
      assert ("]" + f)[..k + 2] == "]" + f[..k + 1];
      assert SplitsAt("]" + f, "]" + u, k + 1);
    }
  }

  lemma SplitsNow(f: string, u: string, k: nat)
    requires k < |f| && k < |u| && k <= 1 && f[..k] == u[..k] && f[0] != '"' && f[k] != '"' && f[k] != u[k]
    ensures Splits(f, u)
  {
    assert SplitsAt(f, u, k);
  }

  lemma ItemsStart(items: seq<Json>, d: nat, u: string)
    requires items != []
    ensures var t := RenderItems(items, false, d) + u; t != "" && t[0] != ' '
  {
    hide Render;
    FirstByte(items[0], d);
  }

  lemma {:induction false} BadItems(items: seq<Json>, d: nat, f: string, u: string)
    requires !AllClean(items) && (Splits(f, u) || !ItemsButLast(items))
    ensures Erased(RenderItems(items, true, d) + f) != RenderItems(items, false, d) + u
    decreases items, 0
  {
    hide Erased, Render, RenderItems, Splits, Clean, CleanButLast;
    var moreF, moreU := RenderItems(items[1..], true, d) + f, RenderItems(items[1..], false, d) + u;
    ItemsSplit(items, d, f);
    ItemsSplit(items, d, u);
    if Clean(items[0]) {
      OthersBad(items);
      CleanErased(items[0], d, ", " + moreF);
      ErasedComma(moreF);
      BadItems(items[1..], d, f, u);
      Cancel(",", Erased(moreF), moreU);
      Cancel(Render(items[0], false, d), "," + Erased(moreF), "," + moreU);
    } else if |items| == 1 {
      NoItems(d);
      assert items[1..] == [] && "" + f == f && "" + ("" + f) == f && "" + u == u && "" + ("" + u) == u;
      BadErased(items[0], d, f, u);
    } else {
      ItemsStart(items[1..], d, u);
      assert (", " + moreF)[..1] == "," == ("," + moreU)[..1];
      SplitsNow(", " + moreF, "," + moreU, 1);
      BadErased(items[0], d, ", " + moreF, "," + moreU);
    }
  }

  lemma OthersBad(items: seq<Json>)
    requires !AllClean(items) && Clean(items[0])
    ensures |items| > 1 && !AllClean(items[1..]) && (ItemsButLast(items[1..]) ==> ItemsButLast(items))
  {
    hide Clean, CleanButLast;
    var i :| 0 <= i < |items| && !Clean(items[i]);
    assert items[1..][i - 1] == items[i];
    var rest := items[1..];
    if ItemsButLast(rest) {
      var init := items[..|items| - 1];
      forall j | 0 <= j < |init| ensures Clean(init[j]) {
        assert j > 0 ==> rest[..|rest| - 1][j - 1] == items[j];
      }
    }
  }

  lemma MembersStart(members: seq<Member>, d: nat, u: string)
    requires u != "" && u[0] == '}'
    ensures var t := RenderMembers(members, false, d) + u; t != "" && t[0] != '\n'
  {
    hide Render, Escape;
    if members != [] {
      NoIndent(d);
      assert Quote(members[0].key)[0] == '"';
    }
  }

  /** What follows a member's value differs at once between the styles. */
  lemma SeparatorsSplit(more: bool, f: string, u: string)
    requires u != "" && u[0] != '\n'
    ensures Splits(Separator(more, true) + f, Separator(more, false) + u)
  {
    hide Splits;
    var a, b := Separator(more, true) + f, Separator(more, false) + u;
    if more {
      assert Separator(true, true) == ",\n" && Separator(true, false) == ",";
      assert a[..1] == "," == b[..1] && a[1] == '\n' && b[1] == u[0];
      SplitsNow(a, b, 1);
    } else {
      assert Separator(false, true) == "\n" && Separator(false, false) == "";
      assert b == u && a[..0] == b[..0];
      SplitsNow(a, b, 0);
    }
  }

  lemma {:induction false} BadMembers(members: seq<Member>, d: nat, f: string, u: string)
    requires !MembersClean(members) && u != "" && u[0] == '}'
    ensures Erased(RenderMembers(members, true, d) + f) != RenderMembers(members, false, d) + u
    decreases members, 0
  {
    hide Erased, Render, RenderMembers, Splits, Clean, Separator, Indent, Quote;
    var m, more := members[0], |members| > 1;
    var afterF, afterU := RenderMembers(members[1..], true, d) + f, RenderMembers(members[1..], false, d) + u;
    var tailF, tailU := Separator(more, true) + afterF, Separator(more, false) + afterU;
    var valueF, valueU := Render(m.value, true, d) + tailF, Render(m.value, false, d) + tailU;
    MembersSplit(members, d, f);
    MembersSplit(members, d, u);
    IndentBlank(d);
    ErasedBlanks(Indent(true, d), Quote(m.key) + (":\t" + valueF));
    if EndsInBackslash(m.key) {
      FirstByte(m.value, d);
      assert (":\t" + valueF)[..1] == ":" == (":" + valueU)[..1];
      SplitsNow(":\t" + valueF, ":" + valueU, 1);
      BadString(m.key, ":\t" + valueF, ":" + valueU);
    } else {
      BadMemberTail(members, d, f, u);
      ErasedString(m.key, ":\t" + valueF);
      ErasedSeparators(more, valueF);
      Cancel(":", Erased(valueF), valueU);
      Cancel(Quote(m.key), ":" + Erased(valueF), ":" + valueU);
    }
  }

  lemma {:induction false} BadMemberTail(members: seq<Member>, d: nat, f: string, u: string)
    requires !MembersClean(members) && !EndsInBackslash(members[0].key) && u != "" && u[0] == '}'
    ensures var m, more := members[0], |members| > 1;
      Erased(Render(m.value, true, d) + (Separator(more, true) + (RenderMembers(members[1..], true, d) + f))) !=
      Render(m.value, false, d) + (Separator(more, false) + (RenderMembers(members[1..], false, d) + u))
    decreases members, 0, 0
  {
    hide Erased, Render, RenderMembers, Splits, Clean, Separator;
    var m, more := members[0], |members| > 1;
    var afterF, afterU := RenderMembers(members[1..], true, d) + f, RenderMembers(members[1..], false, d) + u;
    if Clean(m.value) {
      OthersBadToo(members);
      CleanErased(m.value, d, Separator(more, true) + afterF);
      ErasedSeparators(more, afterF);
      BadMembers(members[1..], d, f, u);
      Cancel(Separator(more, false), Erased(afterF), afterU);
      Cancel(Render(m.value, false, d), Separator(more, false) + Erased(afterF), Separator(more, false) + afterU);
    } else {
      MembersStart(members[1..], d, u);
      SeparatorsSplit(more, afterF, afterU);
      BadErased(m.value, d, Separator(more, true) + afterF, Separator(more, false) + afterU);
    }
  }

  lemma OthersBadToo(members: seq<Member>)
    requires !MembersClean(members) && !EndsInBackslash(members[0].key) && Clean(members[0].value)
    ensures |members| > 1 && !MembersClean(members[1..])
  {
    hide Clean;
    var i :| 0 <= i < |members| && (EndsInBackslash(members[i].key) || !Clean(members[i].value));
    assert members[1..][i - 1] == members[i];
  }

  // ---- the law -----------------------------------------------------------------------------------------

  /** Minifying formatted output gives the unformatted output exactly for the documents in which no
      string and no key ends in a backslash, a string at the very end of nested arrays excepted. */
  lemma MinifyUnformats(v: Json)
    ensures Erased(Render(v, true, 0)) == Render(v, false, 0) <==> CleanButLast(v)
  {
    hide Erased, Render, Splits;
    assert Render(v, true, 0) + "" == Render(v, true, 0) && Render(v, false, 0) + "" == Render(v, false, 0);
    if CleanButLast(v) {
      LastErased(v, 0, "");
    } else {
      CleanSuffices(v);
      BadErased(v, 0, "", "");
    }
  }

  /** In particular for every document in which none does. */
  lemma {:induction false} CleanSuffices(v: Json)
    ensures Clean(v) ==> CleanButLast(v)
  {
    match v
    case Array(items) =>
      if items != [] {
        CleanSuffices(items[|items| - 1]);
      }
    case _ =>
  }

  /** It does fail: a two-element array whose first element is a backslash. */
  lemma MinifyKeepsBlank()
    ensures var v := Array([String("\\"), Null]);
      Erased(Render(v, true, 0)) != Render(v, false, 0)
  {
    var v := Array([String("\\"), Null]);
    assert !Clean(v.items[..1][0]);
    MinifyUnformats(v);
  }
}
