/** The HTML tokenizer as functions of the input and a cursor. */
module Html5 {
  import opened Text

  datatype State =
    | Eof
    | Data
    | TagOpen
    | TagNameClose
    | SelfClosing
    | BeforeAttributeName
    | AfterAttributeName
    | BeforeAttributeValue
    | DoubleQuoted
    | SingleQuoted
    | BackQuoted
    | AfterQuoted

  datatype Kind =
    | DataText
    | TagNameOpen
    | NameClose
    | NameSelfclose
    | TagClose
    | AttrName
    | AttrValue
    | TagComment
    | Doctype

  datatype Token = Token(kind: Kind, start: nat, len: nat)

  /** The part of the tokenizer's state that outlives a token. */
  datatype Cursor = Cursor(state: State, pos: nat, isClose: bool)

  datatype Step = Stop(next: Cursor) | Emit(next: Cursor, token: Token)

  // ---- bytes -------------------------------------------------------------------------------------

  const WHITE := " \t\n\U{0B}\U{0C}\r"
  const TAG_NAME_STOPS := " \t\n\U{0B}\U{0C}\r/>"
  const ATTRIBUTE_STOPS := " \t\n\U{0B}\U{0C}\r\0/=>"
  const VALUE_STOPS := " \t\n\U{0B}\U{0C}\r\0>"

  /** `h5_is_white`: the search also finds the terminator of the set. */
  predicate IsWhite(c: char) {
    StrChr(WHITE, c)
  }

  /** First position from `from` on that holds one of the stop bytes, or the end. */
  function Reach(s: string, from: nat, stops: string): (i: nat)
    requires from <= |s|
    ensures from <= i <= |s|
    ensures forall k :: from <= k < i ==> s[k] !in stops
    ensures i < |s| ==> s[i] in stops
    decreases |s| - from
  {
    if from == |s| || s[from] in stops then from else Reach(s, from + 1, stops)
  }

  /** First position behind white space and NULs. */
  function SkipWhite(s: string, from: nat): (i: nat)
    requires from <= |s|
    ensures from <= i <= |s|
    ensures i < |s| ==> !IsWhite(s[i])
    decreases |s| - from
  {
    if from == |s| || !IsWhite(s[from]) then from else SkipWhite(s, from + 1)
  }

  /** The byte 255 is a char of value -1 and reads as the end of the input. */
  predicate ReadsEof(s: string, p: nat) {
    p >= |s| || s[p] == '\U{FF}'
  }

  function SkipNuls(s: string, from: nat): (i: nat)
    requires from <= |s|
    ensures from <= i <= |s|
    ensures forall k :: from <= k < i ==> s[k] == NUL
    ensures i < |s| ==> s[i] != NUL
    decreases |s| - from
  {
    if from == |s| || s[from] != NUL then from else SkipNuls(s, from + 1)
  }

  /** A comment ends at a dash, NULs, a dash or exclamation mark, and a greater-than sign. */
  predicate CommentEndsAt(s: string, i: nat) {
    && i + 3 <= |s| && s[i] == '-'
    && var k := SkipNuls(s, i + 1);
    k + 1 < |s| && (s[k] == '-' || s[k] == '!') && s[k + 1] == '>'
  }

  /** The first end of a comment from `from` on, or the end of the input. */
  function CommentEnd(s: string, from: nat): (i: nat)
    requires from <= |s|
    ensures from <= i <= |s|
    ensures i < |s| ==> CommentEndsAt(s, i)
    ensures forall k :: from <= k < i ==> !CommentEndsAt(s, k)
    decreases |s| - from
  {
    if from == |s| || CommentEndsAt(s, from) then from else CommentEnd(s, from + 1)
  }

  // ---- comments, doctype, cdata ----------------------------------------------------------------------

  /** A token that runs from the cursor to the end of the input. */
  function ToEnd(s: string, c: Cursor, kind: Kind): Step
    requires c.pos <= |s|
  {
    Emit(c.(state := Eof), Token(kind, c.pos, |s| - c.pos))
  }

  function BogusComment(s: string, c: Cursor): Step
    requires c.pos <= |s|
  {
    var i := IndexOf(s, '>', c.pos);
    if i == |s| then ToEnd(s, c, TagComment).(next := c.(state := Eof, pos := |s|))
    else Emit(c.(state := Data, pos := i + 1), Token(TagComment, c.pos, i - c.pos))
  }

  function BogusComment2(s: string, c: Cursor): Step
    requires c.pos <= |s|
  {
    var i := Find(s, "%>", c.pos, |s|);
    if i == |s| then ToEnd(s, c, TagComment).(next := c.(state := Eof, pos := |s|))
    else Emit(c.(state := Data, pos := i + 2), Token(TagComment, c.pos, i - c.pos))
  }

  function Comment(s: string, c: Cursor): Step
    requires c.pos <= |s|
  {
    var i := CommentEnd(s, c.pos);
    if i == |s| then ToEnd(s, c, TagComment)
    else Emit(c.(state := Data, pos := SkipNuls(s, i + 1) + 2), Token(TagComment, c.pos, i - c.pos))
  }

  function Cdata(s: string, c: Cursor): Step
    requires c.pos <= |s|
  {
    var i := Find(s, "]]>", c.pos, |s|);
    if i == |s| then ToEnd(s, c, DataText)
    else Emit(c.(state := Data, pos := i + 3), Token(DataText, c.pos, i - c.pos))
  }

  function DoctypeStep(s: string, c: Cursor): Step
    requires c.pos <= |s|
  {
    var i := IndexOf(s, '>', c.pos);
    if i == |s| then ToEnd(s, c, Doctype)
    else Emit(c.(state := Data, pos := i + 1), Token(Doctype, c.pos, i - c.pos))
  }

  predicate ReadsUpper(s: string, at: nat, word: string) {
    at + |word| <= |s| && Upper(s[at..at + |word|]) == word
  }

  function MarkupDeclarationOpen(s: string, c: Cursor): Step
    requires c.pos <= |s|
  {
    if ReadsUpper(s, c.pos, "DOCTYPE") then DoctypeStep(s, c)
    else if OccursAt(s, "[CDATA[", c.pos) then Cdata(s, c.(pos := c.pos + 7))
    else if OccursAt(s, "--", c.pos) then Comment(s, c.(pos := c.pos + 2))
    else BogusComment(s, c)
  }

  // ---- tags --------------------------------------------------------------------------------------------

  function TagName(s: string, c: Cursor): Step
    requires c.pos <= |s|
  {
    var p := Reach(s, c.pos, TAG_NAME_STOPS);
    var token := Token(TagNameOpen, c.pos, p - c.pos);
    if p == |s| then Emit(c.(state := Eof), token)
    else if s[p] == '/' then Emit(c.(state := SelfClosing, pos := p + 1), token)
    else if s[p] == '>' then
      if c.isClose then Emit(Cursor(Data, p + 1, false), token.(kind := TagClose))
      else Emit(c.(state := TagNameClose, pos := p), token)
    else Emit(c.(state := BeforeAttributeName, pos := p + 1), token)
  }

  function CloseTagName(s: string, c: Cursor): Step
    requires c.pos <= |s|
  {
    Emit(Cursor(if c.pos + 1 < |s| then Data else Eof, c.pos + 1, false), Token(NameClose, c.pos, 1))
  }

  function DataStep(s: string, c: Cursor): Step
    requires c.pos <= |s|
    decreases |s| - c.pos, 1
  {
    var i := IndexOf(s, '<', c.pos);
    if i == |s| then
      if c.pos == |s| then Stop(c.(state := Eof)) else ToEnd(s, c, DataText)
    else
      var n := c.(state := TagOpen, pos := i + 1);
      if i == c.pos then TagOpenStep(s, n) else Emit(n, Token(DataText, c.pos, i - c.pos))
  }

  function TagOpenStep(s: string, c: Cursor): Step
    requires c.pos <= |s|
    decreases |s| - c.pos, 2
  {
    if c.pos == |s| then Stop(c)
    else if s[c.pos] == '!' then MarkupDeclarationOpen(s, c.(pos := c.pos + 1))
    else if s[c.pos] == '/' then EndTagOpen(s, c.(pos := c.pos + 1, isClose := true))
    else if s[c.pos] == '?' then BogusComment(s, c.(pos := c.pos + 1))
    else if s[c.pos] == '%' then BogusComment2(s, c.(pos := c.pos + 1))
    else if IsLetter(s[c.pos]) || s[c.pos] == NUL then TagName(s, c)
    else if c.pos == 0 then DataStep(s, c)
    else Emit(c.(state := Data), Token(DataText, c.pos - 1, 1))
  }

  function EndTagOpen(s: string, c: Cursor): Step
    requires c.pos <= |s|
    decreases |s| - c.pos, 2
  {
    if c.pos == |s| then Stop(c)
    else if s[c.pos] == '>' then DataStep(s, c)
    else if IsLetter(s[c.pos]) then TagName(s, c)
    else BogusComment(s, c.(isClose := false))
  }

  // ---- attributes -----------------------------------------------------------------------------------------

  function AttributeName(s: string, c: Cursor): Step
    requires c.pos < |s|
  {
    var p := Reach(s, c.pos + 1, ATTRIBUTE_STOPS);
    var token := Token(AttrName, c.pos, p - c.pos);
    if p == |s| then Emit(c.(state := Eof, pos := |s|), token)
    else if s[p] == '/' then Emit(c.(state := SelfClosing, pos := p + 1), token)
    else if s[p] == '=' then Emit(c.(state := BeforeAttributeValue, pos := p + 1), token)
    else if s[p] == '>' then Emit(c.(state := TagNameClose, pos := p), token)
    else Emit(c.(state := AfterAttributeName, pos := p + 1), token)
  }

  function BeforeName(s: string, c: Cursor): Step
    requires c.pos <= |s|
    decreases |s| - c.pos, 1
  {
    var p := SkipWhite(s, c.pos);
    if ReadsEof(s, p) then Stop(c.(pos := p))
    else if s[p] == '/' then
      if p + 1 < |s| && s[p + 1] != '>' then BeforeName(s, c.(pos := p + 1)) else SelfClosingStep(s, c.(pos := p + 1))
    else if s[p] == '>' then Emit(c.(state := Data, pos := p + 1), Token(NameClose, p, 1))
    else AttributeName(s, c.(pos := p))
  }

  function SelfClosingStep(s: string, c: Cursor): Step
    requires 0 < c.pos <= |s|
    decreases |s| - c.pos, 2
  {
    if c.pos == |s| then Stop(c)
    else if s[c.pos] == '>' then
      Emit(c.(state := Data, pos := c.pos + 1), Token(NameSelfclose, c.pos - 1, 2))
    else BeforeName(s, c)
  }

  function AfterName(s: string, c: Cursor): Step
    requires c.pos <= |s|
  {
    var p := SkipWhite(s, c.pos);
    if ReadsEof(s, p) then Stop(c.(pos := p))
    else if s[p] == '/' then SelfClosingStep(s, c.(pos := p + 1))
    else if s[p] == '=' then BeforeValue(s, c.(pos := p + 1))
    else if s[p] == '>' then CloseTagName(s, c.(pos := p))
    else AttributeName(s, c.(pos := p))
  }

  function BeforeValue(s: string, c: Cursor): Step
    requires c.pos <= |s|
  {
    var p := SkipWhite(s, c.pos);
    var n := c.(pos := p);
    if ReadsEof(s, p) then Stop(n.(state := Eof))
    else if s[p] == '"' || s[p] == '\'' || s[p] == '`' then QuotedValue(s, n, s[p])
    else UnquotedValue(s, n)
  }

  /** A quoted value; at the very start of the input there is no quote to skip. */
  function QuotedValue(s: string, c: Cursor, quote: char): Step
    requires c.pos <= |s| && (c.pos > 0 ==> c.pos < |s|)
  {
    var from := if c.pos > 0 then c.pos + 1 else 0;
    var i := IndexOf(s, quote, from);
    var token := Token(AttrValue, from, i - from);
    if i == |s| then Emit(c.(state := Eof, pos := from), token) else Emit(c.(state := AfterQuoted, pos := i + 1), token)
  }

  function UnquotedValue(s: string, c: Cursor): Step
    requires c.pos <= |s|
  {
    var p := Reach(s, c.pos, VALUE_STOPS);
    var token := Token(AttrValue, c.pos, p - c.pos);
    if p == |s| then Emit(c.(state := Eof), token)
    else if s[p] == '>' then Emit(c.(state := TagNameClose, pos := p), token)
    else Emit(c.(state := BeforeAttributeName, pos := p + 1), token)
  }

  function AfterQuotedStep(s: string, c: Cursor): Step
    requires c.pos <= |s|
  {
    if c.pos == |s| then Stop(c)
    else if IsWhite(s[c.pos]) then BeforeName(s, c.(pos := c.pos + 1))
    else if s[c.pos] == '/' then SelfClosingStep(s, c.(pos := c.pos + 1))
    else if s[c.pos] == '>' then Emit(c.(state := Data, pos := c.pos + 1), Token(NameClose, c.pos, 1))
    else BeforeName(s, c)
  }

  // ---- one step --------------------------------------------------------------------------------------------

  /** What holds of the cursor between calls. */
  ghost predicate Sound(s: string, c: Cursor) {
    && c.pos <= |s|
    && (c.state == TagNameClose ==> c.pos < |s| && s[c.pos] == '>')
    && (c.state == TagOpen || c.state == SelfClosing || c.state == BeforeAttributeValue ==> c.pos > 0)
    && (c.state == TagOpen && c.pos < |s| ==> s[c.pos - 1] == '<')
    && (c.state == SelfClosing && !ReadsEof(s, c.pos) ==> s[c.pos - 1] == '/')
    && (c.state == DoubleQuoted || c.state == SingleQuoted || c.state == BackQuoted ==> c.pos == 0)
  }

  function Next(s: string, c: Cursor): Step
    requires Sound(s, c)
  {
    match c.state
    case Eof => Stop(c)
    case Data => DataStep(s, c)
    case TagOpen => TagOpenStep(s, c)
    case TagNameClose => CloseTagName(s, c)
    case SelfClosing => SelfClosingStep(s, c)
    case BeforeAttributeName => BeforeName(s, c)
    case AfterAttributeName => AfterName(s, c)
    case BeforeAttributeValue => BeforeValue(s, c)
    case DoubleQuoted => QuotedValue(s, c, '"')
    case SingleQuoted => QuotedValue(s, c, '\'')
    case BackQuoted => QuotedValue(s, c, '`')
    case AfterQuoted => AfterQuotedStep(s, c)
  }

  // ---- what every step keeps ----------------------------------------------------------------------------------

  /** Where the next token may start: a pending angle bracket or slash lies right behind the cursor. */
  function Floor(c: Cursor): int {
    if c.state == TagOpen || c.state == SelfClosing then c.pos - 1 else c.pos
  }

  /** How many tokens may still come, at most. */
  function Measure(s: string, c: Cursor): (m: nat)
    requires c.pos <= |s|
  {
    if c.state == Eof then 0
    else 2 * (|s| - c.pos) + (if c.state == TagOpen || c.state == BeforeAttributeValue then 2 else 1)
  }

  predicate Free(t: string, stops: string) {
    forall k :: 0 <= k < |t| ==> t[k] !in stops
  }

  /** Behind the quote, or at the very start of the input, and without the quote inside. */
  predicate QuotedBy(s: string, t: Token, quote: char)
    requires t.start + t.len <= |s|
  {
    (t.start == 0 || s[t.start - 1] == quote) && quote !in s[t.start..t.start + t.len]
  }

  /** What a token of each kind looks like. */
  ghost predicate Shaped(s: string, t: Token)
    requires t.start + t.len <= |s|
  {
    var x := s[t.start..t.start + t.len];
    match t.kind
    case DataText => '<' !in x || x == "<" || (8 <= t.start && s[t.start - 8..t.start] == "![CDATA[")
    case TagNameOpen => x != "" && Free(x, TAG_NAME_STOPS)
    case TagClose => x != "" && Free(x, TAG_NAME_STOPS)
    case NameClose => x == ">"
    case NameSelfclose => x == "/>"
    case AttrName => x != "" && !IsWhite(x[0]) && x[0] != '/' && x[0] != '>' && Free(x[1..], ATTRIBUTE_STOPS)
    case AttrValue =>
      || Free(x, VALUE_STOPS)
      || QuotedBy(s, t, '"') || QuotedBy(s, t, '\'') || QuotedBy(s, t, '`')
    case TagComment =>
      || '>' !in x
      || (t.start > 0 && s[t.start - 1] == '%'
          && forall k :: t.start <= k && k + 2 <= t.start + t.len ==> !OccursAt(s, "%>", k))
      || (t.start > 1 && OccursAt(s, "--", t.start - 2)
          && forall k :: t.start <= k < t.start + t.len ==> !CommentEndsAt(s, k))
    case Doctype => ReadsUpper(s, t.start, "DOCTYPE") && '>' !in x
  }

  predicate BetweenAttributes(state: State) {
    state == SelfClosing || state == BeforeAttributeName || state == AfterAttributeName || state == AfterQuoted
  }

  /** A step from a cursor whose next token may not start before `floor`, with less than `budget` to go
      on after a token. It stops only where the input reads as ended, and after a token it is through
      only when the token reaches the end. */
  ghost predicate Good(s: string, r: Step, floor: int, budget: int) {
    && Sound(s, r.next)
    && (r.Stop? ==>
          && floor <= r.next.pos && ReadsEof(s, r.next.pos)
          && (r.next.state == Eof || BetweenAttributes(r.next.state) || (r.next.state == TagOpen && r.next.pos == |s|)))
    && (r.Emit? ==>
          && floor <= r.token.start && r.token.start + r.token.len <= |s| && Shaped(s, r.token)
          && (if r.next.state == Eof then r.token.start + r.token.len == |s|
              else r.token.start + r.token.len <= Floor(r.next))
          && Measure(s, r.next) < budget)
  }

  lemma MarkupGood(s: string, c: Cursor)
    requires 0 < c.pos <= |s| && s[c.pos - 1] == '!'
    ensures Good(s, MarkupDeclarationOpen(s, c), c.pos, 2 * (|s| - c.pos) + 2)
  {
    hide Comment, Cdata, DoctypeStep, BogusComment, Good, ReadsUpper, OccursAt;
    if ReadsUpper(s, c.pos, "DOCTYPE") {
      RestGood(s, c);
    }
    BogusGood(s, c);
    if OccursAt(s, "[CDATA[", c.pos) {
      Occurs(s, "[CDATA[", c.pos);
      assert s[c.pos - 1..c.pos + 7] == [s[c.pos - 1]] + s[c.pos..c.pos + 7];
      CdataGood(s, c.(pos := c.pos + 7));
      LooserGood(s, Cdata(s, c.(pos := c.pos + 7)), c.pos + 7, 2 * (|s| - (c.pos + 7)) + 2, c.pos, 2 * (|s| - c.pos) + 2);
    }
    if OccursAt(s, "--", c.pos) {
      Occurs(s, "--", c.pos);
      CommentGood(s, c.(pos := c.pos + 2));
      LooserGood(s, Comment(s, c.(pos := c.pos + 2)), c.pos + 2, 2 * (|s| - (c.pos + 2)) + 2, c.pos, 2 * (|s| - c.pos) + 2);
    }
  }

  lemma Occurs(s: string, needle: string, at: nat)
    requires OccursAt(s, needle, at)
    ensures at + |needle| <= |s| && s[at..at + |needle|] == needle
  {
  }

  lemma LooserGood(s: string, r: Step, floor: int, budget: int, floor': int, budget': int)
    requires Good(s, r, floor, budget) && floor' <= floor && budget <= budget'
    ensures Good(s, r, floor', budget')
  {
  }

  lemma CommentGood(s: string, c: Cursor)
    requires 2 <= c.pos <= |s| && OccursAt(s, "--", c.pos - 2)
    ensures Good(s, Comment(s, c), c.pos, 2 * (|s| - c.pos) + 2)
  {
    hide CommentEndsAt;
    CommentCloses(s);
  }

  lemma CdataGood(s: string, c: Cursor)
    requires 8 <= c.pos <= |s| && s[c.pos - 8..c.pos] == "![CDATA["
    ensures Good(s, Cdata(s, c), c.pos, 2 * (|s| - c.pos) + 2)
  {
  }

  lemma RestGood(s: string, c: Cursor)
    requires c.pos <= |s| && ReadsUpper(s, c.pos, "DOCTYPE")
    ensures Good(s, DoctypeStep(s, c), c.pos, 2 * (|s| - c.pos) + 2)
  {
  }

  lemma CommentCloses(s: string)
    ensures forall i: nat :: i < |s| && CommentEndsAt(s, i) ==> i + 1 <= SkipNuls(s, i + 1) && SkipNuls(s, i + 1) + 2 <= |s|
  {
  }

  lemma BogusGood(s: string, c: Cursor)
    requires c.pos <= |s|
    ensures Good(s, BogusComment(s, c), c.pos, 2 * (|s| - c.pos) + 2)
  {
  }

  lemma Bogus2Good(s: string, c: Cursor)
    requires 0 < c.pos <= |s| && s[c.pos - 1] == '%'
    ensures Good(s, BogusComment2(s, c), c.pos, 2 * (|s| - c.pos) + 2)
  {
    hide OccursAt, CommentEndsAt;
  }

  lemma TagNameGood(s: string, c: Cursor)
    requires c.pos < |s| && s[c.pos] !in TAG_NAME_STOPS
    ensures Good(s, TagName(s, c), c.pos, 2 * (|s| - c.pos) + 1)
  {
    hide Shaped;
    var p := Reach(s, c.pos, TAG_NAME_STOPS);
    NameShaped(s, c.pos, p);
  }

  lemma NameShaped(s: string, p: nat, e: nat)
    requires p < e <= |s| && forall k :: p <= k < e ==> s[k] !in TAG_NAME_STOPS
    ensures Shaped(s, Token(TagNameOpen, p, e - p)) && Shaped(s, Token(TagClose, p, e - p))
  {
  }

  lemma {:induction false} DataGood(s: string, c: Cursor)
    requires c.pos <= |s| && c.state == Data
    ensures Good(s, DataStep(s, c), c.pos, Measure(s, c))
    decreases |s| - c.pos, 1
  {
    hide TagOpenStep, Shaped;
    var i := IndexOf(s, '<', c.pos);
    TextGood(s, c.pos, i);
    if i == c.pos && i < |s| {
      TagOpenGood(s, c.(state := TagOpen, pos := i + 1));
    }
  }

  lemma TextGood(s: string, p: nat, i: nat)
    requires p <= i <= |s| && forall k :: p <= k < i ==> s[k] != '<'
    ensures Shaped(s, Token(DataText, p, i - p))
  {
  }

  lemma BracketGood(s: string, p: nat)
    requires p < |s| && s[p] == '<'
    ensures Shaped(s, Token(DataText, p, 1))
  {
    assert s[p..p + 1] == [s[p]];
  }

  lemma {:induction false} TagOpenGood(s: string, c: Cursor)
    requires 0 < c.pos <= |s| && c.state == TagOpen && (c.pos < |s| ==> s[c.pos - 1] == '<')
    ensures Good(s, TagOpenStep(s, c), c.pos - 1, Measure(s, c))
    decreases |s| - c.pos, 2
  {
    hide MarkupDeclarationOpen, BogusComment, BogusComment2, EndTagOpen, TagName, DataStep, Shaped;
    if c.pos < |s| {
      var n := c.(pos := c.pos + 1);
      if s[c.pos] == '!' {
        MarkupGood(s, n);
      } else if s[c.pos] == '/' {
        EndTagGood(s, n.(isClose := true));
      } else if s[c.pos] == '?' {
        BogusGood(s, n);
      } else if s[c.pos] == '%' {
        Bogus2Good(s, n);
      } else if IsLetter(s[c.pos]) || s[c.pos] == NUL {
        TagNameGood(s, c);
      } else {
        BracketGood(s, c.pos - 1);
      }
    }
  }

  lemma {:induction false} EndTagGood(s: string, c: Cursor)
    requires 0 < c.pos <= |s| && c.state == TagOpen
    ensures Good(s, EndTagOpen(s, c), c.pos, 2 * (|s| - c.pos) + 2)
    decreases |s| - c.pos, 2
  {
    hide BogusComment, BogusComment2, TagName, DataStep;
    if c.pos < |s| {
      if s[c.pos] == '>' {
        DataAnyState(s, c);
        DataGood(s, c.(state := Data));
      } else if IsLetter(s[c.pos]) {
        TagNameGood(s, c);
      } else {
        BogusGood(s, c.(isClose := false));
      }
    }
  }

  /** Scanning text does not look at the state it comes from. */
  lemma {:induction false} DataAnyState(s: string, c: Cursor)
    requires c.pos <= |s|
    ensures DataStep(s, c) == DataStep(s, c.(state := Data))
  {
  }

  lemma AttributeGood(s: string, c: Cursor)
    requires c.pos < |s| && !IsWhite(s[c.pos]) && s[c.pos] != '/' && s[c.pos] != '>'
    ensures Good(s, AttributeName(s, c), c.pos, 2 * (|s| - c.pos) + 1)
  {
    hide Shaped, Reach;
    AttributeShaped(s, c.pos);
  }

  lemma AttributeShaped(s: string, p: nat)
    requires p < |s| && !IsWhite(s[p]) && s[p] != '/' && s[p] != '>'
    ensures Shaped(s, Token(AttrName, p, Reach(s, p + 1, ATTRIBUTE_STOPS) - p))
  {
    hide IsWhite, Reach;
    var x := s[p..Reach(s, p + 1, ATTRIBUTE_STOPS)];
    assert forall k :: 0 <= k < |x[1..]| ==> x[1..][k] == s[p + 1 + k];
  }

  lemma {:induction false} BeforeNameGood(s: string, c: Cursor)
    requires c.pos <= |s| && BetweenAttributes(c.state) && (c.state == SelfClosing ==> c.pos > 0)
    ensures Good(s, BeforeName(s, c), c.pos, 2 * (|s| - c.pos) + 1)
    decreases |s| - c.pos, 1
  {
    hide AttributeName, SelfClosingStep, SkipWhite, Shaped;
    var p := SkipWhite(s, c.pos);
    if !ReadsEof(s, p) {
      if s[p] == '/' {
        if p + 1 < |s| && s[p + 1] != '>' {
          BeforeNameGood(s, c.(pos := p + 1));
        } else {
          SelfClosingGood(s, c.(pos := p + 1));
        }
      } else if s[p] == '>' {
        CloseGood(s, p);
      } else {
        AttributeGood(s, c.(pos := p));
      }
    }
  }

  lemma CloseGood(s: string, p: nat)
    requires p < |s| && s[p] == '>'
    ensures Shaped(s, Token(NameClose, p, 1))
  {
    assert s[p..p + 1] == [s[p]];
  }

  lemma {:induction false} SelfClosingGood(s: string, c: Cursor)
    requires 0 < c.pos <= |s| && BetweenAttributes(c.state) && (!ReadsEof(s, c.pos) ==> s[c.pos - 1] == '/')
    ensures Good(s, SelfClosingStep(s, c), c.pos - 1, 2 * (|s| - c.pos) + 1)
    decreases |s| - c.pos, 2
  {
    hide BeforeName, Shaped;
    if c.pos < |s| {
      if s[c.pos] == '>' {
        SelfCloseGood(s, c.pos);
      } else {
        BeforeNameGood(s, c);
      }
    }
  }

  lemma SelfCloseGood(s: string, p: nat)
    requires 0 < p < |s| && s[p - 1] == '/' && s[p] == '>'
    ensures Shaped(s, Token(NameSelfclose, p - 1, 2))
  {
    assert s[p - 1..p + 1] == [s[p - 1], s[p]];
  }

  lemma ValueGood(s: string, c: Cursor)
    requires 0 < c.pos <= |s| && c.state == BeforeAttributeValue
    ensures Good(s, BeforeValue(s, c), c.pos, Measure(s, c))
  {
    hide SkipWhite, QuotedValue, UnquotedValue, Shaped;
    var p := SkipWhite(s, c.pos);
    if !ReadsEof(s, p) {
      if s[p] == '"' || s[p] == '\'' || s[p] == '`' {
        QuotedGood(s, c.(pos := p), s[p]);
      } else {
        UnquotedGood(s, c.(pos := p));
      }
    }
  }

  lemma QuotedGood(s: string, c: Cursor, quote: char)
    requires c.pos <= |s| && (c.pos > 0 ==> c.pos < |s| && s[c.pos] == quote)
    requires quote == '"' || quote == '\'' || quote == '`'
    ensures Good(s, QuotedValue(s, c, quote), c.pos, 2 * (|s| - c.pos) + 1)
  {
    hide Shaped;
    var from := if c.pos > 0 then c.pos + 1 else 0;
    var i := IndexOf(s, quote, from);
    assert Shaped(s, Token(AttrValue, from, i - from)) by {
      QuotedShape(s, from, i, quote);
    }
  }

  lemma QuotedShape(s: string, from: nat, i: nat, quote: char)
    requires from <= i <= |s| && (from == 0 || s[from - 1] == quote) && quote !in s[from..i]
    requires quote == '"' || quote == '\'' || quote == '`'
    ensures Shaped(s, Token(AttrValue, from, i - from))
  {
    assert QuotedBy(s, Token(AttrValue, from, i - from), quote);
  }

  lemma UnquotedGood(s: string, c: Cursor)
    requires c.pos <= |s|
    ensures Good(s, UnquotedValue(s, c), c.pos, 2 * (|s| - c.pos) + 2)
  {
    assert Free(s[c.pos..Reach(s, c.pos, VALUE_STOPS)], VALUE_STOPS);
  }

  lemma AfterNameGood(s: string, c: Cursor)
    requires c.pos <= |s| && c.state == AfterAttributeName
    ensures Good(s, AfterName(s, c), c.pos, Measure(s, c))
  {
    hide AttributeName, SelfClosingStep, SkipWhite, BeforeValue, Shaped;
    var p := SkipWhite(s, c.pos);
    if !ReadsEof(s, p) {
      if s[p] == '/' {
        SelfClosingGood(s, c.(pos := p + 1));
      } else if s[p] == '=' {
        ValueAnyState(s, c.(pos := p + 1));
        ValueGood(s, c.(pos := p + 1, state := BeforeAttributeValue));
      } else if s[p] == '>' {
        CloseGood(s, p);
      } else {
        AttributeGood(s, c.(pos := p));
      }
    }
  }

  lemma ValueAnyState(s: string, c: Cursor)
    requires c.pos <= |s|
    ensures BeforeValue(s, c) == BeforeValue(s, c.(state := BeforeAttributeValue))
  {
  }

  lemma AfterQuotedGood(s: string, c: Cursor)
    requires c.pos <= |s| && c.state == AfterQuoted
    ensures Good(s, AfterQuotedStep(s, c), c.pos, Measure(s, c))
  {
    hide BeforeName, SelfClosingStep, Shaped;
    if c.pos < |s| {
      if IsWhite(s[c.pos]) {
        BeforeNameGood(s, c.(pos := c.pos + 1));
      } else if s[c.pos] == '/' {
        SelfClosingGood(s, c.(pos := c.pos + 1));
      } else if s[c.pos] == '>' {
        CloseGood(s, c.pos);
      } else {
        BeforeNameGood(s, c);
      }
    }
  }

  /** Every step keeps the cursor sound; its token lies inside the input, not before the floor it
      started from and not behind the one it leaves, and looks like one of its kind; the budget of tokens
      shrinks; and only the end of the input, or a byte that reads like it, ends a run. */
  lemma NextGood(s: string, c: Cursor)
    requires Sound(s, c)
    ensures if c.state == Eof then Next(s, c) == Stop(c) else Good(s, Next(s, c), Floor(c), Measure(s, c))
  {
    hide DataStep, TagOpenStep, SelfClosingStep, BeforeName, AfterName, BeforeValue, AfterQuotedStep;
    hide QuotedValue, CloseTagName, Good;
    match c.state
    case Data => DataGood(s, c);
    case TagOpen => TagOpenGood(s, c);
    case SelfClosing => SelfClosingGood(s, c);
    case BeforeAttributeName => BeforeNameGood(s, c);
    case AfterAttributeName => AfterNameGood(s, c);
    case BeforeAttributeValue => ValueGood(s, c);
    case AfterQuoted => AfterQuotedGood(s, c);
    case _ => OthersGood(s, c);
  }

  lemma OthersGood(s: string, c: Cursor)
    requires Sound(s, c)
    ensures c.state == TagNameClose ==> Good(s, CloseTagName(s, c), Floor(c), Measure(s, c))
    ensures c.state == DoubleQuoted ==> Good(s, QuotedValue(s, c, '"'), Floor(c), Measure(s, c))
    ensures c.state == SingleQuoted ==> Good(s, QuotedValue(s, c, '\''), Floor(c), Measure(s, c))
    ensures c.state == BackQuoted ==> Good(s, QuotedValue(s, c, '`'), Floor(c), Measure(s, c))
  {
    hide QuotedValue, Shaped;
    match c.state
    case TagNameClose => CloseGood(s, c.pos);
    case DoubleQuoted => QuotedGood(s, c, '"');
    case SingleQuoted => QuotedGood(s, c, '\'');
    case BackQuoted => QuotedGood(s, c, '`');
    case _ =>
  }

  // ---- whole runs --------------------------------------------------------------------------------------------

  /** The five ways to start, `html5_flags`. */
  predicate Starts(c: Cursor) {
    && c.pos == 0 && !c.isClose
    && (c.state == Data || c.state == BeforeAttributeName || c.state == SingleQuoted || c.state == DoubleQuoted
        || c.state == BackQuoted)
  }

  /** All tokens from a cursor on, up to the first answer of zero. */
  function Tokens(s: string, c: Cursor): seq<Token>
    requires Sound(s, c)
    decreases Measure(s, c)
  {
    match Next(s, c)
    case Stop(_) => []
    case Emit(n, t) =>
      NextGood(s, c);
      [t] + Tokens(s, n)
  }

  /** Tokens lie inside the input, in order, apart from each other, each looking like its kind. */
  ghost predicate Ordered(s: string, ts: seq<Token>, floor: int) {
    && (forall i :: 0 <= i < |ts| ==> floor <= ts[i].start && ts[i].start + ts[i].len <= |s| && Shaped(s, ts[i]))
    && (forall i, j :: 0 <= i < j < |ts| ==> ts[i].start + ts[i].len <= ts[j].start)
  }

  lemma {:induction false} TokensOrdered(s: string, c: Cursor)
    requires Sound(s, c)
    ensures Ordered(s, Tokens(s, c), Floor(c)) && |Tokens(s, c)| <= Measure(s, c)
    decreases Measure(s, c)
  {
    hide Next, Floor, Measure, Shaped;
    NextGood(s, c);
    match Next(s, c)
    case Stop(_) =>
    case Emit(n, t) =>
      TokensOrdered(s, n);
      FloorKept(s, c, n, t);
      if n.state == Eof {
        EofStops(s, n);
      }
  }

  lemma FloorKept(s: string, c: Cursor, n: Cursor, t: Token)
    requires Sound(s, c) && Next(s, c) == Emit(n, t) && Good(s, Emit(n, t), Floor(c), Measure(s, c))
    ensures n.state != Eof ==> Floor(c) <= Floor(n) && t.start + t.len <= Floor(n)
  {
  }

  lemma EofStops(s: string, c: Cursor)
    requires c.pos <= |s| && c.state == Eof
    ensures Tokens(s, c) == []
  {
  }

  /** From every start there are at most twice as many tokens as bytes, and one more. */
  lemma TokensLinear(s: string, c: Cursor)
    requires Starts(c)
    ensures Sound(s, c) && |Tokens(s, c)| <= 2 * |s| + 1 && Ordered(s, Tokens(s, c), 0)
  {
    TokensOrdered(s, c);
  }

  /** Where a run stops reading. */
  function End(s: string, c: Cursor): nat
    requires Sound(s, c)
    decreases Measure(s, c)
  {
    match Next(s, c)
    case Stop(n) => n.pos
    case Emit(n, t) =>
      NextGood(s, c);
      if n.state == Eof then t.start + t.len else End(s, n)
  }

  /** A run goes on to the end of the input, or to a byte of 255, and its tokens lie before that. */
  lemma {:induction false} RunsToEnd(s: string, c: Cursor)
    requires Sound(s, c) && c.state != Eof
    ensures var e := End(s, c);
      Floor(c) <= e <= |s| && ReadsEof(s, e) && forall t :: t in Tokens(s, c) ==> t.start + t.len <= e
    decreases Measure(s, c)
  {
    hide Next, Floor, Measure, Shaped, ReadsEof;
    NextGood(s, c);
    match Next(s, c)
    case Stop(_) =>
    case Emit(n, t) =>
      FloorKept(s, c, n, t);
      if n.state == Eof {
        EofStops(s, n);
        FloorBelow(s, c, n, t);
      } else {
        RunsToEnd(s, n);
      }
  }

  lemma FloorBelow(s: string, c: Cursor, n: Cursor, t: Token)
    requires c.pos <= |s| && Good(s, Emit(n, t), Floor(c), Measure(s, c)) && n.state == Eof
    ensures t.start + t.len == |s| && Floor(c) <= |s| && ReadsEof(s, |s|)
  {
  }

  /** Without a byte of 255, the whole input is read from every start. */
  lemma AllIsRead(s: string, c: Cursor)
    requires Starts(c) && '\U{FF}' !in s
    ensures Sound(s, c) && End(s, c) == |s|
  {
    RunsToEnd(s, c);
  }

  /** A tokenizer that has answered zero keeps answering zero. */
  lemma StopsForGood(s: string, c: Cursor)
    requires Sound(s, c) && Next(s, c).Stop?
    ensures Sound(s, Next(s, c).next) && Next(s, Next(s, c).next).Stop?
  {
    hide Next;
    NextGood(s, c);
    if c.state != Eof {
      AtRest(s, Next(s, c).next);
    }
  }

  lemma AtRest(s: string, c: Cursor)
    requires Sound(s, c)
    requires || c.state == Eof || (c.state == TagOpen && c.pos == |s|)
             || (BetweenAttributes(c.state) && ReadsEof(s, c.pos))
    ensures Next(s, c).Stop?
  {
    if BetweenAttributes(c.state) {
      assert SkipWhite(s, c.pos) == c.pos by {
        assert c.pos < |s| ==> !IsWhite(s[c.pos]);
      }
      assert BeforeName(s, c) == Stop(c);
    }
  }
}
