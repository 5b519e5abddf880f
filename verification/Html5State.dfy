/** The HTML tokenizer as the program runs it: a state, a cursor and the latest token, changed in
    place, each method proved against the step function of the same name. */
module Html5State {
  import opened Text
  import opened Html5

  class Tokenizer {
    const s: string
    var pos: nat
    var isClose: bool
    var state: State
    var tokenStart: nat
    var tokenLen: nat
    var tokenKind: Kind

    /** `libinjection_h5_init` */
    constructor (s: string, start: Cursor)
      requires IsBytes(s) && Starts(start)
      ensures this.s == s && Here() == start && Valid()
    {
      this.s := s;
      pos, isClose, state := 0, false, start.state;
      tokenStart, tokenLen, tokenKind := 0, 0, DataText;
    }

    ghost predicate Valid()
      reads this
    {
      pos <= |s| && IsBytes(s)
    }

    function Here(): Cursor
      reads this
    {
      Cursor(state, pos, isClose)
    }

    /** The answer and the fields agree with a step. */
    ghost predicate Did(r: int, step: Step)
      reads this
    {
      && Here() == step.next
      && (step.Stop? ==> r == 0)
      && (step.Emit? ==> r == 1 && Token(tokenKind, tokenStart, tokenLen) == step.token)
    }

    method SetToken(kind: Kind, start: nat, len: nat)
      modifies this`tokenKind, this`tokenStart, this`tokenLen
      ensures Token(tokenKind, tokenStart, tokenLen) == Token(kind, start, len)
    {
      tokenKind, tokenStart, tokenLen := kind, start, len;
    }

    ghost predicate Sees(ch: int, c: char)
      reads this
    {
      ch == c as int <==> pos < |s| && s[pos] == c
    }

    /** `h5_skip_white`: the byte it stops at as a signed char, or -1 at the end. */
    method SkipWhiteSpace() returns (ch: int)
      requires Valid()
      modifies this`pos
      ensures Valid() && pos == SkipWhite(s, old(pos)) && ch == (if pos == |s| then -1 else Signed(s[pos]))
      ensures ch == -1 <==> ReadsEof(s, pos)
      ensures Sees(ch, '/') && Sees(ch, '=') && Sees(ch, '>') && Sees(ch, '"') && Sees(ch, '\'') && Sees(ch, '`')
    {
      while pos < |s|
        invariant Valid() && SkipWhite(s, old(pos)) == SkipWhite(s, pos)
      {
        var c := s[pos];
        if c == NUL || c == ' ' || c == '\t' || c == '\n' || c == '\U{0B}' || c == '\U{0C}' || c == '\r' {
          pos := pos + 1;
        } else {
          return Signed(c);
        }
      }
      return -1;
    }

    // ---- comments, doctype, cdata ------------------------------------------------------------------

    method StateBogusComment() returns (r: int)
      requires Valid()
      modifies this
      ensures Valid() && Did(r, BogusComment(s, old(Here())))
    {
      var i := Memchr(s, '>', pos);
      SetToken(TagComment, pos, i - pos);
      if i == |s| {
        pos, state := |s|, Eof;
      } else {
        pos, state := i + 1, Data;
      }
      return 1;
    }

    method StateBogusComment2() returns (r: int)
      requires Valid()
      modifies this
      ensures Valid() && Did(r, BogusComment2(s, old(Here())))
    {
      var p := pos;
      while true
        invariant Valid() && Here() == old(Here()) && pos <= p <= |s|
        invariant Find(s, "%>", pos, |s|) == Find(s, "%>", p, |s|)
        decreases |s| - p
      {
        var i := Memchr(s, '%', p);
        NoneBefore(s, "%>", p, i);
        if i == |s| || i + 1 >= |s| {
          SetToken(TagComment, pos, |s| - pos);
          pos, state := |s|, Eof;
          return 1;
        }
        PairAt(s, i, '%', '>');
        if s[i + 1] != '>' {
          p := i + 1;
          continue;
        }
        SetToken(TagComment, pos, i - pos);
        pos, state := i + 2, Data;
        return 1;
      }
    }

    method StateCdata() returns (r: int)
      requires Valid()
      modifies this
      ensures Valid() && Did(r, Cdata(s, old(Here())))
    {
      var p := pos;
      while true
        invariant Valid() && Here() == old(Here()) && pos <= p <= |s|
        invariant Find(s, "]]>", pos, |s|) == Find(s, "]]>", p, |s|)
        decreases |s| - p
      {
        var i := Memchr(s, ']', p);
        NoneBefore(s, "]]>", p, i);
        if i == |s| || i + 3 > |s| {
          state := Eof;
          SetToken(DataText, pos, |s| - pos);
          return 1;
        }
        BracketsAt(s, i);
        if s[i + 1] == ']' && s[i + 2] == '>' {
          state := Data;
          SetToken(DataText, pos, i - pos);
          pos := i + 3;
          return 1;
        } else {
          p := i + 1;
        }
      }
    }

    /** The loop hops from dash to dash and gives up as soon as too little is left behind one. */
    method StateComment() returns (r: int)
      requires Valid()
      modifies this
      ensures Valid() && Did(r, Comment(s, old(Here())))
    {
      hide CommentEnd, CommentEndsAt;
      var i, k := SeekCommentEnd();
      if i == |s| {
        state := Eof;
        SetToken(TagComment, pos, |s| - pos);
        return 1;
      }
      SetToken(TagComment, pos, i - pos);
      pos := k + 2;
      state := Data;
      return 1;
    }

    method SkipNulRun(from: nat) returns (k: nat)
      requires from <= |s|
      ensures k == SkipNuls(s, from)
    {
      k := from;
      while k < |s| && s[k] == NUL
        invariant from <= k <= |s| && SkipNuls(s, from) == SkipNuls(s, k)
      {
        k := k + 1;
      }
    }

    method SeekCommentEnd() returns (i: nat, k: nat)
      requires Valid()
      ensures i == CommentEnd(s, pos) && (i < |s| ==> k == SkipNuls(s, i + 1) && k + 2 <= |s|)
    {
      hide CommentEnd, SkipNuls, IndexOf;
      var p := pos;
      while true
        invariant pos <= p <= |s| && CommentEnd(s, pos) == CommentEnd(s, p)
        decreases |s| - p
      {
        i := Memchr(s, '-', p);
        NoCommentBefore(s, p, i);
        if i == |s| || i + 3 > |s| {
          return |s|, 0;
        }
        k := SkipNulRun(i + 1);
        if k == |s| {
          NothingFollows(s, i);
          return |s|, 0;
        }
        NotHere(s, i);
        if s[k] != '-' && s[k] != '!' {
          p := i + 1;
          continue;
        }
        if k + 1 == |s| {
          NothingFollows(s, i);
          return |s|, 0;
        }
        if s[k + 1] != '>' {
          p := i + 1;
          continue;
        }
        return;
      }
    }

    method StateDoctype() returns (r: int)
      requires Valid()
      modifies this
      ensures Valid() && Did(r, DoctypeStep(s, old(Here())))
    {
      var i := Memchr(s, '>', pos);
      SetToken(Doctype, pos, i - pos);
      if i == |s| {
        state := Eof;
      } else {
        state := Data;
        pos := i + 1;
      }
      return 1;
    }

    method StateMarkupDeclarationOpen() returns (r: int)
      requires Valid()
      modifies this
      ensures Valid() && Did(r, MarkupDeclarationOpen(s, old(Here())))
    {
      hide DoctypeStep, Cdata, Comment, BogusComment, Upper;
      var remaining := |s| - pos;
      if remaining >= 7 && Upper(s[pos..pos + 7]) == "DOCTYPE" {
        r := StateDoctype();
      } else if remaining >= 7 && s[pos..pos + 7] == "[CDATA[" {
        pos := pos + 7;
        r := StateCdata();
      } else if remaining >= 2 && s[pos..pos + 2] == "--" {
        pos := pos + 2;
        r := StateComment();
      } else {
        r := StateBogusComment();
      }
    }

    // ---- tags ----------------------------------------------------------------------------------------

    method StateTagName() returns (r: int)
      requires Valid()
      modifies this
      ensures Valid() && Did(r, TagName(s, old(Here())))
    {
      var p := pos;
      while p < |s|
        invariant Valid() && Here() == old(Here()) && pos <= p <= |s|
        invariant Reach(s, pos, TAG_NAME_STOPS) == Reach(s, p, TAG_NAME_STOPS)
      {
        var ch := s[p];
        if ch == NUL {
          p := p + 1;
        } else if IsWhite(ch) {
          SetToken(TagNameOpen, pos, p - pos);
          pos, state := p + 1, BeforeAttributeName;
          return 1;
        } else if ch == '/' {
          SetToken(TagNameOpen, pos, p - pos);
          pos, state := p + 1, SelfClosing;
          return 1;
        } else if ch == '>' {
          if isClose {
            SetToken(TagClose, pos, p - pos);
            pos, isClose, state := p + 1, false, Data;
          } else {
            SetToken(TagNameOpen, pos, p - pos);
            pos, state := p, TagNameClose;
          }
          return 1;
        } else {
          p := p + 1;
        }
      }
      SetToken(TagNameOpen, pos, |s| - pos);
      state := Eof;
      return 1;
    }

    method StateTagNameClose() returns (r: int)
      requires Valid() && pos < |s|
      modifies this
      ensures Valid() && Did(r, CloseTagName(s, old(Here())))
    {
      isClose := false;
      SetToken(NameClose, pos, 1);
      pos := pos + 1;
      if pos < |s| {
        state := Data;
      } else {
        state := Eof;
      }
      return 1;
    }

    method StateData() returns (r: int)
      requires Valid()
      modifies this
      ensures Valid() && Did(r, DataStep(s, old(Here())))
      decreases |s| - pos, 1
    {
      hide TagOpenStep;
      var i := Memchr(s, '<', pos);
      SetToken(DataText, pos, i - pos);
      if i == |s| {
        state := Eof;
        if tokenLen == 0 {
          return 0;
        }
      } else {
        pos, state := i + 1, TagOpen;
        if tokenLen == 0 {
          r := StateTagOpen();
          return;
        }
      }
      return 1;
    }

    method StateTagOpen() returns (r: int)
      requires Valid()
      modifies this
      ensures Valid() && Did(r, TagOpenStep(s, old(Here())))
      decreases |s| - pos, 2
    {
      hide DataStep, MarkupDeclarationOpen, EndTagOpen, BogusComment, BogusComment2, TagName;
      if pos >= |s| {
        return 0;
      }
      var ch := s[pos];
      if ch == '!' {
        pos := pos + 1;
        r := StateMarkupDeclarationOpen();
      } else if ch == '/' {
        pos, isClose := pos + 1, true;
        r := StateEndTagOpen();
      } else if ch == '?' {
        pos := pos + 1;
        r := StateBogusComment();
      } else if ch == '%' {
        pos := pos + 1;
        r := StateBogusComment2();
      } else if IsLetter(ch) {
        r := StateTagName();
      } else if ch == NUL {
        r := StateTagName();
      } else {
        if pos == 0 {
          r := StateData();
          return;
        }
        SetToken(DataText, pos - 1, 1);
        state := Data;
        return 1;
      }
    }

    method StateEndTagOpen() returns (r: int)
      requires Valid()
      modifies this
      ensures Valid() && Did(r, EndTagOpen(s, old(Here())))
      decreases |s| - pos, 2
    {
      hide DataStep, BogusComment, TagName;
      if pos >= |s| {
        return 0;
      }
      var ch := s[pos];
      if ch == '>' {
        r := StateData();
      } else if IsLetter(ch) {
        r := StateTagName();
      } else {
        isClose := false;
        r := StateBogusComment();
      }
    }

    // ---- attributes --------------------------------------------------------------------------------------

    method StateAttributeName() returns (r: int)
      requires Valid() && pos < |s|
      modifies this
      ensures Valid() && Did(r, AttributeName(s, old(Here())))
    {
      var p := pos + 1;
      while p < |s|
        invariant Valid() && Here() == old(Here()) && pos + 1 <= p <= |s|
        invariant Reach(s, pos + 1, ATTRIBUTE_STOPS) == Reach(s, p, ATTRIBUTE_STOPS)
      {
        var ch := s[p];
        if IsWhite(ch) {
          SetToken(AttrName, pos, p - pos);
          pos, state := p + 1, AfterAttributeName;
          return 1;
        } else if ch == '/' {
          SetToken(AttrName, pos, p - pos);
          pos, state := p + 1, SelfClosing;
          return 1;
        } else if ch == '=' {
          SetToken(AttrName, pos, p - pos);
          pos, state := p + 1, BeforeAttributeValue;
          return 1;
        } else if ch == '>' {
          SetToken(AttrName, pos, p - pos);
          pos, state := p, TagNameClose;
          return 1;
        } else {
          p := p + 1;
        }
      }
      SetToken(AttrName, pos, |s| - pos);
      pos, state := |s|, Eof;
      return 1;
    }

    /** The tail call for a slash is a loop, as in the code. */
    method StateBeforeAttributeName() returns (r: int)
      requires Valid()
      modifies this
      ensures Valid() && Did(r, BeforeName(s, old(Here())))
      decreases |s| - pos, 1
    {
      hide SelfClosingStep, AttributeName, SkipWhite;
      while true
        invariant Valid() && pos >= old(pos) && BeforeName(s, Here()) == BeforeName(s, old(Here()))
        decreases |s| - pos
      {
        var ch := SkipWhiteSpace();
        if ch == -1 {
          return 0;
        } else if ch == '/' as int {
          pos := pos + 1;
          if pos < |s| && s[pos] != '>' {
            continue;
          }
          r := StateSelfClosingStartTag();
          return;
        } else if ch == '>' as int {
          state := Data;
          SetToken(NameClose, pos, 1);
          pos := pos + 1;
          return 1;
        } else {
          r := StateAttributeName();
          return;
        }
      }
    }

    method StateSelfClosingStartTag() returns (r: int)
      requires Valid() && pos > 0
      modifies this
      ensures Valid() && Did(r, SelfClosingStep(s, old(Here())))
      decreases |s| - pos, 2
    {
      hide BeforeName;
      if pos >= |s| {
        return 0;
      }
      if s[pos] == '>' {
        SetToken(NameSelfclose, pos - 1, 2);
        state := Data;
        pos := pos + 1;
        return 1;
      } else {
        r := StateBeforeAttributeName();
      }
    }

    method StateAfterAttributeName() returns (r: int)
      requires Valid()
      modifies this
      ensures Valid() && Did(r, AfterName(s, old(Here())))
    {
      hide SelfClosingStep, AttributeName, BeforeValue, SkipWhite;
      var ch := SkipWhiteSpace();
      if ch == -1 {
        return 0;
      } else if ch == '/' as int {
        pos := pos + 1;
        r := StateSelfClosingStartTag();
      } else if ch == '=' as int {
        pos := pos + 1;
        r := StateBeforeAttributeValue();
      } else if ch == '>' as int {
        r := StateTagNameClose();
      } else {
        r := StateAttributeName();
      }
    }

    method StateBeforeAttributeValue() returns (r: int)
      requires Valid()
      modifies this
      ensures Valid() && Did(r, BeforeValue(s, old(Here())))
    {
      hide SkipWhite, UnquotedValue, QuotedValue;
      var ch := SkipWhiteSpace();
      if ch == -1 {
        state := Eof;
        return 0;
      }
      if ch == '"' as int {
        r := StateAttributeValueQuote('"');
      } else if ch == '\'' as int {
        r := StateAttributeValueQuote('\'');
      } else if ch == '`' as int {
        r := StateAttributeValueQuote('`');
      } else {
        r := StateAttributeValueNoQuote();
      }
    }

    method StateAttributeValueQuote(quote: char) returns (r: int)
      requires Valid() && (pos > 0 ==> pos < |s|)
      modifies this
      ensures Valid() && Did(r, QuotedValue(s, old(Here()), quote))
    {
      if pos > 0 {
        pos := pos + 1;
      }
      var i := Memchr(s, quote, pos);
      SetToken(AttrValue, pos, i - pos);
      if i == |s| {
        state := Eof;
      } else {
        state := AfterQuoted;
        pos := pos + tokenLen + 1;
      }
      return 1;
    }

    method StateAttributeValueNoQuote() returns (r: int)
      requires Valid()
      modifies this
      ensures Valid() && Did(r, UnquotedValue(s, old(Here())))
    {
      var p := pos;
      while p < |s|
        invariant Valid() && Here() == old(Here()) && pos <= p <= |s|
        invariant Reach(s, pos, VALUE_STOPS) == Reach(s, p, VALUE_STOPS)
      {
        var ch := s[p];
        if IsWhite(ch) {
          SetToken(AttrValue, pos, p - pos);
          pos, state := p + 1, BeforeAttributeName;
          return 1;
        } else if ch == '>' {
          SetToken(AttrValue, pos, p - pos);
          pos, state := p, TagNameClose;
          return 1;
        }
        p := p + 1;
      }
      state := Eof;
      SetToken(AttrValue, pos, |s| - pos);
      return 1;
    }

    method StateAfterAttributeValueQuoted() returns (r: int)
      requires Valid()
      modifies this
      ensures Valid() && Did(r, AfterQuotedStep(s, old(Here())))
    {
      hide BeforeName, SelfClosingStep;
      if pos >= |s| {
        return 0;
      }
      var ch := s[pos];
      if IsWhite(ch) {
        pos := pos + 1;
        r := StateBeforeAttributeName();
      } else if ch == '/' {
        pos := pos + 1;
        r := StateSelfClosingStartTag();
      } else if ch == '>' {
        SetToken(NameClose, pos, 1);
        pos := pos + 1;
        state := Data;
        return 1;
      } else {
        r := StateBeforeAttributeName();
      }
    }

    /** `libinjection_h5_next`: never an error, and the next call finds a sound cursor again. */
    method NextToken() returns (r: int)
      requires Valid() && Sound(s, Here())
      modifies this
      ensures Valid() && Did(r, Next(s, old(Here()))) && Sound(s, Here())
    {
      NextGood(s, Here());
      hide DataStep, TagOpenStep, SelfClosingStep, BeforeName, AfterName, BeforeValue, AfterQuotedStep, CloseTagName;
      hide QuotedValue;
      match state
      case Eof => r := 0;
      case Data => r := StateData();
      case TagOpen => r := StateTagOpen();
      case TagNameClose => r := StateTagNameClose();
      case SelfClosing => r := StateSelfClosingStartTag();
      case BeforeAttributeName => r := StateBeforeAttributeName();
      case AfterAttributeName => r := StateAfterAttributeName();
      case BeforeAttributeValue => r := StateBeforeAttributeValue();
      case DoubleQuoted => r := StateAttributeValueQuote('"');
      case SingleQuoted => r := StateAttributeValueQuote('\'');
      case BackQuoted => r := StateAttributeValueQuote('`');
      case AfterQuoted => r := StateAfterAttributeValueQuoted();
    }
  }

  /** The first byte of a needle found by memchr is as early as the needle can start. */
  lemma {:induction false} NoneBefore(s: string, needle: string, p: nat, i: nat)
    requires p <= i <= |s| && 1 < |needle| && i == IndexOf(s, needle[0], p)
    ensures Find(s, needle, p, |s|) == Find(s, needle, i, |s|)
    ensures i + |needle| > |s| ==> Find(s, needle, p, |s|) == |s|
    decreases |s| - p
  {
    if p < i {
      NoneBefore(s, needle, p + 1, i);
      if p + |needle| <= |s| {
        assert s[p..p + |needle|][0] == s[p];
      }
    }
  }

  lemma BracketsAt(s: string, i: nat)
    requires i + 3 <= |s| && s[i] == ']'
    ensures OccursAt(s, "]]>", i) <==> s[i + 1] == ']' && s[i + 2] == '>'
  {
    assert s[i..i + 3] == [s[i], s[i + 1], s[i + 2]];
  }

  lemma NotHere(s: string, i: nat)
    requires i < |s|
    ensures CommentEnd(s, i) == if CommentEndsAt(s, i) then i else CommentEnd(s, i + 1)
  {
  }

  /** No comment ends before the first dash. */
  lemma {:induction false} NoCommentBefore(s: string, p: nat, i: nat)
    requires p <= i <= |s| && i == IndexOf(s, '-', p)
    ensures CommentEnd(s, p) == CommentEnd(s, i)
    ensures i + 3 > |s| ==> CommentEnd(s, p) == |s|
    decreases |s| - p
  {
    if p < i {
      NoCommentBefore(s, p + 1, i);
    } else {
      TooLate(s, i);
    }
  }

  /** Nor within the last two bytes. */
  lemma {:induction false} TooLate(s: string, i: nat)
    requires i <= |s|
    ensures i + 3 > |s| ==> CommentEnd(s, i) == |s|
    decreases |s| - i
  {
    if i < |s| {
      TooLate(s, i + 1);
    }
  }

  /** When only NULs, or NULs and one byte, follow a dash, no comment ends from there on. */
  lemma {:induction false} NothingFollows(s: string, i: nat)
    requires i < |s| && SkipNuls(s, i + 1) + 1 >= |s|
    ensures CommentEnd(s, i) == |s|
  {
    var k := SkipNuls(s, i + 1);
    NoDash(s, i + 1, k);
    TooLate(s, k);
  }

  lemma {:induction false} NoDash(s: string, i: nat, k: nat)
    requires i <= k <= |s| && forall j :: i <= j < k ==> s[j] == NUL
    ensures CommentEnd(s, i) == CommentEnd(s, k)
    decreases k - i
  {
    if i < k {
      NoDash(s, i + 1, k);
    }
  }

  lemma PairAt(s: string, i: nat, a: char, b: char)
    requires i + 2 <= |s| && s[i] == a
    ensures OccursAt(s, [a, b], i) <==> s[i + 1] == b
  {
    assert s[i..i + 2] == [s[i], s[i + 1]];
  }
}
