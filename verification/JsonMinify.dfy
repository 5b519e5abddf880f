/** The in-place minifier against an eraser on the original text, and what it makes of printed text. */
module JsonMinify {
  import opened Text
  import opened JsonNode

  // ---- the eraser ------------------------------------------------------------------------------

  predicate IsBlank(c: char) {
    c == ' ' || c == '\t' || c == '\r' || c == '\n'
  }

  /** Behind a one-line comment: past the next newline, or the end. */
  function LineEnd(t: string): (n: nat)
    ensures n <= |t|
  {
    if t == "" then 0 else if t[0] == '\n' then 1 else 1 + LineEnd(t[1..])
  }

  /** Behind a block comment: past the next star and slash, or the end. */
  function BlockEnd(t: string): (n: nat)
    ensures n <= |t|
  {
    if t == "" then 0 else if t[0] == '*' && At(t, 1) == '/' then 2 else 1 + BlockEnd(t[1..])
  }

  /** What a slash outside a string removes: a comment, or just itself. */
  function SlashLength(t: string): (n: nat)
    requires t != ""
    ensures 1 <= n <= |t|
  {
    if At(t, 1) == '/' then 2 + LineEnd(t[2..])
    else if At(t, 1) == '*' then 2 + BlockEnd(t[2..])
    else 1
  }

  /** The rest of a string: up to the first quote that has no backslash right before it, or the end.
      (A backslash that itself is escaped counts.) */
  function StringRest(t: string): (n: nat)
    ensures n <= |t|
    ensures n < |t| ==> n > 0 && t[n - 1] == '"'
  {
    if t == "" then 0
    else if t[0] == '"' then 1
    else if t[0] == '\\' && At(t, 1) == '"' then 2 + StringRest(t[2..])
    else 1 + StringRest(t[1..])
  }

  /** The text without comments and blanks outside strings. */
  function Erased(s: string): (r: string)
    ensures |r| <= |s|
  {
    if s == "" then ""
    else if IsBlank(s[0]) then Erased(s[1..])
    else if s[0] == '/' then Erased(s[SlashLength(s)..])
    else if s[0] == '"' then
      var n := 1 + StringRest(s[1..]);
      s[..n] + Erased(s[n..])
    else [s[0]] + Erased(s[1..])
  }

  // ---- the minifier ------------------------------------------------------------------------------

  /** What the buffer held at the start: the text, a terminator, anything. */
  ghost predicate Original(was: string, text: string) {
    |text| < |was| && was[..|text|] == text && was[|text|] == NUL && NUL !in text
  }

  /** The buffer with the first bytes overwritten. */
  ghost predicate Written(json: array<char>, was: string, done: string)
    reads json
  {
    |was| == json.Length && |done| <= |was| && json[..] == done + was[|done|..]
  }

  /** From `i` on the buffer still holds the original text and its terminator. */
  ghost predicate Ahead(json: array<char>, text: string, i: nat)
    reads json
  {
    && i <= |text| < json.Length && NUL !in text && json[|text|] == NUL
    && forall k :: i <= k < |text| ==> json[k] == text[k]
  }

  lemma StillAhead(json: array<char>, was: string, done: string, text: string, i: nat)
    requires Original(was, text) && Written(json, was, done) && |done| <= i <= |text|
    ensures Ahead(json, text, i) && |text| < json.Length
    ensures json[i] == At(text, i) && (i < |text| ==> json[i + 1] == At(text, i + 1))
    ensures (json[i] == NUL <==> i == |text|)
  {
    forall k | i <= k <= |text| ensures json[k] == was[k] {
      assert json[..][k] == was[|done|..][k - |done|];
    }
    assert forall k :: 0 <= k < |text| ==> was[..|text|][k] == was[k];
  }

  method PutByte(json: array<char>, into: nat, c: char, ghost was: string, ghost done: string)
    requires Written(json, was, done) && into == |done| < json.Length
    modifies json
    ensures Written(json, was, done + [c])
  {
    ghost var all := json[..];
    json[into] := c;
    assert json[..] == all[into := c];
    assert was[into..][1..] == was[into + 1..];
  }

  /** `skip_oneline_comment` */
  method SkipOneLineComment(json: array<char>, i: nat, ghost text: string) returns (j: nat)
    requires Ahead(json, text, i) && i + 2 <= |text|
    ensures j == i + 2 + LineEnd(text[i + 2..])
  {
    j := i + 2;
    while json[j] != NUL
      invariant i + 2 <= j <= |text| && j + LineEnd(text[j..]) == i + 2 + LineEnd(text[i + 2..])
      decreases |text| - j
    {
      assert text[j..][1..] == text[j + 1..];
      if json[j] == '\n' {
        return j + 1;
      }
      j := j + 1;
    }
  }

  /** `skip_multiline_comment` */
  method SkipMultiLineComment(json: array<char>, i: nat, ghost text: string) returns (j: nat)
    requires Ahead(json, text, i) && i + 2 <= |text|
    ensures j == i + 2 + BlockEnd(text[i + 2..])
  {
    j := i + 2;
    while json[j] != NUL
      invariant i + 2 <= j <= |text| && j + BlockEnd(text[j..]) == i + 2 + BlockEnd(text[i + 2..])
      decreases |text| - j
    {
      assert text[j..][1..] == text[j + 1..];
      if json[j] == '*' && json[j + 1] == '/' {
        return j + 2;
      }
      j := j + 1;
    }
  }

  /** Copies the byte under the reading cursor behind those copied since `from`. */
  method CopyByte(json: array<char>, i: nat, into: nat, ghost text: string, ghost was: string, ghost done: string,
                  ghost from: nat)
    requires Original(was, text) && from <= i < |text| && into == |done| + i - from && into <= i
    requires Written(json, was, done + text[from..i])
    modifies json
    ensures Written(json, was, done + text[from..i + 1])
  {
    hide Written;
    StillAhead(json, was, done + text[from..i], text, i);
    PutByte(json, into, json[i], was, done + text[from..i]);
    assert done + text[from..i + 1] == done + text[from..i] + [text[i]];
  }

  /** `minify_string` */
  method MinifyString(json: array<char>, i: nat, into: nat, ghost text: string, ghost was: string, ghost done: string)
    returns (i': nat, into': nat)
    requires Original(was, text) && Written(json, was, done) && into == |done| <= i < |text| && text[i] == '"'
    modifies json
    ensures i' == i + 1 + StringRest(text[i + 1..]) && into' - into == i' - i
    ensures Written(json, was, done + text[i..i'])
  {
    hide Written, StringRest, Original, Ahead;
    assert done + text[i..i] == done;
    CopyByte(json, i, into, text, was, done, i);
    i', into' := i + 1, into + 1;
    while true
      invariant i < i' <= |text| && into' - into == i' - i
      invariant i' + StringRest(text[i'..]) == i + 1 + StringRest(text[i + 1..])
      invariant Written(json, was, done + text[i..i'])
      decreases |text| - i'
    {
      StillAhead(json, was, done + text[i..i'], text, i');
      if json[i'] == NUL {
        StringDone();
        assert text[i'..] == "";
        return;
      }
      StringStep(text, i');
      var quote, escaped := json[i'] == '"', json[i'] == '\\' && json[i' + 1] == '"';
      CopyByte(json, i', into', text, was, done, i);
      i', into' := i' + 1, into' + 1;
      if quote {
        return;
      }
      if escaped {
        CopyByte(json, i', into', text, was, done, i);
        i', into' := i' + 1, into' + 1;
      }
    }
  }

  lemma StringDone()
    ensures StringRest("") == 0
  {
  }

  lemma StringStep(text: string, i: nat)
    requires i < |text|
    ensures var n := StringRest(text[i..]);
      if text[i] == '"' then n == 1
      else if text[i] == '\\' && At(text, i + 1) == '"' then n == 2 + StringRest(text[i + 2..])
      else n == 1 + StringRest(text[i + 1..])
  {
    assert text[i..][1..] == text[i + 1..];
    if i + 2 <= |text| {
      assert text[i..][2..] == text[i + 2..];
    }
  }

  /** One turn of the loop of `cJSON_Minify`. */
  method MinifyStep(json: array<char>, i: nat, into: nat, ghost text: string, ghost was: string, ghost done: string)
    returns (i': nat, into': nat, ghost done': string)
    requires Original(was, text) && Written(json, was, done) && into == |done| <= i < |text| && NUL !in done
    modifies json
    ensures i < i' <= |text| && into' == |done'| <= i' && NUL !in done' && Written(json, was, done')
    ensures done' + Erased(text[i'..]) == done + Erased(text[i..])
  {
    hide Erased, Written, StringRest, LineEnd, BlockEnd, Original, Ahead;
    StillAhead(json, was, done, text, i);
    ErasedStep(text, i);
    i', into', done' := i + 1, into, done;
    if IsBlank(json[i]) {
    } else if json[i] == '/' {
      i' := SkipSlash(json, i, text);
    } else if json[i] == '"' {
      i', into' := MinifyString(json, i, into, text, was, done);
      done' := done + text[i..i'];
      assert done' + Erased(text[i'..]) == done + (text[i..i'] + Erased(text[i'..]));
    } else {
      PutByte(json, into, json[i], was, done);
      done' := done + [text[i]];
      into' := into + 1;
      assert done' + Erased(text[i'..]) == done + ([text[i]] + Erased(text[i'..]));
    }
  }

  /** `cJSON_Minify` on a buffer that holds a C string. Every byte behind the new terminator is as it
      was: nothing is written ahead of the reading cursor. */
  method Minify(json: array<char>)
    requires NUL in json[..]
    modifies json
    ensures var m := Erased(old(CStr(json)));
      NUL !in m && |m| < json.Length && json[..] == m + [NUL] + old(json[..])[|m| + 1..]
  {
    hide Erased, Written, Original, Ahead, CStr;
    ghost var was, text := json[..], CStr(json);
    ghost var done := "";
    var i, into := 0, 0;
    assert text[0..] == text;
    Untouched(json);
    while true
      invariant i <= |text| && into == |done| <= i && NUL !in done && Written(json, was, done)
      invariant done + Erased(text[i..]) == Erased(text)
      decreases |text| - i
    {
      StillAhead(json, was, done, text, i);
      if json[i] == NUL {
        break;
      }
      i, into, done := MinifyStep(json, i, into, text, was, done);
    }
    assert text[i..] == "";
    ErasedNothing();
    assert done + "" == done;
    PutByte(json, into, NUL, was, done);
    WrittenAll(json, was, done + [NUL]);
  }

  /** A comment, or a slash by itself. */
  method SkipSlash(json: array<char>, i: nat, ghost text: string) returns (j: nat)
    requires Ahead(json, text, i) && i < |text| && text[i] == '/'
    ensures j == if At(text, i + 1) == '/' then i + 2 + LineEnd(text[i + 2..])
      else if At(text, i + 1) == '*' then i + 2 + BlockEnd(text[i + 2..])
      else i + 1
  {
    if json[i + 1] == '/' {
      j := SkipOneLineComment(json, i, text);
    } else if json[i + 1] == '*' {
      j := SkipMultiLineComment(json, i, text);
    } else {
      j := i + 1;
    }
  }

  lemma Untouched(json: array<char>)
    requires NUL in json[..]
    ensures Original(json[..], CStr(json)) && Written(json, json[..], "") && |CStr(json)| < json.Length
  {
  }

  lemma WrittenAll(json: array<char>, was: string, done: string)
    requires Written(json, was, done)
    ensures |done| <= json.Length == |was| && json[..] == done + was[|done|..]
  {
  }

  lemma ErasedNothing()
    ensures Erased("") == ""
  {
  }

  lemma ErasedStep(text: string, i: nat)
    requires i < |text|
    ensures var rest := Erased(text[i..]);
      if IsBlank(text[i]) then rest == Erased(text[i + 1..])
      else if text[i] == '/' then
        rest == Erased(text[if At(text, i + 1) == '/' then i + 2 + LineEnd(text[i + 2..])
                            else if At(text, i + 1) == '*' then i + 2 + BlockEnd(text[i + 2..])
                            else i + 1..])
      else if text[i] == '"' then
        var j := i + 1 + StringRest(text[i + 1..]);
        rest == text[i..j] + Erased(text[j..])
      else rest == [text[i]] + Erased(text[i + 1..])
  {
    hide StringRest, LineEnd, BlockEnd, SlashLength;
    var s := text[i..];
    assert s[1..] == text[i + 1..];
    if text[i] == '/' {
      SlashAt(text, i);
      assert s[SlashLength(s)..] == text[i + SlashLength(s)..];
    } else if text[i] == '"' {
      var n := 1 + StringRest(s[1..]);
      assert s[..n] == text[i..i + n] && s[n..] == text[i + n..];
    }
  }

  lemma SlashAt(text: string, i: nat)
    requires i < |text|
    ensures i + SlashLength(text[i..]) ==
      if At(text, i + 1) == '/' then i + 2 + LineEnd(text[i + 2..])
      else if At(text, i + 1) == '*' then i + 2 + BlockEnd(text[i + 2..])
      else i + 1
  {
    hide LineEnd, BlockEnd;
    var s := text[i..];
    if i + 2 <= |text| {
      assert s[2..] == text[i + 2..] && s[1] == text[i + 1];
    }
  }
}
