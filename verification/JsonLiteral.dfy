/** Reading a string literal into memory: measure, allocate, decode. */
module JsonLiteral {
  import opened Text
  import opened JsonText
  import opened JsonNode

  /** `parse_hex4` */
  method ParseHex4(s: string, at: nat) returns (h: nat)
    requires at + 4 <= |s|
    ensures h == Hex4(s[at..at + 4])
  {
    var t := s[at..at + 4];
    h := 0;
    var i := 0;
    while i < 4
      invariant 0 <= i <= 4
      invariant forall k :: 0 <= k < i ==> HexDigit(t[k]).Some?
      invariant i == 0 ==> h == 0
      invariant i == 1 ==> h == HexDigit(t[0]).value * 0x10
      invariant i == 2 ==> h == HexDigit(t[0]).value * 0x100 + HexDigit(t[1]).value * 0x10
      invariant i == 3 ==> h == HexDigit(t[0]).value * 0x1000 + HexDigit(t[1]).value * 0x100 + HexDigit(t[2]).value * 0x10
      invariant i == 4 ==> h == Hex4(t)
    {
      var d := HexDigit(s[at + i]);
      assert t[i] == s[at + i];
      if d.None? {
        return 0;
      }
      h := h + d.value;
      if i < 3 {
        h := h * 0x10;
      }
      i := i + 1;
    }
  }

  /** The encoding half of `utf16_literal_to_utf8`: continuation bytes from the last to the second,
      then the first byte with its mark. */
  method WriteUtf8(cp: nat, out: array<char>, w: nat) returns (n: nat)
    requires cp <= 0x10FFFF && w + |Utf8(cp)| <= out.Length
    modifies out
    ensures n == |Utf8(cp)| && out[..w + n] == old(out[..w]) + Utf8(cp)
  {
    hide Utf8;
    Utf8Length(cp);
    var mark := 0;
    if cp < 0x80 {
      n := 1;
    } else if cp < 0x800 {
      n, mark := 2, 0xC0;
    } else if cp < 0x10000 {
      n, mark := 3, 0xE0;
    } else {
      n, mark := 4, 0xF0;
    }
    var rest, position := cp, n - 1;
    while position > 0
      invariant 0 <= position < n
      invariant rest == Shifted(cp, n - 1 - position)
      invariant forall k :: position < k < n ==> out[w + k] == Utf8(cp)[k]
      invariant out[..w] == old(out[..w])
    {
      ContinuationByte(cp, n - 1 - position);
      out[w + position] := (0x80 + rest % 0x40) as char;
      rest := rest / 0x40;
      position := position - 1;
    }
    FirstByte(cp);
    out[w] := (mark + rest) as char;
    assert |out[w..w + n]| == |Utf8(cp)| && forall k :: 0 <= k < n ==> out[w..w + n][k] == Utf8(cp)[k];
    assert out[..w + n] == out[..w] + out[w..w + n];
  }

  lemma Utf8Length(cp: nat)
    requires cp <= 0x10FFFF
    ensures |Utf8(cp)| == if cp < 0x80 then 1 else if cp < 0x800 then 2 else if cp < 0x10000 then 3 else 4
  {
  }

  /** `cp >> (6 * k)` */
  function Shifted(cp: nat, k: nat): nat {
    if k == 0 then cp else Shifted(cp, k - 1) / 0x40
  }

  lemma ContinuationByte(cp: nat, k: nat)
    requires cp <= 0x10FFFF && k + 1 < |Utf8(cp)|
    ensures Utf8(cp)[|Utf8(cp)| - 1 - k] == (0x80 + Shifted(cp, k) % 0x40) as char
  {
    assert Shifted(cp, 1) == cp / 0x40;
    assert Shifted(cp, 2) == cp / 0x40 / 0x40 == cp / 0x1000;
  }

  lemma FirstByte(cp: nat)
    requires cp <= 0x10FFFF
    ensures var n := |Utf8(cp)|;
      var mark := if n == 1 then 0 else if n == 2 then 0xC0 else if n == 3 then 0xE0 else 0xF0;
      mark + Shifted(cp, n - 1) < 256 && Utf8(cp)[0] == (mark + Shifted(cp, n - 1)) as char
  {
    assert Shifted(cp, 1) == cp / 0x40;
    assert Shifted(cp, 2) == cp / 0x40 / 0x40 == cp / 0x1000;
    assert Shifted(cp, 3) == cp / 0x1000 / 0x40 == cp / 0x40000;
  }

  /** `utf16_literal_to_utf8` */
  method Utf16LiteralToUtf8(s: string, i: nat, end: nat, out: array<char>, w: nat) returns (length: nat, w': nat)
    requires i <= end < |s|
    requires Utf16Literal(s, i, end).Some? ==> w + |Utf8(Utf16Literal(s, i, end).value.0)| <= out.Length
    modifies out
    ensures length == 0 <==> Utf16Literal(s, i, end).None?
    ensures length > 0 ==>
      var u := Utf16Literal(s, i, end).value;
      length == u.1 && w' == w + |Utf8(u.0)| && w' <= out.Length && out[..w'] == old(out[..w]) + Utf8(u.0)
  {
    hide Utf8, Hex4;
    length, w' := 0, w;
    if end - i < 6 {
      return;
    }
    var first := ParseHex4(s, i + 2);
    if 0xDC00 <= first <= 0xDFFF {
      return;
    }
    var codepoint := first;
    var sequence := 6;
    if 0xD800 <= first <= 0xDBFF {
      if end - (i + 6) < 6 || s[i + 6] != '\\' || s[i + 7] != 'u' {
        return;
      }
      var second := ParseHex4(s, i + 8);
      if second < 0xDC00 || second > 0xDFFF {
        return;
      }
      codepoint := 0x10000 + (first - 0xD800) * 0x400 + (second - 0xDC00);
      sequence := 12;
    }
    var n := WriteUtf8(codepoint, out, w);
    length, w' := sequence, w + n;
  }

  // ---- parse_string ---------------------------------------------------------------------------------

  /** The first pass: where the literal ends, and how many bytes its escapes save. Fails (at the end
      of the buffer) when it does not end. */
  method Measure(s: string, o: nat) returns (inputEnd: nat, skipped: nat)
    requires o <= |s|
    ensures o <= inputEnd <= |s|
    ensures inputEnd == |s| <==> CloseQuote(s, o).None?
    ensures inputEnd < |s| ==>
      CloseQuote(s, o) == Some(inputEnd) && skipped <= inputEnd - o && Units(s, o, inputEnd) == inputEnd - o - skipped
  {
    inputEnd, skipped := o, 0;
    while inputEnd < |s| && s[inputEnd] != '"'
      invariant o <= inputEnd <= |s| && skipped <= inputEnd - o
      invariant CloseQuote(s, o) == CloseQuote(s, inputEnd)
      invariant forall e :: inputEnd <= e <= |s| ==> Units(s, o, e) == inputEnd - o - skipped + Units(s, inputEnd, e)
    {
      if s[inputEnd] == '\\' {
        if inputEnd + 1 >= |s| {
          inputEnd := |s|;
          return;
        }
        skipped := skipped + 1;
        inputEnd := inputEnd + 1;
      }
      inputEnd := inputEnd + 1;
    }
  }

  /** The second pass. Every write lands inside the buffer, whatever the literal holds. */
  method DecodeInto(s: string, start: nat, end: nat, out: array<char>) returns (ok: bool, w: nat)
    requires start <= end < |s| && CloseQuote(s, start) == Some(end)
    requires out.Length == Units(s, start, end) + 2
    modifies out
    ensures ok <==> Decode(s, start, end).Some?
    ensures w < out.Length
    ensures ok ==> out[..w] == Decode(s, start, end).value
  {
    hide CloseQuote, Units, Utf16Literal, Utf8, Budget, Decode;
    var i := start;
    ghost var mid := false;
    w := 0;
    ok := true;
    assert out[..w] == "";
    assert InStep(s, i, end, mid) && Budget(s, i, end, mid) <= Units(s, start, end) by { StartBudget(s, start, end); }
    PrependNothing(Decode(s, start, end));
    while i < end
      invariant start <= i <= |s|
      invariant InStep(s, i, end, mid)
      invariant w + Budget(s, i, end, mid) <= Units(s, start, end)
      invariant Decode(s, start, end) == Prepend(out[..w], Decode(s, i, end))
      decreases |s| - i
    {
      DecodeAt(s, i, end);
      ghost var done := out[..w];
      if s[i] != '\\' {
        PlainStep(s, i, end, mid);
        out[w] := s[i];
        assert out[..w + 1] == done + [s[i]];
        PrependTwice(done, [s[i]], Decode(s, i + 1, end));
        i, w, mid := i + 1, w + 1, false;
      } else if s[i + 1] == 'u' {
        ghost var u := Utf16Literal(s, i, end);
        if u.Some? {
          ghost var mid' := UnicodeStep(s, i, end, mid);
          mid := mid';
        }
        var length, w' := Utf16LiteralToUtf8(s, i, end, out, w);
        if length == 0 {
          return false, w;
        }
        PrependTwice(done, Utf8(u.value.0), Decode(s, i + length, end));
        i, w := i + length, w';
      } else {
        var c := SimpleEscape(s[i + 1]);
        if c.None? {
          return false, w;
        }
        ghost var mid' := EscapeStep(s, i, end, mid);
        out[w] := c.value;
        assert out[..w + 1] == done + [c.value];
        PrependTwice(done, [c.value], Decode(s, i + 2, end));
        i, w, mid := i + 2, w + 1, mid';
      }
    }
    DecodeAt(s, i, end);
    assert out[..w] + "" == out[..w];
  }

  lemma StartBudget(s: string, start: nat, end: nat)
    requires start <= end < |s| && CloseQuote(s, start) == Some(end)
    ensures InStep(s, start, end, false) && Budget(s, start, end, false) <= Units(s, start, end)
  {
  }

  /** One unfolding of the decoder. */
  lemma DecodeAt(s: string, i: nat, end: nat)
    requires end < |s| && i <= |s|
    ensures i >= end ==> Decode(s, i, end) == Some("")
    ensures i < end && s[i] != '\\' ==> Decode(s, i, end) == Prepend([s[i]], Decode(s, i + 1, end))
    ensures i < end && s[i] == '\\' && s[i + 1] == 'u' ==>
      var u := Utf16Literal(s, i, end);
      Decode(s, i, end) == if u.None? then None else Prepend(Utf8(u.value.0), Decode(s, i + u.value.1, end))
    ensures i < end && s[i] == '\\' && s[i + 1] != 'u' ==>
      var c := SimpleEscape(s[i + 1]);
      Decode(s, i, end) == if c.None? then None else Prepend([c.value], Decode(s, i + 2, end))
  {
  }

  lemma PrependNothing(r: Option<string>)
    ensures Prepend("", r) == r
  {
    if r.Some? {
      assert "" + r.value == r.value;
    }
  }

  lemma PrependTwice(a: string, b: string, r: Option<string>)
    ensures Prepend(a, Prepend(b, r)) == Prepend(a + b, r)
  {
    if r.Some? {
      assert a + (b + r.value) == a + b + r.value;
    }
  }

  /** `parse_string`, up to storing the result: a fresh buffer holding the decoded bytes and their
      terminator, or nothing allocated. It fails only on a bad literal or when allocation does. */
  method ReadString(s: string, o: nat, alloc: Allocator) returns (out: array?<char>, next: nat)
    requires o < |s| && alloc.Valid()
    modifies alloc
    ensures alloc.Valid()
    ensures out == null ==>
      alloc.live == old(alloc.live) && (alloc.failures > old(alloc.failures) || ReadLiteral(s, o).None?)
    ensures out != null ==>
      && fresh(out) && alloc.live == old(alloc.live) + {out} && alloc.failures == old(alloc.failures)
      && ReadLiteral(s, o).Some? && next == ReadLiteral(s, o).value.1
      && NUL in out[..] && CStr(out) == CString(ReadLiteral(s, o).value.0)
  {
    hide CloseQuote, Decode, Units;
    next := o;
    if s[o] != '"' {
      return null, next;
    }
    var inputEnd, skipped := Measure(s, o + 1);
    if inputEnd == |s| {
      return null, next;
    }
    out := alloc.NewBytes(inputEnd - o - skipped + 1);
    if out == null {
      return;
    }
    var ok, w := DecodeInto(s, o + 1, inputEnd, out);
    if !ok {
      alloc.Free(out);
      return null, next;
    }
    out[w] := NUL;
    Terminated(out[..], w);
    next := inputEnd + 1;
  }

  /** A C string ends at its first NUL, whatever lies behind. */
  lemma Terminated(a: string, w: nat)
    requires w < |a| && a[w] == NUL
    ensures CString(a) == CString(a[..w])
  {
    var i, j := IndexOf(a, NUL, 0), IndexOf(a[..w], NUL, 0);
    assert a[..w][..j] == a[..j];
    assert i < w ==> a[..w][i] == NUL;
    assert j < w ==> a[j] == a[..w][j];
  }
}
