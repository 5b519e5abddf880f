/** The printer: a cursor over a buffer that grows or, for preallocated output, must not. */
module JsonPrinter {
  import opened Text
  import opened JsonText
  import opened JsonValue
  import opened JsonNode
  import opened JsonList

  const INT_MAX: nat := 0x7FFF_FFFF

  /** `printbuffer`. `base` is what the allocator has handed out besides the buffer, `doc` the memory
      of the document being printed, and `home`, `room` and `tail` the preallocated buffer, how much of
      it may be used, and what lies behind that. */
  class Printer {
    var buffer: array?<char>
    var length: nat
    var offset: nat
    var depth: nat
    const noalloc: bool
    const format: bool
    const alloc: Allocator
    ghost const base: set<object>
    ghost const doc: set<object>
    ghost const home: array<char>
    ghost const room: nat
    ghost const tail: string

    constructor (buffer: array<char>, length: nat, noalloc: bool, format: bool, alloc: Allocator, ghost doc: set<object>)
      requires alloc.Valid() && length <= buffer.Length && length <= INT_MAX
      requires if noalloc then buffer !in alloc.live else buffer in alloc.live && length > 0
      requires alloc !in doc && buffer !in doc
      ensures Valid() && this.buffer == buffer && this.length == length && offset == 0 && depth == 0
      ensures this.noalloc == noalloc && this.format == format && this.alloc == alloc && this.doc == doc
      ensures base == alloc.live - {buffer} && home == buffer && room == length && tail == buffer[length..]
    {
      this.buffer, this.length, this.noalloc, this.format, this.alloc := buffer, length, noalloc, format, alloc;
      offset, depth := 0, 0;
      base, this.doc, home, room, tail := alloc.live - {buffer}, doc, buffer, length, buffer[length..];
    }

    ghost predicate Valid()
      reads this, alloc, buffer
    {
      && alloc.Valid() && this !in alloc.live && this !in doc && alloc !in doc
      && (buffer == null ==> !noalloc && alloc.live == base)
      && (buffer != null ==>
            && buffer !in doc && buffer !in base && length <= buffer.Length && length <= INT_MAX
            && (offset < length || (noalloc && offset == 0))
            && (!noalloc ==> alloc.live == base + {buffer})
            && (noalloc ==> alloc.live == base && buffer == home && length == room && buffer[length..] == tail))
    }

    /** How far the text may reach: the buffer that was given, or what an int can count. */
    ghost function Limit(): nat {
      if noalloc then room else INT_MAX
    }

    /** `ensure`: room for `needed` bytes and a terminator, unless that is more than the limit or an
        allocation fails. */
    method Ensure(needed: nat) returns (ok: bool)
      requires Valid() && buffer != null
      modifies this`buffer, this`length, alloc
      ensures Valid()
      ensures ok ==>
        && buffer != null && (buffer == old(buffer) || fresh(buffer)) && offset + needed + 1 <= length
        && buffer[..offset] == old(buffer[..offset]) && offset + needed + 1 <= Limit()
        && alloc.failures == old(alloc.failures)
      ensures !ok ==> (!noalloc && alloc.failures > old(alloc.failures)) || offset + needed + 1 > Limit()
    {
      if length > 0 && offset >= length {
        return false;
      }
      if needed > INT_MAX {
        return false;
      }
      var total := needed + offset + 1;
      if total <= length {
        return true;
      }
      if noalloc {
        return false;
      }
      var size := total * 2;
      if total > INT_MAX / 2 {
        if total > INT_MAX {
          return false;
        }
        size := INT_MAX;
      }
      ok := Grow(size);
    }

    /** Moves the text to a new buffer, or frees the old one when there is none. */
    method Grow(size: nat) returns (ok: bool)
      requires Valid() && buffer != null && !noalloc && length < size <= INT_MAX
      modifies this`buffer, this`length, alloc
      ensures Valid()
      ensures if ok then
          && buffer != null && fresh(buffer) && length == size && buffer[..offset] == old(buffer[..offset])
          && alloc.failures == old(alloc.failures)
        else alloc.failures > old(alloc.failures)
    {
      var bigger := alloc.NewBytes(size);
      if bigger == null {
        alloc.Free(buffer);
        buffer, length := null, 0;
        return false;
      }
      var i := 0;
      while i < offset + 1
        invariant 0 <= i <= offset + 1
        invariant bigger[..i] == buffer[..i]
        modifies bigger
      {
        bigger[i] := buffer[i];
        i := i + 1;
      }
      assert bigger[..offset] == bigger[..offset + 1][..offset] == buffer[..offset];
      alloc.Free(buffer);
      buffer, length := bigger, size;
      return true;
    }

    /** Copies text into the buffer. */
    method Put(at: nat, s: string)
      requires Valid() && buffer != null && at + |s| <= length
      modifies buffer
      ensures Valid() && buffer[..at] == old(buffer[..at]) && buffer[..at + |s|] == old(buffer[..at]) + s
    {
      var i := 0;
      while i < |s|
        invariant 0 <= i <= |s|
        invariant buffer[..at] == old(buffer[..at])
        invariant buffer[..at + i] == old(buffer[..at]) + s[..i]
        invariant buffer[length..] == old(buffer[length..])
      {
        buffer[at + i] := s[i];
        i := i + 1;
      }
      assert s[..|s|] == s;
    }

    /** The buffer holds this text and a terminator. */
    ghost predicate Ends(t: string)
      reads this, buffer
    {
      buffer != null && |t| < length <= buffer.Length && buffer[..|t|] == t && buffer[|t|] == NUL
    }

    /** What every printer promises: text and terminator behind what was there, of which the cursor has
        passed `passed` bytes, and it happened exactly when that fits with a byte to spare. */
    twostate predicate Printed(ok: bool, text: string, passed: nat)
      requires old(buffer) != null && old(offset) <= old(buffer).Length
      reads this, alloc, buffer
    {
      && Valid()
      && (ok ==>
            && buffer != null && (buffer == old(buffer) || fresh(buffer)) && depth == old(depth)
            && offset == old(offset) + passed && passed <= |text| && NUL !in text
            && alloc.failures == old(alloc.failures)
            && old(offset) + |text| + 2 <= Limit() && Ends(old(buffer[..offset]) + text))
      && (!ok ==> (!noalloc && alloc.failures > old(alloc.failures)) || old(offset) + |text| + 2 > Limit())
    }

    /** What pieces of an array or object promise: text behind what was there, passed by the cursor. */
    twostate predicate Wrote(ok: bool, text: string, need: nat)
      requires old(buffer) != null && old(offset) <= old(buffer).Length
      reads this, alloc, buffer
    {
      && Valid()
      && (ok ==>
            && buffer != null && (buffer == old(buffer) || fresh(buffer)) && depth == old(depth)
            && offset == old(offset) + |text| && offset < length && buffer[..offset] == old(buffer[..offset]) + text
            && alloc.failures == old(alloc.failures))
      && (!ok ==> (!noalloc && alloc.failures > old(alloc.failures)) || old(offset) + need > Limit())
    }

    /** Text with its terminator at the cursor, which stays. */
    method Finish(text: string, room: nat) returns (ok: bool)
      requires Valid() && buffer != null && NUL !in text && room == |text| + 1
      modifies this`buffer, this`length, alloc, buffer
      ensures Printed(ok, text, 0)
    {
      ok := Ensure(room);
      if ok {
        Put(offset, text + [NUL]);
        EndsWith(old(buffer[..offset]), text);
      }
    }

    lemma EndsWith(before: string, text: string)
      requires Valid() && buffer != null && |before| + |text| < length
      requires buffer[..|before| + |text| + 1] == before + (text + [NUL])
      ensures Ends(before + text)
    {
      var t := buffer[..|before| + |text| + 1];
      assert t[..|before| + |text|] == before + text;
      assert t[|before| + |text|] == NUL;
    }

    /** Text at the cursor, which moves behind it. */
    method Emit(text: string, room: nat) returns (ok: bool)
      requires Valid() && buffer != null && |text| <= room
      modifies this`buffer, this`length, this`offset, alloc, buffer
      ensures Wrote(ok, text, room + 1)
      ensures ok ==> old(offset) + room + 1 <= Limit()
    {
      ok := Ensure(room);
      if ok {
        Put(offset, text);
        offset := offset + |text|;
      }
    }

    /** As Emit, with a terminator behind the text. */
    method EmitEnded(text: string, room: nat) returns (ok: bool)
      requires Valid() && buffer != null && |text| + 1 <= room
      modifies this`buffer, this`length, this`offset, alloc, buffer
      ensures Wrote(ok, text, room + 1)
      ensures ok ==> old(offset) + room + 1 <= Limit()
    {
      ok := Ensure(room);
      if ok {
        Put(offset, text + [NUL]);
        EndsWith(old(buffer[..offset]), text);
        offset := offset + |text|;
      }
    }

    /** `update_offset` */
    method UpdateOffset(ghost t: string)
      requires Valid() && Ends(t) && offset <= |t| && NUL !in t[offset..]
      modifies this`offset
      ensures Valid() && Ends(t) && offset == |t|
    {
      while buffer[offset] != NUL
        invariant Valid() && Ends(t) && old(offset) <= offset <= |t|
        decreases |t| - offset
      {
        offset := offset + 1;
      }
    }

    /** `print_number`, on an integer that a double holds exactly. */
    method PrintNumber(n: int) returns (ok: bool)
      requires Valid() && buffer != null && -EXACT <= n <= EXACT
      modifies this`buffer, this`length, this`offset, alloc, buffer
      ensures Printed(ok, Decimal(n), |Decimal(n)|)
    {
      var text := Decimal(n);
      DecimalLength(n);
      if |text| > 25 {
        return false;
      }
      ok := Finish(text, |text| + 1);
      if ok {
        offset := offset + |text|;
      }
    }

    /** The text in a buffer of its own, cut to size. */
    method CopyOut(ghost text: string) returns (printed: array?<char>)
      requires Valid() && !noalloc && Ends(text) && offset == |text|
      modifies alloc
      ensures alloc.Valid() && buffer in alloc.live && buffer !in base
      ensures printed == null ==> alloc.live == old(alloc.live) && alloc.failures > old(alloc.failures)
      ensures printed != null ==>
        && fresh(printed) && alloc.live == old(alloc.live) + {printed} && alloc.failures == old(alloc.failures)
        && printed != buffer && printed[..] == text + [NUL]
    {
      printed := alloc.NewBytes(offset + 1);
      if printed == null {
        return;
      }
      var size, i := if length < offset + 1 then length else offset + 1, 0;
      while i < size
        invariant 0 <= i <= size == offset + 1
        invariant printed[..i] == buffer[..i]
        modifies printed
      {
        printed[i] := buffer[i];
        i := i + 1;
      }
      printed[offset] := NUL;
    }

    // ---- strings ------------------------------------------------------------------------------

    /** The counting pass of `print_string_ptr`: bytes, and how many more escaping takes. */
    method CountEscapes(input: array<char>) returns (n: nat, extra: nat)
      requires NUL in input[..]
      ensures n == |CStr(input)| && CStr(input) == input[..n] && n < input.Length && input[n] == NUL
      ensures n + extra == |Escape(CStr(input))|
    {
      n, extra := 0, 0;
      ghost var end := IndexOf(input[..], NUL, 0);
      while input[n] != NUL
        invariant n <= end < input.Length && input[end] == NUL
        invariant n + extra == |Escape(input[..n])|
        decreases end - n
      {
        EscapeNext(input[..], n);
        var c := input[n];
        if c == '"' || c == '\\' || c == '\U{08}' || c == '\U{0C}' || c == '\n' || c == '\r' || c == '\t' {
          extra := extra + 1;
        } else if c as int < 32 {
          extra := extra + 5;
        }
        n := n + 1;
      }
    }

    /** `print_string_ptr` */
    method PrintStringPtr(input: array?<char>) returns (ok: bool)
      requires Valid() && buffer != null && (input != null ==> input in doc && NUL in input[..])
      modifies this`buffer, this`length, alloc, buffer
      ensures Printed(ok, Quote(if input == null then "" else CStr(input)), 0)
    {
      if input == null {
        ok := Finish("\"\"", 3);
        return;
      }
      var n, extra := CountEscapes(input);
      ghost var text := CStr(input);
      ghost var before := buffer[..offset];
      hide CStr, Escape;
      QuoteNoNul(text);
      ok := Ensure(n + extra + 3);
      if ok {
        QuoteInto(input, n, extra);
        EndsWith(before, Quote(text));
      }
    }

    /** The copying pass: quote, text with escapes, quote, terminator. */
    method QuoteInto(input: array<char>, n: nat, extra: nat)
      requires Valid() && buffer != null && input in doc
      requires n < input.Length && input[n] == NUL && NUL !in input[..n] && n + extra == |Escape(input[..n])|
      requires offset + n + extra + 4 <= length
      modifies buffer
      ensures Valid()
      ensures buffer[..offset + n + extra + 3] == old(buffer[..offset]) + (Quote(input[..n]) + [NUL])
    {
      hide Escape;
      ghost var before, text := buffer[..offset], input[..n];
      Put(offset, ['"']);
      if extra == 0 {
        EscapePlain(text);
        Put(offset + 1, input[..n]);
      } else {
        EscapeInto(input, n, offset + 1);
      }
      Put(offset + 1 + n + extra, ['"', NUL]);
      assert before + ['"'] + Escape(text) + ['"', NUL] == before + (Quote(text) + [NUL]);
    }

    /** The slow copying loop. */
    method EscapeInto(input: array<char>, ghost n: nat, at: nat)
      requires Valid() && buffer != null && input in doc && n < input.Length && input[n] == NUL && NUL !in input[..n]
      requires at + |Escape(input[..n])| <= length
      modifies buffer
      ensures Valid() && buffer[..at + |Escape(input[..n])|] == old(buffer[..at]) + Escape(input[..n])
    {
      hide Escape, EscapeChar;
      EscapeNothing();
      var i, out := 0, at;
      assert input[..0] == "";
      while input[i] != NUL
        invariant i <= n && Valid()
        invariant out == at + |Escape(input[..i])| && |Escape(input[..i])| <= |Escape(input[..n])|
        invariant buffer[..out] == old(buffer[..at]) + Escape(input[..i])
        decreases n - i
      {
        EscapeNext(input[..], i);
        EscapeGrows(input[..], i + 1, n);
        assert input[..][..i] == input[..i] && input[..][..i + 1] == input[..i + 1] && input[..][..n] == input[..n];
        out := EscapeOne(input[i], out);
        i := i + 1;
      }
    }

    method EscapeOne(c: char, out: nat) returns (out': nat)
      requires Valid() && buffer != null && out + |EscapeChar(c)| <= length
      modifies buffer
      ensures Valid() && out' == out + |EscapeChar(c)| && buffer[..out'] == old(buffer[..out]) + EscapeChar(c)
    {
      hide EscapeChar;
      if c as int > 31 && c != '"' && c != '\\' {
        PlainChar(c);
        Put(out, [c]);
        out' := out + 1;
      } else {
        var rest := EscapeRest(c);
        Put(out, ['\\']);
        Put(out + 1, rest);
        out' := out + 1 + |rest|;
        assert old(buffer[..out]) + ['\\'] + rest == old(buffer[..out]) + EscapeChar(c);
      }
    }

    /** What follows the backslash. */
    method EscapeRest(c: char) returns (rest: string)
      requires c as int < 32 || c == '"' || c == '\\'
      ensures EscapeChar(c) == "\\" + rest
    {
      match c
      case '\\' => rest := "\\";
      case '"' => rest := "\"";
      case '\U{08}' => rest := "b";
      case '\U{0C}' => rest := "f";
      case '\n' => rest := "n";
      case '\r' => rest := "r";
      case '\t' => rest := "t";
      case _ => rest := "u00" + [HEX[c as int / 16], HEX[c as int % 16]];
    }

    // ---- values -----------------------------------------------------------------------------------

    method PrintValue(item: Node) returns (ok: bool)
      requires Valid() && buffer != null && item.Valid() && item.repr <= doc && Exact(item.model)
      modifies this, alloc, buffer
      ensures item.kind == Invalid ==> !ok && Valid()
      ensures item.kind != Invalid ==>
        Printed(ok, Render(item.model, format, old(depth)), Passed(item.model, format, old(depth)))
      decreases item.repr, 4
    {
      hide Node.Valid;
      ItemDocument(item);
      match item.kind
      case IsNull => ok := Finish("null", 5);
      case IsFalse => ok := Finish("false", 6);
      case IsTrue => ok := Finish("true", 5);
      case IsNumber => ok := PrintNumber(item.number);
      case IsString => ok := PrintStringPtr(item.valuestring);
      case IsArray => ok := PrintArray(item);
      case IsObject => ok := PrintObject(item);
      case Invalid => ok := false;
    }

    /** A value inside an array or object: printed, and passed by the cursor. */
    method PrintInner(child: Node) returns (ok: bool)
      requires Valid() && buffer != null && child.Valid() && child.repr <= doc
      requires Exact(child.model) && child.kind != Invalid
      modifies this, alloc, buffer
      ensures var text := Render(child.model, format, old(depth));
        Wrote(ok, text, |text| + 2) && (ok ==> NUL !in text)
      decreases child.repr, 5
    {
      hide Node.Valid, Exact, Render;
      ghost var before, text := buffer[..offset], Render(child.model, format, depth);
      ok := PrintValue(child);
      if ok {
        UpdateOffset(before + text);
      }
    }

    method PrintName(name: array<char>) returns (ok: bool)
      requires Valid() && buffer != null && name in doc && NUL in name[..]
      modifies this, alloc, buffer
      ensures var text := Quote(CStr(name));
        Wrote(ok, text, |text| + 2) && (ok ==> NUL !in text)
    {
      hide Quote;
      ghost var before, text := buffer[..offset], Quote(CStr(name));
      ok := PrintStringPtr(name);
      if ok {
        UpdateOffset(before + text);
      }
    }

    // ---- arrays ---------------------------------------------------------------------------------------

    method PrintArray(item: Node) returns (ok: bool)
      requires Valid() && buffer != null && item.Valid() && item.repr <= doc
      requires Exact(item.model) && item.kind == IsArray
      modifies this, alloc, buffer
      ensures Printed(ok, Render(item.model, format, old(depth)), Passed(item.model, format, old(depth)))
      decreases item.repr, 3
    {
      hide Node.Valid, Exact, RenderItems;
      Documents(item);
      ghost var before := buffer[..offset];
      ghost var inside := "[" + RenderItems(item.model.items, format, depth + 1);
      ok := PrintContents(item);
      if !ok {
        return;
      }
      assert before + inside + "]" == before + (inside + "]");
      ok := Finish("]", 2);
      if ok {
        depth := depth - 1;
      }
    }

    /** The opening bracket and the elements. */
    method PrintContents(item: Node) returns (ok: bool)
      requires Valid() && buffer != null && item.Valid() && item.repr <= doc && Exact(item.model)
      requires item.kind == IsArray && item.model.Array?
      modifies this, alloc, buffer
      ensures var inside := "[" + RenderItems(item.model.items, format, old(depth) + 1);
        && Valid()
        && (ok ==>
              && buffer != null && (buffer == old(buffer) || fresh(buffer)) && depth == old(depth) + 1 && NUL !in inside
              && offset == old(offset) + |inside| && offset < length && alloc.failures == old(alloc.failures)
              && buffer[..offset] == old(buffer[..offset]) + inside)
        && (!ok ==> (!noalloc && alloc.failures > old(alloc.failures)) || old(offset) + |inside| + 2 > Limit())
      decreases item.repr, 2
    {
      hide Node.Valid, Exact, RenderItems;
      ghost var before := buffer[..offset];
      ghost var body := RenderItems(item.model.items, format, depth + 1);
      ok := Emit("[", 1);
      if !ok {
        return;
      }
      depth := depth + 1;
      ok := PrintItems(item);
      assert before + "[" + body == before + ("[" + body);
    }

    /** The loop over the elements. */
    method PrintItems(item: Node) returns (ok: bool)
      requires Valid() && buffer != null && offset < length
      requires item.Valid() && item.repr <= doc && Exact(item.model) && item.kind == IsArray && item.model.Array?
      modifies this, alloc, buffer
      ensures var body := RenderItems(item.model.items, format, old(depth));
        Wrote(ok, body, |body| + 2) && (ok ==> NUL !in body)
      decreases item.repr, 1
    {
      hide Node.Valid, Exact, RenderItems, Render, CStr, Comma, After;
      Documents(item);
      ghost var items, body := item.model.items, RenderItems(item.model.items, format, depth);
      ghost var done, i := "", 0;
      assert items[0..] == items;
      var child := item.child;
      ok := true;
      while child != null
        invariant Valid() && buffer != null && (buffer == old(buffer) || fresh(buffer)) && item.Valid() && ok
        invariant i <= |items| == |item.kids| && child == (if i < |items| then item.kids[i] else null)
        invariant done + RenderItems(items[i..], format, depth) == body && NUL !in done && depth == old(depth)
        invariant alloc.failures == old(alloc.failures)
        invariant offset == old(offset) + |done| && offset < length && buffer[..offset] == old(buffer[..offset]) + done
        decreases |items| - i
      {
        KidAt(item, i);
        KidDocument(item, i);
        ExactItem(item.model, i);
        ItemsNext(items, i, format, depth);
        ok := PrintElement(child);
        if !ok {
          return;
        }
        KidAt(item, i);
        done := done + (Render(items[i], format, depth) + (if i + 1 < |items| then Comma(format) else ""));
        child := child.next;
        i := i + 1;
      }
      ItemsDone(format, depth);
      assert items[i..] == [];
    }

    /** One element, and a comma if another follows. */
    method PrintElement(child: Node) returns (ok: bool)
      requires Valid() && buffer != null && child.Valid() && child.repr <= doc
      requires Exact(child.model) && child.kind != Invalid
      modifies this, alloc, buffer
      ensures var piece := Render(child.model, format, old(depth)) + (if child.next != null then Comma(format) else "");
        Wrote(ok, piece, |piece| + 2) && (ok ==> NUL !in piece)
      decreases child.repr, 6
    {
      hide Node.Valid, Exact, Render;
      OwnRepr(child);
      ok := PrintInner(child);
      if ok && child.next != null {
        ok := EmitEnded(if format then ", " else ",", if format then 3 else 2);
      }
    }

    // ---- objects --------------------------------------------------------------------------------------

    method PrintObject(item: Node) returns (ok: bool)
      requires Valid() && buffer != null && item.Valid() && item.repr <= doc
      requires Exact(item.model) && item.kind == IsObject
      modifies this, alloc, buffer
      ensures Printed(ok, Render(item.model, format, old(depth)), Passed(item.model, format, old(depth)))
      decreases item.repr, 3
    {
      hide Node.Valid, Exact, RenderMembers, Indent;
      Documents(item);
      ghost var before := buffer[..offset];
      ghost var inside := "{" + NewLine(format) + RenderMembers(item.model.members, format, depth + 1);
      ok := PrintOpening(item);
      if !ok {
        return;
      }
      ok := PrintClosing();
      if ok {
        assert before + inside + (Indent(format, depth) + "}") == before + (inside + Indent(format, depth) + "}");
      }
    }

    /** The closing line of an object, where the cursor stays. */
    method PrintClosing() returns (ok: bool)
      requires Valid() && buffer != null && depth > 0
      modifies this`buffer, this`length, this`depth, alloc, buffer
      ensures Valid()
      ensures var closing := Indent(format, old(depth) - 1) + "}";
        && (ok ==>
              && buffer != null && (buffer == old(buffer) || fresh(buffer))
              && depth == old(depth) - 1 && NUL !in closing && alloc.failures == old(alloc.failures)
              && offset + |closing| + 2 <= Limit() && Ends(old(buffer[..offset]) + closing))
        && (!ok ==> (!noalloc && alloc.failures > old(alloc.failures)) || offset + |closing| + 2 > Limit())
    {
      hide Indent;
      IndentPlain(format, depth - 1);
      ok := Finish(Indent(format, depth - 1) + "}", if format then depth + 1 else 2);
      if ok {
        depth := depth - 1;
      }
    }

    /** The opening bracket and the members. */
    method PrintOpening(item: Node) returns (ok: bool)
      requires Valid() && buffer != null && item.Valid() && item.repr <= doc && Exact(item.model)
      requires item.kind == IsObject && item.model.Object?
      modifies this, alloc, buffer
      ensures var inside := "{" + NewLine(format) + RenderMembers(item.model.members, format, old(depth) + 1);
        && Valid()
        && (ok ==>
              && buffer != null && (buffer == old(buffer) || fresh(buffer)) && depth == old(depth) + 1 && NUL !in inside
              && offset == old(offset) + |inside| && offset < length && alloc.failures == old(alloc.failures)
              && buffer[..offset] == old(buffer[..offset]) + inside)
        && (!ok ==> (!noalloc && alloc.failures > old(alloc.failures)) || old(offset) + |inside| + 2 > Limit())
      decreases item.repr, 2
    {
      hide Node.Valid, Exact, RenderMembers;
      ghost var before := buffer[..offset];
      ghost var body := RenderMembers(item.model.members, format, depth + 1);
      var opening := if format then "{\n" else "{";
      ok := Emit(opening, |opening| + 1);
      if !ok {
        return;
      }
      depth := depth + 1;
      ok := PrintMembers(item);
      assert before + opening + body == before + (opening + body);
    }

    /** The loop over the members. */
    method PrintMembers(item: Node) returns (ok: bool)
      requires Valid() && buffer != null && offset < length
      requires item.Valid() && item.repr <= doc && Exact(item.model) && item.kind == IsObject && item.model.Object?
      modifies this, alloc, buffer
      ensures var body := RenderMembers(item.model.members, format, old(depth));
        Wrote(ok, body, |body| + 2) && (ok ==> NUL !in body)
      decreases item.repr, 1
    {
      hide Node.Valid, Exact, RenderMembers, MemberLine, CStr;
      Documents(item);
      ghost var members, body := item.model.members, RenderMembers(item.model.members, format, depth);
      ghost var done, i := "", 0;
      assert members[0..] == members;
      var child := item.child;
      ok := true;
      while child != null
        invariant Valid() && buffer != null && (buffer == old(buffer) || fresh(buffer)) && item.Valid() && ok
        invariant i <= |members| == |item.kids| && child == (if i < |members| then item.kids[i] else null)
        invariant done + RenderMembers(members[i..], format, depth) == body && NUL !in done && depth == old(depth)
        invariant alloc.failures == old(alloc.failures)
        invariant offset == old(offset) + |done| && offset < length && buffer[..offset] == old(buffer[..offset]) + done
        decreases |members| - i
      {
        KidAt(item, i);
        KidDocument(item, i);
        ExactMember(item.model, i);
        MembersNext(members, i, format, depth);
        ok := PrintMember(child);
        if !ok {
          return;
        }
        KidAt(item, i);
        done := done + MemberLine(members[i], i + 1 < |members|, format, depth);
        child := child.next;
        i := i + 1;
      }
      MembersDone(format, depth);
      assert members[i..] == [];
    }

    /** One member on its line. */
    method PrintMember(child: Node) returns (ok: bool)
      requires Valid() && buffer != null && child.Valid() && child.repr <= doc
      requires Exact(child.model) && child.kind != Invalid
      requires child.name != null && child.name in doc && NUL in child.name[..]
      modifies this, alloc, buffer
      ensures var piece := MemberLine(Member(CStr(child.name), child.model), child.next != null, format, old(depth));
        Wrote(ok, piece, |piece| + 2) && (ok ==> NUL !in piece)
      decreases child.repr, 7
    {
      hide Node.Valid, Exact, RenderMember;
      OwnRepr(child);
      ok := PrintPair(child);
      if ok {
        var ending := (if child.next != null then "," else "") + (if format then "\n" else "");
        ok := EmitEnded(ending, |ending| + 1);
      }
    }

    method PrintPair(child: Node) returns (ok: bool)
      requires Valid() && buffer != null && child.Valid() && child.repr <= doc
      requires Exact(child.model) && child.kind != Invalid
      requires child.name != null && child.name in doc && NUL in child.name[..]
      modifies this, alloc, buffer
      ensures var text := RenderMember(Member(CStr(child.name), child.model), format, old(depth));
        Wrote(ok, text, |text| + 2) && (ok ==> NUL !in text)
      decreases child.repr, 6
    {
      hide Node.Valid, Exact, Render, Quote, Indent;
      OwnRepr(child);
      ghost var text, before := Render(child.model, format, depth), buffer[..offset];
      ghost var head := Indent(format, depth) + Quote(CStr(child.name)) + Colon(format);
      ok := PrintKey(child);
      if ok {
        ok := PrintInner(child);
        assert before + head + text == before + (head + text);
      }
    }

    /** Indentation, name and colon. */
    method PrintKey(child: Node) returns (ok: bool)
      requires Valid() && buffer != null && child.name != null
      requires child.name in doc && NUL in child.name[..] && child in doc
      modifies this, alloc, buffer
      ensures var head := Indent(format, old(depth)) + Quote(CStr(child.name)) + Colon(format);
        Wrote(ok, head, |head| + 1) && (ok ==> NUL !in head)
    {
      hide Quote, Indent;
      ghost var before, name, tabs := buffer[..offset], Quote(CStr(child.name)), Indent(format, depth);
      IndentPlain(format, depth);
      ok := true;
      if format {
        ok := Emit(Indent(format, depth), depth);
      }
      if !ok {
        return;
      }
      ok := PrintName(child.name);
      if !ok {
        return;
      }
      var colon := if format then ":\t" else ":";
      ok := Emit(colon, |colon|);
      assert before + tabs + name + colon == before + (tabs + name + colon);
    }
  }

  // ---- entry points -----------------------------------------------------------------------------------

  /** `cJSON_PrintPreallocated`: succeeds exactly when the text, its terminator and one byte more fit,
      and writes nothing beyond the length it was given. */
  method PrintPreallocated(item: Node?, buffer: array?<char>, length: int, format: bool) returns (b: bool, len: nat)
    requires length <= INT_MAX && (buffer != null ==> length <= buffer.Length)
    requires item != null ==> item.Valid() && Exact(item.model) && (buffer != null ==> buffer !in item.repr)
    modifies if buffer == null then {} else {buffer}
    ensures b <==>
      && length >= 0 && buffer != null && item != null && item.kind != Invalid
      && |Render(item.model, format, 0)| + 2 <= length
    ensures b ==>
      var text := Render(item.model, format, 0);
      && buffer[..|text|] == text && buffer[|text|] == NUL
      && (item.kind == IsArray || item.kind == IsObject ==> len == |text|)
    ensures buffer != null && length >= 0 ==> buffer[length..] == old(buffer[length..])
  {
    hide Node.Valid, Exact;
    if length < 0 || buffer == null {
      return false, 0;
    }
    if item == null {
      return false, 1;
    }
    var none := new Allocator();
    var p := new Printer(buffer, length, true, format, none, item.repr);
    ContainerText(item, format);
    b := p.PrintValue(item);
    len := p.offset + 1;
    assert b ==> [] + Render(item.model, format, 0) == Render(item.model, format, 0);
  }

  lemma ContainerText(item: Node, fmt: bool)
    requires item.Valid()
    ensures item.kind == IsArray || item.kind == IsObject ==>
      Passed(item.model, fmt, 0) + 1 == |Render(item.model, fmt, 0)|
  {
    hide Partition, Linked;
  }

  /** `print`: the text in a buffer of its own, cut to size. */
  method Print(item: Node, format: bool, alloc: Allocator) returns (printed: array?<char>)
    requires alloc.Valid() && item.Valid() && Exact(item.model) && item.repr <= alloc.live
    modifies alloc
    ensures alloc.Valid()
    ensures var text := Render(item.model, format, 0);
      && (printed == null ==>
            && alloc.live == old(alloc.live)
            && (alloc.failures > old(alloc.failures) || item.kind == Invalid || |text| + 2 > INT_MAX))
      && (printed != null ==>
            && fresh(printed) && alloc.live == old(alloc.live) + {printed} && alloc.failures == old(alloc.failures)
            && printed[..] == text + [NUL] && NUL !in text
            && item.kind != Invalid && |text| + 2 <= INT_MAX)
  {
    hide Node.Valid, Exact;
    printed := null;
    var buffer := alloc.NewBytes(256);
    if buffer == null {
      return;
    }
    ghost var text := Render(item.model, format, 0);
    var p := new Printer(buffer, 256, false, format, alloc, item.repr);
    var ok := p.PrintValue(item);
    if ok {
      assert [] + text == text;
      p.UpdateOffset(text);
      printed := p.CopyOut(text);
    }
    if p.buffer != null {
      alloc.Free(p.buffer);
    }
  }

  /** All numbers are exact in a double. */
  predicate Exact(v: Json) {
    match v
    case Number(n) => -EXACT <= n <= EXACT
    case Array(items) => forall i :: 0 <= i < |items| ==> Exact(items[i])
    case Object(members) => forall i :: 0 <= i < |members| ==> Exact(members[i].value)
    case _ => true
  }

  /** How far the cursor moves while a value is printed: over a number, and up to the closing line of
      an array or object. */
  function Passed(v: Json, fmt: bool, depth: nat): nat {
    match v
    case Number(n) => |Decimal(n)|
    case Array(items) => 1 + |RenderItems(items, fmt, depth + 1)|
    case Object(members) => 1 + |NewLine(fmt)| + |RenderMembers(members, fmt, depth + 1)|
    case _ => 0
  }

  lemma ExactItem(v: Json, i: nat)
    requires Exact(v) && v.Array? && i < |v.items|
    ensures Exact(v.items[i])
  {
  }

  lemma ItemsNext(items: seq<Json>, i: nat, fmt: bool, depth: nat)
    requires i < |items|
    ensures RenderItems(items[i..], fmt, depth) ==
      Render(items[i], fmt, depth) + (if i + 1 < |items| then Comma(fmt) else "") + RenderItems(items[i + 1..], fmt, depth)
  {
    assert items[i..][1..] == items[i + 1..];
  }

  lemma ItemsDone(fmt: bool, depth: nat)
    ensures RenderItems([], fmt, depth) == ""
  {
  }

  lemma ExactMember(v: Json, i: nat)
    requires Exact(v) && v.Object? && i < |v.members|
    ensures Exact(v.members[i].value)
  {
  }

  /** A member with what follows it up to the next one. */
  function MemberLine(m: Member, more: bool, fmt: bool, depth: nat): string {
    RenderMember(m, fmt, depth) + ((if more then "," else "") + NewLine(fmt))
  }

  lemma MembersNext(members: seq<Member>, i: nat, fmt: bool, depth: nat)
    requires i < |members|
    ensures RenderMembers(members[i..], fmt, depth) ==
      MemberLine(members[i], i + 1 < |members|, fmt, depth) + RenderMembers(members[i + 1..], fmt, depth)
  {
    assert members[i..][1..] == members[i + 1..];
  }

  lemma MembersDone(fmt: bool, depth: nat)
    ensures RenderMembers([], fmt, depth) == ""
  {
  }

  lemma IndentPlain(fmt: bool, depth: nat)
    ensures NUL !in Indent(fmt, depth) && |Indent(fmt, depth)| == if fmt then depth else 0
  {
  }

  lemma {:induction false} EscapeJoin(a: string, b: string)
    ensures Escape(a + b) == Escape(a) + Escape(b)
  {
    if a == "" {
      assert a + b == b;
    } else {
      EscapeJoin(a[1..], b);
      assert (a + b)[1..] == a[1..] + b;
      assert Escape(a + b) == EscapeChar(a[0]) + (Escape(a[1..]) + Escape(b));
    }
  }

  lemma EscapeNext(s: string, i: nat)
    requires i < |s|
    ensures Escape(s[..i + 1]) == Escape(s[..i]) + EscapeChar(s[i])
  {
    EscapeJoin(s[..i], [s[i]]);
    assert s[..i + 1] == s[..i] + [s[i]];
    assert Escape([s[i]]) == EscapeChar(s[i]) + "";
  }

  lemma EscapeGrows(s: string, i: nat, n: nat)
    requires i <= n <= |s|
    ensures |Escape(s[..i])| <= |Escape(s[..n])|
  {
    EscapeJoin(s[..i], s[i..n]);
    assert s[..n] == s[..i] + s[i..n];
  }

  lemma EscapeNothing()
    ensures Escape("") == ""
  {
  }

  lemma PlainChar(c: char)
    ensures |EscapeChar(c)| == 1 ==> EscapeChar(c) == [c]
    ensures c as int > 31 && c != '"' && c != '\\' ==> EscapeChar(c) == [c]
  {
  }

  /** Escaping that adds nothing changes nothing. */
  lemma {:induction false} EscapePlain(s: string)
    ensures |Escape(s)| >= |s|
    ensures |Escape(s)| == |s| ==> Escape(s) == s
  {
    hide EscapeChar;
    if s != "" {
      EscapePlain(s[1..]);
      PlainChar(s[0]);
      assert s == [s[0]] + s[1..];
    }
  }

  lemma EscapeCharNoNul(c: char)
    requires c != NUL
    ensures NUL !in EscapeChar(c)
  {
    assert forall i :: 0 <= i < 16 ==> HEX[i] != NUL;
  }

  lemma {:induction false} QuoteNoNul(s: string)
    ensures NUL !in s ==> NUL !in Escape(s) && NUL !in Quote(s)
    decreases |s|
  {
    if NUL !in s && s != "" {
      EscapeCharNoNul(s[0]);
      QuoteNoNul(s[1..]);
    }
  }
}
