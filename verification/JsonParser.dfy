/** The recursive-descent parser over a cursor buffer, building linked nodes. Each method is proved
    against the function of JsonParse for the same text, and leaves the allocator's ledger exact. */
module JsonParser {
  import opened Text
  import opened JsonText
  import opened JsonValue
  import opened JsonParse
  import opened JsonNode
  import opened JsonList
  import opened JsonLiteral

  class Parser {
    const content: string
    const alloc: Allocator
    const strtod: Strtod
    var offset: nat
    var depth: nat

    constructor (content: string, alloc: Allocator, strtod: Strtod)
      requires alloc.Valid()
      ensures Valid() && this.content == content && this.alloc == alloc && this.strtod == strtod
      ensures offset == 0 && depth == 0
    {
      this.content, this.alloc, this.strtod := content, alloc, strtod;
      offset, depth := 0, 0;
    }

    ghost predicate Valid()
      reads this, alloc
    {
      offset <= |content| && alloc.Valid() && this !in alloc.live
    }

    /** What every parser of a value promises: on success the item stands for the value read, owns
        what was allocated and nothing else new is live; on failure nothing allocated is left and the
        item is as it was, and the text is at fault unless an allocation failed. */
    twostate predicate Outcome(item: Node, ok: bool, new r: Option<(Json, nat)>)
      reads this, alloc, item, item.repr
    {
      && Valid()
      && (ok ==>
            && r.Some? && offset == r.value.1 && depth == old(depth)
            && item.Valid() && item.model == r.value.0 && item.kind != Invalid
            && old(item.repr) <= item.repr && fresh(item.repr - old(item.repr))
            && alloc.live == old(alloc.live) + item.repr && alloc.failures == old(alloc.failures))
      && (!ok ==>
            && unchanged(item) && alloc.live == old(alloc.live) && (alloc.failures > old(alloc.failures) || r.None?))
    }

    /** `buffer_skip_whitespace` */
    method SkipWhitespace()
      requires Valid()
      modifies this`offset
      ensures Valid() && offset == SkipWhite(content, old(offset))
    {
      if offset >= |content| {
        return;
      }
      while offset < |content| && content[offset] <= ' '
        invariant old(offset) <= offset <= |content|
        invariant FirstNonWhite(content, old(offset)) == FirstNonWhite(content, offset)
      {
        offset := offset + 1;
      }
      if offset == |content| {
        offset := offset - 1;
      }
    }

    /** `skip_utf8_bom` */
    method SkipMark()
      requires Valid() && offset == 0
      modifies this`offset
      ensures Valid() && offset == SkipBom(content)
    {
      if 4 < |content| && content[0] == '\U{EF}' && content[1] == '\U{BB}' && content[2] == '\U{BF}' {
        assert content[..3] == [content[0], content[1], content[2]];
        offset := offset + 3;
      }
    }

    /** The text of the run of number bytes at the cursor. */
    method NumberText() returns (text: string)
      requires Valid()
      ensures text == content[offset..NumberRun(content, offset, NUMBER_BYTES)]
    {
      var i := 0;
      while i < NUMBER_BYTES && offset + i < |content| && IsNumberByte(content[offset + i])
        invariant 0 <= i <= NUMBER_BYTES && offset + i <= |content|
        invariant NumberRun(content, offset, NUMBER_BYTES) == NumberRun(content, offset + i, NUMBER_BYTES - i)
      {
        i := i + 1;
      }
      text := content[offset..offset + i];
    }

    method ParseNumber(item: Node) returns (ok: bool)
      requires Valid() && item.Valid() && item.Blank() && item.repr <= alloc.live
      modifies this`offset
      modifies item`kind, item`child, item`valuestring, item`number, item`kids, item`repr, item`below, item`model
      ensures Outcome(item, ok, JsonParse.ParseNumber(content, old(offset), strtod))
    {
      hide Node.Valid;
      var text := NumberText();
      var r := NumberOf(text, strtod);
      if r.None? {
        return false;
      }
      item.SetScalar(IsNumber, r.value.0);
      offset := offset + r.value.1;
      return true;
    }

    method ParseString(item: Node) returns (ok: bool)
      requires Valid() && item.Valid() && item.Blank() && item.repr <= alloc.live && offset < |content|
      modifies this`offset, alloc
      modifies item`kind, item`child, item`valuestring, item`number, item`kids, item`repr, item`below, item`model
      ensures Outcome(item, ok, JsonParse.ParseString(content, old(offset)))
    {
      hide Node.Valid;
      var out, next := ReadString(content, offset, alloc);
      if out == null {
        return false;
      }
      item.SetString(out);
      offset := next;
      return true;
    }

    /** Dispatch on the text at the cursor. */
    method ParseValue(item: Node) returns (ok: bool)
      requires Valid() && item.Valid() && item.Blank() && item.repr <= alloc.live
      modifies this, alloc
      modifies item`kind, item`child, item`valuestring, item`number, item`kids, item`repr, item`below, item`model
      ensures Outcome(item, ok, JsonParse.ParseValue(content, old(offset), old(depth), strtod))
      decreases |content| - offset, 9
    {
      hide Node.Valid, Node.Blank, JsonParse.ParseValue, JsonParse.ParseString, JsonParse.ParseNumber, Reads;
      hide JsonParse.ParseArray, JsonParse.ParseObject;
      if Reads(content, offset, "null") || Reads(content, offset, "false") || Reads(content, offset, "true") {
        ParseLiteral(item);
        return true;
      }
      Dispatch(content, offset, depth, strtod);
      if offset < |content| && content[offset] == '"' {
        ok := ParseString(item);
      } else if offset < |content| && (content[offset] == '-' || IsDigit(content[offset])) {
        ok := ParseNumber(item);
      } else if offset < |content| && content[offset] == '[' {
        ok := ParseArray(item);
      } else if offset < |content| && content[offset] == '{' {
        ok := ParseObject(item);
      } else {
        ok := false;
      }
    }

    /** null, false and true */
    method ParseLiteral(item: Node)
      requires Valid() && item.Valid() && item.Blank() && item.repr <= alloc.live
      requires Reads(content, offset, "null") || Reads(content, offset, "false") || Reads(content, offset, "true")
      modifies this`offset
      modifies item`kind, item`child, item`valuestring, item`number, item`kids, item`repr, item`below, item`model
      ensures Outcome(item, true, JsonParse.ParseValue(content, old(offset), old(depth), strtod))
    {
      hide Node.Valid, Node.Blank, Reads, JsonParse.ParseValue;
      Literals(content, offset, depth, strtod);
      var length := if Reads(content, offset, "false") then 5 else 4;
      var k := if Reads(content, offset, "null") then IsNull else if length == 5 then IsFalse else IsTrue;
      item.SetScalar(k, 0);
      offset := offset + length;
    }

    // ---- arrays -----------------------------------------------------------------------------

    /** One element: a new item behind the others, the value after the separator, white space. */
    method ParseElement(head: Node?, last: Node?, ghost kids: seq<Node>, ghost mem: set<object>,
                        ghost base: set<object>,
                        ghost models: seq<Json>)
      returns (ok: bool, head': Node?, last': Node?, ghost kids': seq<Node>, ghost mem': set<object>, ghost v: Json)
      requires Valid() && offset < |content| && Chained(kids, head, last) && Grown(kids, mem) && Modelled(kids, models)
      requires alloc.live == base + mem && base !! mem
      modifies this, alloc, kids`next
      ensures Valid() && Chained(kids', head', last') && Grown(kids', mem')
      ensures alloc.live == base + mem' && base !! mem' && mem <= mem' && fresh(mem' - mem)
      ensures var r := JsonParse.ParseValue(content, SkipWhite(content, old(offset) + 1), old(depth), strtod);
        && (!ok ==> alloc.failures > old(alloc.failures) || r.None?)
        && (ok ==>
              && kids' != [] && Modelled(kids', models + [v])
              && depth == old(depth) && alloc.failures == old(alloc.failures)
              && r.Some? && v == r.value.0 && offset == SkipWhite(content, r.value.1))
      decreases |content| - offset, 5
    {
      hide Node.Valid, Node.Blank, Grown, Chained, JsonParse.ParseValue, SkipWhite, Modelled;
      var item;
      item, head' := AttachNew(alloc, head, last, kids, mem);
      kids', mem', last', v := kids, mem, last, Null;
      if item == null {
        ok := false;
        return;
      }
      kids', last' := kids + [item], item;
      ok := ReadElement(item, kids, mem, models);
      mem' := mem + item.repr;
      v := item.model;
    }

    /** Fills the item just attached behind `kids`. */
    method ReadElement(item: Node, ghost kids: seq<Node>, ghost mem: set<object>, ghost models: seq<Json>)
      returns (ok: bool)
      requires Valid() && offset < |content| && Grown(kids, mem) && Modelled(kids, models) && mem <= alloc.live
      requires item.Valid() && item.Blank() && item.repr == {item} && item in alloc.live && item !in mem
      modifies this, alloc
      modifies item`kind, item`child, item`valuestring, item`number, item`kids, item`repr, item`below, item`model
      ensures Valid() && Grown(kids + [item], mem + item.repr)
      ensures alloc.live == old(alloc.live) + item.repr && item in item.repr && fresh(item.repr - {item})
      ensures var r := JsonParse.ParseValue(content, SkipWhite(content, old(offset) + 1), old(depth), strtod);
        && (!ok ==> alloc.failures > old(alloc.failures) || r.None?)
        && (ok ==>
              && Modelled(kids + [item], models + [item.model])
              && depth == old(depth) && alloc.failures == old(alloc.failures)
              && r.Some? && item.model == r.value.0 && offset == SkipWhite(content, r.value.1))
      decreases |content| - offset, 4
    {
      hide Node.Valid, Node.Blank, Grown, JsonParse.ParseValue, SkipWhite;
      GrownInside(kids, mem);
      offset := offset + 1;
      SkipWhitespace();
      ok := ParseValue(item);
      OwnRepr(item);
      GrownAppend(kids, mem, item);
      if ok {
        SkipWhitespace();
        ModelledAppend(kids, models, item);
      }
    }

    /** The comma-separated elements of an array, from just before the first. On failure the items
        made so far are left for the caller to free. */
    method ParseElements()
      returns (ok: bool, head: Node?, last: Node?, ghost kids: seq<Node>, ghost mem: set<object>, ghost models: seq<Json>)
      requires Valid() && offset < |content|
      modifies this, alloc
      ensures Valid() && Chained(kids, head, last) && Grown(kids, mem)
      ensures alloc.live == old(alloc.live) + mem && old(alloc.live) !! mem && fresh(mem) && fresh(kids)
      ensures var r := JsonParse.ParseItems(content, old(offset) + 1, old(depth), strtod);
        && (!ok ==> alloc.failures > old(alloc.failures) || r.None?)
        && (ok ==>
              && depth == old(depth) && alloc.failures == old(alloc.failures) && offset < |content|
              && r == Some((models, offset + 1)) && Modelled(kids, models) && kids != [])
      decreases |content| - offset, 6
    {
      hide Node.Valid, Grown, Chained, NextChain, Modelled, JsonParse.ParseValue, ParseItems, SkipWhite, Partition, Join;
      ghost var whole := ParseItems(content, offset + 1, depth, strtod);
      head, last, kids, mem, models := null, null, [], {}, [];
      NothingGrown();
      JoinNothing(whole);
      ok := true;
      var more := true;
      while more
        invariant Valid() && Chained(kids, head, last) && Grown(kids, mem) && Modelled(kids, models)
        invariant alloc.live == old(alloc.live) + mem && old(alloc.live) !! mem && fresh(mem) && fresh(kids)
        invariant depth == old(depth) && alloc.failures == old(alloc.failures) && (more || kids != [])
        invariant more ==> offset < |content|
        invariant more ==> Join(models, ParseItems(content, offset + 1, depth, strtod)) == whole
        invariant !more ==> Close(models, content, offset, ']') == whole
        decreases |content| - offset, more
      {
        ItemsStep(content, offset + 1, depth, strtod, models);
        JoinSome(models, ParseItems(content, offset + 1, depth, strtod));
        ghost var v;
        ok, head, last, kids, mem, v := ParseElement(head, last, kids, mem, old(alloc.live), models);
        GrownInside(kids, mem);
        assert fresh(kids);
        if !ok {
          return;
        }
        models := models + [v];
        more := offset < |content| && content[offset] == ',';
      }
      ok := offset < |content| && content[offset] == ']';
    }

    /** Frees the items of a list that is given up. */
    method Discard(head: Node?, last: Node?, ghost kids: seq<Node>, ghost mem: set<object>)
      requires Valid() && Chained(kids, head, last) && Grown(kids, mem) && mem <= alloc.live
      modifies alloc`live
      ensures Valid() && alloc.live == old(alloc.live) - mem
    {
      hide Node.Valid, Partition, NextChain;
      if head != null {
        alloc.Delete(head, kids, mem);
      } else {
        PartitionNone(mem);
      }
    }

    /** From the opening bracket to just before the closing one. */
    method ParseArrayBody()
      returns (ok: bool, head: Node?, last: Node?, ghost kids: seq<Node>, ghost mem: set<object>, ghost models: seq<Json>)
      requires Valid() && offset < |content| && depth < NESTING_LIMIT
      modifies this, alloc
      ensures Valid() && Chained(kids, head, last) && Grown(kids, mem)
      ensures alloc.live == old(alloc.live) + mem && old(alloc.live) !! mem && fresh(mem) && fresh(kids)
      ensures var r := JsonParse.ParseArray(content, old(offset), old(depth), strtod);
        && (!ok ==> alloc.failures > old(alloc.failures) || r.None?)
        && (ok ==>
              && depth == old(depth) + 1 && alloc.failures == old(alloc.failures) && offset < |content|
              && Modelled(kids, models) && r == Some((Array(models), offset + 1)))
      decreases |content| - offset, 7
    {
      hide Node.Valid, Grown, Chained, Modelled, SkipWhite, ParseItems;
      hide NextChain, Partition, JsonParse.ParseValue;
      head, last, kids, mem, models := null, null, [], {}, [];
      NothingGrown();
      depth := depth + 1;
      offset := offset + 1;
      SkipWhitespace();
      if offset < |content| && content[offset] == ']' {
        NothingGrown();
        ok := true;
      } else if offset >= |content| {
        offset := offset - 1;
        ok := false;
      } else {
        offset := offset - 1;
        ok, head, last, kids, mem, models := ParseElements();
      }
    }

    method ParseArray(item: Node) returns (ok: bool)
      requires Valid() && item.Valid() && item.Blank() && item.repr <= alloc.live
      requires offset < |content| && content[offset] == '['
      modifies this, alloc
      modifies item`kind, item`child, item`valuestring, item`number, item`kids, item`repr, item`below, item`model
      ensures Outcome(item, ok, JsonParse.ParseArray(content, old(offset), old(depth), strtod))
      decreases |content| - offset, 8
    {
      hide Node.Valid, Node.Blank, Grown, Chained, ListFits, Modelled;
      if depth >= NESTING_LIMIT {
        return false;
      }
      hide JsonParse.ParseArray;
      var head, last;
      ghost var kids, mem, models;
      ok, head, last, kids, mem, models := ParseArrayBody();
      if !ok {
        Discard(head, last, kids, mem);
        return;
      }
      FitsArray(kids, models);
      Adopt(item, IsArray, head, last, kids, mem, Array(models));
      depth, offset := depth - 1, offset + 1;
    }

    // ---- objects ----------------------------------------------------------------------------

    /** A name, the colon and white space. */
    method ParseKey(item: Node) returns (ok: bool)
      requires Valid() && offset < |content|
      requires item.Valid() && item.Blank() && item.name == null && item.repr == {item} && item in alloc.live
      modifies this`offset, alloc
      modifies item`kind, item`child, item`valuestring, item`number, item`name, item`kids, item`repr, item`below, item`model
      ensures Valid() && item.Valid()
      ensures alloc.live == old(alloc.live) + item.repr && item in item.repr && fresh(item.repr - {item})
      ensures var r := ParseName(content, old(offset));
        && (!ok ==> alloc.failures > old(alloc.failures) || r.None?)
        && (ok ==>
              && alloc.failures == old(alloc.failures) && item.Blank()
              && item.name != null && item.name in item.repr && r == Some((CStr(item.name), offset)))
      decreases |content| - offset, 0
    {
      hide Node.Valid, Node.Blank, SkipWhite, ReadLiteral;
      SkipWhitespace();
      ok := ParseString(item);
      OwnRepr(item);
      if !ok {
        return;
      }
      SkipWhitespace();
      StringKind(item);
      item.TakeName();
      OwnName(item);
      if offset >= |content| || content[offset] != ':' {
        return false;
      }
      offset := offset + 1;
      SkipWhitespace();
    }

    /** A name and its value, into a new item. */
    method ParsePair(item: Node) returns (ok: bool)
      requires Valid() && offset < |content|
      requires item.Valid() && item.Blank() && item.name == null && item.repr == {item} && item in alloc.live
      modifies this, alloc
      modifies item`kind, item`child, item`valuestring, item`number, item`name, item`kids, item`repr, item`below, item`model
      ensures Valid() && item.Valid()
      ensures alloc.live == old(alloc.live) + item.repr && item in item.repr && fresh(item.repr - {item})
      ensures var r := Pair(content, old(offset) + 1, old(depth), strtod);
        && (!ok ==> alloc.failures > old(alloc.failures) || r.None?)
        && (ok ==>
              && depth == old(depth) && alloc.failures == old(alloc.failures)
              && item.name != null && item.kind != Invalid && r.Some? && offset == r.value.1
              && r.value.0 == Member(CStr(item.name), item.model))
      decreases |content| - offset, 3
    {
      hide Node.Valid, Node.Blank, JsonParse.ParseValue, ParseName, SkipWhite;
      if offset + 1 >= |content| {
        NoName(content, offset + 1);
        return false;
      }
      offset := offset + 1;
      ok := ParseKey(item);
      if ok {
        ok := ParseValue(item);
        OwnRepr(item);
      }
    }

    /** One member: a new item behind the others, its name, its value, white space. */
    method ParseMember(head: Node?, last: Node?, ghost kids: seq<Node>, ghost mem: set<object>, ghost base: set<object>,
                       ghost members: seq<Member>)
      returns (ok: bool, head': Node?, last': Node?, ghost kids': seq<Node>, ghost mem': set<object>, ghost m: Member)
      requires Valid() && offset < |content| && Chained(kids, head, last) && Grown(kids, mem) && Named(kids, members)
      requires alloc.live == base + mem && base !! mem
      modifies this, alloc, kids`next
      ensures Valid() && Chained(kids', head', last') && Grown(kids', mem')
      ensures alloc.live == base + mem' && base !! mem' && mem <= mem' && fresh(mem' - mem)
      ensures var r := Pair(content, old(offset) + 1, old(depth), strtod);
        && (!ok ==> alloc.failures > old(alloc.failures) || r.None?)
        && (ok ==>
              && kids' != [] && Named(kids', members + [m])
              && depth == old(depth) && alloc.failures == old(alloc.failures)
              && r.Some? && m == r.value.0 && offset == SkipWhite(content, r.value.1))
      decreases |content| - offset, 5
    {
      hide Node.Valid, Node.Blank, Grown, Chained, Pair, SkipWhite;
      var item;
      item, head' := AttachNew(alloc, head, last, kids, mem);
      kids', mem', last', m := kids, mem, last, Member("", Null);
      if item == null {
        return false, head', last', kids', mem', m;
      }
      kids', last' := kids + [item], item;
      ok := ReadMember(item, kids, mem, members);
      mem' := mem + item.repr;
      if ok {
        m := Member(CStr(item.name), item.model);
      }
    }

    /** Fills the item just attached behind `kids`. */
    method ReadMember(item: Node, ghost kids: seq<Node>, ghost mem: set<object>, ghost members: seq<Member>)
      returns (ok: bool)
      requires Valid() && offset < |content| && Grown(kids, mem) && Named(kids, members) && mem <= alloc.live
      requires item.Valid() && item.Blank() && item.name == null
      requires item.repr == {item} && item in alloc.live && item !in mem
      modifies this, alloc
      modifies item`kind, item`child, item`valuestring, item`number, item`name, item`kids, item`repr, item`below, item`model
      ensures Valid() && Grown(kids + [item], mem + item.repr)
      ensures alloc.live == old(alloc.live) + item.repr && item in item.repr && fresh(item.repr - {item})
      ensures var r := Pair(content, old(offset) + 1, old(depth), strtod);
        && (!ok ==> alloc.failures > old(alloc.failures) || r.None?)
        && (ok ==>
              && item.name != null && Named(kids + [item], members + [Member(CStr(item.name), item.model)])
              && depth == old(depth) && alloc.failures == old(alloc.failures)
              && r.Some? && Member(CStr(item.name), item.model) == r.value.0 && offset == SkipWhite(content, r.value.1))
      decreases |content| - offset, 4
    {
      hide Node.Valid, Node.Blank, Grown, Pair, SkipWhite, Named;
      GrownInside(kids, mem);
      NamesAreStrings(kids);
      NamesAreNoParser(kids);
      ok := ParsePair(item);
      GrownAppend(kids, mem, item);
      if ok {
        SkipWhitespace();
        NamedAppend(kids, members, item);
      }
    }

    /** The comma-separated members of an object, from just before the first. On failure the items made
        so far are left for the caller to free. */
    method ParsePairs()
      returns (ok: bool, head: Node?, last: Node?, ghost kids: seq<Node>, ghost mem: set<object>, ghost members: seq<Member>)
      requires Valid() && offset < |content|
      modifies this, alloc
      ensures Valid() && Chained(kids, head, last) && Grown(kids, mem)
      ensures alloc.live == old(alloc.live) + mem && old(alloc.live) !! mem && fresh(mem) && fresh(kids)
      ensures var r := ParseMembers(content, old(offset) + 1, old(depth), strtod);
        && (!ok ==> alloc.failures > old(alloc.failures) || r.None?)
        && (ok ==>
              && depth == old(depth) && alloc.failures == old(alloc.failures) && offset < |content|
              && r == Some((members, offset + 1)) && Named(kids, members) && kids != [])
      decreases |content| - offset, 6
    {
      hide Node.Valid, Grown, Chained, NextChain, Named, Pair, ParseMembers, SkipWhite, Partition, Join;
      ghost var whole := ParseMembers(content, offset + 1, depth, strtod);
      head, last, kids, mem, members := null, null, [], {}, [];
      NothingGrown();
      JoinNothing(whole);
      ok := true;
      var more := true;
      while more
        invariant Valid() && Chained(kids, head, last) && Grown(kids, mem) && Named(kids, members)
        invariant alloc.live == old(alloc.live) + mem && old(alloc.live) !! mem && fresh(mem) && fresh(kids)
        invariant depth == old(depth) && alloc.failures == old(alloc.failures) && (more || kids != [])
        invariant more ==> offset < |content|
        invariant more ==> Join(members, ParseMembers(content, offset + 1, depth, strtod)) == whole
        invariant !more ==> Close(members, content, offset, '}') == whole
        decreases |content| - offset, more
      {
        PairsStep(content, offset + 1, depth, strtod, members);
        JoinSome(members, ParseMembers(content, offset + 1, depth, strtod));
        ghost var m;
        ok, head, last, kids, mem, m := ParseMember(head, last, kids, mem, old(alloc.live), members);
        GrownInside(kids, mem);
        assert fresh(kids);
        if !ok {
          return;
        }
        members := members + [m];
        more := offset < |content| && content[offset] == ',';
      }
      ok := offset < |content| && content[offset] == '}';
    }

    /** From the opening bracket to just before the closing one. */
    method ParseObjectBody()
      returns (ok: bool, head: Node?, last: Node?, ghost kids: seq<Node>, ghost mem: set<object>, ghost members: seq<Member>)
      requires Valid() && offset < |content| && depth < NESTING_LIMIT
      modifies this, alloc
      ensures Valid() && Chained(kids, head, last) && Grown(kids, mem)
      ensures alloc.live == old(alloc.live) + mem && old(alloc.live) !! mem && fresh(mem) && fresh(kids)
      ensures var r := JsonParse.ParseObject(content, old(offset), old(depth), strtod);
        && (!ok ==> alloc.failures > old(alloc.failures) || r.None?)
        && (ok ==>
              && depth == old(depth) + 1 && alloc.failures == old(alloc.failures) && offset < |content|
              && Named(kids, members) && r == Some((Object(members), offset + 1)))
      decreases |content| - offset, 7
    {
      hide Node.Valid, Grown, Chained, Named, SkipWhite, ParseMembers, ParseName;
      hide NextChain, Partition, JsonParse.ParseValue;
      head, last, kids, mem, members := null, null, [], {}, [];
      NothingGrown();
      depth := depth + 1;
      offset := offset + 1;
      SkipWhitespace();
      if offset < |content| && content[offset] == '}' {
        NothingGrown();
        ok := true;
      } else if offset >= |content| {
        offset := offset - 1;
        ok := false;
      } else {
        offset := offset - 1;
        ok, head, last, kids, mem, members := ParsePairs();
      }
    }

    method ParseObject(item: Node) returns (ok: bool)
      requires Valid() && item.Valid() && item.Blank() && item.repr <= alloc.live
      requires offset < |content| && content[offset] == '{'
      modifies this, alloc
      modifies item`kind, item`child, item`valuestring, item`number, item`kids, item`repr, item`below, item`model
      ensures Outcome(item, ok, JsonParse.ParseObject(content, old(offset), old(depth), strtod))
      decreases |content| - offset, 8
    {
      hide Node.Valid, Node.Blank, Grown, Chained, ListFits, Named;
      if depth >= NESTING_LIMIT {
        return false;
      }
      hide JsonParse.ParseObject;
      var head, last;
      ghost var kids, mem, members;
      ok, head, last, kids, mem, members := ParseObjectBody();
      if !ok {
        Discard(head, last, kids, mem);
        return;
      }
      FitsObject(kids, members);
      Adopt(item, IsObject, head, last, kids, mem, Object(members));
      depth, offset := depth - 1, offset + 1;
    }
  }

  lemma PairsStep(s: string, o: nat, depth: nat, strtod: Strtod, before: seq<Member>)
    requires o <= |s|
    ensures var r := Pair(s, o, depth, strtod);
      && (r.None? ==> ParseMembers(s, o, depth, strtod) == None)
      && (r.Some? ==>
            var p := SkipWhite(s, r.value.1);
            var all := before + [r.value.0];
            Join(before, ParseMembers(s, o, depth, strtod)) ==
              if p < |s| && s[p] == ',' then Join(all, ParseMembers(s, p + 1, depth, strtod)) else Close(all, s, p, '}'))
  {
    hide JsonParse.ParseValue, SkipWhite, ParseName, ParseMembers, Join;
    if ParseName(s, o).Some? {
      MembersStep(s, o, depth, strtod, before);
    } else {
      NoMembers(s, o, depth, strtod);
    }
  }

  lemma NoMembers(s: string, o: nat, depth: nat, strtod: Strtod)
    requires o <= |s| && ParseName(s, o).None?
    ensures ParseMembers(s, o, depth, strtod) == None
  {
    hide ParseName;
  }

  lemma NamesAreNoParser(kids: seq<Node>)
    ensures forall a :: a in NamesOf(kids) ==> !((a as object) is Parser)
  {
  }

  lemma NoName(s: string, o: nat)
    requires o == |s|
    ensures ParseName(s, o) == None
  {
  }

  // ---- whole documents --------------------------------------------------------------------

  /** `cJSON_ParseWithLengthOpts`: the document, where parsing ended, and a ledger that holds the
      document and nothing else new. Without a document, the text is at fault or an allocation
      failed, and everything has been freed. */
  method ParseWithLengthOpts(text: string, terminated: bool, alloc: Allocator, strtod: Strtod)
    returns (root: Node?, end: nat)
    requires alloc.Valid()
    modifies alloc
    ensures alloc.Valid()
    ensures root == null ==>
      && alloc.live == old(alloc.live)
      && (alloc.failures > old(alloc.failures) || ParseDocument(text, terminated, strtod) == None)
    ensures root != null ==>
      && root.Valid() && fresh(root.repr) && ParseDocument(text, terminated, strtod) == Some((root.model, end))
      && root.next == null && root.prev == null && root.name == null
      && alloc.live == old(alloc.live) + root.repr && alloc.failures == old(alloc.failures)
  {
    hide Node.Valid, Node.Blank;
    root, end := null, 0;
    if text == "" {
      return;
    }
    hide ParseDocument;
    var item := alloc.NewNode();
    if item != null {
      var ok;
      ok, end := ParseRoot(item, text, terminated, alloc, strtod);
      if ok {
        root := item;
      }
    }
  }

  /** The rest of it, from the root item on, which is freed when nothing comes of it. */
  method ParseRoot(item: Node, text: string, terminated: bool, alloc: Allocator, strtod: Strtod)
    returns (ok: bool, end: nat)
    requires alloc.Valid() && item in alloc.live && text != ""
    requires item.Valid() && item.Blank() && item.repr == {item} && item.next == null
    modifies alloc
    modifies item`kind, item`child, item`valuestring, item`number, item`kids, item`repr, item`below, item`model
    ensures alloc.Valid()
    ensures ok ==>
      && item.Valid() && item in item.repr && fresh(item.repr - {item})
      && ParseDocument(text, terminated, strtod) == Some((item.model, end))
      && alloc.live == old(alloc.live) + item.repr && alloc.failures == old(alloc.failures)
    ensures !ok ==>
      && alloc.live == old(alloc.live) - {item}
      && (alloc.failures > old(alloc.failures) || ParseDocument(text, terminated, strtod) == None)
  {
    hide Node.Valid, Node.Blank, JsonParse.ParseValue, SkipWhite, FirstNonWhite, SkipBom;
    var parser := new Parser(text, alloc, strtod);
    parser.SkipMark();
    parser.SkipWhitespace();
    ok := parser.ParseValue(item);
    if ok && terminated {
      parser.SkipWhitespace();
      ok := parser.offset < |text| && text[parser.offset] == NUL;
    }
    OwnRepr(item);
    end := parser.offset;
    if !ok {
      DeleteRoot(item, alloc);
    }
  }

  /** A member and the position after its value. */
  ghost function Pair(s: string, o: nat, depth: nat, strtod: Strtod): (r: Option<(Member, nat)>)
    requires o <= |s|
    ensures r.Some? ==> o < r.value.1 <= |s|
  {
    match ParseName(s, o)
    case None => None
    case Some((key, start)) =>
      match JsonParse.ParseValue(s, start, depth, strtod)
      case None => None
      case Some((v, q)) => Some((Member(key, v), q))
  }

  lemma JoinSome<T>(before: seq<T>, r: Option<(seq<T>, nat)>)
    ensures Join(before, r).Some? == r.Some?
  {
  }
}
