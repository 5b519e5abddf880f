/** The two directions together, on documents in memory. */
module JsonReparse {
  import opened JsonValue
  import opened JsonParse
  import opened JsonNode
  import opened JsonParser
  import opened JsonPrinter
  import JsonRoundTrip

  lemma PlainExact(v: Json)
    requires Plain(v)
    ensures Exact(v)
    decreases v
  {
    match v
    case Array(items) =>
      forall i | 0 <= i < |items| ensures Exact(items[i]) {
        PlainExact(items[i]);
      }
    case Object(members) =>
      forall i | 0 <= i < |members| ensures Exact(members[i].value) {
        PlainExact(members[i].value);
      }
    case _ =>
  }

  /** Printing a document and parsing the text gives a second document, equal to the first and apart
      from it, and leaves nothing else behind; without a result, memory ran out, the text is too long
      for an int, or the document nests too deep. */
  method PrintThenParse(item: Node, format: bool, alloc: Allocator, strtod: Strtod) returns (copy: Node?)
    requires alloc.Valid() && item.Valid() && item.repr <= alloc.live && item.kind != Invalid
    requires Plain(item.model)
    modifies alloc
    ensures alloc.Valid()
    ensures copy == null ==>
      && alloc.live == old(alloc.live)
      && (alloc.failures > old(alloc.failures) || |Render(item.model, format, 0)| + 2 > INT_MAX
          || !Nests(item.model, NESTING_LIMIT))
    ensures copy != null ==>
      && copy.Valid() && copy.model == item.model && fresh(copy.repr) && alloc.live == old(alloc.live) + copy.repr
      && Nests(item.model, NESTING_LIMIT)
  {
    hide Node.Valid, Plain, Nests, Exact, Render, ParseDocument;
    PlainExact(item.model);
    var text := Print(item, format, alloc);
    if text == null {
      return null;
    }
    JsonRoundTrip.RoundTrip(item.model, format, true, strtod);
    var end;
    copy, end := ParseWithLengthOpts(text[..], true, alloc, strtod);
    alloc.Free(text);
  }
}
