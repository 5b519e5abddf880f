/** Lists of items: under construction, closed, and owned by an array or object. */
module JsonList {
  import opened Text
  import opened JsonValue
  import opened JsonNode

  /** The links of a list under construction: both ways, except that the head's prev is not set yet. */
  ghost predicate Chained(kids: seq<Node>, head: Node?, last: Node?)
    reads kids`next, kids`prev
  {
    && (kids == [] ==> head == null && last == null)
    && (kids != [] ==> head == kids[0] && last == kids[|kids| - 1])
    && NextChain(kids)
    && (forall i :: 0 < i < |kids| ==> kids[i].prev == kids[i - 1])
  }

  /** The items of a list under construction: each whole, together owning exactly `mem`. */
  ghost predicate Grown(kids: seq<Node>, mem: set<object>)
    reads kids, mem
  {
    && Partition(kids, mem)
    && (forall i :: 0 <= i < |kids| ==> kids[i] in kids[i].repr && kids[i].repr <= mem && kids[i].Valid())
  }

  lemma GrownAppend(kids: seq<Node>, mem: set<object>, item: Node)
    requires Grown(kids, mem) && item.Valid() && item.repr !! mem
    ensures Grown(kids + [item], mem + item.repr)
  {
    OwnRepr(item);
    hide Node.Valid, Partition;
    PartitionAppend(kids, mem, item);
    var all := kids + [item];
    forall i | 0 <= i < |all| ensures all[i] in all[i].repr && all[i].repr <= mem + item.repr && all[i].Valid() {
      assert all[i] == if i < |kids| then kids[i] else item;
    }
  }

  lemma OwnRepr(item: Node)
    requires item.Valid()
    ensures item in item.repr
  {
  }

  /** `suffix_object`, on the last item of a list: the items themselves do not notice. */
  method SuffixObject(prev: Node, item: Node, ghost kids: seq<Node>, ghost mem: set<object>)
    requires Grown(kids, mem) && kids != [] && Chained(kids, kids[0], prev) && item !in mem && item.next == null
    modifies prev`next, item`prev
    ensures Grown(kids, mem) && Chained(kids + [item], kids[0], item)
  {
    hide Node.Valid, Partition, Chained, NextChain;
    GrownInside(kids, mem);
    ChainedEnd(kids, prev);
    PartitionMembers(kids, mem);
    LinkEnd(prev, item, kids);
  }

  lemma ChainedEnd(kids: seq<Node>, last: Node)
    requires kids != [] && Chained(kids, kids[0], last)
    ensures last == kids[|kids| - 1]
  {
  }

  method LinkEnd(prev: Node, item: Node, ghost kids: seq<Node>)
    requires kids != [] && Chained(kids, kids[0], prev) && item !in kids && item.next == null
    modifies prev`next, item`prev
    ensures Chained(kids + [item], kids[0], item)
  {
    prev.next := item;
    item.prev := prev;
    ghost var all := kids + [item];
    assert all[|kids|] == item;
    assert forall i :: 0 <= i < |kids| ==> all[i] == kids[i];
  }

  lemma ChainedOne(item: Node)
    requires item.next == null
    ensures Chained([item], item, item)
  {
  }

  lemma ChainedNone(kids: seq<Node>, head: Node?, last: Node?)
    requires Chained(kids, head, last)
    ensures head == null <==> kids == []
    ensures head != null ==> head == kids[0] && last == kids[|kids| - 1]
  {
    hide NextChain;
  }

  /** Links a new item behind the last one, or as the first. */
  method Attach(item: Node, head: Node?, last: Node?, ghost kids: seq<Node>, ghost mem: set<object>)
    returns (head': Node)
    requires Chained(kids, head, last) && Grown(kids, mem) && item.Valid() && item.repr !! mem && item.next == null
    modifies kids`next, item`prev
    ensures Grown(kids, mem) && item.Valid() && Chained(kids + [item], head', item)
  {
    hide Node.Valid, Grown, Chained;
    ChainedNone(kids, head, last);
    OwnRepr(item);
    if head == null {
      head' := item;
      ChainedOne(item);
      assert kids + [item] == [item];
    } else {
      head' := head;
      GrownInside(kids, mem);
      SuffixObject(last, item, kids, mem);
    }
  }

  /** Allocates the next item of a list and links it behind the last one. */
  method AttachNew(alloc: Allocator, head: Node?, last: Node?, ghost kids: seq<Node>, ghost mem: set<object>)
    returns (item: Node?, head': Node?)
    requires alloc.Valid() && Chained(kids, head, last) && Grown(kids, mem) && mem <= alloc.live
    modifies alloc, kids`next
    ensures alloc.Valid() && Grown(kids, mem)
    ensures item == null ==>
      head' == head && alloc.live == old(alloc.live) && alloc.failures > old(alloc.failures) && Chained(kids, head, last)
    ensures item != null ==>
      && fresh(item) && alloc.live == old(alloc.live) + {item} && alloc.failures == old(alloc.failures)
      && item.Valid() && item.Blank() && item.name == null && item.repr == {item}
      && Chained(kids + [item], head', item)
  {
    hide Node.Valid, Grown, Node.Blank, Chained;
    item := alloc.NewNode();
    head' := head;
    if item != null {
      head' := Attach(item, head, last, kids, mem);
    }
  }

  ghost function NamesOf(kids: seq<Node>): set<array<char>>
    reads kids`name
  {
    set k | k in kids && k.name != null :: k.name
  }

  lemma NamesAreStrings(kids: seq<Node>)
    ensures forall a :: a in NamesOf(kids) ==> !((a as object) is Node) && !((a as object) is Allocator)
  {
  }

  /** The names and documents of the items of an object. */
  ghost predicate Named(kids: seq<Node>, members: seq<Member>)
    reads kids`kind, kids`name, kids`model, NamesOf(kids)
  {
    && |kids| == |members|
    && forall i :: 0 <= i < |kids| ==>
         kids[i].kind != Invalid && kids[i].name != null && members[i] == Member(CStr(kids[i].name), kids[i].model)
  }

  ghost predicate ListFits(kids: seq<Node>, k: Kind, v: Json)
    reads kids`kind, kids`name, kids`model, NamesOf(kids)
  {
    (k == IsArray && v.Array? && Modelled(kids, v.items)) || (k == IsObject && v.Object? && Named(kids, v.members))
  }

  /** Closes the list under construction by pointing the head's prev at the tail. */
  method CloseList(head: Node?, last: Node?, ghost kids: seq<Node>, ghost mem: set<object>, ghost k: Kind,
                   ghost v: Json)
    requires Chained(kids, head, last) && Grown(kids, mem) && ListFits(kids, k, v)
    modifies kids`prev
    ensures Linked(kids, head) && Grown(kids, mem) && ListFits(kids, k, v)
  {
    hide Node.Valid, Partition, NextChain;
    PartitionMembers(kids, mem);
    if head != null {
      head.prev := last;
    }
  }

  /** Makes a blank item the array or object that owns a finished list. */
  method Adopt(item: Node, k: Kind, head: Node?, last: Node?, ghost kids: seq<Node>, ghost mem: set<object>,
               ghost v: Json)
    requires item.Valid() && item.Blank() && Chained(kids, head, last) && Grown(kids, mem) && item.repr !! mem
    requires ListFits(kids, k, v)
    modifies kids`prev
    modifies item`kind, item`child, item`kids, item`repr, item`below, item`model
    ensures item.Valid() && item.kind == k && item.model == v && item.repr == old(item.repr) + mem
  {
    hide Partition, Linked, Chained, NextChain, Node.Valid, Grown, ListFits;
    GrownInside(kids, mem);
    CloseList(head, last, kids, mem, k, v);
    OwnList(item, k, head, kids, mem, v);
  }

  method OwnList(item: Node, k: Kind, head: Node?, ghost kids: seq<Node>, ghost mem: set<object>, ghost v: Json)
    requires item.Valid() && item.Blank() && Linked(kids, head) && Grown(kids, mem) && item.repr !! mem
    requires ListFits(kids, k, v)
    modifies item`kind, item`child, item`kids, item`repr, item`below, item`model
    ensures item.Valid() && item.kind == k && item.model == v && item.repr == old(item.repr) + mem
  {
    hide Partition, Linked, NextChain, Node.Valid, Grown;
    GrownInside(kids, mem);
    BlankParts(item);
    item.kind, item.child := k, head;
    item.kids, item.repr, item.below, item.model := kids, item.repr + mem, mem, v;
    Adopted(item);
  }

  lemma BlankParts(item: Node)
    requires item.Valid() && item.Blank()
    ensures item.repr == {item} + item.Strings()
    ensures item.name != null ==> NUL in item.name[..]
  {
    PartitionNone(item.below);
  }

  lemma Adopted(item: Node)
    requires Linked(item.kids, item.child) && Grown(item.kids, item.below)
    requires item !in item.below && item.repr == {item} + item.Strings() + item.below && item.Strings() !! item.below
    requires item.valuestring == null && (item.name != null ==> NUL in item.name[..])
    requires ListFits(item.kids, item.kind, item.model)
    ensures item.Valid()
  {
    hide Partition, Linked, NextChain;
  }

  lemma NothingGrown()
    ensures Grown([], {}) && Chained([], null, null) && Modelled([], []) && Named([], [])
  {
  }

  /** The items stand for these documents. */
  ghost predicate Modelled(kids: seq<Node>, models: seq<Json>)
    reads kids`kind, kids`model
  {
    |kids| == |models| && forall i :: 0 <= i < |kids| ==> kids[i].kind != Invalid && kids[i].model == models[i]
  }

  lemma ModelledAppend(kids: seq<Node>, models: seq<Json>, item: Node)
    requires Modelled(kids, models) && item.kind != Invalid
    ensures Modelled(kids + [item], models + [item.model])
  {
  }

  lemma GrownInside(kids: seq<Node>, mem: set<object>)
    requires Grown(kids, mem)
    ensures forall i :: 0 <= i < |kids| ==> kids[i] in mem
  {
    hide Node.Valid, Partition;
  }

  lemma NamedAppend(kids: seq<Node>, members: seq<Member>, item: Node)
    requires Named(kids, members) && item.name != null && item.kind != Invalid
    ensures Named(kids + [item], members + [Member(CStr(item.name), item.model)])
  {
  }

  lemma FitsObject(kids: seq<Node>, members: seq<Member>)
    requires Named(kids, members)
    ensures ListFits(kids, IsObject, Object(members))
  {
  }

  lemma FitsArray(kids: seq<Node>, models: seq<Json>)
    requires Modelled(kids, models)
    ensures ListFits(kids, IsArray, Array(models))
  {
  }

  lemma StringKind(item: Node)
    requires item.Valid() && item.kind != Invalid && item.model.String?
    ensures item.kind == IsString
  {
    hide Partition, Linked;
  }

  lemma OwnName(item: Node)
    requires item.Valid()
    ensures (item.name != null ==> item.name in item.repr) && item in item.repr
  {
    hide Partition, Linked;
  }

  /** Frees a document that is in no list. */
  method DeleteRoot(root: Node, alloc: Allocator)
    requires alloc.Valid() && root.Valid() && root.next == null && root.repr <= alloc.live
    modifies alloc`live
    ensures alloc.Valid() && alloc.live == old(alloc.live) - root.repr
  {
    hide Node.Valid, Partition;
    NothingGrown();
    GrownAppend([], {}, root);
    assert [] + [root] == [root] && {} + root.repr == root.repr;
    alloc.Delete(root, [root], root.repr);
  }

  /** A child of a valid item, and the link behind it. */
  lemma KidAt(n: Node, i: nat)
    requires n.Valid()
    ensures i < |n.kids| ==>
      && n.kids[i].Valid() && n.kids[i].repr <= n.repr && n.kids[i] in n.repr && n !in n.kids[i].repr && n in n.repr
      && n.kids[i].next == if i + 1 < |n.kids| then n.kids[i + 1] else null
  {
    hide Partition, Node.ModelFits;
  }

  lemma KidDocument(n: Node, i: nat)
    requires n.Valid()
    ensures i < |n.kids| ==>
      && n.kids[i].kind != Invalid
      && (n.kind == IsArray ==> |n.model.items| == |n.kids| && n.kids[i].model == n.model.items[i])
      && (n.kind == IsObject ==>
            && |n.model.members| == |n.kids|
            && n.kids[i].name != null && n.kids[i].name in n.repr && NUL in n.kids[i].name[..]
            && n.model.members[i] == Member(CStr(n.kids[i].name), n.kids[i].model))
  {
    hide Partition, Linked;
  }

  lemma Documents(n: Node)
    requires n.Valid()
    ensures n.kind == IsArray ==> n.model.Array? && |n.model.items| == |n.kids|
    ensures n.kind == IsObject ==> n.model.Object? && |n.model.members| == |n.kids|
    ensures n.child == if n.kids == [] then null else n.kids[0]
  {
    hide Partition, NextChain;
  }

  /** The document of an item that has no children. */
  lemma ItemDocument(item: Node)
    requires item.Valid()
    ensures item.kind == IsNull ==> item.model == Null
    ensures item.kind == IsFalse ==> item.model == Bool(false)
    ensures item.kind == IsTrue ==> item.model == Bool(true)
    ensures item.kind == IsNumber ==> item.model == Number(item.number)
    ensures item.kind == IsString ==>
      && item.valuestring != null && item.valuestring in item.repr && NUL in item.valuestring[..]
      && item.model == String(CStr(item.valuestring))
  {
    hide Partition, Linked;
  }
}
