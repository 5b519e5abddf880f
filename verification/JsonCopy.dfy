/** Building whole lists: arrays of integers and deep copies. */
module JsonCopy {
  import opened Text
  import opened JsonValue
  import opened JsonNode
  import opened JsonList
  import opened JsonEdit

  /** `cJSON_strdup` */
  method StrDup(a: array<char>, alloc: Allocator) returns (b: array?<char>)
    requires alloc.Valid() && NUL in a[..]
    modifies alloc
    ensures alloc.Valid()
    ensures b == null ==> alloc.live == old(alloc.live) && alloc.failures > old(alloc.failures)
    ensures b != null ==>
      && fresh(b) && alloc.live == old(alloc.live) + {b} && alloc.failures == old(alloc.failures)
      && NUL in b[..] && CStr(b) == CStr(a)
  {
    var n := IndexOf(a[..], NUL, 0);
    b := alloc.NewBytes(n + 1);
    if b != null {
      var i := 0;
      while i < n + 1
        invariant 0 <= i <= n + 1
        invariant b[..i] == a[..i]
        modifies b
      {
        b[i] := a[i];
        i := i + 1;
      }
      SameString(a[..], b[..], n);
    }
  }

  lemma SameString(a: string, b: string, n: nat)
    requires n < |a| && a[n] == NUL && b == a[..n + 1]
    ensures NUL in b && CString(a) == CString(b)
  {
    assert b[n] == NUL;
    var i, j := IndexOf(a, NUL, 0), IndexOf(b, NUL, 0);
    assert b[..j] == a[..j];
    assert a[j] == b[j];
    assert b[i] == a[i];
  }

  // ---- arrays of integers -----------------------------------------------------------------------

  /** `cJSON_CreateIntArray`: nothing for a null vector or a negative count. */
  method CreateIntArray(numbers: array?<int>, count: int, alloc: Allocator) returns (a: Node?)
    requires alloc.Valid() && (numbers != null ==> count <= numbers.Length)
    modifies alloc
    ensures alloc.Valid()
    ensures a == null ==>
      && alloc.live == old(alloc.live)
      && (numbers == null || count < 0 || alloc.failures > old(alloc.failures))
    ensures a != null ==>
      && numbers != null && count >= 0 && a.Valid() && fresh(a.repr) && alloc.live == old(alloc.live) + a.repr
      && alloc.failures == old(alloc.failures) && a.kind == IsArray && a.model == Array(Numbers(numbers[..count]))
  {
    if count < 0 || numbers == null {
      return null;
    }
    a := IntArray(numbers[..count], alloc);
  }

  method IntArray(numbers: seq<int>, alloc: Allocator) returns (a: Node?)
    requires alloc.Valid()
    modifies alloc
    ensures alloc.Valid()
    ensures a == null ==> alloc.live == old(alloc.live) && alloc.failures > old(alloc.failures)
    ensures a != null ==>
      && a.Valid() && fresh(a.repr) && alloc.live == old(alloc.live) + a.repr && alloc.failures == old(alloc.failures)
      && a.kind == IsArray && a.model == Array(Numbers(numbers))
  {
    hide Node.Valid, Grown, Chained, Modelled, ListFits, Node.Blank, Numbers;
    a := alloc.NewNode();
    if a == null {
      return;
    }
    var ok, head, last;
    ghost var kids, mem;
    ok, head, last, kids, mem := NumberList(numbers, alloc);
    if !ok {
      GiveUp(a, head, last, kids, mem, alloc);
      return null;
    }
    FitsArray(kids, Numbers(numbers));
    Adopt(a, IsArray, head, last, kids, mem, Array(Numbers(numbers)));
  }

  /** The loop of `cJSON_CreateIntArray`; on failure the items made so far are left for the caller. */
  method NumberList(numbers: seq<int>, alloc: Allocator)
    returns (ok: bool, head: Node?, last: Node?, ghost kids: seq<Node>, ghost mem: set<object>)
    requires alloc.Valid()
    modifies alloc
    ensures alloc.Valid() && Chained(kids, head, last) && Grown(kids, mem) && fresh(mem) && fresh(kids)
    ensures alloc.live == old(alloc.live) + mem && (!ok ==> alloc.failures > old(alloc.failures))
    ensures ok ==> Modelled(kids, Numbers(numbers)) && alloc.failures == old(alloc.failures)
  {
    hide Node.Valid, Grown, Chained, Modelled, Node.Blank, Numbers;
    head, last, kids, mem := null, null, [], {};
    NothingGrown();
    NumbersNone();
    var i := 0;
    while i < |numbers|
      invariant 0 <= i <= |numbers|
      invariant alloc.Valid() && Chained(kids, head, last) && Grown(kids, mem) && Modelled(kids, Numbers(numbers[..i]))
      invariant fresh(mem) && fresh(kids) && alloc.live == old(alloc.live) + mem && alloc.failures == old(alloc.failures)
    {
      ok, head, last, kids, mem := AddNumber(numbers, i, alloc, head, last, kids, mem);
      if !ok {
        return;
      }
      i := i + 1;
    }
    ok := true;
    assert numbers[..|numbers|] == numbers;
  }

  method AddNumber(numbers: seq<int>, i: nat, alloc: Allocator, head: Node?, last: Node?, ghost kids: seq<Node>,
                   ghost mem: set<object>)
    returns (ok: bool, head': Node?, last': Node?, ghost kids': seq<Node>, ghost mem': set<object>)
    requires i < |numbers| && alloc.Valid() && Chained(kids, head, last) && Grown(kids, mem) && mem <= alloc.live
    requires Modelled(kids, Numbers(numbers[..i]))
    modifies alloc, kids`next
    ensures alloc.Valid() && Chained(kids', head', last') && Grown(kids', mem')
    ensures mem <= mem' && fresh(mem' - mem) && alloc.live == old(alloc.live) + mem'
    ensures !ok ==> kids' == kids && mem' == mem && alloc.failures > old(alloc.failures)
    ensures ok ==> |kids'| == |kids| + 1 && kids' == kids + [kids'[|kids|]] && fresh(kids'[|kids|])
    ensures ok ==> Modelled(kids', Numbers(numbers[..i + 1])) && alloc.failures == old(alloc.failures)
  {
    hide Node.Valid, Grown, Chained, Modelled, Numbers;
    head', last', kids', mem' := head, last, kids, mem;
    var n := alloc.NewNode();
    ok := n != null;
    if ok {
      GrownInside(kids, mem);
      n.SetScalar(IsNumber, numbers[i]);
      head' := Attach(n, head, last, kids, mem);
      GrownAppend(kids, mem, n);
      ModelledAppend(kids, Numbers(numbers[..i]), n);
      NumbersNext(numbers, i);
      kids', mem', last' := kids + [n], mem + n.repr, n;
    }
  }

  function Numbers(ns: seq<int>): (r: seq<Json>)
    ensures |r| == |ns| && forall i :: 0 <= i < |ns| ==> r[i] == Number(ns[i])
  {
    seq(|ns|, i requires 0 <= i < |ns| => Number(ns[i]))
  }

  lemma NumbersNone()
    ensures Numbers([]) == []
  {
  }

  lemma NumbersNext(ns: seq<int>, i: nat)
    requires i < |ns|
    ensures Numbers(ns[..i + 1]) == Numbers(ns[..i]) + [Number(ns[i])]
  {
  }

  /** `cJSON_Delete` on an item together with the list it was going to own. */
  method GiveUp(item: Node, head: Node?, last: Node?, ghost kids: seq<Node>, ghost mem: set<object>, alloc: Allocator)
    requires alloc.Valid() && item.Valid() && item.next == null && item.repr !! mem
    requires Chained(kids, head, last) && Grown(kids, mem) && item.repr <= alloc.live && mem <= alloc.live
    modifies alloc`live
    ensures alloc.Valid() && alloc.live == old(alloc.live) - mem - item.repr
  {
    hide Node.Valid, Partition, NextChain;
    if head != null {
      alloc.Delete(head, kids, mem);
    } else {
      PartitionNone(mem);
    }
    DeleteRoot(item, alloc);
  }

  // ---- deep copies -----------------------------------------------------------------------------------

  /** Copies a string if there is one. */
  method StrDupOpt(a: array?<char>, alloc: Allocator) returns (ok: bool, b: array?<char>)
    requires alloc.Valid() && (a != null ==> NUL in a[..])
    modifies alloc
    ensures alloc.Valid() && (b != null ==> a != null && ok)
    ensures !ok ==> alloc.live == old(alloc.live) && alloc.failures > old(alloc.failures)
    ensures ok ==> alloc.failures == old(alloc.failures) && (a == null <==> b == null)
    ensures ok ==> alloc.live == old(alloc.live) + (if b == null then {} else {b})
    ensures b != null ==> fresh(b) && NUL in b[..] && CStr(b) == CStr(a)
  {
    if a == null {
      return true, null;
    }
    b := StrDup(a, alloc);
    ok := b != null;
  }

  /** What a copy shares with its original, besides the document: the strings. */
  ghost predicate SameText(a: array?<char>, b: array?<char>)
    reads if a == null then {} else {a}, if b == null then {} else {b}
  {
    if a == null || b == null then a == b else CStr(a) == CStr(b)
  }

  /** The first part of `cJSON_Duplicate`: everything but the children. */
  method CopyItem(item: Node, alloc: Allocator) returns (copy: Node?)
    requires alloc.Valid() && item.Valid() && alloc !in item.repr
    modifies alloc
    ensures alloc.Valid()
    ensures copy == null ==> alloc.live == old(alloc.live) && alloc.failures > old(alloc.failures)
    ensures copy != null ==>
      && copy.Valid() && fresh(copy.repr) && alloc.live == old(alloc.live) + copy.repr
      && alloc.failures == old(alloc.failures)
      && copy.kind == item.kind && copy.number == item.number
      && copy.kids == [] && copy.next == null && copy.prev == null
      && SameText(item.name, copy.name) && SameText(item.valuestring, copy.valuestring)
      && copy.model == (if item.kind == IsString then item.model else Scalar(item.kind, item.number))
  {
    hide Node.Valid, CStr, Scalar;
    copy := alloc.NewNode();
    if copy == null {
      return;
    }
    ItemStrings(item);
    var ok := CopyStrings(item, copy, alloc);
    if ok {
      copy.SetKind(item.kind, item.number);
    } else {
      DeleteRoot(copy, alloc);
      copy := null;
    }
  }

  method CopyStrings(item: Node, copy: Node, alloc: Allocator) returns (ok: bool)
    requires alloc.Valid() && (item.valuestring != null ==> NUL in item.valuestring[..])
    requires item.name != null ==> NUL in item.name[..]
    requires copy.Valid() && copy.kind == Invalid && copy.valuestring == null
    requires copy.name == null && copy.repr <= alloc.live
    modifies alloc, copy`valuestring, copy`name, copy`repr
    ensures alloc.Valid() && copy.Valid() && copy.repr <= alloc.live && alloc.live == old(alloc.live) + copy.repr
    ensures old(copy.repr) <= copy.repr && fresh(copy.repr - old(copy.repr))
    ensures if ok then
        && SameText(item.valuestring, copy.valuestring) && SameText(item.name, copy.name)
        && alloc.failures == old(alloc.failures)
      else alloc.failures > old(alloc.failures)
  {
    hide Node.Valid, CStr;
    ok := CopyValue(item, copy, alloc);
    if ok {
      ok := CopyName(item, copy, alloc);
    }
  }

  method CopyValue(item: Node, copy: Node, alloc: Allocator) returns (ok: bool)
    requires alloc.Valid() && (item.valuestring != null ==> NUL in item.valuestring[..])
    requires copy.Valid() && copy.kind == Invalid && copy.valuestring == null && copy.repr <= alloc.live
    modifies alloc, copy`valuestring, copy`repr
    ensures alloc.Valid() && copy.Valid() && copy.repr <= alloc.live && alloc.live == old(alloc.live) + copy.repr
    ensures old(copy.repr) <= copy.repr && fresh(copy.repr - old(copy.repr))
    ensures if ok then SameText(item.valuestring, copy.valuestring) && alloc.failures == old(alloc.failures)
      else alloc.failures > old(alloc.failures)
  {
    hide Node.Valid;
    var value;
    ok, value := StrDupOpt(item.valuestring, alloc);
    if value != null {
      copy.TakeValue(value);
    }
  }

  method CopyName(item: Node, copy: Node, alloc: Allocator) returns (ok: bool)
    requires alloc.Valid() && (item.name != null ==> NUL in item.name[..])
    requires copy.Valid() && copy.kind == Invalid && copy.name == null && copy.repr <= alloc.live
    modifies alloc, copy`name, copy`repr
    ensures alloc.Valid() && copy.Valid() && copy.repr <= alloc.live && alloc.live == old(alloc.live) + copy.repr
    ensures old(copy.repr) <= copy.repr && fresh(copy.repr - old(copy.repr))
    ensures if ok then SameText(item.name, copy.name) && alloc.failures == old(alloc.failures)
      else alloc.failures > old(alloc.failures)
  {
    hide Node.Valid;
    var name;
    ok, name := StrDupOpt(item.name, alloc);
    if name != null {
      copy.GiveName(name);
    }
  }

  lemma ItemStrings(item: Node)
    requires item.Valid()
    ensures item.valuestring != null ==> NUL in item.valuestring[..] && item.valuestring in item.repr
    ensures item.name != null ==> NUL in item.name[..] && item.name in item.repr
    ensures item.kind == IsString ==> item.valuestring != null && item.model == String(CStr(item.valuestring))
    ensures item in item.repr
  {
    hide Partition, Linked;
  }

  /** `cJSON_Duplicate`: memory of its own, the same document, the same name. */
  method Duplicate(item: Node, recurse: bool, alloc: Allocator) returns (copy: Node?)
    requires alloc.Valid() && item.Valid() && item.repr <= alloc.live
    modifies alloc
    ensures alloc.Valid()
    ensures copy == null ==> alloc.live == old(alloc.live) && alloc.failures > old(alloc.failures)
    ensures copy != null ==>
      && copy.Valid() && fresh(copy.repr) && alloc.live == old(alloc.live) + copy.repr
      && alloc.failures == old(alloc.failures)
      && copy.kind == item.kind && copy.next == null && copy.prev == null && SameText(item.name, copy.name)
      && copy.model == (if recurse then item.model else Childless(item.model))
    decreases item.repr, 2
  {
    hide Node.Valid, CStr, Childless;
    OwnRepr(item);
    copy := CopyItem(item, alloc);
    if copy == null {
      return;
    }
    CopiedModel(item);
    if recurse && item.child != null {
      OwnRepr(copy);
      var ok := CopyList(item, copy, alloc);
      if !ok {
        copy := null;
      }
    }
  }

  /** The document without what its children stand for. */
  function Childless(v: Json): Json {
    match v
    case Array(_) => Array([])
    case Object(_) => Object([])
    case _ => v
  }

  lemma CopiedModel(item: Node)
    requires item.Valid()
    ensures Childless(item.model) == if item.kind == IsString then item.model else Scalar(item.kind, item.number)
    ensures if item.child == null then Childless(item.model) == item.model else IsList(item)
  {
    hide Partition, NextChain;
    if item.child == null {
      assert item.kids == [];
      if item.kind == IsArray {
        assert item.model.items == [];
      } else if item.kind == IsObject {
        assert item.model.members == [];
      }
    }
  }

  /** The part of an array's or object's document that its first children stand for. */
  function Front(v: Json, j: nat): Json
    requires (v.Array? || v.Object?) && j <= Size(v)
  {
    match v
    case Array(items) => Array(items[..j])
    case Object(members) => Object(members[..j])
  }

  /** One more child copied. */
  lemma FrontNext(n: Node, j: nat, copies: seq<Node>, copy: Node)
    requires ListFits(n.kids, n.kind, n.model) && j < |n.kids| == Size(n.model) && |copies| == j
    requires ListFits(copies, n.kind, Front(n.model, j)) && copy.model == n.kids[j].model && copy.kind == n.kids[j].kind
    requires SameText(n.kids[j].name, copy.name)
    ensures ListFits(copies + [copy], n.kind, Front(n.model, j + 1))
  {
    var all := copies + [copy];
    assert all[j] == copy;
    assert forall i :: 0 <= i < j ==> all[i] == copies[i];
  }

  /** Copies one child and links the copy behind the others. */
  method CopyChild(child: Node, alloc: Allocator, head: Node?, last: Node?, ghost kids: seq<Node>,
                   ghost mem: set<object>)
    returns (copy: Node?, head': Node?)
    requires alloc.Valid() && child.Valid() && child.repr <= alloc.live
    requires Chained(kids, head, last) && Grown(kids, mem) && mem <= alloc.live
    modifies alloc, kids`next
    ensures alloc.Valid() && Grown(kids, mem)
    ensures copy == null ==>
      head' == head && alloc.live == old(alloc.live) && alloc.failures > old(alloc.failures) && Chained(kids, head, last)
    ensures copy != null ==>
      && copy.Valid() && fresh(copy.repr) && copy in copy.repr
      && copy.repr !! mem && alloc.live == old(alloc.live) + copy.repr
      && alloc.failures == old(alloc.failures) && SameText(child.name, copy.name)
      && copy.model == child.model && copy.kind == child.kind
      && Chained(kids + [copy], head', copy)
    decreases child.repr, 3
  {
    hide Node.Valid, Grown, Chained, SameText;
    head' := head;
    copy := Duplicate(child, true, alloc);
    if copy != null {
      OwnRepr(copy);
      GrownInside(kids, mem);
      head' := Attach(copy, head, last, kids, mem);
    }
  }

  /** The loop of `cJSON_Duplicate`; on failure the copies made so far are left for the caller. */
  method CopyKids(item: Node, alloc: Allocator)
    returns (ok: bool, head: Node?, last: Node?, ghost kids: seq<Node>, ghost mem: set<object>)
    requires alloc.Valid() && item.Valid() && item.repr <= alloc.live && IsList(item)
    modifies alloc
    ensures alloc.Valid() && Chained(kids, head, last) && Grown(kids, mem) && fresh(mem) && fresh(kids)
    ensures alloc.live == old(alloc.live) + mem && (!ok ==> alloc.failures > old(alloc.failures))
    ensures ok ==> ListFits(kids, item.kind, item.model) && alloc.failures == old(alloc.failures)
    decreases item.repr, 0
  {
    hide Node.Valid, Grown, Chained, ListFits, Front, SameText, Linked, After;
    head, last, kids, mem := null, null, [], {};
    NothingGrown();
    ListSize(item);
    FrontNone(item);
    FrontAll(item.model);
    var child := item.child;
    ghost var j := 0;
    ghost var n := |item.kids|;
    ok := true;
    while child != null
      invariant j == |kids| <= n == |item.kids| == Size(item.model) && child == (if j < n then item.kids[j] else null)
      invariant alloc.Valid() && item.Valid() && Chained(kids, head, last) && Grown(kids, mem)
      invariant ListFits(kids, item.kind, Front(item.model, j)) && fresh(mem) && fresh(kids)
      invariant alloc.live == old(alloc.live) + mem && alloc.failures == old(alloc.failures)
      decreases n - j
    {
      KidAt(item, j);
      NamesAreStrings(kids);
      var copy;
      copy, head := CopyChild(child, alloc, head, last, kids, mem);
      if copy == null {
        return false, head, last, kids, mem;
      }
      GrownAppend(kids, mem, copy);
      ListSize(item);
      FrontNext(item, j, kids, copy);
      kids, mem, last := kids + [copy], mem + copy.repr, copy;
      KidAt(item, j);
      child := child.next;
      j := j + 1;
    }
  }

  lemma ListSize(n: Node)
    requires n.Valid() && IsList(n)
    ensures (n.model.Array? || n.model.Object?) && Size(n.model) == |n.kids| && ListFits(n.kids, n.kind, n.model)
    ensures n.child == if n.kids == [] then null else n.kids[0]
    ensures if n.kind == IsArray then n.model.Array? else n.model.Object?
  {
    ListHolding(n);
    hide Node.Valid, Grown, NextChain;
    FitsSize(n.kids, n.kind, n.model);
  }

  lemma FrontNone(n: Node)
    requires (n.model.Array? && n.kind == IsArray) || (n.model.Object? && n.kind == IsObject)
    ensures ListFits([], n.kind, Front(n.model, 0))
  {
  }

  lemma FrontAll(v: Json)
    requires v.Array? || v.Object?
    ensures Front(v, Size(v)) == v
  {
    if v.Array? {
      assert v.items[..|v.items|] == v.items;
    } else {
      assert v.members[..|v.members|] == v.members;
    }
  }

  /** Gives a copy that has no children yet copies of the original's children. */
  method CopyList(item: Node, copy: Node, alloc: Allocator) returns (ok: bool)
    requires alloc.Valid() && item.Valid() && item.repr <= alloc.live && IsList(item)
    requires copy.Valid() && copy.repr <= alloc.live && copy !in item.repr
    requires copy.kind == item.kind && copy.kids == [] && copy.next == null
    modifies alloc, copy`child, copy`kids, copy`repr, copy`below, copy`model
    ensures alloc.Valid() && (copy.next == null) && (ok ==> copy.Valid())
    ensures !ok ==> alloc.live == old(alloc.live) - old(copy.repr) && alloc.failures > old(alloc.failures)
    ensures ok ==>
      && old(copy.repr) <= copy.repr && fresh(copy.repr - old(copy.repr))
      && alloc.live == old(alloc.live) + copy.repr && alloc.failures == old(alloc.failures) && copy.model == item.model
    decreases item.repr, 1
  {
    hide Node.Valid, Grown, Chained, ListFits, Holding;
    var head, last;
    ghost var kids, mem;
    ok, head, last, kids, mem := CopyKids(item, alloc);
    if !ok {
      GiveUp(copy, head, last, kids, mem, alloc);
      return;
    }
    FillList(copy, head, last, kids, mem, item.model);
  }

  /** Closes a finished list and hands it to an array or object without children. */
  method FillList(n: Node, head: Node?, last: Node?, ghost kids: seq<Node>, ghost mem: set<object>, ghost v: Json)
    requires n.Valid() && IsList(n) && n.kids == [] && n.repr !! mem
    requires Chained(kids, head, last) && Grown(kids, mem) && ListFits(kids, n.kind, v)
    modifies kids`prev, n`child, n`kids, n`repr, n`below, n`model
    ensures n.Valid() && n.model == v && n.repr == old(n.repr) + mem
  {
    hide Node.Valid, Grown, Chained, Linked, Dressed, ListFits;
    ListHolding(n);
    ListStrings(n);
    ListDressed(n, kids, v);
    HangList(n, head, last, kids, mem, v);
    Settle(n, kids, mem, v);
  }

  method HangList(n: Node, head: Node?, last: Node?, ghost kids: seq<Node>, ghost mem: set<object>, ghost v: Json)
    requires Chained(kids, head, last) && Grown(kids, mem) && n !in mem
    requires ListFits(kids, n.kind, v) && Dressed(n, kids, v)
    modifies kids`prev, n`child
    ensures Linked(kids, n.child) && Grown(kids, mem) && Dressed(n, kids, v)
  {
    hide Node.Valid, Grown, Chained, Linked, Dressed, ListFits;
    GrownInside(kids, mem);
    TextsAreNoNodes(n, kids);
    CloseList(head, last, kids, mem, n.kind, v);
    n.child := head;
  }

  lemma ListStrings(n: Node)
    requires n.Valid() && n.kids == []
    ensures n.below == {}
  {
    hide Linked;
  }

  lemma ListDressed(n: Node, kids: seq<Node>, v: Json)
    requires n.Valid() && IsList(n) && ListFits(kids, n.kind, v)
    ensures Dressed(n, kids, v)
  {
    hide Partition, Linked, ListFits;
  }
}
