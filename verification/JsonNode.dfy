/** Documents in memory: nodes linked by next, prev and child, the byte strings they own, and the
    allocator that hands both out. */
module JsonNode {
  import opened Text
  import opened JsonValue

  datatype Kind = Invalid | IsFalse | IsTrue | IsNull | IsNumber | IsString | IsArray | IsObject

  /** What readers of a C string see. */
  ghost function CStr(a: array<char>): string
    reads a
  {
    CString(a[..])
  }

  /** The list a parent's child pointer heads: next and prev agree, the head's prev is the tail. */
  ghost predicate Linked(kids: seq<Node>, child: Node?)
    reads kids
  {
    && (kids == [] ==> child == null)
    && (kids != [] ==> child == kids[0] && kids[0].prev == kids[|kids| - 1])
    && NextChain(kids)
    && (forall i :: 0 < i < |kids| ==> kids[i].prev == kids[i - 1])
  }

  ghost function After(kids: seq<Node>, i: nat): Node? {
    if i + 1 < |kids| then kids[i + 1] else null
  }

  /** next runs through the nodes in order and ends in null. */
  ghost predicate NextChain(kids: seq<Node>)
    reads kids`next
  {
    && (forall i, j :: 0 <= i < j < |kids| ==> kids[i] != kids[j])
    && (forall i :: 0 <= i < |kids| ==> kids[i].next == After(kids, i))
  }

  /** The memory `mem` is exactly what the nodes own, and no two of them share any. */
  ghost predicate Partition(nodes: seq<Node>, mem: set<object>)
    reads nodes`repr
    decreases |nodes|
  {
    if nodes == [] then mem == {}
    else
      var last := nodes[|nodes| - 1];
      last.repr <= mem && Partition(nodes[..|nodes| - 1], mem - last.repr)
  }

  /** A cJSON item. `kids` is the list its child pointer heads, `repr` the memory it owns, `below`
      the part of it that its kids own, and `model` the document it stands for. */
  class Node {
    var next: Node?
    var prev: Node?
    var child: Node?
    var kind: Kind
    var valuestring: array?<char>
    var number: int
    var name: array?<char>
    ghost var kids: seq<Node>
    ghost var repr: set<object>
    ghost var below: set<object>
    ghost var model: Json

    constructor ()
      ensures next == null && prev == null && Blank() && name == null && repr == {this}
      ensures Valid()
    {
      next, prev, child := null, null, null;
      kind, valuestring, number, name := Invalid, null, 0, null;
      kids, repr, below, model := [], {this}, {}, Null;
    }

    /** As a constructor leaves it, except perhaps for the name. */
    ghost predicate Blank()
      reads this`kind, this`child, this`valuestring, this`kids
    {
      kind == Invalid && child == null && valuestring == null && kids == []
    }

    /** Makes a blank item a null, a boolean or a number. */
    method SetScalar(k: Kind, n: int)
      requires Valid() && Blank() && (k == IsNull || k == IsFalse || k == IsTrue || k == IsNumber)
      modifies this`kind, this`number, this`model
      ensures Valid() && kind == k && model == Scalar(k, n)
    {
      kind, number, model := k, n, Scalar(k, n);
    }

    /** Makes a blank item a string, taking over the buffer. */
    method SetString(bytes: array<char>)
      requires Valid() && Blank() && bytes !in repr && NUL in bytes[..]
      modifies this`kind, this`valuestring, this`model, this`repr
      ensures Valid() && kind == IsString && model == String(CStr(bytes)) && repr == old(repr) + {bytes}
    {
      kind, valuestring, model := IsString, bytes, String(CStr(bytes));
      repr := repr + {bytes};
    }

    /** Takes over a string value while the kind is still open. */
    method TakeValue(bytes: array<char>)
      requires Valid() && kind == Invalid && valuestring == null && bytes !in repr && NUL in bytes[..]
      modifies this`valuestring, this`repr
      ensures Valid() && valuestring == bytes && repr == old(repr) + {bytes}
    {
      valuestring := bytes;
      repr := repr + {bytes};
    }

    method GiveName(bytes: array<char>)
      requires Valid() && kind == Invalid && name == null && bytes !in repr && NUL in bytes[..]
      modifies this`name, this`repr
      ensures Valid() && name == bytes && repr == old(repr) + {bytes}
    {
      name := bytes;
      repr := repr + {bytes};
    }

    /** Settles the kind of an item without children. */
    method SetKind(k: Kind, n: int)
      requires Valid() && kind == Invalid && (k == IsString ==> valuestring != null)
      modifies this`kind, this`number, this`model
      ensures Valid() && kind == k && number == n
      ensures model == if k == IsString then String(CStr(valuestring)) else Scalar(k, n)
    {
      kind, number := k, n;
      model := if k == IsString then String(CStr(valuestring)) else Scalar(k, n);
    }

    /** Moves the string that was read to the name and leaves the rest blank. (The code leaves the
        type at string until the value has been read.) */
    method TakeName()
      requires Valid() && kind == IsString && name == null
      modifies this`kind, this`valuestring, this`name, this`model
      ensures Valid() && Blank() && name != null && String(CStr(name)) == old(model)
    {
      name, valuestring, kind, model := valuestring, null, Invalid, Null;
    }

    ghost function Strings(): set<object>
      reads this`valuestring, this`name
    {
      (if valuestring == null then {} else {valuestring}) + (if name == null then {} else {name})
    }

    /** Links, ownership and the document agree all the way down. The item's own next and prev belong
        to the list it is in, not to it. */
    ghost predicate Valid()
      reads this`kind, this`child, this`valuestring, this`number, this`name, this`kids, this`repr, this`below, this`model
      reads repr - {this}
      decreases repr
    {
      && this in repr && this !in below
      && (valuestring != null ==> valuestring in repr && NUL in valuestring[..] && valuestring != name)
      && (name != null ==> name in repr && NUL in name[..])
      && repr == {this} + Strings() + below && Strings() !! below
      && (forall i :: 0 <= i < |kids| ==> kids[i] in below && kids[i].repr <= below && kids[i].Valid())
      && Partition(kids, below)
      && Linked(kids, child)
      && ModelFits()
    }

    ghost predicate ModelFits()
      requires forall i :: 0 <= i < |kids| ==> kids[i] in repr
      requires valuestring != null ==> valuestring in repr
      requires forall i :: 0 <= i < |kids| ==> kids[i].name != null ==> kids[i].name in repr
      reads this`kind, this`valuestring, this`number, this`kids, this`repr, this`model, repr - {this}, kids
    {
      match kind
      case Invalid => kids == [] && model == Null
      case IsNull => kids == [] && model == Null
      case IsFalse => kids == [] && model == Bool(false)
      case IsTrue => kids == [] && model == Bool(true)
      case IsNumber => kids == [] && model == Number(number)
      case IsString => kids == [] && valuestring != null && model == String(CStr(valuestring))
      case IsArray =>
        && model.Array? && |model.items| == |kids|
        && forall i :: 0 <= i < |kids| ==> kids[i].kind != Invalid && model.items[i] == kids[i].model
      case IsObject =>
        && model.Object? && |model.members| == |kids|
        && forall i :: 0 <= i < |kids| ==>
             kids[i].kind != Invalid && kids[i].name != null && model.members[i] == Member(CStr(kids[i].name), kids[i].model)
    }
  }

  lemma PartitionAppend(nodes: seq<Node>, mem: set<object>, n: Node)
    requires Partition(nodes, mem) && n.repr !! mem
    ensures Partition(nodes + [n], mem + n.repr)
  {
    assert (nodes + [n])[..|nodes|] == nodes;
    assert mem + n.repr - n.repr == mem;
  }

  /** Members of a partition are inside it and apart from each other. */
  lemma {:induction false} PartitionMembers(nodes: seq<Node>, mem: set<object>)
    requires Partition(nodes, mem)
    ensures forall i :: 0 <= i < |nodes| ==> nodes[i].repr <= mem
    ensures forall i, j :: 0 <= i < j < |nodes| ==> nodes[i].repr !! nodes[j].repr
    decreases |nodes|
  {
    if nodes != [] {
      var n := |nodes| - 1;
      PartitionMembers(nodes[..n], mem - nodes[n].repr);
      assert forall i :: 0 <= i < n ==> nodes[..n][i] == nodes[i];
    }
  }

  /** Taking the first node out of a partition. */
  lemma {:induction false} PartitionTail(nodes: seq<Node>, mem: set<object>)
    requires nodes != [] && Partition(nodes, mem)
    ensures nodes[0].repr <= mem && Partition(nodes[1..], mem - nodes[0].repr)
    decreases |nodes|
  {
    var n := |nodes| - 1;
    if n > 0 {
      var last := nodes[n].repr;
      PartitionTail(nodes[..n], mem - last);
      assert nodes[..n][1..] == nodes[1..][..n - 1];
      assert mem - last - nodes[0].repr == mem - nodes[0].repr - last;
    }
  }

  lemma ChainTail(nodes: seq<Node>)
    requires nodes != [] && NextChain(nodes)
    ensures NextChain(nodes[1..]) && nodes[0].next == After(nodes, 0)
  {
    var rest := nodes[1..];
    assert forall i :: 0 <= i < |rest| ==> rest[i] == nodes[i + 1] && After(rest, i) == After(nodes, i + 1);
  }

  /** The document of an item of this kind that has no string and no children. */
  function Scalar(kind: Kind, n: int): Json {
    match kind
    case IsFalse => Bool(false)
    case IsTrue => Bool(true)
    case IsNumber => Number(n)
    case IsArray => Array([])
    case IsObject => Object([])
    case _ => Null
  }

  /** What freeing an item relies on: its parts do not overlap and make up what it owns. */
  lemma Parts(item: Node)
    requires item.Valid()
    ensures item.child == null <==> item.kids == []
    ensures item.kids != [] ==> item.child == item.kids[0]
    ensures NextChain(item.kids) && Partition(item.kids, item.below)
    ensures forall i :: 0 <= i < |item.kids| ==> item.kids[i].Valid()
    ensures item.repr == {item} + item.Strings() + item.below
    ensures item !in item.Strings() && item !in item.below && item.Strings() !! item.below
    ensures item.valuestring != null ==> item.valuestring != item.name
  {
    hide NextChain, Node.ModelFits, Partition;
  }

  // ---- the allocator -------------------------------------------------------------------------------

  /** Hands out nodes and byte strings, or fails. `live` is what has been handed out and not freed;
      freeing demands that its argument is live, so nothing is freed twice. `failures` counts the
      requests that were refused. */
  class Allocator {
    ghost var live: set<object>
    ghost var failures: nat

    constructor ()
      ensures Valid() && live == {} && failures == 0
    {
      live, failures := {}, 0;
    }

    ghost predicate Valid()
      reads this
    {
      this !in live
    }

    method NewNode() returns (n: Node?)
      requires Valid()
      modifies this
      ensures Valid()
      ensures n == null ==> live == old(live) && failures > old(failures)
      ensures n != null ==>
        && fresh(n) && live == old(live) + {n} && failures == old(failures)
        && n.Valid() && n.Blank() && n.name == null && n.repr == {n} && n.next == null && n.prev == null
    {
      if * {
        n := new Node();
        live := live + {n};
      } else {
        n := null;
        failures := failures + 1;
      }
    }

    method NewBytes(size: nat) returns (a: array?<char>)
      requires Valid()
      modifies this
      ensures Valid()
      ensures a == null ==> live == old(live) && failures > old(failures)
      ensures a != null ==> fresh(a) && a.Length == size && live == old(live) + {a} && failures == old(failures)
    {
      if * {
        a := new char[size](_ => NUL);
        live := live + {a};
      } else {
        a := null;
        failures := failures + 1;
      }
    }

    method Free(ghost o: object)
      requires o in live
      modifies this`live
      ensures live == old(live) - {o}
    {
      live := live - {o};
    }

    /** `cJSON_Delete`: frees an item, the siblings after it, and everything below them, each once.
        (The code also clears the string pointers of an item just before freeing it; nobody can
        read them any more and they are left as they are here.) */
    method Delete(first: Node?, ghost chain: seq<Node>, ghost mem: set<object>)
      requires Valid()
      requires chain == [] <==> first == null
      requires chain != [] ==> first == chain[0]
      requires NextChain(chain) && Partition(chain, mem) && mem <= live
      requires forall i :: 0 <= i < |chain| ==> chain[i].Valid()
      modifies this`live
      ensures Valid() && live == old(live) - mem
      decreases mem, 1
    {
      hide Node.Valid, Partition, NextChain;
      var item := first;
      ghost var rest, left := chain, mem;
      while item != null
        invariant Valid()
        invariant rest == [] <==> item == null
        invariant rest != [] ==> item == rest[0]
        invariant NextChain(rest) && Partition(rest, left)
        invariant forall i :: 0 <= i < |rest| ==> rest[i].Valid()
        invariant live == old(live) - (mem - left) && left <= mem
        decreases |rest|
      {
        var next := item.next;
        PartitionMembers(rest, left);
        PartitionTail(rest, left);
        ChainTail(rest);
        DeleteOne(item);
        rest, left := rest[1..], left - item.repr;
        item := next;
      }
      PartitionNone(left);
    }

    method DeleteOne(item: Node)
      requires Valid() && item.Valid() && item.repr <= live
      modifies this`live
      ensures Valid() && live == old(live) - item.repr
      decreases item.repr, 0
    {
      hide Node.Valid, Partition, NextChain;
      Parts(item);
      if item.child != null {
        Delete(item.child, item.kids, item.below);
      } else {
        PartitionNone(item.below);
      }
      if item.valuestring != null {
        Free(item.valuestring);
      }
      if item.name != null {
        Free(item.name);
      }
      Free(item);
    }
  }

  lemma PartitionNone(mem: set<object>)
    requires Partition([], mem)
    ensures mem == {}
  {
  }
}
