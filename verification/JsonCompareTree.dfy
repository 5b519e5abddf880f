/** The comparison as the program runs it, on linked nodes. */
module JsonCompareTree {
  import opened Text
  import opened JsonNode
  import opened JsonList
  import opened JsonCompare
  import JsonCopy

  /** `strcmp`, or `case_insensitive_strcmp`, for equality. */
  method KeysEqual(a: array<char>, b: array<char>, sensitive: bool) returns (equal: bool)
    requires NUL in a[..] && NUL in b[..]
    ensures equal <==> Fold(CStr(a), sensitive) == Fold(CStr(b), sensitive)
  {
    if !sensitive && a == b {
      return true;
    }
    StringEnds(a);
    StringEnds(b);
    ghost var s, t := CStr(a), CStr(b);
    var i := 0;
    while Cased(a[i], sensitive) == Cased(b[i], sensitive)
      invariant i <= |s| && i <= |t| && forall k :: 0 <= k < i ==> Cased(s[k], sensitive) == Cased(t[k], sensitive)
      decreases |s| - i
    {
      if a[i] == NUL {
        SameFold(s, t, sensitive);
        return true;
      }
      i := i + 1;
    }
    OtherFold(s, t, i, sensitive);
    return false;
  }

  function Cased(c: char, sensitive: bool): (r: char)
    ensures r == NUL <==> c == NUL
  {
    if sensitive then c else Upcase(c)
  }

  lemma StringEnds(a: array<char>)
    requires NUL in a[..]
    ensures |CStr(a)| < a.Length && a[|CStr(a)|] == NUL
    ensures forall k :: 0 <= k < |CStr(a)| ==> a[k] == CStr(a)[k] && a[k] != NUL
  {
  }

  lemma SameFold(s: string, t: string, sensitive: bool)
    requires |s| == |t| && forall k :: 0 <= k < |s| ==> Cased(s[k], sensitive) == Cased(t[k], sensitive)
    ensures Fold(s, sensitive) == Fold(t, sensitive)
  {
    assert sensitive ==> s == t;
    assert !sensitive ==> Upper(s) == Upper(t);
  }

  lemma OtherFold(s: string, t: string, i: nat, sensitive: bool)
    requires i <= |s| && i <= |t| && Cased(At(s, i), sensitive) != Cased(At(t, i), sensitive)
    ensures Fold(s, sensitive) != Fold(t, sensitive)
  {
    if |s| == |t| {
      assert i < |s|;
      assert !sensitive ==> Upper(s)[i] != Upper(t)[i];
    }
  }

  /** `get_object_item` */
  method GetObjectItem(o: Node, name: array<char>, sensitive: bool) returns (item: Node?)
    requires o.Valid() && o.kind == IsObject && NUL in name[..]
    ensures o.model.Object? && |o.kids| == |o.model.members|
    ensures var j := FindMember(o.model.members, CStr(name), sensitive);
      item == if j < |o.kids| then o.kids[j] else null
  {
    hide Node.Valid, CStr, Fold;
    Documents(o);
    ghost var members, key, i := o.model.members, CStr(name), 0;
    item := o.child;
    assert members[0..] == members;
    while item != null
      invariant i <= |members| && item == (if i < |members| then o.kids[i] else null)
      invariant FindMember(members, key, sensitive) == i + FindMember(members[i..], key, sensitive)
      decreases |members| - i
    {
      KidAt(o, i);
      KidDocument(o, i);
      assert members[i..][0] == members[i] && members[i..][1..] == members[i + 1..];
      var equal := KeysEqual(name, item.name, sensitive);
      if equal {
        return;
      }
      item := item.next;
      i := i + 1;
    }
  }

  ghost predicate Alike(a: Node?, b: Node?)
    reads a, b
  {
    a != null && b != null && a.kind == b.kind && a.kind != Invalid
  }

  /** Items of which the comparison sees the documents only: it takes a node for equal to itself, which
      shows when trees share a node whose document does not equal itself. */
  ghost predicate ByDocument(a: Node, b: Node, sensitive: bool)
    reads a, b
  {
    a.repr !! b.repr || Coherent(a.model, sensitive) || Coherent(b.model, sensitive)
  }

  /** `cJSON_Compare` */
  method Compare(a: Node?, b: Node?, sensitive: bool) returns (r: bool)
    requires (a != null ==> a.Valid()) && (b != null ==> b.Valid())
    ensures Alike(a, b) && (a == b || Same(a.model, b.model, sensitive)) ==> r
    ensures r ==> Alike(a, b) && (ByDocument(a, b, sensitive) ==> Same(a.model, b.model, sensitive))
    decreases (if a == null then 0 else Weight(a.model)) + (if b == null then 0 else Weight(b.model)), 2
  {
    hide Node.Valid, CStr, Covers, SameItems;
    if a == null || b == null || a.kind != b.kind {
      return false;
    }
    if a.kind == Invalid {
      return false;
    }
    if a == b {
      OwnRepr(a);
      SameAsItself(a.model, sensitive);
      return true;
    }
    ItemDocument(a);
    ItemDocument(b);
    match a.kind
    case IsNumber => r := Close(a.number, b.number);
    case IsString => r := KeysEqual(a.valuestring, b.valuestring, true);
    case IsArray => r := CompareItems(a, b, sensitive);
    case IsObject =>
      r := CompareMembers(a, b, sensitive);
      if r {
        r := CompareMembers(b, a, sensitive);
      }
    case _ => r := true;
  }

  method CompareItems(a: Node, b: Node, sensitive: bool) returns (r: bool)
    requires a.Valid() && b.Valid() && a.kind == IsArray && b.kind == IsArray
    ensures a.model.Array? && b.model.Array?
    ensures SameItems(a.model.items, b.model.items, sensitive) ==> r
    ensures r && ByDocument(a, b, sensitive) ==> SameItems(a.model.items, b.model.items, sensitive)
    decreases Weight(a.model) + Weight(b.model), 1
  {
    hide Node.Valid, CStr, Same, ByDocument;
    Documents(a);
    Documents(b);
    ghost var xs, ys, i := a.model.items, b.model.items, 0;
    var x, y := a.child, b.child;
    assert xs[0..] == xs && ys[0..] == ys;
    while x != null && y != null
      invariant i <= |xs| && i <= |ys|
      invariant x == (if i < |xs| then a.kids[i] else null) && y == (if i < |ys| then b.kids[i] else null)
      invariant SameItems(xs, ys, sensitive) ==> SameItems(xs[i..], ys[i..], sensitive)
      invariant SameItems(xs[i..], ys[i..], sensitive) && ByDocument(a, b, sensitive) ==> SameItems(xs, ys, sensitive)
      decreases |xs| - i
    {
      KidPair(a, b, i, i, sensitive);
      assert xs[i..][1..] == xs[i + 1..] && ys[i..][1..] == ys[i + 1..];
      var same := Compare(x, y, sensitive);
      SameKinds(x, y, sensitive);
      if !same {
        return false;
      }
      x, y := x.next, y.next;
      i := i + 1;
    }
    return x == y;
  }

  /** Every member of the one object has a counterpart in the other. */
  method CompareMembers(a: Node, b: Node, sensitive: bool) returns (r: bool)
    requires a.Valid() && b.Valid() && a.kind == IsObject && b.kind == IsObject
    ensures a.model.Object? && b.model.Object?
    ensures Covers(a.model.members, b.model.members, sensitive) ==> r
    ensures r && ByDocument(a, b, sensitive) ==> Covers(a.model.members, b.model.members, sensitive)
    decreases Weight(a.model) + Weight(b.model), 1
  {
    hide Node.Valid, CStr, Same, Covers, FindMember, ByDocument, Weight, Fold;
    Documents(a);
    Documents(b);
    ghost var xs, ys, i := a.model.members, b.model.members, 0;
    var x := a.child;
    assert xs[0..] == xs;
    while x != null
      invariant i <= |xs| && x == (if i < |xs| then a.kids[i] else null)
      invariant Covers(xs, ys, sensitive) ==> Covers(xs[i..], ys, sensitive)
      invariant Covers(xs[i..], ys, sensitive) && ByDocument(a, b, sensitive) ==> Covers(xs, ys, sensitive)
      decreases |xs| - i
    {
      KidAt(a, i);
      KidDocument(a, i);
      CoversStep(xs, ys, i, sensitive);
      var y := GetObjectItem(b, x.name, sensitive);
      if y == null {
        return false;
      }
      ghost var j := FindMember(ys, xs[i].key, sensitive);
      KidPair(a, b, i, j, sensitive);
      var same := Compare(x, y, sensitive);
      SameKinds(x, y, sensitive);
      if !same {
        return false;
      }
      x := x.next;
      i := i + 1;
    }
    assert xs[i..] == [];
    CoversNothing(ys, sensitive);
    return true;
  }

  /** Children of two trees are lighter, and the comparison sees as much of them. */
  lemma KidPair(a: Node, b: Node, i: nat, j: nat, sensitive: bool)
    requires a.Valid() && b.Valid() && a.kind == b.kind && (a.kind == IsArray || a.kind == IsObject)
    ensures i < |a.kids| && j < |b.kids| ==>
      var x, y := a.kids[i], b.kids[j];
      && x.Valid() && y.Valid() && x.kind != Invalid && y.kind != Invalid
      && (ByDocument(a, b, sensitive) ==> ByDocument(x, y, sensitive))
      && Weight(x.model) + Weight(y.model) < Weight(a.model) + Weight(b.model)
      && x.next == (if i + 1 < |a.kids| then a.kids[i + 1] else null)
      && y.next == (if j + 1 < |b.kids| then b.kids[j + 1] else null)
      && (a.kind == IsArray ==> |a.model.items| == |a.kids| && x.model == a.model.items[i])
      && (b.kind == IsArray ==> |b.model.items| == |b.kids| && y.model == b.model.items[j])
      && (b.kind == IsObject ==> |b.model.members| == |b.kids| && y.model == b.model.members[j].value)
  {
    hide Node.Valid, Coherent;
    Documents(a);
    Documents(b);
    KidAt(a, i);
    KidAt(b, j);
    KidDocument(a, i);
    KidDocument(b, j);
    KidModel(a, i, sensitive);
    KidModel(b, j, sensitive);
    if i < |a.kids| && j < |b.kids| {
      OwnRepr(a.kids[i]);
      OwnRepr(b.kids[j]);
    }
  }

  /** The document of a child is part of its parent's. */
  lemma KidModel(n: Node, i: nat, sensitive: bool)
    requires n.Valid() && (n.kind == IsArray || n.kind == IsObject)
    ensures i < |n.kids| ==>
      && Weight(n.kids[i].model) < Weight(n.model)
      && (Coherent(n.model, sensitive) ==> Coherent(n.kids[i].model, sensitive))
  {
    hide Node.Valid;
    Documents(n);
    KidDocument(n, i);
    if i < |n.kids| {
      if n.kind == IsArray {
        ItemWeight(n.model.items, i);
        assert Coherent(n.model, sensitive) ==> CoherentItems(n.model.items, sensitive);
      } else {
        MemberWeight(n.model.members, i);
        assert Coherent(n.model, sensitive) ==> CoherentMembers(n.model.members, sensitive);
      }
    }
  }

  /** Documents that compare equal are of the same kind. */
  lemma SameKinds(x: Node, y: Node, sensitive: bool)
    requires x.Valid() && y.Valid() && x.kind != Invalid && y.kind != Invalid
    ensures Same(x.model, y.model, sensitive) ==> x.kind == y.kind
  {
    hide Covers, SameItems, Partition, Linked, CStr;
  }

  /** A deep copy compares equal to its original when repeated keys agree, and only then as long as
      numbers stay below 2^52; deleting the copy restores the ledger. */
  method DuplicateCompares(item: Node, sensitive: bool, alloc: Allocator) returns (same: bool)
    requires alloc.Valid() && item.Valid() && item.repr <= alloc.live && item.kind != Invalid
    modifies alloc
    ensures alloc.Valid() && alloc.live == old(alloc.live)
    ensures alloc.failures == old(alloc.failures) ==> (same <==> Same(item.model, item.model, sensitive))
    ensures alloc.failures == old(alloc.failures) && Coherent(item.model, sensitive) ==> same
    ensures alloc.failures == old(alloc.failures) && Precise(item.model) ==> (same <==> Coherent(item.model, sensitive))
  {
    hide Node.Valid, Same, Coherent, Precise;
    var copy := JsonCopy.Duplicate(item, true, alloc);
    if copy == null {
      return false;
    }
    SameAsItself(item.model, sensitive);
    same := Compare(item, copy, sensitive);
    DeleteRoot(copy, alloc);
  }
}
