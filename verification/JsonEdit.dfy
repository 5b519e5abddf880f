/** Editing the list of an array or object in place: append, insert, detach, replace. */
module JsonEdit {
  import opened Text
  import opened JsonValue
  import opened JsonNode
  import opened JsonList

  // ---- what the operations do to a sequence --------------------------------------------------------

  function Inserted<T>(s: seq<T>, i: nat, x: T): seq<T>
    requires i <= |s|
  {
    s[..i] + [x] + s[i..]
  }

  function Removed<T>(s: seq<T>, i: nat): seq<T>
    requires i < |s|
  {
    s[..i] + s[i + 1..]
  }

  // ---- the links -------------------------------------------------------------------------------------

  ghost function Before(kids: seq<Node>, i: nat): Node?
    requires i < |kids|
  {
    kids[if i == 0 then |kids| - 1 else i - 1]
  }

  /** The next and prev pointers of some distinct items, spelled out. */
  datatype Wiring = Wiring(kids: seq<Node>, nexts: seq<Node?>, prevs: seq<Node?>)
  {
    ghost predicate Valid() {
      |kids| == |nexts| == |prevs| && Distinct(kids)
    }

    ghost predicate Holds()
      reads kids`next, kids`prev
    {
      Valid() && forall i :: 0 <= i < |kids| ==> kids[i].next == nexts[i] && kids[i].prev == prevs[i]
    }
  }

  ghost predicate Distinct(kids: seq<Node>) {
    forall i, j :: 0 <= i < j < |kids| ==> kids[i] != kids[j]
  }

  /** The wiring of a closed list. */
  ghost function Ring(kids: seq<Node>): (w: Wiring)
    ensures w.kids == kids && |w.nexts| == |w.prevs| == |kids|
    ensures forall i :: 0 <= i < |kids| ==> w.nexts[i] == After(kids, i)
    ensures forall i :: 0 <= i < |kids| ==> w.prevs[i] == Before(kids, i)
  {
    Wiring(
      kids,
      seq(|kids|, i requires 0 <= i => After(kids, i)),
      seq(|kids|, i requires 0 <= i < |kids| => Before(kids, i)))
  }

  lemma RingLinked(kids: seq<Node>, child: Node?)
    ensures Linked(kids, child) <==> Ring(kids).Holds() && child == (if kids == [] then null else kids[0])
  {
    hide Ring;
  }

  lemma WiredAt(w: Wiring, i: nat)
    requires w.Holds() && i < |w.kids|
    ensures w.kids[i].next == w.nexts[i] && w.kids[i].prev == w.prevs[i]
    ensures forall j :: 0 <= j < |w.kids| && j != i ==> w.kids[i] != w.kids[j]
  {
  }

  method SetNext(n: Node, x: Node?, ghost w: Wiring, ghost i: nat) returns (ghost w': Wiring)
    requires w.Holds() && i < |w.kids| && n == w.kids[i]
    modifies n`next
    ensures w' == w.(nexts := w.nexts[i := x]) && w'.Holds()
  {
    n.next := x;
    w' := w.(nexts := w.nexts[i := x]);
  }

  method SetPrev(n: Node, x: Node?, ghost w: Wiring, ghost i: nat) returns (ghost w': Wiring)
    requires w.Holds() && i < |w.kids| && n == w.kids[i]
    modifies n`prev
    ensures w' == w.(prevs := w.prevs[i := x]) && w'.Holds()
  {
    n.prev := x;
    w' := w.(prevs := w.prevs[i := x]);
  }

  /** The pointer work of `cJSON_DetachItemViaPointer`. */
  method Unlink(parent: Node, item: Node, ghost i: nat)
    requires Linked(parent.kids, parent.child) && i < |parent.kids| && parent.kids[i] == item
    modifies parent`child, parent.kids`next, parent.kids`prev
    ensures Linked(Removed(parent.kids, i), parent.child) && item.next == null && item.prev == null
  {
    hide Linked, Ring, Wiring.Holds, Distinct, Removed, After, Before;
    ghost var kids := parent.kids;
    RingLinked(kids, parent.child);
    ghost var w := Bypass(parent, item, Ring(kids), i);
    w := SetPrev(item, null, w, i);
    w := SetNext(item, null, w, i);
    WiredAt(w, i);
    WithoutOne(w, i);
    RingWithoutOne(kids, i, w);
    RingLinked(Removed(kids, i), parent.child);
    ChildRemoved(kids, i);
  }

  /** Makes the items around it skip one item. */
  method Bypass(parent: Node, item: Node, ghost ring: Wiring, ghost i: nat) returns (ghost w: Wiring)
    requires ring == Ring(parent.kids) && ring.Holds() && i < |parent.kids| && parent.kids[i] == item
    requires parent.child == parent.kids[0]
    modifies parent`child, parent.kids`next, parent.kids`prev
    ensures w == Skipping(ring, i) && w.Holds()
    ensures parent.child == if i == 0 then After(parent.kids, 0) else parent.kids[0]
  {
    hide Ring, Wiring.Holds, Distinct, After, Before;
    RingAround(parent.kids, i);
    w := BypassNext(parent, item, ring, i);
    WiredAt(w, i);
    if item.next != null {
      w := SetPrev(item.next, item.prev, w, i + 1);
      WiredAt(w, i);
    }
    if item == parent.child {
      parent.child := item.next;
    } else if item.next == null {
      w := SetPrev(parent.child, item.prev, w, 0);
    }
  }

  method BypassNext(parent: Node, item: Node, ghost ring: Wiring, ghost i: nat) returns (ghost w: Wiring)
    requires ring == Ring(parent.kids) && ring.Holds() && i < |parent.kids| && parent.kids[i] == item
    requires parent.child == parent.kids[0]
    modifies parent.kids`next
    ensures w == if i > 0 then ring.(nexts := ring.nexts[i - 1 := ring.nexts[i]]) else ring
    ensures w.Holds()
  {
    hide Ring, Wiring.Holds, Distinct, After, Before;
    RingAround(parent.kids, i);
    w := ring;
    WiredAt(w, i);
    if item != parent.child {
      w := SetNext(item.prev, item.next, w, i - 1);
    }
  }

  lemma RingAround(kids: seq<Node>, i: nat)
    requires Ring(kids).Holds() && i < |kids|
    ensures var r := Ring(kids);
      && r.kids == kids && |r.nexts| == |r.prevs| == |kids|
      && r.nexts[i] == (if i + 1 < |kids| then kids[i + 1] else null)
      && r.prevs[i] == (if i == 0 then kids[|kids| - 1] else kids[i - 1])
    ensures After(kids, i) == (if i + 1 < |kids| then kids[i + 1] else null)
    ensures (kids[i] == kids[0] <==> i == 0) && Ring(kids).Valid()
  {
    hide Ring;
    assert i > 0 ==> kids[0] != kids[i];
  }

  ghost function Skipping(w: Wiring, i: nat): (r: Wiring)
    requires i < |w.kids| == |w.nexts| == |w.prevs|
    ensures r.kids == w.kids && |r.nexts| == |r.prevs| == |w.kids|
  {
    var w1 := if i > 0 then w.(nexts := w.nexts[i - 1 := w.nexts[i]]) else w;
    var w2 := if i + 1 < |w.kids| then w1.(prevs := w.prevs[i + 1 := w.prevs[i]]) else w1;
    if i > 0 && i + 1 == |w.kids| then w2.(prevs := w2.prevs[0 := w.prevs[i]]) else w2
  }

  ghost function Cleared(w: Wiring, i: nat): Wiring
    requires i < |w.nexts| && i < |w.prevs|
  {
    w.(nexts := w.nexts[i := null], prevs := w.prevs[i := null])
  }

  lemma ChildRemoved(kids: seq<Node>, i: nat)
    requires i < |kids|
    ensures var all := Removed(kids, i);
      (if i == 0 then After(kids, 0) else kids[0]) == if all == [] then null else all[0]
  {
  }

  lemma WithoutOne(w: Wiring, i: nat)
    requires w.Holds() && i < |w.kids|
    ensures Wiring(Removed(w.kids, i), Removed(w.nexts, i), Removed(w.prevs, i)).Holds()
  {
    var all := Removed(w.kids, i);
    assert forall j :: 0 <= j < |all| ==> all[j] == w.kids[if j < i then j else j + 1];
  }

  lemma RemovedAt<T>(s: seq<T>, i: nat)
    requires i < |s|
    ensures |Removed(s, i)| == |s| - 1
    ensures forall j :: 0 <= j < |s| - 1 ==> Removed(s, i)[j] == s[if j < i then j else j + 1]
  {
  }

  lemma RingWithoutOne(kids: seq<Node>, i: nat, w: Wiring)
    requires i < |kids| && w == Cleared(Skipping(Ring(kids), i), i)
    ensures Wiring(Removed(w.kids, i), Removed(w.nexts, i), Removed(w.prevs, i)) == Ring(Removed(kids, i))
  {
    hide Ring, Skipping, After, Before;
    NextsWithoutOne(kids, i, w);
    PrevsWithoutOne(kids, i, w);
  }

  lemma NextsWithoutOne(kids: seq<Node>, i: nat, w: Wiring)
    requires i < |kids| && w == Cleared(Skipping(Ring(kids), i), i)
    ensures Removed(w.nexts, i) == Ring(Removed(kids, i)).nexts
  {
    var all, nexts := Removed(kids, i), Removed(w.nexts, i);
    RemovedAt(kids, i);
    RemovedAt(w.nexts, i);
    hide Ring, Before, Removed;
    assert forall j :: 0 <= j < |all| ==> nexts[j] == Ring(all).nexts[j];
  }

  lemma PrevsWithoutOne(kids: seq<Node>, i: nat, w: Wiring)
    requires i < |kids| && w == Cleared(Skipping(Ring(kids), i), i)
    ensures Removed(w.prevs, i) == Ring(Removed(kids, i)).prevs
  {
    var all, prevs := Removed(kids, i), Removed(w.prevs, i);
    RemovedAt(kids, i);
    RemovedAt(w.prevs, i);
    hide Ring, After, Removed;
    assert forall j :: 0 <= j < |all| ==> prevs[j] == Ring(all).prevs[j];
  }

  /** The wiring of a list with one more item beside it, at the last index. */
  ghost function Beside(w: Wiring, item: Node): Wiring
    reads item`next, item`prev
  {
    Wiring(w.kids + [item], w.nexts + [item.next], w.prevs + [item.prev])
  }

  lemma BesideHolds(w: Wiring, item: Node)
    requires w.Holds() && item !in w.kids
    ensures Beside(w, item).Holds()
  {
    var all := w.kids + [item];
    assert forall j :: 0 <= j < |all| ==> all[j] == if j < |w.kids| then w.kids[j] else item;
  }

  /** The item beside the list moved to index i. */
  function MovedIn<T>(s: seq<T>, i: nat): seq<T>
    requires i < |s|
  {
    Inserted(s[..|s| - 1], i, s[|s| - 1])
  }

  lemma MovedAt<T>(s: seq<T>, i: nat)
    requires i < |s|
    ensures |MovedIn(s, i)| == |s|
    ensures forall j :: 0 <= j < |s| ==> MovedIn(s, i)[j] == s[if j < i then j else if j == i then |s| - 1 else j - 1]
  {
  }

  lemma MovedInHolds(w: Wiring, i: nat)
    requires w.Holds() && i < |w.kids|
    ensures Wiring(MovedIn(w.kids, i), MovedIn(w.nexts, i), MovedIn(w.prevs, i)).Holds()
  {
    hide MovedIn;
    MovedAt(w.kids, i);
    MovedAt(w.nexts, i);
    MovedAt(w.prevs, i);
  }

  // ---- insert ----

  /** The pointer work of `cJSON_InsertItemInArray`, in front of the item `at`. */
  method LinkBefore(parent: Node, at: Node, item: Node, ghost i: nat)
    requires Linked(parent.kids, parent.child) && i < |parent.kids| && parent.kids[i] == at && item !in parent.kids
    modifies parent`child, parent.kids`prev, parent.kids`next, item`next, item`prev
    ensures Linked(Inserted(parent.kids, i, item), parent.child)
  {
    hide Linked, Ring, Wiring.Holds, Distinct, Inserted, MovedIn, After, Before;
    ghost var kids := parent.kids;
    RingLinked(kids, parent.child);
    RingAround(kids, i);
    BesideHolds(Ring(kids), item);
    WiredAt(Ring(kids), i);
    ghost var w := PutBefore(at, item, kids, i);
    WiredAt(w, |kids|);
    if at == parent.child {
      parent.child := item;
    } else {
      w := SetNext(item.prev, item, w, i - 1);
    }
    MovedInHolds(w, i);
    RingWithOneMore(kids, i, item, w);
    RingLinked(Inserted(kids, i, item), parent.child);
    ChildInserted(kids, i, item);
  }

  /** The first three assignments of an insertion. */
  method PutBefore(at: Node, item: Node, ghost kids: seq<Node>, ghost i: nat) returns (ghost w: Wiring)
    requires Beside(Ring(kids), item).Holds() && i < |kids| && kids[i] == at && at.prev == Ring(kids).prevs[i]
    modifies at`prev, item`next, item`prev
    ensures var b := Before(Ring(kids).kids, i);
      w == Wiring(kids + [item], Ring(kids).nexts + [at], Ring(kids).prevs[i := item] + [b])
    ensures w.Holds()
  {
    hide Wiring.Holds, Distinct;
    w := Beside(Ring(kids), item);
    ghost var n := |kids|;
    w := SetNext(item, at, w, n);
    w := SetPrev(item, at.prev, w, n);
    w := SetPrev(at, item, w, i);
  }

  lemma RingWithOneMore(kids: seq<Node>, i: nat, item: Node, w: Wiring)
    requires i < |kids| && w.kids == kids + [item]
    requires w.nexts == (if i == 0 then Ring(kids).nexts else Ring(kids).nexts[i - 1 := item]) + [kids[i]]
    requires w.prevs == Ring(kids).prevs[i := item] + [Before(kids, i)]
    ensures MovedIn(w.kids, i) == Inserted(kids, i, item)
    ensures Wiring(MovedIn(w.kids, i), MovedIn(w.nexts, i), MovedIn(w.prevs, i)) == Ring(Inserted(kids, i, item))
  {
    var all, n := Inserted(kids, i, item), |kids|;
    assert w.kids[..n] == kids;
    InsertedAt(kids, i, item);
    MovedAt(w.nexts, i);
    MovedAt(w.prevs, i);
    hide Ring, Inserted, MovedIn;
    assert MovedIn(w.nexts, i) == Ring(all).nexts;
    assert MovedIn(w.prevs, i) == Ring(all).prevs;
  }

  lemma InsertedAt<T>(s: seq<T>, i: nat, x: T)
    requires i <= |s|
    ensures |Inserted(s, i, x)| == |s| + 1
    ensures forall j :: 0 <= j <= |s| ==> Inserted(s, i, x)[j] == if j < i then s[j] else if j == i then x else s[j - 1]
  {
  }

  lemma ChildInserted(kids: seq<Node>, i: nat, item: Node)
    requires i < |kids|
    ensures var all := Inserted(kids, i, item); all != [] && all[0] == if i == 0 then item else kids[0]
  {
  }

  // ---- append ----

  /** An item that leads on to another one ends a list only where its next pointer gets cleared. */
  ghost predicate EndsList(kids: seq<Node>, next: Node?) {
    kids == [] || next == null
  }

  /** The pointer work of `add_item_to_array`, which clears the item's next pointer in an empty list only. */
  method LinkLast(parent: Node, item: Node)
    requires Linked(parent.kids, parent.child) && item !in parent.kids
    modifies parent`child, parent.kids`next, parent.kids`prev, item`next, item`prev
    ensures Linked(parent.kids + [item], parent.child) <==> EndsList(parent.kids, old(item.next))
  {
    hide Linked, Ring, Wiring.Holds, Distinct, After, Before;
    ghost var kids := parent.kids;
    ghost var n := |kids|;
    RingLinked(kids, parent.child);
    BesideHolds(Ring(kids), item);
    ghost var w := Beside(Ring(kids), item);
    var child := parent.child;
    if child == null {
      parent.child := item;
      w := SetPrev(item, item, w, 0);
      w := SetNext(item, null, w, 0);
    } else {
      RingAround(kids, 0);
      WiredAt(Ring(kids), 0);
      if child.prev != null {
        var last: Node := child.prev;
        w := SetNext(last, item, w, n - 1);
        w := SetPrev(item, last, w, n);
        w := SetPrev(parent.child, item, w, 0);
      }
    }
    if EndsList(kids, old(item.next)) {
      RingWithLast(kids, item, w);
      RingLinked(kids + [item], parent.child);
    } else {
      WiredAt(w, n);
      EndOfList(kids, item, parent.child);
    }
  }

  lemma EndOfList(kids: seq<Node>, item: Node, child: Node?)
    ensures Linked(kids + [item], child) ==> item.next == null
  {
    assert (kids + [item])[|kids|] == item;
  }

  lemma RingWithLast(kids: seq<Node>, item: Node, w: Wiring)
    requires w.kids == kids + [item]
    requires w.nexts == (if kids == [] then [] else Ring(kids).nexts[|kids| - 1 := item]) + [null]
    requires w.prevs == (if kids == [] then [item] else Ring(kids).prevs[0 := item] + [kids[|kids| - 1]])
    ensures w == Ring(kids + [item])
  {
    var all := kids + [item];
    hide Ring;
    assert forall j :: 0 <= j < |all| ==> all[j] == if j < |kids| then kids[j] else item;
    assert forall j :: 0 <= j < |all| ==> w.nexts[j] == Ring(all).nexts[j];
    assert forall j :: 0 <= j < |all| ==> w.prevs[j] == Ring(all).prevs[j];
  }

  // ---- replace ----

  /** The pointer work of `cJSON_ReplaceItemViaPointer`. */
  method LinkInstead(parent: Node, item: Node, replacement: Node, ghost i: nat)
    requires Linked(parent.kids, parent.child) && i < |parent.kids| && parent.kids[i] == item
    requires replacement !in parent.kids
    modifies parent`child, parent.kids`next, parent.kids`prev, replacement`next, replacement`prev
    ensures Linked(parent.kids[i := replacement], parent.child) && item.next == null && item.prev == null
  {
    hide Linked, Ring, Wiring.Holds, Distinct, After, Before, Taken, StandsIn;
    ghost var kids := parent.kids;
    RingLinked(kids, parent.child);
    RingAround(kids, i);
    BesideHolds(Ring(kids), replacement);
    WiredAt(Ring(kids), i);
    ghost var w := TakePlace(item, replacement, kids, i);
    w := FixEnds(parent, item, replacement, w, i);
    w := Retire(item, replacement, kids, w, i);
    InPlaceHolds(w, i);
    RingReplaced(kids, i, replacement, w);
    RingLinked(kids[i := replacement], parent.child);
  }

  /** The item at index i is out of use, and r, beside the list, stands in for it. */
  ghost predicate StandsIn(w: Wiring, kids: seq<Node>, i: nat, r: Node) {
    && i < |kids| && w.kids == kids + [r] && |w.nexts| == |w.prevs| == |kids| + 1
    && (forall j :: 0 <= j < |kids| && j != i ==> w.nexts[j] == if j == i - 1 then r else After(kids, j))
    && w.nexts[|kids|] == After(kids, i)
    && (forall j :: 0 <= j < |kids| && j != i ==>
          w.prevs[j] == if j == i + 1 || (j == 0 && i == |kids| - 1) then r else Before(kids, j))
    && w.prevs[|kids|] == if |kids| == 1 then r else Before(kids, i)
  }

  /** Clears the links of the item that was replaced. */
  method Retire(item: Node, ghost r: Node, ghost kids: seq<Node>, ghost w: Wiring, ghost i: nat)
    returns (ghost w': Wiring)
    requires StandsIn(w, kids, i, r) && w.Holds() && item == kids[i]
    modifies item`next, item`prev
    ensures StandsIn(w', kids, i, r) && w'.Holds() && item.next == null && item.prev == null && |w'.kids| == |kids| + 1
  {
    hide Wiring.Holds, After, Before;
    w' := SetNext(item, null, w, i);
    w' := SetPrev(item, null, w', i);
    WiredAt(w', i);
  }

  /** The parent's child pointer, and the links to the replacement from before it and around the end. */
  method FixEnds(parent: Node, item: Node, replacement: Node, ghost w: Wiring, ghost i: nat)
    returns (ghost w': Wiring)
    requires i < |parent.kids| && parent.kids[i] == item && parent.child == parent.kids[0]
    requires Ring(parent.kids).Valid() && Taken(w, parent.kids, i, replacement) && w.Holds()
    modifies parent`child, parent.kids`next, parent.kids`prev, replacement`prev
    ensures StandsIn(w', parent.kids, i, replacement) && w'.Holds()
    ensures parent.child == if i == 0 then replacement else parent.kids[0]
  {
    hide Wiring.Holds, Ring;
    ghost var kids := parent.kids;
    ghost var n := |kids|;
    w' := w;
    WiredAt(w, n);
    WiredAt(w, 0);
    assert i > 0 ==> kids[0] != kids[i];
    if parent.child == item {
      if parent.child.prev == parent.child {
        w' := SetPrev(replacement, replacement, w', n);
      }
      parent.child := replacement;
    } else {
      if replacement.prev != null {
        w' := SetNext(replacement.prev, replacement, w', i - 1);
      }
      if replacement.next == null {
        w' := SetPrev(parent.child, replacement, w', 0);
      }
    }
  }

  /** The item beside the list in place of the one at index i. */
  function InPlace<T>(s: seq<T>, i: nat): seq<T>
    requires i + 1 < |s|
  {
    s[..|s| - 1][i := s[|s| - 1]]
  }

  lemma InPlaceHolds(w: Wiring, i: nat)
    requires w.Holds() && i + 1 < |w.kids|
    ensures Wiring(InPlace(w.kids, i), InPlace(w.nexts, i), InPlace(w.prevs, i)).Holds()
  {
    var all, n := InPlace(w.kids, i), |w.kids| - 1;
    assert forall j :: 0 <= j < |all| ==> all[j] == w.kids[if j == i then n else j];
  }

  lemma RingReplaced(kids: seq<Node>, i: nat, r: Node, w: Wiring)
    requires StandsIn(w, kids, i, r)
    ensures InPlace(w.kids, i) == kids[i := r]
    ensures Wiring(InPlace(w.kids, i), InPlace(w.nexts, i), InPlace(w.prevs, i)) == Ring(kids[i := r])
  {
    var all, n := kids[i := r], |kids|;
    hide Ring;
    assert w.kids[..n] == kids;
    assert forall j :: 0 <= j < n ==> InPlace(w.nexts, i)[j] == Ring(all).nexts[j];
    assert forall j :: 0 <= j < n ==> InPlace(w.prevs, i)[j] == Ring(all).prevs[j];
  }

  ghost predicate Taken(w: Wiring, kids: seq<Node>, i: nat, r: Node)
    requires i < |kids|
  {
    && w.kids == kids + [r]
    && w.nexts == Ring(kids).nexts + [Ring(kids).nexts[i]]
    && w.prevs == (if i + 1 < |kids| then Ring(kids).prevs[i + 1 := r] else Ring(kids).prevs) + [Ring(kids).prevs[i]]
  }

  /** The replacement's own links, and the back link of the item after it. */
  method TakePlace(item: Node, replacement: Node, ghost kids: seq<Node>, ghost i: nat) returns (ghost w: Wiring)
    requires Beside(Ring(kids), replacement).Holds() && i < |kids| && kids[i] == item
    requires item.next == Ring(kids).nexts[i] && item.prev == Ring(kids).prevs[i]
    modifies replacement`next, replacement`prev, kids`prev
    ensures Taken(w, kids, i, replacement)
    ensures w.Holds()
  {
    hide Wiring.Holds, Distinct;
    w := Beside(Ring(kids), replacement);
    ghost var n := |kids|;
    w := SetNext(replacement, item.next, w, n);
    w := SetPrev(replacement, item.prev, w, n);
    if replacement.next != null {
      w := SetPrev(replacement.next, replacement, w, i + 1);
    }
  }

  // ---- ownership ---------------------------------------------------------------------------------

  ghost predicate IsList(n: Node)
    reads n`kind
  {
    n.kind == IsArray || n.kind == IsObject
  }

  /** The name and document an item contributes to the list it is in. */
  ghost function Entry(item: Node): Member
    reads item`name, item`model, if item.name == null then {} else {item.name}
  {
    Member(if item.name == null then "" else CStr(item.name), item.model)
  }

  function Size(v: Json): nat
    requires v.Array? || v.Object?
  {
    match v
    case Array(items) => |items|
    case Object(members) => |members|
  }

  function DocInserted(v: Json, i: nat, e: Member): Json
    requires (v.Array? || v.Object?) && i <= Size(v)
  {
    match v
    case Array(items) => Array(Inserted(items, i, e.value))
    case Object(members) => Object(Inserted(members, i, e))
  }

  function DocRemoved(v: Json, i: nat): Json
    requires (v.Array? || v.Object?) && i < Size(v)
  {
    match v
    case Array(items) => Array(Removed(items, i))
    case Object(members) => Object(Removed(members, i))
  }

  function DocReplaced(v: Json, i: nat, e: Member): Json
    requires (v.Array? || v.Object?) && i < Size(v)
  {
    match v
    case Array(items) => Array(items[i := e.value])
    case Object(members) => Object(members[i := e])
  }

  /** The strings an array or object and its items own. */
  ghost function Texts(n: Node, kids: seq<Node>): set<object>
    reads n`valuestring, n`name, kids`name
  {
    (set a | a in NamesOf(kids) :: a as object)
    + (if n.valuestring == null then {} else {n.valuestring}) + (if n.name == null then {} else {n.name})
  }

  /** The list stands for a document, and the strings of the array or object are terminated. */
  ghost predicate Dressed(n: Node, kids: seq<Node>, v: Json)
    reads n`kind, n`valuestring, n`name, kids`kind, kids`name, kids`model, Texts(n, kids)
  {
    && IsList(n) && ListFits(kids, n.kind, v)
    && (n.valuestring != null ==> NUL in n.valuestring[..] && n.valuestring != n.name)
    && (n.name != null ==> NUL in n.name[..])
  }

  /** Everything about a valid array or object except its links. */
  ghost predicate Holding(n: Node, kids: seq<Node>, mem: set<object>, v: Json)
    reads n`kind, n`valuestring, n`name, kids, mem, Texts(n, kids)
  {
    Grown(kids, mem) && Dressed(n, kids, v) && n !in mem && n.Strings() !! mem
  }

  lemma TextsAreNoNodes(n: Node, kids: seq<Node>)
    ensures forall o: object :: o in Texts(n, kids) ==> !(o is Node)
  {
  }

  lemma ListHolding(n: Node)
    requires n.Valid() && IsList(n)
    ensures Linked(n.kids, n.child) && Holding(n, n.kids, n.below, n.model)
    ensures n.repr == {n} + n.Strings() + n.below
  {
    hide Partition, Linked;
    forall i | 0 <= i < |n.kids| ensures n.kids[i] in n.kids[i].repr {
      OwnRepr(n.kids[i]);
    }
  }

  lemma HoldingValid(n: Node)
    requires Linked(n.kids, n.child) && Holding(n, n.kids, n.below, n.model)
    requires n.repr == {n} + n.Strings() + n.below
    ensures n.Valid()
  {
    hide Partition, Linked;
  }

  // The items themselves do not notice what happens to their links.
  method Append(n: Node, item: Node, ghost v: Json)
    requires Linked(n.kids, n.child) && Holding(n, n.kids, n.below, v)
    requires item.Valid() && item.repr !! n.below && n !in item.repr
    modifies n`child, n.kids`next, n.kids`prev, item`next, item`prev
    ensures Linked(n.kids + [item], n.child) <==> EndsList(n.kids, old(item.next))
    ensures Holding(n, n.kids, n.below, v) && item.Valid()
  {
    hide Node.Valid, Partition, Linked, Inserted, Removed, Dressed;
    TextsAreNoNodes(n, n.kids);
    PartitionMembers(n.kids, n.below);
    OwnRepr(item);
    LinkLast(n, item);
  }

  method PutIn(n: Node, at: Node, item: Node, ghost i: nat, ghost v: Json)
    requires Linked(n.kids, n.child) && Holding(n, n.kids, n.below, v)
    requires item.Valid() && item.repr !! n.below && n !in item.repr
    requires i < |n.kids| && n.kids[i] == at
    modifies n`child, n.kids`next, n.kids`prev, item`next, item`prev
    ensures Linked(Inserted(n.kids, i, item), n.child) && Holding(n, n.kids, n.below, v) && item.Valid()
  {
    hide Node.Valid, Partition, Linked, Inserted, Removed, Dressed;
    TextsAreNoNodes(n, n.kids);
    PartitionMembers(n.kids, n.below);
    OwnRepr(item);
    LinkBefore(n, at, item, i);
  }

  method TakeOut(n: Node, item: Node, ghost i: nat, ghost v: Json)
    requires Linked(n.kids, n.child) && Holding(n, n.kids, n.below, v)
    requires i < |n.kids| && n.kids[i] == item
    modifies n`child, n.kids`next, n.kids`prev
    ensures Linked(Removed(n.kids, i), n.child) && Holding(n, n.kids, n.below, v)
    ensures item.next == null && item.prev == null
  {
    hide Node.Valid, Partition, Linked, Inserted, Removed, Dressed;
    TextsAreNoNodes(n, n.kids);
    PartitionMembers(n.kids, n.below);
    Unlink(n, item, i);
  }

  method Exchange(n: Node, item: Node, replacement: Node, ghost i: nat, ghost v: Json)
    requires Linked(n.kids, n.child) && Holding(n, n.kids, n.below, v)
    requires replacement.Valid() && replacement.repr !! n.below && n !in replacement.repr
    requires i < |n.kids| && n.kids[i] == item
    modifies n`child, n.kids`next, n.kids`prev, replacement`next, replacement`prev
    ensures Linked(n.kids[i := replacement], n.child) && Holding(n, n.kids, n.below, v) && replacement.Valid()
    ensures item.next == null && item.prev == null
  {
    hide Node.Valid, Partition, Linked, Inserted, Removed, Dressed;
    TextsAreNoNodes(n, n.kids);
    PartitionMembers(n.kids, n.below);
    OwnRepr(replacement);
    LinkInstead(n, item, replacement, i);
  }

  // ---- memory and documents after an edit -------------------------------------------------------------

  lemma {:induction false} PartitionJoin(a: seq<Node>, b: seq<Node>, mem: set<object>, more: set<object>)
    requires Partition(a, mem) && Partition(b, more) && mem !! more
    ensures Partition(a + b, mem + more)
    decreases |b|
  {
    if b == [] {
      assert a + b == a && mem + more == mem;
    } else {
      var n := |b| - 1;
      PartitionJoin(a, b[..n], mem, more - b[n].repr);
      assert (a + b)[..|a| + n] == a + b[..n];
      assert mem + more - b[n].repr == mem + (more - b[n].repr);
    }
  }

  lemma {:induction false} PartitionCut(a: seq<Node>, b: seq<Node>, mem: set<object>)
    returns (first: set<object>, second: set<object>)
    requires Partition(a + b, mem)
    ensures first + second == mem && first !! second && Partition(a, first) && Partition(b, second)
    decreases |b|
  {
    if b == [] {
      assert a + b == a;
      first, second := mem, {};
    } else {
      var n := |b| - 1;
      assert (a + b)[..|a| + n] == a + b[..n];
      first, second := PartitionCut(a, b[..n], mem - b[n].repr);
      assert second + b[n].repr - b[n].repr == second;
      second := second + b[n].repr;
    }
  }

  lemma PartitionOne(n: Node)
    ensures Partition([n], n.repr)
  {
    assert [n][..0] == [];
  }

  lemma PartitionInserted(kids: seq<Node>, mem: set<object>, i: nat, item: Node)
    requires Partition(kids, mem) && i <= |kids| && item.repr !! mem
    ensures Partition(Inserted(kids, i, item), mem + item.repr)
  {
    hide Partition;
    assert kids[..i] + kids[i..] == kids;
    var first, second := PartitionCut(kids[..i], kids[i..], mem);
    PartitionOne(item);
    PartitionJoin(kids[..i], [item], first, item.repr);
    PartitionJoin(kids[..i] + [item], kids[i..], first + item.repr, second);
    assert first + item.repr + second == mem + item.repr;
  }

  lemma GrownInserted(kids: seq<Node>, mem: set<object>, i: nat, item: Node)
    requires Grown(kids, mem) && i <= |kids| && item.Valid() && item.repr !! mem
    ensures Grown(Inserted(kids, i, item), mem + item.repr)
  {
    OwnRepr(item);
    hide Node.Valid, Partition;
    var all := Inserted(kids, i, item);
    PartitionInserted(kids, mem, i, item);
    forall j | 0 <= j < |all| ensures all[j] in all[j].repr && all[j].repr <= mem + item.repr && all[j].Valid() {
      assert all[j] == if j < i then kids[j] else if j == i then item else kids[j - 1];
    }
  }

  lemma PartitionRemoved(kids: seq<Node>, mem: set<object>, i: nat)
    requires Partition(kids, mem) && i < |kids|
    ensures Partition(Removed(kids, i), mem - kids[i].repr) && kids[i].repr <= mem
  {
    hide Partition;
    assert kids[..i] + kids[i..] == kids;
    var first, second := PartitionCut(kids[..i], kids[i..], mem);
    PartitionTail(kids[i..], second);
    assert kids[i..][1..] == kids[i + 1..];
    PartitionJoin(kids[..i], kids[i + 1..], first, second - kids[i].repr);
    assert first + (second - kids[i].repr) == mem - kids[i].repr;
  }

  lemma GrownRemoved(kids: seq<Node>, mem: set<object>, i: nat)
    requires Grown(kids, mem) && i < |kids|
    ensures Grown(Removed(kids, i), mem - kids[i].repr) && kids[i].Valid()
    ensures kids[i] in kids[i].repr && kids[i].repr <= mem
  {
    hide Node.Valid, Partition;
    var all, item := Removed(kids, i), kids[i];
    PartitionRemoved(kids, mem, i);
    PartitionMembers(kids, mem);
    forall j | 0 <= j < |all| ensures all[j] in all[j].repr && all[j].repr <= mem - item.repr && all[j].Valid() {
      assert all[j] == kids[if j < i then j else j + 1];
    }
  }

  lemma FitsSize(kids: seq<Node>, k: Kind, v: Json)
    requires ListFits(kids, k, v)
    ensures (v.Array? || v.Object?) && Size(v) == |kids|
  {
  }

  lemma NamedInserted(kids: seq<Node>, members: seq<Member>, i: nat, item: Node)
    requires Named(kids, members) && i <= |kids| && item.name != null && item.kind != Invalid
    ensures Named(Inserted(kids, i, item), Inserted(members, i, Member(CStr(item.name), item.model)))
  {
    var all := Inserted(kids, i, item);
    assert forall j :: 0 <= j < |all| ==> all[j] == if j < i then kids[j] else if j == i then item else kids[j - 1];
  }

  lemma ModelledInserted(kids: seq<Node>, models: seq<Json>, i: nat, item: Node)
    requires Modelled(kids, models) && i <= |kids| && item.kind != Invalid
    ensures Modelled(Inserted(kids, i, item), Inserted(models, i, item.model))
  {
    var all := Inserted(kids, i, item);
    assert forall j :: 0 <= j < |all| ==> all[j] == if j < i then kids[j] else if j == i then item else kids[j - 1];
  }

  lemma FitsInserted(kids: seq<Node>, k: Kind, v: Json, i: nat, item: Node)
    requires ListFits(kids, k, v) && i <= |kids| == Size(v)
    requires (k == IsObject ==> item.name != null) && item.kind != Invalid
    ensures ListFits(Inserted(kids, i, item), k, DocInserted(v, i, Entry(item)))
  {
    hide Named, Modelled, Inserted;
    if v.Array? {
      ModelledInserted(kids, v.items, i, item);
    } else {
      NamedInserted(kids, v.members, i, item);
    }
  }

  lemma FitsRemoved(kids: seq<Node>, k: Kind, v: Json, i: nat)
    requires ListFits(kids, k, v) && i < |kids| == Size(v)
    ensures ListFits(Removed(kids, i), k, DocRemoved(v, i))
  {
    var all := Removed(kids, i);
    assert forall j :: 0 <= j < |all| ==> all[j] == kids[if j < i then j else j + 1];
  }

  lemma HoldingInserted(n: Node, kids: seq<Node>, mem: set<object>, v: Json, i: nat, item: Node)
    requires Holding(n, kids, mem, v) && i <= |kids| && item.Valid() && item.repr !! mem
    requires n !in item.repr && n.Strings() !! item.repr
    requires (n.kind == IsObject ==> item.name != null) && item.kind != Invalid
    ensures (v.Array? || v.Object?) && Size(v) == |kids|
    ensures Holding(n, Inserted(kids, i, item), mem + item.repr, DocInserted(v, i, Entry(item)))
  {
    hide Node.Valid, Grown, ListFits, Inserted, DocInserted, Entry;
    FitsSize(kids, n.kind, v);
    GrownInserted(kids, mem, i, item);
    FitsInserted(kids, n.kind, v, i, item);
  }

  lemma HoldingRemoved(n: Node, kids: seq<Node>, mem: set<object>, v: Json, i: nat)
    requires Holding(n, kids, mem, v) && i < |kids|
    ensures (v.Array? || v.Object?) && Size(v) == |kids|
    ensures Holding(n, Removed(kids, i), mem - kids[i].repr, DocRemoved(v, i))
    ensures kids[i].Valid() && kids[i] in kids[i].repr && kids[i].repr <= mem
  {
    hide Node.Valid, Grown, ListFits, Removed, DocRemoved;
    FitsSize(kids, n.kind, v);
    GrownRemoved(kids, mem, i);
    FitsRemoved(kids, n.kind, v, i);
  }

  // ---- the operations ---------------------------------------------------------------------------------

  /** What a caller must respect when handing an item to an array or object. */
  ghost predicate CanTake(n: Node, item: Node)
    requires n.Valid()
    reads n, n.repr, item, item.repr
  {
    IsList(n) && item.Valid() && item.kind != Invalid && item.repr !! n.repr && (n.kind == IsObject ==> item.name != null)
  }

  /** The item has become the last one. */
  twostate predicate Appended(n: Node, item: Node)
    reads n, n.repr, item, if item.name == null then {} else {item.name}
  {
    && n.Valid() && n.kids == old(n.kids) + [item] && n.repr == old(n.repr) + item.repr
    && old(n.model.Array? || n.model.Object?) && Size(old(n.model)) == old(|n.kids|)
    && n.model == DocInserted(old(n.model), old(|n.kids|), Entry(item))
  }

  /** The links are those of the list with the item behind it exactly when the item may end a list, and
      then the item has become the last one. */
  twostate predicate Extended(n: Node, kids: seq<Node>, item: Node)
    reads n, n.repr, kids, item, item.repr, if item.name == null then {} else {item.name}
  {
    && item.Valid()
    && (Linked(kids + [item], n.child) <==> EndsList(kids, old(item.next)))
    && (EndsList(kids, old(item.next)) ==> Appended(n, item))
  }

  /** `add_item_to_array` on two nodes. */
  method AddLast(n: Node, item: Node)
    requires n.Valid() && CanTake(n, item)
    modifies n`child, n`kids, n`repr, n`below, n`model, n.kids`next, n.kids`prev, item`next, item`prev
    ensures Extended(n, old(n.kids), item)
  {
    hide Node.Valid, Linked, Holding, Inserted, DocInserted, Entry;
    ListHolding(n);
    ghost var kids, mem, v := n.kids, n.below, n.model;
    HoldingSize(n, kids, mem, v);
    Append(n, item, v);
    ghost var ends := EndsList(kids, old(item.next));
    if ends {
      HoldingInserted(n, kids, mem, v, |kids|, item);
      InsertedLast(kids, item);
      Settle(n, kids + [item], mem + item.repr, DocInserted(v, |kids|, Entry(item)));
      ListHolding(n);
    }
  }

  lemma HoldingSize(n: Node, kids: seq<Node>, mem: set<object>, v: Json)
    requires Holding(n, kids, mem, v)
    ensures (v.Array? || v.Object?) && Size(v) == |kids|
  {
    hide Grown;
  }

  lemma InsertedLast<T>(s: seq<T>, x: T)
    ensures Inserted(s, |s|, x) == s + [x]
  {
  }

  /** Brings the ghost fields of an array or object up to date with its new list. */
  ghost method Settle(n: Node, kids: seq<Node>, mem: set<object>, v: Json)
    requires Linked(kids, n.child) && Holding(n, kids, mem, v)
    modifies n`kids, n`repr, n`below, n`model
    ensures n.Valid() && n.kids == kids && n.below == mem && n.model == v && n.repr == {n} + n.Strings() + mem
  {
    hide Partition, Linked, Node.Valid, Dressed;
    GrownInside(kids, mem);
    TextsAreNoNodes(n, kids);
    n.kids, n.below, n.model := kids, mem, v;
    n.repr := {n} + n.Strings() + mem;
    HoldingValid(n);
  }

  /** `cJSON_AddItemToArray` */
  method AddItemToArray(list: Node?, item: Node?) returns (ok: bool)
    requires list != null && item != null && list != item ==> list.Valid() && CanTake(list, item)
    modifies if list == null then {} else {list}, if list == null then [] else list.kids
    modifies if item == null then {} else {item}
    ensures ok <==> list != null && item != null && list != item
    ensures !ok ==> (list != null ==> unchanged(list)) && (item != null ==> unchanged(item))
    ensures ok ==> Extended(list, old(list.kids), item)
  {
    hide Linked, Appended;
    if item == null || list == null || list == item {
      return false;
    }
    AddLast(list, item);
    return true;
  }

  /** `get_array_item` */
  method GetArrayItem(list: Node?, index: nat) returns (item: Node?)
    requires list != null ==> list.Valid()
    ensures item == if list != null && index < |list.kids| then list.kids[index] else null
  {
    hide Node.Valid;
    if list == null {
      return null;
    }
    ListParts(list);
    item := list.child;
    var left: nat := index;
    ghost var i := 0;
    while item != null && left > 0
      invariant i + left == index && i <= |list.kids|
      invariant item == if i < |list.kids| then list.kids[i] else null
    {
      ListParts(list);
      left := left - 1;
      item := item.next;
      i := i + 1;
    }
  }

  lemma ListParts(n: Node)
    requires n.Valid()
    ensures n.child == (if n.kids == [] then null else n.kids[0])
    ensures forall i :: 0 <= i < |n.kids| ==> n.kids[i].next == After(n.kids, i)
  {
    hide Partition;
  }

  /** The item has got the index, and those from there on the next one. */
  twostate predicate PutAt(n: Node, item: Node, i: nat)
    reads n, n.repr, item, item.repr, if item.name == null then {} else {item.name}
  {
    && n.Valid() && item.Valid()
    && i <= old(|n.kids|) && n.kids == Inserted(old(n.kids), i, item) && n.repr == old(n.repr) + item.repr
    && old(n.model.Array? || n.model.Object?) && Size(old(n.model)) == old(|n.kids|)
    && n.model == DocInserted(old(n.model), i, Entry(item))
  }

  /** `cJSON_InsertItemInArray`: the item gets index `which`, or becomes the last. An array is not
      appended to itself, but in front of an item it has it is linked into its own list. */
  method InsertItemInArray(list: Node?, which: int, item: Node?) returns (ok: bool)
    requires list != null ==> list.Valid()
    requires list != null && item != null && list != item ==> CanTake(list, item)
    modifies (if list == null then {} else {list})`child, (if list == null then {} else {list})`kids
    modifies (if list == null then {} else {list})`repr, (if list == null then {} else {list})`below
    modifies (if list == null then {} else {list})`model
    modifies (if list == null then [] else list.kids)`next, (if list == null then [] else list.kids)`prev
    modifies (if item == null then {} else {item})`next, (if item == null then {} else {item})`prev
    ensures ok <==> which >= 0 && item != null && list != null && (list != item || which < old(|list.kids|))
    ensures !ok ==> (list != null ==> unchanged(list)) && (item != null ==> unchanged(item))
    ensures ok && list != item ==>
      if which < old(|list.kids|) then PutAt(list, item, which) else Extended(list, old(list.kids), item)
    ensures ok && list == item ==> Linked(Inserted<Node>(old(list.kids), which, list), list.child)
  {
    hide Node.Valid, Linked, Holding, NextChain, Inserted, DocInserted, Entry;
    if which < 0 || item == null {
      return false;
    }
    var after := GetArrayItem(list, which);
    if after == null {
      ok := list != null && list != item;
      if ok {
        AddLast(list, item);
      }
      return;
    }
    OwnLinks(list);
    BackLinks(list, which);
    if after != list.child && after.prev == null {
      return false;
    }
    if list == item {
      LinkBefore(list, after, list, which);
    } else {
      InsertBefore(list, after, item, which);
    }
    return true;
  }

  lemma OwnLinks(n: Node)
    requires n.Valid()
    ensures Linked(n.kids, n.child) && n !in n.kids
  {
    hide Partition, NextChain, Node.ModelFits;
    forall i | 0 <= i < |n.kids| ensures n.kids[i] != n {
      KidAt(n, i);
      OwnRepr(n.kids[i]);
    }
  }

  method InsertBefore(n: Node, after: Node, item: Node, ghost i: nat)
    requires n.Valid() && CanTake(n, item) && i < |n.kids| && after == n.kids[i]
    modifies n`child, n`kids, n`repr, n`below, n`model, n.kids`next, n.kids`prev, item`next, item`prev
    ensures PutAt(n, item, i)
  {
    hide Node.Valid, Linked, Holding, Inserted, DocInserted, Entry;
    ListHolding(n);
    ghost var kids, mem, v := n.kids, n.below, n.model;
    PutIn(n, after, item, i, v);
    HoldingInserted(n, kids, mem, v, i, item);
    Settle(n, Inserted(kids, i, item), mem + item.repr, DocInserted(v, i, Entry(item)));
  }

  lemma BackLinks(n: Node, i: nat)
    requires Linked(n.kids, n.child) && i < |n.kids|
    ensures n.kids[i].prev != null
  {
    RingLinked(n.kids, n.child);
  }

  /** `cJSON_DetachItemViaPointer`: the item leaves the list whole, with links to nothing. */
  method DetachItemViaPointer(parent: Node?, item: Node?, ghost i: nat) returns (detached: Node?)
    requires parent != null && item != null ==>
      parent.Valid() && IsList(parent) && i < |parent.kids| && item == parent.kids[i]
    modifies if parent == null || item == null then {} else {parent}
    modifies if parent == null || item == null then [] else parent.kids
    ensures detached == if parent == null then null else item
    ensures detached != null ==>
      && parent.Valid() && item.Valid() && item.next == null && item.prev == null
      && parent.kids == Removed(old(parent.kids), i)
      && parent.repr == old(parent.repr) - item.repr && item.repr <= old(parent.repr)
      && old(parent.model.Array? || parent.model.Object?) && Size(old(parent.model)) == old(|parent.kids|)
      && parent.model == DocRemoved(old(parent.model), i)
  {
    if parent == null || item == null {
      return null;
    }
    DetachKid(parent, item, i);
    return item;
  }

  method DetachKid(n: Node, item: Node, ghost i: nat)
    requires n.Valid() && IsList(n) && i < |n.kids| && item == n.kids[i]
    modifies n`child, n`kids, n`repr, n`below, n`model, n.kids`next, n.kids`prev
    ensures n.Valid() && item.Valid() && item.next == null && item.prev == null
    ensures n.kids == Removed(old(n.kids), i) && n.repr == old(n.repr) - item.repr && item.repr <= old(n.repr)
    ensures old(n.model.Array? || n.model.Object?) && Size(old(n.model)) == old(|n.kids|)
    ensures n.model == DocRemoved(old(n.model), i)
  {
    hide Node.Valid, Linked, Holding, Removed, DocRemoved;
    ListHolding(n);
    ghost var kids, mem, v := n.kids, n.below, n.model;
    TakeOut(n, item, i, v);
    HoldingRemoved(n, kids, mem, v, i);
    Apart(n, kids, mem, v);
    Settle(n, Removed(kids, i), mem - item.repr, DocRemoved(v, i));
  }

  lemma Apart(n: Node, kids: seq<Node>, mem: set<object>, v: Json)
    requires Holding(n, kids, mem, v)
    ensures n !in mem && n.Strings() !! mem && IsList(n)
  {
    hide Grown, ListFits;
  }

  /** `cJSON_ReplaceItemViaPointer`: the replacement takes the item's index and the item is freed. */
  method ReplaceItemViaPointer(parent: Node?, item: Node?, replacement: Node?, alloc: Allocator, ghost i: nat)
    returns (ok: bool)
    requires alloc.Valid() && (parent != null ==> parent.Valid())
    requires parent != null && parent.kids != [] && item != null && replacement != null ==>
      && IsList(parent) && i < |parent.kids| && item == parent.kids[i]
      && (replacement != item ==> CanTake(parent, replacement))
      && parent.repr <= alloc.live && replacement.repr <= alloc.live
    modifies if parent == null || item == null || replacement == null then {} else {parent, replacement}
    modifies if parent == null || item == null || replacement == null then [] else parent.kids
    modifies alloc`live
    ensures ok <==> parent != null && old(parent.kids) != [] && item != null && replacement != null
    ensures alloc.Valid() && (parent != null ==> parent.Valid())
    ensures !ok ==> (parent != null ==> unchanged(parent)) && alloc.live == old(alloc.live)
    ensures ok ==>
      && old(parent.model.Array? || parent.model.Object?) && Size(old(parent.model)) == old(|parent.kids|)
      && parent.kids == old(parent.kids)[i := replacement]
    ensures ok && replacement == item ==>
      parent.model == old(parent.model) && parent.repr == old(parent.repr) && alloc.live == old(alloc.live)
    ensures ok && replacement != item ==>
      && replacement.Valid() && parent.model == DocReplaced(old(parent.model), i, Entry(replacement))
      && parent.repr == old(parent.repr) - old(item.repr) + replacement.repr
      && alloc.live == old(alloc.live) - old(item.repr)
  {
    hide Node.Valid, DocReplaced, Entry;
    if parent == null {
      return false;
    }
    ListParts(parent);
    if parent.child == null || replacement == null || item == null {
      return false;
    }
    ReplaceKid(parent, item, replacement, alloc, i);
    return true;
  }

  method ReplaceKid(n: Node, item: Node, replacement: Node, alloc: Allocator, ghost i: nat)
    requires n.Valid() && IsList(n) && i < |n.kids| && item == n.kids[i]
    requires replacement != item ==> CanTake(n, replacement)
    requires alloc.Valid() && n.repr <= alloc.live && replacement.repr <= alloc.live
    modifies n`child, n`kids, n`repr, n`below, n`model, n.kids`next, n.kids`prev
    modifies replacement`next, replacement`prev, alloc`live
    ensures n.Valid() && alloc.Valid() && n.kids == old(n.kids)[i := replacement]
    ensures old(n.model.Array? || n.model.Object?) && Size(old(n.model)) == old(|n.kids|)
    ensures replacement == item ==> n.model == old(n.model) && n.repr == old(n.repr) && alloc.live == old(alloc.live)
    ensures replacement != item ==>
      && replacement.Valid() && n.model == DocReplaced(old(n.model), i, Entry(replacement))
      && n.repr == old(n.repr) - old(item.repr) + replacement.repr && alloc.live == old(alloc.live) - old(item.repr)
  {
    hide Node.Valid, Linked, Holding, Inserted, Removed, DocInserted, DocRemoved, DocReplaced, Entry;
    ListHolding(n);
    ghost var kids, mem, v := n.kids, n.below, n.model;
    Apart(n, kids, mem, v);
    HoldingRemoved(n, kids, mem, v, i);
    if replacement == item {
      return;
    }
    Exchange(n, item, replacement, i, v);
    HoldingReplaced(n, kids, mem, v, i, replacement);
    Settle(n, kids[i := replacement], mem - item.repr + replacement.repr, DocReplaced(v, i, Entry(replacement)));
    DeleteRoot(item, alloc);
  }

  lemma HoldingReplaced(n: Node, kids: seq<Node>, mem: set<object>, v: Json, i: nat, item: Node)
    requires Holding(n, kids, mem, v) && i < |kids| && item.Valid() && item.repr !! mem
    requires n !in item.repr && n.Strings() !! item.repr
    requires (n.kind == IsObject ==> item.name != null) && item.kind != Invalid
    ensures (v.Array? || v.Object?) && Size(v) == |kids|
    ensures Holding(n, kids[i := item], mem - kids[i].repr + item.repr, DocReplaced(v, i, Entry(item)))
    ensures kids[i].Valid() && kids[i] in kids[i].repr && kids[i].repr <= mem
  {
    hide Node.Valid, Holding, Entry, Inserted, Removed;
    HoldingRemoved(n, kids, mem, v, i);
    InsertedRemoved(kids, i, item);
    HoldingInserted(n, Removed(kids, i), mem - kids[i].repr, DocRemoved(v, i), i, item);
    if v.Array? {
      InsertedRemoved(v.items, i, Entry(item).value);
    } else {
      InsertedRemoved(v.members, i, Entry(item));
    }
  }

  lemma InsertedRemoved<T>(s: seq<T>, i: nat, x: T)
    requires i < |s|
    ensures |Removed(s, i)| == |s| - 1 && Inserted(Removed(s, i), i, x) == s[i := x]
  {
  }
}
