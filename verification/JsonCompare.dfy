/** Comparing documents: what the comparison computes on values, and when that is equality with
    objects as unordered maps. */
module JsonCompare {
  import opened Text
  import opened JsonValue

  // ---- numbers and keys ------------------------------------------------------------------------

  const EPSILON_INVERSE: int := 0x10_0000_0000_0000

  function Abs(n: int): nat {
    if n < 0 then -n else n
  }

  /** `compare_double` on integers: closer than an epsilon of the larger one. */
  predicate Close(a: int, b: int) {
    Abs(a - b) * EPSILON_INVERSE <= if Abs(a) > Abs(b) then Abs(a) else Abs(b)
  }

  /** A key as it is compared in the chosen case mode. */
  function Fold(key: string, sensitive: bool): string {
    if sensitive then key else Upper(key)
  }

  /** `get_object_item`: the first member with the key, or the number of members. */
  function FindMember(members: seq<Member>, key: string, sensitive: bool): (j: nat)
    ensures j <= |members|
    ensures j < |members| ==> Fold(members[j].key, sensitive) == Fold(key, sensitive)
    ensures forall k :: 0 <= k < j ==> Fold(members[k].key, sensitive) != Fold(key, sensitive)
  {
    if members == [] || Fold(members[0].key, sensitive) == Fold(key, sensitive) then 0
    else 1 + FindMember(members[1..], key, sensitive)
  }

  // ---- the comparison ------------------------------------------------------------------------------

  function Weight(v: Json): nat
    decreases v, 1
  {
    match v
    case Array(items) => 1 + ItemsWeight(items)
    case Object(members) => 1 + MembersWeight(members)
    case _ => 1
  }

  function ItemsWeight(items: seq<Json>): nat
    decreases items, 0
  {
    if items == [] then 0 else 1 + Weight(items[0]) + ItemsWeight(items[1..])
  }

  function MembersWeight(members: seq<Member>): nat
    decreases members, 0
  {
    if members == [] then 0 else 1 + Weight(members[0].value) + MembersWeight(members[1..])
  }

  lemma {:induction false} MemberWeight(members: seq<Member>, j: nat)
    requires j < |members|
    ensures Weight(members[j].value) < MembersWeight(members)
    decreases j
  {
    if j > 0 {
      MemberWeight(members[1..], j - 1);
    }
  }

  lemma {:induction false} ItemWeight(items: seq<Json>, j: nat)
    requires j < |items|
    ensures Weight(items[j]) < ItemsWeight(items)
    decreases j
  {
    if j > 0 {
      ItemWeight(items[1..], j - 1);
    }
  }

  /** `cJSON_Compare` on two items that are not the same node. */
  predicate Same(a: Json, b: Json, sensitive: bool)
    decreases Weight(a) + Weight(b)
  {
    match a
    case Null => b.Null?
    case Bool(x) => b == Bool(x)
    case Number(n) => b.Number? && Close(n, b.n)
    case String(s) => b == String(s)
    case Array(items) => b.Array? && SameItems(items, b.items, sensitive)
    case Object(members) =>
      b.Object? && Covers(members, b.members, sensitive) && Covers(b.members, members, sensitive)
  }

  predicate SameItems(a: seq<Json>, b: seq<Json>, sensitive: bool)
    decreases ItemsWeight(a) + ItemsWeight(b)
  {
    if a == [] || b == [] then a == b
    else Same(a[0], b[0], sensitive) && SameItems(a[1..], b[1..], sensitive)
  }

  /** Every member has a counterpart with the same value. */
  predicate Covers(a: seq<Member>, b: seq<Member>, sensitive: bool)
    decreases MembersWeight(a) + MembersWeight(b)
  {
    a == [] ||
    var j := FindMember(b, a[0].key, sensitive);
    j < |b| &&
    (MemberWeight(b, j);
     Same(a[0].value, b[j].value, sensitive) && Covers(a[1..], b, sensitive))
  }

  lemma CoversStep(xs: seq<Member>, ys: seq<Member>, i: nat, sensitive: bool)
    requires i < |xs|
    ensures var j := FindMember(ys, xs[i].key, sensitive);
      Covers(xs[i..], ys, sensitive) <==>
        j < |ys| && Same(xs[i].value, ys[j].value, sensitive) && Covers(xs[i + 1..], ys, sensitive)
  {
    hide Same, FindMember, Fold;
    assert xs[i..][0] == xs[i] && xs[i..][1..] == xs[i + 1..];
  }

  lemma CoversNothing(ys: seq<Member>, sensitive: bool)
    ensures Covers([], ys, sensitive)
  {
  }

  /** The comparison is symmetric, whatever the documents hold. */
  lemma {:induction false} SameSymmetric(a: Json, b: Json, sensitive: bool)
    ensures Same(a, b, sensitive) == Same(b, a, sensitive)
    decreases Weight(a)
  {
    if a.Array? && b.Array? {
      SameItemsSymmetric(a.items, b.items, sensitive);
    }
  }

  lemma {:induction false} SameItemsSymmetric(a: seq<Json>, b: seq<Json>, sensitive: bool)
    ensures SameItems(a, b, sensitive) == SameItems(b, a, sensitive)
    decreases ItemsWeight(a)
  {
    if a != [] && b != [] {
      SameSymmetric(a[0], b[0], sensitive);
      SameItemsSymmetric(a[1..], b[1..], sensitive);
    }
  }

  // ---- documents as values -----------------------------------------------------------------------------

  /** A document with its objects as unordered maps from keys to documents. */
  datatype Doc =
    | DocNull
    | DocBool(b: bool)
    | DocNumber(n: int)
    | DocString(s: string)
    | DocArray(items: seq<Doc>)
    | DocObject(members: map<string, Doc>)

  function Meaning(v: Json, sensitive: bool): Doc
    decreases v, 1
  {
    match v
    case Null => DocNull
    case Bool(b) => DocBool(b)
    case Number(n) => DocNumber(n)
    case String(s) => DocString(s)
    case Array(items) => DocArray(Meanings(items, sensitive))
    case Object(members) => DocObject(MapOf(members, sensitive))
  }

  function Meanings(items: seq<Json>, sensitive: bool): (r: seq<Doc>)
    ensures |r| == |items|
    decreases items, 0
  {
    if items == [] then [] else [Meaning(items[0], sensitive)] + Meanings(items[1..], sensitive)
  }

  function MapOf(members: seq<Member>, sensitive: bool): map<string, Doc>
    decreases members, 0
  {
    if members == [] then map[]
    else MapOf(members[1..], sensitive)[Fold(members[0].key, sensitive) := Meaning(members[0].value, sensitive)]
  }

  /** All numbers are below the precision of the comparison. */
  predicate Precise(v: Json)
    decreases v, 1
  {
    match v
    case Number(n) => Abs(n) < EPSILON_INVERSE
    case Array(items) => PreciseItems(items)
    case Object(members) => PreciseMembers(members)
    case _ => true
  }

  predicate PreciseItems(items: seq<Json>)
    decreases items, 0
  {
    forall i :: 0 <= i < |items| ==> Precise(items[i])
  }

  predicate PreciseMembers(members: seq<Member>)
    decreases members, 0
  {
    forall i :: 0 <= i < |members| ==> Precise(members[i].value)
  }

  /** In every object, members with the same key stand for the same document. */
  predicate Coherent(v: Json, sensitive: bool)
    decreases v, 1
  {
    match v
    case Array(items) => CoherentItems(items, sensitive)
    case Object(members) => CoherentMembers(members, sensitive) && RepeatsAgree(members, sensitive)
    case _ => true
  }

  predicate CoherentItems(items: seq<Json>, sensitive: bool)
    decreases items, 0
  {
    forall i :: 0 <= i < |items| ==> Coherent(items[i], sensitive)
  }

  predicate CoherentMembers(members: seq<Member>, sensitive: bool)
    decreases members, 0
  {
    forall i :: 0 <= i < |members| ==> Coherent(members[i].value, sensitive)
  }

  predicate RepeatsAgree(members: seq<Member>, sensitive: bool) {
    forall i, j | 0 <= i < |members| && 0 <= j < |members| ::
      Fold(members[i].key, sensitive) == Fold(members[j].key, sensitive) ==>
        Meaning(members[i].value, sensitive) == Meaning(members[j].value, sensitive)
  }

  /** No object holds a key twice. */
  predicate Unrepeated(v: Json, sensitive: bool)
    decreases v
  {
    match v
    case Array(items) => forall i :: 0 <= i < |items| ==> Unrepeated(items[i], sensitive)
    case Object(members) =>
      && DistinctKeys(members, sensitive)
      && forall i :: 0 <= i < |members| ==> Unrepeated(members[i].value, sensitive)
    case _ => true
  }

  predicate DistinctKeys(members: seq<Member>, sensitive: bool) {
    forall i, j :: 0 <= i < j < |members| ==> Fold(members[i].key, sensitive) != Fold(members[j].key, sensitive)
  }

  lemma {:induction false} UnrepeatedIsCoherent(v: Json, sensitive: bool)
    requires Unrepeated(v, sensitive)
    ensures Coherent(v, sensitive)
    decreases v
  {
    if v.Array? {
      forall i | 0 <= i < |v.items| ensures Coherent(v.items[i], sensitive) {
        UnrepeatedIsCoherent(v.items[i], sensitive);
      }
    } else if v.Object? {
      forall i | 0 <= i < |v.members| ensures Coherent(v.members[i].value, sensitive) {
        UnrepeatedIsCoherent(v.members[i].value, sensitive);
      }
    }
  }

  /** The first member with a key is what the map holds for it. */
  lemma {:induction false} MapFind(members: seq<Member>, key: string, sensitive: bool)
    ensures var j := FindMember(members, key, sensitive);
      var m := MapOf(members, sensitive);
      && (j < |members| <==> Fold(key, sensitive) in m)
      && (j < |members| ==> m[Fold(key, sensitive)] == Meaning(members[j].value, sensitive))
  {
    hide Fold, Meaning;
    if members != [] {
      MapFind(members[1..], key, sensitive);
    }
  }

  /** Every key of the map belongs to a member. */
  lemma {:induction false} MapKey(members: seq<Member>, k: string, sensitive: bool) returns (i: nat)
    requires k in MapOf(members, sensitive)
    ensures i < |members| && Fold(members[i].key, sensitive) == k
  {
    hide Fold, Meaning;
    if Fold(members[0].key, sensitive) == k {
      i := 0;
    } else {
      i := MapKey(members[1..], k, sensitive);
      i := i + 1;
    }
  }

  /** The map of `b` gives every member of `a` its value. */
  predicate Agrees(a: seq<Member>, b: seq<Member>, sensitive: bool) {
    forall i :: 0 <= i < |a| ==>
      && Fold(a[i].key, sensitive) in MapOf(b, sensitive)
      && MapOf(b, sensitive)[Fold(a[i].key, sensitive)] == Meaning(a[i].value, sensitive)
  }

  /** An object agrees with its own map when its repeated keys do. */
  lemma AgreesWithItself(a: seq<Member>, sensitive: bool)
    ensures Agrees(a, a, sensitive) <==> RepeatsAgree(a, sensitive)
  {
    hide Fold, Meaning, MapOf, FindMember;
    forall i | 0 <= i < |a|
      ensures var j := FindMember(a, a[i].key, sensitive);
        && j < |a| && Fold(a[i].key, sensitive) in MapOf(a, sensitive)
        && Fold(a[j].key, sensitive) == Fold(a[i].key, sensitive)
        && MapOf(a, sensitive)[Fold(a[i].key, sensitive)] == Meaning(a[j].value, sensitive)
    {
      MapFind(a, a[i].key, sensitive);
    }
  }

  /** Two objects agree with each other's maps when the maps are the same and each agrees with its own. */
  lemma AgreeingMaps(a: seq<Member>, b: seq<Member>, sensitive: bool)
    ensures Agrees(a, b, sensitive) && Agrees(b, a, sensitive) <==>
      && RepeatsAgree(a, sensitive) && RepeatsAgree(b, sensitive)
      && MapOf(a, sensitive) == MapOf(b, sensitive)
  {
    hide Fold, Meaning, MapOf, RepeatsAgree;
    AgreesWithItself(a, sensitive);
    AgreesWithItself(b, sensitive);
    if Agrees(a, b, sensitive) && Agrees(b, a, sensitive) {
      AgreeingRepeats(a, b, sensitive);
      AgreeingRepeats(b, a, sensitive);
      MapWithin(a, b, sensitive);
      MapWithin(b, a, sensitive);
      var m, n := MapOf(a, sensitive), MapOf(b, sensitive);
      assert m.Keys == n.Keys;
      assert m == n;
    }
  }

  lemma AgreeingRepeats(a: seq<Member>, b: seq<Member>, sensitive: bool)
    requires Agrees(a, b, sensitive)
    ensures RepeatsAgree(a, sensitive)
  {
    hide Fold, Meaning, MapOf;
  }

  lemma MapWithin(a: seq<Member>, b: seq<Member>, sensitive: bool)
    requires Agrees(a, b, sensitive)
    ensures forall k :: k in MapOf(a, sensitive) ==>
      k in MapOf(b, sensitive) && MapOf(b, sensitive)[k] == MapOf(a, sensitive)[k]
  {
    hide Fold, Meaning, MapOf, FindMember;
    forall k | k in MapOf(a, sensitive)
      ensures k in MapOf(b, sensitive) && MapOf(b, sensitive)[k] == MapOf(a, sensitive)[k]
    {
      var i := MapKey(a, k, sensitive);
      MapFind(a, a[i].key, sensitive);
      var j := FindMember(a, a[i].key, sensitive);
      assert MapOf(a, sensitive)[k] == Meaning(a[j].value, sensitive);
    }
  }

  /** When the comparison holds: equal documents, objects taken as unordered maps, in both of which
      repeated keys agree. From 2^52 on the tolerance for numbers lets more pairs pass. */
  lemma {:induction false} SameMeans(a: Json, b: Json, sensitive: bool)
    ensures Coherent(a, sensitive) && Coherent(b, sensitive) && Meaning(a, sensitive) == Meaning(b, sensitive)
      ==> Same(a, b, sensitive)
    ensures Precise(a) && Precise(b) ==>
      (Same(a, b, sensitive) <==>
       Coherent(a, sensitive) && Coherent(b, sensitive) && Meaning(a, sensitive) == Meaning(b, sensitive))
    decreases Weight(a) + Weight(b), 1
  {
    if a.Array? && b.Array? {
      hide SameItems, Meanings, CoherentItems, PreciseItems;
      ItemsMean(a.items, b.items, sensitive);
    } else if a.Object? && b.Object? {
      hide Covers, MapOf, CoherentMembers, PreciseMembers, RepeatsAgree;
      ObjectsMean(a.members, b.members, sensitive);
    }
  }

  lemma {:induction false} ItemsMean(a: seq<Json>, b: seq<Json>, sensitive: bool)
    ensures CoherentItems(a, sensitive) && CoherentItems(b, sensitive) && Meanings(a, sensitive) == Meanings(b, sensitive)
      ==> SameItems(a, b, sensitive)
    ensures PreciseItems(a) && PreciseItems(b) && SameItems(a, b, sensitive) ==>
      && CoherentItems(a, sensitive) && CoherentItems(b, sensitive)
      && Meanings(a, sensitive) == Meanings(b, sensitive)
    decreases ItemsWeight(a) + ItemsWeight(b), 0
  {
    hide Same, Meaning, Precise, Coherent;
    if a != [] && b != [] {
      SameMeans(a[0], b[0], sensitive);
      ItemsMean(a[1..], b[1..], sensitive);
      var m, n := Meanings(a, sensitive), Meanings(b, sensitive);
      assert m[0] == Meaning(a[0], sensitive) && m[1..] == Meanings(a[1..], sensitive);
      assert n[0] == Meaning(b[0], sensitive) && n[1..] == Meanings(b[1..], sensitive);
      assert m == n <==> m[0] == n[0] && m[1..] == n[1..];
      ItemsHead(a, sensitive);
      ItemsHead(b, sensitive);
    }
  }

  lemma ItemsHead(a: seq<Json>, sensitive: bool)
    requires a != []
    ensures CoherentItems(a, sensitive) <==> Coherent(a[0], sensitive) && CoherentItems(a[1..], sensitive)
    ensures PreciseItems(a) <==> Precise(a[0]) && PreciseItems(a[1..])
  {
    hide Coherent, Precise;
    var rest := a[1..];
    assert forall i :: 0 < i < |a| ==> a[i] == rest[i - 1];
  }

  lemma {:induction false} ObjectsMean(a: seq<Member>, b: seq<Member>, sensitive: bool)
    ensures
      && CoherentMembers(a, sensitive) && CoherentMembers(b, sensitive)
      && RepeatsAgree(a, sensitive) && RepeatsAgree(b, sensitive) && MapOf(a, sensitive) == MapOf(b, sensitive)
      ==> Covers(a, b, sensitive) && Covers(b, a, sensitive)
    ensures PreciseMembers(a) && PreciseMembers(b) && Covers(a, b, sensitive) && Covers(b, a, sensitive) ==>
      && CoherentMembers(a, sensitive) && CoherentMembers(b, sensitive)
      && RepeatsAgree(a, sensitive) && RepeatsAgree(b, sensitive) && MapOf(a, sensitive) == MapOf(b, sensitive)
    decreases MembersWeight(a) + MembersWeight(b), 1
  {
    hide Covers, MapOf, Agrees, RepeatsAgree, CoherentMembers, PreciseMembers;
    CoversMeans(a, b, sensitive);
    CoversMeans(b, a, sensitive);
    AgreeingMaps(a, b, sensitive);
  }

  lemma {:induction false} CoversMeans(a: seq<Member>, b: seq<Member>, sensitive: bool)
    ensures CoherentMembers(a, sensitive) && CoherentMembers(b, sensitive) && Agrees(a, b, sensitive)
      ==> Covers(a, b, sensitive)
    ensures PreciseMembers(a) && PreciseMembers(b) && Covers(a, b, sensitive)
      ==> CoherentMembers(a, sensitive) && Agrees(a, b, sensitive)
    decreases MembersWeight(a) + MembersWeight(b), 0
  {
    hide Same, Meaning, Precise, Coherent, Fold, MapOf;
    if a != [] {
      var j := FindMember(b, a[0].key, sensitive);
      MapFind(b, a[0].key, sensitive);
      if j < |b| {
        MemberWeight(b, j);
        SameMeans(a[0].value, b[j].value, sensitive);
        CoversMeans(a[1..], b, sensitive);
        AgreesTail(a, b, sensitive);
        MembersHead(a, sensitive);
      }
    }
  }

  lemma MembersHead(a: seq<Member>, sensitive: bool)
    requires a != []
    ensures CoherentMembers(a, sensitive) <==> Coherent(a[0].value, sensitive) && CoherentMembers(a[1..], sensitive)
    ensures PreciseMembers(a) <==> Precise(a[0].value) && PreciseMembers(a[1..])
  {
    hide Coherent, Precise;
    var rest := a[1..];
    assert forall i :: 0 < i < |a| ==> a[i] == rest[i - 1];
  }

  lemma AgreesTail(a: seq<Member>, b: seq<Member>, sensitive: bool)
    requires a != [] && Fold(a[0].key, sensitive) in MapOf(b, sensitive)
    ensures Agrees(a, b, sensitive) <==>
      && MapOf(b, sensitive)[Fold(a[0].key, sensitive)] == Meaning(a[0].value, sensitive)
      && Agrees(a[1..], b, sensitive)
  {
    hide Fold, MapOf, Meaning;
    var rest := a[1..];
    assert forall i :: 0 <= i < |rest| ==> rest[i] == a[i + 1];
    if Agrees(rest, b, sensitive) {
      forall i | 0 < i < |a|
        ensures Fold(a[i].key, sensitive) in MapOf(b, sensitive)
        ensures MapOf(b, sensitive)[Fold(a[i].key, sensitive)] == Meaning(a[i].value, sensitive)
      {
        assert a[i] == rest[i - 1];
      }
    }
  }

  /** The bound is sharp: from 2^52 on every number has another one that compares equal. */
  lemma ToleranceShows(n: int, sensitive: bool)
    ensures EPSILON_INVERSE <= Abs(n) <==>
      exists m :: m != n && Abs(m) <= Abs(n) && Same(Number(n), Number(m), sensitive)
  {
    if EPSILON_INVERSE <= Abs(n) {
      var m := if n > 0 then n - 1 else n + 1;
      assert Same(Number(n), Number(m), sensitive);
    }
  }

  /** Without repeated keys, and with numbers below 2^52, the comparison is equality of documents. */
  lemma SameIsEquality(a: Json, b: Json, sensitive: bool)
    requires Unrepeated(a, sensitive) && Unrepeated(b, sensitive) && Precise(a) && Precise(b)
    ensures Same(a, b, sensitive) <==> Meaning(a, sensitive) == Meaning(b, sensitive)
  {
    hide Same, Meaning, Unrepeated, Precise, Coherent;
    UnrepeatedIsCoherent(a, sensitive);
    UnrepeatedIsCoherent(b, sensitive);
    SameMeans(a, b, sensitive);
  }

  /** A document in which repeated keys agree compares equal to every copy of it; any other does not. */
  lemma SameAsItself(v: Json, sensitive: bool)
    ensures Coherent(v, sensitive) ==> Same(v, v, sensitive)
    ensures Precise(v) ==> (Same(v, v, sensitive) <==> Coherent(v, sensitive))
  {
    hide Same, Meaning, Precise, Coherent;
    SameMeans(v, v, sensitive);
  }
}
