/** What the parser makes of a buffer, as functions of the buffer and a position. */
module JsonParse {
  import opened Text
  import opened JsonText
  import opened JsonValue

  /** `strtod` on text other than an exact integer: the value, restricted to integral ones, and how
      many bytes it consumed. */
  type Strtod = f: string -> Option<(int, nat)> |
    forall t :: f(t).Some? ==> 0 < f(t).value.1 <= |t|
    witness (t => None)

  // ---- white space ---------------------------------------------------------------------------

  function FirstNonWhite(s: string, o: nat): (r: nat)
    requires o <= |s|
    ensures o <= r <= |s|
    ensures forall k :: o <= k < r ==> s[k] <= ' '
    ensures r < |s| ==> s[r] > ' '
    decreases |s| - o
  {
    if o < |s| && s[o] <= ' ' then FirstNonWhite(s, o + 1) else o
  }

  /** Skips bytes up to 32; at the end of the buffer it steps back onto the last byte. */
  function SkipWhite(s: string, o: nat): (r: nat)
    requires o <= |s|
    ensures o <= r <= |s| && (o < |s| ==> r < |s|)
  {
    if o == |s| then o
    else
      var r := FirstNonWhite(s, o);
      if r == |s| then r - 1 else r
  }

  // ---- numbers ----------------------------------------------------------------------------------

  const NUMBER_BYTES: nat := 63

  predicate IsNumberByte(c: char) {
    IsDigit(c) || c == '+' || c == '-' || c == 'e' || c == 'E' || c == '.'
  }

  /** End of the run of number bytes that is copied for `strtod`, at most 63 of them. */
  function NumberRun(s: string, o: nat, room: nat): (r: nat)
    requires o <= |s|
    ensures o <= r <= |s| && r <= o + room
    ensures forall k :: o <= k < r ==> IsNumberByte(s[k])
    ensures r < |s| && r < o + room ==> !IsNumberByte(s[r])
    decreases room
  {
    if room == 0 || o == |s| || !IsNumberByte(s[o]) then o else NumberRun(s, o + 1, room - 1)
  }

  predicate IsIntegerText(t: string) {
    if t != "" && t[0] == '-' then |t| > 1 && AreDigits(t[1..]) else t != "" && AreDigits(t)
  }

  function IntegerValue(t: string): int
    requires IsIntegerText(t)
  {
    if t[0] == '-' then
      var magnitude: int := NatValue(t[1..]);
      -magnitude
    else NatValue(t)
  }

  /** `strtod` on number bytes. */
  function NumberOf(t: string, strtod: Strtod): (r: Option<(int, nat)>)
    ensures r.Some? ==> 0 < r.value.1 <= |t|
  {
    if IsIntegerText(t) && -EXACT <= IntegerValue(t) <= EXACT then Some((IntegerValue(t), |t|)) else strtod(t)
  }

  function ParseNumber(s: string, o: nat, strtod: Strtod): (r: Option<(Json, nat)>)
    requires o <= |s|
    ensures r.Some? ==> o < r.value.1 <= |s|
  {
    match NumberOf(s[o..NumberRun(s, o, NUMBER_BYTES)], strtod)
    case None => None
    case Some((n, len)) => Some((Number(n), o + len))
  }

  // ---- values --------------------------------------------------------------------------------------

  /** `strncmp` of the buffer against a literal. */
  predicate Reads(s: string, o: nat, literal: string) {
    o + |literal| <= |s| && s[o..o + |literal|] == literal
  }

  function ParseString(s: string, o: nat): (r: Option<(Json, nat)>)
    requires o < |s|
    ensures r.Some? ==> o < r.value.1 <= |s|
  {
    match ReadLiteral(s, o)
    case None => None
    case Some((bytes, next)) => Some((String(CString(bytes)), next))
  }

  /** A value at `o`, inside `depth` arrays and objects, and the position after it. */
  function ParseValue(s: string, o: nat, depth: nat, strtod: Strtod): (r: Option<(Json, nat)>)
    requires o <= |s|
    ensures r.Some? ==> o < r.value.1 <= |s|
    decreases |s| - o, 3
  {
    if Reads(s, o, "null") then Some((Null, o + 4))
    else if Reads(s, o, "false") then Some((Bool(false), o + 5))
    else if Reads(s, o, "true") then Some((Bool(true), o + 4))
    else if o == |s| then None
    else if s[o] == '"' then ParseString(s, o)
    else if s[o] == '-' || IsDigit(s[o]) then ParseNumber(s, o, strtod)
    else if s[o] == '[' then ParseArray(s, o, depth, strtod)
    else if s[o] == '{' then ParseObject(s, o, depth, strtod)
    else None
  }

  lemma Literals(s: string, o: nat, depth: nat, strtod: Strtod)
    requires o <= |s| && (Reads(s, o, "null") || Reads(s, o, "false") || Reads(s, o, "true"))
    ensures var r := ParseValue(s, o, depth, strtod);
      if Reads(s, o, "null") then r == Some((Null, o + 4))
      else if Reads(s, o, "false") then r == Some((Bool(false), o + 5))
      else r == Some((Bool(true), o + 4))
    ensures !(Reads(s, o, "null") && Reads(s, o, "false")) && o + 4 <= |s| && (Reads(s, o, "false") ==> o + 5 <= |s|)
  {
    hide ParseString, ParseNumber, ParseArray, ParseObject;
    assert Reads(s, o, "null") ==> s[o..o + 4][0] == 'n';
    assert Reads(s, o, "false") ==> s[o..o + 5][0] == 'f';
  }

  /** Text that is none of the three literals is told apart by its first byte. */
  lemma Dispatch(s: string, o: nat, depth: nat, strtod: Strtod)
    requires o <= |s| && !Reads(s, o, "null") && !Reads(s, o, "false") && !Reads(s, o, "true")
    ensures var r := ParseValue(s, o, depth, strtod);
      if o == |s| then r == None
      else if s[o] == '"' then r == ParseString(s, o)
      else if s[o] == '-' || IsDigit(s[o]) then r == ParseNumber(s, o, strtod)
      else if s[o] == '[' then r == ParseArray(s, o, depth, strtod)
      else if s[o] == '{' then r == ParseObject(s, o, depth, strtod)
      else r == None
  {
    hide Reads, ParseString, ParseNumber, ParseArray, ParseObject;
  }

  function ParseArray(s: string, o: nat, depth: nat, strtod: Strtod): (r: Option<(Json, nat)>)
    requires o < |s|
    ensures r.Some? ==> o < r.value.1 <= |s|
    decreases |s| - o, 2
  {
    if depth >= NESTING_LIMIT then None
    else
      var p := SkipWhite(s, o + 1);
      if p < |s| && s[p] == ']' then Some((Array([]), p + 1))
      else if p == |s| then None
      else
        match ParseItems(s, p, depth + 1, strtod)
        case None => None
        case Some((items, next)) => Some((Array(items), next))
  }

  /** The elements from `o` on, just after '[' or ',', up to and including ']'. */
  function ParseItems(s: string, o: nat, depth: nat, strtod: Strtod): (r: Option<(seq<Json>, nat)>)
    requires o <= |s|
    ensures r.Some? ==> o < r.value.1 <= |s| && r.value.0 != []
    decreases |s| - o, 4
  {
    match ParseValue(s, SkipWhite(s, o), depth, strtod)
    case None => None
    case Some((v, q)) =>
      var p := SkipWhite(s, q);
      if p < |s| && s[p] == ',' then
        match ParseItems(s, p + 1, depth, strtod)
        case None => None
        case Some((rest, next)) => Some(([v] + rest, next))
      else if p == |s| || s[p] != ']' then None
      else Some(([v], p + 1))
  }

  function ParseObject(s: string, o: nat, depth: nat, strtod: Strtod): (r: Option<(Json, nat)>)
    requires o < |s|
    ensures r.Some? ==> o < r.value.1 <= |s|
    decreases |s| - o, 2
  {
    if depth >= NESTING_LIMIT then None
    else
      var p := SkipWhite(s, o + 1);
      if p < |s| && s[p] == '}' then Some((Object([]), p + 1))
      else if p == |s| then None
      else
        match ParseMembers(s, p, depth + 1, strtod)
        case None => None
        case Some((members, next)) => Some((Object(members), next))
  }

  /** A name and the colon after it: the name and where the value may start. */
  function ParseName(s: string, o: nat): (r: Option<(string, nat)>)
    requires o <= |s|
    ensures r.Some? ==> o < r.value.1 <= |s|
  {
    if o == |s| then None
    else
      match ReadLiteral(s, SkipWhite(s, o))
      case None => None
      case Some((bytes, q)) =>
        var p := SkipWhite(s, q);
        if p == |s| || s[p] != ':' then None else Some((CString(bytes), SkipWhite(s, p + 1)))
  }

  function ParseMembers(s: string, o: nat, depth: nat, strtod: Strtod): (r: Option<(seq<Member>, nat)>)
    requires o <= |s|
    ensures r.Some? ==> o < r.value.1 <= |s| && r.value.0 != []
    decreases |s| - o, 4
  {
    match ParseName(s, o)
    case None => None
    case Some((key, start)) =>
      match ParseValue(s, start, depth, strtod)
      case None => None
      case Some((v, q)) =>
        var p := SkipWhite(s, q);
        if p < |s| && s[p] == ',' then
          match ParseMembers(s, p + 1, depth, strtod)
          case None => None
          case Some((rest, next)) => Some(([Member(key, v)] + rest, next))
        else if p == |s| || s[p] != '}' then None
        else Some(([Member(key, v)], p + 1))
  }

  // ---- whole documents ---------------------------------------------------------------------------------

  /** Past a UTF-8 byte order mark at the start. */
  function SkipBom(s: string): (r: nat)
    ensures r <= |s|
  {
    if 4 < |s| && s[..3] == "\U{EF}\U{BB}\U{BF}" then 3 else 0
  }

  /** `cJSON_ParseWithLengthOpts`: the document and where parsing ended. */
  function ParseDocument(s: string, terminated: bool, strtod: Strtod): (r: Option<(Json, nat)>)
    ensures r.Some? ==> r.value.1 <= |s|
  {
    if s == "" then None
    else
      match ParseValue(s, SkipWhite(s, SkipBom(s)), 0, strtod)
      case None => None
      case Some((v, q)) =>
        if !terminated then Some((v, q))
        else
          var p := SkipWhite(s, q);
          if p >= |s| || s[p] != NUL then None else Some((v, p))
  }

  // ---- the loops over elements and members -------------------------------------------------------------

  /** What has been read so far in front of what is still to come. */
  function Join<T>(before: seq<T>, r: Option<(seq<T>, nat)>): Option<(seq<T>, nat)> {
    match r
    case None => None
    case Some((rest, next)) => Some((before + rest, next))
  }

  lemma JoinTwice<T>(a: seq<T>, b: seq<T>, r: Option<(seq<T>, nat)>)
    ensures Join(a, Join(b, r)) == Join(a + b, r)
  {
    if r.Some? {
      assert a + (b + r.value.0) == a + b + r.value.0;
    }
  }

  lemma JoinNothing<T>(r: Option<(seq<T>, nat)>)
    ensures Join([], r) == r
  {
    if r.Some? {
      assert [] + r.value.0 == r.value.0;
    }
  }

  /** After an element or member: the closing bracket, or an error. */
  function Close<T>(all: seq<T>, s: string, p: nat, bracket: char): Option<(seq<T>, nat)> {
    if p < |s| && s[p] == bracket then Some((all, p + 1)) else None
  }

  /** One element more in front of the loop. */
  lemma ItemsStep(s: string, o: nat, depth: nat, strtod: Strtod, before: seq<Json>)
    requires o <= |s|
    ensures var r := ParseValue(s, SkipWhite(s, o), depth, strtod);
      && (r.None? ==> ParseItems(s, o, depth, strtod) == None)
      && (r.Some? ==>
            var p := SkipWhite(s, r.value.1);
            var all := before + [r.value.0];
            Join(before, ParseItems(s, o, depth, strtod)) ==
              if p < |s| && s[p] == ',' then Join(all, ParseItems(s, p + 1, depth, strtod)) else Close(all, s, p, ']'))
  {
    hide ParseValue, SkipWhite;
    var r := ParseValue(s, SkipWhite(s, o), depth, strtod);
    if r.Some? {
      var p := SkipWhite(s, r.value.1);
      if p < |s| && s[p] == ',' {
        JoinTwice(before, [r.value.0], ParseItems(s, p + 1, depth, strtod));
      }
    }
  }

  lemma MembersStep(s: string, o: nat, depth: nat, strtod: Strtod, before: seq<Member>)
    requires o <= |s| && ParseName(s, o).Some?
    ensures var (key, start) := ParseName(s, o).value;
      var r := ParseValue(s, start, depth, strtod);
      && (r.None? ==> ParseMembers(s, o, depth, strtod) == None)
      && (r.Some? ==>
            var p := SkipWhite(s, r.value.1);
            var all := before + [Member(key, r.value.0)];
            Join(before, ParseMembers(s, o, depth, strtod)) ==
              if p < |s| && s[p] == ',' then Join(all, ParseMembers(s, p + 1, depth, strtod)) else Close(all, s, p, '}'))
  {
    hide ParseValue, SkipWhite, ParseName;
    var (key, start) := ParseName(s, o).value;
    var r := ParseValue(s, start, depth, strtod);
    if r.Some? {
      var p := SkipWhite(s, r.value.1);
      if p < |s| && s[p] == ',' {
        JoinTwice(before, [Member(key, r.value.0)], ParseMembers(s, p + 1, depth, strtod));
      }
    }
  }
}
