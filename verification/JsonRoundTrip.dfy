/** Parsing what the printer wrote gives the document back, formatted or not. */
module JsonRoundTrip {
  import opened Text
  import opened JsonText
  import opened JsonValue
  import opened JsonParse

  // ---- white space and numbers -------------------------------------------------------------------

  lemma {:induction false} FirstNonWhiteIs(s: string, o: nat, q: nat)
    requires o <= q < |s| && s[q] > ' ' && forall k :: o <= k < q ==> s[k] <= ' '
    ensures FirstNonWhite(s, o) == q
    decreases q - o
  {
    if o < q {
      FirstNonWhiteIs(s, o + 1, q);
    }
  }

  lemma Skips(s: string, o: nat, q: nat)
    requires o <= q < |s| && s[q] > ' ' && forall k :: o <= k < q ==> s[k] <= ' '
    ensures SkipWhite(s, o) == q
  {
    FirstNonWhiteIs(s, o, q);
  }

  lemma {:induction false} NumberRunIs(s: string, o: nat, q: nat, room: nat)
    requires o <= q < |s| && q - o <= room && !IsNumberByte(s[q])
    requires forall k :: o <= k < q ==> IsNumberByte(s[k])
    ensures NumberRun(s, o, room) == q
    decreases q - o
  {
    if o < q {
      NumberRunIs(s, o + 1, q, room - 1);
    }
  }

  lemma DecimalShape(n: int)
    requires -EXACT <= n <= EXACT
    ensures var t := Decimal(n);
      && |t| <= 17 && IsIntegerText(t) && IntegerValue(t) == n
      && (t[0] == '-' || IsDigit(t[0]))
      && forall k :: 0 <= k < |t| ==> IsNumberByte(t[k])
  {
    var m := if n < 0 then -n else n;
    DecimalLength(n);
    NatInverts(m);
    var t := Decimal(n);
    if n < 0 {
      assert t[1..] == NatText(m);
      assert forall k :: 0 < k < |t| ==> t[k] == NatText(m)[k - 1];
    }
  }

  lemma NumberInPlace(s: string, o: nat, n: int)
    requires -EXACT <= n <= EXACT && Holds(s, o, Decimal(n))
    requires o + |Decimal(n)| < |s| && !IsNumberByte(s[o + |Decimal(n)|])
    ensures NumberRun(s, o, NUMBER_BYTES) == o + |Decimal(n)|
  {
    DecimalShape(n);
    var t := Decimal(n);
    hide Decimal, IsIntegerText, IsNumberByte;
    forall k | o <= k < o + |t|
      ensures IsNumberByte(s[k])
    {
      assert t[k - o] == s[o + (k - o)];
    }
    NumberRunIs(s, o, o + |t|, NUMBER_BYTES);
  }

  /** A printed integer is read back as itself. */
  lemma NumberInverts(s: string, o: nat, n: int, strtod: Strtod)
    requires -EXACT <= n <= EXACT && Holds(s, o, Decimal(n))
    requires o + |Decimal(n)| < |s| && !IsNumberByte(s[o + |Decimal(n)|])
    ensures ParseNumber(s, o, strtod) == Some((Number(n), o + |Decimal(n)|))
    ensures s[o] == '-' || IsDigit(s[o])
  {
    hide Decimal, IsIntegerText, IntegerValue, IsNumberByte, NumberRun, Holds;
    DecimalShape(n);
    NumberInPlace(s, o, n);
    HoldsSlice(s, o, Decimal(n));
    HoldsChar(s, o, Decimal(n), 0);
  }

  // ---- the structure of printed text -----------------------------------------------------------------

  /** A printed value starts with a byte that is neither white space nor a closing bracket. */
  lemma RenderStart(v: Json, fmt: bool, indent: nat)
    ensures var r := Render(v, fmt, indent);
      r != "" && r[0] > ' ' && r[0] != ']' && r[0] != '}' && r[0] != ','
    ensures v.String? || v.Array? || v.Object? ==> Render(v, fmt, indent)[0] in "\"[{"
  {
    if v.Number? {
      var n := v.n;
      assert n < 0 ==> Decimal(n)[0] == '-';
      assert n >= 0 ==> IsDigit(Decimal(n)[0]);
    }
  }

  lemma NotLiteral(s: string, o: nat)
    requires o < |s| && s[o] != 'n' && s[o] != 'f' && s[o] != 't'
    ensures !Reads(s, o, "null") && !Reads(s, o, "false") && !Reads(s, o, "true")
  {
    hide Reads;
    ReadsFirst(s, o);
  }

  lemma NoNul(str: string)
    requires NUL !in str
    ensures CString(str) == str
  {
    var i := IndexOf(str, NUL, 0);
  }

  lemma StringInverts(s: string, o: nat, str: string, depth: nat, strtod: Strtod)
    requires Holds(s, o, Quote(str)) && NUL !in str
    ensures ParseValue(s, o, depth, strtod) == Some((String(str), o + |Quote(str)|))
  {
    QuoteInverts(s, o, str);
    assert Quote(str)[0] == s[o];
    NotLiteral(s, o);
    NoNul(str);
  }

  lemma LiteralInverts(s: string, o: nat, v: Json, fmt: bool, indent: nat, depth: nat, strtod: Strtod)
    requires v.Null? || v.Bool?
    requires Holds(s, o, Render(v, fmt, indent))
    ensures ParseValue(s, o, depth, strtod) == Some((v, o + |Render(v, fmt, indent)|))
  {
    hide ParseValue, Holds;
    var r := Render(v, fmt, indent);
    HoldsSlice(s, o, r);
    HoldsChar(s, o, r, |r| - 1);
    assert Reads(s, o, r);
    hide Reads;
    ReadsFirst(s, o);
    HoldsChar(s, o, r, 0);
    Literals(s, o, depth, strtod);
  }

  lemma ReadsFirst(s: string, o: nat)
    requires o < |s|
    ensures Reads(s, o, "null") ==> s[o] == 'n'
    ensures Reads(s, o, "false") ==> s[o] == 'f'
    ensures Reads(s, o, "true") ==> s[o] == 't'
  {
    assert o + 4 <= |s| ==> s[o..o + 4][0] == s[o];
    assert o + 5 <= |s| ==> s[o..o + 5][0] == s[o];
  }

  // ---- how each kind of text is dispatched ---------------------------------------------------------------

  lemma DispatchByMark(s: string, o: nat, depth: nat, strtod: Strtod)
    requires o < |s| && (s[o] == '-' || IsDigit(s[o]) || s[o] == '[' || s[o] == '{')
    ensures ParseValue(s, o, depth, strtod) ==
      if s[o] == '[' then ParseArray(s, o, depth, strtod)
      else if s[o] == '{' then ParseObject(s, o, depth, strtod)
      else ParseNumber(s, o, strtod)
  {
    NotLiteral(s, o);
    Dispatch(s, o, depth, strtod);
    hide Reads, ParseValue, ParseArray, ParseObject, ParseNumber;
  }

  // ---- arrays ----------------------------------------------------------------------------------------------

  /** Only white space between `p` and `o`. */
  ghost predicate Gap(s: string, p: nat, o: nat) {
    p <= o <= |s| && forall k :: p <= k < o ==> s[k] <= ' '
  }

  lemma GapSkips(s: string, p: nat, o: nat)
    requires Gap(s, p, o) && o < |s| && s[o] > ' '
    ensures SkipWhite(s, p) == o
  {
    Skips(s, p, o);
  }

  lemma LastItem(items: seq<Json>, fmt: bool, depth: nat)
    requires |items| == 1
    ensures RenderItems(items, fmt, depth) == Render(items[0], fmt, depth)
  {
    hide Render;
    assert items[1..] == [];
  }

  lemma MoreItems(items: seq<Json>, fmt: bool, depth: nat)
    requires |items| > 1
    ensures RenderItems(items, fmt, depth) ==
      Render(items[0], fmt, depth) + Comma(fmt) + RenderItems(items[1..], fmt, depth)
  {
    hide Render;
  }

  /** The pieces of an array's text: the first element, then a comma and the rest, or the bracket. */
  lemma ItemsParts(s: string, o: nat, items: seq<Json>, fmt: bool, depth: nat)
    requires items != [] && Holds(s, o, RenderItems(items, fmt, depth) + "]")
    ensures var first := Render(items[0], fmt, depth);
      var q := o + |first|;
      && Holds(s, o, first) && q < |s|
      && (|items| == 1 ==> s[q] == ']' && |RenderItems(items, fmt, depth)| == |first|)
      && (|items| > 1 ==>
            && s[q] == ',' && Gap(s, q + 1, q + |Comma(fmt)|)
            && Holds(s, q + |Comma(fmt)|, RenderItems(items[1..], fmt, depth) + "]")
            && |RenderItems(items, fmt, depth)| == |first| + |Comma(fmt)| + |RenderItems(items[1..], fmt, depth)|)
  {
    hide Render, RenderItems, Holds;
    var first := Render(items[0], fmt, depth);
    var q := o + |first|;
    if |items| == 1 {
      LastItem(items, fmt, depth);
      HoldsParts(s, o, first, "]");
      HoldsChar(s, q, "]", 0);
    } else {
      MoreItems(items, fmt, depth);
      var rest := RenderItems(items[1..], fmt, depth) + "]";
      var comma := Comma(fmt);
      assert RenderItems(items, fmt, depth) + "]" == first + (comma + rest);
      HoldsParts(s, o, first, comma + rest);
      HoldsParts(s, q, comma, rest);
      HoldsChar(s, q, comma, 0);
      if fmt { HoldsChar(s, q, comma, 1); }
    }
  }

  lemma HoldsChar(s: string, o: nat, t: string, k: nat)
    requires Holds(s, o, t) && k < |t|
    ensures o + k < |s| && s[o + k] == t[k]
  {
  }

  /** The first byte of a value in place. */
  lemma StartInPlace(s: string, o: nat, v: Json, fmt: bool, depth: nat)
    requires Holds(s, o, Render(v, fmt, depth))
    ensures o < |s| && s[o] > ' ' && s[o] != ']' && s[o] != '}'
  {
    hide Holds, Render;
    RenderStart(v, fmt, depth);
    HoldsChar(s, o, Render(v, fmt, depth), 0);
  }

  /** What the loop over the elements makes of the first one, and of what follows. */
  lemma ParsesFirst(s: string, p: nat, o: nat, items: seq<Json>, q: nat, depth: nat, strtod: Strtod)
    requires items != [] && p <= |s| && o < |s| && q < |s| && SkipWhite(s, p) == o && SkipWhite(s, q) == q
    ensures ParseValue(s, o, depth, strtod) == None ==> ParseItems(s, p, depth, strtod) == None
    ensures ParseValue(s, o, depth, strtod) == Some((items[0], q)) ==>
      && (|items| == 1 && s[q] == ']' ==> ParseItems(s, p, depth, strtod) == Some((items, q + 1)))
      && (s[q] == ',' ==>
            var r := ParseItems(s, q + 1, depth, strtod);
            && (r == None ==> ParseItems(s, p, depth, strtod) == None)
            && (r.Some? && r.value.0 == items[1..] ==>
                  ParseItems(s, p, depth, strtod) == Some((items, r.value.1))))
  {
    hide ParseValue, SkipWhite;
    assert items == [items[0]] + items[1..];
    assert |items| == 1 ==> items == [items[0]];
  }

  /** A separator ends a number and is not white space. */
  lemma Delimits(s: string, q: nat)
    requires q < |s| && s[q] in ",]"
    ensures !IsNumberByte(s[q]) && SkipWhite(s, q) == q
  {
    Skips(s, q, q);
  }

  /** What the parser meets at the first element: where it starts, and a separator after it. */
  lemma FirstItem(s: string, p: nat, o: nat, items: seq<Json>, fmt: bool, depth: nat)
    requires items != [] && Gap(s, p, o) && Holds(s, o, RenderItems(items, fmt, depth) + "]")
    ensures var q := o + |Render(items[0], fmt, depth)|;
      && p <= |s| && o < |s| && q < |s| && Holds(s, o, Render(items[0], fmt, depth))
      && SkipWhite(s, p) == o && SkipWhite(s, q) == q && !IsNumberByte(s[q])
  {
    hide *;
    ItemsParts(s, o, items, fmt, depth);
    StartInPlace(s, o, items[0], fmt, depth);
    GapSkips(s, p, o);
    Delimits(s, o + |Render(items[0], fmt, depth)|);
  }

  lemma {:induction false} ItemsInvert(s: string, p: nat, o: nat, items: seq<Json>, fmt: bool, indent: nat,
                                       depth: nat, strtod: Strtod)
    requires items != [] && depth <= NESTING_LIMIT && p <= |s| && PlainItems(items)
    requires Gap(s, p, o) && Holds(s, o, RenderItems(items, fmt, indent) + "]")
    ensures ParseItems(s, p, depth, strtod) ==
      if NestsItems(items, NESTING_LIMIT - depth) then Some((items, o + |RenderItems(items, fmt, indent)| + 1)) else None
    decreases items, 0
  {
    hide *;
    FirstItem(s, p, o, items, fmt, indent);
    ItemsFirst(items, NESTING_LIMIT - depth);
    ValueInverts(s, o, items[0], fmt, indent, depth, strtod);
    ItemsParts(s, o, items, fmt, indent);
    var q := o + |Render(items[0], fmt, indent)|;
    ParsesFirst(s, p, o, items, q, depth, strtod);
    if |items| == 1 {
      NoneNest(NESTING_LIMIT - depth);
    } else {
      ItemsInvert(s, q + 1, q + |Comma(fmt)|, items[1..], fmt, indent, depth, strtod);
    }
  }

  lemma NoneNest(levels: nat)
    ensures NestsItems([], levels) && NestsMembers([], levels)
  {
  }

  lemma ArrayParts(s: string, o: nat, items: seq<Json>, fmt: bool, depth: nat)
    requires Holds(s, o, "[" + RenderItems(items, fmt, depth) + "]")
    ensures o + 1 < |s| && s[o] == '[' && Holds(s, o + 1, RenderItems(items, fmt, depth) + "]") && Gap(s, o + 1, o + 1)
    ensures items == [] ==> s[o + 1] == ']' && SkipWhite(s, o + 1) == o + 1
    ensures items != [] ==> s[o + 1] != ']' && SkipWhite(s, o + 1) == o + 1
  {
    hide Render, RenderItems, Holds, SkipWhite;
    var body := RenderItems(items, fmt, depth);
    assert "[" + body + "]" == "[" + (body + "]");
    HoldsParts(s, o, "[", body + "]");
    HoldsChar(s, o, "[", 0);
    HoldsChar(s, o + 1, body + "]", 0);
    if items == [] {
      EmptyItems(fmt, depth);
    } else {
      ItemsParts(s, o + 1, items, fmt, depth);
      StartInPlace(s, o + 1, items[0], fmt, depth);
    }
    GapSkips(s, o + 1, o + 1);
  }

  lemma {:induction false} ArrayInverts(s: string, o: nat, items: seq<Json>, fmt: bool, indent: nat, depth: nat,
                                        strtod: Strtod)
    requires Holds(s, o, "[" + RenderItems(items, fmt, indent) + "]") && depth <= NESTING_LIMIT && PlainItems(items)
    ensures ParseValue(s, o, depth, strtod) ==
      if Nests(Array(items), NESTING_LIMIT - depth) then Some((Array(items), o + |RenderItems(items, fmt, indent)| + 2))
      else None
    decreases items, 1
  {
    hide RenderItems, Holds, PlainItems, NestsItems, ParseValue, ParseItems, SkipWhite, Gap;
    ArrayParts(s, o, items, fmt, indent);
    DispatchByMark(s, o, depth, strtod);
    if items == [] {
      EmptyItems(fmt, indent);
      if depth < NESTING_LIMIT {
        NoneNest(NESTING_LIMIT - depth - 1);
      }
    } else if depth < NESTING_LIMIT {
      ItemsInvert(s, o + 1, o + 1, items, fmt, indent, depth + 1, strtod);
    }
  }

  lemma EmptyItems(fmt: bool, depth: nat)
    ensures RenderItems([], fmt, depth) == "" && RenderMembers([], fmt, depth) == ""
  {
  }

  // ---- values ------------------------------------------------------------------------------------------------

  lemma {:induction false} ValueInverts(s: string, o: nat, v: Json, fmt: bool, indent: nat, depth: nat, strtod: Strtod)
    requires Holds(s, o, Render(v, fmt, indent)) && depth <= NESTING_LIMIT && Plain(v)
    requires o + |Render(v, fmt, indent)| < |s| && !IsNumberByte(s[o + |Render(v, fmt, indent)|])
    ensures ParseValue(s, o, depth, strtod) ==
      if Nests(v, NESTING_LIMIT - depth) then Some((v, o + |Render(v, fmt, indent)|)) else None
    decreases v, 1
  {
    hide Holds, ParseValue, RenderItems, RenderMembers, Decimal, Quote;
    hide PlainItems, PlainMembers, NestsItems, NestsMembers;
    match v {
      case Null => LiteralInverts(s, o, v, fmt, indent, depth, strtod);
      case Bool(_) => LiteralInverts(s, o, v, fmt, indent, depth, strtod);
      case Number(n) =>
        NumberInverts(s, o, n, strtod);
        DispatchByMark(s, o, depth, strtod);
      case String(str) => StringInverts(s, o, str, depth, strtod);
      case Array(items) => ArrayInverts(s, o, items, fmt, indent + 1, depth, strtod);
      case Object(members) => ObjectInverts(s, o, members, fmt, indent, depth, strtod);
    }
  }

  // ---- objects ---------------------------------------------------------------------------------------------

  lemma IndentGap(s: string, o: nat, fmt: bool, depth: nat)
    requires Holds(s, o, Indent(fmt, depth))
    ensures Gap(s, o, o + |Indent(fmt, depth)|)
  {
    var t := Indent(fmt, depth);
    forall k | o <= k < o + |t|
      ensures s[k] <= ' '
    {
      assert t[k - o] == s[o + (k - o)];
    }
  }

  lemma GapJoins(s: string, p: nat, o: nat, q: nat)
    requires Gap(s, p, o) && Gap(s, o, q)
    ensures Gap(s, p, q)
  {
  }

  /** The pieces of a member's text: indentation, name, colon, value. */
  lemma MemberParts(s: string, o: nat, m: Member, fmt: bool, depth: nat)
    requires Holds(s, o, RenderMember(m, fmt, depth))
    ensures var k := o + |Indent(fmt, depth)|;
      var c := k + |Quote(m.key)|;
      var v := c + |Colon(fmt)|;
      && Gap(s, o, k) && Holds(s, k, Quote(m.key))
      && c < |s| && s[c] == ':' && Gap(s, c + 1, v)
      && Holds(s, v, Render(m.value, fmt, depth))
      && o + |RenderMember(m, fmt, depth)| == v + |Render(m.value, fmt, depth)|
  {
    hide Render, Holds, Quote, Indent;
    var ind, key, col, val := Indent(fmt, depth), Quote(m.key), Colon(fmt), Render(m.value, fmt, depth);
    assert RenderMember(m, fmt, depth) == ind + (key + (col + val));
    hide RenderMember;
    HoldsParts(s, o, ind, key + (col + val));
    HoldsParts(s, o + |ind|, key, col + val);
    HoldsParts(s, o + |ind| + |key|, col, val);
    IndentGap(s, o, fmt, depth);
    HoldsChar(s, o + |ind| + |key|, col, 0);
    if fmt { HoldsChar(s, o + |ind| + |key|, col, 1); }
  }

  /** The name before a value is read back, and the parser stands at the value. */
  lemma NameInverts(s: string, p: nat, o: nat, m: Member, fmt: bool, depth: nat)
    requires Gap(s, p, o) && Holds(s, o, RenderMember(m, fmt, depth)) && NUL !in m.key
    ensures p < |s| && o + |RenderMember(m, fmt, depth)| >= |Render(m.value, fmt, depth)|
    ensures ParseName(s, p) == Some((m.key, o + |RenderMember(m, fmt, depth)| - |Render(m.value, fmt, depth)|))
  {
    hide Render, RenderMember, Holds, Indent, SkipWhite, ReadLiteral, CString;
    MemberParts(s, o, m, fmt, depth);
    var k := o + |Indent(fmt, depth)|;
    var c := k + |Quote(m.key)|;
    var v := c + |Colon(fmt)|;
    QuoteInverts(s, k, m.key);
    HoldsChar(s, k, Quote(m.key), 0);
    GapJoins(s, p, o, k);
    GapSkips(s, p, k);
    GapSkips(s, c, c);
    StartInPlace(s, v, m.value, fmt, depth);
    GapSkips(s, c + 1, v);
    NoNul(m.key);
  }

  function Closing(fmt: bool, depth: nat): string
    requires depth > 0
  {
    Indent(fmt, depth - 1) + "}"
  }

  lemma MoreMembers(members: seq<Member>, fmt: bool, depth: nat)
    requires members != []
    ensures |members| == 1 ==> RenderMembers(members, fmt, depth) == RenderMember(members[0], fmt, depth) + NewLine(fmt)
    ensures |members| > 1 ==>
      RenderMembers(members, fmt, depth) ==
      RenderMember(members[0], fmt, depth) + "," + NewLine(fmt) + RenderMembers(members[1..], fmt, depth)
  {
    hide RenderMember;
    if |members| == 1 {
      assert members[1..] == [];
    }
  }

  /** The text after the last member: white space up to the closing brace. */
  lemma LastMemberParts(s: string, o: nat, m: Member, fmt: bool, depth: nat)
    requires depth > 0 && Holds(s, o, RenderMember(m, fmt, depth) + NewLine(fmt) + Closing(fmt, depth))
    ensures var q := o + |RenderMember(m, fmt, depth)|;
      var e := q + |NewLine(fmt)| + |Indent(fmt, depth - 1)|;
      && Holds(s, o, RenderMember(m, fmt, depth))
      && e < |s| && s[e] == '}' && Gap(s, q, e) && !IsNumberByte(s[q])
  {
    hide RenderMember, Holds, Indent;
    var first, nl, ind := RenderMember(m, fmt, depth), NewLine(fmt), Indent(fmt, depth - 1);
    var q := o + |first|;
    assert first + nl + Closing(fmt, depth) == first + (nl + (ind + "}"));
    HoldsParts(s, o, first, nl + (ind + "}"));
    HoldsParts(s, q, nl, ind + "}");
    HoldsParts(s, q + |nl|, ind, "}");
    IndentGap(s, q + |nl|, fmt, depth - 1);
    HoldsChar(s, q + |nl| + |ind|, "}", 0);
    if fmt {
      HoldsChar(s, q, nl, 0);
    } else {
      assert |ind| == 0 by { IndentPlain(depth - 1); }
    }
  }

  lemma IndentPlain(depth: nat)
    ensures Indent(false, depth) == ""
  {
  }

  lemma MoreMemberParts(s: string, o: nat, m: Member, rest: string, fmt: bool, depth: nat)
    requires Holds(s, o, RenderMember(m, fmt, depth) + "," + NewLine(fmt) + rest)
    ensures var q := o + |RenderMember(m, fmt, depth)|;
      && Holds(s, o, RenderMember(m, fmt, depth))
      && q < |s| && s[q] == ',' && Gap(s, q + 1, q + 1 + |NewLine(fmt)|) && Holds(s, q + 1 + |NewLine(fmt)|, rest)
  {
    hide RenderMember, Holds;
    var first, nl := RenderMember(m, fmt, depth), NewLine(fmt);
    var q := o + |first|;
    assert first + "," + nl + rest == first + ("," + (nl + rest));
    HoldsParts(s, o, first, "," + (nl + rest));
    HoldsParts(s, q, ",", nl + rest);
    HoldsParts(s, q + 1, nl, rest);
    HoldsChar(s, q, ",", 0);
    if fmt { HoldsChar(s, q + 1, nl, 0); }
  }

  /** What the loop over the members makes of the first one, and of what follows. */
  lemma ParsesFirstMember(s: string, p: nat, v: nat, members: seq<Member>, q: nat, depth: nat, strtod: Strtod)
    requires members != [] && p <= |s| && v <= |s| && q < |s|
    requires ParseName(s, p) == Some((members[0].key, v))
    ensures ParseValue(s, v, depth, strtod) == None ==> ParseMembers(s, p, depth, strtod) == None
    ensures ParseValue(s, v, depth, strtod) == Some((members[0].value, q)) ==>
      var e := SkipWhite(s, q);
      && (|members| == 1 && e < |s| && s[e] == '}' ==> ParseMembers(s, p, depth, strtod) == Some((members, e + 1)))
      && (e < |s| && s[e] == ',' ==>
            var r := ParseMembers(s, e + 1, depth, strtod);
            && (r == None ==> ParseMembers(s, p, depth, strtod) == None)
            && (r.Some? && r.value.0 == members[1..] ==>
                  ParseMembers(s, p, depth, strtod) == Some((members, r.value.1))))
  {
    hide ParseValue, SkipWhite, ParseName;
    assert members == [Member(members[0].key, members[0].value)] + members[1..];
    assert |members| == 1 ==> members == [Member(members[0].key, members[0].value)];
  }

  lemma {:induction false} MembersInvert(s: string, p: nat, o: nat, members: seq<Member>, fmt: bool, indent: nat,
                                         depth: nat, strtod: Strtod)
    requires members != [] && depth <= NESTING_LIMIT && indent > 0 && p <= |s| && PlainMembers(members)
    requires Gap(s, p, o) && Holds(s, o, RenderMembers(members, fmt, indent) + Closing(fmt, indent))
    ensures ParseMembers(s, p, depth, strtod) ==
      if NestsMembers(members, NESTING_LIMIT - depth) then
        Some((members, o + |RenderMembers(members, fmt, indent)| + |Closing(fmt, indent)|))
      else None
    decreases members, 0
  {
    hide *;
    var m := members[0];
    var first := RenderMember(m, fmt, indent);
    var q := o + |first|;
    MoreMembers(members, fmt, indent);
    MembersFirst(members, NESTING_LIMIT - depth);
    if |members| == 1 {
      LastMemberParts(s, o, m, fmt, indent);
      MemberValueInverts(s, p, o, m, fmt, indent, depth, strtod);
      GapSkips(s, q, q + |NewLine(fmt)| + |Indent(fmt, indent - 1)|);
      ParsesFirstMember(s, p, q - |Render(m.value, fmt, indent)|, members, q, depth, strtod);
      ClosingLength(fmt, indent);
      NoneNest(NESTING_LIMIT - depth);
    } else {
      var rest := RenderMembers(members[1..], fmt, indent) + Closing(fmt, indent);
      assert RenderMembers(members, fmt, indent) + Closing(fmt, indent) == first + "," + NewLine(fmt) + rest;
      MoreMemberParts(s, o, m, rest, fmt, indent);
      Delimits(s, q);
      MemberValueInverts(s, p, o, m, fmt, indent, depth, strtod);
      MembersInvert(s, q + 1, q + 1 + |NewLine(fmt)|, members[1..], fmt, indent, depth, strtod);
      ParsesFirstMember(s, p, q - |Render(m.value, fmt, indent)|, members, q, depth, strtod);
    }
  }

  lemma ClosingLength(fmt: bool, depth: nat)
    requires depth > 0
    ensures |Closing(fmt, depth)| == |Indent(fmt, depth - 1)| + 1
  {
  }

  /** Name and value of one member, up to the separator after it. */
  lemma {:induction false} MemberValueInverts(s: string, p: nat, o: nat, m: Member, fmt: bool, indent: nat,
                                              depth: nat, strtod: Strtod)
    requires depth <= NESTING_LIMIT && NUL !in m.key && Plain(m.value) && p <= |s|
    requires Gap(s, p, o) && Holds(s, o, RenderMember(m, fmt, indent))
    requires o + |RenderMember(m, fmt, indent)| < |s| && !IsNumberByte(s[o + |RenderMember(m, fmt, indent)|])
    ensures var q := o + |RenderMember(m, fmt, indent)|;
      var v := q - |Render(m.value, fmt, indent)|;
      && 0 <= v <= |s|
      && ParseName(s, p) == Some((m.key, v))
      && ParseValue(s, v, depth, strtod) == if Nests(m.value, NESTING_LIMIT - depth) then Some((m.value, q)) else None
    decreases m, 2
  {
    hide *;
    NameInverts(s, p, o, m, fmt, indent);
    MemberParts(s, o, m, fmt, indent);
    ValueInverts(s, o + |RenderMember(m, fmt, indent)| - |Render(m.value, fmt, indent)|,
                 m.value, fmt, indent, depth, strtod);
  }

  lemma NewLineGap(s: string, o: nat, fmt: bool)
    requires Holds(s, o, NewLine(fmt))
    ensures Gap(s, o, o + |NewLine(fmt)|)
  {
    if fmt { HoldsChar(s, o, NewLine(fmt), 0); }
  }

  /** After the opening brace the parser stands at the first name. */
  lemma FirstKey(s: string, p: nat, o: nat, members: seq<Member>, fmt: bool, depth: nat)
    requires members != [] && depth > 0 && Gap(s, p, o)
    requires Holds(s, o, RenderMembers(members, fmt, depth) + Closing(fmt, depth))
    ensures p < |s| && SkipWhite(s, p) < |s| && s[SkipWhite(s, p)] == '"'
  {
    hide *;
    var first := RenderMember(members[0], fmt, depth);
    MoreMembers(members, fmt, depth);
    var all := RenderMembers(members, fmt, depth) + Closing(fmt, depth);
    assert first <= all;
    assert all == first + all[|first|..];
    HoldsParts(s, o, first, all[|first|..]);
    MemberParts(s, o, members[0], fmt, depth);
    var k := o + |Indent(fmt, depth)|;
    QuoteStart(members[0].key);
    HoldsChar(s, k, Quote(members[0].key), 0);
    GapJoins(s, p, o, k);
    GapSkips(s, p, k);
    GapBounds(s, p, k);
  }

  lemma QuoteStart(str: string)
    ensures Quote(str) != "" && Quote(str)[0] == '"'
  {
  }

  lemma GapBounds(s: string, p: nat, o: nat)
    requires Gap(s, p, o)
    ensures p <= o <= |s|
  {
  }

  lemma SkippedName(s: string, p: nat)
    requires p < |s| && SkipWhite(s, p) < |s| && s[SkipWhite(s, p)] > ' '
    ensures ParseName(s, SkipWhite(s, p)) == ParseName(s, p)
  {
    Skips(s, SkipWhite(s, p), SkipWhite(s, p));
    hide SkipWhite, ReadLiteral, CString;
  }

  /** Members are read alike from before and after the white space in front of them. */
  lemma SkippedStart(s: string, p: nat, depth: nat, strtod: Strtod)
    requires p < |s| && SkipWhite(s, p) < |s| && s[SkipWhite(s, p)] > ' '
    ensures ParseMembers(s, SkipWhite(s, p), depth, strtod) == ParseMembers(s, p, depth, strtod)
  {
    hide ParseName, ParseValue, SkipWhite;
    SkippedName(s, p);
  }

  /** The pieces of an object's text. */
  lemma ObjectParts(s: string, o: nat, members: seq<Member>, fmt: bool, indent: nat)
    requires Holds(s, o, Render(Object(members), fmt, indent))
    ensures var b := o + 1 + |NewLine(fmt)|;
      var inside := RenderMembers(members, fmt, indent + 1) + Closing(fmt, indent + 1);
      && o + 1 < |s| && s[o] == '{' && Gap(s, o + 1, b) && Holds(s, b, inside)
      && o + |Render(Object(members), fmt, indent)| == b + |inside|
  {
    hide RenderMembers, Holds, Indent;
    var nl, body, closing := NewLine(fmt), RenderMembers(members, fmt, indent + 1), Closing(fmt, indent + 1);
    assert Render(Object(members), fmt, indent) == "{" + (nl + (body + closing));
    HoldsParts(s, o, "{", nl + (body + closing));
    HoldsParts(s, o + 1, nl, body + closing);
    HoldsChar(s, o, "{", 0);
    HoldsChar(s, o + 1, nl + (body + closing), 0);
    NewLineGap(s, o + 1, fmt);
  }

  lemma EmptyObject(s: string, p: nat, b: nat, fmt: bool, indent: nat)
    requires p < |s| && Gap(s, p, b) && Holds(s, b, RenderMembers([], fmt, indent + 1) + Closing(fmt, indent + 1))
    ensures var e := b + |Indent(fmt, indent)|; e < |s| && SkipWhite(s, p) == e && s[e] == '}'
  {
    hide Holds, SkipWhite;
    var e := b + |Indent(fmt, indent)|;
    assert RenderMembers([], fmt, indent + 1) + Closing(fmt, indent + 1) == Indent(fmt, indent) + "}";
    HoldsParts(s, b, Indent(fmt, indent), "}");
    IndentGap(s, b, fmt, indent);
    HoldsChar(s, e, "}", 0);
    GapJoins(s, p, b, e);
    GapSkips(s, p, e);
  }

  lemma {:induction false} ObjectInverts(s: string, o: nat, members: seq<Member>, fmt: bool, indent: nat,
                                         depth: nat, strtod: Strtod)
    requires Holds(s, o, Render(Object(members), fmt, indent)) && depth <= NESTING_LIMIT && PlainMembers(members)
    ensures ParseValue(s, o, depth, strtod) ==
      if Nests(Object(members), NESTING_LIMIT - depth) then
        Some((Object(members), o + |Render(Object(members), fmt, indent)|))
      else None
    decreases members, 1
  {
    hide Holds, PlainMembers, NestsMembers, ParseValue, ParseMembers, SkipWhite, Gap, Indent, Render, RenderMembers;
    hide Closing;
    ObjectParts(s, o, members, fmt, indent);
    ClosingLength(fmt, indent + 1);
    var b := o + 1 + |NewLine(fmt)|;
    DispatchByMark(s, o, depth, strtod);
    if depth < NESTING_LIMIT {
      if members == [] {
        EmptyItems(fmt, indent + 1);
        EmptyObject(s, o + 1, b, fmt, indent);
        NoneNest(NESTING_LIMIT - depth - 1);
      } else {
        FirstKey(s, o + 1, b, members, fmt, indent + 1);
        MembersInvert(s, o + 1, b, members, fmt, indent + 1, depth + 1, strtod);
        SkippedStart(s, o + 1, depth + 1, strtod);
      }
    }
  }

  // ---- whole documents ---------------------------------------------------------------------------------------

  /** For every plain document, the formatted and the unformatted text parse back to it and parsing
      ends exactly at the terminator, with or without the requirement of one; unless the document
      nests deeper than the parser goes, and then its text is refused. */
  lemma RoundTrip(v: Json, fmt: bool, terminated: bool, strtod: Strtod)
    requires Plain(v)
    ensures ParseDocument(Render(v, fmt, 0) + [NUL], terminated, strtod) ==
      if Nests(v, NESTING_LIMIT) then Some((v, |Render(v, fmt, 0)|)) else None
  {
    hide Render, Plain, Nests, ParseValue, Holds, SkipWhite;
    var r := Render(v, fmt, 0);
    var s := r + [NUL];
    assert Holds(s, 0, r) by { WholeHolds(r, [NUL]); }
    StartInPlace(s, 0, v, fmt, 0);
    RenderStart(v, fmt, 0);
    NotBom(v, fmt, [NUL]);
    GapSkips(s, 0, 0);
    ValueInverts(s, 0, v, fmt, 0, 0, strtod);
    EndOfText(s, |r|);
  }

  lemma WholeHolds(r: string, tail: string)
    ensures Holds(r + tail, 0, r)
  {
    assert forall k :: 0 <= k < |r| ==> r[k] == (r + tail)[0 + k];
  }

  /** The last byte of the buffer is where skipping white space stops. */
  lemma EndOfText(s: string, q: nat)
    requires q + 1 == |s| && s[q] == NUL
    ensures SkipWhite(s, q) == q
  {
  }

  /** No printed document starts with the bytes of a byte order mark. */
  lemma NotBom(v: Json, fmt: bool, tail: string)
    ensures SkipBom(Render(v, fmt, 0) + tail) == 0
  {
    var r := Render(v, fmt, 0);
    RenderStart(v, fmt, 0);
    RenderAscii(v, fmt);
    assert 4 < |r + tail| ==> (r + tail)[..3][0] == r[0];
  }

  lemma RenderAscii(v: Json, fmt: bool)
    ensures Render(v, fmt, 0) != "" && Render(v, fmt, 0)[0] as int < 128
  {
    if v.Number? {
      assert v.n >= 0 ==> IsDigit(Decimal(v.n)[0]);
    }
  }
}
