/** JSON documents as values, and the text the printer gives them. */
module JsonValue {
  import opened Text
  import opened JsonText

  /** A document. Numbers are integral; a string is the bytes before its terminator. */
  datatype Json =
    | Null
    | Bool(b: bool)
    | Number(n: int)
    | String(s: string)
    | Array(items: seq<Json>)
    | Object(members: seq<Member>)

  datatype Member = Member(key: string, value: Json)

  const NESTING_LIMIT: nat := 1000
  /** Integers up to this magnitude are exact in a double. */
  const EXACT: int := 0x20_0000_0000_0000

  // ---- numbers ----------------------------------------------------------------------------------

  function DigitChar(d: nat): char
    requires d < 10
  {
    ('0' as int + d) as char
  }

  predicate AreDigits(s: string) {
    forall i :: 0 <= i < |s| ==> IsDigit(s[i])
  }

  function NatText(n: nat): (r: string)
    ensures |r| > 0 && AreDigits(r)
  {
    if n < 10 then [DigitChar(n)] else NatText(n / 10) + [DigitChar(n % 10)]
  }

  function NatValue(s: string): nat
    requires AreDigits(s)
  {
    if s == "" then 0
    else
      assert IsDigit(s[|s| - 1]);
      NatValue(s[..|s| - 1]) * 10 + (s[|s| - 1] as int - '0' as int)
  }

  /** `%ld` */
  function Decimal(n: int): (r: string)
    ensures |r| > 0
  {
    if n < 0 then "-" + NatText(-n) else NatText(n)
  }

  lemma {:induction false} NatInverts(n: nat)
    ensures NatValue(NatText(n)) == n
  {
    if n >= 10 {
      NatInverts(n / 10);
      assert NatText(n)[..|NatText(n)| - 1] == NatText(n / 10);
    }
  }

  lemma {:induction false} NatTextLength(n: nat, k: nat)
    requires n < Power10(k) && 0 < k
    ensures |NatText(n)| <= k
    decreases k
  {
    if n >= 10 {
      var less := Power10(k - 1);
      assert n / 10 < less;
      NatTextLength(n / 10, k - 1);
    }
  }

  function Power10(k: nat): nat {
    if k == 0 then 1 else 10 * Power10(k - 1)
  }

  lemma DecimalLength(n: int)
    requires -EXACT <= n <= EXACT
    ensures |Decimal(n)| <= 17 && NUL !in Decimal(n)
  {
    var m := if n < 0 then -n else n;
    assert Power10(16) == 10_000_000_000_000_000 by {
      assert Power10(4) == 10_000;
      assert Power10(8) == 100_000_000;
      assert Power10(12) == 1_000_000_000_000;
    }
    NatTextLength(m, 16);
  }

  // ---- rendering ------------------------------------------------------------------------------------

  function Indent(fmt: bool, depth: nat): string {
    if fmt then seq(depth, _ => '\t') else ""
  }

  function NewLine(fmt: bool): string {
    if fmt then "\n" else ""
  }

  function Comma(fmt: bool): string {
    if fmt then ", " else ","
  }

  function Colon(fmt: bool): string {
    if fmt then ":\t" else ":"
  }

  /** The text of a document whose enclosing arrays and objects number `depth`. */
  function Render(v: Json, fmt: bool, depth: nat): string
    decreases v, 1
  {
    match v
    case Null => "null"
    case Bool(b) => if b then "true" else "false"
    case Number(n) => Decimal(n)
    case String(s) => Quote(s)
    case Array(items) => "[" + RenderItems(items, fmt, depth + 1) + "]"
    case Object(members) =>
      "{" + NewLine(fmt) + RenderMembers(members, fmt, depth + 1) + Indent(fmt, depth) + "}"
  }

  function RenderItems(items: seq<Json>, fmt: bool, depth: nat): string
    decreases items, 0
  {
    if items == [] then ""
    else Render(items[0], fmt, depth) + (if |items| > 1 then Comma(fmt) else "") + RenderItems(items[1..], fmt, depth)
  }

  function RenderMember(m: Member, fmt: bool, depth: nat): string
    decreases m, 2
  {
    Indent(fmt, depth) + Quote(m.key) + Colon(fmt) + Render(m.value, fmt, depth)
  }

  function RenderMembers(members: seq<Member>, fmt: bool, depth: nat): string
    decreases members, 0
  {
    if members == [] then ""
    else
      RenderMember(members[0], fmt, depth) + (if |members| > 1 then "," else "") + NewLine(fmt)
      + RenderMembers(members[1..], fmt, depth)
  }

  // ---- documents that survive -------------------------------------------------------------------------------

  /** Strings without NUL, numbers exact in a double. */
  predicate Plain(v: Json)
    decreases v, 1
  {
    match v
    case Number(n) => -EXACT <= n <= EXACT
    case String(s) => NUL !in s
    case Array(items) => PlainItems(items)
    case Object(members) => PlainMembers(members)
    case _ => true
  }

  predicate PlainItems(items: seq<Json>)
    decreases items, 0
  {
    forall i :: 0 <= i < |items| ==> Plain(items[i])
  }

  predicate PlainMembers(members: seq<Member>)
    decreases members, 0
  {
    forall i :: 0 <= i < |members| ==> NUL !in members[i].key && Plain(members[i].value)
  }

  /** At most `levels` arrays and objects deep. */
  predicate Nests(v: Json, levels: nat)
    decreases v, 1
  {
    match v
    case Array(items) => levels > 0 && NestsItems(items, levels - 1)
    case Object(members) => levels > 0 && NestsMembers(members, levels - 1)
    case _ => true
  }

  predicate NestsItems(items: seq<Json>, levels: nat)
    decreases items, 0
  {
    forall i :: 0 <= i < |items| ==> Nests(items[i], levels)
  }

  predicate NestsMembers(members: seq<Member>, levels: nat)
    decreases members, 0
  {
    forall i :: 0 <= i < |members| ==> Nests(members[i].value, levels)
  }

  lemma ItemsFirst(items: seq<Json>, levels: nat)
    requires items != []
    ensures PlainItems(items) <==> Plain(items[0]) && PlainItems(items[1..])
    ensures NestsItems(items, levels) <==> Nests(items[0], levels) && NestsItems(items[1..], levels)
  {
    hide Plain, Nests;
    assert forall i :: 0 < i < |items| ==> items[i] == items[1..][i - 1];
  }

  lemma MembersFirst(members: seq<Member>, levels: nat)
    requires members != []
    ensures PlainMembers(members) <==>
      NUL !in members[0].key && Plain(members[0].value) && PlainMembers(members[1..])
    ensures NestsMembers(members, levels) <==> Nests(members[0].value, levels) && NestsMembers(members[1..], levels)
  {
    hide Plain, Nests;
    assert forall i :: 0 < i < |members| ==> members[i] == members[1..][i - 1];
  }
}
