/** The detector: the token stream of an input in each of five contexts, judged by tables of names. */
module XssDetect {
  import opened Text
  import opened Html5
  import opened Html5State
  import opened Xss

  datatype Attribute = NoType | Black | AttrUrl | Style | Indirect
  datatype Name = Name(word: string, kind: Attribute)

  /** The name tables: `BLACKTAG`, `BLACKATTREVENT` and `BLACKATTR`. */
  datatype Tables = Tables(tags: seq<string>, events: seq<Name>, attributes: seq<Name>)

  predicate IsTables(t: Tables) {
    && (forall i :: 0 <= i < |t.tags| ==> NUL !in t.tags[i])
    && (forall i :: 0 <= i < |t.events| ==> NUL !in t.events[i].word)
    && (forall i :: 0 <= i < |t.attributes| ==> NUL !in t.attributes[i].word)
  }

  // ---- judging one token --------------------------------------------------------------------------

  /** A word as it is compared: upcased, without NULs. */
  function Shown(t: string): string {
    Upper(WithoutNuls(t))
  }

  predicate StartsUpper(t: string, word: string) {
    |t| >= |word| && Upper(t[..|word|]) == word
  }

  predicate BlackTag(t: string, tables: Tables) {
    |t| >= 3 && (Shown(t) in tables.tags || StartsUpper(t, "SVG") || StartsUpper(t, "XSL"))
  }

  /** The kind of the first name that matches; each name is compared with at most `cut` of its length. */
  function Lookup(t: string, names: seq<Name>, cut: bool): Attribute {
    if names == [] then NoType
    else
      var n := |names[0].word|;
      if Shown(if cut && n < |t| then t[..n] else t) == names[0].word then names[0].kind
      else Lookup(t, names[1..], cut)
  }

  predicate Matches(t: string, names: seq<Name>, cut: bool) {
    names != [] &&
    (Shown(if cut && |names[0].word| < |t| then t[..|names[0].word|] else t) == names[0].word || Matches(t, names[1..], cut))
  }

  function AttributeKind(t: string, tables: Tables): Attribute {
    if |t| < 2 then NoType
    else if |t| >= 5 && StartsUpper(t, "ON") && Matches(t[2..], tables.events, true) then Lookup(t[2..], tables.events, true)
    else if |t| >= 5 && (Shown(t[..5]) == "XMLNS" || Shown(t[..5]) == "XLINK") then Black
    else Lookup(t, tables.attributes, false)
  }

  /** Past white space, control codes and everything outside ASCII. */
  function UrlStart(t: string): string {
    if t != "" && (Signed(t[0]) <= 32 || Signed(t[0]) >= 127) then UrlStart(t[1..]) else t
  }

  predicate BlackUrl(t: string) {
    var u := Unmasked(UrlStart(t));
    "DATA" <= u || "VIEW-SOURCE" <= u || "JAVA" <= u || "VBSCRIPT" <= u
  }

  predicate BlackComment(t: string) {
    || '`' in t
    || (|t| > 3 && t[0] == '[' && Upper(t[1..3]) == "IF")
    || (|t| > 3 && StartsUpper(t, "XML"))
    || (|t| > 5 && (Shown(t[..6]) == "IMPORT" || Shown(t[..6]) == "ENTITY"))
  }

  predicate BlackValue(t: string, attr: Attribute, tables: Tables) {
    match attr
    case NoType => false
    case Black => true
    case AttrUrl => BlackUrl(t)
    case Style => true
    case Indirect => AttributeKind(t, tables) != NoType
  }

  predicate BlackToken(kind: Kind, t: string, attr: Attribute, tables: Tables) {
    match kind
    case Doctype => true
    case TagNameOpen => BlackTag(t, tables)
    case AttrValue => BlackValue(t, attr, tables)
    case TagComment => BlackComment(t)
    case _ => false
  }

  /** The attribute whose value comes next. */
  function NextAttribute(kind: Kind, t: string, tables: Tables): Attribute {
    if kind == AttrName then AttributeKind(t, tables) else NoType
  }

  /** Whether some token of the stream is black, given the attribute name right before it. */
  predicate AnyBlack(s: string, ts: seq<Token>, attr: Attribute, tables: Tables)
    requires forall i :: 0 <= i < |ts| ==> ts[i].start + ts[i].len <= |s|
  {
    ts != [] &&
    var t := s[ts[0].start..ts[0].start + ts[0].len];
    BlackToken(ts[0].kind, t, attr, tables) || AnyBlack(s, ts[1..], NextAttribute(ts[0].kind, t, tables), tables)
  }

  // ---- the matchers as loops ---------------------------------------------------------------------------

  method IsBlackTag(t: string, tables: Tables) returns (black: bool)
    requires IsTables(tables)
    ensures black <==> BlackTag(t, tables)
  {
    if |t| < 3 {
      return false;
    }
    var i := 0;
    while i < |tables.tags|
      invariant 0 <= i <= |tables.tags| && Shown(t) !in tables.tags[..i]
    {
      var r := CStrCaseCmpWithNull(tables.tags[i], t);
      if r == 0 {
        return true;
      }
      assert tables.tags[..i + 1] == tables.tags[..i] + [tables.tags[i]];
      i := i + 1;
    }
    assert tables.tags[..i] == tables.tags;
    return Upper(t[..3]) == "SVG" || Upper(t[..3]) == "XSL";
  }

  method SearchNames(t: string, names: seq<Name>, cut: bool) returns (found: bool, kind: Attribute)
    requires forall i :: 0 <= i < |names| ==> NUL !in names[i].word
    ensures found <==> Matches(t, names, cut)
    ensures kind == Lookup(t, names, cut) && (!found ==> kind == NoType)
  {
    var i := 0;
    assert names[0..] == names;
    while i < |names|
      invariant 0 <= i <= |names|
      invariant Matches(t, names, cut) == Matches(t, names[i..], cut)
      invariant Lookup(t, names, cut) == Lookup(t, names[i..], cut)
    {
      assert names[i..][1..] == names[i + 1..] && names[i..][0] == names[i];
      var n := |names[i].word|;
      var r := CStrCaseCmpWithNull(names[i].word, if cut && n < |t| then t[..n] else t);
      if r == 0 {
        return true, names[i].kind;
      }
      i := i + 1;
    }
    return false, NoType;
  }

  method IsBlackAttr(t: string, tables: Tables) returns (kind: Attribute)
    requires IsTables(tables)
    ensures kind == AttributeKind(t, tables)
  {
    hide Matches, Lookup;
    if |t| < 2 {
      return NoType;
    }
    var found;
    if |t| >= 5 {
      if Upper(t[..2]) == "ON" {
        found, kind := SearchNames(t[2..], tables.events, true);
        if found {
          return;
        }
      }
      var x := CStrCaseCmpWithNull("XMLNS", t[..5]);
      var l := CStrCaseCmpWithNull("XLINK", t[..5]);
      if x == 0 || l == 0 {
        return Black;
      }
    }
    found, kind := SearchNames(t, tables.attributes, false);
  }

  method IsBlackUrl(t: string) returns (black: bool)
    requires IsBytes(t)
    ensures black <==> BlackUrl(t)
  {
    hide Unmasked;
    var u := t;
    while |u| > 0 && (Signed(u[0]) <= 32 || Signed(u[0]) >= 127)
      invariant IsBytes(u) && UrlStart(u) == UrlStart(t)
    {
      u := u[1..];
    }
    black := HtmlEncodeStartsWith("DATA", u);
    if !black {
      black := HtmlEncodeStartsWith("VIEW-SOURCE", u);
    }
    if !black {
      black := HtmlEncodeStartsWith("JAVA", u);
    }
    if !black {
      black := HtmlEncodeStartsWith("VBSCRIPT", u);
    }
  }

  method IsBlackComment(t: string) returns (black: bool)
    ensures black <==> BlackComment(t)
  {
    var tick := Memchr(t, '`', 0);
    if tick < |t| {
      return true;
    }
    if |t| > 3 {
      if t[0] == '[' && Upper(t[1..3]) == "IF" {
        return true;
      }
      if Upper(t[..3]) == "XML" {
        return true;
      }
    }
    if |t| > 5 {
      var i := CStrCaseCmpWithNull("IMPORT", t[..6]);
      var e := CStrCaseCmpWithNull("ENTITY", t[..6]);
      return i == 0 || e == 0;
    }
    return false;
  }

  method IsBlackToken(kind: Kind, t: string, attr: Attribute, tables: Tables) returns (black: bool)
    requires IsTables(tables) && IsBytes(t)
    ensures black <==> BlackToken(kind, t, attr, tables)
  {
    hide BlackTag, BlackUrl, BlackComment, AttributeKind;
    match kind
    case Doctype => black := true;
    case TagNameOpen => black := IsBlackTag(t, tables);
    case AttrValue =>
      if attr == AttrUrl {
        black := IsBlackUrl(t);
      } else if attr == Indirect {
        var k := IsBlackAttr(t, tables);
        black := k != NoType;
      } else {
        black := attr != NoType;
      }
    case TagComment => black := IsBlackComment(t);
    case _ => black := false;
  }

  // ---- the loop over tokens ------------------------------------------------------------------------------

  lemma TokensInside(s: string, c: Cursor)
    requires Sound(s, c)
    ensures forall i :: 0 <= i < |Tokens(s, c)| ==> Tokens(s, c)[i].start + Tokens(s, c)[i].len <= |s|
  {
    TokensOrdered(s, c);
  }

  /** The verdict on an input in one context. */
  predicate Detected(s: string, start: Cursor, tables: Tables)
    requires Sound(s, start)
  {
    TokensInside(s, start);
    AnyBlack(s, Tokens(s, start), NoType, tables)
  }

  /** `libinjection_is_xss`: it ends, never with an error, and says yes exactly when a token is black. */
  method IsXss(s: string, start: Cursor, tables: Tables) returns (r: int)
    requires IsBytes(s) && Starts(start) && IsTables(tables)
    ensures r == if Detected(s, start, tables) then 1 else 0
  {
    hide Next, AnyBlack, Tokens, BlackToken, NextAttribute;
    var h5 := new Tokenizer(s, start);
    var attr := NoType;
    TokensInside(s, start);
    while true
      invariant h5.s == s && h5.Valid() && Sound(s, h5.Here())
      invariant Sound(s, h5.Here()) && Rest(s, h5.Here(), attr, tables) == Detected(s, start, tables)
      decreases Measure(s, h5.Here())
    {
      ghost var c := h5.Here();
      NextGood(s, c);
      OneMore(s, c, attr, tables);
      var more := h5.NextToken();
      if more != 1 {
        return more;
      }
      var t := s[h5.tokenStart..h5.tokenStart + h5.tokenLen];
      if h5.tokenKind != AttrValue {
        attr := NoType;
      }
      var black := IsBlackToken(h5.tokenKind, t, attr, tables);
      AttributeOnlyForValues(h5.tokenKind, t, tables);
      if black {
        return 1;
      }
      attr := NoType;
      if h5.tokenKind == AttrName {
        attr := IsBlackAttr(t, tables);
      }
      AttributeNext(h5.tokenKind, t, tables);
    }
  }

  /** What the rest of the stream holds. */
  predicate Rest(s: string, c: Cursor, attr: Attribute, tables: Tables)
    requires Sound(s, c)
  {
    TokensInside(s, c);
    AnyBlack(s, Tokens(s, c), attr, tables)
  }

  lemma OneMore(s: string, c: Cursor, attr: Attribute, tables: Tables)
    requires Sound(s, c) && (Next(s, c).Emit? ==> Good(s, Next(s, c), Floor(c), Measure(s, c)))
    ensures match Next(s, c)
      case Stop(_) => !Rest(s, c, attr, tables)
      case Emit(n, t) =>
        var text := s[t.start..t.start + t.len];
        Rest(s, c, attr, tables) ==
          (BlackToken(t.kind, text, attr, tables) || Rest(s, n, NextAttribute(t.kind, text, tables), tables))
  {
    hide Next, BlackToken, NextAttribute;
    match Next(s, c)
    case Stop(_) =>
    case Emit(n, t) => assert ([t] + Tokens(s, n))[1..] == Tokens(s, n);
  }

  lemma AttributeOnlyForValues(kind: Kind, t: string, tables: Tables)
    ensures kind != AttrValue ==> forall a, b :: BlackToken(kind, t, a, tables) == BlackToken(kind, t, b, tables)
  {
  }

  lemma AttributeNext(kind: Kind, t: string, tables: Tables)
    ensures NextAttribute(kind, t, tables) == if kind == AttrName then AttributeKind(t, tables) else NoType
  {
  }

  function Start(state: State): Cursor {
    Cursor(state, 0, false)
  }

  /** `libinjection_xss`: the five contexts, in order. */
  method DetectXss(s: string, tables: Tables) returns (r: int)
    requires IsBytes(s) && IsTables(tables)
    ensures r == 1 <==>
      || Detected(s, Start(Data), tables) || Detected(s, Start(BeforeAttributeName), tables)
      || Detected(s, Start(SingleQuoted), tables) || Detected(s, Start(DoubleQuoted), tables)
      || Detected(s, Start(BackQuoted), tables)
    ensures r == 0 || r == 1
  {
    hide Detected;
    r := IsXss(s, Start(Data), tables);
    if r != 0 {
      return;
    }
    r := IsXss(s, Start(BeforeAttributeName), tables);
    if r != 0 {
      return;
    }
    r := IsXss(s, Start(SingleQuoted), tables);
    if r != 0 {
      return;
    }
    r := IsXss(s, Start(DoubleQuoted), tables);
    if r != 0 {
      return;
    }
    r := IsXss(s, Start(BackQuoted), tables);
  }
}
