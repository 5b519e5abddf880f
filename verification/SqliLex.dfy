/** What the SQL tokenizer reads at each position, as functions of the input. */
module SqliLex {
  import opened Text

  datatype LookupKind = Word | Operator

  type Lookup = (LookupKind, string) -> char

  datatype Flags = Flags(quoteNone: bool, quoteSingle: bool, quoteDouble: bool, ansi: bool, mysql: bool)

  /** Flags of zero mean no quote and ANSI. */
  function Effective(f: Flags): Flags {
    if f == Flags(false, false, false, false, false) then Flags(true, false, false, true, false) else f
  }

  datatype Source = Source(text: string, lookup: Lookup, flags: Flags)

  /** A token copied by value. Its stored length is always the length of `val`. */
  datatype Token = Token(kind: char, pos: nat, val: string, count: nat, strOpen: char, strClose: char)

  const TOKEN_SIZE: nat := 32
  const BLANK := Token(NUL, 0, "", 0, NUL, NUL)

  /** `next` is where reading goes on; the counters are what the read adds to the statistics. */
  datatype Lexeme = Lexeme(tok: Token, next: nat, ddx: nat := 0, hash: nat := 0)

  const NBSP := '\U{A0}'
  const WHITE := " \t\n\U{0B}\U{0C}\r\U{A0}"
  const WORD_STOPS := " []{}<>:\\?=@!#~+-*/&|^%(),';\t\n\U{0B}\U{0C}\r\"\U{A0}"
  const VAR_STOPS := " <>:\\?=@!#~+-*/&|^%(),';\t\n\U{0B}\U{0C}\r'`\""
  const HEX_DIGITS := "0123456789ABCDEFabcdef"
  const DOLLAR_TAG := "abcdefghjiklmnopqrstuvwxyzABCDEFGHIJKLMNOPQRSTUVWXYZ"

  /** `st_assign`: keep at most 31 bytes of the value. */
  function Assign(t: Token, kind: char, pos: nat, value: string): Token {
    t.(kind := kind, pos := pos, val := if |value| < TOKEN_SIZE then value else value[..TOKEN_SIZE - 1])
  }

  lemma AssignCuts(t: Token, kind: char, pos: nat, value: string)
    ensures Assign(t, kind, pos, value).val <= value
  {
  }

  /** The read moves on, stays in the input, and a token's value is the input at its position. */
  ghost predicate Placed(s: string, p: nat, lx: Lexeme) {
    && p < lx.next <= |s|
    && (lx.tok.kind == NUL ==> lx.tok == BLANK && lx.ddx == 0 && lx.hash == 0)
    && (lx.tok.kind != NUL ==>
          && p <= lx.tok.pos
          && lx.tok.pos + |lx.tok.val| <= lx.next
          && s[lx.tok.pos..lx.tok.pos + |lx.tok.val|] == lx.tok.val
          && |lx.tok.val| < TOKEN_SIZE)
  }

  /** A token cut out of the input. */
  function Slice(s: string, p: nat, t: Token, kind: char, pos: nat, e: nat, next: nat): (lx: Lexeme)
    requires p <= pos <= e <= next <= |s| && p < next && kind != NUL
    ensures lx == Lexeme(Assign(t, kind, pos, s[pos..e]), next) && Placed(s, p, lx)
  {
    assert |s[pos..e]| >= TOKEN_SIZE ==> s[pos..e][..TOKEN_SIZE - 1] == s[pos..pos + TOKEN_SIZE - 1];
    Lexeme(Assign(t, kind, pos, s[pos..e]), next)
  }

  // ---- quoted strings -------------------------------------------------------------------

  /** The closing delimiter found from the left: a backslash takes the next byte with it, a doubled
      delimiter is content. The length of `s` when the string never closes. */
  function CloseAt(s: string, i: nat, delim: char): (r: nat)
    requires i <= |s| && delim != '\\'
    ensures i <= r <= |s|
    ensures r < |s| ==> s[r] == delim
    decreases |s| - i
  {
    if i == |s| then i
    else if s[i] == '\\' then (if i + 1 == |s| then |s| else CloseAt(s, i + 2, delim))
    else if s[i] == delim then
      if i + 1 < |s| && s[i + 1] == delim then CloseAt(s, i + 2, delim) else i
    else CloseAt(s, i + 1, delim)
  }

  /** A string token from `p`, whose opening takes `offset` bytes (0 for a simulated quote). */
  function StringCore(s: string, p: nat, delim: char, offset: nat, t: Token): (lx: Lexeme)
    requires p + offset <= |s| && p < |s| && delim != '\\'
    ensures Placed(s, p, lx) && lx.tok.kind == 's'
  {
    var q := CloseAt(s, p + offset, delim);
    var open := t.(strOpen := if offset > 0 then delim else NUL);
    var tok := Assign(open, 's', p + offset, s[p + offset..q]);
    if q == |s| then Lexeme(tok.(strClose := NUL), |s|) else Lexeme(tok.(strClose := delim), q + 1)
  }

  // ---- single character parsers ------------------------------------------------------------

  function One(kind: char, s: string, p: nat): (lx: Lexeme)
    requires p < |s| && kind != NUL
    ensures Placed(s, p, lx)
  {
    Lexeme(BLANK.(kind := kind, pos := p, val := [s[p]]), p + 1)
  }

  function White(s: string, p: nat): (lx: Lexeme)
    requires p < |s|
    ensures Placed(s, p, lx)
  {
    Lexeme(BLANK, p + 1)
  }

  // ---- comments and operators ----------------------------------------------------------------

  function EolComment(s: string, p: nat): (lx: Lexeme)
    requires p < |s|
    ensures Placed(s, p, lx) && lx.tok.kind == 'c'
  {
    var e := IndexOf(s, '\n', p);
    Slice(s, p, BLANK, 'c', p, e, if e == |s| then e else e + 1)
  }

  function Hash(src: Source, p: nat): (lx: Lexeme)
    requires p < |src.text| && src.text[p] == '#'
    ensures Placed(src.text, p, lx)
  {
    if src.flags.mysql then EolComment(src.text, p).(hash := 2) else One('o', src.text, p).(hash := 1)
  }

  function Dash(src: Source, p: nat): (lx: Lexeme)
    requires p < |src.text|
    ensures Placed(src.text, p, lx)
  {
    var s := src.text;
    if p + 2 < |s| && s[p + 1] == '-' && StrChr(WHITE, s[p + 2]) then EolComment(s, p)
    else if p + 2 == |s| && s[p + 1] == '-' then EolComment(s, p)
    else if p + 1 < |s| && s[p + 1] == '-' && src.flags.ansi then EolComment(s, p).(ddx := 1)
    else One('o', s, p)
  }

  /** A comment that nests another one or starts with a version mark cannot be read reliably: kind 'X'. */
  function Slash(s: string, p: nat): (lx: Lexeme)
    requires p < |s|
    ensures Placed(s, p, lx)
  {
    if p + 1 == |s| || s[p + 1] != '*' then One('o', s, p)
    else
      var ptr := Find(s, "*/", p + 2, |s|);
      var next := if ptr == |s| then |s| else ptr + 2;
      var nested := ptr < |s| && Find(s, "/*", p + 2, ptr + 1) < ptr + 1;
      var versioned := p + 2 < |s| && s[p + 2] == '!';
      Slice(s, p, BLANK, if nested || versioned then 'X' else 'c', p, next, next)
  }

  /** A closing mark of the comment that opens at `p`; the opening slash and star take no part in it. */
  ghost predicate ClosesAt(s: string, p: nat, k: nat) {
    p + 2 <= k && OccursAt(s, "*/", k)
  }

  /** Where a comment ends, and when it is evil: with a version mark right behind its opening, or, if it
      is closed, with another opening before its end (which may share the star of the closing mark). */
  lemma SlashComment(s: string, p: nat)
    requires p + 1 < |s| && s[p + 1] == '*'
    ensures var lx := Slash(s, p);
      && (lx.tok.kind == 'X' || lx.tok.kind == 'c')
      && (if exists k: nat :: ClosesAt(s, p, k) then
            && lx.next >= 2 && ClosesAt(s, p, lx.next - 2)
            && forall k: nat :: k < lx.next - 2 ==> !ClosesAt(s, p, k)
          else lx.next == |s|)
      && (lx.tok.kind == 'X' <==>
            || (p + 2 < |s| && s[p + 2] == '!')
            || ((exists k: nat :: ClosesAt(s, p, k)) &&
                exists k: nat :: p + 2 <= k && k + 3 <= lx.next && OccursAt(s, "/*", k)))
  {
    hide OccursAt;
    var ptr := Find(s, "*/", p + 2, |s|);
    assert ptr < |s| ==> ClosesAt(s, p, ptr);
    forall k: nat | ClosesAt(s, p, k) ensures ptr <= k && k + 2 <= |s| {
      OccursWithin(s, "*/", k);
    }
    if ptr < |s| {
      var inner := Find(s, "/*", p + 2, ptr + 1);
      assert inner < ptr + 1 ==> OccursAt(s, "/*", inner);
    }
  }

  lemma OccursWithin(s: string, needle: string, k: nat)
    requires OccursAt(s, needle, k)
    ensures k + |needle| <= |s|
  {
  }

  function Backslash(s: string, p: nat): (lx: Lexeme)
    requires p < |s|
    ensures Placed(s, p, lx)
  {
    if p + 1 < |s| && s[p + 1] == 'N' then Slice(s, p, BLANK, '1', p, p + 2, p + 2)
    else One('\\', s, p)
  }

  function Operator2(src: Source, p: nat): (lx: Lexeme)
    requires p < |src.text|
    ensures Placed(src.text, p, lx)
  {
    var s := src.text;
    if p + 1 >= |s| then One('o', s, p)
    else if p + 2 < |s| && s[p..p + 3] == "<=>" then Slice(s, p, BLANK, 'o', p, p + 3, p + 3)
    else
      var ch := src.lookup(Operator, s[p..p + 2]);
      if ch != NUL then Slice(s, p, BLANK, ch, p, p + 2, p + 2)
      else if s[p] == ':' then Slice(s, p, BLANK, ':', p, p + 1, p + 1)
      else One('o', s, p)
  }

  // ---- words -----------------------------------------------------------------------------------

  /** First '.' or '`' at or after `i` in a word whose head before it is a known non-bareword. */
  function WordSplit(val: string, i: nat, lookup: Lookup): (r: nat)
    requires i <= |val|
    ensures i <= r <= |val|
    ensures r < |val| ==> val[r] in ".`" && lookup(Word, val[..r]) !in [NUL, 'n']
    ensures forall k :: i <= k < r && val[k] in ".`" ==> lookup(Word, val[..k]) in [NUL, 'n']
    decreases |val| - i
  {
    if i == |val| then i
    else if val[i] in ".`" && lookup(Word, val[..i]) !in [NUL, 'n'] then i
    else WordSplit(val, i + 1, lookup)
  }

  /** The first byte of a word is never one of the bytes that ends or splits it. */
  predicate StartsWord(s: string, p: nat) {
    p < |s| && !StrChr(WORD_STOPS, s[p]) && s[p] !in ".`"
  }

  function WordAt(src: Source, p: nat): (lx: Lexeme)
    requires StartsWord(src.text, p)
    ensures Placed(src.text, p, lx) && lx.tok.kind != NUL
  {
    var s := src.text;
    var e := Span(s, p, WORD_STOPS, false);
    assert e > p;
    var tok := Assign(BLANK, 'n', p, s[p..e]);
    var i := WordSplit(tok.val, 0, src.lookup);
    assert tok.val[0] == s[p];
    if i < |tok.val| then
      Slice(s, p, BLANK, src.lookup(Word, tok.val[..i]), p, p + i, p + i)
    else if e - p < TOKEN_SIZE then
      var ch := src.lookup(Word, tok.val);
      Lexeme(tok.(kind := if ch == NUL then 'n' else ch), e)
    else Lexeme(tok, e)
  }

  function Estring(src: Source, p: nat): (lx: Lexeme)
    requires StartsWord(src.text, p)
    ensures Placed(src.text, p, lx)
  {
    var s := src.text;
    if p + 2 >= |s| || s[p + 1] != '\'' then WordAt(src, p)
    else StringCore(s, p, '\'', 2, BLANK)
  }

  function Ustring(src: Source, p: nat): (lx: Lexeme)
    requires StartsWord(src.text, p)
    ensures Placed(src.text, p, lx)
  {
    var s := src.text;
    if p + 2 < |s| && s[p + 1] == '&' && s[p + 2] == '\'' then
      var lx := StringCore(s, p + 2, '\'', 1, BLANK);
      lx.(tok := lx.tok.(strOpen := 'u', strClose := if lx.tok.strClose == '\'' then 'u' else lx.tok.strClose))
    else WordAt(src, p)
  }

  function Partner(ch: char): char {
    match ch
    case '(' => ')'
    case '[' => ']'
    case '{' => '}'
    case '<' => '>'
    case _ => ch
  }

  /** Oracle's q'[...]' strings; `offset` is 1 after an N. Control and high bytes cannot delimit. */
  function QstringCore(src: Source, start: nat, offset: nat): (lx: Lexeme)
    requires StartsWord(src.text, start)
    ensures Placed(src.text, start, lx)
  {
    var s, p := src.text, start + offset;
    if p >= |s| || s[p] !in "qQ" || p + 2 >= |s| || s[p + 1] != '\'' then WordAt(src, start)
    else if Signed(s[p + 2]) < 33 then WordAt(src, start)
    else
      var e := Find(s, [Partner(s[p + 2]), '\''], p + 3, |s|);
      var tok := Assign(BLANK, 's', p + 3, s[p + 3..e]).(strOpen := 'q');
      if e == |s| then Lexeme(tok.(strClose := NUL), |s|) else Lexeme(tok.(strClose := 'q'), e + 2)
  }

  function Nqstring(src: Source, p: nat): (lx: Lexeme)
    requires StartsWord(src.text, p)
    ensures Placed(src.text, p, lx)
  {
    if p + 2 < |src.text| && src.text[p + 1] == '\'' then Estring(src, p) else QstringCore(src, p, 1)
  }

  /** b'01..' and x'0f..' literals */
  function DigitString(src: Source, p: nat, digits: string): (lx: Lexeme)
    requires StartsWord(src.text, p)
    ensures Placed(src.text, p, lx)
  {
    var s := src.text;
    if p + 2 >= |s| || s[p + 1] != '\'' then WordAt(src, p)
    else
      var e := Span(s, p + 2, digits, true);
      if e >= |s| || s[e] != '\'' then WordAt(src, p)
      else Slice(s, p, BLANK, '1', p, e + 1, e + 1)
  }

  function Bword(s: string, p: nat): (lx: Lexeme)
    requires p < |s|
    ensures Placed(s, p, lx)
  {
    var e := IndexOf(s, ']', p);
    var next := if e == |s| then |s| else e + 1;
    Slice(s, p, BLANK, 'n', p, next, next)
  }

  function Tick(src: Source, p: nat, t: Token): (lx: Lexeme)
    requires p < |src.text|
    ensures Placed(src.text, p, lx) && lx.tok.kind in "fn"
  {
    var lx := StringCore(src.text, p, '`', 1, t);
    lx.(tok := lx.tok.(kind := if src.lookup(Word, lx.tok.val) == 'f' then 'f' else 'n'))
  }

  /** The name of a variable that starts at `p`, read from `q` after its at signs. */
  function VarName(src: Source, p: nat, q: nat, t: Token): (lx: Lexeme)
    requires p < q <= |src.text|
    ensures Placed(src.text, p, lx)
  {
    var s := src.text;
    if q < |s| && s[q] == '`' then
      var lx := Tick(src, q, t);
      lx.(tok := lx.tok.(kind := 'v'))
    else if q < |s| && s[q] in "'\"" then
      var lx := StringCore(s, q, s[q], 1, t);
      lx.(tok := lx.tok.(kind := 'v'))
    else
      var e := Span(s, q, VAR_STOPS, false);
      Slice(s, p, t, 'v', q, e, e)
  }

  function Var(src: Source, p: nat): (lx: Lexeme)
    requires p < |src.text|
    ensures Placed(src.text, p, lx)
  {
    if p + 1 < |src.text| && src.text[p + 1] == '@' then VarName(src, p, p + 2, BLANK.(count := 2))
    else VarName(src, p, p + 1, BLANK.(count := 1))
  }

  // ---- dollars and numbers ------------------------------------------------------------------------

  /** A dollar-quoted string whose body starts at `b` and ends at the next `close`. */
  function DollarString(s: string, p: nat, b: nat, close: string): (lx: Lexeme)
    requires p < b <= |s| && 0 < |close|
    ensures Placed(s, p, lx)
  {
    var e := Find(s, close, b, |s|);
    var tok := Assign(BLANK, 's', b, s[b..e]).(strOpen := '$');
    if e == |s| then Lexeme(tok.(strClose := NUL), |s|) else Lexeme(tok.(strClose := '$'), e + |close|)
  }

  /** "$$" or "$tag$" opening a quoted string; otherwise the dollar stands alone. */
  function DollarQuote(s: string, p: nat): (lx: Lexeme)
    requires p + 1 < |s| && s[p] == '$'
    ensures Placed(s, p, lx)
  {
    if s[p + 1] == '$' then DollarString(s, p, p + 2, "$$")
    else
      var x := Span(s, p + 1, DOLLAR_TAG, true);
      if x == p + 1 || x == |s| || s[x] != '$' then One('n', s, p)
      else DollarString(s, p, x + 1, s[p..x + 1])
  }

  function Money(src: Source, p: nat): (lx: Lexeme)
    requires p < |src.text| && src.text[p] == '$' && StartsWord(src.text, p)
    ensures Placed(src.text, p, lx)
  {
    var s := src.text;
    if p + 1 == |s| then One('n', s, p)
    else
      var e := Span(s, p + 1, "0123456789.,", true);
      if e == p + 1 then DollarQuote(s, p)
      else if e == p + 2 && s[p + 1] == '.' then WordAt(src, p)
      else Slice(s, p, BLANK, '1', p, e, e)
  }

  /** After an exponent letter at `m`: an optional sign and digits. */
  function Exponent(s: string, m: nat): (r: (nat, bool))
    requires m < |s|
    ensures m < r.0 <= |s|
  {
    var m1 := if m + 1 < |s| && s[m + 1] in "+-" then m + 2 else m + 1;
    var m2 := Digits(s, m1);
    (m2, m2 > m1)
  }

  /** Oracle's float suffix, taken only when it cannot be the start of a word (or starts UNION). */
  function Suffix(s: string, e: nat): (r: nat)
    requires e <= |s|
    ensures e <= r <= |s|
  {
    if e < |s| && s[e] in "dDfF" && (e + 1 == |s| || StrChr(WHITE, s[e + 1]) || s[e + 1] in ";uU") then e + 1
    else e
  }

  /** The exponent and suffix of a number whose digits and point end at `m`. */
  function DecimalEnd(s: string, p: nat, m: nat): (lx: Lexeme)
    requires p < m <= |s|
    ensures Placed(s, p, lx)
  {
    var hasE := m < |s| && s[m] in "eE";
    var (x, hasExp) := if hasE then Exponent(s, m) else (m, false);
    var e := Suffix(s, x);
    if hasE && !hasExp then Lexeme(BLANK, e) else Slice(s, p, BLANK, '1', p, e, e)
  }

  /** A number with an exponent letter but no exponent digits ("1.e") is read and dropped. */
  function Decimal(s: string, p: nat): (lx: Lexeme)
    requires p < |s| && (IsDigit(s[p]) || s[p] == '.')
    ensures Placed(s, p, lx)
  {
    var d := Digits(s, p);
    var m := if d < |s| && s[d] == '.' then Digits(s, d + 1) else d;
    if d < |s| && s[d] == '.' && m - p == 1 then One('.', s, p) else DecimalEnd(s, p, m)
  }

  function NumberAt(s: string, p: nat): (lx: Lexeme)
    requires p < |s| && (IsDigit(s[p]) || s[p] == '.')
    ensures Placed(s, p, lx)
  {
    if s[p] == '0' && p + 1 < |s| && s[p + 1] in "xXbB" then
      var e := Span(s, p + 2, if s[p + 1] in "xX" then HEX_DIGITS else "01", true);
      if e == p + 2 then Slice(s, p, BLANK, 'n', p, p + 2, p + 2)
      else Slice(s, p, BLANK, '1', p, e, e)
    else Decimal(s, p)
  }

  // ---- the dispatch on the first byte -----------------------------------------------------------------

  predicate IsWordByte(c: char) {
    IsLetter(c) || c == '_' || c == '$' || (c as int >= 128 && c != NBSP)
  }

  lemma WordBytesStartWords(s: string, p: nat)
    requires p < |s| && IsWordByte(s[p])
    ensures StartsWord(s, p)
  {
  }

  function LexLetter(src: Source, p: nat): (lx: Lexeme)
    requires p < |src.text| && IsLetter(src.text[p]) && StartsWord(src.text, p)
    ensures Placed(src.text, p, lx)
  {
    match src.text[p]
    case 'B' | 'b' => DigitString(src, p, "01")
    case 'E' | 'e' => Estring(src, p)
    case 'N' | 'n' => Nqstring(src, p)
    case 'Q' | 'q' => QstringCore(src, p, 0)
    case 'U' | 'u' => Ustring(src, p)
    case 'X' | 'x' => DigitString(src, p, HEX_DIGITS)
    case _ => WordAt(src, p)
  }

  function LexMark(src: Source, p: nat): (lx: Lexeme)
    requires p < |src.text| && !IsDigit(src.text[p]) && !IsWordByte(src.text[p])
    ensures Placed(src.text, p, lx)
  {
    match src.text[p]
    case '!' | '&' | '*' | ':' | '<' | '=' | '>' | '|' => Operator2(src, p)
    case '"' | '\'' => StringCore(src.text, p, src.text[p], 1, BLANK)
    case '#' => Hash(src, p)
    case '%' | '+' | '^' | '~' => One('o', src.text, p)
    case '(' | ')' | ',' | ';' | '{' | '}' => One(src.text[p], src.text, p)
    case '-' => Dash(src, p)
    case '.' => NumberAt(src.text, p)
    case '/' => Slash(src.text, p)
    case '?' | ']' => One('?', src.text, p)
    case '@' => Var(src, p)
    case '[' => Bword(src.text, p)
    case '\\' => Backslash(src.text, p)
    case '`' => Tick(src, p, BLANK)
    case _ => White(src.text, p)
  }

  function LexAt(src: Source, p: nat): (lx: Lexeme)
    requires p < |src.text|
    ensures Placed(src.text, p, lx)
  {
    var c := src.text[p];
    if IsDigit(c) then NumberAt(src.text, p)
    else if !IsWordByte(c) then LexMark(src, p)
    else
      WordBytesStartWords(src.text, p);
      if IsLetter(c) then LexLetter(src, p)
      else if c == '$' then Money(src, p)
      else WordAt(src, p)
  }
}
