/** The SQL engine's state: the input, the reading position, the token slots, the fingerprint
    and the statistics, all updated in place. Each method is proved against the function of
    SqliLex or SqliFold that says what it must leave behind. */
module SqliState {
  import opened Text
  import opened SqliLex
  import opened SqliFold
  import opened SqliString

  /** The code declares eight token slots. Here there are only the first six, so that every index
      check below says that no slot above the fifth is ever read or written. */
  const SLOTS: nat := MAX_TOKENS + 1

  const FINGERPRINT_SIZE: nat := 8

  class State {
    const text: string
    const lookup: Lookup
    const tokenvec: array<Token>
    const fingerprint: array<char>
    var flags: Flags
    var pos: nat
    var current: nat
    var statsTokens: nat
    var statsFolds: nat
    var statsDdx: nat
    var statsHash: nat

    ghost predicate Valid()
      reads this
    {
      tokenvec.Length == SLOTS && fingerprint.Length == FINGERPRINT_SIZE && current < SLOTS && pos <= |text|
    }

    ghost function Src(): Source
      reads this`flags
    {
      Source(text, lookup, flags)
    }

    ghost function GetStats(): Stats
      reads this
    {
      Stats(statsTokens, statsFolds, statsDdx, statsHash)
    }

    constructor (s: string, lookup: Lookup, flags: Flags)
      ensures Valid() && text == s && this.lookup == lookup && this.flags == flags
      ensures pos == 0 && GetStats() == NO_STATS
      ensures fresh(tokenvec) && fresh(fingerprint)
    {
      text, this.lookup, this.flags := s, lookup, flags;
      tokenvec := new Token[SLOTS](_ => BLANK);
      fingerprint := new char[FINGERPRINT_SIZE](_ => NUL);
      pos, current, statsTokens, statsFolds, statsDdx, statsHash := 0, 0, 0, 0, 0, 0;
    }

    /** What a character parser leaves behind: the token in the current slot and the counters. */
    twostate predicate Wrote(lx: Lexeme)
      reads this, tokenvec
    {
      && old(Valid()) && Valid()
      && tokenvec[..] == old(tokenvec[..])[current := lx.tok]
      && current == old(current) && flags == old(flags)
      && statsDdx == old(statsDdx) + lx.ddx && statsHash == old(statsHash) + lx.hash
    }

    /** The outcome of one read: a token in the current slot with the reading position after it and
        the statistics counting it, or the end of the input. The other slots stay as they are. */
    twostate predicate Took(r: Scanned, found: bool)
      reads this, tokenvec
    {
      && old(Valid()) && Valid() && current == old(current) && flags == old(flags)
      && (forall i :: 0 <= i < SLOTS && i != current ==> tokenvec[i] == old(tokenvec[i]))
      && statsFolds == old(statsFolds)
      && match r {
           case Found(tok, next, ddx, hash) =>
             && found && tokenvec[current] == tok && pos == next
             && statsTokens == old(statsTokens) + 1
             && statsDdx == old(statsDdx) + ddx && statsHash == old(statsHash) + hash
           case Exhausted => !found && pos == |text| && GetStats() == old(GetStats())
         }
    }

    // ---- storing tokens --------------------------------------------------------------------

    method StAssignChar(kind: char, p: nat, value: char)
      requires Valid()
      modifies tokenvec
      ensures tokenvec[..] == old(tokenvec[..])[current := old(tokenvec[current]).(kind := kind, pos := p, val := [value])]
    {
      tokenvec[current] := tokenvec[current].(kind := kind, pos := p, val := [value]);
    }

    method StAssign(kind: char, p: nat, value: string)
      requires Valid()
      modifies tokenvec
      ensures tokenvec[..] == old(tokenvec[..])[current := Assign(old(tokenvec[current]), kind, p, value)]
    {
      var last := if |value| < TOKEN_SIZE then |value| else TOKEN_SIZE - 1;
      assert |value| < TOKEN_SIZE ==> value[..last] == value;
      tokenvec[current] := tokenvec[current].(kind := kind, pos := p, val := value[..last]);
    }

    method SetOpen(c: char)
      requires Valid()
      modifies tokenvec
      ensures tokenvec[..] == old(tokenvec[..])[current := old(tokenvec[current]).(strOpen := c)]
    {
      tokenvec[current] := tokenvec[current].(strOpen := c);
    }

    method SetClose(c: char)
      requires Valid()
      modifies tokenvec
      ensures tokenvec[..] == old(tokenvec[..])[current := old(tokenvec[current]).(strClose := c)]
    {
      tokenvec[current] := tokenvec[current].(strClose := c);
    }

    method SetKind(kind: char)
      requires Valid()
      modifies tokenvec
      ensures tokenvec[..] == old(tokenvec[..])[current := old(tokenvec[current]).(kind := kind)]
    {
      tokenvec[current] := tokenvec[current].(kind := kind);
    }

    // ---- character parsers ---------------------------------------------------------------

    method ParseWhite() returns (next: nat)
      requires Valid() && pos < |text| && tokenvec[current] == BLANK
      modifies this`pos, this`statsDdx, this`statsHash, tokenvec
      ensures Wrote(White(text, old(pos))) && next == White(text, old(pos)).next
    {
      return pos + 1;
    }

    method ParseOperator1() returns (next: nat)
      requires Valid() && pos < |text| && tokenvec[current] == BLANK
      modifies this`pos, this`statsDdx, this`statsHash, tokenvec
      ensures Wrote(One('o', text, old(pos))) && next == One('o', text, old(pos)).next
    {
      StAssignChar('o', pos, text[pos]);
      return pos + 1;
    }

    method ParseOther() returns (next: nat)
      requires Valid() && pos < |text| && tokenvec[current] == BLANK
      modifies this`pos, this`statsDdx, this`statsHash, tokenvec
      ensures Wrote(One('?', text, old(pos))) && next == One('?', text, old(pos)).next
    {
      StAssignChar('?', pos, text[pos]);
      return pos + 1;
    }

    method ParseChar() returns (next: nat)
      requires Valid() && pos < |text| && tokenvec[current] == BLANK
      requires text[pos] != NUL
      modifies this`pos, this`statsDdx, this`statsHash, tokenvec
      ensures Wrote(One(text[old(pos)], text, old(pos))) && next == One(text[old(pos)], text, old(pos)).next
    {
      StAssignChar(text[pos], pos, text[pos]);
      return pos + 1;
    }

    method ParseEolComment() returns (next: nat)
      requires Valid() && pos < |text| && tokenvec[current] == BLANK
      modifies this`pos, this`statsDdx, this`statsHash, tokenvec
      ensures Wrote(EolComment(text, old(pos))) && next == EolComment(text, old(pos)).next
    {
      var e := Memchr(text, '\n', pos);
      StAssign('c', pos, text[pos..e]);
      return if e == |text| then |text| else e + 1;
    }

    method ParseHash() returns (next: nat)
      requires Valid() && pos < |text| && tokenvec[current] == BLANK
      requires text[pos] == '#'
      modifies this`pos, this`statsDdx, this`statsHash, tokenvec
      ensures Wrote(Hash(Src(), old(pos))) && next == Hash(Src(), old(pos)).next
    {
      statsHash := statsHash + 1;
      if flags.mysql {
        statsHash := statsHash + 1;
        next := ParseEolComment();
      } else {
        StAssignChar('o', pos, '#');
        next := pos + 1;
      }
    }

    method ParseDash() returns (next: nat)
      requires Valid() && pos < |text| && tokenvec[current] == BLANK
      requires text[pos] == '-'
      modifies this`pos, this`statsDdx, this`statsHash, tokenvec
      ensures Wrote(Dash(Src(), old(pos))) && next == Dash(Src(), old(pos)).next
    {
      if pos + 2 < |text| && text[pos + 1] == '-' && StrChr(WHITE, text[pos + 2]) {
        next := ParseEolComment();
      } else if pos + 2 == |text| && text[pos + 1] == '-' {
        next := ParseEolComment();
      } else if pos + 1 < |text| && text[pos + 1] == '-' && flags.ansi {
        statsDdx := statsDdx + 1;
        next := ParseEolComment();
      } else {
        StAssignChar('o', pos, '-');
        next := pos + 1;
      }
    }

    method ParseSlash() returns (next: nat)
      requires Valid() && pos < |text| && tokenvec[current] == BLANK
      modifies this`pos, this`statsDdx, this`statsHash, tokenvec
      ensures Wrote(Slash(text, old(pos))) && next == Slash(text, old(pos)).next
    {
      hide Placed, Assign;
      if pos + 1 == |text| || text[pos + 1] != '*' {
        next := ParseOperator1();
        return;
      }
      var ptr := Memmem(text, "*/", pos + 2, |text|);
      next := if ptr == |text| then |text| else ptr + 2;
      var kind := 'c';
      var nested := |text|;
      if ptr < |text| {
        nested := Memmem(text, "/*", pos + 2, ptr + 1);
      }
      if ptr < |text| && nested < ptr + 1 {
        kind := 'X';
      } else if pos + 2 < |text| && text[pos + 2] == '!' {
        kind := 'X';
      }
      StAssign(kind, pos, text[pos..next]);
    }

    method ParseBackslash() returns (next: nat)
      requires Valid() && pos < |text| && tokenvec[current] == BLANK
      requires text[pos] == '\\'
      modifies this`pos, this`statsDdx, this`statsHash, tokenvec
      ensures Wrote(Backslash(text, old(pos))) && next == Backslash(text, old(pos)).next
    {
      if pos + 1 < |text| && text[pos + 1] == 'N' {
        StAssign('1', pos, text[pos..pos + 2]);
        next := pos + 2;
      } else {
        StAssignChar('\\', pos, text[pos]);
        next := pos + 1;
      }
    }

    method ParseOperator2() returns (next: nat)
      requires Valid() && pos < |text| && tokenvec[current] == BLANK
      modifies this`pos, this`statsDdx, this`statsHash, tokenvec
      ensures Wrote(Operator2(Src(), old(pos))) && next == Operator2(Src(), old(pos)).next
    {
      hide Placed, Assign;
      if pos + 1 >= |text| {
        next := ParseOperator1();
        return;
      }
      assert pos + 2 < |text| ==> text[pos..pos + 3] == [text[pos], text[pos + 1], text[pos + 2]];
      if pos + 2 < |text| && text[pos] == '<' && text[pos + 1] == '=' && text[pos + 2] == '>' {
        StAssign('o', pos, text[pos..pos + 3]);
        next := pos + 3;
        return;
      }
      var ch := lookup(Operator, text[pos..pos + 2]);
      if ch != NUL {
        StAssign(ch, pos, text[pos..pos + 2]);
        next := pos + 2;
      } else if text[pos] == ':' {
        StAssign(':', pos, text[pos..pos + 1]);
        next := pos + 1;
      } else {
        next := ParseOperator1();
      }
    }

    /** `parse_string_core`: opening mark, body up to the closing delimiter, closing mark. */
    method ParseStringCore(p: nat, delim: char, offset: nat) returns (next: nat)
      requires Valid() && p + offset <= |text| && p < |text| && delim != '\\'
      modifies tokenvec
      ensures tokenvec[..] == old(tokenvec[..])[current := StringCore(text, p, delim, offset, old(tokenvec[current])).tok]
      ensures next == StringCore(text, p, delim, offset, old(tokenvec[current])).next
    {
      hide Placed, CloseAt;
      var q := CloseString(text, p + offset, delim);
      if offset > 0 {
        SetOpen(delim);
      } else {
        SetOpen(NUL);
      }
      StAssign('s', p + offset, text[p + offset..q]);
      if q == |text| {
        SetClose(NUL);
        next := |text|;
      } else {
        SetClose(delim);
        next := q + 1;
      }
    }

    method ParseString() returns (next: nat)
      requires Valid() && pos < |text|
      requires text[pos] != '\\'
      modifies this`pos, this`statsDdx, this`statsHash, tokenvec
      ensures Wrote(StringCore(text, old(pos), text[old(pos)], 1, old(tokenvec[current])))
      ensures next == StringCore(text, old(pos), text[old(pos)], 1, old(tokenvec[current])).next
    {
      next := ParseStringCore(pos, text[pos], 1);
    }

    method ParseEstring() returns (next: nat)
      requires Valid() && pos < |text| && tokenvec[current] == BLANK
      requires StartsWord(text, pos)
      modifies this`pos, this`statsDdx, this`statsHash, tokenvec
      ensures Wrote(Estring(Src(), old(pos))) && next == Estring(Src(), old(pos)).next
    {
      if pos + 2 >= |text| || text[pos + 1] != '\'' {
        next := ParseWord();
      } else {
        next := ParseStringCore(pos, '\'', 2);
      }
    }

    method ParseUstring() returns (next: nat)
      requires Valid() && pos < |text| && tokenvec[current] == BLANK
      requires StartsWord(text, pos)
      modifies this`pos, this`statsDdx, this`statsHash, tokenvec
      ensures Wrote(Ustring(Src(), old(pos))) && next == Ustring(Src(), old(pos)).next
    {
      hide Placed, StringCore, WordAt, StartsWord;
      if pos + 2 < |text| && text[pos + 1] == '&' && text[pos + 2] == '\'' {
        pos := pos + 2;
        next := ParseString();
        SetOpen('u');
        if tokenvec[current].strClose == '\'' {
          SetClose('u');
        }
      } else {
        next := ParseWord();
      }
    }

    method ParseQstringCore(offset: nat) returns (next: nat)
      requires Valid() && pos < |text| && tokenvec[current] == BLANK
      requires StartsWord(text, pos)
      modifies this`pos, this`statsDdx, this`statsHash, tokenvec
      ensures Wrote(QstringCore(Src(), old(pos), offset)) && next == QstringCore(Src(), old(pos), offset).next
    {
      hide Placed, Assign, WordAt, Find, StartsWord;
      var p := pos + offset;
      if p >= |text| || (text[p] != 'q' && text[p] != 'Q') || p + 2 >= |text| || text[p + 1] != '\'' {
        next := ParseWord();
        return;
      }
      var ch := text[p + 2];
      if Signed(ch) < 33 {
        next := ParseWord();
        return;
      }
      var e := Memmem(text, [Partner(ch), '\''], p + 3, |text|);
      StAssign('s', p + 3, text[p + 3..e]);
      SetOpen('q');
      if e == |text| {
        SetClose(NUL);
        next := |text|;
      } else {
        SetClose('q');
        next := e + 2;
      }
    }

    method ParseNqstring() returns (next: nat)
      requires Valid() && pos < |text| && tokenvec[current] == BLANK
      requires StartsWord(text, pos)
      modifies this`pos, this`statsDdx, this`statsHash, tokenvec
      ensures Wrote(Nqstring(Src(), old(pos))) && next == Nqstring(Src(), old(pos)).next
    {
      if pos + 2 < |text| && text[pos + 1] == '\'' {
        next := ParseEstring();
      } else {
        next := ParseQstringCore(1);
      }
    }

    /** `parse_bstring` and `parse_xstring`, which differ only in the digits they take. */
    method ParseDigitString(digits: string) returns (next: nat)
      requires Valid() && pos < |text| && tokenvec[current] == BLANK
      requires StartsWord(text, pos)
      modifies this`pos, this`statsDdx, this`statsHash, tokenvec
      ensures Wrote(DigitString(Src(), old(pos), digits)) && next == DigitString(Src(), old(pos), digits).next
    {
      hide Placed, Assign, Span, WordAt, StartsWord;
      if pos + 2 >= |text| || text[pos + 1] != '\'' {
        next := ParseWord();
        return;
      }
      var e := StrSpan(text, pos + 2, digits, true);
      if e >= |text| || text[e] != '\'' {
        next := ParseWord();
        return;
      }
      StAssign('1', pos, text[pos..e + 1]);
      next := e + 1;
    }

    method ParseBword() returns (next: nat)
      requires Valid() && pos < |text| && tokenvec[current] == BLANK
      modifies this`pos, this`statsDdx, this`statsHash, tokenvec
      ensures Wrote(Bword(text, old(pos))) && next == Bword(text, old(pos)).next
    {
      var e := Memchr(text, ']', pos);
      next := if e == |text| then |text| else e + 1;
      StAssign('n', pos, text[pos..next]);
    }

    /** Looks inside a word for a '.' or '`' whose head is a known word. */
    method FindSplit(val: string) returns (i: nat)
      ensures i == WordSplit(val, 0, lookup)
    {
      i := 0;
      while i < |val|
        invariant 0 <= i <= |val|
        invariant WordSplit(val, 0, lookup) == WordSplit(val, i, lookup)
      {
        if val[i] == '.' || val[i] == '`' {
          var ch := lookup(Word, val[..i]);
          if ch != NUL && ch != 'n' {
            return;
          }
        }
        i := i + 1;
      }
    }

    method ParseWord() returns (next: nat)
      requires Valid() && pos < |text| && tokenvec[current] == BLANK
      requires StartsWord(text, pos)
      modifies this`pos, this`statsDdx, this`statsHash, tokenvec
      ensures Wrote(WordAt(Src(), old(pos))) && next == WordAt(Src(), old(pos)).next
    {
      hide Placed, Span, WordSplit, Assign;
      var e := StrSpan(text, pos, WORD_STOPS, false);
      StAssign('n', pos, text[pos..e]);
      var val := tokenvec[current].val;
      assert |val| <= e - pos by {
        assert val == Assign(BLANK, 'n', pos, text[pos..e]).val;
        AssignCuts(BLANK, 'n', pos, text[pos..e]);
      }
      var i := FindSplit(val);
      if i < |val| {
        SplitWord(lookup(Word, val[..i]), pos + i);
        next := pos + i;
        return;
      }
      if e - pos < TOKEN_SIZE {
        var ch := lookup(Word, val);
        SetKind(if ch == NUL then 'n' else ch);
      }
      next := e;
    }

    /** The token of a split word is stored afresh. */
    method SplitWord(kind: char, e: nat)
      requires Valid() && pos <= e <= |text|
      modifies tokenvec
      ensures tokenvec[..] == old(tokenvec[..])[current := Assign(BLANK, kind, pos, text[pos..e])]
    {
      tokenvec[current] := BLANK;
      StAssign(kind, pos, text[pos..e]);
    }

    method ParseTick() returns (next: nat)
      requires Valid() && pos < |text|
      modifies this`pos, this`statsDdx, this`statsHash, tokenvec
      ensures Wrote(Tick(Src(), old(pos), old(tokenvec[current])))
      ensures next == Tick(Src(), old(pos), old(tokenvec[current])).next
    {
      next := ParseStringCore(pos, '`', 1);
      var ch := lookup(Word, tokenvec[current].val);
      if ch == 'f' {
        SetKind('f');
      } else {
        SetKind('n');
      }
    }

    method ParseVar() returns (next: nat)
      requires Valid() && pos < |text| && tokenvec[current] == BLANK
      modifies this`pos, this`statsDdx, this`statsHash, tokenvec
      ensures Wrote(Var(Src(), old(pos))) && next == Var(Src(), old(pos)).next
    {
      hide Placed, Assign, StringCore, Tick, Span;
      var p := pos + 1;
      if p < |text| && text[p] == '@' {
        p := p + 1;
        tokenvec[current] := tokenvec[current].(count := 2);
      } else {
        tokenvec[current] := tokenvec[current].(count := 1);
      }
      if p < |text| && text[p] == '`' {
        pos := p;
        next := ParseTick();
        SetKind('v');
        return;
      }
      if p < |text| && (text[p] == '\'' || text[p] == '"') {
        pos := p;
        next := ParseString();
        SetKind('v');
        return;
      }
      next := StrSpan(text, p, VAR_STOPS, false);
      StAssign('v', p, text[p..next]);
    }

    /** The body of a dollar-quoted string from `b` to the next `close`. */
    method ParseDollarString(b: nat, close: string) returns (next: nat)
      requires Valid() && pos < b <= |text| && 0 < |close| && tokenvec[current] == BLANK
      modifies tokenvec
      ensures Wrote(DollarString(text, pos, b, close)) && next == DollarString(text, pos, b, close).next
    {
      var e := Memmem(text, close, b, |text|);
      StAssign('s', b, text[b..e]);
      SetOpen('$');
      if e == |text| {
        SetClose(NUL);
        next := |text|;
      } else {
        SetClose('$');
        next := e + |close|;
      }
    }

    method ParseMoney() returns (next: nat)
      requires Valid() && pos < |text| && tokenvec[current] == BLANK
      requires text[pos] == '$' && StartsWord(text, pos)
      modifies this`pos, this`statsDdx, this`statsHash, tokenvec
      ensures Wrote(Money(Src(), old(pos))) && next == Money(Src(), old(pos)).next
    {
      hide Placed, Assign, DollarString, WordAt, Span, Find, StrChr;
      if pos + 1 == |text| {
        StAssignChar('n', pos, '$');
        return |text|;
      }
      var e := StrSpan(text, pos + 1, "0123456789.,", true);
      if e == pos + 1 {
        if text[pos + 1] == '$' {
          next := ParseDollarString(pos + 2, "$$");
          return;
        }
        var x := StrSpan(text, pos + 1, DOLLAR_TAG, true);
        if x == pos + 1 || x == |text| || text[x] != '$' {
          StAssignChar('n', pos, '$');
          return pos + 1;
        }
        next := ParseDollarString(x + 1, text[pos..x + 1]);
      } else if e == pos + 2 && text[pos + 1] == '.' {
        next := ParseWord();
      } else {
        StAssign('1', pos, text[pos..e]);
        next := e;
      }
    }

    method ParseNumber() returns (next: nat)
      requires Valid() && pos < |text| && tokenvec[current] == BLANK
      requires IsDigit(text[pos]) || text[pos] == '.'
      modifies this`pos, this`statsDdx, this`statsHash, tokenvec
      ensures Wrote(NumberAt(text, old(pos))) && next == NumberAt(text, old(pos)).next
    {
      if text[pos] == '0' && pos + 1 < |text| && text[pos + 1] in "xXbB" {
        var digits := if text[pos + 1] in "xX" then HEX_DIGITS else "01";
        next := StrSpan(text, pos + 2, digits, true);
        if next == pos + 2 {
          StAssign('n', pos, text[pos..pos + 2]);
        } else {
          StAssign('1', pos, text[pos..next]);
        }
        return;
      }
      next := ParseDecimal();
    }

    /** The sign and digits after an exponent letter. */
    method ReadExponent(m: nat) returns (next: nat, haveExp: bool)
      requires m < |text|
      ensures (next, haveExp) == Exponent(text, m)
    {
      next := m + 1;
      if next < |text| && (text[next] == '+' || text[next] == '-') {
        next := next + 1;
      }
      var digits := next;
      next := SkipDigits(text, next);
      haveExp := next > digits;
    }

    method SkipSuffix(e: nat) returns (next: nat)
      requires e <= |text|
      ensures next == Suffix(text, e)
    {
      next := e;
      if next < |text| && text[next] in "dDfF" {
        if next + 1 == |text| {
          next := next + 1;
        } else if StrChr(WHITE, text[next + 1]) || text[next + 1] == ';' {
          next := next + 1;
        } else if text[next + 1] == 'u' || text[next + 1] == 'U' {
          next := next + 1;
        }
      }
    }

    method ParseDecimal() returns (next: nat)
      requires Valid() && pos < |text| && tokenvec[current] == BLANK
      requires IsDigit(text[pos]) || text[pos] == '.'
      modifies this`pos, this`statsDdx, this`statsHash, tokenvec
      ensures Wrote(Decimal(text, old(pos))) && next == Decimal(text, old(pos)).next
    {
      hide Placed, Assign, Exponent, Suffix, Digits;
      var haveE, haveExp := false, false;
      next := SkipDigits(text, pos);
      if next < |text| && text[next] == '.' {
        next := SkipDigits(text, next + 1);
        if next - pos == 1 {
          StAssignChar('.', pos, '.');
          return;
        }
      }
      if next < |text| && (text[next] == 'E' || text[next] == 'e') {
        haveE := true;
        next, haveExp := ReadExponent(next);
      }
      next := SkipSuffix(next);
      if !(haveE && !haveExp) {
        StAssign('1', pos, text[pos..next]);
      }
    }

    // ---- tokenizing -------------------------------------------------------------------------

    method ParseLetter() returns (next: nat)
      requires Valid() && pos < |text| && tokenvec[current] == BLANK
      requires IsLetter(text[pos]) && StartsWord(text, pos)
      modifies this`pos, this`statsDdx, this`statsHash, tokenvec
      ensures Wrote(LexLetter(Src(), old(pos))) && next == LexLetter(Src(), old(pos)).next
    {
      hide Placed, WordAt, DigitString, Estring, Nqstring, QstringCore, Ustring, StartsWord;
      match text[pos] {
        case 'B' | 'b' => next := ParseDigitString("01");
        case 'E' | 'e' => next := ParseEstring();
        case 'N' | 'n' => next := ParseNqstring();
        case 'Q' | 'q' => next := ParseQstringCore(0);
        case 'U' | 'u' => next := ParseUstring();
        case 'X' | 'x' => next := ParseDigitString(HEX_DIGITS);
        case _ => next := ParseWord();
      }
    }

    method ParseMark() returns (next: nat)
      requires Valid() && pos < |text| && tokenvec[current] == BLANK
      requires !IsDigit(text[pos]) && !IsWordByte(text[pos])
      modifies this`pos, this`statsDdx, this`statsHash, tokenvec
      ensures Wrote(LexMark(Src(), old(pos))) && next == LexMark(Src(), old(pos)).next
    {
      hide Placed, Operator2, StringCore, Hash, One, Dash, NumberAt, Slash, Var, Bword, Backslash, Tick, White;
      match text[pos] {
        case '!' | '&' | '*' | ':' | '<' | '=' | '>' | '|' => next := ParseOperator2();
        case '"' | '\'' => next := ParseString();
        case '#' => next := ParseHash();
        case '%' | '+' | '^' | '~' => next := ParseOperator1();
        case '(' | ')' | ',' | ';' | '{' | '}' => next := ParseChar();
        case '-' => next := ParseDash();
        case '.' => next := ParseNumber();
        case '/' => next := ParseSlash();
        case '?' | ']' => next := ParseOther();
        case '@' => next := ParseVar();
        case '[' => next := ParseBword();
        case '\\' => next := ParseBackslash();
        case '`' => next := ParseTick();
        case _ => next := ParseWhite();
      }
    }

    /** The dispatch through the table of character parsers. */
    method ParseAt() returns (next: nat)
      requires Valid() && pos < |text| && tokenvec[current] == BLANK
      modifies this`pos, this`statsDdx, this`statsHash, tokenvec
      ensures Wrote(LexAt(Src(), old(pos))) && next == LexAt(Src(), old(pos)).next
    {
      hide Placed, NumberAt, LexMark, LexLetter, Money, WordAt, StartsWord;
      var c := text[pos];
      if IsDigit(c) {
        next := ParseNumber();
      } else if !IsWordByte(c) {
        next := ParseMark();
      } else {
        WordBytesStartWords(text, pos);
        if IsLetter(c) {
          next := ParseLetter();
        } else if c == '$' {
          next := ParseMoney();
        } else {
          next := ParseWord();
        }
      }
    }

    /** `libinjection_sqli_tokenize`: the next token goes into the current slot, the other slots
        stay as they are. */
    method Tokenize() returns (found: bool)
      requires Valid()
      modifies this`pos, this`statsTokens, this`statsDdx, this`statsHash, tokenvec
      ensures Took(Scan(Src(), old(pos)), found)
    {
      if text == "" {
        return false;
      }
      tokenvec[current] := BLANK;
      if pos == 0 && (flags.quoteSingle || flags.quoteDouble) {
        pos := ParseStringCore(0, Delimiter(flags), 0);
        statsTokens := statsTokens + 1;
        return true;
      }
      found := ScanLoop();
    }

    method ScanLoop() returns (found: bool)
      requires Valid() && tokenvec[current] == BLANK
      modifies this`pos, this`statsTokens, this`statsDdx, this`statsHash, tokenvec
      ensures Took(ScanFrom(Src(), old(pos)), found)
    {
      hide LexAt;
      while pos < |text|
        invariant Valid() && current == old(current) && flags == old(flags)
        invariant tokenvec[..] == old(tokenvec[..])
        invariant ScanFrom(Src(), old(pos)) == ScanFrom(Src(), pos)
        invariant GetStats() == old(GetStats())
        decreases |text| - pos
      {
        var next := ParseAt();
        pos := next;
        if tokenvec[current].kind != NUL {
          statsTokens := statsTokens + 1;
          return true;
        }
      }
      return false;
    }

    // ---- folding ------------------------------------------------------------------------------

    /** The machine state that the slots below `n` and the loop's variables stand for. */
    ghost function Cfg(n: nat, left: nat, more: bool, comment: Token): Config
      requires Valid() && n <= SLOTS
      reads this, tokenvec
    {
      Config(tokenvec[..n], left, pos, more, comment, GetStats())
    }

    /** Tokenizes into slot `n`; a comment is copied aside instead of taking the slot. */
    method ReadInto(n: nat, left: nat, more: bool, comment: Token) returns (n': nat, more': bool, comment': Token)
      requires Valid() && n < SLOTS
      modifies this`pos, this`current, this`statsTokens, this`statsDdx, this`statsHash, tokenvec
      ensures Valid() && flags == old(flags) && n <= n' <= n + 1
      ensures Cfg(n', left, more', comment') == Read(Src(), old(Cfg(n, left, more, comment)))
    {
      hide Scan;
      n', comment' := n, comment;
      current := n;
      more' := Tokenize();
      assert tokenvec[..n] == old(tokenvec[..n]);
      if more' {
        if tokenvec[current].kind == 'c' {
          comment' := tokenvec[current];
        } else {
          comment' := comment'.(kind := NUL);
          n' := n + 1;
        }
      }
    }

    method FetchTokens(want: nat, n: nat, left: nat, more: bool, comment: Token)
      returns (n': nat, more': bool, comment': Token)
      requires Valid() && n <= MAX_TOKENS + 1
      modifies this`pos, this`current, this`statsTokens, this`statsDdx, this`statsHash, tokenvec
      ensures Valid() && flags == old(flags) && n <= n' <= MAX_TOKENS + 1
      ensures Cfg(n', left, more', comment') == Fetch(Src(), old(Cfg(n, left, more, comment)), want)
    {
      hide Read;
      n', more', comment' := n, more, comment;
      while more' && n' <= MAX_TOKENS && n' < left + want
        invariant Valid() && flags == old(flags) && n <= n' <= MAX_TOKENS + 1
        invariant Fetch(Src(), old(Cfg(n, left, more, comment)), want) == Fetch(Src(), Cfg(n', left, more', comment'), want)
        decreases |text| - pos, more'
      {
        n', more', comment' := ReadInto(n', left, more', comment');
      }
    }

    /** The five-token shapes, in place: the sixth token moves to slot 1. */
    method CollapseWindow(n: nat, left: nat, more: bool, comment: Token) returns (n': nat, left': nat)
      requires Valid() && n <= MAX_TOKENS + 1
      modifies tokenvec
      ensures n' <= n
      ensures Cfg(n', left', more, comment) == Collapse(old(Cfg(n, left, more, comment)))
    {
      n', left' := n, left;
      if n >= MAX_TOKENS && Collapses(tokenvec[..n]) {
        hide Collapses;
        left' := 0;
        if n > MAX_TOKENS {
          tokenvec[1] := tokenvec[MAX_TOKENS];
          n' := 2;
          assert tokenvec[..2] == [old(tokenvec[..n])[0], old(tokenvec[..n])[MAX_TOKENS]];
        } else {
          n' := 1;
          assert tokenvec[..1] == [old(tokenvec[..n])[0]];
        }
      }
    }

    method CopyDown(i: nat, ghost n: nat, ghost k: nat)
      requires Valid() && i + 1 < n <= SLOTS && k <= n
      modifies tokenvec
      ensures tokenvec[..n - k] == old(tokenvec[..n])[i := old(tokenvec[i + 1])][..n - k]
    {
      tokenvec[i] := tokenvec[i + 1];
      assert tokenvec[..n] == old(tokenvec[..n])[i := old(tokenvec[i + 1])];
    }

    method RetypeSlot(i: nat, kind: char, ghost n: nat)
      requires Valid() && i < n <= SLOTS
      modifies tokenvec
      ensures tokenvec[..n] == old(tokenvec[..n])[i := old(tokenvec[i]).(kind := kind)]
    {
      tokenvec[i] := tokenvec[i].(kind := kind);
    }

    /** A rule's effect on the slots, `pos` and `left`. */
    method ApplyRule(rule: Rule, n: nat, left: nat, ghost more: bool, ghost comment: Token)
      returns (n': nat, left': nat)
      requires Valid() && n <= SLOTS && Applies(rule, Cfg(n, left, more, comment))
      modifies this`statsFolds, tokenvec
      ensures n' <= n
      ensures Cfg(n', left', more, comment) == Apply(rule, old(Cfg(n, left, more, comment)))
    {
      hide Apply, Applies;
      match rule {
        case Pop(_, _, _) => n', left' := PopSlots(rule, n, left, more, comment);
        case Shift(_, _, _) => n', left' := ShiftSlots(rule, n, left, more, comment);
        case Merge(_) => n', left' := MergeSlots(rule, n, left, more, comment);
        case _ => n', left' := RetypeSlots(rule, n, left, more, comment);
      }
    }

    /** The newest tokens are dropped. */
    method PopSlots(rule: Rule, n: nat, left: nat, ghost more: bool, ghost comment: Token)
      returns (n': nat, left': nat)
      requires Valid() && n <= SLOTS && Applies(rule, Cfg(n, left, more, comment)) && rule.Pop?
      modifies this`statsFolds
      ensures n' <= n
      ensures Cfg(n', left', more, comment) == Apply(rule, old(Cfg(n, left, more, comment)))
    {
      hide MoveBack;
      n' := n - rule.n;
      left' := MoveBack(left, rule.back);
      statsFolds := statsFolds + rule.folds;
    }

    /** A token moves down by one slot, over the one before it. */
    method ShiftSlots(rule: Rule, n: nat, left: nat, ghost more: bool, ghost comment: Token)
      returns (n': nat, left': nat)
      requires Valid() && n <= SLOTS && Applies(rule, Cfg(n, left, more, comment)) && rule.Shift?
      modifies this`statsFolds, tokenvec
      ensures n' <= n
      ensures Cfg(n', left', more, comment) == Apply(rule, old(Cfg(n, left, more, comment)))
    {
      CopyDown(left + rule.at, n, rule.n);
      n', left' := n - rule.n, 0;
      statsFolds := statsFolds + rule.folds;
    }

    /** Two words become one. */
    method MergeSlots(rule: Rule, n: nat, left: nat, ghost more: bool, ghost comment: Token)
      returns (n': nat, left': nat)
      requires Valid() && n <= SLOTS && Applies(rule, Cfg(n, left, more, comment)) && rule.Merge?
      modifies this`statsFolds, tokenvec
      ensures n' <= n
      ensures Cfg(n', left', more, comment) == Apply(rule, old(Cfg(n, left, more, comment)))
    {
      hide MoveBack, MergeTokens;
      MergeWords(left, rule.kind, n);
      n' := n - 1;
      left' := MoveBack(left, StepBack);
      statsFolds := statsFolds + 1;
    }

    /** A token changes its type, or nothing happens. */
    method RetypeSlots(rule: Rule, n: nat, left: nat, ghost more: bool, ghost comment: Token)
      returns (n': nat, left': nat)
      requires Valid() && n <= SLOTS && Applies(rule, Cfg(n, left, more, comment))
      requires rule.Retype? || rule.Adjust? || rule.Pass? || rule.Evil?
      modifies tokenvec
      ensures n' <= n
      ensures Cfg(n', left', more, comment) == Apply(rule, old(Cfg(n, left, more, comment)))
    {
      hide MoveBack;
      n', left' := n, left;
      if rule.Retype? || rule.Adjust? {
        RetypeSlot(left + rule.at, rule.kind, n);
        left' := MoveBack(left, rule.back);
      } else if rule.Evil? {
        RetypeSlot(left + 1, 'X', n);
      }
    }

    /** The second half of `syntax_merge_words`: the phrase takes the first token's place. */
    method MergeWords(left: nat, kind: char, ghost n: nat)
      requires Valid() && left + 1 < n <= SLOTS
      modifies tokenvec
      ensures tokenvec[..n - 1] ==
        old(tokenvec[..n])[left := MergeTokens(old(tokenvec[left]), old(tokenvec[left + 1]), kind)][..n - 1]
    {
      var tmp := tokenvec[left].val + " " + tokenvec[left + 1].val;
      tokenvec[left] := Assign(tokenvec[left], kind, tokenvec[left].pos, tmp);
      assert tokenvec[..n] == old(tokenvec[..n])[left := tokenvec[left]];
    }

    /** One round of the outer loop: fold five, get two tokens and try the two-token rules, get a
        third and try the three-token rules, else settle one token. */
    method Round(n: nat, left: nat, more: bool, comment: Token)
      returns (end: RoundEnd, n': nat, left': nat, more': bool, comment': Token)
      requires Valid() && n <= MAX_TOKENS + 1 && left <= n
      modifies this`pos, this`current, this`statsTokens, this`statsFolds, this`statsDdx, this`statsHash, tokenvec
      ensures Valid() && flags == old(flags) && n' <= MAX_TOKENS + 1
      ensures Step(Src(), old(Cfg(n, left, more, comment))) == Ended(end, Cfg(n', left', more', comment'))
    {
      hide PairStage, Fetch, Collapse;
      CollapseKeeps(Cfg(n, left, more, comment));
      end, more', comment' := GoOn, more, comment;
      n', left' := CollapseWindow(n, left, more, comment);
      if !more' || left' >= MAX_TOKENS {
        left' := n';
        end := Stop;
        return;
      }
      n', more', comment' := FetchTokens(2, n', left', more', comment');
      if n' < left' + 2 {
        left' := n';
        return;
      }
      end, n', left', more', comment' := RoundRules(n', left', more', comment');
    }

    method RoundRules(n: nat, left: nat, more: bool, comment: Token)
      returns (end: RoundEnd, n': nat, left': nat, more': bool, comment': Token)
      requires Valid() && n <= MAX_TOKENS + 1 && left + 1 < n
      modifies this`pos, this`current, this`statsTokens, this`statsFolds, this`statsDdx, this`statsHash, tokenvec
      ensures Valid() && flags == old(flags) && n' <= MAX_TOKENS + 1
      ensures PairStage(Src(), old(Cfg(n, left, more, comment))) == Ended(end, Cfg(n', left', more', comment'))
    {
      hide PairRule, Fetch, Apply, Settle;
      end, more', comment' := GoOn, more, comment;
      var rule := PairRule(lookup, tokenvec[left], tokenvec[left + 1]);
      AdjustRoom(rule, Cfg(n, left, more, comment));
      n', left' := ApplyRule(rule, n, left, more, comment);
      if rule.Evil? {
        end := GiveUp;
      } else if rule.Pass? || rule.Adjust? {
        n', more', comment' := FetchTokens(3, n', left', more', comment');
        n', left' := SettleWindow(n', left', more', comment');
      }
    }

    method SettleWindow(n: nat, left: nat, ghost more: bool, ghost comment: Token) returns (n': nat, left': nat)
      requires Valid() && n <= MAX_TOKENS + 1 && left < n
      modifies this`statsFolds, tokenvec
      ensures n' <= n
      ensures Cfg(n', left', more, comment) == Settle(old(Cfg(n, left, more, comment)))
    {
      hide TripleRule, Apply;
      n', left' := n, left;
      if n < left + 3 {
        left' := n;
        return;
      }
      var rule := TripleRule(tokenvec[left], tokenvec[left + 1], tokenvec[left + 2]);
      n', left' := ApplyRule(rule, n, left, more, comment);
      if rule.Pass? || rule.Adjust? {
        left' := left' + 1;
      }
    }

    /** `libinjection_sqli_fold`: at most five tokens are left at the front of the slots, or six
        when it gives up, and they are the tokens of the folding machine. */
    method Fold() returns (n: nat)
      requires Valid() && pos == 0 && GetStats() == NO_STATS
      modifies this`pos, this`current, this`statsTokens, this`statsFolds, this`statsDdx, this`statsHash, tokenvec
      ensures Valid() && flags == old(flags) && n <= MAX_TOKENS + 1
      ensures tokenvec[..n] == SqliFold.Fold(Src()).tokens
      ensures GetStats() == SqliFold.Fold(Src()).stats
    {
      hide Run, Begin;
      var more := SkipBeginning();
      if !more {
        return 0;
      }
      n := 1;
      var left, comment := 0, BLANK;
      assert tokenvec[..1] == [tokenvec[0]];
      ghost var c0 := Cfg(n, left, more, comment);
      var end: RoundEnd;
      ghost var more';
      n, left, more', comment, end := FoldLoop(c0);
      if end.GiveUp? {
        n := left + 2;
        return;
      }
      if left < MAX_TOKENS && comment.kind == 'c' {
        tokenvec[left] := comment;
        left := left + 1;
      }
      n := if left > MAX_TOKENS then MAX_TOKENS else left;
    }

    /** Passes over initial comments, left parentheses, types and unary operators. */
    method SkipBeginning() returns (more: bool)
      requires Valid() && pos == 0 && GetStats() == NO_STATS
      modifies this`pos, this`current, this`statsTokens, this`statsDdx, this`statsHash, tokenvec
      ensures Valid() && flags == old(flags)
      ensures Begin(Src(), 0, NO_STATS) ==
        if more then First(Config([tokenvec[0]], 0, pos, true, BLANK, GetStats())) else Nothing(GetStats())
    {
      hide Scan, IsSkipped;
      current := 0;
      more := true;
      while more
        invariant Valid() && flags == old(flags) && current == 0
        invariant Begin(Src(), 0, NO_STATS) == if more then Begin(Src(), pos, GetStats()) else Nothing(GetStats())
        decreases more, |text| - pos
      {
        more := Tokenize();
        if !IsSkipped(tokenvec[current]) {
          break;
        }
      }
    }

    method FoldLoop(ghost c0: Config) returns (n: nat, left: nat, ghost more: bool, comment: Token, end: RoundEnd)
      requires Valid() && Cfg(1, 0, true, BLANK) == c0 && Sound(Src(), c0)
      modifies this`pos, this`current, this`statsTokens, this`statsFolds, this`statsDdx, this`statsHash, tokenvec
      ensures Valid() && flags == old(flags) && n <= MAX_TOKENS + 1 && left <= n && !end.GoOn?
      ensures end.GiveUp? ==> Run(Src(), c0) == GaveUp(Cfg(n, left, more, comment))
      ensures end.Stop? ==> Run(Src(), c0) == Outcome.Done(Cfg(n, left, more, comment))
    {
      hide Step, CountRewinds, KindRank;
      var goOn := true;
      n, left, more, comment, end := 1, 0, true, BLANK, GoOn;
      while end.GoOn?
        invariant Valid() && flags == old(flags) && n <= MAX_TOKENS + 1 && left <= n
        invariant Sound(Src(), c0)
        invariant more == goOn
        invariant end.GoOn? ==> Sound(Src(), Cfg(n, left, more, comment))
        invariant end.GoOn? ==> Run(Src(), c0) == Run(Src(), Cfg(n, left, more, comment))
        invariant end.Stop? ==> Run(Src(), c0) == Outcome.Done(Cfg(n, left, more, comment))
        invariant end.GiveUp? ==> Run(Src(), c0) == GaveUp(Cfg(n, left, more, comment))
        decreases end.GoOn?, |text| - pos, more, n, CountRewinds(tokenvec[..n]), MAX_TOKENS + 1 - left,
          KindRank(tokenvec[..n], left)
      {
        ghost var c := Cfg(n, left, more, comment);
        StepSound(Src(), c);
        StepSmaller(Src(), c);
        end, n, left, goOn, comment := Round(n, left, goOn, comment);
        more := goOn;
      }
    }

    /** Back to the initial state on the same input, with other flags. */
    method Reset(flags: Flags)
      requires Valid()
      modifies this, tokenvec, fingerprint
      ensures Valid() && this.flags == Effective(flags) && pos == 0 && GetStats() == NO_STATS
      ensures forall i :: 0 <= i < SLOTS ==> tokenvec[i] == BLANK
      ensures forall i :: 0 <= i < FINGERPRINT_SIZE ==> fingerprint[i] == NUL
    {
      this.flags := Effective(flags);
      pos, current, statsTokens, statsFolds, statsDdx, statsHash := 0, 0, 0, 0, 0, 0;
      forall i | 0 <= i < SLOTS {
        tokenvec[i] := BLANK;
      }
      forall i | 0 <= i < FINGERPRINT_SIZE {
        fingerprint[i] := NUL;
      }
    }

    /** `libinjection_sqli_fingerprint`: the kinds of the folded tokens as a C string, or "X" when
        any of them is evil. */
    method Fingerprint(flags: Flags)
      requires Valid()
      modifies this, tokenvec, fingerprint
      ensures Valid() && this.flags == Effective(flags)
      ensures CString(fingerprint[..]) == SqliFold.Fingerprint(Source(text, lookup, Effective(flags)))
    {
      Reset(flags);
      var n := Fold();
      FoldBounds(Src());
      hide SqliFold.Fold;
      ghost var ts := tokenvec[..n];
      if n > 2 {
        MarkLast(n);
      }
      ghost var kinds := Kinds(MarkBacktick(ts));
      CopyKinds(n);
      EvilFingerprint(n, kinds);
    }

    /** An unclosed empty backtick word at the end becomes a comment. */
    method MarkLast(n: nat)
      requires Valid() && 2 < n <= SLOTS
      modifies tokenvec
      ensures tokenvec[..n] == MarkBacktick(old(tokenvec[..n]))
    {
      var t := tokenvec[n - 1];
      if t.kind == 'n' && t.strOpen == '`' && t.val == "" && t.strClose == NUL {
        tokenvec[n - 1] := t.(kind := 'c');
      }
    }

    method CopyKinds(n: nat)
      requires Valid() && n <= SLOTS
      modifies fingerprint
      ensures fingerprint[..n] == Kinds(tokenvec[..n]) && fingerprint[n] == NUL
    {
      for i := 0 to n
        invariant forall k :: 0 <= k < i ==> fingerprint[k] == tokenvec[k].kind
      {
        fingerprint[i] := tokenvec[i].kind;
      }
      fingerprint[n] := NUL;
    }

    /** When an evil kind is in the fingerprint the whole of it becomes "X", and so do the tokens. */
    method EvilFingerprint(n: nat, ghost kinds: string)
      requires Valid() && n <= MAX_TOKENS + 1
      requires fingerprint[..n] == kinds && fingerprint[n] == NUL && NUL !in kinds
      modifies tokenvec, fingerprint
      ensures CString(fingerprint[..]) == if 'X' in kinds then "X" else kinds
    {
      assert fingerprint[..][..n] == kinds;
      FirstNul(fingerprint[..], n);
      var i := Memchr(fingerprint[..n], 'X', 0);
      if i < n {
        assert kinds[i] == 'X';
        forall k | 0 <= k < MAX_TOKENS + 1 {
          fingerprint[k] := NUL;
        }
        fingerprint[0] := 'X';
        tokenvec[0] := tokenvec[0].(kind := 'X', val := "X");
        tokenvec[1] := tokenvec[1].(kind := NUL);
        FirstNul(fingerprint[..], 1);
        assert fingerprint[..][..1] == "X";
      }
    }
  }

  datatype RoundEnd = GoOn | Stop | GiveUp

  function Ended(end: RoundEnd, c: Config): Outcome {
    match end
    case GoOn => Again(c)
    case Stop => Outcome.Done(c)
    case GiveUp => GaveUp(c)
  }

  lemma FirstNul(s: string, n: nat)
    requires n < |s| && s[n] == NUL && NUL !in s[..n]
    ensures IndexOf(s, NUL, 0) == n
  {
    assert forall k :: 0 <= k < n ==> s[k] == s[..n][k];
  }
}
