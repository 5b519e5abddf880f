/** Matching words that may hide behind NULs and character entities. */
module Xss {
  import opened Text

  // ---- character entities ----------------------------------------------------------------------

  const MAX_CODE := 0x1000FF

  /** The value of a digit; none for other bytes. `gsHexDecodeMap` for base 16. */
  function DigitOf(c: char, base: nat): (d: int)
    requires base == 10 || base == 16
    ensures d == -1 || 0 <= d < base
  {
    if '0' <= c <= '9' then c as int - '0' as int
    else if base == 16 && 'A' <= c <= 'F' then c as int - 'A' as int + 10
    else if base == 16 && 'a' <= c <= 'f' then c as int - 'a' as int + 10
    else -1
  }

  /** End of the run of digits at `from`. */
  function RunEnd(b: string, from: nat, base: nat): (i: nat)
    requires from <= |b| && (base == 10 || base == 16)
    ensures from <= i <= |b|
    ensures forall k :: from <= k < i ==> DigitOf(b[k], base) >= 0
    ensures i < |b| ==> DigitOf(b[i], base) == -1
    decreases |b| - from
  {
    if from == |b| || DigitOf(b[from], base) == -1 then from else RunEnd(b, from + 1, base)
  }

  predicate AllDigits(t: string, base: nat)
    requires base == 10 || base == 16
  {
    forall k :: 0 <= k < |t| ==> DigitOf(t[k], base) >= 0
  }

  function ValueOf(t: string, base: nat): nat
    requires (base == 10 || base == 16) && AllDigits(t, base)
  {
    if t == "" then 0
    else
      assert DigitOf(t[|t| - 1], base) >= 0;
      ValueOf(t[..|t| - 1], base) * base + DigitOf(t[|t| - 1], base)
  }

  datatype Code = Code(value: int, consumed: nat)

  predicate HexPrefix(b: string)
    requires |b| >= 3
  {
    b[2] == 'x' || b[2] == 'X'
  }

  /** The character at the start of a non-empty string: a numeric entity with a value in range, its
      semicolon optional; otherwise one byte. */
  function DecodeChar(b: string): (r: Code)
    requires b != ""
    ensures 1 <= r.consumed <= |b| && r.value >= 0
  {
    if b[0] != '&' || |b| < 3 || b[1] != '#' then Code(b[0] as int, 1)
    else
      var base, start := if HexPrefix(b) then 16 else 10, if HexPrefix(b) then 3 else 2;
      var end := RunEnd(b, start, base);
      if end == start then Code('&' as int, 1)
      else
        var value := ValueOf(b[start..end], base);
        if value > MAX_CODE then Code('&' as int, 1)
        else Code(value, if end < |b| && b[end] == ';' then end + 1 else end)
  }

  /** Digits read from the left; stops early when the value leaves the range. */
  method ReadDigits(b: string, start: nat, base: nat) returns (ok: bool, value: nat, end: nat)
    requires (base == 10 || base == 16) && start < |b| && DigitOf(b[start], base) >= 0
    ensures var e := RunEnd(b, start, base);
      && start < e && (ok <==> ValueOf(b[start..e], base) <= MAX_CODE)
      && (ok ==> end == e && value == ValueOf(b[start..e], base))
  {
    hide ValueOf, DigitOf;
    ghost var e := RunEnd(b, start, base);
    value, end := DigitOf(b[start], base), start + 1;
    FirstDigit(b, start, base);
    while end < |b| && DigitOf(b[end], base) != -1
      invariant start < end <= e && RunEnd(b, end, base) == e
      invariant AllDigits(b[start..end], base) && value == ValueOf(b[start..end], base) <= MAX_CODE
    {
      NextDigit(b, start, end, base);
      value := value * base + DigitOf(b[end], base);
      end := end + 1;
      if value > MAX_CODE {
        ValueGrows(b, start, end, e, base);
        return false, value, end;
      }
    }
    ok := true;
  }

  lemma FirstDigit(b: string, start: nat, base: nat)
    requires (base == 10 || base == 16) && start < |b| && DigitOf(b[start], base) >= 0
    ensures AllDigits(b[start..start + 1], base) && ValueOf(b[start..start + 1], base) == DigitOf(b[start], base)
    ensures RunEnd(b, start, base) == RunEnd(b, start + 1, base)
  {
    var t := b[start..start + 1];
    assert t == [b[start]] && t[..0] == "";
    assert ValueOf("", base) == 0;
  }

  lemma NextDigit(b: string, start: nat, end: nat, base: nat)
    requires (base == 10 || base == 16) && start <= end < |b|
    requires AllDigits(b[start..end], base) && DigitOf(b[end], base) >= 0
    ensures AllDigits(b[start..end + 1], base)
    ensures ValueOf(b[start..end + 1], base) == ValueOf(b[start..end], base) * base + DigitOf(b[end], base)
    ensures RunEnd(b, end, base) == RunEnd(b, end + 1, base)
  {
    hide DigitOf, ValueOf;
    var t := b[start..end + 1];
    assert t == b[start..end] + [b[end]];
    ValueLast(b[start..end], b[end], base);
  }

  lemma ValueLast(t: string, c: char, base: nat)
    requires (base == 10 || base == 16) && AllDigits(t, base) && DigitOf(c, base) >= 0
    ensures AllDigits(t + [c], base) && ValueOf(t + [c], base) == ValueOf(t, base) * base + DigitOf(c, base)
  {
    hide DigitOf;
    assert (t + [c])[..|t|] == t;
  }

  /** More digits never make a smaller number. */
  lemma {:induction false} ValueGrows(b: string, start: nat, i: nat, j: nat, base: nat)
    requires (base == 10 || base == 16) && start <= i <= j <= |b| && AllDigits(b[start..j], base)
    ensures AllDigits(b[start..i], base) && ValueOf(b[start..i], base) <= ValueOf(b[start..j], base)
    decreases j - i
  {
    assert forall k :: 0 <= k < i - start ==> b[start..i][k] == b[start..j][k];
    if i < j {
      assert b[start..j][..j - 1 - start] == b[start..j - 1];
      assert forall k :: 0 <= k < j - 1 - start ==> b[start..j - 1][k] == b[start..j][k];
      ValueGrows(b, start, i, j - 1, base);
    }
  }

  /** `html_decode_char_at` */
  method HtmlDecodeCharAt(b: string) returns (value: int, consumed: nat)
    requires IsBytes(b)
    ensures if b == "" then value == -1 && consumed == 0 else Code(value, consumed) == DecodeChar(b)
  {
    if |b| == 0 {
      return -1, 0;
    }
    if b[0] != '&' || |b| < 3 || (HexPrefix(b) && |b| < 4) {
      if b[0] == '&' && |b| == 3 && HexPrefix(b) {
        ShortHex(b);
      }
      return b[0] as int, 1;
    }
    if b[1] != '#' {
      return '&' as int, 1;
    }
    var base, start := 10, 2;
    if HexPrefix(b) {
      base, start := 16, 3;
    }
    if DigitOf(b[start], base) == -1 {
      return '&' as int, 1;
    }
    var ok, end;
    ok, value, end := ReadDigits(b, start, base);
    if !ok {
      return '&' as int, 1;
    }
    consumed := if end < |b| && b[end] == ';' then end + 1 else end;
  }

  lemma ShortHex(b: string)
    requires b != "" && b[0] == '&' && |b| == 3 && HexPrefix(b)
    ensures DecodeChar(b) == Code('&' as int, 1)
  {
  }

  /** Any number of leading zeros. */
  function Zeros(n: nat): string {
    seq(n, _ => '0')
  }

  lemma {:induction false} ZerosCount(n: nat, digits: string, base: nat)
    requires (base == 10 || base == 16) && AllDigits(digits, base)
    ensures AllDigits(Zeros(n) + digits, base) && ValueOf(Zeros(n) + digits, base) == ValueOf(digits, base)
    decreases n + |digits|
  {
    var t := Zeros(n) + digits;
    if digits == "" {
      if n > 0 {
        ZerosCount(n - 1, "", base);
        assert t[..|t| - 1] == Zeros(n - 1) + "";
      }
    } else {
      var d := digits[..|digits| - 1];
      ZerosCount(n, d, base);
      assert t[..|t| - 1] == Zeros(n) + d;
      assert forall k :: 0 <= k < |t| - 1 ==> t[k] == (Zeros(n) + d)[k];
    }
  }

  /** Every code up to the limit is what its decimal or hexadecimal entity decodes to, with any number
      of leading zeros and with or without the semicolon. */
  lemma EntityDecodes(n: nat, digits: string, base: nat, x: char, rest: string, semicolon: bool)
    requires base == 10 || (base == 16 && (x == 'x' || x == 'X'))
    requires digits != "" && AllDigits(digits, base) && ValueOf(digits, base) <= MAX_CODE
    requires !semicolon && rest != "" ==> DigitOf(rest[0], base) == -1 && rest[0] != ';'
    ensures var head := "&#" + (if base == 16 then [x] else "") + Zeros(n) + digits + (if semicolon then ";" else "");
      DecodeChar(head + rest) == Code(ValueOf(digits, base), |head|)
  {
    hide DigitOf, ValueOf, DecodeChar;
    var mark := if base == 16 then [x] else "";
    var run := Zeros(n) + digits;
    var tail := (if semicolon then ";" else "") + rest;
    var head := "&#" + mark + Zeros(n) + digits + (if semicolon then ";" else "");
    var b := head + rest;
    assert b == "&#" + mark + run + tail;
    ZerosCount(n, digits, base);
    NoDigit();
    DecodeRun(b, run, tail, base, mark);
  }

  lemma NoDigit()
    ensures DigitOf(';', 10) == -1 && DigitOf(';', 16) == -1 && DigitOf('x', 10) == -1 && DigitOf('X', 10) == -1
  {
  }

  lemma DecodeRun(b: string, run: string, tail: string, base: nat, mark: string)
    requires b == "&#" + mark + run + tail && run != ""
    requires (base == 10 && mark == "") || (base == 16 && (mark == "x" || mark == "X"))
    requires AllDigits(run, base) && ValueOf(run, base) <= MAX_CODE
    requires tail != "" ==> DigitOf(tail[0], base) == -1
    ensures DecodeChar(b) == Code(ValueOf(run, base), 2 + |mark| + |run| + (if tail != "" && tail[0] == ';' then 1 else 0))
  {
    hide DigitOf, ValueOf;
    var start := 2 + |mark|;
    assert b[start..start + |run|] == run;
    assert b[start] == run[0] && (base == 16 ==> b[2] == mark[0]);
    assert tail != "" ==> b[start + |run|] == tail[0];
    NoDigit();
    RunEnds(b, start, run, base);
  }

  lemma {:induction false} RunEnds(b: string, start: nat, run: string, base: nat)
    requires (base == 10 || base == 16) && start + |run| <= |b|
    requires b[start..start + |run|] == run && AllDigits(run, base)
    requires start + |run| < |b| ==> DigitOf(b[start + |run|], base) == -1
    ensures RunEnd(b, start, base) == start + |run|
    decreases |run|
  {
    if run != "" {
      assert b[start] == run[0];
      assert b[start + 1..start + 1 + |run[1..]|] == run[1..];
      RunEnds(b, start + 1, run[1..], base);
    }
  }

  // ---- matching -----------------------------------------------------------------------------------

  /** The codes of a whole string. */
  function Codes(b: string): seq<int> {
    if b == "" then []
    else
      var r := DecodeChar(b);
      [r.value] + Codes(b[r.consumed..])
  }

  /** Without leading white space and control codes. */
  function WithoutLead(codes: seq<int>): seq<int> {
    if codes != [] && codes[0] <= 32 then WithoutLead(codes[1..]) else codes
  }

  /** A code upcased and cut to a byte. */
  function AsByte(code: int): char
    requires code >= 0
  {
    ((if 'a' as int <= code <= 'z' as int then code - 0x20 else code) % 256) as char
  }

  /** The bytes that are compared: NULs and line feeds are dropped. */
  function Visible(codes: seq<int>): string
    requires forall k :: 0 <= k < |codes| ==> codes[k] >= 0
  {
    if codes == [] then ""
    else (if codes[0] == 0 || codes[0] == 10 then "" else [AsByte(codes[0])]) + Visible(codes[1..])
  }

  lemma {:induction false} CodesNatural(b: string)
    ensures forall k :: 0 <= k < |Codes(b)| ==> Codes(b)[k] >= 0
    decreases |b|
  {
    if b != "" {
      CodesNatural(b[DecodeChar(b).consumed..]);
    }
  }

  lemma {:induction false} LeadNatural(codes: seq<int>)
    requires forall k :: 0 <= k < |codes| ==> codes[k] >= 0
    ensures forall k :: 0 <= k < |WithoutLead(codes)| ==> WithoutLead(codes)[k] >= 0
  {
    if codes != [] && codes[0] <= 32 {
      LeadNatural(codes[1..]);
    }
  }

  /** What a browser makes of an encoded attribute value, for comparison with an upper-case word. */
  function Unmasked(b: string): string {
    CodesNatural(b);
    LeadNatural(Codes(b));
    Visible(WithoutLead(Codes(b)))
  }

  /** What is still to be compared: while `first`, leading codes are skipped. */
  function Pending(b: string, first: bool): string {
    CodesNatural(b);
    if first then Unmasked(b) else Visible(Codes(b))
  }

  lemma PendingStep(b: string, first: bool)
    requires b != ""
    ensures var r := DecodeChar(b);
      var rest := b[r.consumed..];
      if first && r.value <= 32 then Pending(b, first) == Pending(rest, true)
      else if r.value == 0 || r.value == 10 then Pending(b, first) == Pending(rest, false)
      else Pending(b, first) == [AsByte(r.value)] + Pending(rest, false)
  {
    hide DecodeChar;
    CodesNatural(b);
    var r := DecodeChar(b);
    assert Codes(b)[1..] == Codes(b[r.consumed..]);
  }

  lemma NothingPending(first: bool)
    ensures Pending("", first) == ""
  {
  }

  /** `htmlencode_startswith`: whether the word is a prefix of the unmasked value. */
  method HtmlEncodeStartsWith(a: string, b: string) returns (starts: bool)
    requires IsBytes(b) && NUL !in a
    ensures starts <==> a <= Unmasked(b)
  {
    hide DecodeChar, Pending, Unmasked;
    var rest, i, first := b, 0, true;
    ghost var seen := "";
    WholePending(b);
    while |rest| > 0
      invariant IsBytes(rest) && i == |seen| <= |a| && a[..i] == seen && seen + Pending(rest, first) == Unmasked(b)
    {
      if At(a, i) == NUL {
        return true;
      }
      PendingStep(rest, first);
      var cb, consumed := HtmlDecodeCharAt(rest);
      ghost var before := rest;
      rest := rest[consumed..];
      if first && cb <= 32 {
        continue;
      }
      first := false;
      if cb == 0 || cb == 10 {
        continue;
      }
      var byte := AsByte(cb);
      if a[i] != byte {
        Mismatch(a, i, seen, byte, Pending(rest, false));
        return false;
      }
      seen := seen + [byte];
      i := i + 1;
    }
    NothingPending(first);
    return At(a, i) == NUL;
  }

  lemma WholePending(b: string)
    ensures "" + Pending(b, true) == Unmasked(b)
  {
  }

  lemma Mismatch(a: string, i: nat, seen: string, byte: char, rest: string)
    requires i == |seen| < |a| && a[i] != byte
    ensures !(a <= seen + ([byte] + rest))
  {
    assert (seen + ([byte] + rest))[i] == byte;
  }

  /** A numeric entity, closed by a semicolon: digits of base 10, or of base 16 behind an x. */
  datatype Entity = Entity(zeros: nat, digits: string, hex: Option<char>)

  function Base(e: Entity): (base: nat)
    ensures base == 10 || base == 16
  {
    if e.hex.None? then 10 else 16
  }

  predicate IsEntity(e: Entity) {
    && (e.hex.Some? ==> e.hex.value == 'x' || e.hex.value == 'X')
    && e.digits != "" && AllDigits(e.digits, Base(e)) && ValueOf(e.digits, Base(e)) <= MAX_CODE
  }

  function EntityText(e: Entity): string {
    "&#" + (if Base(e) == 16 then [e.hex.value] else "") + Zeros(e.zeros) + e.digits + ";"
  }

  function AllText(es: seq<Entity>): string {
    if es == [] then "" else EntityText(es[0]) + AllText(es[1..])
  }

  function AllValues(es: seq<Entity>): seq<int>
    requires forall i :: 0 <= i < |es| ==> IsEntity(es[i])
  {
    if es == [] then []
    else
      assert IsEntity(es[0]);
      [ValueOf(es[0].digits, Base(es[0])) as int] + AllValues(es[1..])
  }

  lemma EntityFirst(e: Entity, more: string)
    requires IsEntity(e)
    ensures Codes(EntityText(e) + more) == [ValueOf(e.digits, Base(e)) as int] + Codes(more)
  {
    hide DecodeChar, ValueOf, DigitOf, Zeros;
    var text := EntityText(e);
    EntityDecodes(e.zeros, e.digits, Base(e), if e.hex.Some? then e.hex.value else 'x', more, true);
    assert text + more != "" && (text + more)[|text|..] == more;
  }

  /** Text written in entities decodes to what they stand for, in any mixture of the notations. */
  lemma {:induction false} EntitiesDecode(es: seq<Entity>, rest: string)
    requires forall i :: 0 <= i < |es| ==> IsEntity(es[i])
    ensures Codes(AllText(es) + rest) == AllValues(es) + Codes(rest)
  {
    hide Codes, EntityText, ValueOf, DigitOf;
    if es == [] {
      assert AllText(es) + rest == rest;
    } else {
      assert IsEntity(es[0]);
      EntityFirst(es[0], AllText(es[1..]) + rest);
      assert AllText(es) + rest == EntityText(es[0]) + (AllText(es[1..]) + rest);
      EntitiesDecode(es[1..], rest);
    }
  }

  function WithoutNuls(b: string): string {
    if b == "" then "" else (if b[0] == NUL then "" else [b[0]]) + WithoutNuls(b[1..])
  }

  /** `cstrcasecmp_with_null`: zero exactly when the word is the upcased text without its NULs. */
  method CStrCaseCmpWithNull(a: string, b: string) returns (r: int)
    requires NUL !in a
    ensures r == 0 || r == 1
    ensures r == 0 <==> a == Upper(WithoutNuls(b))
  {
    hide WithoutNuls, Upper;
    var ai, bi := 0, 0;
    assert b[0..] == b;
    while bi < |b|
      invariant ai <= |a| && bi <= |b|
      invariant a[..ai] + Upper(WithoutNuls(b[bi..])) == Upper(WithoutNuls(b))
    {
      NulStep(b[bi..]);
      assert b[bi..][1..] == b[bi + 1..];
      var cb := b[bi];
      bi := bi + 1;
      if cb == NUL {
        continue;
      }
      if At(a, ai) != Upcase(cb) {
        Differs(a, ai, Upcase(cb), Upper(WithoutNuls(b[bi..])));
        return 1;
      }
      assert a[..ai + 1] == a[..ai] + [Upcase(cb)];
      ai := ai + 1;
    }
    NulDone();
    assert b[bi..] == "" && a[..ai] + "" == a[..ai];
    r := if At(a, ai) == NUL then 0 else 1;
  }

  lemma Differs(a: string, i: nat, c: char, rest: string)
    requires i <= |a| && At(a, i) != c
    ensures a[..i] + ([c] + rest) != a
  {
    assert (a[..i] + ([c] + rest))[i] == c;
  }

  lemma NulStep(b: string)
    requires b != ""
    ensures Upper(WithoutNuls(b)) == (if b[0] == NUL then "" else [Upcase(b[0])]) + Upper(WithoutNuls(b[1..]))
    ensures b[0] != NUL ==> Upcase(b[0]) != NUL
  {
    var kept, rest := if b[0] == NUL then "" else [b[0]], WithoutNuls(b[1..]);
    assert WithoutNuls(b) == kept + rest;
    hide WithoutNuls;
    UpperJoins(kept, rest);
  }

  lemma UpperJoins(s: string, t: string)
    ensures Upper(s + t) == Upper(s) + Upper(t)
  {
  }

  lemma NulDone()
    ensures Upper(WithoutNuls("")) == ""
  {
  }
}
