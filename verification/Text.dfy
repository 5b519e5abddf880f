/** Byte strings and the search primitives of the C library that both engines lean on.
    A byte is a `char`; a buffer that is never written is a `string`. */
module Text {

  datatype Option<+T> = None | Some(value: T)

  const NUL := '\0'

  /** The byte at `i`, or the terminator when `i` lies past the end (a C string read at its length). */
  function At(s: string, i: nat): char {
    if i < |s| then s[i] else NUL
  }

  predicate IsBytes(s: string) {
    forall i :: 0 <= i < |s| ==> s[i] as int < 256
  }

  predicate IsDigit(c: char) {
    '0' <= c <= '9'
  }

  predicate IsLetter(c: char) {
    'a' <= c <= 'z' || 'A' <= c <= 'Z'
  }

  /** ASCII upcasing, the only case mapping either engine uses. */
  function Upcase(c: char): char {
    if 'a' <= c <= 'z' then (c as int - 0x20) as char else c
  }

  function Upper(s: string): (r: string)
    ensures |r| == |s|
    ensures forall i :: 0 <= i < |s| ==> r[i] == Upcase(s[i])
  {
    seq(|s|, i requires 0 <= i < |s| => Upcase(s[i]))
  }

  /** A `char` of the compiled program is signed: bytes from 128 up compare as negative numbers. */
  function Signed(c: char): int {
    if c as int < 128 then c as int else c as int - 256
  }

  /** `strchr(set, c) != NULL`: the terminator of `set` counts as a member. */
  predicate StrChr(set_: string, c: char) {
    c == NUL || c in set_
  }

  /** What a C string function sees of a buffer: the bytes before the first NUL. */
  function CString(s: string): string {
    s[..IndexOf(s, NUL, 0)]
  }

  // ---- memchr ---------------------------------------------------------------------------

  /** First position at or after `from` holding `c`; the length of `s` when there is none. */
  function IndexOf(s: string, c: char, from: nat): (i: nat)
    requires from <= |s|
    ensures from <= i <= |s|
    ensures forall k :: from <= k < i ==> s[k] != c
    ensures i < |s| ==> s[i] == c
    decreases |s| - from
  {
    if from == |s| || s[from] == c then from else IndexOf(s, c, from + 1)
  }

  method Memchr(s: string, c: char, from: nat) returns (i: nat)
    requires from <= |s|
    ensures i == IndexOf(s, c, from)
  {
    i := from;
    while i < |s| && s[i] != c
      invariant from <= i <= |s|
      invariant IndexOf(s, c, from) == IndexOf(s, c, i)
    {
      i := i + 1;
    }
  }

  // ---- memchr2, my_memmem -----------------------------------------------------------------

  predicate OccursAt(s: string, needle: string, i: nat) {
    i + |needle| <= |s| && s[i..i + |needle|] == needle
  }

  /** First place in `s[from..stop]` where `needle` lies wholly inside that range; `stop` if none. */
  function Find(s: string, needle: string, from: nat, stop: nat): (i: nat)
    requires from <= stop <= |s| && 0 < |needle|
    ensures from <= i <= stop
    ensures i < stop ==> i + |needle| <= stop && OccursAt(s, needle, i)
    ensures forall k :: from <= k < i && k + |needle| <= stop ==> !OccursAt(s, needle, k)
    decreases stop - from
  {
    if from + |needle| > stop then stop
    else if OccursAt(s, needle, from) then from
    else Find(s, needle, from + 1, stop)
  }

  method Memmem(s: string, needle: string, from: nat, stop: nat) returns (i: nat)
    requires from <= stop <= |s| && 0 < |needle|
    ensures i == Find(s, needle, from, stop)
  {
    i := from;
    while i + |needle| <= stop
      invariant from <= i <= stop
      invariant Find(s, needle, from, stop) == Find(s, needle, i, stop)
      decreases stop - i
    {
      if s[i..i + |needle|] == needle {
        return;
      }
      i := i + 1;
    }
    i := stop;
  }

  // ---- strlenspn, strlencspn ----------------------------------------------------------------

  /** End of the longest run from `from` whose bytes all are (`inside`) or all are not in `set_`. */
  function Span(s: string, from: nat, set_: string, inside: bool): (i: nat)
    requires from <= |s|
    ensures from <= i <= |s|
    ensures forall k :: from <= k < i ==> StrChr(set_, s[k]) == inside
    ensures i < |s| ==> StrChr(set_, s[i]) != inside
    decreases |s| - from
  {
    if from == |s| || StrChr(set_, s[from]) != inside then from
    else Span(s, from + 1, set_, inside)
  }

  method StrSpan(s: string, from: nat, set_: string, inside: bool) returns (i: nat)
    requires from <= |s|
    ensures i == Span(s, from, set_, inside)
  {
    i := from;
    while i < |s| && StrChr(set_, s[i]) == inside
      invariant from <= i <= |s|
      invariant Span(s, from, set_, inside) == Span(s, i, set_, inside)
    {
      i := i + 1;
    }
  }

  /** End of the run of decimal digits at `from`. */
  function Digits(s: string, from: nat): (i: nat)
    requires from <= |s|
    ensures from <= i <= |s|
    ensures forall k :: from <= k < i ==> IsDigit(s[k])
    ensures i < |s| ==> !IsDigit(s[i])
    decreases |s| - from
  {
    if from == |s| || !IsDigit(s[from]) then from else Digits(s, from + 1)
  }

  method SkipDigits(s: string, from: nat) returns (i: nat)
    requires from <= |s|
    ensures i == Digits(s, from)
  {
    i := from;
    while i < |s| && IsDigit(s[i])
      invariant from <= i <= |s|
      invariant Digits(s, from) == Digits(s, i)
    {
      i := i + 1;
    }
  }
}
