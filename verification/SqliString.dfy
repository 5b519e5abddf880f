/** Where a quoted SQL string ends: the jump-and-look-back search against the left-to-right reading. */
module SqliString {
  import opened Text
  import opened SqliLex

  /** Backslashes immediately before `q`, counted back no further than `start`. */
  function BackslashRun(s: string, start: nat, q: nat): (n: nat)
    requires start <= q <= |s|
    ensures n <= q - start
  {
    if q == start || s[q - 1] != '\\' then 0 else 1 + BackslashRun(s, start, q - 1)
  }

  method IsBackslashEscaped(s: string, start: nat, q: nat) returns (escaped: bool)
    requires start <= q <= |s|
    ensures escaped == (BackslashRun(s, start, q) % 2 == 1)
  {
    var ptr := q;
    while ptr > start && s[ptr - 1] == '\\'
      invariant start <= ptr <= q
      invariant BackslashRun(s, start, q) == q - ptr + BackslashRun(s, start, ptr)
    {
      ptr := ptr - 1;
    }
    return (q - ptr) % 2 == 1;
  }

  /** Moving the lower bound of the count changes it only while the run is unbroken. */
  lemma {:induction false} RunBound(s: string, i: nat, j: nat, q: nat)
    requires i <= j <= q <= |s|
    ensures BackslashRun(s, i, q) ==
      if BackslashRun(s, j, q) < q - j then BackslashRun(s, j, q) else q - j + BackslashRun(s, i, j)
  {
    if j < q && s[q - 1] == '\\' {
      RunBound(s, i, j, q - 1);
    }
  }

  /** From an unescaped position the left-to-right reading reaches the next delimiter unescaped
      exactly when an even number of backslashes stands before it. */
  lemma {:induction false} ReachDelimiter(s: string, i: nat, q: nat, delim: char)
    requires i <= q < |s| && delim != '\\' && s[q] == delim
    requires forall k :: i <= k < q ==> s[k] != delim
    ensures CloseAt(s, i, delim) ==
      if BackslashRun(s, i, q) % 2 == 1 then CloseAt(s, q + 1, delim) else CloseAt(s, q, delim)
    decreases q - i
  {
    if i < q {
      if s[i] != '\\' {
        ReachDelimiter(s, i + 1, q, delim);
        RunBound(s, i, i + 1, q);
      } else if i + 1 < q {
        ReachDelimiter(s, i + 2, q, delim);
        RunBound(s, i, i + 2, q);
        assert BackslashRun(s, i, i + 2) == if s[i + 1] == '\\' then 2 else 0;
      }
    }
  }

  lemma {:induction false} NeverCloses(s: string, i: nat, delim: char)
    requires i <= |s| && delim != '\\'
    requires forall k :: i <= k < |s| ==> s[k] != delim
    ensures CloseAt(s, i, delim) == |s|
    decreases |s| - i
  {
    if i < |s| {
      NeverCloses(s, if s[i] == '\\' && i + 1 < |s| then i + 2 else i + 1, delim);
    }
  }

  lemma AtDelimiter(s: string, q: nat, delim: char)
    requires q < |s| && s[q] == delim != '\\'
    ensures CloseAt(s, q, delim) == if q + 1 < |s| && s[q + 1] == delim then CloseAt(s, q + 2, delim) else q
  {
  }

  /** No backslash run reaches back over a delimiter. */
  lemma RunEmpty(s: string, i: nat, j: nat, delim: char)
    requires i <= j <= |s| && delim != '\\' && (j == i || s[j - 1] == delim)
    ensures BackslashRun(s, i, j) == 0
  {
  }

  /** The search of the code: jump to the next delimiter, look back for backslashes, look ahead for
      a doubled one. It stops at exactly the delimiter the left-to-right reading stops at. */
  method CloseString(s: string, start: nat, delim: char) returns (q: nat)
    requires start <= |s| && delim != '\\'
    ensures q == CloseAt(s, start, delim)
  {
    hide CloseAt, BackslashRun;
    q := Memchr(s, delim, start);
    ghost var resume := start;
    while q < |s|
      invariant start <= resume <= q <= |s|
      invariant q == IndexOf(s, delim, resume)
      invariant CloseAt(s, start, delim) == CloseAt(s, resume, delim)
      invariant resume == start || s[resume - 1] == delim
      decreases |s| - q
    {
      ReachDelimiter(s, resume, q, delim);
      RunBound(s, start, resume, q);
      RunEmpty(s, start, resume, delim);
      AtDelimiter(s, q, delim);
      var escaped := IsBackslashEscaped(s, start, q);
      if escaped {
        resume := q + 1;
        q := Memchr(s, delim, q + 1);
      } else if q + 1 < |s| && s[q + 1] == s[q] {
        resume := q + 2;
        q := Memchr(s, delim, q + 2);
      } else {
        return;
      }
    }
    NeverCloses(s, resume, delim);
  }
}
