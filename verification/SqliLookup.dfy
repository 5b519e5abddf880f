/** The keyword table of the SQL engine: a case-folding comparison and a binary search over it. */
module SqliLookup {
  import opened Text

  datatype Keyword = Keyword(word: string, kind: char)

  /** An upper-case word against arbitrary bytes, character by character and signed. A key that
      holds a NUL where the word ends is greater than the word. */
  function CaseCmp(word: string, key: string): int {
    if key == [] then
      if word == [] then 0 else 1
    else
      var a, b := Signed(At(word, 0)), Signed(Upcase(key[0]));
      if a != b then a - b
      else if word == [] then -1
      else CaseCmp(word[1..], key[1..])
  }

  method CStrCaseCmp(word: string, key: string) returns (r: int)
    requires NUL !in word
    ensures r == CaseCmp(word, key)
  {
    var i := 0;
    while i < |key|
      invariant 0 <= i <= |key| && i <= |word|
      invariant CaseCmp(word, key) == CaseCmp(word[i..], key[i..])
    {
      var cb := Upcase(key[i]);
      if Signed(At(word, i)) != Signed(cb) {
        return Signed(At(word, i)) - Signed(cb);
      } else if At(word, i) == NUL {
        return -1;
      }
      i := i + 1;
    }
    return if At(word, i) == NUL then 0 else 1;
  }

  /** What the table's words look like: ASCII, never NUL, no lower case. */
  predicate IsTableWord(w: string) {
    forall i :: 0 <= i < |w| ==> NUL < w[i] && w[i] as int < 128 && Upcase(w[i]) == w[i]
  }

  /** `strcmp(a, b) < 0` */
  predicate Less(a: string, b: string) {
    b != [] && (a == [] || a[0] < b[0] || (a[0] == b[0] && Less(a[1..], b[1..])))
  }

  ghost predicate IsTable(table: seq<Keyword>) {
    && table != []
    && (forall i :: 0 <= i < |table| ==> IsTableWord(table[i].word))
    && (forall i, j :: 0 <= i < j < |table| ==> Less(table[i].word, table[j].word))
  }

  /** The comparison answers zero exactly for the upcased key, whatever bytes the key holds. */
  lemma {:induction false} CaseCmpZero(word: string, key: string)
    requires IsTableWord(word) && IsBytes(key)
    ensures CaseCmp(word, key) == 0 <==> word == Upper(key)
  {
    if key != [] {
      if word == [] {
      } else {
        CaseCmpZero(word[1..], key[1..]);
        assert Upper(key)[1..] == Upper(key[1..]);
        assert word == [word[0]] + word[1..];
        assert Upper(key) == [Upcase(key[0])] + Upper(key)[1..];
      }
    }
  }

  /** Words below one that is not above the key are strictly below the key: the comparison is
      monotone along the table although it is signed and treats NUL specially. */
  lemma {:induction false} CaseCmpMonotone(lo: string, hi: string, key: string)
    requires IsTableWord(lo) && IsTableWord(hi) && Less(lo, hi)
    requires CaseCmp(hi, key) <= 0
    ensures CaseCmp(lo, key) < 0
  {
    if key != [] && lo != [] && lo[0] == hi[0] && Signed(Upcase(key[0])) == Signed(hi[0]) {
      CaseCmpMonotone(lo[1..], hi[1..], key[1..]);
    }
  }

  /** The meaning of a lookup: scan the table for the upcased key. */
  function LinearLookup(table: seq<Keyword>, key: string): char {
    if table == [] then NUL
    else if table[0].word == Upper(key) then table[0].kind
    else LinearLookup(table[1..], key)
  }

  lemma {:induction false} LinearFinds(table: seq<Keyword>, key: string, i: nat)
    requires i < |table| && table[i].word == Upper(key)
    requires forall j :: 0 <= j < i ==> table[j].word != Upper(key)
    ensures LinearLookup(table, key) == table[i].kind
  {
    if i > 0 {
      LinearFinds(table[1..], key, i - 1);
    }
  }

  lemma {:induction false} LinearMisses(table: seq<Keyword>, key: string)
    requires forall j :: 0 <= j < |table| ==> table[j].word != Upper(key)
    ensures LinearLookup(table, key) == NUL
  {
    if table != [] {
      LinearMisses(table[1..], key);
    }
  }

  /** Where the halving stops: everything before `left` is below the key, so only `left` can match. */
  lemma OnlyCandidate(table: seq<Keyword>, key: string, left: nat)
    requires IsTable(table) && IsBytes(key) && left < |table|
    requires forall i :: 0 <= i < left ==> CaseCmp(table[i].word, key) < 0
    requires left + 1 < |table| ==> CaseCmp(table[left].word, key) >= 0
    ensures LinearLookup(table, key) == if CaseCmp(table[left].word, key) == 0 then table[left].kind else NUL
  {
    forall i | 0 <= i < |table| && i != left
      ensures table[i].word != Upper(key)
    {
      CaseCmpZero(table[i].word, key);
      if left < i && CaseCmp(table[i].word, key) == 0 {
        CaseCmpMonotone(table[left].word, table[i].word, key);
      }
    }
    CaseCmpZero(table[left].word, key);
    if table[left].word == Upper(key) {
      LinearFinds(table, key, left);
    } else {
      LinearMisses(table, key);
    }
  }

  method BsearchKeywordType(key: string, keywords: seq<Keyword>) returns (kind: char)
    requires IsTable(keywords) && IsBytes(key)
    ensures kind == LinearLookup(keywords, key)
  {
    var left, right := 0, |keywords| - 1;
    while left < right
      invariant 0 <= left <= right < |keywords|
      invariant forall i :: 0 <= i < left ==> CaseCmp(keywords[i].word, key) < 0
      invariant right + 1 < |keywords| ==> CaseCmp(keywords[right].word, key) >= 0
    {
      var pos := (left + right) / 2;
      var c := CStrCaseCmp(keywords[pos].word, key);
      if c < 0 {
        forall i | 0 <= i < pos
          ensures CaseCmp(keywords[i].word, key) < 0
        {
          CaseCmpMonotone(keywords[i].word, keywords[pos].word, key);
        }
        left := pos + 1;
      } else {
        right := pos;
      }
    }
    OnlyCandidate(keywords, key, left);
    var c := CStrCaseCmp(keywords[left].word, key);
    return if c == 0 then keywords[left].kind else NUL;
  }
}
