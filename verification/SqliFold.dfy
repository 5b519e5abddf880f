/** Folding, as a machine over the live tokens: which rule fires, what it does to the window, and
    why the machine stops. `libinjection_sqli_fold` is proved against `Fold` in SqliState. */
module SqliFold {
  import opened Text
  import opened SqliLex
  import opened SqliLookup

  const MAX_TOKENS: nat := 5

  // ---- the token stream ---------------------------------------------------------------------

  datatype Scanned = Found(tok: Token, next: nat, ddx: nat, hash: nat) | Exhausted

  predicate Fits(src: Source, p: nat, r: Scanned) {
    r.Found? ==>
      && r.tok.kind != NUL && p < r.next <= |src.text|
      && p <= r.tok.pos && r.tok.pos + |r.tok.val| <= r.next
      && src.text[r.tok.pos..r.tok.pos + |r.tok.val|] == r.tok.val && |r.tok.val| < TOKEN_SIZE
  }

  /** Reads from `p` until some parser produces a token. */
  function ScanFrom(src: Source, p: nat): (r: Scanned)
    requires p <= |src.text|
    ensures Fits(src, p, r)
    decreases |src.text| - p
  {
    if p == |src.text| then Exhausted
    else
      var lx := LexAt(src, p);
      if lx.tok.kind != NUL then Found(lx.tok, lx.next, lx.ddx, lx.hash) else ScanFrom(src, lx.next)
  }

  function Delimiter(flags: Flags): char {
    if flags.quoteSingle then '\'' else if flags.quoteDouble then '"' else NUL
  }

  /** The next token. At the very start a quote context pretends the input opens inside a string. */
  function Scan(src: Source, p: nat): (r: Scanned)
    requires p <= |src.text|
    ensures Fits(src, p, r)
  {
    if p == 0 < |src.text| && Delimiter(src.flags) != NUL then
      var lx := StringCore(src.text, 0, Delimiter(src.flags), 0, BLANK);
      Found(lx.tok, lx.next, 0, 0)
    else ScanFrom(src, p)
  }

  // ---- tests on tokens --------------------------------------------------------------------------

  predicate IsArithmetic(t: Token) {
    t.kind == 'o' && |t.val| == 1 && t.val[0] in "*/-+%"
  }

  predicate IsUnary(t: Token) {
    t.kind == 'o' &&
    match |t.val|
    case 1 => t.val[0] in "+-!~"
    case 2 => t.val == "!!"
    case 3 => CaseCmp("NOT", t.val) == 0
    case _ => false
  }

  /** The words that act as functions when a parenthesis follows. */
  const CALLABLE_WORDS: seq<string> := ["USER_ID", "USER_NAME", "DATABASE", "PASSWORD", "USER", "CURRENT_USER",
    "CURRENT_DATE", "CURRENT_TIME", "CURRENT_TIMESTAMP", "LOCALTIME", "LOCALTIMESTAMP"]

  predicate Is(t: Token, word: string) {
    CaseCmp(word, t.val) == 0
  }

  predicate IsCallable(t: Token) {
    exists i :: 0 <= i < |CALLABLE_WORDS| && Is(t, CALLABLE_WORDS[i])
  }

  predicate HasUnderscore(t: Token) {
    '_' in CString(t.val)
  }

  /** `syntax_merge_words`: the kind of the two-word phrase, NUL when they do not merge. */
  function MergedKind(lookup: Lookup, a: Token, b: Token): char {
    if a.kind in "knoUfETt" && b.kind in "knoUfETt&" && |a.val| + |b.val| + 1 < TOKEN_SIZE
    then lookup(Word, a.val + " " + b.val)
    else NUL
  }

  // ---- the rules -----------------------------------------------------------------------------------

  /** Where `left` goes after a rule. */
  datatype Back = Stay | StepBack | ToStart

  /** What a rule does at `left`:
      Pop       drops the last `n` tokens of the window;
      Shift     copies the token at `left + at + 1` one place down, then drops the last `n`;
      Merge     stores the phrase at `left` and drops the last token;
      Retype    gives the token at `left + at` another kind and looks at the window again;
      Adjust    gives it another kind and goes on to the next stage of the same round;
      Pass      goes on to the next stage; Evil gives up. */
  datatype Rule =
    | Pop(n: nat, back: Back, folds: nat)
    | Shift(at: nat, n: nat, folds: nat)
    | Merge(kind: char)
    | Retype(at: nat, kind: char, back: Back)
    | Adjust(at: nat, kind: char, back: Back)
    | Pass
    | Evil

  /** The two-token rules, in the order the code tries them. None drops the token at `left` without
      resetting `left`, and none looks past the second token. */
  function PairRule(lookup: Lookup, a: Token, b: Token): (r: Rule)
    ensures r.Merge? || r.Retype? || r.Adjust? ==> r.kind != NUL
    ensures r.Pop? ==> 0 < r.n <= 2 && (r.back == Stay ==> r.n == 1)
    ensures r.Shift? ==> r.at == 0 && r.n == 1
    ensures r.Retype? || r.Adjust? ==> r.at <= 1
  {
    if a.kind == 's' && b.kind == 's' then Pop(1, Stay, 1)
    else if a.kind == ';' && b.kind == ';' then Pop(1, Stay, 1)
    else if a.kind in "o&" && (IsUnary(b) || b.kind == 't') then Pop(1, ToStart, 1)
    else if a.kind == '(' && IsUnary(b) then Pop(1, StepBack, 1)
    else if MergedKind(lookup, a, b) != NUL then Merge(MergedKind(lookup, a, b))
    else if a.kind == ';' && b.kind == 'f' && At(b.val, 0) in "Ii" && At(b.val, 1) in "Ff" then Retype(1, 'T', Stay)
    else if a.kind in "nv" && b.kind == '(' && IsCallable(a) then Retype(0, 'f', Stay)
    else if a.kind == 'k' && (Is(a, "IN") || Is(a, "NOT IN")) then
      Retype(0, if b.kind == '(' then 'o' else 'n', Stay)
    else if a.kind == 'o' && (Is(a, "LIKE") || Is(a, "NOT LIKE")) then
      if b.kind == '(' then Adjust(0, 'f', Stay) else Pass
    else if a.kind == 't' && b.kind in "n1t(fvs" then Shift(0, 1, 1)
    else if a.kind == 'A' && b.kind == 'n' then
      if HasUnderscore(b) then Adjust(1, 't', ToStart) else Pass
    else if a.kind == '\\' then
      if IsArithmetic(b) then Retype(0, '1', ToStart) else Shift(0, 1, 1)
    else if a.kind == '(' && b.kind == '(' then Pop(1, ToStart, 1)
    else if a.kind == ')' && b.kind == ')' then Pop(1, ToStart, 1)
    else if a.kind == '{' && b.kind == 'n' then
      if b.val == "" then Evil else Pop(2, ToStart, 2)
    else if b.kind == '}' then Pop(1, ToStart, 1)
    else Pass
  }

  /** The three-token rules. */
  function TripleRule(a: Token, b: Token, c: Token): (r: Rule)
    ensures r.Pop? || r.Shift? || r.Adjust? || r.Pass?
    ensures r.Adjust? ==> r.kind == 'n' && r.at == 0 && r.back == Stay && a.kind == 'f' && Is(a, "USER")
    ensures r.Pop? ==> r.n == 2 && r.back == ToStart
    ensures r.Shift? ==> r.at == 1 && r.n in [1, 3]
  {
    if a.kind == '1' && b.kind == 'o' && c.kind == '1' then Pop(2, ToStart, 0)
    else if a.kind == 'o' && b.kind != '(' && c.kind == 'o' then Pop(2, ToStart, 0)
    else if a.kind == '&' && c.kind == '&' then Pop(2, ToStart, 0)
    else if a.kind == 'v' && b.kind == 'o' && c.kind in "v1n" then Pop(2, ToStart, 0)
    else if a.kind in "n1" && b.kind == 'o' && c.kind in "1n" then Pop(2, ToStart, 0)
    else if a.kind in "n1vs" && b.kind == 'o' && CString(b.val) == "::" && c.kind == 't' then Pop(2, ToStart, 2)
    else if a.kind in "n1sv" && b.kind == ',' && c.kind in "1nsv" then Pop(2, ToStart, 0)
    else if a.kind in "EB," && IsUnary(b) && c.kind == '(' then Shift(1, 1, 0)
    else if a.kind in "kEB" && IsUnary(b) && c.kind in "1nvsf" then Shift(1, 1, 0)
    else if a.kind == ',' && IsUnary(b) && c.kind in "1nvs" then Shift(1, 3, 0)
    else if a.kind == ',' && IsUnary(b) && c.kind == 'f' then Shift(1, 1, 0)
    else if a.kind == 'n' && b.kind == '.' && c.kind == 'n' then Pop(2, ToStart, 0)
    else if a.kind == 'E' && b.kind == '.' && c.kind == 'n' then Shift(1, 1, 0)
    else if a.kind == 'f' && b.kind == '(' && c.kind != ')' && Is(a, "USER") then Adjust(0, 'n', Stay)
    else Pass
  }

  // ---- the machine ------------------------------------------------------------------------------------

  datatype Stats = Stats(tokens: nat, folds: nat, ddx: nat, hash: nat)

  /** The live tokens `w` (the code's `pos` is their number), how many of them are settled, the
      reading position, whether input may remain, and the comment seen last. */
  datatype Config = Config(w: seq<Token>, left: nat, pos: nat, more: bool, comment: Token, stats: Stats)

  function MoveBack(left: nat, back: Back): (r: nat)
    ensures r <= left
  {
    match back
    case Stay => left
    case StepBack => if left > 0 then left - 1 else 0
    case ToStart => 0
  }

  /** The positions a rule mentions exist, and what it drops leaves `left` inside the window. */
  predicate Applies(rule: Rule, c: Config) {
    match rule
    case Pop(n, back, _) => c.left + n <= |c.w|
    case Shift(at, n, _) => c.left + at + 1 < |c.w| && n <= |c.w|
    case Merge(_) => c.left + 1 < |c.w|
    case Retype(at, _, _) => c.left + at < |c.w|
    case Adjust(at, _, _) => c.left + at < |c.w|
    case Pass => true
    case Evil => c.left + 1 < |c.w|
  }

  function MergeTokens(a: Token, b: Token, kind: char): Token {
    Assign(a, kind, a.pos, a.val + " " + b.val)
  }

  function Apply(rule: Rule, c: Config): Config
    requires Applies(rule, c)
  {
    var w, i := c.w, c.left;
    match rule
    case Pop(n, back, folds) =>
      c.(w := w[..|w| - n], left := MoveBack(i, back), stats := c.stats.(folds := c.stats.folds + folds))
    case Shift(at, n, folds) =>
      c.(w := w[i + at := w[i + at + 1]][..|w| - n], left := 0, stats := c.stats.(folds := c.stats.folds + folds))
    case Merge(kind) =>
      c.(w := w[i := MergeTokens(w[i], w[i + 1], kind)][..|w| - 1], left := MoveBack(i, StepBack),
         stats := c.stats.(folds := c.stats.folds + 1))
    case Retype(at, kind, back) => c.(w := w[i + at := w[i + at].(kind := kind)], left := MoveBack(i, back))
    case Adjust(at, kind, back) => c.(w := w[i + at := w[i + at].(kind := kind)], left := MoveBack(i, back))
    case Pass => c
    case Evil => c.(w := w[i + 1 := w[i + 1].(kind := 'X')])
  }

  /** One read into the window: a comment is only remembered. */
  function Read(src: Source, c: Config): (r: Config)
    requires c.pos <= |src.text|
    ensures r.pos <= |src.text| && (r.more ==> c.pos < r.pos)
    ensures r.left == c.left && |c.w| <= |r.w| <= |c.w| + 1
  {
    match Scan(src, c.pos)
    case Exhausted => c.(more := false, pos := |src.text|)
    case Found(tok, next, ddx, hash) =>
      var st := c.stats.(tokens := c.stats.tokens + 1, ddx := c.stats.ddx + ddx, hash := c.stats.hash + hash);
      if tok.kind == 'c' then c.(more := true, pos := next, comment := tok, stats := st)
      else c.(more := true, pos := next, w := c.w + [tok], comment := c.comment.(kind := NUL), stats := st)
  }

  /** Read until `want` tokens lie beyond `left`, the window is full, or the input ends. */
  function Fetch(src: Source, c: Config, want: nat): (r: Config)
    requires c.pos <= |src.text|
    ensures r.left == c.left && c.pos <= r.pos <= |src.text| && |c.w| <= |r.w|
    decreases |src.text| - c.pos, c.more
  {
    if c.more && |c.w| <= MAX_TOKENS && |c.w| < c.left + want then Fetch(src, Read(src, c).(left := c.left), want)
    else c
  }

  /** Five-token shapes that fold to their first token, keeping a sixth if it was read. */
  predicate Collapses(w: seq<Token>)
    ensures Collapses(w) ==> |w| >= MAX_TOKENS
  {
    |w| >= MAX_TOKENS &&
    var k := seq(5, i requires 0 <= i < 5 => w[i].kind);
    || (k[0] == '1' && k[1] in "o," && k[2] == '(' && k[3] == '1' && k[4] == ')')
    || (k[0] == 'n' && k[1] == 'o' && k[2] == '(' && k[3] in "n1" && k[4] == ')')
    || (k[0] == '1' && k[1] == ')' && k[2] == ',' && k[3] == '(' && k[4] == '1')
    || (k[0] == 'n' && k[1] == ')' && k[2] == 'o' && k[3] == '(' && k[4] == 'n')
  }

  function Collapse(c: Config): Config {
    if Collapses(c.w) then c.(w := if |c.w| > MAX_TOKENS then [c.w[0], c.w[MAX_TOKENS]] else [c.w[0]], left := 0) else c
  }

  datatype Outcome = Again(c: Config) | Done(c: Config) | GaveUp(c: Config)

  /** The three-token rules at `left`; when none drops a token, one more token is settled. */
  function Settle(c: Config): Config
    requires c.left < |c.w|
  {
    if |c.w| < c.left + 3 then c.(left := |c.w|)
    else
      var rule := TripleRule(c.w[c.left], c.w[c.left + 1], c.w[c.left + 2]);
      var c' := Apply(rule, c);
      if rule.Pass? || rule.Adjust? then c'.(left := c'.left + 1) else c'
  }

  /** After the two-token rules passed: get a third token and try again. */
  function SecondStage(src: Source, c: Config): Config
    requires c.pos <= |src.text| && c.left < |c.w|
  {
    Settle(Fetch(src, c, 3))
  }

  /** The two-token rules at `left`, and what follows when none ends the round. */
  function PairStage(src: Source, c: Config): Outcome
    requires c.pos <= |src.text| && c.left + 1 < |c.w|
  {
    var rule := PairRule(src.lookup, c.w[c.left], c.w[c.left + 1]);
    var c' := Apply(rule, c);
    if rule.Evil? then GaveUp(c')
    else if rule.Pass? || rule.Adjust? then Again(SecondStage(src, c'))
    else Again(c')
  }

  /** One round of the outer loop. */
  function Step(src: Source, c: Config): Outcome
    requires c.pos <= |src.text|
  {
    var c0 := Collapse(c);
    if !c0.more || c0.left >= MAX_TOKENS then Done(c0.(left := |c0.w|))
    else
      var c1 := Fetch(src, c0, 2);
      if |c1.w| < c1.left + 2 then Again(c1.(left := |c1.w|)) else PairStage(src, c1)
  }

  // ---- the invariant ------------------------------------------------------------------------------------

  /** `left <= pos <= 6`; live tokens have a kind, fit their slot, and stand in input order; a
      remembered comment comes after all of them. */
  ghost predicate Sound(src: Source, c: Config) {
    && c.left <= |c.w| <= MAX_TOKENS + 1
    && c.pos <= |src.text|
    && (forall i :: 0 <= i < |c.w| ==> c.w[i].kind != NUL && |c.w[i].val| < TOKEN_SIZE && c.w[i].pos <= c.pos)
    && (forall i, j :: 0 <= i < j < |c.w| ==> c.w[i].pos <= c.w[j].pos)
    && (c.comment.kind == 'c' ==>
          |c.comment.val| < TOKEN_SIZE && c.comment.pos <= c.pos
          && forall i :: 0 <= i < |c.w| ==> c.w[i].pos <= c.comment.pos)
  }

  lemma ReadSound(src: Source, c: Config)
    requires Sound(src, c) && |c.w| <= MAX_TOKENS
    ensures Sound(src, Read(src, c))
  {
  }

  /** Reading changes nothing or moves ahead in the input. */
  ghost predicate Ahead(c': Config, c: Config) {
    c'.pos > c.pos || (c'.pos == c.pos && c.more && !c'.more)
  }

  lemma {:induction false} FetchSound(src: Source, c: Config, want: nat)
    requires Sound(src, c)
    ensures Sound(src, Fetch(src, c, want))
    ensures Fetch(src, c, want) == c || Ahead(Fetch(src, c, want), c)
    ensures var r := Fetch(src, c, want); r.more && |r.w| <= MAX_TOKENS ==> |r.w| >= r.left + want
    decreases |src.text| - c.pos, c.more
  {
    if c.more && |c.w| <= MAX_TOKENS && |c.w| < c.left + want {
      ReadSound(src, c);
      FetchSound(src, Read(src, c).(left := c.left), want);
    }
  }

  /** Cutting the window keeps it sound. */
  lemma TakeSound(src: Source, c: Config, n: nat, left: nat, stats: Stats)
    requires Sound(src, c) && left <= n <= |c.w|
    ensures Sound(src, c.(w := c.w[..n], left := left, stats := stats))
  {
  }

  /** So does putting at `i` a token that stands where the one at `i` or the next one stands. */
  lemma PutSound(src: Source, c: Config, i: nat, t: Token)
    requires Sound(src, c) && i < |c.w|
    requires t.kind != NUL && |t.val| < TOKEN_SIZE
    requires t.pos == c.w[i].pos || (i + 1 < |c.w| && t.pos == c.w[i + 1].pos)
    ensures Sound(src, c.(w := c.w[i := t]))
  {
  }

  /** Both at once. */
  lemma ReplaceSound(src: Source, c: Config, i: nat, t: Token, n: nat, left: nat, stats: Stats)
    requires Sound(src, c) && i < |c.w| && left <= n <= |c.w|
    requires t.kind != NUL && |t.val| < TOKEN_SIZE
    requires t.pos == c.w[i].pos || (i + 1 < |c.w| && t.pos == c.w[i + 1].pos)
    ensures Sound(src, c.(w := c.w[i := t][..n], left := left, stats := stats))
  {
    hide Sound;
    PutSound(src, c, i, t);
    TakeSound(src, c.(w := c.w[i := t]), n, left, stats);
  }

  lemma ApplySound(src: Source, c: Config, rule: Rule)
    requires Sound(src, c) && Applies(rule, c)
    requires rule.Merge? || rule.Retype? || rule.Adjust? ==> rule.kind != NUL
    requires rule.Pop? ==> c.left + 1 < |c.w| && (rule.back == Stay ==> c.left + rule.n < |c.w|)
    ensures Sound(src, Apply(rule, c))
  {
    hide Sound;
    var c' := Apply(rule, c);
    var i := c.left;
    assert c.left <= |c.w| && Kept(c) by { SoundBasics(src, c); }
    match rule {
      case Pop(n, back, _) => TakeSound(src, c, |c.w| - n, c'.left, c'.stats);
      case Shift(at, n, _) => ReplaceSound(src, c, i + at, c.w[i + at + 1], |c.w| - n, 0, c'.stats);
      case Merge(kind) =>
        ReplaceSound(src, c, i, MergeTokens(c.w[i], c.w[i + 1], kind), |c.w| - 1, c'.left, c'.stats);
      case Retype(at, kind, _) => RetypeSound(src, c, i + at, kind, c'.left);
      case Adjust(at, kind, _) => RetypeSound(src, c, i + at, kind, c'.left);
      case Pass =>
      case Evil => RetypeSound(src, c, i + 1, 'X', i);
    }
  }

  predicate Kept(c: Config) {
    forall i :: 0 <= i < |c.w| ==> c.w[i].kind != NUL && |c.w[i].val| < TOKEN_SIZE
  }

  lemma SoundBasics(src: Source, c: Config)
    requires Sound(src, c)
    ensures c.left <= |c.w| && Kept(c)
  {
  }

  lemma RetypeSound(src: Source, c: Config, i: nat, kind: char, left: nat)
    requires Sound(src, c) && i < |c.w| && kind != NUL && left <= |c.w|
    ensures Sound(src, c.(w := c.w[i := c.w[i].(kind := kind)], left := left))
  {
    PutSound(src, c, i, c.w[i].(kind := kind));
  }

  lemma SettleSound(src: Source, c: Config)
    requires Sound(src, c) && c.left < |c.w|
    ensures Sound(src, Settle(c))
  {
    hide TripleRule, Apply, Is;
    if |c.w| >= c.left + 3 {
      var rule := TripleRule(c.w[c.left], c.w[c.left + 1], c.w[c.left + 2]);
      ApplySound(src, c, rule);
      AdjustRoom(rule, c);
    }
  }

  /** Retyping in place, or not at all, leaves room for `left` to advance. */
  lemma AdjustRoom(rule: Rule, c: Config)
    requires Applies(rule, c) && c.left < |c.w|
    ensures var r := Apply(rule, c);
      && r.pos == c.pos && r.more == c.more
      && (rule.Pass? ==> r == c)
      && (rule.Pass? || rule.Adjust? ==> |r.w| == |c.w| && r.left <= c.left)
  {
  }

  lemma CollapseSound(src: Source, c: Config)
    requires Sound(src, c)
    ensures Sound(src, Collapse(c)) && (Collapse(c) == c || |Collapse(c).w| < |c.w|)
    ensures Collapse(c).pos == c.pos && Collapse(c).more == c.more
  {
    hide Collapses;
  }

  lemma CollapseKeeps(c: Config)
    ensures Collapse(c).pos == c.pos && Collapse(c).more == c.more && Collapse(c).comment == c.comment
    ensures c.left <= |c.w| ==> Collapse(c).left <= |Collapse(c).w|
  {
    hide Collapses;
  }

  lemma PairStageSound(src: Source, c: Config)
    requires Sound(src, c) && c.left + 1 < |c.w|
    ensures Sound(src, PairStage(src, c).c)
  {
    hide PairRule, Fetch, Apply, Settle;
    var rule := PairRule(src.lookup, c.w[c.left], c.w[c.left + 1]);
    ApplySound(src, c, rule);
    AdjustRoom(rule, c);
    if rule.Pass? || rule.Adjust? {
      FetchSound(src, Apply(rule, c), 3);
      SettleSound(src, Fetch(src, Apply(rule, c), 3));
    }
  }

  /** Every round keeps the invariant, whichever rule fires. */
  lemma StepSound(src: Source, c: Config)
    requires Sound(src, c)
    ensures Sound(src, Step(src, c).c)
  {
    hide Fetch, PairStage, Collapse;
    CollapseSound(src, c);
    var c0 := Collapse(c);
    if c0.more && c0.left < MAX_TOKENS {
      FetchSound(src, c0, 2);
      var c1 := Fetch(src, c0, 2);
      if |c1.w| >= c1.left + 2 {
        PairStageSound(src, c1);
      }
    }
  }

  // ---- termination ------------------------------------------------------------------------------------------

  /** Tokens whose retyping may send `left` back to the start: each can do so once. */
  predicate Rewinds(t: Token) {
    t.kind == '\\' || (t.kind == 'n' && HasUnderscore(t))
  }

  function CountRewinds(w: seq<Token>): nat {
    if w == [] then 0 else (if Rewinds(w[0]) then 1 else 0) + CountRewinds(w[1..])
  }

  lemma {:induction false} CountAfterUpdate(w: seq<Token>, i: nat, t: Token)
    requires i < |w|
    ensures CountRewinds(w[i := t]) == CountRewinds(w) - (if Rewinds(w[i]) then 1 else 0) + (if Rewinds(t) then 1 else 0)
  {
    if i == 0 {
      assert w[0 := t][1..] == w[1..];
    } else {
      CountAfterUpdate(w[1..], i - 1, t);
      assert w[i := t][1..] == w[1..][i - 1 := t];
    }
  }

  /** How many more times the kinds at `left` can change before a round must move on. */
  function KindRank(w: seq<Token>, left: nat): nat {
    if left + 1 < |w| then
      (if w[left].kind == 'k' then 2 else if w[left].kind in "nv" then 1 else 0)
      + (if w[left + 1].kind == 'f' then 1 else 0)
    else 0
  }

  /** The part of the measure below the reading position: window size, rewinding tokens, distance
      of `left` from the end, kinds at `left`. */
  ghost predicate WindowSmaller(c': Config, c: Config) {
    || |c'.w| < |c.w|
    || (|c'.w| == |c.w| && CountRewinds(c'.w) < CountRewinds(c.w))
    || (|c'.w| == |c.w| && CountRewinds(c'.w) == CountRewinds(c.w) && c'.left > c.left)
    || (|c'.w| == |c.w| && CountRewinds(c'.w) == CountRewinds(c.w) && c'.left == c.left
        && KindRank(c'.w, c'.left) < KindRank(c.w, c.left))
  }

  ghost predicate Smaller(c': Config, c: Config) {
    Ahead(c', c) || (c'.pos == c.pos && c'.more == c.more && WindowSmaller(c', c))
  }

  /** A word that compares equal to one without an underscore has none. */
  lemma {:induction false} NoUnderscore(word: string, key: string)
    requires CaseCmp(word, key) == 0
    requires forall i :: 0 <= i < |word| ==> word[i] != '_' && word[i] as int < 128
    ensures '_' !in key
  {
    if key != [] && word != [] {
      NoUnderscore(word[1..], key[1..]);
    }
  }

  lemma PlainWordNoRewind(t: Token, word: string)
    requires Is(t, word) && word in ["IN", "NOT IN", "USER"]
    ensures !HasUnderscore(t)
  {
    NoUnderscore(word, t.val);
  }

  /** Dropping tokens, at the end of the window or by shifting, is a smaller window. */
  lemma DropShrinks(c: Config, rule: Rule)
    requires Applies(rule, c) && (rule.Pop? || rule.Shift? || rule.Merge?)
    requires rule.Pop? || rule.Shift? ==> 0 < rule.n
    ensures |Apply(rule, c).w| < |c.w| && Apply(rule, c).pos == c.pos && Apply(rule, c).more == c.more
  {
  }

  /** What justifies retyping by a two-token rule: the old kind ranks above the new one, or the
      token can rewind and no longer can afterwards. */
  lemma RetypeReason(lookup: Lookup, a: Token, b: Token)
    requires PairRule(lookup, a, b).Retype?
    ensures var r := PairRule(lookup, a, b);
      || (r.back == Stay && r.at == 1 && b.kind == 'f' && a.kind == ';' && r.kind == 'T')
      || (r.back == Stay && r.at == 0 && a.kind in "nv" && r.kind == 'f' && b.kind == '(')
      || (r.back == Stay && r.at == 0 && a.kind == 'k' && r.kind in "on" && !HasUnderscore(a))
      || (r.back == ToStart && r.at == 0 && a.kind == '\\' && r.kind == '1')
  {
    hide MergedKind, IsUnary, IsCallable, HasUnderscore, CaseCmp;
    if PairRule(lookup, a, b).kind in "on" {
      PlainWordNoRewind(a, if Is(a, "IN") then "IN" else "NOT IN");
    }
  }

  lemma RetypeShrinks(lookup: Lookup, c: Config)
    requires c.left + 1 < |c.w|
    requires PairRule(lookup, c.w[c.left], c.w[c.left + 1]).Retype?
    ensures Smaller(Apply(PairRule(lookup, c.w[c.left], c.w[c.left + 1]), c), c)
  {
    RetypeReason(lookup, c.w[c.left], c.w[c.left + 1]);
    hide PairRule, HasUnderscore;
    var rule := PairRule(lookup, c.w[c.left], c.w[c.left + 1]);
    var i := c.left + rule.at;
    CountAfterUpdate(c.w, i, c.w[i].(kind := rule.kind));
  }

  /** A two-token rule that goes on to the next stage keeps the window or uses up a rewinding token. */
  lemma AdjustKeeps(lookup: Lookup, c: Config)
    requires c.left + 1 < |c.w|
    requires PairRule(lookup, c.w[c.left], c.w[c.left + 1]).Adjust?
    ensures var c' := Apply(PairRule(lookup, c.w[c.left], c.w[c.left + 1]), c);
      CountRewinds(c'.w) < CountRewinds(c.w) || (CountRewinds(c'.w) == CountRewinds(c.w) && c'.left == c.left)
  {
    hide MergedKind, IsUnary, IsCallable, HasUnderscore, CaseCmp;
    var rule := PairRule(lookup, c.w[c.left], c.w[c.left + 1]);
    var i := c.left + rule.at;
    CountAfterUpdate(c.w, i, c.w[i].(kind := rule.kind));
  }

  /** A USER that turns out not to be a call never rewinds. */
  lemma UserKeepsCount(w: seq<Token>, i: nat)
    requires i < |w| && w[i].kind == 'f' && Is(w[i], "USER")
    ensures CountRewinds(w[i := w[i].(kind := 'n')]) == CountRewinds(w)
  {
    hide CaseCmp;
    PlainWordNoRewind(w[i], "USER");
    CountAfterUpdate(w, i, w[i].(kind := 'n'));
  }

  /** The three-token rules drop a token or settle one. */
  lemma SettleShrinks(c: Config)
    requires c.left < |c.w|
    ensures var r := Settle(c);
      && r.pos == c.pos && r.more == c.more
      && (|r.w| < |c.w| || (|r.w| == |c.w| && CountRewinds(r.w) == CountRewinds(c.w) && r.left > c.left))
  {
    hide TripleRule, Is, CountRewinds;
    if |c.w| >= c.left + 3 {
      var rule := TripleRule(c.w[c.left], c.w[c.left + 1], c.w[c.left + 2]);
      if rule.Adjust? {
        UserKeepsCount(c.w, c.left);
      }
    }
  }

  lemma SecondStageShrinks(src: Source, c: Config)
    requires Sound(src, c) && c.left + 1 < |c.w|
    ensures var r := SecondStage(src, c);
      || Ahead(r, c)
      || (r.pos == c.pos && r.more == c.more
          && (|r.w| < |c.w| || (|r.w| == |c.w| && CountRewinds(r.w) == CountRewinds(c.w) && r.left > c.left)))
  {
    hide Fetch, Settle, CountRewinds;
    FetchSound(src, c, 3);
    SettleShrinks(Fetch(src, c, 3));
  }

  lemma PairStageSmaller(src: Source, c: Config)
    requires Sound(src, c) && c.left + 1 < |c.w|
    ensures PairStage(src, c).Again? ==> Smaller(PairStage(src, c).c, c)
  {
    hide PairRule, Fetch, Apply, SecondStage, CountRewinds, KindRank;
    var rule := PairRule(src.lookup, c.w[c.left], c.w[c.left + 1]);
    AdjustRoom(rule, c);
    if rule.Pass? || rule.Adjust? {
      ApplySound(src, c, rule);
      if rule.Adjust? {
        AdjustKeeps(src.lookup, c);
      }
      SecondStageShrinks(src, Apply(rule, c));
    } else if rule.Retype? {
      RetypeShrinks(src.lookup, c);
    } else if !rule.Evil? {
      DropShrinks(c, rule);
    }
  }

  /** Folding stops: every round that goes on is smaller in the measure
      (unread input, input left, tokens, rewinding tokens, unsettled tokens, kinds at `left`). */
  lemma StepSmaller(src: Source, c: Config)
    requires Sound(src, c)
    ensures Step(src, c).Again? ==> Smaller(Step(src, c).c, c)
  {
    hide Fetch, PairStage, Collapse, CountRewinds, KindRank;
    CollapseSound(src, c);
    var c0 := Collapse(c);
    if c0.more && c0.left < MAX_TOKENS {
      FetchSound(src, c0, 2);
      var c1 := Fetch(src, c0, 2);
      if |c1.w| >= c1.left + 2 {
        PairStageSmaller(src, c1);
      }
    }
  }

  // ---- whole runs ------------------------------------------------------------------------------------------------

  /** A run ends with every token settled, or with an evil token right behind the settled ones. */
  predicate Stopped(o: Outcome) {
    && (o.Done? ==> o.c.left == |o.c.w|)
    && (o.GaveUp? ==> o.c.left + 1 < |o.c.w| && o.c.w[o.c.left + 1].kind == 'X')
  }

  lemma StepStops(src: Source, c: Config)
    requires Sound(src, c)
    ensures Stopped(Step(src, c))
  {
    hide PairRule, Fetch, Settle, Collapse;
  }

  /** What a run needs to know of one round. */
  lemma RoundFacts(src: Source, c: Config)
    requires Sound(src, c)
    ensures c.left <= MAX_TOKENS + 1 && c.pos <= |src.text|
    ensures var r := Step(src, c);
      && Sound(src, r.c)
      && (r.Again? ==>
            (|src.text| - c.pos, c.more, |c.w|, CountRewinds(c.w), MAX_TOKENS + 1 - c.left, KindRank(c.w, c.left)
             decreases to
             |src.text| - r.c.pos, r.c.more, |r.c.w|, CountRewinds(r.c.w), MAX_TOKENS + 1 - r.c.left,
             KindRank(r.c.w, r.c.left)))
      && Stopped(r)
  {
    hide Step, CountRewinds, KindRank, Stopped;
    StepSound(src, c);
    StepSmaller(src, c);
    StepStops(src, c);
  }

  /** Rounds until the machine stops. */
  function Run(src: Source, c: Config): (r: Outcome)
    requires Sound(src, c)
    ensures !r.Again? && Sound(src, r.c)
    ensures Stopped(r)
    decreases |src.text| - c.pos, c.more, |c.w|, CountRewinds(c.w), MAX_TOKENS + 1 - c.left, KindRank(c.w, c.left)
  {
    hide *;
    RoundFacts(src, c);
    var o := Step(src, c);
    if o.Again? then Run(src, o.c) else o
  }

  /** Initial comments, left parentheses, types and unary operators are passed over. */
  predicate IsSkipped(t: Token) {
    t.kind in "c(t" || IsUnary(t)
  }

  datatype Beginning = Nothing(stats: Stats) | First(c: Config)

  function Begin(src: Source, p: nat, stats: Stats): (r: Beginning)
    requires p <= |src.text|
    ensures r.First? ==> Sound(src, r.c) && |r.c.w| == 1
    decreases |src.text| - p
  {
    match Scan(src, p)
    case Exhausted => Nothing(stats)
    case Found(tok, next, ddx, hash) =>
      var st := stats.(tokens := stats.tokens + 1, ddx := stats.ddx + ddx, hash := stats.hash + hash);
      if IsSkipped(tok) then Begin(src, next, st) else First(Config([tok], 0, next, true, BLANK, st))
  }

  const NO_STATS := Stats(0, 0, 0, 0)

  datatype Folded = Folded(tokens: seq<Token>, stats: Stats)

  /** A trailing comment goes back in when there is room; at most five tokens are kept. */
  function Finish(o: Outcome): Folded
    requires o.Done? || (o.GaveUp? && o.c.left + 1 < |o.c.w|)
  {
    if o.GaveUp? then Folded(o.c.w[..o.c.left + 2], o.c.stats)
    else
      var w := if |o.c.w| < MAX_TOKENS && o.c.comment.kind == 'c' then o.c.w + [o.c.comment] else o.c.w;
      Folded(if |w| > MAX_TOKENS then w[..MAX_TOKENS] else w, o.c.stats)
  }

  function Fold(src: Source): Folded {
    match Begin(src, 0, NO_STATS)
    case Nothing(stats) => Folded([], stats)
    case First(c) => Finish(Run(src, c))
  }

  /** At most five tokens come out, or six of which the last is evil; all have a kind and stand in
      input order. */
  lemma FoldBounds(src: Source)
    ensures var ts := Fold(src).tokens;
      && (|ts| <= MAX_TOKENS || (|ts| == MAX_TOKENS + 1 && ts[MAX_TOKENS].kind == 'X'))
      && (forall i :: 0 <= i < |ts| ==> ts[i].kind != NUL && |ts[i].val| < TOKEN_SIZE)
      && (forall i, j :: 0 <= i < j < |ts| ==> ts[i].pos <= ts[j].pos <= |src.text|)
  {
    hide Run;
    var b := Begin(src, 0, NO_STATS);
    if b.First? {
      var o := Run(src, b.c);
      assert Sound(src, o.c);
    }
  }

  /** An empty, unclosed backtick word at the end is PHP's comment. */
  function MarkBacktick(ts: seq<Token>): seq<Token> {
    if |ts| > 2 && var t := ts[|ts| - 1]; t.kind == 'n' && t.strOpen == '`' && t.val == "" && t.strClose == NUL
    then ts[|ts| - 1 := ts[|ts| - 1].(kind := 'c')]
    else ts
  }

  function Kinds(ts: seq<Token>): (r: string)
    ensures |r| == |ts|
  {
    seq(|ts|, i requires 0 <= i < |ts| => ts[i].kind)
  }

  function Fingerprint(src: Source): string {
    var fp := Kinds(MarkBacktick(Fold(src).tokens));
    if 'X' in fp then "X" else fp
  }

  /** The fingerprint of any input is exactly "X", or at most five kinds none of which is evil. */
  lemma FingerprintShape(src: Source)
    ensures var fp := Fingerprint(src);
      fp == "X" || (|fp| <= MAX_TOKENS && 'X' !in fp && NUL !in fp)
  {
    hide Fold;
    FoldBounds(src);
    var ts := Fold(src).tokens;
    var fp := Kinds(MarkBacktick(ts));
    if |ts| > MAX_TOKENS {
      assert fp[MAX_TOKENS] == 'X';
    }
  }

  // ---- the whole token stream ------------------------------------------------------------------------------------

  function Tokens(src: Source, p: nat): seq<Token>
    requires p <= |src.text|
    decreases |src.text| - p
  {
    match Scan(src, p)
    case Exhausted => []
    case Found(tok, next, _, _) => [tok] + Tokens(src, next)
  }

  /** Tokens are slices of the input, occupy disjoint ranges, and come in input order. */
  lemma {:induction false} TokensAreSlices(src: Source, p: nat)
    requires p <= |src.text|
    ensures var ts := Tokens(src, p);
      && |ts| <= |src.text| - p
      && (forall i :: 0 <= i < |ts| ==>
            && ts[i].kind != NUL && |ts[i].val| < TOKEN_SIZE
            && p <= ts[i].pos && ts[i].pos + |ts[i].val| <= |src.text|
            && src.text[ts[i].pos..ts[i].pos + |ts[i].val|] == ts[i].val)
      && (forall i, j :: 0 <= i < j < |ts| ==> ts[i].pos + |ts[i].val| <= ts[j].pos)
    decreases |src.text| - p
  {
    hide Scan;
    var r := Scan(src, p);
    if r.Found? {
      TokensAreSlices(src, r.next);
      var ts := Tokens(src, p);
      forall i, j | 0 <= i < j < |ts|
        ensures ts[i].pos + |ts[i].val| <= ts[j].pos
      {
        assert ts[j] == Tokens(src, r.next)[j - 1];
        if i > 0 {
          assert ts[i] == Tokens(src, r.next)[i - 1];
        }
      }
    }
  }
}
