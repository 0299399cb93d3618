/**
 * The regular expressions of `extract_answer`, each written out as a matcher at one
 * position, and `re.search` as the leftmost position where the matcher succeeds.
 *
 * Every pattern here is a sequence of pieces whose character sets are disjoint from
 * the character that must follow them (a greedy `[,\s]*` is always followed by a
 * letter, `:` or `*`, and so on), so a greedy scan reaches the only position the
 * regex engine can reach by backtracking; where backtracking does matter (the
 * labelled-list pattern, the lone-letter line) the matcher follows it explicitly.
 * Each alternation's branches cannot occur at the same position (CueListsExclusive),
 * so taking the first branch that occurs is what the engine does.
 */
module Patterns {
  import opened Wrappers
  import opened Text

  /** The text group 1 captured: `s[start..end]`. */
  datatype Span = Span(start: nat, end: nat)

  /** A successful `re.search`: where the match starts and what group 1 captured. */
  datatype Match = Match(pos: nat, group: Span)

  /** The patterns searched for with `re.search`, in the order the source lists them. */
  datatype Pattern =
    | BoolCuePhrase            // (?:answer|result|...|therefore)[,\s]*(?:is|:)?\s*\*?\*?\s*\b(True|False)\b
    | BoolEvaluatesTo          // (?:evaluates to|becomes|equals)[,\s]*\*?\*?\s*\b(True|False)\b
    | BoolSoTheAnswer          // (?:so|thus|hence)[,\s]+(?:the answer is|...)[,\s]*\*?\*?\s*\b(True|False)\b
    | ChoiceAnswerIs           // (?:answer|option|...|conclusion) is[:\s]*\(?([A-K])\)?
    | ChoiceSoTheAnswer        // (?:so|therefore|thus|hence)[,\s]+(?:the answer is|it is)[,\s]*\(?([A-K])\)?
    | ChoiceParenthesized      // \(([A-K])\)
    | ChoiceBoldParenthesized  // \*\*\(([A-K])\)\*\*
    | ChoiceBoxed              // final answer[:\s]*(?:is[:\s]*)?\$?\\?boxed\{?\(?([A-K])\)?\}?\$?
    | ChoiceLoneLetter         // ^\s*\*?\*?\s*\(?([A-K])\)?\s*\*?\*?\s*$   (MULTILINE)
    | LabeledList              // (?:answer|list|result):?\s*([\w\s,]+)
    | AnswerColon              // answer:\s*(.*)   (DOTALL)
  {
    predicate IsBoolean() {
      BoolCuePhrase? || BoolEvaluatesTo? || BoolSoTheAnswer?
    }

    predicate IsChoice() {
      ChoiceAnswerIs? || ChoiceSoTheAnswer? || ChoiceParenthesized? || ChoiceBoldParenthesized? ||
      ChoiceBoxed? || ChoiceLoneLetter?
    }
  }

  // The branches of the alternations, in the order the source writes them (all in
  // lower case: every search is case-insensitive).
  const BoolCues: seq<string> := ["answer", "result", "final answer", "final result", "conclusion", "therefore"]
  const BoolVerbs: seq<string> := ["evaluates to", "becomes", "equals"]
  const BoolSo: seq<string> := ["so", "thus", "hence"]
  const BoolSoPhrases: seq<string> := ["the answer is", "it is", "the result is"]
  const ChoiceCues: seq<string> := ["answer", "option", "correct answer", "correct option", "conclusion"]
  const ChoiceSo: seq<string> := ["so", "therefore", "thus", "hence"]
  const ChoiceSoPhrases: seq<string> := ["the answer is", "it is"]
  const ListLabels: seq<string> := ["answer", "list", "result"]

  predicate LitAtFrom(s: string, p: nat, lit: string, k: nat)
    decreases |lit| - k
  {
    k >= |lit| || (p + k < |s| && Lower(s[p + k]) == lit[k] && LitAtFrom(s, p, lit, k + 1))
  }

  /** The lower-case literal `lit` occurs at position `p`, compared case-insensitively
      (ASCII letters match either case, everything else matches itself). */
  predicate LitAt(s: string, p: nat, lit: string) {
    p + |lit| <= |s| && LitAtFrom(s, p, lit, 0)
  }

  lemma LitAtMeaning(s: string, p: nat, lit: string)
    ensures LitAt(s, p, lit) <==> p + |lit| <= |s| && forall k :: 0 <= k < |lit| ==> Lower(s[p + k]) == lit[k]
  {
    if p + |lit| <= |s| {
      LitAtFromMeaning(s, p, lit, 0);
    }
  }

  lemma {:induction false} LitAtFromMeaning(s: string, p: nat, lit: string, k: nat)
    requires p + |lit| <= |s|
    ensures LitAtFrom(s, p, lit, k) <==> forall j :: k <= j < |lit| ==> Lower(s[p + j]) == lit[j]
    decreases |lit| - k
  {
    if k < |lit| {
      LitAtFromMeaning(s, p, lit, k + 1);
    }
  }

  /** The end of the first branch of `alts` that occurs at `p`. */
  function FirstLit(s: string, p: nat, alts: seq<string>): (e: Option<nat>)
    ensures e.Some? ==> p <= e.value <= |s|
  {
    FirstLitFrom(s, p, alts, 0)
  }

  function FirstLitFrom(s: string, p: nat, alts: seq<string>, k: nat): (e: Option<nat>)
    ensures e.Some? ==> p <= e.value <= |s|
    decreases |alts| - k
  {
    if k >= |alts| then None
    else if LitAt(s, p, alts[k]) then Some(p + |alts[k]|)
    else FirstLitFrom(s, p, alts, k + 1)
  }

  /** `FirstLit` is the regex alternation: the first branch, in order, that occurs. */
  lemma FirstLitMeaning(s: string, p: nat, alts: seq<string>)
    ensures var e := FirstLit(s, p, alts);
      (e.Some? <==> exists k :: 0 <= k < |alts| && LitAt(s, p, alts[k])) &&
      (e.Some? ==> exists k :: 0 <= k < |alts| && LitAt(s, p, alts[k]) && e.value == p + |alts[k]| &&
                              forall j :: 0 <= j < k ==> !LitAt(s, p, alts[j]))
  {
    FirstLitFromMeaning(s, p, alts, 0);
  }

  lemma {:induction false} FirstLitFromMeaning(s: string, p: nat, alts: seq<string>, k: nat)
    requires k <= |alts|
    ensures var e := FirstLitFrom(s, p, alts, k);
      (e.Some? <==> exists i :: k <= i < |alts| && LitAt(s, p, alts[i])) &&
      (e.Some? ==> exists i :: k <= i < |alts| && LitAt(s, p, alts[i]) && e.value == p + |alts[i]| &&
                              forall j :: k <= j < i ==> !LitAt(s, p, alts[j]))
    decreases |alts| - k
  {
    if k < |alts| {
      var e := FirstLitFrom(s, p, alts, k);
      if LitAt(s, p, alts[k]) {
        assert e.value == p + |alts[k]|;
      } else {
        FirstLitFromMeaning(s, p, alts, k + 1);
        assert e == FirstLitFrom(s, p, alts, k + 1);
        if e.Some? {
          var i :| k + 1 <= i < |alts| && LitAt(s, p, alts[i]) && e.value == p + |alts[i]| &&
                   forall j :: k + 1 <= j < i ==> !LitAt(s, p, alts[j]);
          assert forall j :: k <= j < i ==> !LitAt(s, p, alts[j]);
        } else {
          forall i | k <= i < |alts| ensures !LitAt(s, p, alts[i]) {
            if i > k {
              assert !(k + 1 <= i < |alts| && LitAt(s, p, alts[i]));
            }
          }
        }
      }
    }
  }

  /** The literals `a` and `b` differ at some position from `k` on that both reach. */
  predicate DifferFrom(a: string, b: string, k: nat)
    decreases |a| - k
  {
    k < |a| && k < |b| && (a[k] != b[k] || DifferFrom(a, b, k + 1))
  }

  /** No two branches of the alternation `alts` can occur at the same position: any two
      differ at a position both reach, so neither is a prefix of the other. */
  predicate Exclusive(alts: seq<string>) {
    forall i, j :: 0 <= i < j < |alts| ==> DifferFrom(alts[i], alts[j], 0)
  }

  /** Literals that differ cannot both occur at one position. */
  lemma {:induction false} DifferApart(s: string, p: nat, a: string, b: string, k: nat)
    requires DifferFrom(a, b, k)
    ensures !(LitAt(s, p, a) && LitAt(s, p, b))
    decreases |a| - k
  {
    LitAtMeaning(s, p, a);
    LitAtMeaning(s, p, b);
    if a[k] == b[k] {
      DifferApart(s, p, a, b, k + 1);
    }
  }

  /** Every alternation of the patterns has branches that exclude each other. */
  lemma CueListsExclusive()
    ensures Exclusive(BoolCues) && Exclusive(BoolVerbs) && Exclusive(BoolSo) && Exclusive(BoolSoPhrases)
    ensures Exclusive(ChoiceCues) && Exclusive(ChoiceSo) && Exclusive(ChoiceSoPhrases) && Exclusive(ListLabels)
  {
    BoolCuesExclusive();
    BoolVerbsExclusive();
    BoolSoExclusive();
    BoolSoPhrasesExclusive();
    ChoiceCuesExclusive();
    ChoiceSoExclusive();
    ChoiceSoPhrasesExclusive();
    ListLabelsExclusive();
  }

  lemma BoolCuesExclusive()
    ensures Exclusive(BoolCues)
  {
    // only "final answer" and "final result" share a first character
    assert DifferFrom(BoolCues[2], BoolCues[3], 6);
    forall i, j | 0 <= i < j < |BoolCues| && !(i == 2 && j == 3)
      ensures DifferFrom(BoolCues[i], BoolCues[j], 0)
    {
      assert BoolCues[i][0] != BoolCues[j][0];
    }
  }

  lemma BoolVerbsExclusive()
    ensures Exclusive(BoolVerbs)
  {
  }

  lemma BoolSoExclusive()
    ensures Exclusive(BoolSo)
  {
  }

  lemma BoolSoPhrasesExclusive()
    ensures Exclusive(BoolSoPhrases)
  {
  }

  lemma ChoiceCuesExclusive()
    ensures Exclusive(ChoiceCues)
  {
    // "correct answer", "correct option" and "conclusion" share their first character
    assert DifferFrom(ChoiceCues[2], ChoiceCues[3], 8);
    assert DifferFrom(ChoiceCues[2], ChoiceCues[4], 2);
    assert DifferFrom(ChoiceCues[3], ChoiceCues[4], 2);
    forall i, j | 0 <= i < j < |ChoiceCues| && i < 2
      ensures DifferFrom(ChoiceCues[i], ChoiceCues[j], 0)
    {
      assert ChoiceCues[i][0] != ChoiceCues[j][0];
    }
  }

  lemma ChoiceSoExclusive()
    ensures Exclusive(ChoiceSo)
  {
  }

  lemma ChoiceSoPhrasesExclusive()
    ensures Exclusive(ChoiceSoPhrases)
  {
  }

  lemma ListLabelsExclusive()
    ensures Exclusive(ListLabels)
  {
  }

  /** In an alternation whose branches exclude each other, whichever branch occurs is the
      one `FirstLit` takes, so it ends where the regex engine's match of it ends. */
  lemma FirstLitOnly(s: string, p: nat, alts: seq<string>, k: nat)
    requires Exclusive(alts) && k < |alts| && LitAt(s, p, alts[k])
    ensures FirstLit(s, p, alts) == Some(p + |alts[k]|)
  {
    FirstLitMeaning(s, p, alts);
    var i :| 0 <= i < |alts| && LitAt(s, p, alts[i]) && FirstLit(s, p, alts).value == p + |alts[i]| &&
             forall j :: 0 <= j < i ==> !LitAt(s, p, alts[j]);
    if i < k {
      DifferApart(s, p, alts[i], alts[k], 0);
    }
  }

  /** An optional literal character `c?` at `i`. */
  function Opt(s: string, i: nat, c: char): (j: nat)
    requires i <= |s|
    ensures j <= |s|
  {
    if i < |s| && s[i] == c then i + 1 else i
  }

  /** The regex `\b`: a word character on exactly one side of position `i`. */
  predicate Boundary(s: string, i: nat) {
    (0 < i <= |s| && IsWordChar(s[i - 1])) != (i < |s| && IsWordChar(s[i]))
  }

  /** `\bword\b`, case-insensitively, starting at `i`. */
  predicate WholeWordAt(s: string, i: nat, word: string) {
    Boundary(s, i) && LitAt(s, i, word) && Boundary(s, i + |word|)
  }

  /** A capture of `\b(True|False)\b`: one of the two words, in any case, standing whole
      between two word boundaries. */
  predicate BoolCapture(s: string, g: Span) {
    ((LitAt(s, g.start, "true") && g.end == g.start + 4) || (LitAt(s, g.start, "false") && g.end == g.start + 5)) &&
    Boundary(s, g.start) && Boundary(s, g.end)
  }

  /** `\b(True|False)\b` at `q`: the span of the word. */
  function BoolWordAt(s: string, q: nat): (g: Option<Span>)
    ensures g.Some? ==> g.value.start == q && g.value.end <= |s| && BoolCapture(s, g.value)
  {
    if WholeWordAt(s, q, "true") then Some(Span(q, q + 4))
    else if WholeWordAt(s, q, "false") then Some(Span(q, q + 5))
    else None
  }

  /** `\*?\*?\s*\b(True|False)\b` from `i`. */
  function StarsThenBoolWord(s: string, i: nat): (g: Option<Span>)
    requires i <= |s|
    ensures g.Some? ==> i <= g.value.start && g.value.end <= |s| && BoolCapture(s, g.value)
  {
    BoolWordAt(s, Skip(s, Opt(s, Opt(s, i, '*'), '*'), Space))
  }

  function BoolCuePhraseAt(s: string, p: nat): (g: Option<Span>)
    ensures g.Some? ==> p <= g.value.start && g.value.end <= |s| && BoolCapture(s, g.value)
  {
    match FirstLit(s, p, BoolCues)
    case None => None
    case Some(e) =>
      var i1 := Skip(s, e, CommaOrSpace);
      var i2 := if LitAt(s, i1, "is") then i1 + 2 else Opt(s, i1, ':');
      StarsThenBoolWord(s, Skip(s, i2, Space))
  }

  function BoolEvaluatesToAt(s: string, p: nat): (g: Option<Span>)
    ensures g.Some? ==> p <= g.value.start && g.value.end <= |s| && BoolCapture(s, g.value)
  {
    match FirstLit(s, p, BoolVerbs)
    case None => None
    case Some(e) => StarsThenBoolWord(s, Skip(s, e, CommaOrSpace))
  }

  function BoolSoTheAnswerAt(s: string, p: nat): (g: Option<Span>)
    ensures g.Some? ==> p <= g.value.start && g.value.end <= |s| && BoolCapture(s, g.value)
  {
    match FirstLit(s, p, BoolSo)
    case None => None
    case Some(e) =>
      var i1 := Skip(s, e, CommaOrSpace);
      if i1 == e then None  // [,\s]+ needs at least one character
      else
        match FirstLit(s, i1, BoolSoPhrases)
        case None => None
        case Some(e2) => StarsThenBoolWord(s, Skip(s, e2, CommaOrSpace))
  }

  /** `[A-K]` under IGNORECASE: A to K in either case. */
  predicate IsChoiceLetter(c: char) {
    'A' <= c <= 'K' || 'a' <= c <= 'k'
  }

  /** A capture of `([A-K])`: one choice letter. */
  predicate ChoiceCapture(s: string, g: Span) {
    g.start < |s| && g.end == g.start + 1 && IsChoiceLetter(s[g.start])
  }

  /** `([A-K])` at `i`. */
  function LetterAt(s: string, i: nat): (g: Option<Span>)
    ensures g.Some? ==> g.value == Span(i, i + 1) && ChoiceCapture(s, g.value)
  {
    if i < |s| && IsChoiceLetter(s[i]) then Some(Span(i, i + 1)) else None
  }

  function ChoiceAnswerIsAt(s: string, p: nat): (g: Option<Span>)
    ensures g.Some? ==> p <= g.value.start && ChoiceCapture(s, g.value)
  {
    match FirstLit(s, p, ChoiceCues)
    case None => None
    case Some(e) =>
      if !LitAt(s, e, " is") then None
      else LetterAt(s, Opt(s, Skip(s, e + 3, ColonOrSpace), '('))
  }

  function ChoiceSoTheAnswerAt(s: string, p: nat): (g: Option<Span>)
    ensures g.Some? ==> p <= g.value.start && ChoiceCapture(s, g.value)
  {
    match FirstLit(s, p, ChoiceSo)
    case None => None
    case Some(e) =>
      var i1 := Skip(s, e, CommaOrSpace);
      if i1 == e then None  // [,\s]+ needs at least one character
      else
        match FirstLit(s, i1, ChoiceSoPhrases)
        case None => None
        case Some(e2) => LetterAt(s, Opt(s, Skip(s, e2, CommaOrSpace), '('))
  }

  function ChoiceParenthesizedAt(s: string, p: nat): (g: Option<Span>)
    ensures g.Some? ==> p <= g.value.start && ChoiceCapture(s, g.value)
  {
    if p + 3 <= |s| && s[p] == '(' && IsChoiceLetter(s[p + 1]) && s[p + 2] == ')'
    then Some(Span(p + 1, p + 2)) else None
  }

  function ChoiceBoldParenthesizedAt(s: string, p: nat): (g: Option<Span>)
    ensures g.Some? ==> p <= g.value.start && ChoiceCapture(s, g.value)
  {
    if LitAt(s, p, "**(") && p + 7 <= |s| && IsChoiceLetter(s[p + 3]) && LitAt(s, p + 4, ")**")
    then Some(Span(p + 3, p + 4)) else None
  }

  function ChoiceBoxedAt(s: string, p: nat): (g: Option<Span>)
    ensures g.Some? ==> p <= g.value.start && ChoiceCapture(s, g.value)
  {
    if !LitAt(s, p, "final answer") then None
    else
      var i1 := Skip(s, p + 12, ColonOrSpace);
      var i2 := if LitAt(s, i1, "is") then Skip(s, i1 + 2, ColonOrSpace) else i1;
      var i3 := Opt(s, Opt(s, i2, '$'), '\\');
      if !LitAt(s, i3, "boxed") then None
      else LetterAt(s, Opt(s, Opt(s, i3 + 5, '{'), '('))
  }

  /** `^` under MULTILINE: the start of the text or of a line. */
  predicate LineStart(s: string, p: nat) {
    p == 0 || (p <= |s| && s[p - 1] == '\n')
  }

  /** The lone-letter line. Before the letter, `\s*\*?\*?\s*\(?` can only end at the
      letter; after it, `\)?\s*\*?\*?\s*` can stop anywhere up to the end `r` of its
      greedy run, and `$` holds at the end of the text or before a line feed, so the
      match succeeds when a line feed or the end of the text lies within that run. */
  function ChoiceLoneLetterAt(s: string, p: nat): (g: Option<Span>)
    ensures g.Some? ==> p <= g.value.start && ChoiceCapture(s, g.value)
  {
    if !LineStart(s, p) then None
    else
      var q := Opt(s, Skip(s, Opt(s, Opt(s, Skip(s, p, Space), '*'), '*'), Space), '(');
      if !(q < |s| && IsChoiceLetter(s[q])) then None
      else
        var r := Skip(s, Opt(s, Opt(s, Skip(s, Opt(s, q + 1, ')'), Space), '*'), '*'), Space);
        if IndexFrom(s, '\n', q + 1) <= r then Some(Span(q, q + 1)) else None
  }

  /** A capture of `([\w\s,]+)`: a non-empty run of word characters, whitespace and commas. */
  predicate ListCapture(s: string, g: Span) {
    g.start < g.end <= |s| && forall i :: g.start <= i < g.end ==> InClass(s[i], WordSpaceOrComma)
  }

  function LabeledListAt(s: string, p: nat): (g: Option<Span>)
    ensures g.Some? ==> p <= g.value.start && ListCapture(s, g.value)
  {
    match FirstLit(s, p, ListLabels)
    case None => None
    case Some(e) =>
      var e1 := Opt(s, e, ':');
      if !(e1 < |s| && InClass(s[e1], WordSpaceOrComma)) then None
      else
        var i1 := Skip(s, e1, Space);
        if i1 < |s| && InClass(s[i1], WordSpaceOrComma) then
          SkipMeaning(s, i1, WordSpaceOrComma);
          Some(Span(i1, Skip(s, i1, WordSpaceOrComma)))
        // \s* swallowed the whole class run: it gives its last character back to the group
        else
          SkipMeaning(s, e1, Space);
          Some(Span(i1 - 1, i1))
  }

  function AnswerColonAt(s: string, p: nat): (g: Option<Span>)
    ensures g.Some? <==> LitAt(s, p, "answer:")
    ensures g.Some? ==> p + 7 <= g.value.start <= g.value.end == |s|
    ensures g.Some? ==> forall k :: p + 7 <= k < g.value.start ==> IsSpace(s[k])
    ensures g.Some? ==> g.value.start == |s| || !IsSpace(s[g.value.start])
  {
    if LitAt(s, p, "answer:") then
      SkipMeaning(s, p + 7, Space);
      Some(Span(Skip(s, p + 7, Space), |s|))
    else None
  }

  /** What group 1 of each pattern can capture. */
  predicate Captures(pat: Pattern, s: string, g: Span) {
    if pat.IsBoolean() then BoolCapture(s, g)
    else if pat.IsChoice() then ChoiceCapture(s, g)
    else if pat == LabeledList then ListCapture(s, g)
    else g.end == |s|
  }

  /** The pattern matched with its start at `p`, and what group 1 captured. */
  function MatchAt(pat: Pattern, s: string, p: nat): (g: Option<Span>)
    ensures g.Some? ==> p <= g.value.start <= g.value.end <= |s| && Captures(pat, s, g.value)
  {
    match pat
    case BoolCuePhrase => BoolCuePhraseAt(s, p)
    case BoolEvaluatesTo => BoolEvaluatesToAt(s, p)
    case BoolSoTheAnswer => BoolSoTheAnswerAt(s, p)
    case ChoiceAnswerIs => ChoiceAnswerIsAt(s, p)
    case ChoiceSoTheAnswer => ChoiceSoTheAnswerAt(s, p)
    case ChoiceParenthesized => ChoiceParenthesizedAt(s, p)
    case ChoiceBoldParenthesized => ChoiceBoldParenthesizedAt(s, p)
    case ChoiceBoxed => ChoiceBoxedAt(s, p)
    case ChoiceLoneLetter => ChoiceLoneLetterAt(s, p)
    case LabeledList => LabeledListAt(s, p)
    case AnswerColon => AnswerColonAt(s, p)
  }

  /** `re.search(pattern, s)`: the leftmost position at which the pattern matches, and
      what its group 1 captured there (SearchFound, SearchLeftmost, SearchNone). */
  function Search(pat: Pattern, s: string): (m: Option<Match>)
    ensures m.Some? ==> m.value.pos <= m.value.group.start <= m.value.group.end <= |s|
    ensures m.Some? ==> Captures(pat, s, m.value.group)
  {
    SearchFrom(pat, s, 0)
  }

  /** The scan `re.search` performs: try the pattern at `from`, then one further on, up to
      and including the end of the text (where an empty match may still succeed). */
  function SearchFrom(pat: Pattern, s: string, from: nat): (m: Option<Match>)
    requires from <= |s|
    ensures m.Some? ==> from <= m.value.pos <= m.value.group.start <= m.value.group.end <= |s|
    ensures m.Some? ==> Captures(pat, s, m.value.group)
    decreases |s| - from
  {
    match MatchAt(pat, s, from)
    case Some(g) => Some(Match(from, g))
    case None => if from == |s| then None else SearchFrom(pat, s, from + 1)
  }

  /** The first index in `[from, n)` that satisfies `ok`: the scan shared by `re.search`
      over positions and by the loops over a pattern list. */
  function FirstIndex(ok: nat -> bool, from: nat, n: nat): (i: Option<nat>)
    requires from <= n
    ensures i.Some? ==> from <= i.value < n && ok(i.value)
    ensures i.Some? ==> forall q :: from <= q < i.value ==> !ok(q)
    ensures i.None? ==> forall q :: from <= q < n ==> !ok(q)
    decreases n - from
  {
    if from == n then None else if ok(from) then Some(from) else FirstIndex(ok, from + 1, n)
  }

  /** An index that satisfies `ok` with none before it is the one the scan finds. */
  lemma FirstIndexIs(ok: nat -> bool, from: nat, n: nat, k: nat)
    requires from <= k < n && ok(k)
    requires forall j :: from <= j < k ==> !ok(j)
    ensures FirstIndex(ok, from, n) == Some(k)
  {
    var i := FirstIndex(ok, from, n);
    assert i.Some?;
    assert i.value >= k;
  }

  /** A scan over positions `from..n` of any matcher `f`: the first position where `f`
      matches, and what it captured there. `SearchFrom` is this scan with `MatchAt`. */
  function Scan(f: nat -> Option<Span>, n: nat, from: nat): Option<Match>
    requires from <= n
    decreases n - from
  {
    match f(from)
    case Some(g) => Some(Match(from, g))
    case None => if from == n then None else Scan(f, n, from + 1)
  }

  /** What the scan finds is a match of `f`, with no match of `f` between `from` and it. */
  lemma {:induction false} ScanFound(f: nat -> Option<Span>, n: nat, from: nat)
    requires from <= n && Scan(f, n, from).Some?
    ensures var m := Scan(f, n, from).value;
      from <= m.pos <= n && f(m.pos) == Some(m.group) && forall q :: from <= q < m.pos ==> f(q).None?
    decreases n - from
  {
    if f(from).None? {
      ScanFound(f, n, from + 1);
    }
  }

  /** When the scan finds nothing, `f` matches nowhere in `from..n`. */
  lemma {:induction false} ScanNone(f: nat -> Option<Span>, n: nat, from: nat)
    requires from <= n && Scan(f, n, from).None?
    ensures forall q :: from <= q <= n ==> f(q).None?
    decreases n - from
  {
    if from < n {
      ScanNone(f, n, from + 1);
    }
  }

  /** The first position where `f` matches is what the scan finds; with none up to `n`,
      it finds nothing. */
  lemma {:induction false} ScanFirst(f: nat -> Option<Span>, n: nat, from: nat, p: nat)
    requires from <= n && from <= p <= n + 1
    requires forall q :: from <= q < p ==> f(q).None?
    ensures p <= n && f(p).Some? ==> Scan(f, n, from) == Some(Match(p, f(p).value))
    ensures p == n + 1 ==> Scan(f, n, from).None?
    decreases n - from
  {
    if from < p && from < n {
      ScanFirst(f, n, from + 1, p);
    }
  }

  /** `SearchFrom` is the scan of `MatchAt` over the positions of `s`. */
  lemma {:induction false} SearchFromScan(pat: Pattern, s: string, from: nat, f: nat -> Option<Span>)
    requires from <= |s|
    requires forall p :: f(p) == MatchAt(pat, s, p)
    ensures SearchFrom(pat, s, from) == Scan(f, |s|, from)
    decreases |s| - from
  {
    assert f(from) == MatchAt(pat, s, from);
    if from < |s| {
      SearchFromScan(pat, s, from + 1, f);
    }
  }

  /** `Search` finds a match: the pattern matches where it says, with that group. */
  lemma SearchFound(pat: Pattern, s: string)
    requires Search(pat, s).Some?
    ensures MatchAt(pat, s, Search(pat, s).value.pos) == Some(Search(pat, s).value.group)
  {
    var f := (p: nat) => MatchAt(pat, s, p);
    SearchFromScan(pat, s, 0, f);
    ScanFound(f, |s|, 0);
  }

  /** `Search` finds the leftmost match: the pattern matches at no earlier position. */
  lemma SearchLeftmost(pat: Pattern, s: string, q: nat)
    requires Search(pat, s).Some? && q < Search(pat, s).value.pos
    ensures MatchAt(pat, s, q).None?
  {
    var f := (p: nat) => MatchAt(pat, s, p);
    SearchFromScan(pat, s, 0, f);
    ScanFound(f, |s|, 0);
    assert f(q).None?;
  }

  /** A position where the pattern matches, with no match before it, is what `Search`
      finds. */
  lemma SearchAt(pat: Pattern, s: string, p: nat)
    requires p <= |s| && MatchAt(pat, s, p).Some?
    requires forall q :: 0 <= q < p ==> MatchAt(pat, s, q).None?
    ensures Search(pat, s) == Some(Match(p, MatchAt(pat, s, p).value))
  {
    var f := (q: nat) => MatchAt(pat, s, q);
    SearchFromScan(pat, s, 0, f);
    ScanFirst(f, |s|, 0, p);
  }

  /** When `Search` finds nothing, the pattern matches at no position. */
  lemma SearchNone(pat: Pattern, s: string, q: nat)
    requires Search(pat, s).None? && q <= |s|
    ensures MatchAt(pat, s, q).None?
  {
    var f := (p: nat) => MatchAt(pat, s, p);
    SearchFromScan(pat, s, 0, f);
    ScanNone(f, |s|, 0);
    assert f(q).None?;
  }

  /** When the pattern matches at no position, `Search` finds nothing. */
  lemma SearchMisses(pat: Pattern, s: string)
    requires forall q :: 0 <= q <= |s| ==> MatchAt(pat, s, q).None?
    ensures Search(pat, s).None?
  {
    var f := (p: nat) => MatchAt(pat, s, p);
    SearchFromScan(pat, s, 0, f);
    ScanFirst(f, |s|, 0, |s| + 1);
  }

  /** What precedes a numbered item's word: whitespace up to `i`, digits from `i` to `d`,
      `.` or `)` at `d`, and at least one whitespace character up to `start`. */
  predicate ItemHead(t: string, i: nat, d: nat, start: nat) {
    i < d && d + 1 < start <= |t| &&
    (forall k :: 0 <= k < i ==> IsSpace(t[k])) &&
    (forall k :: i <= k < d ==> IsDigit(t[k])) &&
    (t[d] == '.' || t[d] == ')') &&
    (forall k :: d < k < start ==> IsSpace(t[k]))
  }

  /** `re.match(r'^\s*\d+[\.\)]\s+([a-zA-Z]\w+)', t)`: a numbered list item; group 1 is
      a letter followed by at least one word character. No IGNORECASE here. */
  function NumberedItem(t: string): (g: Option<Span>)
    ensures g.Some? ==> (g.value.start + 2 <= g.value.end <= |t| &&
      forall i :: g.value.start <= i < g.value.end ==> IsWordChar(t[i]))
    ensures g.Some? ==> IsAsciiLetter(t[g.value.start]) && (g.value.end == |t| || !IsWordChar(t[g.value.end]))
    ensures g.Some? ==> exists i, d :: ItemHead(t, i, d, g.value.start)
  {
    var i1 := Skip(t, 0, Space);
    var i2 := Skip(t, i1, Digit);
    if i2 == i1 || i2 == |t| || !(t[i2] == '.' || t[i2] == ')') then None
    else
      var i3 := Skip(t, i2 + 1, Space);
      if i3 == i2 + 1 || i3 == |t| || !IsAsciiLetter(t[i3]) then None
      else
        var i4 := Skip(t, i3 + 1, Word);
        if i4 == i3 + 1 then None
        else
          SkipMeaning(t, i3 + 1, Word);
          SkipMeaning(t, 0, Space);
          SkipMeaning(t, i1, Digit);
          SkipMeaning(t, i2 + 1, Space);
          assert ItemHead(t, i1, i2, i3);
          Some(Span(i3, i4))
  }

  /** `\b[a-zA-Z]{2,}\b` at `i`: the end of the word. `{2,}` is greedy and a shorter run
      would end between two letters, where `\b` fails, so only the whole run can match. */
  function LetterWordAt(s: string, i: nat): (e: Option<nat>)
    requires i <= |s|
    ensures e.Some? ==> i + 2 <= e.value <= |s| && AllLetters(s[i..e.value])
  {
    var j := Skip(s, i, Letter);
    if Boundary(s, i) && j - i >= 2 && Boundary(s, j) then
      SkipMeaning(s, i, Letter);
      AllLettersMeaning(s[i..j]);
      Some(j)
    else None
  }

  /** `re.findall(r'\b[a-zA-Z]{2,}\b', s[from..])` continued from `from`: after a match
      the scan resumes at its end, otherwise one character further. */
  function LetterWordsFrom(s: string, from: nat): (ws: seq<string>)
    requires from <= |s|
    ensures forall k :: 0 <= k < |ws| ==> |ws[k]| >= 2 && AllLetters(ws[k])
    decreases |s| - from
  {
    if from == |s| then []
    else
      match LetterWordAt(s, from)
      case Some(e) => [s[from..e]] + LetterWordsFrom(s, e)
      case None => LetterWordsFrom(s, from + 1)
  }

  /** `re.findall(r'\b[a-zA-Z]{2,}\b', s)` */
  function LetterWords(s: string): (ws: seq<string>)
    ensures forall k :: 0 <= k < |ws| ==> |ws[k]| >= 2 && AllLetters(ws[k])
  {
    LetterWordsFrom(s, 0)
  }

  /** The runs `findall` keeps: those of at least two characters, all ASCII letters. */
  function LetterRuns(runs: seq<string>): (ws: seq<string>)
    ensures forall k :: 0 <= k < |ws| ==> ws[k] in runs
  {
    if runs == [] then []
    else (if |runs[0]| >= 2 && AllLetters(runs[0]) then [runs[0]] else []) + LetterRuns(runs[1..])
  }

  /** Inside a run of word characters there is no `\b`, so the scan finds nothing there. */
  lemma {:induction false} LetterWordsInside(s: string, m: nat, e: nat)
    requires 0 < m <= e <= |s|
    requires forall x :: m - 1 <= x < e ==> IsWordChar(s[x])
    ensures LetterWordsFrom(s, m) == LetterWordsFrom(s, e)
    decreases e - m
  {
    if m < e {
      assert !Boundary(s, m);
      LetterWordsInside(s, m + 1, e);
    }
  }

  /** `findall` takes the word found at `from` and goes on after it... */
  lemma LetterWordsStep(s: string, from: nat, e: nat)
    requires from < |s| && LetterWordAt(s, from) == Some(e)
    ensures LetterWordsFrom(s, from) == [s[from..e]] + LetterWordsFrom(s, e)
  {
  }

  /** ...and moves one character on when there is none. */
  lemma LetterWordsMiss(s: string, from: nat)
    requires from < |s| && LetterWordAt(s, from).None?
    ensures LetterWordsFrom(s, from) == LetterWordsFrom(s, from + 1)
  {
  }

  lemma LetterRunsCons(w: string, rest: seq<string>)
    ensures LetterRuns([w] + rest) == (if |w| >= 2 && AllLetters(w) then [w] else []) + LetterRuns(rest)
  {
    assert ([w] + rest)[1..] == rest;
  }

  /** At the start of a run of word characters that is two or more ASCII letters, the
      pattern matches the whole run. */
  lemma LetterWordWhole(s: string, from: nat)
    requires from < |s| && IsWordChar(s[from]) && (from == 0 || !IsWordChar(s[from - 1]))
    requires var w := s[from..Skip(s, from, Word)]; |w| >= 2 && AllLetters(w)
    ensures LetterWordAt(s, from) == Some(Skip(s, from, Word))
  {
    var e := Skip(s, from, Word);
    var w := s[from..e];
    AllLettersMeaning(w);
    assert forall m :: from <= m < e ==> IsAsciiLetter(s[m]) by {
      forall m | from <= m < e ensures IsAsciiLetter(s[m]) {
        assert s[m] == w[m - from];
      }
    }
    SkipRunTo(s, from, e, Letter);
  }

  /** At the start of any other run of word characters, it does not match. */
  lemma LetterWordNone(s: string, from: nat)
    requires from < |s| && IsWordChar(s[from])
    requires var w := s[from..Skip(s, from, Word)]; !(|w| >= 2 && AllLetters(w))
    ensures LetterWordAt(s, from).None?
  {
    var e := Skip(s, from, Word);
    var w := s[from..e];
    SkipMeaning(s, from, Word);
    var j := Skip(s, from, Letter);
    SkipMeaning(s, from, Letter);
    assert e == |s| || !IsAsciiLetter(s[e]);
    assert j <= e;
    if j == e {
      AllLettersMeaning(w);
      assert forall x :: 0 <= x < |w| ==> IsAsciiLetter(w[x]) by {
        forall x | 0 <= x < |w| ensures IsAsciiLetter(w[x]) {
          assert w[x] == s[from + x];
        }
      }
    } else if j > from {
      assert !Boundary(s, j);
    }
  }

  /** At the start of a run of word characters, `findall` yields the run when it is two or
      more ASCII letters and nothing otherwise, and goes on after the run. */
  lemma LetterWordsAtRun(s: string, from: nat)
    requires from < |s| && IsWordChar(s[from]) && (from == 0 || !IsWordChar(s[from - 1]))
    ensures var e := Skip(s, from, Word); var w := s[from..e];
      LetterWordsFrom(s, from) == (if |w| >= 2 && AllLetters(w) then [w] else []) + LetterWordsFrom(s, e)
  {
    var e := Skip(s, from, Word);
    var w := s[from..e];
    if |w| >= 2 && AllLetters(w) {
      LetterWordWhole(s, from);
      LetterWordsStep(s, from, e);
    } else {
      LetterWordNone(s, from);
      LetterWordsMiss(s, from);
      SkipMeaning(s, from, Word);
      LetterWordsInside(s, from + 1, e);
    }
  }

  /** From a position that is not inside a run of word characters, `findall` returns the
      runs of word characters ahead that consist of two or more ASCII letters. */
  lemma {:induction false} LetterWordsFromRuns(s: string, from: nat)
    requires from <= |s|
    requires from == 0 || from == |s| || !IsWordChar(s[from - 1]) || !IsWordChar(s[from])
    ensures LetterWordsFrom(s, from) == LetterRuns(Runs(s[from..], Word))
    decreases |s| - from
  {
    if from < |s| {
      if !IsWordChar(s[from]) {
        calc {
          LetterWordsFrom(s, from);
          { SkipStop(s, from, Letter); LetterWordsMiss(s, from); }
          LetterWordsFrom(s, from + 1);
          { LetterWordsFromRuns(s, from + 1); }
          LetterRuns(Runs(s[from + 1..], Word));
          { RunsSkip(s, from, Word); }
          LetterRuns(Runs(s[from..], Word));
        }
      } else {
        var e := Skip(s, from, Word);
        var w := s[from..e];
        var rest := Runs(s[e..], Word);
        var kept := if |w| >= 2 && AllLetters(w) then [w] else [];
        calc {
          LetterWordsFrom(s, from);
          { LetterWordsAtRun(s, from); }
          kept + LetterWordsFrom(s, e);
          { LetterWordsFromRuns(s, e); }
          kept + LetterRuns(rest);
          { LetterRunsCons(w, rest); }
          LetterRuns([w] + rest);
          { RunsAt(s, from, Word); }
          LetterRuns(Runs(s[from..], Word));
        }
      }
    }
  }

  /** `re.findall(r'\b[a-zA-Z]{2,}\b', s)` returns exactly the maximal runs of word
      characters that are two or more ASCII letters long, in order. */
  lemma LetterWordsRuns(s: string)
    ensures LetterWords(s) == LetterRuns(Runs(s, Word))
  {
    LetterWordsFromRuns(s, 0);
    assert s[0..] == s;
  }
}
