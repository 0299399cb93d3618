/**
 * `extract_answer`: the ordered cascade of rules that turns a model's free-text response
 * and a BIG-Bench-Hard task name into a canonical answer: "True"/"False" for the boolean
 * task, one letter A to K for the three multiple-choice tasks, a space-joined word list
 * for word sorting, and "" when nothing applies. The first rule that fires wins.
 *
 * `Extract` states the whole cascade as one function; `ExtractAnswer` runs it the way the
 * source does, with loops over the pattern lists and the lines, and is proved equal to it.
 */
module ResponseParser {
  import opened Wrappers
  import opened Text
  import opened Patterns

  const BooleanTask := "boolean_expressions"
  const ChoiceTasks: seq<string> := ["date_understanding", "tracking_shuffled_objects_five_objects", "geometric_shapes"]
  const WordSortingTask := "word_sorting"

  const BooleanPatterns: seq<Pattern> := [BoolCuePhrase, BoolEvaluatesTo, BoolSoTheAnswer]
  const ChoicePatterns: seq<Pattern> :=
    [ChoiceAnswerIs, ChoiceSoTheAnswer, ChoiceParenthesized, ChoiceBoldParenthesized, ChoiceBoxed, ChoiceLoneLetter]

  /** The boolean fallback looks at this many characters at the end of the response. */
  const TailLength: nat := 150
  /** Word-sorting stage 3 looks at this many lines at the end of the response... */
  const ProseWindow: nat := 15
  /** ...and only at those whose trimmed length is at least this. */
  const MinProseLength: nat := 20
  /** Every word-sorting stage needs at least this many words to fire. */
  const MinWords: nat := 4
  const ChoiceLetters := "ABCDEFGHIJK"

  /** The words word-sorting stage 3 drops, compared in lower case. */
  const StopWords: set<string> := {
    "the", "is", "are", "in", "order", "list", "sorted", "words", "here", "following",
    "final", "answer", "alphabetically", "alphabetical", "these", "correct", "now", "below"
  }

  // ---------------------------------------------------------------------------------
  // Pattern lists

  /** `match.group(1)` of `re.search(pat, s)`, when the pattern matches. */
  function Capture(pat: Pattern, s: string): Option<string> {
    match Search(pat, s)
    case None => None
    case Some(m) => Some(s[m.group.start..m.group.end])
  }

  /** The group captured by the first pattern of `pats[k..]`, in list order, that matches. */
  function FirstCaptureFrom(pats: seq<Pattern>, s: string, k: nat): Option<string>
    decreases |pats| - k
  {
    if k >= |pats| then None
    else
      var c := Capture(pats[k], s);
      if c.Some? then c else FirstCaptureFrom(pats, s, k + 1)
  }

  function FirstCapture(pats: seq<Pattern>, s: string): Option<string> {
    FirstCaptureFrom(pats, s, 0)
  }

  /** The loop over a pattern list that returns at the first match. */
  method FirstPatternCapture(pats: seq<Pattern>, s: string) returns (c: Option<string>)
    ensures c == FirstCapture(pats, s)
  {
    for k := 0 to |pats|
      invariant FirstCaptureFrom(pats, s, k) == FirstCapture(pats, s)
    {
      var m := Search(pats[k], s);
      if m.Some? {
        return Some(s[m.value.group.start..m.value.group.end]);
      }
    }
    return None;
  }

  // ---------------------------------------------------------------------------------
  // Boolean expressions

  /** `s[-150:]` */
  function LastPart(s: string): (t: string)
    ensures |t| == Min(|s|, TailLength) && t == s[|s| - |t|..]
  {
    if |s| <= TailLength then s else s[|s| - TailLength..]
  }

  /** The start of the last case-insensitive whole-word occurrence of `w` in `t` below
      position `n`, or -1 when there is none. */
  function LastWholeWordBelow(t: string, w: string, n: nat): (r: int)
    ensures -1 <= r < n
    ensures r >= 0 ==> WholeWordAt(t, r, w)
    ensures forall q: nat :: r < q < n ==> !WholeWordAt(t, q, w)
    decreases n
  {
    if n == 0 then -1
    else if WholeWordAt(t, n - 1, w) then n - 1
    else LastWholeWordBelow(t, w, n - 1)
  }

  /** `list(re.finditer(r'\bword\b', t, re.IGNORECASE))[-1].start()`, or -1 when the list is
      empty. Whole-word matches of one word never overlap (WholeWordsDisjoint), so the
      matches `finditer` reports are all the positions where the word occurs whole. */
  function LastWholeWord(t: string, w: string): int {
    LastWholeWordBelow(t, w, |t| + 1)
  }

  /** Lines 49-59: whichever of True and False occurs last, as a whole word, in the last
      150 characters. */
  function BooleanTail(s: string): Option<string> {
    var t := LastPart(s);
    var lastTrue := LastWholeWord(t, "true");
    var lastFalse := LastWholeWord(t, "false");
    if lastTrue > lastFalse then Some("True")
    else if lastFalse > lastTrue then Some("False")
    else None
  }

  /** Lines 38-59: the cue patterns in order, then the tail scan. */
  function BooleanRule(s: string): Option<string> {
    match FirstCapture(BooleanPatterns, s)
    case Some(g) => Some(Capitalize(g))
    case None => BooleanTail(s)
  }

  // ---------------------------------------------------------------------------------
  // Multiple choice

  /** `response_text.strip('*()').strip()` */
  function Cleaned(s: string): string {
    Strip(Strip(s, StarOrParen), Space)
  }

  /** Lines 64-84: the six patterns in order, then a lone letter left after stripping. */
  function ChoiceRule(s: string): Option<string> {
    match FirstCapture(ChoicePatterns, s)
    case Some(g) => Some(UpperStr(g))
    case None =>
      var cleaned := Cleaned(s);
      if |cleaned| == 1 && Upper(cleaned[0]) in ChoiceLetters then Some(UpperStr(cleaned)) else None
  }

  // ---------------------------------------------------------------------------------
  // Word sorting

  /** Stage 1 for one line: the word after a list number, if the trimmed line is a
      numbered item. */
  function ItemOf(line: string): seq<string> {
    var t := Strip(line, Space);
    match NumberedItem(t)
    case None => []
    case Some(g) => [t[g.start..g.end]]
  }

  function NumberedItemsFrom(lines: seq<string>, k: nat): seq<string>
    decreases |lines| - k
  {
    if k >= |lines| then [] else ItemOf(lines[k]) + NumberedItemsFrom(lines, k + 1)
  }

  /** `numbered_items` */
  function NumberedItems(lines: seq<string>): seq<string> {
    NumberedItemsFrom(lines, 0)
  }

  /** Stage 2 for one line: the trimmed line, if it is one alphabetic word of two or more
      letters. */
  function SingleWordOf(line: string): seq<string> {
    var t := Strip(line, Space);
    if t != [] && IsAlpha(t) && |t| > 1 then [t] else []
  }

  function SingleWordLinesFrom(lines: seq<string>, k: nat): seq<string>
    decreases |lines| - k
  {
    if k >= |lines| then [] else SingleWordOf(lines[k]) + SingleWordLinesFrom(lines, k + 1)
  }

  /** `single_word_lines` */
  function SingleWordLines(lines: seq<string>): seq<string> {
    SingleWordLinesFrom(lines, 0)
  }

  /** `[w for w in ws if w.lower() not in stopwords]` */
  function RemoveStopWords(ws: seq<string>): (r: seq<string>)
    ensures |r| <= |ws|
    ensures forall k :: 0 <= k < |r| ==> r[k] in ws && LowerStr(r[k]) !in StopWords
  {
    if ws == [] then []
    else
      var rest := RemoveStopWords(ws[1..]);
      if LowerStr(ws[0]) in StopWords then rest else [ws[0]] + rest
  }

  /** Index of the first line `lines[-15:]` covers. */
  function WindowStart(lines: seq<string>): nat {
    |lines| - Min(|lines|, ProseWindow)
  }

  /** Stage 3: lines `lines[lo..n]` scanned from the bottom up; the first line long enough
      whose letter words, less the stop words, are still at least four. */
  function ProseFrom(lines: seq<string>, lo: nat, n: nat): Option<seq<string>>
    requires lo <= n <= |lines|
    decreases n - lo
  {
    if n == lo then None
    else
      var line := lines[n - 1];
      if |Strip(line, Space)| < MinProseLength then ProseFrom(lines, lo, n - 1)
      else
        var all := LetterWords(line);
        if |all| < MinWords then ProseFrom(lines, lo, n - 1)
        else
          var filtered := RemoveStopWords(all);
          if |filtered| >= MinWords then Some(filtered) else ProseFrom(lines, lo, n - 1)
  }

  function ProseWords(lines: seq<string>): Option<seq<string>> {
    ProseFrom(lines, WindowStart(lines), |lines|)
  }

  /** `[w for w in words if w.isalpha() and len(w) > 1]` */
  function AlphaWords(ws: seq<string>): (r: seq<string>)
    ensures |r| <= |ws|
    ensures forall k :: 0 <= k < |r| ==> r[k] in ws && IsAlpha(r[k]) && |r[k]| > 1
  {
    if ws == [] then []
    else
      var rest := AlphaWords(ws[1..]);
      if IsAlpha(ws[0]) && |ws[0]| > 1 then [ws[0]] + rest else rest
  }

  /** Stage 4: the words after the first "answer", "list" or "result" label, commas
      turned into spaces, keeping the alphabetic ones. */
  function LabeledListWords(s: string): Option<seq<string>> {
    match Search(LabeledList, s)
    case None => None
    case Some(m) =>
      var extracted := Strip(Strip(s[m.group.start..m.group.end], Space), Comma);
      Some(AlphaWords(SplitWs(Replace(extracted, ',', ' '))))
  }

  /** Lines 93-149: the four stages in order; each fires only with at least four words. */
  function WordSortingRule(s: string): Option<string> {
    var lines := Split(s, '\n');
    var items := NumberedItems(lines);
    if |items| >= MinWords then Some(Join(items, " "))
    else
      var singles := SingleWordLines(lines);
      if |singles| >= MinWords then Some(Join(singles, " "))
      else
        match ProseWords(lines)
        case Some(filtered) => Some(Join(filtered, " "))
        case None =>
          match LabeledListWords(s)
          case Some(ws) => if |ws| >= MinWords then Some(Join(ws, " ")) else None
          case None => None
  }

  /** The loop that builds `numbered_items`. */
  method CollectNumberedItems(lines: seq<string>) returns (items: seq<string>)
    ensures items == NumberedItems(lines)
  {
    items := [];
    for k := 0 to |lines|
      invariant items + NumberedItemsFrom(lines, k) == NumberedItems(lines)
    {
      var t := Strip(lines[k], Space);
      var m := NumberedItem(t);
      NumberedItemsStep(lines, k, items, t, m);
      if m.Some? {
        items := items + [t[m.value.start..m.value.end]];
      }
    }
  }

  /** The loop that builds `single_word_lines`. */
  method CollectSingleWordLines(lines: seq<string>) returns (singles: seq<string>)
    ensures singles == SingleWordLines(lines)
  {
    singles := [];
    for k := 0 to |lines|
      invariant singles + SingleWordLinesFrom(lines, k) == SingleWordLines(lines)
    {
      var stripped := Strip(lines[k], Space);
      SingleWordLinesStep(lines, k, singles, stripped);
      if stripped != [] && IsAlpha(stripped) && |stripped| > 1 {
        singles := singles + [stripped];
      }
    }
  }

  lemma NumberedItemsStep(lines: seq<string>, k: nat, done: seq<string>, t: string, m: Option<Span>)
    requires k < |lines| && t == Strip(lines[k], Space) && m == NumberedItem(t)
    ensures m.Some? ==> (m.value.end <= |t| &&
      done + NumberedItemsFrom(lines, k) == (done + [t[m.value.start..m.value.end]]) + NumberedItemsFrom(lines, k + 1))
    ensures m.None? ==> done + NumberedItemsFrom(lines, k) == done + NumberedItemsFrom(lines, k + 1)
  {
    var rest := NumberedItemsFrom(lines, k + 1);
    assert NumberedItemsFrom(lines, k) == ItemOf(lines[k]) + rest;
    ConcatAssoc(done, ItemOf(lines[k]), rest);
    if m.None? {
      assert ItemOf(lines[k]) == [];
      assert [] + rest == rest;
    }
  }

  lemma SingleWordLinesStep(lines: seq<string>, k: nat, done: seq<string>, t: string)
    requires k < |lines| && t == Strip(lines[k], Space)
    ensures t != [] && IsAlpha(t) && |t| > 1 ==>
      done + SingleWordLinesFrom(lines, k) == (done + [t]) + SingleWordLinesFrom(lines, k + 1)
    ensures !(t != [] && IsAlpha(t) && |t| > 1) ==>
      done + SingleWordLinesFrom(lines, k) == done + SingleWordLinesFrom(lines, k + 1)
  {
    var rest := SingleWordLinesFrom(lines, k + 1);
    assert SingleWordLinesFrom(lines, k) == SingleWordOf(lines[k]) + rest;
    ConcatAssoc(done, SingleWordOf(lines[k]), rest);
    if !(t != [] && IsAlpha(t) && |t| > 1) {
      assert [] + rest == rest;
    }
  }

  /** The walk over `reversed(lines[-15:])`, skipping short lines and returning at the
      first line that yields enough words. */
  method ScanProseLines(lines: seq<string>) returns (words: Option<seq<string>>)
    ensures words == ProseWords(lines)
  {
    var lo := WindowStart(lines);
    var n := |lines|;
    while n > lo
      invariant lo <= n <= |lines|
      invariant ProseFrom(lines, lo, n) == ProseWords(lines)
      decreases n
    {
      var line := lines[n - 1];
      n := n - 1;
      if |Strip(line, Space)| < MinProseLength {
        continue;
      }
      var all := LetterWords(line);
      if |all| < MinWords {
        continue;
      }
      var filtered := RemoveStopWords(all);
      if |filtered| >= MinWords {
        return Some(filtered);
      }
    }
    return None;
  }

  // ---------------------------------------------------------------------------------
  // General fallback

  /** The index of the first piece that is not blank, from `k` on. */
  function FirstNonBlankFrom(pieces: seq<string>, k: nat): (i: Option<nat>)
    ensures i.Some? ==> k <= i.value < |pieces| && Strip(pieces[i.value], Space) != []
    ensures i.Some? ==> forall j :: k <= j < i.value ==> Strip(pieces[j], Space) == []
    ensures i.None? ==> forall j :: k <= j < |pieces| ==> Strip(pieces[j], Space) == []
    decreases |pieces| - k
  {
    if k >= |pieces| then None
    else if Strip(pieces[k], Space) != [] then Some(k)
    else FirstNonBlankFrom(pieces, k + 1)
  }

  /** Lines 154-163: the first non-blank line after the leftmost "answer:", trimmed and
      with commas stripped from both ends; "" when there is no such line. */
  function Fallback(s: string): (r: string)
    ensures '\n' !in r
  {
    match Search(AnswerColon, s)
    case None => ""
    case Some(m) =>
      var pieces := Split(Strip(s[m.group.start..], Space), '\n');
      match FirstNonBlankFrom(pieces, 0)
      case None => ""
      case Some(i) =>
        var line := Strip(pieces[i], Space);
        StripKeeps(pieces[i], Space);
        StripKeeps(line, Space);
        StripKeeps(Strip(line, Space), Comma);
        Strip(Strip(line, Space), Comma)
  }

  // ---------------------------------------------------------------------------------
  // The cascade

  /** `extract_answer(response_text, task_name)`; `None` stands for a missing response
      (Python `None` or a pandas NaN). */
  function Extract(response: Option<string>, task: string): string {
    if response.None? || response.value == "" then ""
    else
      var s := Strip(response.value, Space);
      if s == "" then ""
      else
        var b := if task == BooleanTask then BooleanRule(s) else None;
        if b.Some? then b.value
        else
          var c := if task in ChoiceTasks then ChoiceRule(s) else None;
          if c.Some? then c.value
          else
            var w := if task == WordSortingTask then WordSortingRule(s) else None;
            if w.Some? then w.value else Fallback(s)
  }

  /** Lines 38-59 as the source runs them: the loop over the cue patterns, then the tail
      scan. */
  method BooleanStage(s: string) returns (r: Option<string>)
    ensures r == BooleanRule(s)
  {
    var g := FirstPatternCapture(BooleanPatterns, s);
    if g.Some? {
      return Some(Capitalize(g.value));
    }
    r := BooleanTail(s);
  }

  /** Lines 64-84 as the source runs them. */
  method ChoiceStage(s: string) returns (r: Option<string>)
    ensures r == ChoiceRule(s)
  {
    var g := FirstPatternCapture(ChoicePatterns, s);
    if g.Some? {
      return Some(UpperStr(g.value));
    }
    var cleaned := Cleaned(s);
    if |cleaned| == 1 && Upper(cleaned[0]) in ChoiceLetters {
      return Some(UpperStr(cleaned));
    }
    return None;
  }

  /** Lines 92-149 as the source runs them: the two collecting loops, the bottom-up walk,
      then the labelled list. */
  method WordSortingStage(s: string) returns (r: Option<string>)
    ensures r == WordSortingRule(s)
  {
    var lines := Split(s, '\n');
    var items := CollectNumberedItems(lines);
    if |items| >= MinWords {
      return Some(Join(items, " "));
    }
    var singles := CollectSingleWordLines(lines);
    if |singles| >= MinWords {
      return Some(Join(singles, " "));
    }
    var prose := ScanProseLines(lines);
    if prose.Some? {
      return Some(Join(prose.value, " "));
    }
    var listed := LabeledListWords(s);
    if listed.Some? && |listed.value| >= MinWords {
      return Some(Join(listed.value, " "));
    }
    return None;
  }

  /** `extract_answer`, rule by rule, with early returns. */
  method ExtractAnswer(response: Option<string>, task: string) returns (answer: string)
    ensures answer == Extract(response, task)
  {
    if response.None? || response.value == "" {
      return "";
    }
    var s := Strip(response.value, Space);
    if s == "" {
      return "";
    }
    if task == BooleanTask {
      var b := BooleanStage(s);
      if b.Some? {
        return b.value;
      }
    }
    if task in ChoiceTasks {
      var c := ChoiceStage(s);
      if c.Some? {
        return c.value;
      }
    }
    if task == WordSortingTask {
      var w := WordSortingStage(s);
      if w.Some? {
        return w.value;
      }
    }
    answer := Fallback(s);
  }
}
