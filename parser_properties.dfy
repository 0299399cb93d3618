/**
 * What `extract_answer` promises, proved about the cascade `ResponseParser.Extract`:
 * empty input gives "", each task family's answers have their canonical form, the rules
 * fire in their order, and no answer spans more than one line.
 */
module ParserProperties {
  import opened Wrappers
  import opened Text
  import opened Patterns
  import opened ResponseParser

  // ---------------------------------------------------------------------------------
  // Missing and blank responses

  /** A missing, empty or whitespace-only response gives "" for every task. */
  lemma BlankResponse(response: Option<string>, task: string)
    requires response.None? || forall i :: 0 <= i < |response.value| ==> IsSpace(response.value[i])
    ensures Extract(response, task) == ""
  {
  }

  // ---------------------------------------------------------------------------------
  // Other task names and the general fallback

  /** A task name outside the five known ones goes straight to the general fallback. */
  lemma OtherTask(text: string, task: string)
    requires task != BooleanTask && task !in ChoiceTasks && task != WordSortingTask
    ensures var s := Strip(text, Space);
      Extract(Some(text), task) == (if s == "" then "" else Fallback(s))
  {
  }

  /** Without a case-insensitive "answer:" anywhere, the fallback gives "". */
  lemma FallbackNoLabel(s: string)
    requires forall q :: 0 <= q <= |s| ==> !LitAt(s, q, "answer:")
    ensures Fallback(s) == ""
  {
    SearchMisses(AnswerColon, s);
  }

  /** With one, the fallback answers from the first non-blank line after the leftmost
      "answer:", and what it answers is that line trimmed of whitespace and then of commas:
      never a line feed. */
  lemma FallbackLine(s: string, p: nat)
    requires p <= |s| && LitAt(s, p, "answer:")
    requires forall q :: 0 <= q < p ==> !LitAt(s, q, "answer:")
    ensures var pieces := Split(Strip(s[Skip(s, p + 7, Space)..], Space), '\n');
      var i := FirstNonBlankFrom(pieces, 0);
      Fallback(s) == (if i.None? then "" else Strip(Strip(pieces[i.value], Space), Comma)) &&
      '\n' !in Fallback(s)
  {
    SearchAt(AnswerColon, s, p);
    var pieces := Split(Strip(s[Skip(s, p + 7, Space)..], Space), '\n');
    var i := FirstNonBlankFrom(pieces, 0);
    if i.Some? {
      StripUnchanged(Strip(pieces[i.value], Space), Space);
    }
  }

  // ---------------------------------------------------------------------------------
  // Pattern lists

  /** Pattern `k` of the list matches somewhere in `s`. */
  predicate PatternMatches(pats: seq<Pattern>, s: string, k: nat) {
    k < |pats| && Capture(pats[k], s).Some?
  }

  /** The loop over a pattern list is the scan for the first pattern that matches. */
  lemma {:induction false} FirstCaptureFromScan(pats: seq<Pattern>, s: string, from: nat)
    requires from <= |pats|
    ensures var i := FirstIndex((k: nat) => PatternMatches(pats, s, k), from, |pats|);
      FirstCaptureFrom(pats, s, from) == (if i.Some? then Capture(pats[i.value], s) else None)
    decreases |pats| - from
  {
    if from < |pats| && Capture(pats[from], s).None? {
      FirstCaptureFromScan(pats, s, from + 1);
    }
  }

  /** The first pattern, in list order, that matches decides: its capture is returned. */
  lemma FirstPatternDecides(pats: seq<Pattern>, s: string, k: nat)
    requires k < |pats| && Capture(pats[k], s).Some?
    requires forall j :: 0 <= j < k ==> Capture(pats[j], s).None?
    ensures FirstCapture(pats, s) == Capture(pats[k], s)
  {
    var ok := (j: nat) => PatternMatches(pats, s, j);
    forall j | 0 <= j < k ensures !ok(j) {
      assert Capture(pats[j], s).None?;
    }
    assert ok(k) by {
      assert PatternMatches(pats, s, k);
    }
    FirstIndexIs(ok, 0, |pats|, k);
    FirstCaptureFromScan(pats, s, 0);
  }

  /** The loop returns nothing exactly when no pattern of the list matches. */
  lemma NoPatternMatches(pats: seq<Pattern>, s: string)
    ensures FirstCapture(pats, s).None? <==> forall k :: 0 <= k < |pats| ==> Capture(pats[k], s).None?
  {
    var ok := (j: nat) => PatternMatches(pats, s, j);
    FirstCaptureFromScan(pats, s, 0);
    var i := FirstIndex(ok, 0, |pats|);
    if i.None? {
      forall k | 0 <= k < |pats| ensures Capture(pats[k], s).None? { assert !ok(k); }
    }
  }

  /** Whatever the loop returns was captured by one of the patterns. */
  lemma FirstCaptureFromSome(pats: seq<Pattern>, s: string)
    requires FirstCapture(pats, s).Some?
    ensures exists k :: 0 <= k < |pats| && Capture(pats[k], s) == FirstCapture(pats, s)
  {
    FirstCaptureFromScan(pats, s, 0);
  }

  // ---------------------------------------------------------------------------------
  // Boolean expressions

  /** `(True|False)` captured in any case comes out of `.capitalize()` as exactly "True"
      or "False", according to the word. */
  lemma CapitalizedBoolean(s: string, g: Span)
    requires g.end <= |s| && BoolCapture(s, g)
    ensures Capitalize(s[g.start..g.end]) == (if LitAt(s, g.start, "true") then "True" else "False")
  {
    var w := s[g.start..g.end];
    var lit := if LitAt(s, g.start, "true") then "true" else "false";
    LitAtMeaning(s, g.start, lit);
    assert forall k :: 0 <= k < |lit| ==> Lower(w[k]) == lit[k] by {
      forall k | 0 <= k < |lit| ensures Lower(w[k]) == lit[k] {
        assert w[k] == s[g.start + k];
      }
    }
    CapitalizeLowered(w, lit);
  }

  /** What one boolean pattern captures is "true" or "false" in some case. */
  lemma BooleanPatternCapture(pat: Pattern, s: string)
    requires pat.IsBoolean() && Capture(pat, s).Some?
    ensures Capitalize(Capture(pat, s).value) in {"True", "False"}
  {
    CapitalizedBoolean(s, Search(pat, s).value.group);
  }

  /** A capture from the boolean patterns `BooleanPatterns[k..]` is True or False. */
  lemma {:induction false} BooleanCaptureFrom(s: string, k: nat)
    requires k <= |BooleanPatterns|
    ensures FirstCaptureFrom(BooleanPatterns, s, k).Some? ==>
      Capitalize(FirstCaptureFrom(BooleanPatterns, s, k).value) in {"True", "False"}
    decreases |BooleanPatterns| - k
  {
    if k < |BooleanPatterns| {
      if Capture(BooleanPatterns[k], s).Some? {
        assert BooleanPatterns[k].IsBoolean();
        BooleanPatternCapture(BooleanPatterns[k], s);
      } else {
        BooleanCaptureFrom(s, k + 1);
      }
    }
  }

  /** For the boolean task the first cue pattern, in list order, that matches decides:
      its capture, capitalised, is the answer. */
  lemma BooleanCueDecides(text: string, k: nat)
    requires k < |BooleanPatterns|
    requires Capture(BooleanPatterns[k], Strip(text, Space)).Some?
    requires forall j :: 0 <= j < k ==> Capture(BooleanPatterns[j], Strip(text, Space)).None?
    ensures Extract(Some(text), BooleanTask) == Capitalize(Capture(BooleanPatterns[k], Strip(text, Space)).value)
  {
    var s := Strip(text, Space);
    FirstPatternDecides(BooleanPatterns, s, k);
    assert BooleanPatterns[k].IsBoolean();
  }

  /** Whole-word occurrences of one lower-case word never overlap, nor touch: so the
      matches `re.finditer(r'\bword\b', ...)` reports are every whole-word occurrence. */
  lemma WholeWordsDisjoint(t: string, w: string, p: nat, q: nat)
    requires forall i :: 0 <= i < |w| ==> 'a' <= w[i] <= 'z'
    requires p < q && WholeWordAt(t, p, w) && WholeWordAt(t, q, w)
    ensures p + |w| < q
  {
    if q <= p + |w| {
      InsideWord(t, w, p, q - 1);
      InsideWord(t, w, q, q);
      assert false;
    }
  }

  /** Every character of an occurrence of a lower-case word is a word character. */
  lemma InsideWord(t: string, w: string, p: nat, i: nat)
    requires forall k :: 0 <= k < |w| ==> 'a' <= w[k] <= 'z'
    requires LitAt(t, p, w) && p <= i < p + |w|
    ensures i < |t| && IsWordChar(t[i])
  {
    LitAtMeaning(t, p, w);
    assert Lower(t[p + (i - p)]) == w[i - p];
  }

  /** "true" and "false" never start at the same place. */
  lemma TrueFalseApart(t: string, p: nat)
    ensures !(LitAt(t, p, "true") && LitAt(t, p, "false"))
  {
    LitAtMeaning(t, p, "true");
    LitAtMeaning(t, p, "false");
  }

  /** The tail rule: "True" when, in the last 150 characters, a whole-word "true" has no
      whole-word "false" after it, "False" the other way round, and nothing when neither
      word occurs. */
  lemma BooleanTailMeaning(s: string)
    ensures var t := LastPart(s);
      (BooleanTail(s) == Some("True") <==>
        exists p :: 0 <= p <= |t| && WholeWordAt(t, p, "true") && forall q :: p < q <= |t| ==> !WholeWordAt(t, q, "false")) &&
      (BooleanTail(s) == Some("False") <==>
        exists p :: 0 <= p <= |t| && WholeWordAt(t, p, "false") && forall q :: p < q <= |t| ==> !WholeWordAt(t, q, "true")) &&
      (BooleanTail(s).None? <==>
        forall q :: 0 <= q <= |t| ==> !WholeWordAt(t, q, "true") && !WholeWordAt(t, q, "false"))
  {
    var t := LastPart(s);
    var lt := LastWholeWord(t, "true");
    var lf := LastWholeWord(t, "false");
    if lt >= 0 && lt == lf {
      TrueFalseApart(t, lt);
    }
  }

  /** For the boolean task the first cue that matches answers; with no cue, the tail
      rule answers; with neither, control reaches the general fallback. Only the fallback
      can answer something other than "True" or "False". */
  lemma BooleanResult(text: string)
    requires Strip(text, Space) != []
    ensures var s := Strip(text, Space);
      var r := Extract(Some(text), BooleanTask);
      (FirstCapture(BooleanPatterns, s).Some? ==>
        r == Capitalize(FirstCapture(BooleanPatterns, s).value) && r in {"True", "False"}) &&
      (FirstCapture(BooleanPatterns, s).None? && BooleanTail(s).Some? ==>
        r == BooleanTail(s).value && r in {"True", "False"}) &&
      (FirstCapture(BooleanPatterns, s).None? && BooleanTail(s).None? ==> r == Fallback(s))
    ensures var s := Strip(text, Space);
      var r := Extract(Some(text), BooleanTask);
      r in {"True", "False"} ||
      (FirstCapture(BooleanPatterns, s).None? && BooleanTail(s).None? && r == Fallback(s))
  {
    var s := Strip(text, Space);
    if FirstCapture(BooleanPatterns, s).Some? {
      BooleanCaptureFrom(s, 0);
    }
  }

  // ---------------------------------------------------------------------------------
  // Multiple choice

  lemma ChoiceLetterUpper(c: char)
    requires IsChoiceLetter(c)
    ensures Upper(c) in ChoiceLetters
  {
    var i := Upper(c) as int - 'A' as int;
    assert ChoiceLetters[i] == Upper(c);
  }

  /** What one multiple-choice pattern captures, upper-cased, is one letter A to K. */
  lemma ChoicePatternCapture(pat: Pattern, s: string)
    requires pat.IsChoice() && Capture(pat, s).Some?
    ensures var r := UpperStr(Capture(pat, s).value); |r| == 1 && r[0] in ChoiceLetters
  {
    var g := Search(pat, s).value.group;
    ChoiceLetterUpper(s[g.start]);
  }

  /** A capture from `ChoicePatterns[k..]`, upper-cased, is one letter A to K. */
  lemma {:induction false} ChoiceCaptureFrom(s: string, k: nat)
    requires k <= |ChoicePatterns|
    ensures FirstCaptureFrom(ChoicePatterns, s, k).Some? ==>
      var r := UpperStr(FirstCaptureFrom(ChoicePatterns, s, k).value); |r| == 1 && r[0] in ChoiceLetters
    decreases |ChoicePatterns| - k
  {
    if k < |ChoicePatterns| {
      if Capture(ChoicePatterns[k], s).Some? {
        assert ChoicePatterns[k].IsChoice();
        ChoicePatternCapture(ChoicePatterns[k], s);
      } else {
        ChoiceCaptureFrom(s, k + 1);
      }
    }
  }

  /** Every answer of the multiple-choice rule is one upper-case letter, A to K. */
  lemma ChoiceRuleLetter(s: string)
    requires ChoiceRule(s).Some?
    ensures |ChoiceRule(s).value| == 1 && ChoiceRule(s).value[0] in ChoiceLetters
  {
    ChoiceCaptureFrom(s, 0);
  }

  /** For the three multiple-choice tasks the answer is one letter A to K, unless the
      multiple-choice rule finds nothing and the general fallback answers. */
  lemma ChoiceResult(text: string, task: string)
    requires task in ChoiceTasks && Strip(text, Space) != []
    ensures var s := Strip(text, Space);
      var r := Extract(Some(text), task);
      (ChoiceRule(s).Some? && r == ChoiceRule(s).value && |r| == 1 && r[0] in ChoiceLetters) ||
      (ChoiceRule(s).None? && r == Fallback(s))
  {
    var s := Strip(text, Space);
    assert task != BooleanTask && task != WordSortingTask;
    if ChoiceRule(s).Some? {
      ChoiceRuleLetter(s);
    }
  }

  /** For a multiple-choice task the first choice pattern, in list order, that matches
      decides: its capture, upper-cased, is the answer. */
  lemma ChoiceCueDecides(text: string, task: string, k: nat)
    requires task in ChoiceTasks && k < |ChoicePatterns|
    requires Capture(ChoicePatterns[k], Strip(text, Space)).Some?
    requires forall j :: 0 <= j < k ==> Capture(ChoicePatterns[j], Strip(text, Space)).None?
    ensures Extract(Some(text), task) == UpperStr(Capture(ChoicePatterns[k], Strip(text, Space)).value)
  {
    var s := Strip(text, Space);
    assert task != BooleanTask && task != WordSortingTask;
    FirstPatternDecides(ChoicePatterns, s, k);
  }

  /** `[A-K]` is compiled with IGNORECASE, so a lower-case a to k straight after
      "answer is " is taken as the choice letter, even when it only starts a word. */
  lemma AnswerIsLowercase(s: string, p: nat)
    requires LitAt(s, p, "answer is ") && p + 10 < |s| && 'a' <= s[p + 10] <= 'k'
    ensures ChoiceAnswerIsAt(s, p) == Some(Span(p + 10, p + 11))
  {
    LitAtMeaning(s, p, "answer is ");
    LitAtMeaning(s, p, "answer");
    LitAtMeaning(s, p + 6, " is");
    assert Lower(s[p + 9]) == ' ';
    assert FirstLit(s, p, ChoiceCues) == Some(p + 6);
    SkipOne(s, p + 9, ColonOrSpace);
  }

  /** A response that opens with "answer is " and a letter a to k captures that letter. */
  lemma AnswerIsLowercaseCapture(s: string)
    requires LitAt(s, 0, "answer is ") && 10 < |s| && 'a' <= s[10] <= 'k'
    ensures Capture(ChoiceAnswerIs, s) == Some([s[10]])
  {
    AnswerIsLowercase(s, 0);
    SearchAt(ChoiceAnswerIs, s, 0);
    assert s[10..11] == [s[10]];
  }

  lemma AnswerIsOpening(c: char, rest: string)
    requires 'a' <= c <= 'k'
    requires rest == [] || !IsSpace(rest[|rest| - 1])
    ensures var s := "answer is " + [c] + rest;
      LitAt(s, 0, "answer is ") && 10 < |s| && s[10] == c && Strip(s, Space) == s
  {
    var s := "answer is " + [c] + rest;
    assert s[0] == 'a' && s[10] == c;
    assert s[|s| - 1] == if rest == [] then c else rest[|rest| - 1];
    StripUnchanged(s, Space);
    assert forall k :: 0 <= k < 10 ==> s[k] == "answer is "[k];
    LitAtMeaning(s, 0, "answer is ");
  }

  /** So a multiple-choice response that opens with "answer is " and a word starting with
      a to k answers that letter, upper-cased: "answer is because" gives B. */
  lemma AnswerIsLowercaseDecides(c: char, rest: string, task: string)
    requires task in ChoiceTasks && 'a' <= c <= 'k'
    requires rest == [] || !IsSpace(rest[|rest| - 1])
    ensures Extract(Some("answer is " + [c] + rest), task) == [Upper(c)]
  {
    var s := "answer is " + [c] + rest;
    AnswerIsOpening(c, rest);
    AnswerIsLowercaseCapture(s);
    ChoiceCueDecides(s, task, 0);
  }

  /** The bold pattern `\*\*\(([A-K])\)\*\*` can never decide: wherever it matches, the
      plain `\(([A-K])\)` listed before it matches too. */
  lemma BoldParenthesizedRedundant(s: string)
    requires Search(ChoiceBoldParenthesized, s).Some?
    ensures Search(ChoiceParenthesized, s).Some?
  {
    var p := Search(ChoiceBoldParenthesized, s).value.pos;
    SearchFound(ChoiceBoldParenthesized, s);
    if Search(ChoiceParenthesized, s).None? {
      SearchNone(ChoiceParenthesized, s, p + 2);
    }
    LitAtMeaning(s, p, "**(");
    LitAtMeaning(s, p + 4, ")**");
    assert MatchAt(ChoiceParenthesized, s, p + 2).Some?;
  }
}
