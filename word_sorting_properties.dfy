/**
 * What the word-sorting rule promises. The four stages are tried in order and each fires
 * only with at least four words; the answer is the fired stage's words joined by single
 * spaces, so splitting it on whitespace gives exactly those words back. Stage 3 looks only
 * at the last fifteen lines, from the bottom up, skips short lines and never keeps a stop
 * word.
 */
module WordSortingProperties {
  import opened Wrappers
  import opened Text
  import opened Patterns
  import opened ResponseParser

  /** Every word is a token: two or more word characters. */
  predicate Tokens(ws: seq<string>) {
    forall k :: 0 <= k < |ws| ==> IsToken(ws[k])
  }

  lemma LettersToken(w: string)
    requires |w| >= 2 && AllLetters(w)
    ensures IsToken(w)
  {
    AllLettersMeaning(w);
  }

  lemma TokensConcat(a: seq<string>, b: seq<string>)
    requires Tokens(a) && Tokens(b)
    ensures Tokens(a + b)
  {
    forall k | 0 <= k < |a + b| ensures IsToken((a + b)[k]) {
      if k >= |a| {
        assert (a + b)[k] == b[k - |a|];
      }
    }
  }

  // ---------------------------------------------------------------------------------
  // Every stage yields tokens

  /** A line made of one digit, ". " and a word of two or more letters is a numbered item,
      and stage 1 takes the word from it. */
  lemma ItemOfNumbered(line: string, d: char, w: string)
    requires IsDigit(d) && |w| >= 2 && IsAlpha(w)
    requires line == [d] + ". " + w
    ensures ItemOf(line) == [w]
  {
    AllLettersMeaning(w);
    assert line[0] == d && line[1] == '.' && line[2] == ' ' && line[3..] == w;
    forall i | 3 <= i < |line| ensures IsAsciiLetter(line[i]) {
      assert line[i] == w[i - 3];
    }
    StripUnchanged(line, Space);
    NumberedItemDigitWord(line);
  }

  /** `NumberedItem` on a digit, ". " and a run of two or more letters to the end: the run. */
  lemma NumberedItemDigitWord(t: string)
    requires |t| >= 5 && IsDigit(t[0]) && t[1] == '.' && t[2] == ' '
    requires forall i :: 3 <= i < |t| ==> IsAsciiLetter(t[i])
    ensures NumberedItem(t) == Some(Span(3, |t|))
  {
    SkipStop(t, 0, Space);
    SkipOne(t, 0, Digit);
    SkipOne(t, 2, Space);
    SkipToEnd(t, 4, Word);
  }

  /** Stage 1 collects tokens: a numbered item's word is a letter and one or more word
      characters. */
  lemma {:induction false} NumberedItemsFromTokens(lines: seq<string>, k: nat)
    ensures Tokens(NumberedItemsFrom(lines, k))
    decreases |lines| - k
  {
    if k < |lines| {
      NumberedItemsFromTokens(lines, k + 1);
      var here := ItemOf(lines[k]);
      assert Tokens(here);
      TokensConcat(here, NumberedItemsFrom(lines, k + 1));
    }
  }

  /** Stage 2 collects tokens: each is an alphabetic line of two or more letters. */
  lemma {:induction false} SingleWordLinesFromTokens(lines: seq<string>, k: nat)
    ensures Tokens(SingleWordLinesFrom(lines, k))
    decreases |lines| - k
  {
    if k < |lines| {
      SingleWordLinesFromTokens(lines, k + 1);
      var t := Strip(lines[k], Space);
      if t != [] && IsAlpha(t) && |t| > 1 {
        LettersToken(t);
      }
      var here := SingleWordOf(lines[k]);
      assert Tokens(here);
      TokensConcat(here, SingleWordLinesFrom(lines, k + 1));
    }
  }

  /** Stage 4 keeps tokens only: alphabetic words of two or more letters. */
  lemma AlphaWordsTokens(ws: seq<string>)
    ensures Tokens(AlphaWords(ws))
  {
    var r := AlphaWords(ws);
    forall k | 0 <= k < |r| ensures IsToken(r[k]) {
      LettersToken(r[k]);
    }
  }

  lemma LetterWordsTokens(line: string)
    ensures Tokens(LetterWords(line))
  {
    var ws := LetterWords(line);
    forall k | 0 <= k < |ws| ensures IsToken(ws[k]) {
      LettersToken(ws[k]);
    }
  }

  // ---------------------------------------------------------------------------------
  // Stage 3

  /** A line stage 3 answers from: at least 20 characters once trimmed, and at least four
      letter words left once the stop words are dropped. (The source also asks for four
      letter words before dropping any; dropping never adds words, so that test is
      implied.) */
  predicate ProseLine(line: string) {
    |Strip(line, Space)| >= MinProseLength && |RemoveStopWords(LetterWords(line))| >= MinWords
  }

  /** `[w for w in ws if w.lower() not in stopwords]` keeps every word that is not a stop
      word. */
  lemma {:induction false} RemoveStopWordsKeeps(ws: seq<string>, w: string)
    requires w in ws && LowerStr(w) !in StopWords
    ensures w in RemoveStopWords(ws)
    decreases |ws|
  {
    if ws[0] != w {
      assert w in ws[1..];
      RemoveStopWordsKeeps(ws[1..], w);
    }
  }

  /** One step of the bottom-up walk: the line just above `n` answers if it is a prose
      line, otherwise the walk goes on upwards. */
  lemma ProseFromStep(lines: seq<string>, lo: nat, n: nat)
    requires lo < n <= |lines|
    ensures ProseFrom(lines, lo, n) ==
      if ProseLine(lines[n - 1]) then Some(RemoveStopWords(LetterWords(lines[n - 1])))
      else ProseFrom(lines, lo, n - 1)
  {
  }

  /** Stage 3 finds nothing exactly when no line of the range is a prose line. */
  lemma {:induction false} ProseFromNone(lines: seq<string>, lo: nat, n: nat)
    requires lo <= n <= |lines|
    ensures ProseFrom(lines, lo, n).None? <==> forall j :: lo <= j < n ==> !ProseLine(lines[j])
    decreases n - lo
  {
    if forall j :: lo <= j < n ==> !ProseLine(lines[j]) {
      ProseFromNoProseLine(lines, lo, n);
    } else {
      var j :| lo <= j < n && ProseLine(lines[j]);
      ProseFromProseLine(lines, lo, n, j);
    }
  }

  lemma {:induction false} ProseFromNoProseLine(lines: seq<string>, lo: nat, n: nat)
    requires lo <= n <= |lines|
    requires forall j :: lo <= j < n ==> !ProseLine(lines[j])
    ensures ProseFrom(lines, lo, n).None?
    decreases n - lo
  {
    if n > lo {
      ProseFromStep(lines, lo, n);
      assert !ProseLine(lines[n - 1]);
      ProseFromNoProseLine(lines, lo, n - 1);
    }
  }

  lemma {:induction false} ProseFromProseLine(lines: seq<string>, lo: nat, n: nat, j: nat)
    requires lo <= j < n <= |lines| && ProseLine(lines[j])
    ensures ProseFrom(lines, lo, n).Some?
    decreases n - lo
  {
    ProseFromStep(lines, lo, n);
    if ProseLine(lines[n - 1]) {
      assert ProseFrom(lines, lo, n) == Some(RemoveStopWords(LetterWords(lines[n - 1])));
    } else {
      assert j < n - 1;
      ProseFromProseLine(lines, lo, n - 1, j);
      assert ProseFrom(lines, lo, n) == ProseFrom(lines, lo, n - 1);
    }
  }

  /** Scanning bottom-up, the lowest prose line of the range (the last one in the text)
      decides: its words less the stop words are the answer. */
  lemma {:induction false} ProseFromAt(lines: seq<string>, lo: nat, n: nat, j: nat)
    requires lo <= j < n <= |lines| && ProseLine(lines[j])
    requires forall i :: j < i < n ==> !ProseLine(lines[i])
    ensures ProseFrom(lines, lo, n) == Some(RemoveStopWords(LetterWords(lines[j])))
    decreases n - lo
  {
    ProseFromStep(lines, lo, n);
    if j < n - 1 {
      assert !ProseLine(lines[n - 1]);
      ProseFromAt(lines, lo, n - 1, j);
    }
  }

  /** No word is a stop word, compared in lower case. */
  predicate NoStopWord(ws: seq<string>) {
    forall k :: 0 <= k < |ws| ==> LowerStr(ws[k]) !in StopWords
  }

  /** What a prose line yields: at least four tokens, none of them a stop word. */
  lemma ProseLineWords(line: string)
    requires ProseLine(line)
    ensures var ws := RemoveStopWords(LetterWords(line));
      |ws| >= MinWords && Tokens(ws) && NoStopWord(ws)
  {
    LetterWordsTokens(line);
    var all := LetterWords(line);
    var ws := RemoveStopWords(all);
    forall k | 0 <= k < |ws| ensures IsToken(ws[k]) {
      var i :| 0 <= i < |all| && all[i] == ws[k];
    }
  }

  /** What stage 3 answers: the words of one prose line of the range, at least four of
      them, tokens, none of them a stop word in any case. */
  lemma {:induction false} ProseFromResult(lines: seq<string>, lo: nat, n: nat)
    requires lo <= n <= |lines| && ProseFrom(lines, lo, n).Some?
    ensures var ws := ProseFrom(lines, lo, n).value;
      |ws| >= MinWords && Tokens(ws) && NoStopWord(ws) &&
      exists j :: lo <= j < n && ProseLine(lines[j]) && ws == RemoveStopWords(LetterWords(lines[j]))
    decreases n - lo
  {
    ProseFromStep(lines, lo, n);
    if ProseLine(lines[n - 1]) {
      ProseLineWords(lines[n - 1]);
    } else {
      ProseFromResult(lines, lo, n - 1);
    }
  }

  /** Stage 3 over `lines[-15:]`: nothing when none of the last fifteen lines is a prose
      line... */
  lemma ProseWordsNone(lines: seq<string>)
    ensures ProseWords(lines).None? <==>
      forall j :: WindowStart(lines) <= j < |lines| ==> !ProseLine(lines[j])
  {
    ProseFromNone(lines, WindowStart(lines), |lines|);
  }

  /** ...otherwise the last prose line among them answers, and it is one of the last
      fifteen. */
  lemma ProseWordsAt(lines: seq<string>, j: nat)
    requires WindowStart(lines) <= j < |lines| && ProseLine(lines[j])
    requires forall i :: j < i < |lines| ==> !ProseLine(lines[i])
    ensures ProseWords(lines) == Some(RemoveStopWords(LetterWords(lines[j])))
    ensures |lines| - ProseWindow <= j
  {
    ProseFromAt(lines, WindowStart(lines), |lines|, j);
  }

  /** Stage 3's answer has no stop word, compared case-insensitively. */
  lemma ProseWordsNoStopWords(lines: seq<string>)
    requires ProseWords(lines).Some?
    ensures var ws := ProseWords(lines).value;
      |ws| >= MinWords && forall k :: 0 <= k < |ws| ==> LowerStr(ws[k]) !in StopWords
  {
    ProseFromResult(lines, WindowStart(lines), |lines|);
  }

  // ---------------------------------------------------------------------------------
  // The rule

  /** The word-sorting answer splits on whitespace into the words of the stage that fired,
      and joining those back with single spaces gives the answer; there are at least four
      of them; and that stage is the first, in the order 1, 2, 3, 4, that had enough. */
  lemma WordSortingAnswer(s: string)
    requires WordSortingRule(s).Some?
    ensures var r := WordSortingRule(s).value;
      var ws := SplitWs(r);
      var lines := Split(s, '\n');
      |ws| >= MinWords && Join(ws, " ") == r && Tokens(ws) &&
      (ws == NumberedItems(lines) ||
        (|NumberedItems(lines)| < MinWords &&
          (ws == SingleWordLines(lines) ||
            (|SingleWordLines(lines)| < MinWords &&
              (ProseWords(lines) == Some(ws) ||
                (ProseWords(lines).None? && LabeledListWords(s) == Some(ws)))))))
  {
    var lines := Split(s, '\n');
    var items := NumberedItems(lines);
    var singles := SingleWordLines(lines);
    NumberedItemsFromTokens(lines, 0);
    SingleWordLinesFromTokens(lines, 0);
    if |items| >= MinWords {
      SplitWsJoin(items);
    } else if |singles| >= MinWords {
      SplitWsJoin(singles);
    } else if ProseWords(lines).Some? {
      var ws := ProseWords(lines).value;
      ProseFromResult(lines, WindowStart(lines), |lines|);
      SplitWsJoin(ws);
    } else {
      var ws := LabeledListWords(s).value;
      AlphaWordsTokens(SplitWs(Replace(Strip(Strip(s[Search(LabeledList, s).value.group.start..Search(LabeledList, s).value.group.end], Space), Comma), ',', ' ')));
      SplitWsJoin(ws);
    }
  }

  /** When none of the four stages has four words the word-sorting rule gives nothing, and
      the general fallback answers. */
  lemma WordSortingNothing(s: string)
    ensures var lines := Split(s, '\n');
      WordSortingRule(s).None? <==>
        |NumberedItems(lines)| < MinWords && |SingleWordLines(lines)| < MinWords &&
        ProseWords(lines).None? && (LabeledListWords(s).None? || |LabeledListWords(s).value| < MinWords)
  {
  }

  /** For the word-sorting task, a response that is not blank gets the word-sorting rule's
      answer, or the general fallback when the rule gives nothing. */
  lemma WordSortingResult(text: string)
    requires Strip(text, Space) != []
    ensures var s := Strip(text, Space);
      Extract(Some(text), WordSortingTask) ==
        (if WordSortingRule(s).Some? then WordSortingRule(s).value else Fallback(s))
  {
  }
}
