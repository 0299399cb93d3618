/**
 * What `build_prompt` promises, proved about `PromptBuilder.Prompt`: the exact shape of
 * each technique's prompt, the errors, and that every prompt ends with the test question
 * and an open answer.
 */
module PromptProperties {
  import opened Wrappers
  import opened Text
  import opened PromptBuilder

  /** Zero-shot is the question alone: the demonstrations, task name and file play no part. */
  lemma ZeroShotPrompt(question: string, demos: seq<Demo>, taskName: Option<string>, cotFile: Option<string>)
    ensures Prompt(question, ZeroShot, demos, taskName, cotFile) == Ok("Q: " + question + "\nA:")
  {
  }

  /** `format_example` is the question and the target after "Q: " and "A: "; with reasoning
      asked for, the step-by-step cue goes between "A: " and the target. */
  lemma FormatExampleReasoning(input: string, target: string)
    ensures var head := "Q: " + input + "\nA: ";
      FormatExample(input, target, false) == head + target &&
      FormatExample(input, target, true) == head + "Let's think step by step. " + target
  {
    var head := "Q: " + input + "\nA: ";
    assert "Q: " + input + "\nA: Let's think step by step. " == head + "Let's think step by step. ";
  }

  /** Blocks of two lists of demonstrations, one after the other, are the blocks of the two
      lists concatenated: one block per demonstration, in list order. */
  lemma {:induction false} BlocksAppend(a: seq<Demo>, b: seq<Demo>, reasoning: bool)
    ensures Blocks(a + b, reasoning) == Blocks(a, reasoning) + Blocks(b, reasoning)
    decreases |b|
  {
    if b == [] {
      assert a + b == a;
    } else {
      var b', last := b[..|b| - 1], b[|b| - 1];
      assert b == b' + [last];
      assert a + b == (a + b') + [last];
      BlocksSnoc(a + b', last, reasoning);
      BlocksSnoc(b', last, reasoning);
      BlocksAppend(a, b', reasoning);
      ConcatAssoc(Blocks(a, reasoning), Blocks(b', reasoning), Block(last, reasoning));
    }
  }

  /** The blocks of one demonstration. */
  lemma BlocksOne(d: Demo, reasoning: bool)
    ensures Blocks([d], reasoning) == Block(d, reasoning)
  {
    assert [d][..0] == [];
  }

  /** The blocks start with the first demonstration's block and go on with the others'. */
  lemma BlocksCons(d: Demo, rest: seq<Demo>, reasoning: bool)
    ensures Blocks([d] + rest, reasoning) == Block(d, reasoning) + Blocks(rest, reasoning)
  {
    BlocksAppend([d], rest, reasoning);
    BlocksOne(d, reasoning);
  }

  /** The few-shot examples of `demos`, formatted without reasoning. */
  function Examples(demos: seq<Demo>): (r: seq<string>)
    ensures |r| == |demos|
    ensures forall k :: 0 <= k < |demos| ==> r[k] == FormatExample(demos[k].input, demos[k].target, false)
  {
    if demos == [] then [] else [FormatExample(demos[0].input, demos[0].target, false)] + Examples(demos[1..])
  }

  /** Before the trailing blank line, the few-shot blocks are the examples joined by blank
      lines. */
  lemma {:induction false} BlocksJoin(demos: seq<Demo>)
    requires demos != []
    ensures Blocks(demos, false) == Join(Examples(demos), "\n\n") + "\n\n"
    decreases |demos|
  {
    var d := demos[0];
    var rest := demos[1..];
    assert demos == [d] + rest;
    BlocksCons(d, rest, false);
    if rest != [] {
      var e := FormatExample(d.input, d.target, false);
      BlocksJoin(rest);
      JoinCons(e, Examples(rest), "\n\n");
      assert Examples(demos) == [e] + Examples(rest);
      ConcatAssoc(e + "\n\n", Join(Examples(rest), "\n\n"), "\n\n");
    }
  }

  /** Stripping trailing whitespace from a string that ends in a non-space followed by
      whitespace leaves the string before the whitespace. */
  lemma RStripSpaces(s: string, tail: string)
    requires s != [] && !IsSpace(s[|s| - 1])
    requires forall i :: 0 <= i < |tail| ==> IsSpace(tail[i])
    ensures RStrip(s + tail) == s
  {
    assert (s + tail)[|s| - 1] == s[|s| - 1];
    assert forall i :: |s| <= i < |s + tail| ==> (s + tail)[i] == tail[i - |s|];
  }

  /** When the last demonstration's target is not empty and does not end in whitespace, the
      few-shot prompt is the examples joined by blank lines, a blank line, and the question:
      `rstrip()` removes only the trailing blank line. */
  lemma FewShotJoined(question: string, demos: seq<Demo>, taskName: Option<string>, cotFile: Option<string>)
    requires demos != []
    requires var t := demos[|demos| - 1].target; t != [] && !IsSpace(t[|t| - 1])
    ensures Prompt(question, FewShot, demos, taskName, cotFile) ==
      Ok(Join(Examples(demos), "\n\n") + "\n\nQ: " + question + "\nA:")
  {
    BlocksJoin(demos);
    var j := Join(Examples(demos), "\n\n");
    JoinLast(Examples(demos), "\n\n");
    RStripSpaces(j, "\n\n");
  }

  /** A join of non-empty parts ends with the last part. */
  lemma {:induction false} JoinLast(parts: seq<string>, sep: string)
    requires parts != []
    ensures var last := parts[|parts| - 1];
      |last| <= |Join(parts, sep)| && Join(parts, sep)[|Join(parts, sep)| - |last|..] == last
    decreases |parts|
  {
    if |parts| > 1 {
      JoinLast(parts[1..], sep);
      var rest := Join(parts[1..], sep);
      var last := parts[|parts| - 1];
      assert Join(parts, sep) == (parts[0] + sep) + rest;
      assert (parts[0] + sep + rest)[|parts[0] + sep + rest| - |last|..] == rest[|rest| - |last|..];
    }
  }

  /** Few-shot without demonstrations is a blank line before the question. */
  lemma FewShotEmpty(question: string, taskName: Option<string>, cotFile: Option<string>)
    ensures Prompt(question, FewShot, [], taskName, cotFile) == Ok("\n\nQ: " + question + "\nA:")
  {
    assert RStrip("") == "";
    assert "" + "\n\nQ: " == "\n\nQ: ";
  }

  /** Chain of thought with a demonstrations file: its content, trimmed, a blank line, the
      question and the step-by-step cue. */
  lemma CotWithFile(question: string, demos: seq<Demo>, task: string, content: string)
    ensures Prompt(question, ChainOfThought, demos, Some(task), Some(content)) ==
      Ok(Strip(content, Space) + "\n\nQ: " + question + "\nA: Let's think step by step.")
  {
  }

  /** Chain of thought without the file: each demonstration with the step-by-step cue and a
      blank line, in order, then the question and the cue. */
  lemma CotFallback(question: string, demos: seq<Demo>, task: string)
    ensures Prompt(question, ChainOfThought, demos, Some(task), None) ==
      Ok(Blocks(demos, true) + "Q: " + question + "\nA: Let's think step by step.")
    ensures demos != [] ==> Blocks(demos, true) == Block(demos[0], true) + Blocks(demos[1..], true)
  {
    if demos != [] {
      assert demos == [demos[0]] + demos[1..];
      BlocksCons(demos[0], demos[1..], true);
    }
  }

  /** The errors: chain of thought without a task name, and any technique other than the
      three; every other call builds a prompt. */
  lemma PromptErrors(question: string, technique: string, demos: seq<Demo>, taskName: Option<string>,
                     cotFile: Option<string>)
    ensures var r := Prompt(question, technique, demos, taskName, cotFile);
      (r == Err(MissingTaskName) <==> technique == ChainOfThought && taskName.None?) &&
      (r == Err(UnknownTechnique(technique)) <==> technique !in {ZeroShot, FewShot, ChainOfThought}) &&
      (r.Ok? <==> technique in {ZeroShot, FewShot} || (technique == ChainOfThought && taskName.Some?))
  {
  }

  /** Every prompt that builds ends with the test question and an open answer: "A:" for
      zero- and few-shot, "A: Let's think step by step." for chain of thought. */
  lemma PromptEnds(question: string, technique: string, demos: seq<Demo>, taskName: Option<string>,
                   cotFile: Option<string>)
    requires Prompt(question, technique, demos, taskName, cotFile).Ok?
    ensures var p := Prompt(question, technique, demos, taskName, cotFile).value;
      var plain := "Q: " + question + "\nA:";
      var cot := "Q: " + question + "\nA: Let's think step by step.";
      (technique != ChainOfThought && |plain| <= |p| && p[|p| - |plain|..] == plain) ||
      (technique == ChainOfThought && |cot| <= |p| && p[|p| - |cot|..] == cot)
  {
    if technique == ZeroShot {
      EndsWith("", "Q: ", question, "\nA:");
    } else if technique == FewShot {
      EndsWith(FewShotPrefix(demos), "\n\nQ: ", question, "\nA:");
    } else if cotFile.None? {
      EndsWith(Blocks(demos, true), "Q: ", question, "\nA: Let's think step by step.");
    } else {
      EndsWith(Strip(cotFile.value, Space), "\n\nQ: ", question, "\nA: Let's think step by step.");
    }
  }

  /** A prompt assembled as text, a lead ending in "Q: ", the question and a cue ends with
      "Q: ", the question and the cue. */
  lemma EndsWith(pre: string, lead: string, question: string, cue: string)
    requires |lead| >= 3 && lead[|lead| - 3..] == "Q: "
    ensures var p := pre + lead + question + cue;
      var t := "Q: " + question + cue;
      |t| <= |p| && p[|p| - |t|..] == t
  {
    var p := pre + lead + question + cue;
    var t := "Q: " + question + cue;
    assert p == pre + lead[..|lead| - 3] + t;
  }
}
