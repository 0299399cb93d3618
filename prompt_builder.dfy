/**
 * `format_example` and `build_prompt`: the prompt strings sent to a model for the
 * zero-shot, few-shot and chain-of-thought techniques, built from fixed literals, the
 * test question and the demonstration examples.
 *
 * Reading the chain-of-thought demonstrations file is not modelled: `build_prompt` takes
 * its content as a parameter, `None` when the file is missing or unreadable.
 */
module PromptBuilder {
  import opened Wrappers
  import opened Text

  /** One demonstration example: its `input` and `target` fields. */
  datatype Demo = Demo(input: string, target: string)

  /** The `ValueError`s `build_prompt` raises. */
  datatype PromptError =
    | MissingTaskName                  // chain of thought without a task name
    | UnknownTechnique(technique: string)

  const ZeroShot := "zero-shot"
  const FewShot := "few-shot"
  const ChainOfThought := "cot"

  /** `format_example(example_input, example_target, include_reasoning)`: a question and its
      answer, the answer preceded by the step-by-step cue when reasoning is asked for. */
  function FormatExample(input: string, target: string, includeReasoning: bool): string {
    if includeReasoning then "Q: " + input + "\nA: Let's think step by step. " + target
    else "Q: " + input + "\nA: " + target
  }

  /** The block one demonstration adds to `prompt_prefix`: the example and a blank line. */
  function Block(d: Demo, reasoning: bool): string {
    FormatExample(d.input, d.target, reasoning) + "\n\n"
  }

  /** The blocks of `demos`, in order, one after the other. */
  function Blocks(demos: seq<Demo>, reasoning: bool): string {
    if demos == [] then ""
    else Blocks(demos[..|demos| - 1], reasoning) + Block(demos[|demos| - 1], reasoning)
  }

  /** A demonstration added at the end adds its block at the end. */
  lemma BlocksSnoc(ds: seq<Demo>, d: Demo, reasoning: bool)
    ensures Blocks(ds + [d], reasoning) == Blocks(ds, reasoning) + Block(d, reasoning)
  {
    assert (ds + [d])[..|ds + [d]| - 1] == ds;
  }

  /** `prompt_prefix` after the few-shot loop and `rstrip()`. */
  function FewShotPrefix(demos: seq<Demo>): string {
    RStrip(Blocks(demos, false))
  }

  /** `build_prompt(question, technique, demo_examples, task_name)`, where `cotFile` is what
      `load_cot_demonstrations(task_name)` would read (`None` when it cannot). */
  function Prompt(question: string, technique: string, demos: seq<Demo>, taskName: Option<string>,
                  cotFile: Option<string>): Result<string, PromptError>
  {
    if technique == ZeroShot then Ok("Q: " + question + "\nA:")
    else if technique == FewShot then Ok(FewShotPrefix(demos) + "\n\nQ: " + question + "\nA:")
    else if technique == ChainOfThought then
      if taskName.None? then Err(MissingTaskName)
      else if cotFile.None? then Ok(Blocks(demos, true) + "Q: " + question + "\nA: Let's think step by step.")
      else Ok(Strip(cotFile.value, Space) + "\n\nQ: " + question + "\nA: Let's think step by step.")
    else Err(UnknownTechnique(technique))
  }

  /** The loop that appends one block per demonstration to `prompt_prefix`. */
  method AppendBlocks(demos: seq<Demo>, reasoning: bool) returns (prefix: string)
    ensures prefix == Blocks(demos, reasoning)
  {
    prefix := "";
    for k := 0 to |demos|
      invariant prefix == Blocks(demos[..k], reasoning)
    {
      assert demos[..k + 1] == demos[..k] + [demos[k]];
      BlocksSnoc(demos[..k], demos[k], reasoning);
      if reasoning {
        ConcatAssoc(prefix, FormatExample(demos[k].input, demos[k].target, true), "\n\n");
        prefix := prefix + FormatExample(demos[k].input, demos[k].target, true);
        prefix := prefix + "\n\n";
      } else {
        prefix := prefix + ("Q: " + demos[k].input + "\nA: " + demos[k].target + "\n\n");
      }
    }
    assert demos[..|demos|] == demos;
  }

  /** `build_prompt` as the source runs it, branch by branch. */
  method BuildPrompt(question: string, technique: string, demos: seq<Demo>, taskName: Option<string>,
                     cotFile: Option<string>) returns (r: Result<string, PromptError>)
    ensures r == Prompt(question, technique, demos, taskName, cotFile)
  {
    if technique == ZeroShot {
      return Ok("Q: " + question + "\nA:");
    } else if technique == FewShot {
      var prefix := AppendBlocks(demos, false);
      prefix := RStrip(prefix);
      return Ok(prefix + "\n\nQ: " + question + "\nA:");
    } else if technique == ChainOfThought {
      if taskName.None? {
        return Err(MissingTaskName);
      }
      if cotFile.None? {
        var prefix := AppendBlocks(demos, true);
        return Ok(prefix + "Q: " + question + "\nA: Let's think step by step.");
      }
      var demonstrations := Strip(cotFile.value, Space);
      return Ok(demonstrations + "\n\nQ: " + question + "\nA: Let's think step by step.");
    } else {
      return Err(UnknownTechnique(technique));
    }
  }
}
