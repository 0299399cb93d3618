# Answer extraction and prompt building for BIG-Bench-Hard experiments

This Dafny project models the two pure cores of a study of how BIG-Bench-Hard
(BBH) accuracy grows with model size under zero-shot, few-shot and
chain-of-thought prompting:

- **`extract_answer(response_text, task_name)`** (`src/response_parser.py`)
  turns a model's free-text response into a canonical answer. It picks the rule
  family from the task name:
  - `boolean_expressions` gets three cue-phrase patterns, then a "last whole
    word True/False in the final 150 characters" tail rule;
  - `date_understanding`, `tracking_shuffled_objects_five_objects` and
    `geometric_shapes` get six letter patterns, then a "the whole text is one
    letter" rule;
  - `word_sorting` gets four stages: numbered list, one word per line, a prose
    line among the last 15, and a labelled list.
  - Every task finally falls back to the first non-blank line after
    `answer:`.
  - The first rule that fires wins. Blank input gives `""`.
- **`format_example` and `build_prompt`** (`src/prompt_builder.py`) build the
  prompt string for each technique. A chain-of-thought call without a task
  name, or any unknown technique, raises `ValueError`.

## Layout

- `wrappers.dfy` (`Wrappers`): `Option` and `Result`.
- `text.dfy` (`Text`): the Python `str` operations the core uses.
  - `strip` and `rstrip` with a character class, `split('\n')`, `split()` and
    `' '.join`;
  - `lower`, `upper`, `capitalize`, `isalpha`, `replace`.
- `patterns.dfy` (`Patterns`): each regular expression of
  `response_parser.py` as a matcher.
  - Each matcher is a function that, at a start position, returns the span of
    capture group 1.
  - `Search` models `re.search`: it takes the leftmost start position that
    matches. `SearchFound`, `SearchLeftmost`, `SearchAt`, `SearchNone` and
    `SearchMisses` characterise that search completely.
- `response_parser.dfy` (`ResponseParser`) has two parts.
  - Specification functions: one per rule family, plus `Extract` for the whole
    cascade.
  - The source's loops, as methods: over the pattern lists, over the lines
    (numbered items, single-word lines), and over `reversed(lines[-15:])`.
    `ExtractAnswer` composes them, and each method is proved equal to its
    specification function.
- `parser_properties.dfy` (`ParserProperties`): what each family answers, and
  the priority between its rules.
- `word_sorting_properties.dfy` (`WordSortingProperties`): the same for the
  word-sorting task.
- `self_test.dfy` (`SelfTest`): the ten self-test cases of
  `response_parser.py`, proved as equalities on the literal inputs. `concrete.dfy`
  (`Concrete`) holds the helper lemmas those proofs use.
- `prompt_builder.dfy` (`PromptBuilder`) and `prompt_properties.dfy`
  (`PromptProperties`): the prompts and their properties.

## Regular expressions as matchers

Each pattern is a deterministic scan: it reads optional pieces greedily and
takes alternations in list order. Two facts make this equal to Python's
backtracking matcher here.

- The alternatives of each cue list cannot both match at one position
  (`CueListsExclusive`), so the one that occurs is the one taken (`FirstLitOnly`).
- Where greedy reading could overshoot, the character classes of consecutive
  pieces are disjoint from what must follow them.

The matchers' comments give the argument for each pattern. Some backtracking
effects are modelled explicitly:

- In the labelled-list pattern of line 143, the whitespace may run up to a
  character outside the class. The regex then backs off one whitespace
  character and captures it alone.
- `^...$` under `re.MULTILINE` can end at any line end inside the trailing run
  of `\s`.

`re.IGNORECASE` folds ASCII case, so the letter class `[A-K]` also accepts
`a`–`k`. The model keeps this behaviour, and it matters: the lower-case letter is
upper-cased into an answer. "The answer is because …" answers B, and "The answer
is definitely (C)" answers D. `ParserProperties.AnswerIsLowercase` states the
capture, and `ParserProperties.AnswerIsLowercaseDecides` states the answer for a
response that opens with "answer is " and such a word.

## Where the code and its prose description differ (the model follows the code)

- Word-sorting stage 1 uses `[a-zA-Z]\w+`. An item therefore needs at least two
  word characters, and its first one must be a letter.
- The length test of stage 3 (at least 20 characters) applies to the trimmed
  line. The letter words are found in the untrimmed line.
- Stage 4's `answer:`/`list:`/`result:` is searched anywhere in the text, not at
  the start of a line. The label may also be the tail of a longer word, such as
  "wishlist".
- The fallback's `.strip(',')` removes commas at both ends of the line, not only
  trailing ones.
- Stage 3 answers from the prose line nearest the end, because it scans
  `reversed(lines[-15:])`. The earlier lines are never looked at.

## Model

| member | source | states |
|---|---|---|
| ResponseParser.ExtractAnswer | src/response_parser.py:3-163 | Running the stages in source order, with the loops, gives exactly the cascade `Extract`. |
| ParserProperties.BlankResponse | src/response_parser.py:18-31 | A `None` response, or one made only of whitespace (the empty one included), gives `""` for every task. |
| ParserProperties.OtherTask | src/response_parser.py:154-163 | For a task in none of the families, the answer is the general fallback on the stripped text, or `""` when it is blank. |
| ResponseParser.FirstPatternCapture | src/response_parser.py:44-47 | The loop over a pattern list returns the group of the first pattern, in list order, that `re.search` matches, and `None` when none does. |
| ParserProperties.FirstPatternDecides | src/response_parser.py:44-47 | If pattern k matches and no earlier one does, the list's capture is pattern k's capture. |
| ParserProperties.NoPatternMatches | src/response_parser.py:44-47 | The list captures nothing if and only if no pattern of the list matches. |
| ParserProperties.FirstCaptureFromSome | src/response_parser.py:44-47 | Whatever the list captures is the capture of one of its patterns. |
| ParserProperties.FirstCaptureFromScan | src/response_parser.py:44-47 | The list's capture is the capture of the first matching index, and `None` when there is none. |
| Patterns.BoolCuePhraseAt | src/response_parser.py:40 | A match of the "answer/result/…/therefore is" pattern captures "true" or "false", in any case, between two word boundaries, at or after the start. |
| Patterns.BoolEvaluatesToAt | src/response_parser.py:41 | A match of the "evaluates to/becomes/equals" pattern captures "true" or "false", in any case, between two word boundaries. |
| Patterns.BoolSoTheAnswerAt | src/response_parser.py:42 | A match of the "so/thus/hence the answer is" pattern captures "true" or "false", in any case, between two word boundaries. |
| Patterns.BoolWordAt | src/response_parser.py:40 | The capture group `\b(True or False)\b` at a position captures "true" or "false", in any case, with a word boundary on both sides. |
| Patterns.StarsThenBoolWord | src/response_parser.py:40 | Optional bold stars, whitespace, then "true" or "false" between two word boundaries. The capture lies at or after the start. |
| Text.CapitalizeLowered | src/response_parser.py:47 | `capitalize()` of a word whose lower case is a lower-case word w is w with its first letter upper-cased. |
| ParserProperties.CapitalizedBoolean | src/response_parser.py:47 | `capitalize()` of a captured true/false word is exactly "True" or "False", according to the word. |
| ParserProperties.BooleanPatternCapture | src/response_parser.py:39-47 | Each boolean pattern's capture, capitalised, is "True" or "False". |
| ParserProperties.BooleanCaptureFrom | src/response_parser.py:39-47 | The first capture of the boolean list, capitalised, is "True" or "False". |
| ParserProperties.BooleanCueDecides | src/response_parser.py:38-47 | For the boolean task, the first cue pattern that matches the stripped text decides the answer: its capture, capitalised. |
| ResponseParser.LastPart | src/response_parser.py:49 | `response_text[-150:]` is the suffix of the text of length min(length, 150). |
| ResponseParser.LastWholeWordBelow | src/response_parser.py:50-54 | The result is -1 or a position where the word occurs as a whole word, and the word occurs whole at no later position below the bound. |
| ParserProperties.WholeWordsDisjoint | src/response_parser.py:50-51 | Two whole-word occurrences of "true" (or of "false") never overlap, so `finditer` finds them all. |
| ParserProperties.TrueFalseApart | src/response_parser.py:53-59 | "true" and "false" never start at the same position, so the last positions never tie unless both are -1. |
| ParserProperties.BooleanTailMeaning | src/response_parser.py:49-59 | The tail rule gives "True" iff some whole "true" in the last 150 characters has no whole "false" after it. It gives "False" in the symmetric case, and nothing iff neither word occurs. |
| ParserProperties.BooleanResult | src/response_parser.py:38-59 | For non-blank text on the boolean task, the first matching cue answers its word, capitalised. With no cue, the tail rule answers its word. With neither, the general fallback answers (lines 154-163). Only the fallback can answer something other than "True" or "False". |
| Patterns.LetterAt | src/response_parser.py:69 | `([A-K])` under IGNORECASE captures one character from a–k or A–K. |
| Patterns.ChoiceAnswerIsAt | src/response_parser.py:69 | A match of "answer/option/… is" followed by a letter captures one letter from A to K, in either case. |
| Patterns.ChoiceSoTheAnswerAt | src/response_parser.py:70 | A match of "so/therefore/thus/hence the answer is" captures one letter from A to K. |
| Patterns.ChoiceParenthesizedAt | src/response_parser.py:71 | A match of `\(([A-K])\)` captures one letter from A to K. |
| Patterns.ChoiceBoldParenthesizedAt | src/response_parser.py:72 | A match of `\*\*\(([A-K])\)\*\*` captures one letter from A to K. |
| Patterns.ChoiceBoxedAt | src/response_parser.py:73 | A match of the "final answer … boxed" pattern captures one letter from A to K. |
| Patterns.ChoiceLoneLetterAt | src/response_parser.py:74 | A match of the whole-line letter pattern (MULTILINE `^…$`) captures one letter from A to K. |
| ParserProperties.BoldParenthesizedRedundant | src/response_parser.py:71-72 | Whenever the bold `**(X)**` pattern matches, the plain `(X)` pattern before it matches too, so the bold pattern never decides. |
| ParserProperties.ChoiceLetterUpper | src/response_parser.py:80 | Upper-casing a captured letter gives one of "ABCDEFGHIJK". |
| ParserProperties.ChoicePatternCapture | src/response_parser.py:77-80 | Each letter pattern's capture, upper-cased, is a single letter of "ABCDEFGHIJK". |
| ParserProperties.ChoiceCaptureFrom | src/response_parser.py:77-80 | The first capture of the letter list, upper-cased, is a single letter of "ABCDEFGHIJK". |
| ParserProperties.ChoiceCueDecides | src/response_parser.py:64-80 | For the three multiple-choice tasks, the first letter pattern that matches decides the answer: its capture, upper-cased. |
| ParserProperties.AnswerIsLowercase | src/response_parser.py:69 | Under IGNORECASE, a lower-case letter a to k right after "answer is " is captured as the choice letter, even when it only starts a word. |
| ParserProperties.AnswerIsLowercaseDecides | src/response_parser.py:64-80 | A multiple-choice response opening with "answer is " and a word starting with a to k answers that letter upper-cased, e.g. "answer is because" gives B. |
| ParserProperties.ChoiceRuleLetter | src/response_parser.py:64-84 | Whatever the multiple-choice rule answers, through a pattern or the cleaned text, is one letter A–K. |
| ParserProperties.ChoiceResult | src/response_parser.py:64-84 | For non-blank text and a multiple-choice task, the answer is a single letter A–K from the rule, or the general fallback when the rule finds nothing. |
| Text.Split | src/response_parser.py:93 | `split('\n')` gives at least one piece, and no piece holds the separator. |
| Text.SplitJoin | src/response_parser.py:93 | Joining the pieces of `split(sep)` with the separator gives back the text. |
| Text.JoinSplit | src/response_parser.py:93 | Splitting a join of separator-free pieces gives back the pieces. |
| Patterns.NumberedItem | src/response_parser.py:98 | `^\s*\d+[\.\)]\s+([a-zA-Z]\w+)` captures a maximal run of at least two word characters. The run starts with an ASCII letter. Before it come whitespace, one or more digits, `.` or `)`, and at least one whitespace character. |
| WordSortingProperties.NumberedItemDigitWord | src/response_parser.py:98 | A line of a digit, ". " and then letters captures exactly those letters. |
| WordSortingProperties.ItemOfNumbered | src/response_parser.py:97-100 | Such a line contributes exactly its word to the numbered items. |
| ResponseParser.CollectNumberedItems | src/response_parser.py:96-100 | The loop over the lines collects exactly the numbered items, in line order. |
| WordSortingProperties.NumberedItemsFromTokens | src/response_parser.py:96-103 | Every numbered item is a non-empty word without whitespace, so joining and re-splitting keeps them. |
| ResponseParser.CollectSingleWordLines | src/response_parser.py:106-111 | The loop collects exactly the stripped lines that are alphabetic and longer than one character, in line order. |
| WordSortingProperties.SingleWordLinesFromTokens | src/response_parser.py:106-114 | Every collected single-word line is a non-empty word without whitespace. |
| Patterns.LetterWordAt | src/response_parser.py:124 | At a word boundary, `\b[a-zA-Z]{2,}\b` matches a run of at least two ASCII letters. |
| Patterns.LetterWordsRuns | src/response_parser.py:124 | `findall(r'\b[a-zA-Z]{2,}\b')` returns, in order, exactly the maximal word-character runs that have at least two characters, all ASCII letters. |
| Patterns.LetterWordsAtRun | src/response_parser.py:124 | At the start of a word-character run, `findall` keeps the run if it is all letters and at least two long, and then continues after the run. |
| WordSortingProperties.LetterWordsTokens | src/response_parser.py:124 | Every such word is a non-empty word without whitespace. |
| ResponseParser.RemoveStopWords | src/response_parser.py:136 | The filter keeps only words of the input whose lower case is not a stop word. |
| WordSortingProperties.RemoveStopWordsKeeps | src/response_parser.py:136 | It keeps every input word that is not a stop word. |
| ResponseParser.ScanProseLines | src/response_parser.py:119-140 | The reverse walk over the last 15 lines gives exactly stage 3's answer. |
| WordSortingProperties.ProseFromStep | src/response_parser.py:119-140 | The line nearest the end answers if it is a prose line: trimmed length at least 20, and at least four letter words left after dropping stop words. Otherwise the walk moves one line up. |
| WordSortingProperties.ProseFromNone | src/response_parser.py:119-140 | The walk over a range of lines finds nothing iff no line of the range is a prose line. |
| WordSortingProperties.ProseFromAt | src/response_parser.py:119-140 | The walk answers with the filtered words of the last prose line of the range. |
| WordSortingProperties.ProseLineWords | src/response_parser.py:124-140 | A prose line yields at least four words, all without whitespace and none a stop word. |
| WordSortingProperties.ProseFromResult | src/response_parser.py:119-140 | Any answer of the walk has at least four words, none a stop word, and is the filtered words of some prose line of the range. |
| WordSortingProperties.ProseWordsNone | src/response_parser.py:119 | Stage 3 finds nothing iff none of the last 15 lines is a prose line. |
| WordSortingProperties.ProseWordsAt | src/response_parser.py:119-140 | Otherwise the last prose line answers, and it lies among the last 15 lines. |
| WordSortingProperties.ProseWordsNoStopWords | src/response_parser.py:130-140 | Stage 3's answer has at least four words, none of them a stop word in any case. |
| Patterns.LabeledListAt | src/response_parser.py:143 | A match of the labelled-list pattern ("answer", "list" or "result", an optional colon, whitespace) captures a non-empty run of word characters, whitespace and commas. |
| ResponseParser.AlphaWords | src/response_parser.py:147 | The filter keeps only input words that are alphabetic and longer than one character. |
| WordSortingProperties.AlphaWordsTokens | src/response_parser.py:147 | Every kept word is a non-empty word without whitespace. |
| Text.Replace | src/response_parser.py:146 | `replace(',', ' ')` changes every comma into a space and keeps every other character. |
| Text.SplitWsRuns | src/response_parser.py:146 | `split()` returns the maximal runs of non-whitespace characters, in order. |
| Text.RunsAt | src/response_parser.py:146 | A run of class characters starting at a position is the first piece, up to the first character outside the class, and the rest follows it. |
| Text.SplitWsJoin | src/response_parser.py:103 | Splitting `' '.join(words)` on whitespace gives back the words, when each is a token: at least two characters, all of them word characters. |
| WordSortingProperties.WordSortingAnswer | src/response_parser.py:92-149 | The word-sorting answer is the single-space join of at least four words. Those words come from the first stage, in the order 1, 2, 3, 4, that found enough. |
| WordSortingProperties.WordSortingNothing | src/response_parser.py:92-149 | The word-sorting rule gives nothing iff each of its four stages found fewer than four words. |
| WordSortingProperties.WordSortingResult | src/response_parser.py:92-163 | For non-blank text, the word-sorting task answers with the rule's words, or with the general fallback when the rule gives nothing. |
| Patterns.AnswerColonAt | src/response_parser.py:154 | `answer:\s*(.*)` under DOTALL matches exactly where "answer:" occurs in any case. Its capture starts after the whitespace that follows, at a non-space character or the end, and runs to the end of the text. |
| ResponseParser.FirstNonBlankFrom | src/response_parser.py:158 | This finds the first piece that is not blank after stripping, with all earlier pieces blank. It is `None` exactly when every piece is blank. |
| ResponseParser.Fallback | src/response_parser.py:154-163 | The fallback answer never contains a line feed. |
| ParserProperties.FallbackNoLabel | src/response_parser.py:154-163 | Without a case-insensitive "answer:" in the text, the fallback gives `""`. |
| ParserProperties.FallbackLine | src/response_parser.py:154-159 | With one, the fallback gives the first non-blank line after the leftmost "answer:". That line is stripped of whitespace and then of commas, and has no line feed. The fallback gives `""` when there is no such line. |
| Patterns.LitAtMeaning | src/response_parser.py:45 | A literal matches case-insensitively at a position iff every character there lower-cases to the literal's character. |
| Patterns.FirstLitMeaning | src/response_parser.py:40 | An alternation of literals matches at the end of its first alternative that matches, and at no end when none does. |
| Patterns.CueListsExclusive | src/response_parser.py:40-42 | In each alternation of the patterns, any two branches differ at a position both reach, so no two can occur at the same place. |
| Patterns.FirstLitOnly | src/response_parser.py:69 | In such an alternation, whichever branch occurs at a position is the one taken, and the match ends where that branch ends. |
| Patterns.MatchAt | src/response_parser.py:45 | A pattern's match at a position captures a span within the text, after that position, with the pattern's capture property. |
| Patterns.Search | src/response_parser.py:45 | `re.search` captures a span within the text with the pattern's capture property. |
| Patterns.SearchFound | src/response_parser.py:45 | The search's match is the pattern's match at the position it reports. |
| Patterns.SearchLeftmost | src/response_parser.py:45 | No position before the reported one matches. |
| Patterns.SearchAt | src/response_parser.py:45 | A matching position with no match before it is what the search reports. |
| Patterns.SearchNone | src/response_parser.py:45 | When the search fails, no position matches. |
| Patterns.SearchMisses | src/response_parser.py:45 | When no position matches, the search fails. |
| Text.StripSlice | src/response_parser.py:28 | `strip()` returns the slice `s[i..j]` where every character before `i` and from `j` on is in the class, and, unless the slice is empty, its first and last characters are not. |
| Text.StripEmpty | src/response_parser.py:30 | The stripped text is empty iff every character is in the class. |
| Text.LowerStr | src/response_parser.py:136 | `lower()` lower-cases each character and keeps the length. |
| Text.UpperStr | src/response_parser.py:80 | `upper()` upper-cases each character and keeps the length. |
| Text.IsSpace | src/response_parser.py:28 | The whitespace `strip()`, `split()` and `\s` remove is exactly tab, LF, VT, FF, CR, 0x1C–0x1F and space. |
| Text.AllLettersMeaning | src/response_parser.py:110 | `AllLetters` holds iff every character is an ASCII letter (vacuously for ""). `isalpha()` is `AllLetters` of a non-empty string. |
| Text.RStrip | src/prompt_builder.py:98 | `rstrip()` returns a prefix that does not end in whitespace, and only whitespace is removed after it. |
| SelfTest.SelfTestBooleanMarkdown | src/response_parser.py:176-181 | "The final result is **True**." for `boolean_expressions` gives "True". |
| SelfTest.SelfTestBooleanCot | src/response_parser.py:182-187 | The three-step response ending in "Therefore, the answer is False" gives "False". |
| SelfTest.SelfTestBooleanSimple | src/response_parser.py:188-193 | "So the result is True." gives "True". |
| SelfTest.SelfTestChoiceStandard | src/response_parser.py:196-201 | "So the answer is (C)." for `date_understanding` gives "C". |
| SelfTest.SelfTestChoiceVerbose | src/response_parser.py:202-207 | "Therefore, the correct option is (F)." for `geometric_shapes` gives "F". |
| SelfTest.SelfTestChoiceLatex | src/response_parser.py:208-213 | "The final answer is: $\boxed{(D)}$" gives "D". |
| SelfTest.SelfTestWordCommas | src/response_parser.py:216-221 | "Answer: abdominal, address, berry, bounty" for `word_sorting` gives "abdominal address berry bounty". |
| SelfTest.SelfTestWordNumbered | src/response_parser.py:222-227 | The numbered list "1. bedtime" … "5. kenney" gives "bedtime boon bottle chapati kenney". |
| SelfTest.SelfTestWordProse | src/response_parser.py:228-233 | "Here are the words in order: apple banana cherry date" gives "apple banana cherry date". |
| SelfTest.SelfTestWordLines | src/response_parser.py:234-239 | The one-word lines after "Sorted alphabetically:" give "apple banana cherry date elder". |
| PromptProperties.FormatExampleReasoning | src/prompt_builder.py:65-71 | An example is "Q: ", the input, "\nA: " and the target. With reasoning, "Let's think step by step. " comes before the target. |
| PromptProperties.ZeroShotPrompt | src/prompt_builder.py:87-89 | Zero-shot is "Q: " + question + "\nA:", whatever the demonstrations. |
| PromptBuilder.AppendBlocks | src/prompt_builder.py:93-95 | The loop that appends one block per demonstration builds exactly the blocks, in order. |
| PromptBuilder.BlocksSnoc | src/prompt_builder.py:94-95 | Adding a demonstration at the end adds its block at the end. |
| PromptProperties.BlocksAppend | src/prompt_builder.py:94-95 | The blocks of two lists together are the blocks of each list, one after the other. |
| PromptProperties.BlocksCons | src/prompt_builder.py:111-114 | The blocks start with the first demonstration's block. |
| PromptProperties.Examples | src/prompt_builder.py:95 | There is one formatted example per demonstration, in order. |
| PromptProperties.BlocksJoin | src/prompt_builder.py:93-95 | The few-shot blocks are the examples joined by blank lines, followed by one blank line. |
| PromptProperties.RStripSpaces | src/prompt_builder.py:98 | `rstrip()` removes a whitespace tail, and nothing more when the text before it ends in a non-space. |
| PromptProperties.FewShotJoined | src/prompt_builder.py:91-99 | When the last target is non-empty and does not end in whitespace, few-shot is the examples joined by blank lines, a blank line, and the question. |
| PromptProperties.FewShotEmpty | src/prompt_builder.py:93-99 | Few-shot without demonstrations is "\n\nQ: " + question + "\nA:". |
| PromptProperties.CotWithFile | src/prompt_builder.py:117-119 | Chain of thought with a demonstrations file is the stripped file content, a blank line, the question and "A: Let's think step by step.". |
| PromptProperties.CotFallback | src/prompt_builder.py:108-115 | Without the file, each demonstration is written with the step-by-step cue and a blank line, in order, then the question and the cue. |
| PromptProperties.PromptErrors | src/prompt_builder.py:101-122 | `ValueError` is raised exactly for chain of thought without a task name and for any technique other than the three. Every other call builds a prompt. |
| PromptProperties.PromptEnds | src/prompt_builder.py:87-122 | Every prompt that builds ends with "Q: " + question + "\nA:". For chain of thought it ends with "\nA: Let's think step by step." instead. |
| PromptBuilder.BuildPrompt | src/prompt_builder.py:73-122 | Building the prompt, with the loops, gives exactly the specification `Prompt`. |

## Left out

- Reading files is not modelled. `load_cot_demonstrations` (src/prompt_builder.py:19-51) becomes the `cotFile` parameter of `BuildPrompt`: the file's content, or `None` when it is missing or unreadable. The `strip()` of line 39 is applied inside the model. `load_bbh_task` reads JSON and is not part of this model.
- The `print` warnings of `format_example` and `build_prompt` are not modelled. They are output only and do not change the result.
- `extract_answer` accepts any Python object. The model takes `Option<string>`: `None` stands for Python `None`, and also for the float NaN that lines 22-25 map to `""`. The `str()` coercion of other non-string values is not modelled.
- A demonstration without an `input` or `target` key raises `KeyError` in Python. The model's `Demo` always has both fields.
- `format_example` (src/prompt_builder.py:53-71) and `build_prompt` (lines 89-119) put the question and each demonstration's `input` and `target` into f-strings. A value that is not a string, such as a number or a boolean target, is converted by `str()` there. The model's question and `Demo` fields are strings, so that conversion is not modelled.
- Characters are ASCII only. Python's `isalpha`, `\w`, `\s`, `lower` and `upper` also accept non-ASCII letters and spaces. The model keeps the ASCII behaviour and treats every other character as neither a letter nor whitespace.
- Only the regular expressions of `response_parser.py` are modelled, each as its own matcher. The general `re` engine is not modelled.
- `random`, the model API clients, data collection, analysis and the scripts are not part of this model.
- ResponseParser.Fallback: its own contract states only that the answer is one line. What it answers is stated by `ParserProperties.FallbackLine` and `FallbackNoLabel`.
