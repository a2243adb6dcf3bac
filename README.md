# Blood-test report tools, modelled in Dafny

This project models the tool functions of a small multi-agent blood-test analysis
application (`tools.py`):

- **`BloodTestReportTool.read_data_tool`** loads a PDF through a document loader.
  It strips each page's text of leading and trailing whitespace and appends the
  stripped text to the report, always followed by `"\n\n"`. It returns the report.
  When loading raises, it returns `"Error reading PDF file: "` followed by the
  exception's message instead. The tool never raises.
- **`NutritionTool.analyze_nutrition_tool`** runs a clean-up loop that deletes one
  space out of every pair of consecutive spaces in the report text. It then
  ignores that result and returns a fixed placeholder sentence.
- **`SimpleSearchTool.search`** and **`ExerciseTool.create_exercise_plan_tool`**
  are placeholders that return canned strings.

Modules:

- `Text` (`text.dfy`): Python's argument-less `str.strip()`, built from `TrimStart`
  (`lstrip`) and `TrimEnd` (`rstrip`). It uses the exact set of characters that
  Python's `str.isspace()` accepts. Lemmas show that `strip` keeps a contiguous
  piece of its input and cuts off only whitespace. They also show that the kept
  piece is trimmed, that a padded text strips back to itself, and that stripping
  is idempotent.
- `BloodTestReportTool` (`report.dfy`): the page loader is the parameter
  `load: string -> LoadOutcome`. A `LoadOutcome` is either `Loaded(docs)` or
  `Raised(message)`. The path defaults to `"data/sample.pdf"`, as in the source.
  The method `ReadDataTool` keeps the source's accumulating `for` loop. It is
  proved equal to the pure `ReadResult`, which in turn is `Assemble` applied to
  the stripped page texts. Lemmas cover how reports concatenate, where each page
  sits, the total length, the trailing separator, and the zero-page, one-page and
  failure cases.
- `NutritionTool` (`nutrition.dfy`): the `while` loop is the method
  `CollapseDoubleSpaces`. It keeps the source's index `i`, the deletion
  `processed[:i] + processed[i+1:]` and the termination measure
  `|processed| - i`. It is proved equal to `CollapseRuns`, the pure function that
  replaces every maximal run of spaces with one space. Lemmas about `CollapseRuns`
  show the following:
  - no double space is left;
  - a string is a fixed point exactly when it has no double space;
  - characters other than spaces are kept, in order;
  - the result is a subsequence of the input;
  - each run of spaces becomes exactly one space.
- `SimpleSearchTool`, `ExerciseTool` (`placeholders.dfy`): the two canned answers.

Behaviour of the code worth noting:

- The separator follows every page, including the last (`tools.py:26`). So a
  one-page report is `strip(T) + "\n\n"` (`SinglePage`), and every non-empty
  report ends in the separator (`EndsWithSeparator`).
- The double-space loop terminates and collapses each run of spaces to one space
  (`CollapseDoubleSpaces`, `CollapseKeepsOneSpacePerRun`).
  Python's slice `s[i:i+2]` is clipped at the end of the string, so a last
  character alone never equals `"  "`. The model states this as the guard
  `i + 2 <= |processed|`.

## Model

| member | source | states |
|---|---|---|
| `Text.TrimStartIsSuffix` | tools.py:25 | the leading-whitespace cut of `strip` keeps a suffix of the text, removes only whitespace, and what it keeps does not start with whitespace |
| `Text.TrimEndIsPrefix` | tools.py:25 | the trailing-whitespace cut of `strip` keeps a prefix, removes only whitespace, and what it keeps does not end with whitespace |
| `Text.StripIsTrimmed` | tools.py:25 | `strip(s)` is the contiguous piece of `s` that starts after its leading whitespace; everything removed on either side is whitespace, and the result neither starts nor ends with whitespace |
| `Text.TrimStartPadded` | tools.py:25 | removing leading whitespace from whitespace followed by a text that does not start with whitespace gives that text |
| `Text.TrimEndPadded` | tools.py:25 | removing trailing whitespace from a text that does not end with whitespace, followed by whitespace, gives that text |
| `Text.StripPadded` | tools.py:25 | a trimmed text padded with any whitespace on both sides strips to itself (e.g. `"   Hello World   \n"` gives `"Hello World"`), and an all-whitespace page strips to `""` |
| `Text.StripIdempotent` | tools.py:25 | stripping twice equals stripping once |
| `BloodTestReportTool.ReadDataTool` | tools.py:10-30 | the tool calls the loader on the given path (default `"data/sample.pdf"`), and its accumulation loop returns exactly `ReadResult` of the outcome: the assembled report of stripped pages on success, the error string on failure; no failure escapes |
| `BloodTestReportTool.Assemble` | tools.py:22-28 | the accumulated report is empty exactly when there are no pages |
| `BloodTestReportTool.AssembleAppend` | tools.py:22-28 | accumulating two runs of texts gives the two accumulations one after the other |
| `BloodTestReportTool.ReportAppend` | tools.py:22-28 | the report of two runs of pages is the two reports concatenated: the report is built page by page, in page order |
| `BloodTestReportTool.PageInPlace` | tools.py:23-26 | for every page `k`, the report is the report of the pages before `k`, then `strip(page k)`, then `"\n\n"`, then the report of the pages after `k` |
| `BloodTestReportTool.ReportLength` | tools.py:25-26 | the report's length is the sum over pages of the stripped text's length plus 2 |
| `BloodTestReportTool.EndsWithSeparator` | tools.py:26 | a report with at least one page ends in `"\n\n"`; the separator follows the last page too |
| `BloodTestReportTool.SinglePage` | tools.py:22-28 | a one-page document gives `strip(text) + "\n\n"`, not the bare stripped text |
| `BloodTestReportTool.NoPages` | tools.py:22-28 | a successfully loaded document with no pages gives the empty string, not an error |
| `BloodTestReportTool.LoadFailure` | tools.py:29-30 | a load that raises with message `m` gives exactly `"Error reading PDF file: " + m` |
| `NutritionTool.DropSpaces` | tools.py:50-54 | removing a leading run of spaces keeps a suffix that does not start with a space |
| `NutritionTool.CollapseRuns` | tools.py:50-54 | collapsing runs of spaces never lengthens the text, empties only the empty text, and keeps the first character |
| `NutritionTool.CollapseDoubleSpaces` | tools.py:46-54 | the `while` loop ends (each pass shortens `processed` or advances `i`), its result is `CollapseRuns(data)`, and no two consecutive spaces are left; the loop keeps "no double space starts before `i`" |
| `NutritionTool.DeleteStep` | tools.py:51-52 | deleting the first of two spaces at `i` keeps the text before `i` and its freedom from double spaces, and leaves the collapse of the rest unchanged |
| `NutritionTool.AdvanceStep` | tools.py:53-54 | when no double space starts at `i`, advancing `i` moves that character from the rest into the finished prefix without changing the overall collapse |
| `NutritionTool.SkipDoubledSpace` | tools.py:51-52 | of two leading spaces the first can be deleted without changing the collapse |
| `NutritionTool.KeepFirst` | tools.py:53-54 | a first character that does not start a double space is kept by the collapse |
| `NutritionTool.AnalyzeNutritionTool` | tools.py:44-57 | whatever the report, after running the clean-up loop the tool returns `"Nutrition analysis functionality to be implemented"` |
| `NutritionTool.CollapsedHasNoDoubleSpace` | tools.py:50-54 | the collapsed text contains no two consecutive spaces |
| `NutritionTool.CollapseFixedPoint` | tools.py:50-54 | a text is returned unchanged exactly when it has no two consecutive spaces |
| `NutritionTool.DropSpacesKeeps` | tools.py:50-54 | removing a leading run of spaces removes no other character and no run other than the one it continues |
| `NutritionTool.CollapseKeepsNonSpaces` | tools.py:50-54 | every character other than a space is kept, in order |
| `NutritionTool.CollapseKeepsOneSpacePerRun` | tools.py:50-54 | the collapsed text has as many runs of spaces as the input, and its length is the number of other characters plus the number of runs: each run became exactly one space |
| `NutritionTool.CollapseIsSubsequence` | tools.py:50-54 | the collapse only deletes characters (its result is a subsequence of its input); with `CollapseKeepsNonSpaces`, only spaces are deleted |
| `SimpleSearchTool.Search` | tools.py:34-36 | the canned answer is `"Search results for: "`, the query verbatim, then the fixed note about the missing web search |
| `SimpleSearchTool.SearchInjective` | tools.py:34-36 | different queries give different answers, so the query can be read back |
| `ExerciseTool.CreateExercisePlanTool` | tools.py:61-63 | the same placeholder, `"Exercise planning functionality to be implemented"`, whatever the report |

## Left out

- `agents.py` and `task.py` are not part of this model. They only build agent and task objects of an external orchestration framework from constant strings, rate limits and an API key read from the environment.
- PDF parsing itself is not modelled. `PyPDFLoader(file_path=path).load()` is a foreign library doing file I/O, so it is the parameter `load`: a total function from path to the pages or the raised message.
- Exception classes and `str(e)` are not modelled: the message is an opaque string.
- The loop body of `read_data_tool` cannot raise, because `strip` and string concatenation do not fail. So a failure is always a failure of the load as a whole, and no partial report exists.
- `load_dotenv()` and the module-level instances `blood_test_tool` and `search_tool` are left out. They are import-time side effects with no behaviour to state.
- The tool classes hold no state, so their methods are module-level members here. The `self` parameter has no counterpart.
- `SimpleSearchTool.search` formats any object with `format(query, "")`, which for a string is the string itself. The model takes the query as a string.
- Strings are sequences of Unicode scalar values, so a Python string holding a lone surrogate cannot be represented. Neither `strip` nor the collapse treats a surrogate specially, since it is neither whitespace nor a space.
- The whitespace set is the one of current Unicode data. Python versions built on older Unicode tables classify a few characters differently; for example, U+180E counted as whitespace before Unicode 6.3.
