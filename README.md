# TinyTest pipeline core, modelled in Dafny

TinyTest asks small language models to write pytest unit tests for small
Python modules. It runs those tests and asks the model to repair failures.
It then merges and reports the results. This project models the
deterministic core of that pipeline and proves properties about it:

* **Failure tagging** (`Tagging.dfy`). A pytest log is classified into one of
  six failure types by a fixed-priority cascade of marker tests.
* **Prompt preparation and output cleaning** (`TestGeneration.dfy`). This covers:
  * the table of prompt templates and its unknown-key error;
  * the heuristic that picks a target function name from the module's first `def` line;
  * the cleaner that removes markdown fences, text before the first code line,
    and text after the last test line.
* **Test consolidation** (`Consolidate.dfy`, `ConsolidateFacts.dfy`,
  `ConsolidateRun.dfy`). Each generated test file is seen through its parse
  result. The merge:
  * keeps every import once, in first-seen order;
  * keeps each `test_` function from the last file that defines it;
  * emits the functions sorted by name, each copied from its source lines.

  Around the merge sit the per-module driver (metadata check, discovery of
  the raw and `repaired_N` files, copy or merge) and the command's main loop
  (summary records, path-to-directory mapping, duplicate module ids, exit code).
* **The pipeline driver** (`Pipeline.dfy`). This covers:
  * module selection by `--range`;
  * parsing of the `--range` argument;
  * the repair-and-retry loop and the metadata it records;
  * the final status.
* **Result analysis** (`Analyze.dfy`). The counters that `analyze_runs` folds
  over the metadata files.

Supporting modules:
* `Types.dfy` defines `Option` and `Result`.
* `Seqs.dfy` holds sequence facts, notably `Dedup`, the first-occurrence
  de-duplication that a Python list with a `not in` guard performs.
* `PyStr.dfy` models the Python `str` builtins the core uses: `strip`,
  `lower`, `split`, `join`, `startswith`, `in`, `replace`, `int()`, `str(n)`,
  and `sorted` on strings.

Operations that loop in the source are methods with loop invariants. Each is
proved equal to a specification function (`ensures out == CleanedText(text)`,
`ensures text == ConsolidatedText(files)`, and so on). The properties the
source relies on are then proved about those functions as lemmas.

Notes on the program's own behaviour that the model keeps:

* The metadata `run_pipeline.py` writes has no `module_id`, `prompt_id` or
  `final_failure_type`, although the analysis reads them. The analysis
  therefore records every module under module and prompt `"unknown"` with no
  failure type (`Analyze.PipelineMetadataReadsUnknown`).
* The final status is `passed` if **any** attempt passed. The retry loop
  stops at the first pass, so this is also the status of the last attempt
  (`Pipeline.FinalStatusIsLast`).
* The consolidated file puts a blank line after the imports only when there
  are imports.
* A module with a single test file is copied unchanged by `process_module`,
  not by the merge function itself (`ConsolidateRun.SingleFileCopied`).

## Model

| member | source | states |
|---|---|---|
| Tagging.TagNameInjective | scripts/utils/tagging.py:3-10 | the six failure-type names are pairwise distinct |
| Tagging.TagFailure | scripts/utils/tagging.py:13-25 | the returned type's marker is present in the log, and no type checked earlier in the cascade has its marker present |
| Tagging.ImportMarkerDominates | scripts/utils/tagging.py:15-16 | an import marker anywhere in a log makes the tag `import_error`, whatever text surrounds it |
| Tagging.AssertionFailureExactly | scripts/utils/tagging.py:17-18 | the tag is `assertion_failure` iff there is no import marker and the log mentions `assert` together with `failed` or `assertion` |
| Tagging.ExceptionBeforeTimeout | scripts/utils/tagging.py:19-22 | the tag is `exception` iff neither earlier marker applies and an `E   ` line or a traceback appears; a `timeout` tag implies that no exception marker is present |
| Tagging.CollectionErrorIsLast | scripts/utils/tagging.py:23-24 | the tag is `collection_error` iff no earlier marker applies and a collection marker appears |
| Tagging.UnknownExactly | scripts/utils/tagging.py:25 | the tag is `unknown` iff no other type's marker matches; the empty log is `unknown` |
| TestGeneration.TemplateSpec | scripts/test_generation.py:23-28 | a file and variable name are defined exactly for the four template keys |
| TestGeneration.LoadTemplate | scripts/test_generation.py:17-46 | an unknown key is exactly the `UnknownTemplate` error; success iff the key is known, its prompt file exists and binds the variable to a string, and the value is that string; a known key whose file is missing gives `PromptFileNotFound`, and one whose variable is missing or not a string gives `TemplateNotString` |
| TestGeneration.FirstDefIndex | scripts/test_generation.py:54-57 | the index is that of the first line whose stripped text starts with `def `, or the line count when there is none |
| TestGeneration.FirstDefIndexUnique | scripts/test_generation.py:54-57 | any index with the first-`def` property is the one found |
| TestGeneration.DefName | scripts/test_generation.py:56 | the extracted name contains no `(` |
| TestGeneration.TargetFunctionName | scripts/test_generation.py:53-60 | the name is never empty and has no `(`; with no `def` line it is `target_function`; when the first `def` line yields a non-empty name, that name is returned; any other name comes from the first `def` line |
| TestGeneration.DefNameOfSignature | scripts/test_generation.py:55-56 | a line `def <name>(<rest>` with a plain name is a `def` line, and the name extracted from it is `name` |
| TestGeneration.NameOfFirstDef | scripts/test_generation.py:53-60 | in a module whose first `def` line is `def <name>(<rest>`, the heuristic picks `name` |
| PyStr.RemoveAllAbsent | scripts/test_generation.py:56 | removing every occurrence of a pattern leaves a string unchanged when one of the pattern's characters does not occur in it |
| TestGeneration.FunctionName | scripts/test_generation.py:53-60 | the loop with its early `break` computes `TargetFunctionName` |
| TestGeneration.CodeStartIsNoFence | scripts/test_generation.py:112-117 | a line that opens code (`from `, `import `, `def `) is never a fence line |
| TestGeneration.Kept | scripts/test_generation.py:106-120 | the kept lines are a subsequence of the input, contain no fence line and start with a code-start line; they are empty iff no input line starts code (the exact result is `KeptIsNonFenceFromCode`) |
| TestGeneration.KeptShapeSnoc | scripts/test_generation.py:110-120 | one more step of the filter keeps those four properties |
| TestGeneration.FirstCodeStart | scripts/test_generation.py:117 | the index is that of the first line whose stripped text starts with `from `, `import ` or `def `, or the line count when there is none |
| TestGeneration.FirstCodeStartUnique | scripts/test_generation.py:117 | any index with the first-code-line property is the one found |
| TestGeneration.NonFenceSnoc | scripts/test_generation.py:112-114 | dropping the fence lines of a list with one more line adds that line unless it is a fence |
| TestGeneration.KeptSnoc | scripts/test_generation.py:110-120 | one step of the filter: a fence line is dropped, a line before any code that does not start code is dropped, any other line is appended |
| TestGeneration.KeptIsNonFenceFromCode | scripts/test_generation.py:110-120 | the first pass keeps exactly the non-fence lines from the first code line on |
| TestGeneration.KeepCodeLines | scripts/test_generation.py:106-120 | the filtering loop computes `Kept` |
| TestGeneration.LastTestEnd | scripts/test_generation.py:125-130 | the index is that of the last `assert ` / `def test_` line, or -1 when there is none |
| TestGeneration.LastTestEndUnique | scripts/test_generation.py:127-130 | any index with the last-test-line property is the one found |
| TestGeneration.CutAtLastTest | scripts/test_generation.py:124-132 | the result is a prefix of the kept lines that ends at the last test line; with no test line it is all of them |
| TestGeneration.LastCodeLine | scripts/test_generation.py:126-130 | the backward scan returns the last test line's index, or the last index when there is none |
| TestGeneration.CleanedLinesShape | scripts/test_generation.py:104-132 | the cleaned lines are a prefix of the kept lines with no fence; they open with code and end at the last test line when there is one |
| TestGeneration.CleanedFromInput | scripts/test_generation.py:104-120 | every cleaned line is a line of the input |
| TestGeneration.CleanedTextLines | scripts/test_generation.py:122-132 | the output ends in a newline, and splitting it without that newline gives back exactly the cleaned lines |
| TestGeneration.NoCodeGivesNewline | scripts/test_generation.py:117-132 | the output is a lone newline iff no input line starts code |
| TestGeneration.KeptResplit | scripts/test_generation.py:122-125 | joining the kept lines and splitting again gives back the kept lines, or one empty line when none was kept |
| TestGeneration.CutKept | scripts/test_generation.py:126-132 | slicing at the found index equals cutting at the last test line |
| TestGeneration.CutResplit | scripts/test_generation.py:122-132 | joining the re-split lines up to the found index gives the text of the cleaned lines |
| TestGeneration.CleanOutput | scripts/test_generation.py:104-132 | the filtering loop, join, re-split and backward scan compute `CleanedText` |
| Consolidate.Dots | scripts/consolidate_tests.py:97 | the relative-import prefix is exactly `level` dots |
| Consolidate.UnparseImport | scripts/consolidate_tests.py:81-102 | the rendered import is never empty and has the `import …` / `from <dots><module> import …` / `from <dots> import …` shape of its node |
| Consolidate.UnparseKindsDiffer | scripts/consolidate_tests.py:89-101 | an `import` and a `from` statement never render equal |
| Consolidate.UnparseAllAt | scripts/consolidate_tests.py:117-118 | rendering a list of imports renders each import in place |
| Consolidate.PySlice | scripts/consolidate_tests.py:77 | Python slicing: an in-range slice, clipped at the end, and empty when it starts past the end or at its bound |
| Consolidate.ScanEnd | scripts/consolidate_tests.py:68-75 | the scan stops at the first non-blank line indented no deeper than the `def`, or at the end; every line skipped is blank or deeper |
| Consolidate.RecordedSpan | scripts/consolidate_tests.py:59-62 | with an end line recorded, the function is lines `lineno` to `end_lineno` |
| Consolidate.FallbackSpan | scripts/consolidate_tests.py:63-75 | without an end line, the function runs from its `def` up to the first line indented no deeper than the `def` |
| Consolidate.GetFunctionSourceCode | scripts/consolidate_tests.py:47-78 | the loop computes `FunctionSource` |
| Consolidate.ImportsOf | scripts/consolidate_tests.py:35-37 | the collected imports are exactly the top-level import items |
| Consolidate.TestDefsOf | scripts/consolidate_tests.py:35-39 | the collected definitions are exactly the top-level functions whose name starts with `test_` |
| Consolidate.LastDefs | scripts/consolidate_tests.py:39 | every definition's name is a key of the map |
| Consolidate.LastDefsHas | scripts/consolidate_tests.py:39 | a name is a key iff some definition has it |
| Consolidate.LastDefsLast | scripts/consolidate_tests.py:39 | a name maps to its last definition |
| Consolidate.LastDefsKeys | scripts/consolidate_tests.py:33-39 | the keys are the de-duplicated names, in dict insertion order |
| Consolidate.Extract | scripts/consolidate_tests.py:22-44 | a file that does not parse gives nothing; the test names are distinct and are exactly the keys of the test map |
| Consolidate.DefsSnoc | scripts/consolidate_tests.py:38-39 | adding a definition assigns its name and appends the name to the key order only if it is new |
| Consolidate.ExtractTestFunctions | scripts/consolidate_tests.py:22-44 | the loop over the tree computes `Extract` |
| Consolidate.FileTests | scripts/consolidate_tests.py:123-124 | a file contributes a function under each of its test names and no other |
| Consolidate.MergedTestsHas | scripts/consolidate_tests.py:123-124 | a name is merged iff some file defines it |
| Consolidate.SortedNames | scripts/consolidate_tests.py:140 | the emitted names are sorted and distinct |
| Consolidate.SortedNamesHas | scripts/consolidate_tests.py:140 | a name is emitted iff it is merged |
| Consolidate.Sources | scripts/consolidate_tests.py:140-142 | there is a source block for each merged name and no other |
| Consolidate.BlocksAt | scripts/consolidate_tests.py:140-144 | block `k` is the source of name `k` followed by an empty line |
| Consolidate.Layout | scripts/consolidate_tests.py:134-144 | the lines are the imports, a blank line when there are imports, then two lines per function |
| Consolidate.LayoutBlocks | scripts/consolidate_tests.py:134-144 | after the header, line `2k` is name `k`'s source and line `2k+1` is empty |
| Consolidate.FinishText | scripts/consolidate_tests.py:146 | the text ends in a newline and has no surrounding white space |
| Consolidate.ImportStep | scripts/consolidate_tests.py:117-121 | the `any(... == imp_str)` test holds iff the rendering was seen before; the import is kept iff it was not |
| Consolidate.CollectImports | scripts/consolidate_tests.py:117-121 | the kept imports render as the first-seen de-duplication of all renderings so far |
| Consolidate.CollectTests | scripts/consolidate_tests.py:123-124 | each test overwrites any earlier one of its name; new names are appended to the order |
| Consolidate.DistinctImportStrs | scripts/consolidate_tests.py:128-132 | the import strings are the de-duplicated renderings |
| Consolidate.AppendBlocks | scripts/consolidate_tests.py:140-144 | the loop appends each sorted name's source and an empty line |
| Consolidate.Render | scripts/consolidate_tests.py:126-146 | the rendering phase produces `ConsolidatedText` of the files folded so far |
| Consolidate.ExtractedOfFile | scripts/consolidate_tests.py:115 | what `extract_test_functions` returns for one file is that file's import strings, test names and tests |
| Consolidate.FileFolded | scripts/consolidate_tests.py:114-124 | folding one more file keeps the imports, tests and name order equal to the specification of the longer prefix |
| Consolidate.ConsolidateTestFiles | scripts/consolidate_tests.py:105-146 | the whole merge computes `ConsolidatedText` |
| ConsolidateFacts.TestDefsLast | scripts/consolidate_tests.py:35-39 | within a file, a test name maps to its last top-level definition |
| ConsolidateFacts.FileTestsLast | scripts/consolidate_tests.py:35-39 | a file's test map holds that last definition, with the file's own lines |
| ConsolidateFacts.FileNamesAreTestDefs | scripts/consolidate_tests.py:38-39 | a file's test names start with `test_` and name top-level functions of a parsed file |
| ConsolidateFacts.ImportStrsAppend | scripts/consolidate_tests.py:114-121 | import collection over two batches of files is the concatenation of its parts |
| ConsolidateFacts.NamesAppend | scripts/consolidate_tests.py:114-124 | the same holds for the name order |
| ConsolidateFacts.MergedAppend | scripts/consolidate_tests.py:114-124 | merging two batches is the right-biased union of their merges |
| ConsolidateFacts.UnparseableContributesNothing | scripts/consolidate_tests.py:42-44 | removing a file that did not parse leaves the consolidated text unchanged |
| ConsolidateFacts.SameFoldsSameText | scripts/consolidate_tests.py:126-146 | the output depends only on the collected imports, the names and the merged tests |
| ConsolidateFacts.AllImportStrsHas | scripts/consolidate_tests.py:117-121 | an import string is collected iff some file has it |
| ConsolidateFacts.AllNamesHas | scripts/consolidate_tests.py:123-124 | a name is collected iff some file defines it |
| ConsolidateFacts.ImportsOnceInFirstSeenOrder | scripts/consolidate_tests.py:117-135 | the output opens with the imports, each once, ordered by first occurrence |
| ConsolidateFacts.ImportCollected | scripts/consolidate_tests.py:117-135 | every import of every file appears in the output header |
| ConsolidateFacts.LastWriterWins | scripts/consolidate_tests.py:123-124 | a merged name holds the function from the last file that defines it |
| ConsolidateFacts.NameBlock | scripts/consolidate_tests.py:140-144 | each defined name appears exactly once in sorted order, and its block is the source from the last file that defines it |
| ConsolidateFacts.LinesLength | scripts/consolidate_tests.py:137-144 | the output has the header lines plus two lines per name |
| ConsolidateFacts.BlockOfName | scripts/consolidate_tests.py:140-144 | the block at a name's sorted position is that name's source |
| ConsolidateFacts.MergedSource | scripts/consolidate_tests.py:140-142 | a name's source is cut from its last defining file's lines |
| ConsolidateFacts.SortedNamesDefined | scripts/consolidate_tests.py:140 | the output names are sorted, distinct, and exactly those defined by some file |
| ConsolidateFacts.NoFilesGiveNewline | scripts/consolidate_tests.py:137-146 | merging no files gives a lone newline |
| ConsolidateRun.RepairNameInjective | scripts/consolidate_tests.py:184 | distinct repair numbers give distinct file names |
| ConsolidateRun.RawIsNotRepair | scripts/consolidate_tests.py:178-184 | the raw file name is never a repair file name |
| ConsolidateRun.RepairsBounded | scripts/consolidate_tests.py:182-189 | the consecutive repairs found are no more than the files present, so the discovery loop ends |
| ConsolidateRun.RepairsFrom | scripts/consolidate_tests.py:182-189 | the count covers consecutive repair files and stops at the first missing number |
| ConsolidateRun.RepairCountUnique | scripts/consolidate_tests.py:182-189 | any `n` with repairs 1..n present and n+1 missing is the count |
| ConsolidateRun.RepairedPart | scripts/consolidate_tests.py:182-189 | the repairs are listed in number order |
| ConsolidateRun.TestFileList | scripts/consolidate_tests.py:176-189 | the discovery loop computes `TestFiles` |
| ConsolidateRun.TestFilesShape | scripts/consolidate_tests.py:176-189 | the list starts with the raw file iff it exists, then holds every repair up to the first gap and none after it |
| ConsolidateRun.EffectiveId | scripts/consolidate_tests.py:154-174 | the metadata's `module_id` when present, else the id passed in, else the directory's name |
| ConsolidateRun.ProcessModule | scripts/consolidate_tests.py:149-204 | the driver computes `ProcessOutcome`: it fails on missing or unreadable metadata, on a status other than passed, or on no files; otherwise it writes one file |
| ConsolidateRun.ProcessOnlyPassed | scripts/consolidate_tests.py:159-204 | a written module had loaded metadata with status `passed` and at least one test file; the output name and file count follow the effective module id |
| ConsolidateRun.SingleFileCopied | scripts/consolidate_tests.py:195-196 | a single test file is written unchanged |
| ConsolidateRun.PassedModules | scripts/consolidate_tests.py:254 | the kept records are a subsequence of the summary, each passed with a path |
| ConsolidateRun.PassedModulesHas | scripts/consolidate_tests.py:254-258 | there is a kept record iff some record passed with a path |
| ConsolidateRun.ModuleDirKey | scripts/consolidate_tests.py:284-290 | the (timestamp, directory) pair it derives contains no `/` |
| ConsolidateRun.ModuleDirKeyOfJoin | scripts/consolidate_tests.py:284-288 | for a path of two or more components, the key is the first and the second-to-last component |
| ConsolidateRun.ModuleDirKeyNoSlash | scripts/consolidate_tests.py:285-290 | a path without `/` is skipped |
| ConsolidateRun.MainFoldCounts | scripts/consolidate_tests.py:271-298 | the consolidated count equals the number of distinct module ids marked processed |
| ConsolidateRun.MainFoldIds | scripts/consolidate_tests.py:274-298 | each processed id comes from a record with a truthy `module_id` |
| ConsolidateRun.ConsolidateAll | scripts/consolidate_tests.py:233-304 | the main loop computes `MainOutcome`: exit code, output files and count |
| ConsolidateRun.MainExitCode | scripts/consolidate_tests.py:233-304 | exit code 0 iff the summary loads and some record passed with a path; then `__init__.py` exists and the count is the number written; otherwise the code is 1 and nothing is written |
| ConsolidateRun.WriteAllKeeps | scripts/consolidate_tests.py:263-265 | writing module outputs never removes an existing file, so `__init__.py` survives |
| Pipeline.Globbed | scripts/run_pipeline.py:19 | every globbed name matches `module_*.py` |
| Pipeline.GlobbedHas | scripts/run_pipeline.py:19 | a name is globbed iff it is listed and matches the pattern |
| Pipeline.ModuleFiles | scripts/run_pipeline.py:19 | the module files are sorted and all match the pattern |
| Pipeline.SelectedHas | scripts/run_pipeline.py:22-30 | a file is selected iff it is listed and its integer suffix parses and lies within the given bounds |
| Pipeline.SelectedSubseq | scripts/run_pipeline.py:22-30 | selection keeps the files' order |
| Pipeline.SelectedSorted | scripts/run_pipeline.py:19-30 | the selection stays sorted |
| Pipeline.IterModules | scripts/run_pipeline.py:18-30 | the loop computes `IterModulesSpec` |
| Pipeline.IterModulesSelects | scripts/run_pipeline.py:18-30 | the result is sorted and a subsequence of the sorted module files; with no bound it holds all module files whatever their suffix, and with a bound exactly those in range |
| Pipeline.ParseRange | scripts/run_pipeline.py:46-55 | an absent or empty option sets no bound; every failure is the one `ValueError` message; a set start is `int()` of the first `-`-separated part, which is non-empty, and a set end is `int()` of the second |
| Pipeline.RangeTwoParts | scripts/run_pipeline.py:46-55 | `a-b` sets each present bound from its part, and fails when a present part is not an integer |
| Pipeline.RangeExtraPartsIgnored | scripts/run_pipeline.py:49-53 | parts after the second are ignored |
| Pipeline.RangeNoDash | scripts/run_pipeline.py:49-52 | a range without `-` sets only the start, and fails when it is not an integer |
| Pipeline.RangeForms | scripts/run_pipeline.py:46-55 | `a-b`, `a-` and `-b` give the bounds (a, b), (a, none) and (none, b) |
| Pipeline.Record | scripts/run_pipeline.py:80-85 | an attempt has a failure type iff it failed, and that type is the tag of its log |
| Pipeline.RetryStep | scripts/run_pipeline.py:90-114 | one retry appends the repair's record; the loop stops after a pass and otherwise continues from the repaired file and its log |
| Pipeline.RunModule | scripts/run_pipeline.py:80-117 | the retry loop records exactly the attempts of `Trace`, and the final status is derived from them |
| Pipeline.RepairTraceLength | scripts/run_pipeline.py:87-91 | there are at most `max_retries` repairs, and at least one when retries remain |
| Pipeline.RepairTraceNumbers | scripts/run_pipeline.py:98-107 | repairs are numbered consecutively, with matching file names |
| Pipeline.RepairTraceStops | scripts/run_pipeline.py:112-113 | every repair but the last failed, and a repair trace that ends early ends with a pass |
| Pipeline.RepairTraceChain | scripts/run_pipeline.py:92-114 | each repair works on the previous repair's file and log |
| Pipeline.AttemptsShape | scripts/run_pipeline.py:80-114 | the first attempt is the raw file; repairs follow with numbers 1, 2, …; there are at most 1+max_retries attempts, and only one when the initial run passes or no retries are allowed |
| Pipeline.TraceStops | scripts/run_pipeline.py:112-113 | every attempt but the last failed |
| Pipeline.AttemptsStopAtFirstPass | scripts/run_pipeline.py:87-114 | no attempt passes before the last; an early stop means a pass; each repair follows from its predecessor |
| Pipeline.PipelineMetadata | scripts/run_pipeline.py:73-117 | the string fields written are exactly `module`, `model`, `template` and `final_status`; there is no `module_id`, `prompt_id` or `final_failure_type` |
| Pipeline.FinalStatusIsLast | scripts/run_pipeline.py:117 | `any(passed)` is `passed` iff the last attempt passed, and the status is `passed` or `failed` |
| Analyze.IncCount | scripts/analyze_results.py:51 | a `defaultdict(int)` increment adds one to that key and leaves the others |
| Analyze.IncValid | scripts/analyze_results.py:51 | an increment keeps the counter's key order and map in step |
| Analyze.IncTotal | scripts/analyze_results.py:51 | an increment raises the counter's total by one |
| Analyze.CountFile | scripts/analyze_results.py:44-87 | the per-file body computes `Step` |
| Analyze.AnalyzeRuns | scripts/analyze_results.py:21-92 | the loop over the metadata files computes `AnalyzeSpec` |
| Analyze.StepCounts | scripts/analyze_results.py:50-60 | one file appends its module record and bumps exactly the named status count that matches |
| Analyze.TotalIsStatusSum | scripts/analyze_results.py:50-51 | `total_modules` is the number of module records and the sum of `by_status` |
| Analyze.FailureTypesTruthy | scripts/analyze_results.py:62-63 | only non-empty failure types are counted |
| Analyze.StatusCounted | scripts/analyze_results.py:51 | for every status, `by_status` counts the module entries with that status |
| Analyze.FailureTypeCounted | scripts/analyze_results.py:62-63 | for every non-empty failure type, `by_failure_type` counts the module entries recording it; the empty type is never counted |
| Analyze.StatusCountsMatch | scripts/analyze_results.py:53-60 | `passed`, `failed`, `compiled` and `ran` each count the module records with that status |
| Analyze.NamedStatusesBounded | scripts/analyze_results.py:53-60 | the four named counts together never exceed the module count |
| Analyze.TallyOf | scripts/analyze_results.py:66-77 | a tally's total is its passed plus its failed |
| Analyze.StepTallies | scripts/analyze_results.py:66-77 | one file bumps its model's and its prompt's tally and no other |
| Analyze.TalliesBalanced | scripts/analyze_results.py:66-77 | every `by_model` and `by_prompt` entry has total = passed + failed |
| Analyze.TalliesCount | scripts/analyze_results.py:66-77 | each model's or prompt's tally counts exactly the module records with that key, a non-passed status counting as failed |
| Analyze.TalliesPositive | scripts/analyze_results.py:66-77 | a key appears in a tally only once a module with it was seen |
| Analyze.ModulesFollowFiles | scripts/analyze_results.py:80-87 | the module list holds one record per loadable file, in visiting order |
| Analyze.InfoOfFields | scripts/analyze_results.py:44-87 | a module entry holds each field the file has, `"unknown"` for a missing id, model, prompt or status, no failure type when it is missing, and the file's path |
| Analyze.MissingFieldsDefault | scripts/analyze_results.py:44-48 | a missing field reads as `"unknown"` and the record keeps the file's path |
| Analyze.UnloadableSkipped | scripts/analyze_results.py:40-42 | a file that does not load changes no statistic |
| Analyze.PipelineMetadataReadsUnknown | scripts/analyze_results.py:44-48 | the pipeline's metadata is analysed as module and prompt `"unknown"` with no failure type, keeping its model and status |
| PyStr.Strip | scripts/test_generation.py:55 | `strip` leaves no white space at either end, and yields empty iff the line is all white space |
| PyStr.LStrip | scripts/consolidate_tests.py:66 | `lstrip` removes exactly the leading white space |
| PyStr.Indent | scripts/consolidate_tests.py:66 | the indentation is at most the line length |
| PyStr.LowerConcat | scripts/utils/tagging.py:14 | lower-casing distributes over concatenation |
| PyStr.Split | scripts/run_pipeline.py:49 | `split` gives at least one part, and no part contains the separator |
| PyStr.SplitJoin | scripts/test_generation.py:122-125 | splitting a join of separator-free parts gives the parts back |
| PyStr.JoinSplit | scripts/consolidate_tests.py:29 | joining the pieces of a split gives the string back |
| PyStr.RemoveAll | scripts/test_generation.py:56 | `replace(pat, "")` never lengthens a string and adds no character |
| PyStr.NatToStringInjective | scripts/consolidate_tests.py:184 | distinct numbers print differently |
| PyStr.ParseIntOfNat | scripts/run_pipeline.py:25 | `int()` reads back a printed number |
| PyStr.StrLeTotal | scripts/consolidate_tests.py:140 | the string order is total |
| PyStr.StrLeTrans | scripts/consolidate_tests.py:140 | the string order is transitive |
| PyStr.StrLeAntisym | scripts/consolidate_tests.py:140 | the string order is antisymmetric |
| PyStr.SortStrings | scripts/consolidate_tests.py:140 | `sorted` gives a sorted permutation of its input |
| PyStr.SortStringsHas | scripts/consolidate_tests.py:140 | sorting keeps exactly the members |
| Seqs.Dedup | scripts/consolidate_tests.py:128-132 | the de-duplicated list is distinct and no longer than its input |
| Seqs.DedupHas | scripts/consolidate_tests.py:128-132 | de-duplication keeps exactly the members |
| Seqs.DedupFirstSeen | scripts/consolidate_tests.py:128-132 | de-duplication orders the members by first occurrence |
| Seqs.DedupSnoc | scripts/consolidate_tests.py:131-132 | appending an element extends the de-duplication iff the element is new |

## Left out

- Parsing is abstract: a test file is its text plus its parse result. The result holds import and function nodes with the line numbers the parser records, or is absent when the file does not read or parse. That absence is the merge path's view, where the read happens inside a `try` (scripts/consolidate_tests.py:27-28). `ast.parse` itself is not modelled.
- `ast.get_source_segment` is not modelled. A function's source is the line span that the fallback path cuts. For a top-level `def` this equals the segment, except that the segment's last line stops at the node's end column. The segment therefore drops a comment that trails the last statement.
- `ast.unparse` is modelled by the hand-written fallback renderer. Python 3.9 and later prefer `ast.unparse`, whose rendering of aliases and relative modules is the same.
- Python's `str.lower`, `int()` and string ordering are modelled on code points, in these ways:
  - `lower` maps ASCII letters only. The markers that tagging looks for contain no `k` and end in no `i`, so the two non-ASCII letters that lower-case into ASCII (the Kelvin sign and dotted capital I) cannot change a tag.
  - `int()` accepts ASCII digits only, with optional surrounding white space, a sign and single underscores between digits. Unicode digits are left out.
  - `Path` order is modelled as order on the path strings.
- I/O is not modelled, and the file system is given as data. This covers:
  - `read_text`, `json.load`, `write_text`, `mkdir` and `exists`;
  - `glob` and `rglob`;
  - metadata files, which are a sequence given in the sorted visiting order.
  
  A loaded JSON object is a map from keys to strings. Non-string values, including `None` and non-list `modules`, are left out.
- An exception raised partway through one file's statistics update is not modelled. A file either loads and is fully counted, or is skipped.
- Pipeline.RunModule: model generation, `auto_repair` and `run_pytest` are given as functions. They are `Run.initial` and `Run.repair`. The timestamped run directory and the log files written next to each attempt are left out.
- `build_prompt` is modelled only through its function-name heuristic. Template formatting and the metadata hint are left out.
- `exec` of the prompt files is left out. The files' namespaces are given as maps from variable name to string.
- `print`, `print_summary` and the command-line listing and JSON output of `analyze_results.py` are left out. They only display the computed statistics.
- Exceptions that abort a whole command are left out: the model has no aborted state. Examples are a missing modules directory, the `ValueError` of a bad `--range` (modelled as a `Failure` value of `ParseRange`), an error of model generation or of pytest in the pipeline loop (scripts/run_pipeline.py:63-70), and any file read or write error outside a `try`.
- ConsolidateRun.ProcessModule: a lone test file that cannot be read raises out of `main` in the source (scripts/consolidate_tests.py:196 is outside any `try`). The model treats every present file as readable and copies its text.
- Analyze.AnalyzeRuns: `by_model` and `by_prompt` are Dafny maps, so the insertion order of their keys is not kept (`by_status` and `by_failure_type` keep it as counter key order). Only the JSON output, which is left out, shows that order.
- ConsolidateRun.ModuleDirKey: every (timestamp, directory name) key is a separate directory in the model. Path joining does not keep them apart: an empty timestamp or directory part (`"/x/m.json"`, `"a//m.json"`) names another directory, or the timestamp directory itself, and the model does not relate such keys.
- ConsolidateRun.ConsolidateAll: the argument parser is left out. The run directory `base_dir/run_id` is given as its module directories, keyed by (timestamp, directory name). A missing key stands for a directory that does not exist. The output directory `output_dir/run_id` is given as its files.
