# CS3 Autograder — a verified model

CS3Autograder grades Jupyter-notebook exams in batches. Its pieces:

- **The harness** (`AUTOGRADER_TEMPLATE.py`, and the live copy in `config.py`'s `AUTOGRADER_CODE`).
  - It is injected as the last cell of every student notebook.
  - It runs each problem's test cases against the student's function and appends the problem's score to `points_by_problem`.
  - It guards every problem and every section, so that a crash yields `0.0` entries instead of stopping the run.
  - It prints one CSV record: `first,last,id,p1,...,p12,total`.
- **The batch driver** (`run_autograder.py`). For every `.ipynb` of the input directory it:
  - injects the harness cell unless a marker says it is already there;
  - executes the notebook;
  - takes the last CSV-looking line from the outputs;
  - when that fails, builds a zero record from the names assigned in the notebook or from the file name.
  - It then writes `grades.csv`: a header, and one line per notebook that produced a record.
- **The conversion helper** (`convert_autograder.py`).
  - It scans harness source for `grade_problem(N,` calls, `def test_...(` sections and the `# RUN` block, and reports the calls that lack a nearby `try:`.
  - It generates the guarded wrappers for one problem and for one section.
- **Two archive utilities.**
  - `archive/readend.py` reports each notebook's last printed or displayed value.
  - `archive/deletecell.py` removes every cell whose source contains a fragment.

The model, file by file:

| file | module | contents |
|---|---|---|
| `common.dfy` | `Common` | `Option`, `Latest` (the last value a loop assigns) and `FlatMap` |
| `text.dfy` | `Text` | The Python string operations the code relies on: `strip`, `split`, `join`, `count`, `in`, `replace`, `splitlines(keepends=True)`, `str(int)`. Each is proved against its inverse or its defining property. |
| `csv.dfy` | `Csv` | The CSV record shared by harness and driver, and the header. |
| `notebook.dfy` | `Notebook` | Cells, sources (a string or a list of lines), outputs. |
| `harness.dfy` | `Harness` | Pure semantics of `grade_problem`, of sections and of the two top levels. The class `Grader` owns `points_by_problem` as a field and runs the same steps imperatively, each method proved equal to the semantics. |
| `orchestrator.dfy` | `Orchestrator` | Username extraction, cell injection (class `NotebookDoc`), CSV extraction, the identity scan, the per-notebook decision and the tally. Loops are methods proved against specification functions. |
| `converter.dfy` | `Converter` | The three regular expressions as matchers, `finditer`/`search` over them, the analysis, and both template generators. |
| `archive.dfy` | `Archive` | `extract_last_output_from_notebook`, `process_notebooks_in_directory` and the cell filter of `deletecell.py`. |

Student code, fixtures and the notebook kernel are represented by their outcomes:

- a call into student code is a total function returning `Value(v)` or `Fault` (it raised);
- a fixture statement is `Setup(raises)`;
- executing a notebook is a boolean (`executed`) plus the executed cells;
- reading a file is a function parameter;
- formatting the total with `"{:.2f}"` is a parameter `format2`.

## Model

| member | source | states |
|---|---|---|
| `Harness.PassedCount` | AUTOGRADER_TEMPLATE.py:23-35 | The number of passing tests never exceeds the number of tests. |
| `Harness.PassedCountAppend` | AUTOGRADER_TEMPLATE.py:26-35 | Tests are judged independently: counting over `a + b` adds the two counts. |
| `Harness.AllPassed` | AUTOGRADER_TEMPLATE.py:26-35 | The count equals the test count if and only if every test's call returns the expected value. |
| `Harness.FaultedTestFails` | AUTOGRADER_TEMPLATE.py:28-35 | A test whose call raises is caught, counts as failed, and does not stop the tests after it. So the problem cannot get full marks. |
| `Harness.PassedCountSkip` | AUTOGRADER_TEMPLATE.py:26-35 | A failing test contributes nothing, wherever it sits in the list. |
| `Harness.ScoreBounds` | AUTOGRADER_TEMPLATE.py:37 | `passed / total * max` lies in `[0, max]`. With a positive maximum it equals the maximum if and only if all tests passed. |
| `Harness.AddExample` | AUTOGRADER_TEMPLATE.py:21-40 | A worked case: against a correct adder, the tests `((2,3),5)` and `((0,0),1)` give one pass and 2.0 of 4.0 points. |
| `Harness.Grader.constructor` | AUTOGRADER_TEMPLATE.py:17-18 | `points_by_problem` starts empty. |
| `Harness.Grader.GradeProblem` | AUTOGRADER_TEMPLATE.py:21-40 | On a non-empty list, appends and returns `ProblemScore(PassedCount, len, max)`. On an empty list the division raises: the call faults and nothing is appended. |
| `Harness.FirstRaise` | config.py:91-96 | The position of the first unguarded fixture statement that raises. None before it raises. |
| `Harness.Interleave` | config.py:91-279 | The shape of `test_graphAL`: steps alternate a fixture statement and a wrapped problem, `2n` steps for `n` problems. |
| `Harness.Entries` | config.py:104-120 | One entry per wrapped problem: its score, or `0.0` when building its tests raised or the list was empty. |
| `Harness.PairEntries` | config.py:104-120 | A fixture followed by one wrapped problem appends exactly that problem's entry. |
| `Harness.Grader.RunProblem` | config.py:104-120 | A wrapped `grade_problem` call appends exactly one entry, the problem's score or `0.0`, and returns the amount added to `section_score`. |
| `Harness.GradedEntriesAppend` | config.py:91-279 | The entries of a concatenation of steps are the concatenation of the entries. |
| `Harness.InterleaveEntries` | config.py:91-279 | Ignoring fixture faults, a section appends one entry per problem, in problem order. |
| `Harness.InterleaveFirstRaise` | config.py:91-279 | The first raising step of a section is the fixture before the first problem whose fixture raises. |
| `Harness.InterleavePrefix` | config.py:91-279 | The first `2j` steps of a section are the section of its first `j` problems. |
| `Harness.InterleaveSection` | config.py:91-279 | A raising fixture ends the section. Only the problems before it have entries, and the section faults. Otherwise the section returns the sum of all entries. |
| `Harness.Grader.RunSection` | config.py:91-279 | Running a section's steps appends `SectionEntries` and yields `SectionResult`: the sum, or the fault of the first raising fixture. |
| `Harness.Padded` | AUTOGRADER_TEMPLATE.py:136-137 | The padding loop keeps the list as a prefix and appends `0.0` until the list has `n` entries. A longer list is left alone. |
| `Harness.Grader.PadTo` | AUTOGRADER_TEMPLATE.py:149-152 | The `while len < n: append(0.0)` loop leaves `Padded(old, n)`. |
| `Harness.FitTo` | AUTOGRADER_TEMPLATE.py:149-154 | Pad then truncate gives exactly `n` entries. Existing entries are kept and missing ones are zero. |
| `Harness.FitToStable` | AUTOGRADER_TEMPLATE.py:149-154 | Fitting is idempotent, and a list of the right length is unchanged. |
| `Harness.TruncOfScore` | AUTOGRADER_TEMPLATE.py:163 | `int(score)` on a score in `[0, max]` is its floor, never rounds up, and stays within `[0, floor(max)]`. |
| `Harness.ScoreFields` | AUTOGRADER_TEMPLATE.py:163 | One column per score, each `str(int(score))` and free of commas. |
| `Harness.Grader.RunGuarded` | AUTOGRADER_TEMPLATE.py:129-147 | A guarded section appends its entries. On a fault it pads the list to the section's expected count and contributes `0`; otherwise it contributes its score. |
| `Harness.TemplateScores` | AUTOGRADER_TEMPLATE.py:128-154 | Whatever the sections do, the printed list has exactly twelve scores. |
| `Harness.TemplateSection1Fault` | AUTOGRADER_TEMPLATE.py:129-137 | When section 1 faults, it contributes `0` to the total. Its entries so far are kept, and problems up to six are zero. |
| `Harness.TemplateSection2Fault` | AUTOGRADER_TEMPLATE.py:139-152 | When section 2 faults, it contributes `0`. The entries so far are kept, and the rest up to twelve are zero. |
| `Harness.TemplateNoFault` | AUTOGRADER_TEMPLATE.py:117-156 | When both sections complete with six entries each, the list is their concatenation. The total is the sum of the twelve scores. |
| `Harness.TemplateRecordColumns` | AUTOGRADER_TEMPLATE.py:158-165 | With comma-free names, the record splits on `,` into the three names, twelve score columns and the total: 16 columns. |
| `Harness.Grader.RunTemplate` | AUTOGRADER_TEMPLATE.py:117-167 | The template's top level leaves `TemplateScores` in the list. It prints the record of the resolved identity (`Unknown` when a name is undefined), the truncated scores and both sections' contributions. |
| `Harness.ConfigRecord` | config.py:512-538 | In `AUTOGRADER_CODE`, when every fixture builds, the list is problems 1-12 in order and the record carries their sum. When any fixture raises, the whole record is the zero row. |
| `Harness.Grader.RunSections` | config.py:512-515 | Runs the adjacency-list section, then the matrix section only if the first did not fault. The total is their sum or a fault. |
| `Harness.Grader.RunConfig` | config.py:512-538 | The printed line is the record on success. After a fault it is the zero row, or nothing when the names are undefined and the handler raises again. |
| `Csv.Repeat` | run_autograder.py:255 | `[s] * n`: `n` copies of `s`. |
| `Csv.ProblemTitles` | run_autograder.py:387 | The titles `problem_1` … `problem_n`, in order and comma-free. |
| `Csv.RecordIsJoin` | AUTOGRADER_TEMPLATE.py:159-165 | A record built by concatenation is the comma-join of its columns. |
| `Csv.RecordColumns` | AUTOGRADER_TEMPLATE.py:159-165 | With comma-free columns, splitting a record on `,` gives back exactly its columns. |
| `Csv.ZeroRowColumns` | run_autograder.py:252-257 | The zero record splits into the names, twelve `0` columns and `0.00`. |
| `Csv.HeaderColumns` | run_autograder.py:386-388 | The header has the same 16 columns as every record. |
| `Text.JoinSplit` | run_autograder.py:51 | `sep.join(s.split(sep)) == s`. |
| `Text.SplitJoin` | run_autograder.py:51 | Splitting a join of separator-free parts gives the parts back. |
| `Text.SplitLength` | run_autograder.py:168 | `s.split(c)` has one more piece than `s` has `c`s. |
| `Text.LastPiece` | archive/readend.py:117 | The last piece of a split has no separator, ends the text, and is preceded by the separator unless it is the whole text. |
| `Text.StripIsSlice` | run_autograder.py:177 | `strip` returns a contiguous slice of its input. |
| `Text.CountAppend` | run_autograder.py:171 | `count` is additive over concatenation. |
| `Text.RemoveAllAbsent` | run_autograder.py:31 | `replace(p, '')` leaves a text without `p` unchanged. |
| `Text.RemoveAllCanLeaveOccurrence` | run_autograder.py:31 | A single left-to-right `replace` pass can leave an occurrence: `.ip.ipynbynb` becomes `.ipynb`. |
| `Text.LinesEndWithBreak` | run_autograder.py:93 | When the code ends with a line break, every line of `splitlines(keepends=True)` does. |
| `Text.SplitLinesRoundTrip` | run_autograder.py:93 | Concatenating the lines kept with their ends gives back the code. |
| `Text.NatToStringRoundTrip` | AUTOGRADER_TEMPLATE.py:163 | The decimal digits `str(int)` writes read back as the number. |
| `Notebook.NotebookNames` | run_autograder.py:347 | The notebooks processed are exactly the directory entries ending in `.ipynb`. This row gives membership only; order is stated by the next row. |
| `Notebook.NotebookNamesInOrder` | run_autograder.py:347 | The notebooks are the `.ipynb` entries in directory order, each kept once: position `k` holds the `k`-th such entry. |
| `Orchestrator.MatchAt` | run_autograder.py:40-47 | A group captured by either pattern is a non-empty run of ASCII letters and digits. |
| `Orchestrator.AttemptMatchIff` | run_autograder.py:40 | `_([a-zA-Z0-9]+)_attempt` matches at `i` with group `g` if and only if `_g_attempt` starts at `i` and `g` is a non-empty alphanumeric word. |
| `Orchestrator.SearchIsLeftmost` | run_autograder.py:40-47 | `re.search` finds nothing exactly when no position matches, and otherwise returns the leftmost match. |
| `Orchestrator.FirstCandidate` | run_autograder.py:52-59 | The first part after position 0 that is a lower-case alphanumeric word followed by `attempt` or a date-like part. No earlier part qualifies. |
| `Orchestrator.FallbackOf` | run_autograder.py:51-61 | A fallback username is a non-empty lower-case alphanumeric word. |
| `Orchestrator.FallbackUsername` | run_autograder.py:51-61 | The fallback loop returns `FallbackOf(parts)`. |
| `Orchestrator.UsernameShape` | run_autograder.py:21-63 | Any username found is non-empty, alphanumeric, and free of `,` and `_`. |
| `Orchestrator.ExtractUsername` | run_autograder.py:21-63 | Strips `.ipynb`, then tries `_<user>_attempt`, then `Part I_<user>_`, then the fallback scan. |
| `Orchestrator.InjectKeepsCells` | run_autograder.py:79-97 | Injection keeps every existing cell and adds at most one. It adds one exactly when no source passes the marker test, and the added code cell's lines rebuild the harness code. |
| `Orchestrator.MarkerIsNeverALine` | run_autograder.py:80-93 | The marker is never a whole line of the harness cell, since each of its lines ends in a line break. |
| `Orchestrator.InjectTwiceAppendsTwice` | run_autograder.py:79-97 | As written, injecting twice into a notebook without the marker appends the harness cell twice. |
| `Orchestrator.InjectByTextIdempotent` | run_autograder.py:78-82 | With the marker searched in the cell's text, injection is idempotent. |
| `Orchestrator.NotebookDoc.constructor` | run_autograder.py:75-76 | The document holds the cells read, or none. |
| `Orchestrator.NotebookDoc.AddHarnessCell` | run_autograder.py:66-106 | Succeeds exactly when the notebook has a cell list. The new cells are `Inject(old cells, code)`. |
| `Orchestrator.CsvLikeIsTwoCommas` | run_autograder.py:171 | The CSV test `',' in line and count >= 2` is just `count >= 2`. |
| `Orchestrator.CsvLines` | run_autograder.py:168-172 | The candidates of a stream's stripped text are among its lines, and each has two commas or more. |
| `Orchestrator.CsvLinesSelection` | run_autograder.py:168-172 | The candidates are exactly the lines with two commas or more, in the order of the text: candidate `k` is the `k`-th such line. |
| `Orchestrator.CsvLinesLast` | run_autograder.py:169-172 | The last candidate of a text is its last line with two commas or more; a later line without them does not replace it. |
| `Orchestrator.OutputCandidates` | run_autograder.py:165-179 | Every candidate an output offers passes the CSV test. |
| `Orchestrator.ExtractCsvMeaning` | run_autograder.py:140-184 | There is no record exactly when no cell offers a candidate. A record found has two commas or more. |
| `Orchestrator.PrintedRecordExtracted` | run_autograder.py:161-181 | When the last cell printed one record line, that line is the one extracted, whatever came before. |
| `Orchestrator.ExtractCsvIsLatest` | run_autograder.py:161-179 | When output `j` of code cell `k` offers a candidate and no later output of any code cell does, the record extracted is that output's last candidate: later outputs win, in cell-then-output order. |
| `Orchestrator.ExtractCsvIsLastPrintedLine` | run_autograder.py:161-172 | When that latest offering output is a stream, the record extracted is the last line of its stripped text with two commas or more. |
| `Orchestrator.OutputsCandidatesFlat` | run_autograder.py:163-179 | The candidates of a cell's outputs are those of each output in turn. |
| `Orchestrator.CellsCandidatesFlat` | run_autograder.py:161-179 | The candidates of a notebook are those of each cell in turn. |
| `Orchestrator.ScanLines` | run_autograder.py:169-172 | The line loop leaves `Latest(prev, CsvLines(lines))`. |
| `Orchestrator.ScanOutput` | run_autograder.py:165-179 | The per-output branch leaves the last candidate of that output, or the previous value. |
| `Orchestrator.ScanOutputs` | run_autograder.py:163-179 | The output loop leaves the last candidate over its outputs. |
| `Orchestrator.ExtractCsvOutput` | run_autograder.py:140-184 | The extraction loop returns `ExtractCsv(cells)`: `None` for an unreadable or empty notebook, else the last candidate. |
| `Orchestrator.ScanSource` | run_autograder.py:226-241 | Each of the three fields is scanned independently over the lines. |
| `Orchestrator.UnassignedFieldKept` | run_autograder.py:226-241 | A field no line assigns keeps its value. |
| `Orchestrator.LastAssignmentWins` | run_autograder.py:226-241 | A field takes the value of the last line that mentions its key with `=`. |
| `Orchestrator.ScanFailsIff` | run_autograder.py:222-241 | The scan raises exactly when some cell has a list source with a line equal to `first_name`. |
| `Orchestrator.ScanSourceLines` | run_autograder.py:226-241 | The line loop leaves `ScanSource(start, lines)`. |
| `Orchestrator.ScanIdentity` | run_autograder.py:217-241 | The cell loop returns `ScanCells(cells)`, stopping at the first failure. |
| `Orchestrator.ZeroIdentitySources` | run_autograder.py:213-264 | The zero record names the student from the notebook when both names were found there. Otherwise it uses the username from the file name, if any. The id never comes from the file name. |
| `Orchestrator.ZeroRecordColumns` | run_autograder.py:252-264 | The zero record has 16 columns whenever the scanned names are comma-free. |
| `Orchestrator.ZeroLine` | run_autograder.py:213-264 | Computes `ZeroRow(ZeroIdentity(filename, cells))`. |
| `Orchestrator.ProcessOutcomes` | run_autograder.py:187-323 | A notebook succeeds exactly when injection worked, it ran and a record was found. It lacks a line only when injection failed, and it has an error message exactly when it failed. A failure's line is the zero record. |
| `Orchestrator.ProcessSubmission` | run_autograder.py:187-323 | Injects the harness cell into the document and returns `ProcessSpec` of the outcome. |
| `Orchestrator.ProcessRow` | run_autograder.py:360-376 | A notebook adds exactly one row to the grades file when its autograder cell was added, and none otherwise. |
| `Orchestrator.RowsCount` | run_autograder.py:357-378 | At most one row per notebook. Exactly one each when every notebook produced a line. |
| `Orchestrator.Tally` | run_autograder.py:357-378 | The loop collects `Rows(reports)` and counts the successes. Successes plus failures is the number of notebooks. |
| `Orchestrator.BatchRowsCount` | run_autograder.py:357-376 | Over a batch of notebook runs, the grades file has exactly one row per run whose autograder cell was added. |
| `Orchestrator.BatchRows` | run_autograder.py:347-376 | With the runs being those of the listed `.ipynb` notebooks, in listing order, the row count is the number of listed notebooks injected, and at most the number listed. |
| `Orchestrator.GradesFileIsJoin` | run_autograder.py:383-392 | The file is the header and the rows joined by line breaks, ending with one. |
| `Orchestrator.HeaderHasNoLineBreak` | run_autograder.py:386-388 | The header is a single line. |
| `Orchestrator.GradesFileLines` | run_autograder.py:383-392 | With single-line rows, splitting the file on line breaks gives the header, the rows, and the empty tail. |
| `Converter.MatchAt` | convert_autograder.py:29-54 | A match ends after its start and inside the text. A `grade_problem` match captures a non-empty digit string. |
| `Converter.GradeMatchPlain` | convert_autograder.py:29 | `grade_problem(N,` with digits `N` matches, capturing `N`. |
| `Converter.TestMatchName` | convert_autograder.py:42-45 | A test-section match names `test_` followed by word characters. |
| `Converter.SearchFrom` | convert_autograder.py:54 | The first matching position at or after `from`; none before it. |
| `Converter.Matches` | convert_autograder.py:30-31 | `finditer`'s matches lie within the text, at or after the start. |
| `Converter.MatchesSound` | convert_autograder.py:30-31 | Every match reported is a match of the pattern at its start. |
| `Converter.MatchesOrdered` | convert_autograder.py:30-31 | The matches do not overlap and come in text order. |
| `Converter.MatchesComplete` | convert_autograder.py:30-31 | Every position where the pattern matches lies inside some reported match. |
| `Converter.LineOf` | convert_autograder.py:34 | Line numbers start at 1. |
| `Converter.LineOfCountsLines` | convert_autograder.py:34 | A match's line is one more than the line breaks before it. |
| `Converter.LineOfMonotone` | convert_autograder.py:34 | Later positions never have smaller line numbers. |
| `Converter.NeedsWrappingWindow` | convert_autograder.py:38 | A call needs wrapping exactly when no `try:` lies wholly within the 200 characters before it. |
| `Converter.GradeCallsInOrder` | convert_autograder.py:28-39 | Each entry of `grade_problem_calls` has a digit problem number, and their lines never decrease. |
| `Converter.TestFunctionsInOrder` | convert_autograder.py:41-50 | Each test-function entry is named `test_…`, and their lines never decrease. |
| `Converter.MainExecutionFound` | convert_autograder.py:52-59 | `main_execution` is `None` exactly when no position starts a `# RUN` block. |
| `Converter.MainExecutionIsLeftmost` | convert_autograder.py:53-59 | Its `has_try` reflects the leftmost `# RUN` block. |
| `Converter.MainBodyEndsAtTerminator` | convert_autograder.py:53 | The lazily matched body never contains `#**`. |
| `Converter.Unwrapped` | convert_autograder.py:62 | The calls kept are exactly those that need wrapping. |
| `Converter.UnwrappedCount` | convert_autograder.py:62-65 | The list keeps one entry per call position that needs wrapping, so its length is that number. |
| `Converter.SuggestionIff` | convert_autograder.py:61-66 | One suggestion exactly when some call needs wrapping. Its text gives the number of calls that need wrapping. |
| `Converter.FindGradeCalls` | convert_autograder.py:28-39 | The `finditer` loop builds `GradeCalls(code)`. |
| `Converter.FindTestFunctions` | convert_autograder.py:41-50 | The loop builds `TestFunctions(code)`. |
| `Converter.Analyze` | convert_autograder.py:11-68 | The analysis dictionary equals `AnalysisOf(code)`. |
| `Converter.WrappedGradeProblemLines` | convert_autograder.py:71-91 | The wrapper is, line by line: `try:`, the call opening the list, the test cases' own lines, the call's end, and an `except` that appends `0.0`. |
| `Converter.WrappedGradeProblemOpening` | convert_autograder.py:84-85 | The wrapper starts with `try:` followed by the call of the same problem. |
| `Converter.CallListed` | convert_autograder.py:29-38 | Every `grade_problem(<digits>,` in the text is an entry of `grade_problem_calls`, with its number, line and flag. |
| `Converter.GuardedCallIsRecognised` | convert_autograder.py:29-38 | A call with a `try:` in the window before it is matched with its number and is not flagged. It is listed in `grade_problem_calls` as not needing wrapping. |
| `Converter.WrappedCallIsRecognised` | convert_autograder.py:71-91 | A call produced by the generator, embedded anywhere, is matched with its number and is not flagged. It is listed in `grade_problem_calls` as not needing wrapping. |
| `Converter.WrappedTestSectionLines` | convert_autograder.py:94-113 | The section wrapper is exactly eight lines: the guarded call, a handler that prints `ERROR in <name>` and sets `<name>_score = 0`, a comment naming `expected_problems`, and a loop padding to `expected_problems`. |
| `Archive.LastLineShape` | archive/readend.py:117 | A stream's value is the part of its stripped text after the last line break. It has no break of its own. |
| `Archive.CellValuesEmpty` | archive/readend.py:113-122 | A cell contributes nothing exactly when none of its outputs offers a value. |
| `Archive.LastOutputNone` | archive/readend.py:98-127 | An unreadable notebook gives `None`. Otherwise `None` exactly when no output of an inspected code cell offers a value. |
| `Archive.LastOutputIsLatest` | archive/readend.py:109-124 | The result is the value of the last offering output, in cell-then-output order. |
| `Archive.IgnoredCellIrrelevant` | archive/readend.py:113 | Markdown cells and cells without `outputs` do not affect the result. |
| `Archive.ScanCellOutputs` | archive/readend.py:114-122 | The output loop leaves the last value offered, or the previous one. |
| `Archive.ExtractLastOutput` | archive/readend.py:88-127 | The cell loop returns `LastOutput(notebook)`. |
| `Archive.RowsForExact` | archive/readend.py:151-159 | A row `name,value` is written for a notebook exactly when its value is truthy, and every row comes from such a notebook. |
| `Archive.RowsForNone` | archive/readend.py:151-159 | No truthy value, no rows. |
| `Archive.ProcessNotebooks` | archive/readend.py:129-162 | No file when the path is not a directory or holds no notebook. Otherwise the rows of `RowsFor`, in listing order. |
| `Archive.Kept` | archive/deletecell.py:31-38 | No kept cell's text contains the fragment, and nothing is added. `nbformat.read` joins a list source, so the test is on the whole text. |
| `Archive.KeptPositions` | archive/deletecell.py:31-38 | The positions kept are increasing and are exactly those of cells whose text lacks the fragment. |
| `Archive.KeptIsSelection` | archive/deletecell.py:35-38 | The filtered list is the original cells at those positions, in order, unaltered. |
| `Archive.KeptUnchanged` | archive/deletecell.py:31-38 | A notebook where no cell's text contains the fragment is unchanged. |
| `Archive.KeptIdempotent` | archive/deletecell.py:35-38 | Filtering twice equals filtering once. |
| `Archive.DeletedCountMeaning` | archive/deletecell.py:31-42 | The count deleted is the number of cells whose text contains the fragment. It is zero exactly when none does, and then the cells are unchanged. |
| `Archive.DeletionReportMeaning` | archive/deletecell.py:41-44 | "No matching cells" is reported exactly when no cell's text contains the fragment. Otherwise the report gives that positive number. |

## Left out

- Files, directories and JSON (de)serialisation are modelled as values and parameters. Write failures and the `except` around the final file write (`run_autograder.py:395-397`) are not modelled.
- Notebook execution (`execute_notebook`, nbconvert, kernels, the timeout) is a boolean outcome plus the executed cells.
  - A notebook the harness did not reach is the same as one that printed nothing.
- The student's classes `GraphAL`/`GraphAM` and the fixture graphs of `config.py` are not modelled.
  - A test's call is a total function returning a value or raising.
  - A fixture is a statement that raises or not.
  - The individual test-case values are not reproduced.
- Scores are Dafny `real`, without floating-point rounding. `"{:.2f}".format` is the parameter `format2`.
- The student's `first_name`, `last_name` and `student_id` are strings or undefined (`Option<string>`). `str()` of values of other types is not modelled.
- Character classes `isalnum`, `islower`, `isdigit`, `\w` and `\d` are ASCII only; their Unicode categories are not modelled. Whitespace (`\s`, `strip`, `isspace`) is Python's full `str.isspace` set.
- `textwrap.dedent` of `AUTOGRADER_CODE` (`run_autograder.py:85`) is not modelled. The code is a parameter, taken as already dedented.
- The template's outer "catastrophic" handler (`AUTOGRADER_TEMPLATE.py:169-189`) is not modelled. Every statement inside the outer `try` is already guarded or total in the model, so that branch cannot be reached.
- Cell metadata, execution counts, and a `KeyError` on a cell without `cell_type` are not modelled. Every cell has a type.
- `print` output other than the CSV record, the progress messages, and the exit codes of `main` are not modelled.
- The command-line entry points are not modelled, and neither are `print_analysis_report` and `main` of `convert_autograder.py`.
- `generate_wrapped_test_section` ignores its `section_code` argument. The model has the same unused parameter.
- `archive/autorun.py` is not part of this model.
- The hard-coded paths in `config.py` and the `EXECUTION_TIMEOUT` are not modelled.

## Findings

| source | as written | input that shows it | evidently intended | confidence | as-written member | corrected member |
|---|---|---|---|---|---|---|
| run_autograder.py:79-82 | The "already injected" test is `'DO NOT MODIFY THE CODE BELOW' in cell.get('source', '')`. On a list source that compares whole lines. The cell added at line 93 stores its source as lines that each end in `\n`, so the marker never equals one of them. | A notebook processed twice, which is read back with `json.load` so its source stays a list: the second run appends a second harness cell. | Search the marker in the cell's text, so that injection is idempotent. | not executed; high | `Orchestrator.InjectTwiceAppendsTwice` | `Orchestrator.InjectByTextIdempotent` |
