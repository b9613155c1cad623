# Code Debt Detective: a verified model of the detection and scoring engine

This project models, in Dafny, the deterministic core of `code_debt_detective.py`. That core is
the engine that finds "code smells" in a code base, turns git history into debt metrics, scores
the result, and prepares what the console and HTML reports show. The modules follow the
program's structure:

- `Text` (`text.dfy`): the Python `str` operations the analyzers use. These are `split` on one
  character, `join`, substring tests, `endswith`, ASCII `upper`/`lower`, `strip`, and the
  code-point order that Python's `sorted` uses on strings.
- `Models` (`models.dfy`): `DebtSeverity`, `CodeSmell`, `DebtMetric` and `DetectiveConfig` as
  datatypes, the seven smell-type names, and counting helpers.
- `Sequences` (`seqs.dfy`): taking one element out of a sequence, for the order-independence
  proofs.
- `TextualAnalyzer` (`textual.dfy`): `_analyze_general_patterns`. It has three passes over the
  lines: `large_file`, then `technical_debt_comment`, then `long_line`.
- `StructuralAnalyzer` (`structural.dfy`):
  - `_analyze_python_file` over an abstract syntax tree, visited in the breadth-first order of
    `ast.walk`.
  - `_calculate_nesting_depth`, as a recursive method with its loop.
- `CorpusScanner` (`scanner.dfy`):
  - `_get_code_files` as a filter over `(path, size)` entries.
  - The `.py` dispatch of `_analyze_file`.
  - The per-file loop of `scan_codebase`.
- `GitAnalyzer` (`git.dfy`): splitting the `git log` output into commit lines,
  `_analyze_commit_frequency`, `_count_debt_commits`, and the two metric thresholds of
  `get_debt_trends`.
- `HealthScorer` (`health.dfy`): `_calculate_health_score`.
- `Sorting` (`sorting.dfy`): the two sorts the reports call.
  - `sorted(..., key, reverse=True)` on a natural-number key. It is stable.
  - `sorted` on distinct strings.
- `ReportAssembler` (`report.dfy`): the parts of `generate_html_report` and
  `generate_executive_summary` that compute rather than format:
  - severity counts and grouping by type;
  - the cap of five items per group and the "... and N more" count;
  - the `&`, `<`, `>` escape chain and the `\n` to `<br>` replacement of the summary;
  - the summary figures, including the five most common types.
- `ConsoleReport` (`console.dfy`): `display_console_report`:
  - its own score from the severity counts, and the status bands;
  - the groups sorted by type name, each sorted by severity and capped at three;
  - the recommendations.

Each operation the source performs with a loop is a `method` with that loop. Its `ensures` ties
the result to a specification function, and lemmas prove what the source promises about that
function. File contents, file sizes, the parser's result and the git output are passed in as
values.

## Model

| member | source | states |
|---|---|---|
| TextualAnalyzer.AnalyzeGeneralPatterns | code_debt_detective.py:206-249 | The three-pass loop builds exactly the findings of `GeneralPatterns`: the `large_file` pass, then the marker pass, then the long-line pass. |
| TextualAnalyzer.ScanMarkers | code_debt_detective.py:224-234 | The marker loop yields one finding per marked line, in line order. |
| TextualAnalyzer.ScanLongLines | code_debt_detective.py:237-247 | The long-line loop yields one finding per line over 120 characters, in line order. |
| TextualAnalyzer.LargeFileRule | code_debt_detective.py:209-221 | There is exactly one `large_file` finding iff `content.split('\n')` has more than 500 pieces, so 500 lines give none. It is always at line 1. |
| TextualAnalyzer.DebtMarkerRule | code_debt_detective.py:224-234 | Line i carries exactly one `technical_debt_comment` iff its upper-cased text contains TODO, FIXME, HACK or XXX anywhere. Otherwise it carries none, however many markers the line has and whatever its length. |
| TextualAnalyzer.LongLineRule | code_debt_detective.py:237-247 | Line i carries exactly one `long_line` finding iff it is longer than 120 characters. Otherwise it carries none. |
| TextualAnalyzer.TextualFindingsInRange | code_debt_detective.py:209-247 | Every textual finding is at a line in 1..number of lines, and is of one of the three textual types. |
| TextualAnalyzer.MarkerPassShape | code_debt_detective.py:224-234 | Every finding of the marker pass over the first k lines is a debt comment at a line in 1..k. |
| TextualAnalyzer.LongLinePassShape | code_debt_detective.py:237-247 | Every finding of the long-line pass over the first k lines is a long line at a line in 1..k. |
| TextualAnalyzer.MarkerPassAt | code_debt_detective.py:224-234 | Within the first k lines, the marker pass counts one finding at line i iff line i is marked. |
| TextualAnalyzer.LongLinePassAt | code_debt_detective.py:237-247 | Within the first k lines, the long-line pass counts one finding at line i iff line i is too long. |
| TextualAnalyzer.MarkerPassOrdered | code_debt_detective.py:224-234 | The marker findings come in strictly ascending line order. |
| TextualAnalyzer.LongLinePassOrdered | code_debt_detective.py:237-247 | The long-line findings come in strictly ascending line order. |
| TextualAnalyzer.GeneralPatternsOrder | code_debt_detective.py:211-247 | The output is ordered by (pass, line). The `large_file` finding comes first, then all debt comments, then all long lines. |
| StructuralAnalyzer.CalculateNestingDepth | code_debt_detective.py:251-260 | The recursive depth with its `max` loop returns `current_depth + Height(node)`. The height counts only If/For/While/With/Try children. |
| StructuralAnalyzer.NestingDepthRecurrence | code_debt_detective.py:251-260 | The depth is at least d. It is d when no direct child is If/For/While/With/Try. Otherwise it is the maximum over those children of `depth(child, d + 1)`. |
| StructuralAnalyzer.DeepestNestingPath | code_debt_detective.py:251-260 | The height is attained: some chain of nesting children is exactly that long. |
| StructuralAnalyzer.NestingPathBound | code_debt_detective.py:251-260 | No chain of nesting children is longer than the height. |
| StructuralAnalyzer.WalkVisitsEveryNode | code_debt_detective.py:151 | The breadth-first walk visits every node of the tree exactly once. |
| StructuralAnalyzer.CheckNode | code_debt_detective.py:152-191 | The three checks on one node yield that node's findings, in the order long function, too many parameters, deep nesting. |
| StructuralAnalyzer.CheckNodes | code_debt_detective.py:151-191 | The loop over the walked nodes yields each node's findings in visiting order. |
| StructuralAnalyzer.SmellsOfSound | code_debt_detective.py:152-191 | Every structural finding is one of the three node types, located at the line of a visited node that fires that check. |
| StructuralAnalyzer.AnalyzePythonFile | code_debt_detective.py:144-204 | The function gives the node findings of the parsed tree, or the single `syntax_error` finding on a syntax error. It gives no result when the parser raises anything else. |
| StructuralAnalyzer.NodeRule | code_debt_detective.py:153-191 | A node yields one finding of a type iff it fires that check, and all its findings are at its own line. `long_function` fires iff `len(body) > 20`. `too_many_parameters` fires iff `len(args.args) > 5`. `deep_nesting` fires iff the node is an If/For/While with depth over 3. |
| StructuralAnalyzer.SmellsOfCount | code_debt_detective.py:151-191 | The number of findings of a type is the number of visited nodes that fire it. |
| StructuralAnalyzer.FiringNodesPermutation | code_debt_detective.py:151 | That number does not depend on the visiting order. |
| StructuralAnalyzer.StructuralRule | code_debt_detective.py:144-204 | On a parsed tree, the count of each type is the number of tree nodes that fire it. Every finding comes from a firing node at that node's line. |
| StructuralAnalyzer.SyntaxErrorRule | code_debt_detective.py:193-202 | A syntax error yields exactly one finding: `syntax_error` at line 1, critical, with confidence 100%. |
| StructuralAnalyzer.IfChainDeepNesting | code_debt_detective.py:180-191 | In a chain of k nested `if`s, the outermost fires `deep_nesting` iff k > 4. This is the shape of the ten nested `if`s in `sample_project/bad_code.py`. |
| CorpusScanner.ExcludedMeans | code_debt_detective.py:114 | `any(pattern in path ...)` holds iff some exclude pattern is a substring of the path. |
| CorpusScanner.GetCodeFiles | code_debt_detective.py:99-121 | The two loops return the eligible candidate paths, in extension-then-traversal order. A missing root gives no files. |
| CorpusScanner.CollectCandidates | code_debt_detective.py:108-109 | The `rglob` loop gathers the matches of each extension in turn. |
| CorpusScanner.FilterEligible | code_debt_detective.py:112-121 | The filter loop keeps, in order, the paths that are not excluded and whose size can be read and is below the limit. |
| CorpusScanner.CodeFilesMembers | code_debt_detective.py:104-121 | A path is kept iff the root exists and some entry with that path has a name ending in a configured extension, contains no exclude pattern, and is smaller than `max_file_size_mb * 1024 * 1024` bytes. |
| CorpusScanner.AnalyzeFile | code_debt_detective.py:123-142 | For a `.py` file the structural findings come first, then the textual ones. Other files get textual findings only. A failed read or a parser crash gives no findings. |
| CorpusScanner.NonPythonFileIsTextOnly | code_debt_detective.py:132-136 | A file that is not `.py` gets exactly the textual findings, so no `syntax_error` and no `long_function`. |
| CorpusScanner.NoStructuralKinds | code_debt_detective.py:206-249 | The textual analysis never reports a structural type. |
| CorpusScanner.SyntaxErrorFile | code_debt_detective.py:132-136 | A `.py` file that fails to parse yields the one `syntax_error` finding and no other structural finding, followed by all its textual findings. |
| CorpusScanner.ScanCodebase | code_debt_detective.py:86-97 | The scan concatenates the findings of each eligible file, in file order. |
| CorpusScanner.ConcatMapPermutation | code_debt_detective.py:92-95 | Reordering the items of a map-then-concatenate leaves the multiset of outputs unchanged. |
| CorpusScanner.ScanOrderIndependent | code_debt_detective.py:86-97 | Visiting the same files in another order gives the same multiset of findings. |
| GitAnalyzer.Commits | code_debt_detective.py:291-294 | No log gives no commits. A non-blank log gives one line per `\n` in the stripped output, plus one. No line contains `\n`. |
| GitAnalyzer.CommitDate | code_debt_detective.py:334-337 | A line has a date field iff it has at least two pipe characters. The date is then the third field. |
| GitAnalyzer.AnalyzeCommitFrequency | code_debt_detective.py:327-339 | The loop over commits gives `CommitFrequency`: `n / max(number of distinct dates, 1)`, and 0 for no commits. |
| GitAnalyzer.DatesMembers | code_debt_detective.py:332-337 | A date is in the set iff some commit line has it as its third field. |
| GitAnalyzer.FrequencyBounds | code_debt_detective.py:327-339 | The frequency is 0 for no commits. Otherwise it lies between 1 and n. |
| GitAnalyzer.FrequencyThreshold | code_debt_detective.py:301 | The frequency exceeds 10 iff `n > 10 * max(d, 1)`. |
| GitAnalyzer.MentionsKeywordMeans | code_debt_detective.py:349 | `any(keyword in message ...)` holds iff one of the keywords is a substring of the message. |
| GitAnalyzer.CountDebtCommits | code_debt_detective.py:341-352 | The counter loop counts the lines that have a pipe character and whose lower-cased last field contains a debt keyword. |
| GitAnalyzer.DebtCommitCountIsCardinality | code_debt_detective.py:341-352 | The count is the number of positions that hold a debt commit, and it is at most n. |
| GitAnalyzer.SplitCommitLine | code_debt_detective.py:335 | A line of the `git log` format (hash, author, date, subject, joined by the pipe character) with no pipe inside a field splits into exactly those four fields. |
| GitAnalyzer.WellFormedCommit | code_debt_detective.py:334-349 | On such a line the date is the third field. The debt test reads only the lower-cased subject and looks for a keyword anywhere in it. |
| GitAnalyzer.GetDebtTrends | code_debt_detective.py:291-321 | From the git output, the method returns the metrics of `DebtTrends` on the commit lines. No output, or blank output, gives none. |
| GitAnalyzer.DebtTrendsRule | code_debt_detective.py:299-321 | There are at most two metrics. "High Commit Frequency" is present iff `n > 10 * max(d, 1)`; it carries the frequency as its value, trend "increasing", medium risk and its fixed description. "Technical Debt Commits" is present iff `5 * count > n`; it carries the count as its value, trend "concerning", high risk and its fixed description. When both are present, the frequency metric comes first. |
| GitAnalyzer.FifteenCommitsExample | code_debt_detective.py:311-319 | With 15 commits on 3 dates, 2 debt commits give no metric and 4 give only the debt metric. |
| HealthScorer.HealthScore | code_debt_detective.py:774-793 | The score lies in [0, 100], and no findings give 100. |
| HealthScorer.CalculateHealthScore | code_debt_detective.py:774-793 | The penalty loop gives `max(0, 100 - penalty)` with the penalties 10/5/2/1, and 100 for an empty list. |
| HealthScorer.PenaltyByCounts | code_debt_detective.py:780-789 | The penalty is 10 per critical, 5 per high, 2 per medium and 1 per low finding. |
| HealthScorer.PenaltyBounds | code_debt_detective.py:780-789 | Each finding costs between 1 and 10 points. |
| HealthScorer.HealthScoreOrderIndependent | code_debt_detective.py:774-793 | The score depends only on the multiset of severities. |
| HealthScorer.AppendNeverRaises | code_debt_detective.py:774-793 | One more finding lowers the score by its penalty, stopping at 0. It never raises the score. |
| HealthScorer.ScoreExtremes | code_debt_detective.py:774-793 | The score is 100 iff there are no findings. With findings, it is 0 iff the penalty reaches 100. |
| ReportAssembler.CountBySeverity | code_debt_detective.py:429-431 | The map has exactly the four severity values as keys, and each holds the number of findings of that severity. |
| Models.SeverityCountsSum | code_debt_detective.py:429-431 | The four severity counts add up to the number of findings. |
| ReportAssembler.GroupByType | code_debt_detective.py:433-438 | The keys are the types present, in first-appearance order. Each group holds that type's findings in input order. |
| ReportAssembler.KindsMembers | code_debt_detective.py:433-438 | A type is a key iff some finding has it. |
| ReportAssembler.OfKindCount | code_debt_detective.py:433-438 | A group holds only its own type, and as many findings as there are of that type. |
| ReportAssembler.GroupsPartition | code_debt_detective.py:433-438 | The group sizes add up to the number of findings: the groups partition the findings. |
| ReportAssembler.Shown | code_debt_detective.py:519 | The first `cap` items are shown, or all of them when there are fewer: exactly `min(size, cap)` items, a prefix of the group. |
| ReportAssembler.MoreCount | code_debt_detective.py:535-536 | The "... and N more" line is present iff the group is larger than the cap, and then N is the size minus the cap. |
| ReportAssembler.EscapeHtmlIsSinglePass | code_debt_detective.py:522-524 | Because `&` is replaced first, the three chained replacements escape each character exactly once. In particular, the `&` of an inserted `&lt;` or `&gt;` is not escaped again. |
| ReportAssembler.EscapeRoundTrip | code_debt_detective.py:522-524 | Decoding the three entities gives back the original text. |
| ReportAssembler.EscapeEachRoundTrip | code_debt_detective.py:522-524 | The per-character escape, which equals the chain, decodes back to the original. |
| ReportAssembler.EscapedHasNoAngles | code_debt_detective.py:522-524 | The escaped text holds no `<` and no `>`. |
| ReportAssembler.SummaryHtml | code_debt_detective.py:441-442 | The embedded summary holds no newline, and turning each `<br>` back into a newline and decoding the three entities gives back the summary. |
| ReportAssembler.BuildHtmlSections | code_debt_detective.py:513-538 | The section loop builds one section per type in first-appearance order. |
| ReportAssembler.RenderSection | code_debt_detective.py:514-536 | One group's block has its size, its first five findings escaped, and its "more" count. |
| ReportAssembler.RenderItems | code_debt_detective.py:519-533 | The item loop escapes the description, the fix and the path of each shown finding. |
| ReportAssembler.HtmlSectionsRule | code_debt_detective.py:502-538 | No findings give no sections. Otherwise each section has its type's true count, which is positive. It shows exactly `min(size, 5)` findings, the first ones of its type in input order, with no `<` or `>` in their descriptions. Its "more" count is the rest of the group. |
| ReportAssembler.CountByType | code_debt_detective.py:371-373 | `smell_counts` maps each type present to its number of findings. |
| ReportAssembler.CountItems | code_debt_detective.py:375 | Listing the counts dictionary in insertion order gives each type present, in first-appearance order, with its count. |
| ReportAssembler.AggregateSummary | code_debt_detective.py:366-386 | The figures are the total, the critical count, the high count, the five most common types, and the metric names in order. |
| ReportAssembler.TopSmellsRule | code_debt_detective.py:375 | The top list has exactly `min(5, number of types)` types, each with its true positive count, from most to least frequent. No type left out occurs more often than a listed one. Types with equal counts keep their first-appearance order. |
| Sorting.SortDescSorted | code_debt_detective.py:851-853 | The descending sort yields a permutation ordered by non-increasing key. |
| Sorting.SortDescStable | code_debt_detective.py:851-853 | The sort is stable: elements with equal keys keep their input order. |
| Sorting.SortStringsSorted | code_debt_detective.py:847 | Distinct keys come out in strictly ascending code-point order. |
| Sorting.SortStringsPermutes | code_debt_detective.py:847 | Sorting keeps exactly the keys it was given. |
| ConsoleReport.ConsoleScoreAgrees | code_debt_detective.py:816-824 | The console's score from the severity counts equals `_calculate_health_score` on the same findings. |
| ConsoleReport.StatusBand | code_debt_detective.py:827-834 | The status is Excellent iff score ≥ 90, Good iff 70 ≤ score < 90, Needs Attention iff 50 ≤ score < 70, and Critical iff score < 50. |
| ConsoleReport.StatusBandMonotone | code_debt_detective.py:827-834 | A higher score never shows a worse status. |
| ConsoleReport.StatusNeverImproves | code_debt_detective.py:774-834 | One more finding never improves the status. |
| ConsoleReport.BuildConsoleGroups | code_debt_detective.py:847-864 | Built from the grouping dictionary, the listing equals `ConsoleGroups`. |
| ConsoleReport.ShowGroups | code_debt_detective.py:847-864 | The loop over the sorted keys sorts each group by severity and caps it at three. |
| ConsoleReport.ConsoleGroupsRule | code_debt_detective.py:837-864 | The groups come in strictly ascending type order, one per type present and only for types present. Each group has its type's count, shows exactly `min(size, 3)` findings, and its "more" count is the rest. |
| ConsoleReport.GroupViewsRule | code_debt_detective.py:847-864 | For any strictly ascending listing of the types present, the groups are one per type present, each with its type's count, exactly `min(size, 3)` findings shown, and the rest as its "more" count. |
| ConsoleReport.ConsoleGroupOrder | code_debt_detective.py:851-855 | Within a group, the listing is the group reordered by descending severity rank, and stable within a rank. The three shown are at least as severe as any finding not shown. |
| ConsoleReport.CountRecommendations | code_debt_detective.py:879-889 | The first three recommendations appear iff critical > 0, high > 0 and total > 20, each at most once. |
| ConsoleReport.Recommendations | code_debt_detective.py:876-893 | The corrected block. URGENT iff there is a critical finding. HIGH PRIORITY iff there is a high one. SYSTEMATIC iff there are more than 20 findings. DEBT TRACKING iff there are more than 5 debt comments. No recommendation repeats. |
| ConsoleReport.DebtGroupSize | code_debt_detective.py:891 | Looked up with an empty default, the `technical_debt_comment` group holds every debt comment. |
| ConsoleReport.RecommendationsAsWrittenRule | code_debt_detective.py:837-893 | As written, no findings end the block in `UnboundLocalError` after printing nothing. With findings, it prints exactly `Recommendations`. |
| ConsoleReport.DisplayConsoleReport | code_debt_detective.py:796-893 | The view holds the total, the four severity counts, a score equal to `_calculate_health_score` and its status, the sorted capped groups, the metrics, and the corrected recommendations. With findings, those recommendations are exactly what the block as written prints. |
| ConsoleReport.DetailedIssues | code_debt_detective.py:837-864 | The detailed-issues block gives exactly the sorted, capped console groups, and the size of the debt-comment group. |
| Text.JoinSplit | code_debt_detective.py:209 | Joining the pieces of `split(sep)` with `sep` gives back the text. |
| Text.SplitJoin | code_debt_detective.py:335 | Splitting a join of separator-free pieces gives back the pieces. |
| Text.StrLessTotal | code_debt_detective.py:847 | The code-point order the sort uses is total on distinct strings. |
| Text.StrLessTransitive | code_debt_detective.py:847 | The code-point order is transitive. |
| ConsoleReport.SameCounts | code_debt_detective.py:805-807 | The counts built in place are the console's severity-count map. |

## Left out

- File system and reading:
  - `rglob`, `stat` and `Path.resolve` are replaced by a list of `(path, size)` entries. A size that cannot be read becomes a missing size, which drops the file as the `OSError` handler does.
  - Reading a file becomes an optional content, where a missing content is a read that raised.
  - `errors='ignore'` decoding is not modelled.
- `ast.parse` is a parameter that returns a tree, a syntax error, or another exception.
  - `AsyncFunctionDef`, `ClassDef` and every other node kind count as "other". `_analyze_python_file` only tests for `ast.FunctionDef`.
  - Python's recursion limit is not modelled.
- The git subprocess, the `.git` check, its return code and timeout, and the clock (`since_date`) are one optional log string. A missing log stands for any of the `return []` paths.
- The OpenAI call and its fallback prose, the HTML/CSS template text, the JSON and HTML file writes, `print`, the icons, and the `replace('_', ' ').title()` headings are left out. No computation depends on them.
- Floating point:
  - The commit frequency is an exact `real`, and confidence scores are whole percentages.
  - Both thresholds are proved equal to integer conditions (`n > 10 * max(d, 1)`, `5 * count > n`), so rounding cannot change them for realistic counts.
  - The `:.0%` formatting is not modelled.
- Case folding is ASCII only in `Text.Upper` and `Text.Lower`. Python's `upper`/`lower` also map other letters. `re.IGNORECASE` on the ASCII markers also matches a few non-ASCII letters, which the model does not: U+212A KELVIN SIGN for the K of HACK, and U+0130 and U+0131 (dotted capital and dotless small I) for the I of FIXME.
- DisplayConsoleReport: builds the corrected recommendations, so with no findings it returns a view with no recommendations, where the source raises `UnboundLocalError` at code_debt_detective.py:891 (see Findings; `ConsoleReport.RecommendationsAsWrittenRule` models that outcome).
- GitAnalyzer.FifteenCommitsExample: stated on any 15 lines with 3 distinct dates, not on concrete commit strings.
- `analysis_depth` is never read, so it is not modelled.
- The following are not part of this model because they are plumbing: `ReportViewer` (browser, sockets, threads), the interactive `main` menu, logging, and `asyncio`.
- The `except Exception` around each file in `scan_codebase` is not modelled separately. `_analyze_file` already catches and returns no findings.

## Findings

| source | as written | input that shows it | evidently intended | confidence | as-written member | corrected member |
|---|---|---|---|---|---|---|
| code_debt_detective.py:891 | `smell_groups` is assigned only inside `if smells:` (:837-842), but the DEBT TRACKING test reads it unconditionally, so the function raises `UnboundLocalError` | `smells == []` (any metrics) | finish the recommendations with an empty `smell_groups`, so no DEBT TRACKING line is printed | not executed | ConsoleReport.RecommendationsAsWrittenRule | ConsoleReport.Recommendations |
