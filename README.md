# GitLab metrics exporter: a verified model

This project models the core of a small exporter. The exporter reads the
user's GitLab project memberships and, for each project, the logs of three
CI jobs. From the logs it extracts:

- a pylint code-quality rating;
- a bandit count of security issues;
- a safety count of vulnerable dependencies.

For each project it then writes five score points to an InfluxDB bucket:
merge requests, code quality, security, dependencies and test coverage.
The merge-request count is converted to a float and the coverage is a
float. The security and dependency counts are Python ints. The code-quality
score is a float, or the int `0` when the log holds no rating line.

The model covers the part of `main.py` that works on data already in
memory:

- `gid.dfy`: `extract_api_id_from_gid`, which turns a GraphQL global ID
  such as `gid://gitlab/CI::Build/482617` into its numeric REST id. The
  regular-expression search is modelled as a leftmost-position search with
  greedy groups. It is tied by lemmas to a separate description of what the
  pattern matches.
- `float_literal.dfy`: Python's `float()` applied to the code-quality
  capture, over its alphabet `[-0-9.]`. It accepts an optional leading
  `-`, at most one `.` and at least one digit, and gives the exact decimal
  value. Anything else is a `ValueError`, modelled as an error result.
- `log_metrics.dfy`: the text-matching halves of `get_code_quality`,
  `get_security_sast_issues` and `get_vulnerable_dependencies`, taking the
  job log text as a parameter.
- `entities.dfy`: the records of `entities.py` and `models_storage.py`.
  `ProjectDetailEntity` is a class because the run overwrites its three job
  scores in place.
- `assembler.dfy`: `create_project_entity`.
- `pipeline.dfy`:
  - `build_db_models`, which appends the five points one by one;
  - the score-update loop in `main`, as a method over the list of project
    details that mutates them in place and collects the written points;
  - `main` itself, from the list of project nodes to the written points.

`scenario.dfy` works one run through end to end: a single project whose
logs rate it 9.10/10 and report one medium-severity issue and no vulnerable
dependency.

`text.dfy` holds the character classes and search helpers shared by the
regular expressions. `wrappers.dfy` holds `Option` and `Result`.

Three behaviours of the source are kept as written:

- A code-quality rating that `float()` rejects stops the whole run. The
  earlier projects' points are already written, and later projects are
  never scored.
- A project with an empty pipeline list makes `create_project_entity`
  fail. The source indexes `nodes[0]` without a check. Because the list
  comprehension in `main` runs before any scoring, nothing is written.
- The security and dependency rules capture a single digit. A count of ten
  or more therefore reads as its first digit after a severity label, and
  as no match at all in the safety line.

## Model

| member | source | states |
|---|---|---|
| Gid.FirstMatch | main.py:155 | `None` exactly when no position passes the match check; otherwise the leftmost position that does |
| Gid.ExtractApiIdFromGid | main.py:154-158 | the result is `""` or a string of digits |
| Gid.IdGroup | main.py:157 | the second group of a match is a non-empty run of digits |
| Gid.MatchAtIff | main.py:155 | the search's check at i holds iff the pattern `gid://gitlab/([a-zA-Z0-9:]+)/(\d+)`, with `\d` read as ASCII `0-9`, matches some span starting at i |
| Gid.ExtractEmptyIff | main.py:154-158 | the result is `""` exactly when the pattern occurs nowhere in the input |
| Gid.ExtractIsInfix | main.py:155-157 | a non-empty result is all digits and is a substring of the input |
| Gid.LeftmostSpanIsFirstMatch | main.py:155 | the search stops at a match that no earlier match precedes |
| Gid.ExtractIsLeftmostGreedyGroup | main.py:155-157 | the result is the id group of the leftmost match, extended as far as the digits go |
| Gid.WellFormedGidYieldsId | main.py:154-157 | for `gid://gitlab/<type>/<digits>` followed by a non-digit or the end, the result is exactly `<digits>` |
| Gid.BuildIdExample | main.py:154-157 | `gid://gitlab/CI::Build/482617` gives `482617` |
| Gid.TrailingTextExample | main.py:155-157 | `gid://gitlab/Project/42x` gives `42` |
| Gid.WithoutSchemeNothingExtracted | main.py:155-158 | an input in which `gid://gitlab/` occurs nowhere gives `""` |
| Gid.MissingSchemeExample | main.py:156-158 | the scheme-less `gitlab/Project/42` gives `""` |
| FloatLiteral.ParseFloat | main.py:166 | on a `[-0-9.]` capture, `float()` succeeds exactly on the accepted shapes; a failure carries the rejected text |
| FloatLiteral.WellSplitIff | main.py:166 | splitting at the first `.` into two digit strings, not both empty, succeeds exactly on the accepted shapes |
| FloatLiteral.WellSplitIsShaped | main.py:166 | a text that splits well has the accepted shape |
| FloatLiteral.ShapedIsWellSplit | main.py:166 | a text of the accepted shape splits well |
| FloatLiteral.ParseDecimalLiteral | main.py:166 | `w.f` and `-w.f` read back as `w + f/10^len(f)` and its negation |
| FloatLiteral.ParseIntegerLiteral | main.py:166 | `w` and `-w` read back as the integer and its negation |
| FloatLiteral.RejectedLiterals | main.py:166 | `""`, `-`, `.`, `-.`, `1.2.3` and `9-` are rejected |
| FloatLiteral.RatingLiteral | main.py:166 | `8.42` reads as 8.42 |
| FloatLiteral.NegativeRatingLiteral | main.py:166 | `-1.0` reads as -1.0 |
| LogMetrics.FirstRating | main.py:164 | `None` exactly when no position starts a rating line; otherwise the leftmost one |
| LogMetrics.ScoreText | main.py:164-166 | the captured score is made only of `-`, digits and `.` |
| LogMetrics.CodeQuality | main.py:164-167 | 0 when no rating line occurs; an error only when a rating line's capture is not a number |
| LogMetrics.RatingAtIff | main.py:164 | the search's check at i holds iff the pattern `Your code has been rated at ([-0-9.]*)/10` matches a span starting at i |
| LogMetrics.CodeQualityWithoutRating | main.py:165-167 | a trace where the pattern matches nowhere scores `Ok(0.0)` |
| LogMetrics.CodeQualityOfLeftmostRating | main.py:164-166 | the score is `float()` of the capture of the leftmost match |
| LogMetrics.RatingLine | main.py:164-166 | a trace that is one rating line scores `float()` of the text between label and `/10` |
| LogMetrics.CodeQualityExample | main.py:164-166 | a line rating 8.42 scores 8.42 |
| LogMetrics.NegativeCodeQualityExample | main.py:164-166 | a line rating -1.0 scores -1.0 |
| LogMetrics.EmptyScoreExample | main.py:164-166 | an empty capture makes the rule fail instead of scoring 0 |
| LogMetrics.FirstDigitRule | main.py:173-176 | `None` exactly when `prefix(\d)suffix` matches nowhere; otherwise its leftmost match |
| LogMetrics.DigitAfter | main.py:178-181 | a value from 0 to 9; a non-zero value is the digit of a match |
| LogMetrics.DigitAfterLeftmost | main.py:173-181 | the value is the digit of the leftmost match, whatever follows |
| LogMetrics.DigitAfterAbsentLabel | main.py:178-181 | a label that occurs nowhere contributes 0 |
| LogMetrics.MissingInitialContributesNothing | main.py:178-181 | a label whose first character is absent from the trace contributes 0 |
| LogMetrics.SecuritySastIssues | main.py:173-183 | the sum of the four per-label digits is at most 36 |
| LogMetrics.SecurityExample | main.py:173-183 | `Low: 2` and `High: 1` add up to 3 |
| LogMetrics.SecurityExampleLow | main.py:174 | the `Low: ` rule reads 2 in that trace |
| LogMetrics.SecurityExampleHigh | main.py:176 | the `High: ` rule reads 1 in that trace |
| LogMetrics.NoSeverityLabelNoIssues | main.py:173-183 | a report in which none of the four severity labels occurs has 0 security issues |
| LogMetrics.VulnerableDependencies | main.py:189-192 | at most 9; a non-zero count comes from a `Safety found <d> vulnerabilities` match |
| LogMetrics.DependenciesExample | main.py:189-191 | `Safety found 5 vulnerabilities` counts 5 |
| LogMetrics.MultiDigitCountIgnored | main.py:189-192 | a count of two or more digits does not match, so the result is 0 |
| Entities.ProjectDetail.constructor | entities.py:18-26 | a new detail holds exactly the given fields |
| Entities.Values | entities.py:18-26 | the records of a list of details, one per detail and in order |
| Assembler.AssembleProject | main.py:112-151 | an error exactly when there is no pipeline. Otherwise: scores 0.0; project name and merge-request count from the project node; job names and test coverage from the newest pipeline; every id is the extractor applied to the matching global ID, hence `""` or digits |
| Assembler.AssembledIdIsEmptyIff | main.py:144 | the project id is `""` exactly when the project's global ID holds no match |
| Assembler.OnlyLatestPipelineMatters | main.py:113 | pipelines after the first do not change the result |
| Assembler.CreateProjectEntity | main.py:112-151 | allocates a new detail whose contents are the assembled record, or reports the missing pipeline |
| Pipeline.DbModelsShape | main.py:195-241 | five points, with metrics in the fixed order, one time, the project's id and name, and each metric's value from the record |
| Pipeline.DbModelsCoverEachMetricOnce | main.py:201-239 | every metric name appears exactly once among a project's points |
| Pipeline.BuildDbModels | main.py:195-241 | the appended points are the record's five points at the given time |
| Pipeline.Score | main.py:27-29 | scoring fails exactly when the code-quality rule fails, with its error |
| Pipeline.ScoresOfParsedLogs | main.py:27-29 | with the exporter's parsers: the code-quality score is the parsed rating; the security and dependency scores equal the counts those parsers return, so they lie in 0..36 and 0..9 |
| Pipeline.ScoreKeepsIdentity | main.py:27-29 | scoring changes only the three scores; ids, names, merge requests and the test job are unchanged |
| Pipeline.ScoreIgnoresOldScores | main.py:27-29 | the outcome does not depend on the scores the record held before |
| Pipeline.Completed | main.py:26-32 | the number of projects before the first one whose scoring fails |
| Pipeline.ScoredPrefix | main.py:26-29 | the first n records, each after scoring |
| Pipeline.Published | main.py:31-32 | five points per processed project |
| Pipeline.PublishedAt | main.py:26-32 | point 5k+m written is point m of project k at project k's clock reading |
| Pipeline.PublishedPointsNameTheirProject | main.py:31-32 | every written point names its project, its clock reading and its metric |
| Pipeline.ScoreProject | main.py:27-29 | the detail's new contents are the scored record. On a code-quality error the detail is unchanged and the error is returned |
| Pipeline.ProcessProject | main.py:26-32 | scores one detail in place and returns its five points; every other detail in the list is unchanged |
| Pipeline.RunProject | main.py:26-32 | one pass keeps the loop's invariant: scored prefix, untouched suffix, points so far |
| Pipeline.ProcessProjects | main.py:26-32 | stops exactly at the first failing project. The details become the scored prefix followed by the untouched rest, and the written points are those of the scored prefix, in list order |
| Pipeline.AssembleAll | main.py:24 | succeeds exactly when every project has a pipeline, with one record per node; otherwise it fails at the first project without one |
| Pipeline.AssembleAllStopsAtFirstError | main.py:24 | the error is that of the first project without a pipeline |
| Pipeline.CreateProjectEntities | main.py:24 | new, distinct details whose contents are the assembled records, or the first assembly error |
| Pipeline.Run | main.py:17-32 | An assembly error writes nothing. Otherwise the run writes the points of the projects before the first code-quality failure and reports that failure |
| Scenario.BuildGidYieldsId | main.py:154-157 | `gid://gitlab/CI::Build/<digits>` gives `<digits>` |
| Scenario.DemoProjectId | main.py:144 | the project's global ID `gid://gitlab/Project/42` gives `42` |
| Scenario.DemoTestJob | main.py:115-120 | the test job becomes id `1`, name `test`, coverage 91.5 |
| Scenario.DemoPylintJob | main.py:122-127 | the pylint job becomes id `2` with score 0 |
| Scenario.DemoBanditJob | main.py:129-134 | the bandit job becomes id `3` with score 0 |
| Scenario.DemoSafetyJob | main.py:136-141 | the safety job becomes id `4` with score 0 |
| Scenario.DemoAssembled | main.py:112-151 | the project node assembles to `demo`, id `42`, 3 merge requests, jobs `1`-`4`, scores 0 |
| Scenario.AssembleSingle | main.py:24 | a one-project list with a pipeline assembles to that project's record |
| Scenario.DemoAssembly | main.py:24 | assembling the one-project answer gives exactly that record |
| Scenario.DemoRating | main.py:166 | `9.10` reads as 9.1 |
| Scenario.DemoCodeQuality | main.py:164-166 | the rating line `9.10/10` scores 9.1 |
| Scenario.DemoSecurity | main.py:173-183 | `Medium: 1` with no other severity label counts 1 issue |
| Scenario.DemoDependencies | main.py:189-192 | a safety log without the report line counts 0 |
| Scenario.DemoPylintLog | main.py:27 | the project's pylint log scores 9.1 |
| Scenario.DemoBanditLog | main.py:28 | the project's bandit log counts 1 |
| Scenario.DemoSafetyLog | main.py:29 | the project's safety log counts 0 |
| Scenario.DemoScore | main.py:27-29 | scoring sets code quality 9.1, security 1 and dependencies 0 and keeps the rest |
| Scenario.CompletedSingle | main.py:26-29 | a single project that scores is completed, and the scored prefix is its scored record |
| Scenario.DemoCompleted | main.py:26-29 | the run scores its one project without failure |
| Scenario.DemoPublished | main.py:195-241 | the scored project yields exactly the five points `merge_request` 3.0, `code_quality` 9.1, `security_sast` 1.0, `vulnerable_dependencies` 0.0 and `test_coverage` 91.5, all for project `42`/`demo` |
| Scenario.DemoRun | main.py:17-32 | the whole run on that one-project answer reports no failure and writes exactly those five points |

## Left out

- Configuration (`config.py`, the `ENV` variable, dotenv loading) is not
  part of this model; the run takes its inputs as parameters.
- `build_authentication_header`, `build_graphql_client` and
  `build_influx_client` construct third-party clients. They are left out.
- `get_project_details_query` is a network call. Its result is the
  `seq<ProjectNode>` that `Pipeline.Run` receives.
- `get_job_trace` is an HTTP GET. It becomes the `TraceSource` parameter,
  a function from (project id, job id) to the log text. Fetch errors are
  not modelled: a failing `requests.get` (main.py:58) would stop the run
  part-way, which a total `TraceSource` cannot express.
- `write_to_influx` is a database write. The model collects the points it
  would write in the `written` sequence, in order. Write errors are not
  modelled.
- `datetime.now()` is replaced by a clock reading per project, a
  parameter.
- Floating point: scores and coverage are `real`, so IEEE rounding of
  `float()` and of the coverage values is not modelled.
- Integer scores: `get_security_sast_issues` (main.py:183) and
  `get_vulnerable_dependencies` (main.py:191-192) return Python ints.
  `get_code_quality` returns the int `0` when no rating line occurs
  (main.py:167). main.py:27-29 store these values unchanged, and
  `build_db_models` passes them on without `float()` (main.py:214, 222,
  230). Only the merge-request count is converted (main.py:206). The model
  makes every score a `real`, so it does not capture the field type the
  database client derives from the Python type. The `security_sast` and
  `vulnerable_dependencies` points are written as integer fields, and
  `code_quality` is an integer field exactly when no rating line occurs.
- `float()` is modelled only on the alphabet `[-0-9.]` the capture can
  contain. Whitespace, exponents, `inf`/`nan` and underscores cannot occur
  there.
- `null` fields in the GraphQL answer are not modelled; only the empty
  pipeline list is, as an error. In the source a `null` job raises
  `TypeError` when its fields are read (main.py:117, main.py:124).
- A `null` test-job coverage (a test job without a coverage report) is not
  modelled: the source stores `None` (main.py:118) and forwards it as the
  `test_coverage` point's score (main.py:238), whereas the model's coverage
  is always a number.
- The job entities are held by value in the detail's fields. The source
  creates a fresh job entity per detail and never shares one, so aliasing
  between details' jobs is not modelled.
- The `main()` call at import time (main.py:252) is left out.
- Gid.ExtractApiIdFromGid: its own contract states only the shape of the
  result. The match semantics are stated by ExtractEmptyIff,
  ExtractIsLeftmostGreedyGroup and WellFormedGidYieldsId.
- Gid.MatchAtIff: Python's `re` on a `str` pattern reads `\d` as any
  Unicode decimal digit; the model reads it as ASCII `0-9`, so an id such as
  `gid://gitlab/Project/` followed by Arabic-Indic digits yields `""` here
  while the source returns those digits. The same reading holds for
  Gid.ExtractEmptyIff, Gid.ExtractIsLeftmostGreedyGroup and
  Gid.WellFormedGidYieldsId. GitLab global IDs carry ASCII digits.
- LogMetrics.DigitAfter: `\d` in the bandit and safety rules (main.py:173-176,
  main.py:189) is likewise read as ASCII `0-9`, and the digit's value is that
  of an ASCII digit; a non-ASCII decimal digit after a label counts 0 here
  where the source counts its value. The same holds for
  LogMetrics.FirstDigitRule, LogMetrics.SecuritySastIssues and
  LogMetrics.VulnerableDependencies. The bandit and safety reports print
  ASCII digits.
