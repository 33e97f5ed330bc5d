/**
 * One run worked through end to end. A single project, 42 "demo", has three
 * open merge requests and a test job with 91.5% coverage. Its pylint log
 * rates it 9.10/10, its bandit log reports one medium-severity issue, and
 * its safety log holds no report line. The run writes exactly five points.
 */
module Scenario {
  import opened Wrappers
  import opened Text
  import opened Gid
  import opened FloatLiteral
  import opened LogMetrics
  import opened Entities
  import opened Assembler
  import opened Pipeline

  const PYLINT_LOG := RATING_LABEL + "9.10" + RATING_SUFFIX
  const BANDIT_LOG := "Medium: 1"
  const SAFETY_LOG := "No known security vulnerabilities found."

  /** The project as the membership query returns it. */
  const DEMO_NODE := ProjectNode("gid://gitlab/Project/42", "demo", 3, [
    PipelineNode(
      JobNode("gid://gitlab/CI::Build/1", "test", 91.5),
      JobNode("gid://gitlab/CI::Build/2", "pylint", 0.0),
      JobNode("gid://gitlab/CI::Build/3", "bandit", 0.0),
      JobNode("gid://gitlab/CI::Build/4", "safety", 0.0))])

  /** The detail create_project_entity builds for it. */
  const DEMO_RECORD := ProjectRecord("demo", "42", 3, JobCoverage("1", "test", 91.5),
    JobScore("2", "pylint", 0.0), JobScore("3", "bandit", 0.0), JobScore("4", "safety", 0.0))

  /** The same detail once its three logs are scored. */
  const DEMO_SCORED := ProjectRecord("demo", "42", 3, JobCoverage("1", "test", 91.5),
    JobScore("2", "pylint", 9.1), JobScore("3", "bandit", 1.0), JobScore("4", "safety", 0.0))

  /** The job logs of project 42, by job id. */
  function DemoTrace(project: string, job: string): string {
    if job == "2" then PYLINT_LOG
    else if job == "3" then BANDIT_LOG
    else if job == "4" then SAFETY_LOG
    else ""
  }

  /** The five points the run writes at clock reading t. */
  function DemoPoints(t: Timestamp): seq<FloatScoreModel> {
    [ FloatScoreModel(t, "42", "demo", "merge_request", 3.0),
      FloatScoreModel(t, "42", "demo", "code_quality", 9.1),
      FloatScoreModel(t, "42", "demo", "security_sast", 1.0),
      FloatScoreModel(t, "42", "demo", "vulnerable_dependencies", 0.0),
      FloatScoreModel(t, "42", "demo", "test_coverage", 91.5) ]
  }

  /** A CI build's global ID shortens to its numeric id. */
  lemma BuildGidYieldsId(g: string, d: string)
    requires |d| > 0 && AllDigits(d)
    requires g == "gid://gitlab/CI::Build/" + d
    ensures ExtractApiIdFromGid(g) == d
  {
    assert g == SCHEME + "CI::Build" + "/" + d + "";
    WellFormedGidYieldsId("CI::Build", d, "");
  }

  /** The project's global ID shortens to 42. */
  lemma DemoProjectId(node: ProjectNode)
    requires node == DEMO_NODE
    ensures ExtractApiIdFromGid(node.id) == "42"
  {
    assert node.id == SCHEME + "Project" + "/" + "42" + "";
    WellFormedGidYieldsId("Project", "42", "");
  }

  /** The test job of the newest pipeline. */
  lemma DemoTestJob(node: ProjectNode)
    requires node == DEMO_NODE
    ensures CoverageJob(node.pipelines[0].testJob) == DEMO_RECORD.testJob
  {
    BuildGidYieldsId(node.pipelines[0].testJob.id, "1");
  }

  /** The pylint job of the newest pipeline. */
  lemma DemoPylintJob(node: ProjectNode)
    requires node == DEMO_NODE
    ensures ScoreJob(node.pipelines[0].pylintJob) == DEMO_RECORD.pylintJob
  {
    BuildGidYieldsId(node.pipelines[0].pylintJob.id, "2");
  }

  /** The bandit job of the newest pipeline. */
  lemma DemoBanditJob(node: ProjectNode)
    requires node == DEMO_NODE
    ensures ScoreJob(node.pipelines[0].banditJob) == DEMO_RECORD.banditJob
  {
    BuildGidYieldsId(node.pipelines[0].banditJob.id, "3");
  }

  /** The safety job of the newest pipeline. */
  lemma DemoSafetyJob(node: ProjectNode)
    requires node == DEMO_NODE
    ensures ScoreJob(node.pipelines[0].safetyJob) == DEMO_RECORD.safetyJob
  {
    BuildGidYieldsId(node.pipelines[0].safetyJob.id, "4");
  }

  /** The record built from the project's newest pipeline. */
  lemma DemoAssembled(node: ProjectNode)
    requires node == DEMO_NODE
    ensures node.pipelines != [] && Assembled(node) == DEMO_RECORD
  {
    DemoProjectId(node);
    DemoTestJob(node);
    DemoPylintJob(node);
    DemoBanditJob(node);
    DemoSafetyJob(node);
  }

  /** Assembly: the record of project 42, with every score at zero. */
  lemma DemoAssembly(nodes: seq<ProjectNode>)
    requires nodes == [DEMO_NODE]
    ensures AssembleAll(nodes) == Ok([DEMO_RECORD])
  {
    var node := nodes[0];
    DemoAssembled(node);
    AssembleSingle(node);
    assert nodes == [node];
  }

  /** A single project with a pipeline assembles to its one record. */
  lemma AssembleSingle(node: ProjectNode)
    requires node.pipelines != []
    ensures AssembleAll([node]) == Ok([Assembled(node)])
  {
    var r := AssembleAll([node]);
    assert r.Ok? && |r.value| == 1 && r.value[0] == Assembled(node);
    assert r.value == [Assembled(node)];
  }

  /** The pylint rating reads as 9.1. */
  lemma DemoRating(t: string)
    requires t == "9.10"
    ensures AllNumeralChars(t) && ParseFloat(t) == Ok(9.1)
  {
    var w, f := "9", "10";
    assert t == w + "." + f;
    DecimalLiteralSplits(w, f, t);
    ParseSplit(t, w, f);
    assert DecimalValue(f) == 10 by {
      assert f[..1] == "1";
    }
  }

  /** One medium-severity issue and no other severity label: one issue. */
  lemma DemoSecurity(trace: string)
    requires trace == BANDIT_LOG
    ensures SecuritySastIssues(trace) == 1
  {
    MissingInitialContributesNothing(trace, UNDEFINED_LABEL);
    MissingInitialContributesNothing(trace, LOW_LABEL);
    MissingInitialContributesNothing(trace, HIGH_LABEL);
    assert LiteralAt(trace, 0, MEDIUM_LABEL) && LiteralAt(trace, 9, "");
    DigitAfterLeftmost(trace, MEDIUM_LABEL, "", 0);
  }

  /** No safety report line: no vulnerable dependency. */
  lemma DemoDependencies(trace: string)
    requires trace == SAFETY_LOG
    ensures VulnerableDependencies(trace) == 0
  {
    forall i: nat ensures !LiteralAt(trace, i, SAFETY_LABEL) {
      NotLiteralAt(trace, i, SAFETY_LABEL);
    }
    DigitAfterAbsentLabel(trace, SAFETY_LABEL, SAFETY_SUFFIX);
  }

  /** The pylint log rates the project 9.1. */
  lemma DemoCodeQuality(trace: string)
    requires trace == PYLINT_LOG
    ensures CodeQuality(trace) == Ok(9.1)
  {
    RatingLine("9.10");
    DemoRating("9.10");
  }

  /** The log of the project's pylint job. */
  lemma DemoPylintLog(r: ProjectRecord)
    requires r == DEMO_RECORD
    ensures CodeQuality(DemoTrace(r.id, r.pylintJob.id)) == Ok(9.1)
  {
    DemoCodeQuality(DemoTrace(r.id, r.pylintJob.id));
  }

  /** The log of the project's bandit job. */
  lemma DemoBanditLog(r: ProjectRecord)
    requires r == DEMO_RECORD
    ensures SecuritySastIssues(DemoTrace(r.id, r.banditJob.id)) == 1
  {
    DemoSecurity(DemoTrace(r.id, r.banditJob.id));
  }

  /** The log of the project's safety job. */
  lemma DemoSafetyLog(r: ProjectRecord)
    requires r == DEMO_RECORD
    ensures VulnerableDependencies(DemoTrace(r.id, r.safetyJob.id)) == 0
  {
    DemoDependencies(DemoTrace(r.id, r.safetyJob.id));
  }

  /** Scoring: 9.1 for code quality, 1 security issue, 0 vulnerable dependencies. */
  lemma DemoScore(r: ProjectRecord)
    requires r == DEMO_RECORD
    ensures Score(r, DemoTrace, ANALYSES) == Ok(DEMO_SCORED)
  {
    DemoPylintLog(r);
    DemoBanditLog(r);
    DemoSafetyLog(r);
    ScoresOfParsedLogs(r, DemoTrace);
  }

  /** The one project is scored without failure. */
  lemma DemoCompleted(rs: seq<ProjectRecord>)
    requires rs == [DEMO_RECORD]
    ensures Completed(rs, DemoTrace, ANALYSES) == 1
    ensures ScoredPrefix(rs, DemoTrace, ANALYSES, 1) == [DEMO_SCORED]
  {
    var r := rs[0];
    DemoScore(r);
    CompletedSingle(r, DemoTrace, ANALYSES);
    assert rs == [r];
  }

  /** A run over a single project that scores completes it. */
  lemma CompletedSingle(r: ProjectRecord, trace: TraceSource, analyses: LogAnalyses)
    requires Score(r, trace, analyses).Ok?
    ensures Completed([r], trace, analyses) == 1
    ensures ScoredPrefix([r], trace, analyses, 1) == [Score(r, trace, analyses).value]
  {
    assert [r][1..] == [];
  }

  /** The scored project's five points, all at the one clock reading. */
  lemma DemoPublished(scored: seq<ProjectRecord>, t: Timestamp)
    requires scored == [DEMO_SCORED]
    ensures Published(scored, [t], 1) == DemoPoints(t)
  {
    assert Published(scored, [t], 1) == DbModels(scored[0], t);
  }

  /** The whole run on project 42: no failure, and exactly the five points. */
  method DemoRun(t: Timestamp) returns (written: seq<FloatScoreModel>, failure: Option<RunError>)
    ensures failure == None
    ensures written == DemoPoints(t)
  {
    DemoAssembly([DEMO_NODE]);
    DemoCompleted([DEMO_RECORD]);
    DemoPublished([DEMO_SCORED], t);
    written, failure := Run([DEMO_NODE], DemoTrace, [t], ANALYSES);
  }
}
