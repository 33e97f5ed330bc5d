/**
 * The exporter's run: each project's three score jobs are scored from their
 * job logs in place, then the project is flattened into five float score
 * points stamped with one clock reading and written to the metrics database.
 */
module Pipeline {
  import opened Wrappers
  import opened Entities
  import opened FloatLiteral
  import opened LogMetrics
  import opened Assembler

  /** The five metrics every project reports, in the order they are written. */
  const METRICS: seq<string> := ["merge_request", "code_quality", "security_sast", "vulnerable_dependencies", "test_coverage"]

  /** Fetching a job's log: (project id, job id) to the log text. */
  type TraceSource = (string, string) -> string

  /** Why a run stops early. */
  datatype RunError = Assembly(assembly: AssemblyError) | Parse(parse: ParseError)

  /** The value a project record reports for a metric, looked up by the metric's name. */
  function MetricScore(r: ProjectRecord, metric: string): real {
    match metric
    case "merge_request" => r.mergeRequests as real
    case "code_quality" => r.pylintJob.score
    case "security_sast" => r.banditJob.score
    case "vulnerable_dependencies" => r.safetyJob.score
    case _ => r.testJob.coverage
  }

  /** The points build_db_models produces for a project record at a given time. */
  function DbModels(r: ProjectRecord, time: Timestamp): seq<FloatScoreModel> {
    [ FloatScoreModel(time, r.id, r.name, "merge_request", r.mergeRequests as real),
      FloatScoreModel(time, r.id, r.name, "code_quality", r.pylintJob.score),
      FloatScoreModel(time, r.id, r.name, "security_sast", r.banditJob.score),
      FloatScoreModel(time, r.id, r.name, "vulnerable_dependencies", r.safetyJob.score),
      FloatScoreModel(time, r.id, r.name, "test_coverage", r.testJob.coverage) ]
  }

  /**
   * A project yields exactly five points, one per metric in the fixed
   * order, all stamped with the same time and naming the project, each
   * carrying the record's value for its metric.
   */
  lemma DbModelsShape(r: ProjectRecord, time: Timestamp)
    ensures var models := DbModels(r, time);
      && |models| == |METRICS|
      && forall k | 0 <= k < |models| ::
        && models[k].metric == METRICS[k]
        && models[k].time == time
        && models[k].projectId == r.id
        && models[k].projectName == r.name
        && models[k].score == MetricScore(r, METRICS[k])
  {
  }

  /** Each metric appears exactly once among a project's points. */
  lemma DbModelsCoverEachMetricOnce(r: ProjectRecord, time: Timestamp)
    ensures forall m :: m in METRICS <==> exists k | 0 <= k < 5 :: DbModels(r, time)[k].metric == m
    ensures forall k, l | 0 <= k < l < 5 :: DbModels(r, time)[k].metric != DbModels(r, time)[l].metric
  {
    var models := DbModels(r, time);
    forall m | m in METRICS
      ensures exists k | 0 <= k < 5 :: models[k].metric == m
    {
      var k :| 0 <= k < 5 && METRICS[k] == m;
      assert models[k].metric == m;
    }
  }

  /**
   * build_db_models: appends the five points one by one; the clock reading
   * is a parameter.
   */
  method BuildDbModels(project: ProjectDetail, time: Timestamp) returns (models: seq<FloatScoreModel>)
    ensures models == DbModels(project.Value(), time)
  {
    models := [];
    var projectId := project.id;
    var projectName := project.name;
    models := models + [FloatScoreModel(time, projectId, projectName, "merge_request", project.mergeRequests as real)];
    models := models + [FloatScoreModel(time, projectId, projectName, "code_quality", project.pylintJob.score)];
    models := models + [FloatScoreModel(time, projectId, projectName, "security_sast", project.banditJob.score)];
    models := models + [FloatScoreModel(time, projectId, projectName, "vulnerable_dependencies", project.safetyJob.score)];
    models := models + [FloatScoreModel(time, projectId, projectName, "test_coverage", project.testJob.coverage)];
  }

  /** The two records agree on everything but the three scores. */
  predicate SameExceptScores(a: ProjectRecord, b: ProjectRecord) {
    && a.name == b.name && a.id == b.id && a.mergeRequests == b.mergeRequests && a.testJob == b.testJob
    && a.pylintJob.id == b.pylintJob.id && a.pylintJob.name == b.pylintJob.name
    && a.banditJob.id == b.banditJob.id && a.banditJob.name == b.banditJob.name
    && a.safetyJob.id == b.safetyJob.id && a.safetyJob.name == b.safetyJob.name
  }

  /**
   * The three log analyses the run applies, one per score job: the
   * code-quality rating, the security issue count and the vulnerable
   * dependency count.
   */
  datatype LogAnalyses = LogAnalyses(
    codeQuality: string -> Result<real, ParseError>,
    securitySast: string -> nat,
    vulnerableDependencies: string -> nat)

  /** The analyses the exporter runs: the three log parsers. */
  const ANALYSES: LogAnalyses := LogAnalyses(CodeQuality, SecuritySastIssues, VulnerableDependencies)

  /**
   * Scoring one project: the code-quality, security and dependency scores
   * computed from the logs of the jobs that produced them. Only the
   * code-quality analysis can fail.
   */
  function Score(r: ProjectRecord, trace: TraceSource, analyses: LogAnalyses): (e: Result<ProjectRecord, ParseError>)
    ensures e.Err? <==> analyses.codeQuality(trace(r.id, r.pylintJob.id)).Err?
    ensures e.Err? ==> e.error == analyses.codeQuality(trace(r.id, r.pylintJob.id)).error
  {
    match analyses.codeQuality(trace(r.id, r.pylintJob.id))
    case Err(error) => Err(error)
    case Ok(quality) =>
      var security := analyses.securitySast(trace(r.id, r.banditJob.id));
      var dependencies := analyses.vulnerableDependencies(trace(r.id, r.safetyJob.id));
      Ok(r.(pylintJob := r.pylintJob.(score := quality),
            banditJob := r.banditJob.(score := security as real),
            safetyJob := r.safetyJob.(score := dependencies as real)))
  }

  /**
   * With the exporter's parsers, the code-quality score is the parsed
   * rating, and the other two are exactly the counts the security and
   * dependency parsers return, within the ranges those parsers allow; a
   * rating line that is not a number fails the project.
   */
  lemma ScoresOfParsedLogs(r: ProjectRecord, trace: TraceSource)
    ensures var e := Score(r, trace, ANALYSES);
      && (e.Err? <==> CodeQuality(trace(r.id, r.pylintJob.id)).Err?)
      && (e.Ok? ==> e.value.pylintJob.score == CodeQuality(trace(r.id, r.pylintJob.id)).value)
      && (e.Ok? ==> e.value.banditJob.score == SecuritySastIssues(trace(r.id, r.banditJob.id)) as real)
      && (e.Ok? ==> e.value.safetyJob.score == VulnerableDependencies(trace(r.id, r.safetyJob.id)) as real)
      && (e.Ok? ==> 0.0 <= e.value.banditJob.score <= 36.0 && 0.0 <= e.value.safetyJob.score <= 9.0)
  {
  }

  /** Scoring changes nothing but the three scores. */
  lemma ScoreKeepsIdentity(r: ProjectRecord, trace: TraceSource, analyses: LogAnalyses)
    requires Score(r, trace, analyses).Ok?
    ensures SameExceptScores(Score(r, trace, analyses).value, r)
  {
  }

  /** Scoring reads the logs afresh, whatever scores the record held before. */
  lemma ScoreIgnoresOldScores(a: ProjectRecord, b: ProjectRecord, trace: TraceSource, analyses: LogAnalyses)
    requires SameExceptScores(a, b)
    ensures Score(a, trace, analyses) == Score(b, trace, analyses)
  {
  }

  /**
   * How many projects a run scores and writes: it stops at the first
   * project whose scoring fails.
   */
  function Completed(rs: seq<ProjectRecord>, trace: TraceSource, analyses: LogAnalyses): (n: nat)
    ensures n <= |rs|
    ensures forall k | 0 <= k < n :: Score(rs[k], trace, analyses).Ok?
    ensures n < |rs| ==> Score(rs[n], trace, analyses).Err?
  {
    if rs == [] || Score(rs[0], trace, analyses).Err? then 0
    else
      var rest := Completed(rs[1..], trace, analyses);
      assert forall k | 1 <= k < 1 + rest :: rs[k] == rs[1..][k - 1];
      1 + rest
  }

  /** The first n records after scoring. */
  function ScoredPrefix(rs: seq<ProjectRecord>, trace: TraceSource, analyses: LogAnalyses, n: nat): (scored: seq<ProjectRecord>)
    requires n <= |rs|
    requires forall k | 0 <= k < n :: Score(rs[k], trace, analyses).Ok?
    ensures |scored| == n
    ensures forall k | 0 <= k < n :: scored[k] == Score(rs[k], trace, analyses).value
  {
    seq(n, k requires 0 <= k < n && Score(rs[k], trace, analyses).Ok? => Score(rs[k], trace, analyses).value)
  }

  /** The points written for the first n scored records, one clock reading per record. */
  function Published(scored: seq<ProjectRecord>, clock: seq<Timestamp>, n: nat): (points: seq<FloatScoreModel>)
    requires n <= |scored| && n <= |clock|
    ensures |points| == 5 * n
  {
    if n == 0 then [] else Published(scored, clock, n - 1) + DbModels(scored[n - 1], clock[n - 1])
  }

  /**
   * The written points come in record order, five per record, each batch
   * being that record's points at that record's clock reading.
   */
  lemma {:induction false} PublishedAt(scored: seq<ProjectRecord>, clock: seq<Timestamp>, n: nat, k: nat, m: nat)
    requires n <= |scored| && n <= |clock|
    requires k < n && m < 5
    ensures Published(scored, clock, n)[5 * k + m] == DbModels(scored[k], clock[k])[m]
  {
    var prefix := Published(scored, clock, n - 1);
    var batch := DbModels(scored[n - 1], clock[n - 1]);
    if k < n - 1 {
      PublishedAt(scored, clock, n - 1, k, m);
      assert (prefix + batch)[5 * k + m] == prefix[5 * k + m];
    } else {
      assert (prefix + batch)[5 * k + m] == batch[m];
    }
  }

  /** A point written for record k names that project and carries its clock reading. */
  lemma PublishedPointsNameTheirProject(scored: seq<ProjectRecord>, clock: seq<Timestamp>, n: nat, k: nat, m: nat)
    requires n <= |scored| && n <= |clock|
    requires k < n && m < 5
    ensures var point := Published(scored, clock, n)[5 * k + m];
      point.projectId == scored[k].id && point.projectName == scored[k].name && point.time == clock[k] && point.metric == METRICS[m]
  {
    PublishedAt(scored, clock, n, k, m);
  }

  /**
   * The body of the loop over project details, up to the points: the three
   * scores are parsed and stored in the project's own score jobs. A
   * code-quality parse error leaves every job as it was.
   */
  method ScoreProject(project: ProjectDetail, trace: TraceSource, analyses: LogAnalyses) returns (failure: Option<ParseError>)
    modifies project
    ensures var scored := Score(old(project.Value()), trace, analyses);
      && (failure.None? <==> scored.Ok?)
      && (failure.Some? ==> scored.error == failure.value && project.Value() == old(project.Value()))
      && (failure.None? ==> project.Value() == scored.value)
  {
    var quality := analyses.codeQuality(trace(project.id, project.pylintJob.id));
    if quality.Err? {
      return Some(quality.error);
    }
    project.pylintJob := project.pylintJob.(score := quality.value);
    var security := analyses.securitySast(trace(project.id, project.banditJob.id));
    project.banditJob := project.banditJob.(score := security as real);
    var dependencies := analyses.vulnerableDependencies(trace(project.id, project.safetyJob.id));
    project.safetyJob := project.safetyJob.(score := dependencies as real);
    return None;
  }

  /**
   * One pass of the loop over the project details, on the i-th of a
   * separate list: score the project's jobs in place, then build its
   * points at the given clock reading. The other projects stay as they were.
   */
  method ProcessProject(projects: seq<ProjectDetail>, i: nat, trace: TraceSource, time: Timestamp, analyses: LogAnalyses)
    returns (models: seq<FloatScoreModel>, failure: Option<ParseError>)
    requires Distinct(projects) && i < |projects|
    modifies projects[i]
    ensures var scored := Score(old(projects[i].Value()), trace, analyses);
      && (failure.None? <==> scored.Ok?)
      && (failure.Some? ==> scored.error == failure.value && projects[i].Value() == old(projects[i].Value()) && models == [])
      && (failure.None? ==> projects[i].Value() == scored.value && models == DbModels(scored.value, time))
    ensures forall k | 0 <= k < |projects| && k != i :: projects[k].Value() == old(projects[k].Value())
  {
    var project := projects[i];
    models := [];
    failure := ScoreProject(project, trace, analyses);
    forall k | 0 <= k < |projects| && k != i
      ensures projects[k].Value() == old(projects[k].Value())
    {
      assert Apart(projects[k], projects[i]);
    }
    if failure.None? {
      models := BuildDbModels(project, time);
    }
  }

  /**
   * A list whose first n projects show the scored records and whose others
   * still show their old records has the spliced sequence as its value.
   */
  lemma ValuesSplice(projects: seq<ProjectDetail>, target: seq<ProjectRecord>, before: seq<ProjectRecord>, n: nat)
    requires |target| == n <= |projects| == |before|
    requires forall k | 0 <= k < n :: projects[k].Value() == target[k]
    requires forall k | n <= k < |projects| :: projects[k].Value() == before[k]
    ensures Values(projects) == target + before[n..]
  {
    var rs := target + before[n..];
    forall k | 0 <= k < |projects| ensures Values(projects)[k] == rs[k] {
      if k < n {
        assert rs[k] == target[k];
      } else {
        assert rs[k] == before[k];
      }
    }
  }

  /**
   * One pass of the loop, placed in the run: the i-th project still shows
   * its record from before the run and the points of the projects before it
   * have been written. The pass either scores the project and writes its
   * points, extending the run by one project, or stops the run at the
   * project whose code-quality rating is not a number.
   */
  method RunProject(projects: seq<ProjectDetail>, i: nat, trace: TraceSource, clock: seq<Timestamp>, analyses: LogAnalyses,
                    written: seq<FloatScoreModel>, ghost before: seq<ProjectRecord>, ghost n: nat, ghost target: seq<ProjectRecord>)
    returns (written': seq<FloatScoreModel>, failure: Option<ParseError>, next: nat)
    requires Distinct(projects) && i < |projects| == |clock| == |before|
    requires n == Completed(before, trace, analyses) && target == ScoredPrefix(before, trace, analyses, n) && i <= n
    requires forall k | 0 <= k < i :: projects[k].Value() == target[k]
    requires forall k | i <= k < |projects| :: projects[k].Value() == before[k]
    requires written == Published(target, clock, i)
    modifies projects[i]
    ensures next == if failure.None? then i + 1 else i
    ensures next <= n
    ensures failure.Some? ==> i == n < |projects| && Score(before[n], trace, analyses) == Err(failure.value)
    ensures forall k | 0 <= k < next :: projects[k].Value() == target[k]
    ensures forall k | next <= k < |projects| :: projects[k].Value() == before[k]
    ensures written' == Published(target, clock, next)
  {
    var models;
    models, failure := ProcessProject(projects, i, trace, clock[i], analyses);
    written' := written;
    next := i;
    if failure.None? {
      written' := written + models;
      next := i + 1;
    }
  }

  /**
   * The loop over the project details: scores each project's jobs in place
   * and writes its points; a code-quality parse error ends the run with the
   * earlier projects' points already written and later projects untouched.
   */
  method ProcessProjects(projects: seq<ProjectDetail>, trace: TraceSource, clock: seq<Timestamp>, analyses: LogAnalyses)
    returns (written: seq<FloatScoreModel>, failure: Option<ParseError>)
    requires |clock| == |projects|
    requires Distinct(projects)
    modifies projects
    ensures var before := old(Values(projects)); var n := Completed(before, trace, analyses);
      && (failure.None? <==> n == |projects|)
      && (failure.Some? ==> Score(before[n], trace, analyses) == Err(failure.value))
      && Values(projects) == ScoredPrefix(before, trace, analyses, n) + before[n..]
      && written == Published(ScoredPrefix(before, trace, analyses, n), clock, n)
  {
    ghost var before := Values(projects);
    ghost var n := Completed(before, trace, analyses);
    ghost var target := ScoredPrefix(before, trace, analyses, n);
    written := [];
    failure := None;
    var i := 0;
    while i < |projects| && failure.None?
      invariant 0 <= i <= n
      invariant failure.Some? ==> i == n < |projects| && Score(before[n], trace, analyses) == Err(failure.value)
      invariant forall k | 0 <= k < i :: projects[k].Value() == target[k]
      invariant forall k | i <= k < |projects| :: projects[k].Value() == before[k]
      invariant written == Published(target, clock, i)
      decreases |projects| - i, if failure.None? then 1 else 0
    {
      written, failure, i := RunProject(projects, i, trace, clock, analyses, written, before, n, target);
    }
    assert i == n;
    ValuesSplice(projects, target, before, n);
  }

  /**
   * The details main builds from the query result, all before any job is
   * scored: the first project without a pipeline aborts the whole list.
   */
  function AssembleAll(nodes: seq<ProjectNode>): (r: Result<seq<ProjectRecord>, AssemblyError>)
    ensures r.Ok? <==> forall k | 0 <= k < |nodes| :: nodes[k].pipelines != []
    ensures r.Ok? ==> |r.value| == |nodes| && forall k | 0 <= k < |nodes| :: r.value[k] == Assembled(nodes[k])
    ensures r.Err? ==> exists k | 0 <= k < |nodes| ::
      && (forall l | 0 <= l < k :: nodes[l].pipelines != [])
      && nodes[k].pipelines == [] && r.error == NoPipeline(nodes[k].id)
  {
    if nodes == [] then Ok([])
    else if nodes[0].pipelines == [] then Err(NoPipeline(nodes[0].id))
    else
      var rest := AssembleAll(nodes[1..]);
      assert forall k | 1 <= k < |nodes| :: nodes[k] == nodes[1..][k - 1];
      match rest
      case Err(e) => Err(e)
      case Ok(rs) => Ok([Assembled(nodes[0])] + rs)
  }

  /** The list stops at the first project that has no pipeline. */
  lemma {:induction false} AssembleAllStopsAtFirstError(nodes: seq<ProjectNode>, i: nat)
    requires i < |nodes| && nodes[i].pipelines == []
    requires forall k | 0 <= k < i :: nodes[k].pipelines != []
    ensures AssembleAll(nodes) == Err(NoPipeline(nodes[i].id))
  {
    if i > 0 {
      assert forall k | 0 <= k < i - 1 :: nodes[1..][k] == nodes[k + 1];
      AssembleAllStopsAtFirstError(nodes[1..], i - 1);
    }
  }

  /**
   * The list comprehension in main: one new project detail per project
   * node, in order, holding that node's assembled record.
   */
  method CreateProjectEntities(nodes: seq<ProjectNode>) returns (r: Result<seq<ProjectDetail>, AssemblyError>)
    ensures r.Err? <==> AssembleAll(nodes).Err?
    ensures r.Err? ==> r.error == AssembleAll(nodes).error
    ensures r.Ok? ==> |r.value| == |nodes| && Distinct(r.value) && Values(r.value) == AssembleAll(nodes).value
    ensures r.Ok? ==> forall k | 0 <= k < |nodes| :: fresh(r.value[k])
  {
    var projects: seq<ProjectDetail> := [];
    var i := 0;
    var failure: Option<AssemblyError> := None;
    while i < |nodes| && failure.None?
      invariant 0 <= i <= |nodes| && |projects| == i
      invariant forall p | p in projects :: fresh(p)
      invariant Distinct(projects)
      invariant forall k | 0 <= k < i :: nodes[k].pipelines != [] && projects[k].Value() == Assembled(nodes[k])
      invariant failure.Some? ==> i < |nodes| && nodes[i].pipelines == [] && failure.value == NoPipeline(nodes[i].id)
      decreases |nodes| - i, if failure.None? then 1 else 0
    {
      var created := CreateProjectEntity(nodes[i]);
      if created.Err? {
        failure := Some(created.error);
      } else {
        var detail := created.value;
        assert !(detail in projects);
        AppendBuilt(projects, detail, nodes);
        projects := projects + [detail];
        i := i + 1;
      }
    }
    if failure.Some? {
      AssembleAllStopsAtFirstError(nodes, i);
      return Err(failure.value);
    }
    ValuesOfAssembled(projects, nodes);
    forall k | 0 <= k < |nodes| ensures fresh(projects[k]) {
      assert projects[k] in projects;
    }
    return Ok(projects);
  }

  /** Appending the next node's detail keeps the list distinct and in step with the nodes. */
  lemma AppendBuilt(projects: seq<ProjectDetail>, detail: ProjectDetail, nodes: seq<ProjectNode>)
    requires |projects| < |nodes| && Distinct(projects) && !(detail in projects)
    requires forall k | 0 <= k < |projects| :: nodes[k].pipelines != [] && projects[k].Value() == Assembled(nodes[k])
    requires nodes[|projects|].pipelines != [] && detail.Value() == Assembled(nodes[|projects|])
    ensures Distinct(projects + [detail])
    ensures forall k | 0 <= k < |projects| + 1 :: nodes[k].pipelines != [] && (projects + [detail])[k].Value() == Assembled(nodes[k])
  {
    forall k | 0 <= k < |projects| ensures Apart(projects[k], detail) {
      assert projects[k] in projects;
    }
    DistinctAppend(projects, detail);
  }

  lemma ValuesOfAssembled(projects: seq<ProjectDetail>, nodes: seq<ProjectNode>)
    requires |projects| == |nodes|
    requires forall k | 0 <= k < |nodes| :: nodes[k].pipelines != [] && projects[k].Value() == Assembled(nodes[k])
    ensures AssembleAll(nodes).Ok? && Values(projects) == AssembleAll(nodes).value
  {
    var rs := AssembleAll(nodes).value;
    assert forall k | 0 <= k < |nodes| :: Values(projects)[k] == rs[k];
  }

  lemma DistinctAppend(projects: seq<ProjectDetail>, p: ProjectDetail)
    requires Distinct(projects)
    requires forall k | 0 <= k < |projects| :: Apart(projects[k], p)
    ensures Distinct(projects + [p])
  {
    var ps := projects + [p];
    forall k, l | 0 <= k < |ps| && 0 <= l < |ps| && k != l ensures Apart(ps[k], ps[l]) {
      if k < |projects| && l < |projects| {
        assert Apart(projects[k], projects[l]);
      } else if k < |projects| {
        assert Apart(projects[k], p);
      } else {
        assert Apart(projects[l], p);
      }
    }
  }

  /**
   * main: builds every project detail, then scores and writes them one by
   * one. A project without a pipeline aborts the run before anything is
   * written; otherwise the run is ProcessProjects on the assembled records.
   */
  method Run(nodes: seq<ProjectNode>, trace: TraceSource, clock: seq<Timestamp>, analyses: LogAnalyses)
    returns (written: seq<FloatScoreModel>, failure: Option<RunError>)
    requires |clock| == |nodes|
    ensures AssembleAll(nodes).Err? ==> written == [] && failure == Some(Assembly(AssembleAll(nodes).error))
    ensures AssembleAll(nodes).Ok? ==>
      var rs := AssembleAll(nodes).value;
      var n := Completed(rs, trace, analyses);
      && (failure.None? <==> n == |nodes|)
      && (failure.Some? ==> failure.value.Parse? && Score(rs[n], trace, analyses) == Err(failure.value.parse))
      && written == Published(ScoredPrefix(rs, trace, analyses, n), clock, n)
  {
    var created := CreateProjectEntities(nodes);
    if created.Err? {
      return [], Some(Assembly(created.error));
    }
    var parseFailure;
    written, parseFailure := ProcessProjects(created.value, trace, clock, analyses);
    failure := None;
    if parseFailure.Some? {
      failure := Some(Parse(parseFailure.value));
    }
  }
}
