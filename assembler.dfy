/**
 * Building a project detail from one project of the GraphQL membership
 * query: the latest pipeline supplies the four jobs, every global ID is
 * shortened to its numeric REST id, and the three score jobs start at zero.
 */
module Assembler {
  import opened Wrappers
  import opened Text
  import opened Gid
  import opened Entities

  /** One job of a pipeline node: its global ID, its name and its coverage. */
  datatype JobNode = JobNode(id: string, name: string, coverage: real)

  /** One pipeline node, with the four jobs the query asks for by name. */
  datatype PipelineNode = PipelineNode(testJob: JobNode, pylintJob: JobNode, banditJob: JobNode, safetyJob: JobNode)

  /** One project of the query result; the pipelines come newest first. */
  datatype ProjectNode = ProjectNode(id: string, name: string, mergeRequestCount: int, pipelines: seq<PipelineNode>)

  /** The source indexes the first pipeline node; a project with none raises. */
  datatype AssemblyError = NoPipeline(projectId: string)

  function ScoreJob(job: JobNode): JobScore {
    JobScore(ExtractApiIdFromGid(job.id), job.name, 0.0)
  }

  function CoverageJob(job: JobNode): JobCoverage {
    JobCoverage(ExtractApiIdFromGid(job.id), job.name, job.coverage)
  }

  /** Every id of an assembled detail is the empty string or a run of digits. */
  predicate NumericIds(r: ProjectRecord) {
    && (r.id == "" || AllDigits(r.id))
    && (r.testJob.id == "" || AllDigits(r.testJob.id))
    && (r.pylintJob.id == "" || AllDigits(r.pylintJob.id))
    && (r.banditJob.id == "" || AllDigits(r.banditJob.id))
    && (r.safetyJob.id == "" || AllDigits(r.safetyJob.id))
  }

  /** The detail create_project_entity builds for a project node. */
  function AssembleProject(project: ProjectNode): (r: Result<ProjectRecord, AssemblyError>)
    ensures r.Err? <==> project.pipelines == []
    ensures r.Err? ==> r.error == NoPipeline(project.id)
    ensures r.Ok? ==> NumericIds(r.value)
    ensures r.Ok? ==> r.value.pylintJob.score == 0.0 && r.value.banditJob.score == 0.0 && r.value.safetyJob.score == 0.0
    ensures r.Ok? ==>
      var latest := project.pipelines[0];
      && r.value.name == project.name
      && r.value.mergeRequests == project.mergeRequestCount
      && r.value.testJob.coverage == latest.testJob.coverage
      && r.value.testJob.name == latest.testJob.name
      && r.value.pylintJob.name == latest.pylintJob.name
      && r.value.banditJob.name == latest.banditJob.name
      && r.value.safetyJob.name == latest.safetyJob.name
      && r.value.id == ExtractApiIdFromGid(project.id)
      && r.value.testJob.id == ExtractApiIdFromGid(latest.testJob.id)
      && r.value.pylintJob.id == ExtractApiIdFromGid(latest.pylintJob.id)
      && r.value.banditJob.id == ExtractApiIdFromGid(latest.banditJob.id)
      && r.value.safetyJob.id == ExtractApiIdFromGid(latest.safetyJob.id)
  {
    if |project.pipelines| == 0 then Err(NoPipeline(project.id)) else Ok(Assembled(project))
  }

  /** The record built from a project's newest pipeline. */
  function Assembled(project: ProjectNode): ProjectRecord
    requires project.pipelines != []
  {
    var latest := project.pipelines[0];
    ProjectRecord(
      project.name,
      ExtractApiIdFromGid(project.id),
      project.mergeRequestCount,
      CoverageJob(latest.testJob),
      ScoreJob(latest.pylintJob),
      ScoreJob(latest.banditJob),
      ScoreJob(latest.safetyJob))
  }

  /** The project id is empty exactly when the project's global ID holds no match. */
  lemma AssembledIdIsEmptyIff(project: ProjectNode)
    requires AssembleProject(project).Ok?
    ensures AssembleProject(project).value.id == "" <==> forall i: nat, j: nat, k: nat :: !GidSpan(project.id, i, j, k)
  {
    ExtractEmptyIff(project.id);
  }

  /** Older pipelines play no part: only the newest one is read. */
  lemma OnlyLatestPipelineMatters(project: ProjectNode, older: seq<PipelineNode>)
    requires project.pipelines != []
    ensures AssembleProject(project.(pipelines := [project.pipelines[0]] + older)) == AssembleProject(project)
  {
  }

  /**
   * create_project_entity: allocates a new detail whose contents are
   * exactly AssembleProject's record.
   */
  method CreateProjectEntity(project: ProjectNode) returns (r: Result<ProjectDetail, AssemblyError>)
    ensures r.Err? <==> AssembleProject(project).Err?
    ensures r.Err? ==> r.error == AssembleProject(project).error
    ensures r.Ok? ==> fresh(r.value) && r.value.Value() == AssembleProject(project).value
  {
    if |project.pipelines| == 0 {
      return Err(NoPipeline(project.id));
    }
    var latest := project.pipelines[0];
    var testJob := JobCoverage(ExtractApiIdFromGid(latest.testJob.id), latest.testJob.name, latest.testJob.coverage);
    var pylintJob := JobScore(ExtractApiIdFromGid(latest.pylintJob.id), latest.pylintJob.name, 0.0);
    var banditJob := JobScore(ExtractApiIdFromGid(latest.banditJob.id), latest.banditJob.name, 0.0);
    var safetyJob := JobScore(ExtractApiIdFromGid(latest.safetyJob.id), latest.safetyJob.name, 0.0);
    var detail := new ProjectDetail(project.name, ExtractApiIdFromGid(project.id), project.mergeRequestCount,
                                    testJob, pylintJob, banditJob, safetyJob);
    return Ok(detail);
  }
}
