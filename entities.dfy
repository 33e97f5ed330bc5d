/**
 * The records passed between the exporter's stages: the project detail the
 * assembler builds, whose three score jobs the run overwrites in place, and
 * the float score model written to the metrics database.
 */
module Entities {

  /** The moment a batch of points is stamped with (the source reads the wall clock). */
  type Timestamp = int

  /** JobCoverageEntity: the test job; never changed after assembly. */
  datatype JobCoverage = JobCoverage(id: string, name: string, coverage: real)

  /** JobScoreEntity: a job whose score is overwritten once its log is parsed. */
  datatype JobScore = JobScore(id: string, name: string, score: real)

  /** The contents of a ProjectDetailEntity at one moment. */
  datatype ProjectRecord = ProjectRecord(
    name: string,
    id: string,
    mergeRequests: int,
    testJob: JobCoverage,
    pylintJob: JobScore,
    banditJob: JobScore,
    safetyJob: JobScore)

  /** FloatScoreModel: one point for the metrics database. */
  datatype FloatScoreModel = FloatScoreModel(
    time: Timestamp,
    projectId: string,
    projectName: string,
    metric: string,
    score: real)

  /**
   * ProjectDetailEntity. Its name, id, merge-request count and test job are
   * never changed once it is built; the run overwrites the scores of its
   * three score jobs.
   */
  class ProjectDetail {
    const name: string
    const id: string
    const mergeRequests: int
    const testJob: JobCoverage
    var pylintJob: JobScore
    var banditJob: JobScore
    var safetyJob: JobScore

    constructor (name: string, id: string, mergeRequests: int, testJob: JobCoverage,
                 pylintJob: JobScore, banditJob: JobScore, safetyJob: JobScore)
      ensures Value() == ProjectRecord(name, id, mergeRequests, testJob, pylintJob, banditJob, safetyJob)
    {
      this.name := name;
      this.id := id;
      this.mergeRequests := mergeRequests;
      this.testJob := testJob;
      this.pylintJob := pylintJob;
      this.banditJob := banditJob;
      this.safetyJob := safetyJob;
    }

    function Value(): ProjectRecord
      reads this
    {
      ProjectRecord(name, id, mergeRequests, testJob, pylintJob, banditJob, safetyJob)
    }
  }

  predicate Apart(p: ProjectDetail, q: ProjectDetail) {
    p != q
  }

  /** No project detail appears twice in the list: each one is built afresh. */
  predicate Distinct(projects: seq<ProjectDetail>) {
    forall k, l {:trigger Apart(projects[k], projects[l])} | 0 <= k < |projects| && 0 <= l < |projects| && k != l ::
      Apart(projects[k], projects[l])
  }

  function Values(projects: seq<ProjectDetail>): (rs: seq<ProjectRecord>)
    reads projects
    ensures |rs| == |projects|
    ensures forall k | 0 <= k < |projects| :: rs[k] == projects[k].Value()
  {
    if projects == [] then []
    else
      var n := |projects| - 1;
      Values(projects[..n]) + [projects[n].Value()]
  }
}
