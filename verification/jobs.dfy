/** The job table of `EvaluationService` and `EvaluationWorker`:
    `EvaluationJobs` and `EvaluationResults`, job creation and lookup by id. */
module Jobs {
  import opened Wrappers

  /** `JobStatus`. */
  datatype JobStatus = Queued | Processing | Completed | Failed

  /** A row of `EvaluationResults`. */
  datatype EvaluationResult = EvaluationResult(
    id: Guid,
    jobId: Guid,
    cvMatchRate: real,
    cvFeedback: string,
    projectScore: real,
    projectFeedback: string,
    overallSummary: string,
    createdAt: int)

  /** A row of `EvaluationJobs`, with its `Result` navigation loaded. */
  datatype EvaluationJob = EvaluationJob(
    id: Guid,
    jobTitle: string,
    cvFilePath: string,
    reportFilePath: string,
    status: JobStatus,
    createdAt: int,
    updatedAt: int,
    result: Option<EvaluationResult>)

  /** The first job with id `id`, as `FirstOrDefaultAsync(j => j.Id == id)`
      returns it; `None` for `null`. */
  function FindJob(jobs: seq<EvaluationJob>, id: Guid): (r: Option<EvaluationJob>)
    ensures r.None? <==> forall job :: job in jobs ==> job.id != id
    ensures r.Some? ==> r.value in jobs && r.value.id == id
  {
    if jobs == [] then None
    else if jobs[0].id == id then Some(jobs[0])
    else FindJob(jobs[1..], id)
  }

  /** With distinct ids, looking up a job's id finds that very job. */
  lemma {:induction false} FindJobUnique(jobs: seq<EvaluationJob>, i: nat)
    requires i < |jobs|
    requires forall a, b :: 0 <= a < b < |jobs| ==> jobs[a].id != jobs[b].id
    ensures FindJob(jobs, jobs[i].id) == Some(jobs[i])
  {
    if i > 0 {
      assert jobs[0].id != jobs[i].id;
      assert jobs[1..][i - 1] == jobs[i];
      FindJobUnique(jobs[1..], i - 1);
    }
  }

  /** Appending a job with a fresh id makes it findable and changes no other
      lookup. */
  lemma {:induction false} FindJobAppend(jobs: seq<EvaluationJob>, job: EvaluationJob, id: Guid)
    requires forall x :: x in jobs ==> x.id != job.id
    ensures FindJob(jobs + [job], id) == if id == job.id then Some(job) else FindJob(jobs, id)
  {
    if jobs == [] {
      assert jobs + [job] == [job];
    } else {
      assert (jobs + [job])[0] == jobs[0];
      assert (jobs + [job])[1..] == jobs[1..] + [job];
      assert forall x :: x in jobs[1..] ==> x in jobs;
      FindJobAppend(jobs[1..], job, id);
    }
  }

  /** A job's id stays findable, with its new contents, when the job is
      replaced by one with the same id. */
  lemma FindJobUpdate(jobs: seq<EvaluationJob>, i: nat, job: EvaluationJob)
    requires i < |jobs| && job.id == jobs[i].id
    requires forall a, b :: 0 <= a < b < |jobs| ==> jobs[a].id != jobs[b].id
    ensures FindJob(jobs[i := job], job.id) == Some(job)
  {
    var updated := jobs[i := job];
    assert forall a, b :: 0 <= a < b < |updated| ==> updated[a].id != updated[b].id;
    FindJobUnique(updated, i);
  }

  /** The table's own rules. */
  ghost predicate TableInvariant(jobs: seq<EvaluationJob>, results: seq<EvaluationResult>, nextGuid: Guid) {
    // Guids are distinct keys that were all handed out already.
    && (forall a, b :: 0 <= a < b < |jobs| ==> jobs[a].id != jobs[b].id)
    && (forall job :: job in jobs ==> job.id < nextGuid)
    && (forall r :: r in results ==> r.id < nextGuid)
    // Only a completed job has a result, it is stored, and it names the job.
    && (forall job :: job in jobs ==> (job.result.Some? <==> job.status == Completed))
    && (forall job :: job in jobs && job.result.Some? ==>
          job.result.value in results && job.result.value.jobId == job.id)
  }

  /** The `EvaluationJobs` and `EvaluationResults` tables. */
  class JobStore {
    var jobs: seq<EvaluationJob>
    var results: seq<EvaluationResult>
    /** The next Guid `Guid.NewGuid()` hands out. */
    var nextGuid: Guid
    /** The tables as saved by each `SaveChangesAsync`, oldest first. */
    ghost var commits: seq<(seq<EvaluationJob>, seq<EvaluationResult>)>

    ghost predicate Valid()
      reads this
    {
      TableInvariant(jobs, results, nextGuid)
    }

    constructor ()
      ensures Valid()
      ensures jobs == [] && results == [] && commits == []
    {
      jobs := [];
      results := [];
      nextGuid := 0;
      commits := [];
    }

    /** `CreateJobAsync(jobTitle, cvFile, reportFile)`: a new `Queued` job with
        a fresh id and no result, added to the table and saved. */
    method CreateJob(jobTitle: string, cvFile: string, reportFile: string, now: int)
      returns (job: EvaluationJob)
      requires Valid()
      modifies this
      ensures Valid()
      ensures job == EvaluationJob(old(nextGuid), jobTitle, cvFile, reportFile, Queued, now, now, None)
      ensures forall x :: x in old(jobs) ==> x.id != job.id
      ensures jobs == old(jobs) + [job] && results == old(results)
      ensures commits == old(commits) + [(jobs, results)]
    {
      job := EvaluationJob(nextGuid, jobTitle, cvFile, reportFile, Queued, now, now, None);
      nextGuid := nextGuid + 1;
      jobs := jobs + [job];
      commits := commits + [(jobs, results)];
    }

    /** `GetJobAsync(id)`: the job with that id, or `None`. */
    method GetJob(id: Guid) returns (r: Option<EvaluationJob>)
      ensures r == FindJob(jobs, id)
      ensures r.None? <==> forall job :: job in jobs ==> job.id != id
      ensures r.Some? ==> r.value in jobs && r.value.id == id
    {
      var i := 0;
      while i < |jobs|
        invariant 0 <= i <= |jobs|
        invariant FindJob(jobs, id) == FindJob(jobs[i..], id)
      {
        if jobs[i].id == id {
          return Some(jobs[i]);
        }
        assert jobs[i..][1..] == jobs[i + 1..];
        i := i + 1;
      }
      return None;
    }
  }

  /** A job just created is found by its id, and every other lookup gives
      what it gave before. */
  lemma CreateThenGet(jobs: seq<EvaluationJob>, results: seq<EvaluationResult>, nextGuid: Guid,
                      jobTitle: string, cvFile: string, reportFile: string, now: int, id: Guid)
    requires TableInvariant(jobs, results, nextGuid)
    ensures var job := EvaluationJob(nextGuid, jobTitle, cvFile, reportFile, Queued, now, now, None);
      && TableInvariant(jobs + [job], results, nextGuid + 1)
      && FindJob(jobs + [job], nextGuid) == Some(job)
      && (id != nextGuid ==> FindJob(jobs + [job], id) == FindJob(jobs, id))
  {
    var job := EvaluationJob(nextGuid, jobTitle, cvFile, reportFile, Queued, now, now, None);
    FindJobAppend(jobs, job, nextGuid);
    FindJobAppend(jobs, job, id);
    var js := jobs + [job];
    forall a, b | 0 <= a < b < |js| ensures js[a].id != js[b].id {
      if b == |jobs| {
        assert js[a] in jobs;
      }
    }
  }
}
