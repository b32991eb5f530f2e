/** One iteration of `EvaluationWorker.ExecuteAsync`: pick the oldest queued
    job, mark it `Processing` and save, read its files, run the evaluation
    pipeline, then attach the result and mark it `Completed`, or mark it
    `Failed` when a file cannot be read. File access is a parameter. */
module Worker {
  import opened Wrappers
  import opened Text
  import opened Jobs
  import Rag
  import AiEvaluation

  /** The project text used when there is no report to read. */
  const NoProjectReport: string := "(no project report provided)"

  /** The files under the web root: the full path of a stored path
      (`Path.Combine` with the web root), whether a full path exists, and the
      text extracted from it (PdfPig for a `.pdf`, else the whole file), or
      the exception raised while reading. */
  datatype FileSystem = FileSystem(
    resolve: string -> string,
    fileExists: string -> bool,
    read: string -> Result<string>)

  /** The index of the `Queued` job with the smallest `CreatedAt`, the first
      such in table order on a tie; `None` when no job is queued. */
  function OldestQueued(jobs: seq<EvaluationJob>): (r: Option<nat>)
    ensures r.None? <==> forall j :: 0 <= j < |jobs| ==> jobs[j].status != Queued
    ensures r.Some? ==>
      && r.value < |jobs|
      && jobs[r.value].status == Queued
      && (forall j :: 0 <= j < |jobs| && jobs[j].status == Queued ==> jobs[r.value].createdAt <= jobs[j].createdAt)
      && (forall j :: 0 <= j < r.value && jobs[j].status == Queued ==> jobs[r.value].createdAt < jobs[j].createdAt)
    decreases |jobs|
  {
    if jobs == [] then None
    else
      var rest := OldestQueued(jobs[1..]);
      assert forall j :: 0 < j < |jobs| ==> jobs[j] == jobs[1..][j - 1];
      if jobs[0].status != Queued then
        if rest.None? then None else Some(rest.value + 1)
      else if rest.Some? && jobs[rest.value + 1].createdAt < jobs[0].createdAt then
        Some(rest.value + 1)
      else
        Some(0)
  }

  /** Whether the job names a report file that exists. */
  predicate HasReport(job: EvaluationJob, fs: FileSystem) {
    !IsBlank(job.reportFilePath) && fs.fileExists(fs.resolve(job.reportFilePath))
  }

  /** The project text: the report's text when there is a report, else the
      sentinel. */
  function ProjectText(job: EvaluationJob, fs: FileSystem): Result<string> {
    if HasReport(job, fs) then fs.read(fs.resolve(job.reportFilePath)) else Success(NoProjectReport)
  }

  /** The CV text and the project text for a job, or the exception that
      stops the job. */
  function ReadInputs(job: EvaluationJob, fs: FileSystem): Result<(string, string)> {
    var cvPath := fs.resolve(job.cvFilePath);
    if !fs.fileExists(cvPath) then Failure("CV file not found at " + cvPath)
    else
      match fs.read(cvPath)
      case Failure(e) => Failure(e)
      case Success(cvText) =>
        match ProjectText(job, fs)
        case Failure(e) => Failure(e)
        case Success(projectText) => Success((cvText, projectText))
  }

  /** Reading a job's files succeeds exactly when the CV exists and reads,
      and the report, if there is one, reads; the texts are then those
      files' texts, with the sentinel for a missing report. A missing CV
      raises the "not found" message with the full path. */
  lemma ReadInputsOutcome(job: EvaluationJob, fs: FileSystem)
    ensures var cvPath := fs.resolve(job.cvFilePath);
      var reportPath := fs.resolve(job.reportFilePath);
      var r := ReadInputs(job, fs);
      && (r.Success? <==>
            fs.fileExists(cvPath) && fs.read(cvPath).Success?
            && (HasReport(job, fs) ==> fs.read(reportPath).Success?))
      && (r.Success? ==> r.value.0 == fs.read(cvPath).value)
      && (r.Success? && HasReport(job, fs) ==> r.value.1 == fs.read(reportPath).value)
      && (r.Success? && !HasReport(job, fs) ==> r.value.1 == NoProjectReport)
      && (!fs.fileExists(cvPath) ==> r == Failure("CV file not found at " + cvPath))
  {
  }

  /** The stored result for a pipeline outcome. */
  function ResultFor(job: EvaluationJob, ai: AiEvaluation.EvaluationResultModel, resultId: Guid, now: int)
    : EvaluationResult
  {
    EvaluationResult(resultId, job.id, ai.cvMatchRate, ai.cvFeedback, ai.projectScore,
                     ai.projectFeedback, ai.overallSummary, now)
  }

  /** What the pipeline returns for a job whose files were read. */
  function Assess(job: EvaluationJob, inputs: (string, string), p: AiEvaluation.Providers,
                  store: seq<Rag.DocumentVector>): AiEvaluation.EvaluationResultModel
  {
    AiEvaluation.Evaluate(p, store, job.jobTitle, inputs.0, inputs.1)
  }

  /** The job at the end of the iteration that picked it up. */
  function Finished(job: EvaluationJob, fs: FileSystem, p: AiEvaluation.Providers,
                    store: seq<Rag.DocumentVector>, resultId: Guid, now: int): EvaluationJob
  {
    match ReadInputs(job, fs)
    case Failure(_) => job.(status := Failed)
    case Success(inputs) =>
      job.(status := Completed, result := Some(ResultFor(job, Assess(job, inputs, p, store), resultId, now)),
           updatedAt := now)
  }

  /** A picked job ends `Completed` or `Failed`; its id, title, file paths and
      creation time are unchanged; it has a result exactly when it completed. */
  lemma FinishedIsTerminal(job: EvaluationJob, fs: FileSystem, p: AiEvaluation.Providers,
                           store: seq<Rag.DocumentVector>, resultId: Guid, now: int)
    ensures var f := Finished(job, fs, p, store, resultId, now);
      && (f.status == Completed || f.status == Failed)
      && f.id == job.id && f.jobTitle == job.jobTitle && f.createdAt == job.createdAt
      && f.cvFilePath == job.cvFilePath && f.reportFilePath == job.reportFilePath
      && (f.status == Completed <==> ReadInputs(job, fs).Success?)
      && (f.status == Failed ==> f.result == job.result && f.updatedAt == job.updatedAt)
      && (f.status == Completed ==> f.result.Some? && f.updatedAt == now)
  {
  }

  /** A missing CV file fails the job, and no result is attached. */
  lemma MissingCvFails(job: EvaluationJob, fs: FileSystem, p: AiEvaluation.Providers,
                       store: seq<Rag.DocumentVector>, resultId: Guid, now: int)
    requires !fs.fileExists(fs.resolve(job.cvFilePath))
    requires job.result.None?
    ensures Finished(job, fs, p, store, resultId, now).status == Failed
    ensures Finished(job, fs, p, store, resultId, now).result.None?
  {
  }

  /** A blank report path or a missing report file gives the sentinel project
      text and, alone, never fails the job. */
  lemma MissingReportUsesSentinel(job: EvaluationJob, fs: FileSystem, p: AiEvaluation.Providers,
                                  store: seq<Rag.DocumentVector>, resultId: Guid, now: int)
    requires IsBlank(job.reportFilePath) || !fs.fileExists(fs.resolve(job.reportFilePath))
    requires fs.fileExists(fs.resolve(job.cvFilePath)) && fs.read(fs.resolve(job.cvFilePath)).Success?
    ensures ReadInputs(job, fs) == Success((fs.read(fs.resolve(job.cvFilePath)).value, NoProjectReport))
    ensures Finished(job, fs, p, store, resultId, now).status == Completed
  {
  }

  /** A completed job carries a result that names it and copies every field
      of the pipeline's output. */
  lemma CompletedCopiesPipeline(job: EvaluationJob, fs: FileSystem, p: AiEvaluation.Providers,
                                store: seq<Rag.DocumentVector>, resultId: Guid, now: int)
    requires ReadInputs(job, fs).Success?
    ensures var inputs := ReadInputs(job, fs).value;
      var ai := AiEvaluation.Evaluate(p, store, job.jobTitle, inputs.0, inputs.1);
      var f := Finished(job, fs, p, store, resultId, now);
      && f.status == Completed
      && f.result.Some?
      && f.result.value.id == resultId && f.result.value.jobId == job.id
      && f.result.value.cvMatchRate == ai.cvMatchRate && f.result.value.cvFeedback == ai.cvFeedback
      && f.result.value.projectScore == ai.projectScore
      && f.result.value.projectFeedback == ai.projectFeedback
      && f.result.value.overallSummary == ai.overallSummary
      && f.result.value.createdAt == now
  {
  }

  /** The number of queued jobs. */
  function QueuedCount(jobs: seq<EvaluationJob>): (n: nat)
    ensures n <= |jobs|
  {
    if jobs == [] then 0
    else (if jobs[0].status == Queued then 1 else 0) + QueuedCount(jobs[1..])
  }

  lemma {:induction false} QueuedCountUpdate(jobs: seq<EvaluationJob>, i: nat, job: EvaluationJob)
    requires i < |jobs| && jobs[i].status == Queued && job.status != Queued
    ensures QueuedCount(jobs[i := job]) + 1 == QueuedCount(jobs)
  {
    var updated := jobs[i := job];
    if i == 0 {
      assert updated[1..] == jobs[1..];
    } else {
      assert updated[1..] == jobs[1..][i - 1 := job];
      QueuedCountUpdate(jobs[1..], i - 1, job);
    }
  }

  /** Each iteration that picks a job takes one job off the queue for good:
      the job marked `Processing` and then finished is no longer queued. */
  lemma IterationShrinksQueue(jobs: seq<EvaluationJob>, fs: FileSystem, p: AiEvaluation.Providers,
                              store: seq<Rag.DocumentVector>, resultId: Guid, now: int)
    requires OldestQueued(jobs).Some?
    ensures var i := OldestQueued(jobs).value;
      var finished := Finished(jobs[i].(status := Processing), fs, p, store, resultId, now);
      QueuedCount(jobs[i := finished]) + 1 == QueuedCount(jobs)
  {
    var i := OldestQueued(jobs).value;
    var finished := Finished(jobs[i].(status := Processing), fs, p, store, resultId, now);
    FinishedIsTerminal(jobs[i].(status := Processing), fs, p, store, resultId, now);
    QueuedCountUpdate(jobs, i, finished);
  }

  /** `job.Status = JobStatus.Processing` then `SaveChangesAsync`. */
  method MarkProcessing(db: JobStore, i: nat)
    requires db.Valid() && i < |db.jobs| && db.jobs[i].status == Queued
    modifies db
    ensures db.Valid()
    ensures db.jobs == old(db.jobs)[i := old(db.jobs)[i].(status := Processing)]
    ensures db.results == old(db.results) && db.nextGuid == old(db.nextGuid)
    ensures db.commits == old(db.commits) + [(db.jobs, db.results)]
  {
    db.jobs := db.jobs[i := db.jobs[i].(status := Processing)];
    db.commits := db.commits + [(db.jobs, db.results)];
  }

  /** The `catch` branch: `job.Status = JobStatus.Failed` then
      `SaveChangesAsync`. */
  method MarkFailed(db: JobStore, i: nat)
    requires db.Valid() && i < |db.jobs| && db.jobs[i].status != Completed
    modifies db
    ensures db.Valid()
    ensures db.jobs == old(db.jobs)[i := old(db.jobs)[i].(status := Failed)]
    ensures db.results == old(db.results) && db.nextGuid == old(db.nextGuid)
    ensures db.commits == old(db.commits) + [(db.jobs, db.results)]
  {
    db.jobs := db.jobs[i := db.jobs[i].(status := Failed)];
    db.commits := db.commits + [(db.jobs, db.results)];
    forall x | x in db.jobs ensures x.result.Some? <==> x.status == Completed {
      if x != db.jobs[i] {
        assert x in old(db.jobs);
      }
    }
  }

  /** The success path: a result with a fresh id is added to
      `EvaluationResults`, attached to the job, the job becomes `Completed`
      with `UpdatedAt` set, and the change is saved. */
  method Complete(db: JobStore, i: nat, ai: AiEvaluation.EvaluationResultModel, now: int)
    returns (result: EvaluationResult)
    requires db.Valid() && i < |db.jobs| && db.jobs[i].status != Completed
    modifies db
    ensures db.Valid()
    ensures result == ResultFor(old(db.jobs)[i], ai, old(db.nextGuid), now)
    ensures db.jobs == old(db.jobs)[i := old(db.jobs)[i].(result := Some(result), status := Completed, updatedAt := now)]
    ensures db.results == old(db.results) + [result] && db.nextGuid == old(db.nextGuid) + 1
    ensures db.commits == old(db.commits) + [(db.jobs, db.results)]
  {
    var job := db.jobs[i];
    result := ResultFor(job, ai, db.nextGuid, now);
    db.nextGuid := db.nextGuid + 1;
    db.results := db.results + [result];
    db.jobs := db.jobs[i := job.(result := Some(result), status := Completed, updatedAt := now)];
    db.commits := db.commits + [(db.jobs, db.results)];
    forall x | x in db.jobs
      ensures x.id < db.nextGuid
      ensures x.result.Some? <==> x.status == Completed
      ensures x.result.Some? ==> x.result.value in db.results && x.result.value.jobId == x.id
    {
      if x != db.jobs[i] {
        assert x in old(db.jobs);
      }
    }
  }

  /** The work on a picked job after it is marked `Processing`: read its
      files, run the pipeline, and save the outcome. */
  method FinishJob(db: JobStore, i: nat, store: seq<Rag.DocumentVector>, fs: FileSystem,
                   p: AiEvaluation.Providers, now: int)
    requires db.Valid() && i < |db.jobs| && db.jobs[i].status == Processing
    modifies db
    ensures db.Valid()
    ensures var finished := Finished(old(db.jobs)[i], fs, p, store, old(db.nextGuid), now);
      && db.jobs == old(db.jobs)[i := finished]
      && db.results == old(db.results) + (if finished.result.Some? then [finished.result.value] else [])
      && db.nextGuid == old(db.nextGuid) + (if finished.result.Some? then 1 else 0)
      && db.commits == old(db.commits) + [(db.jobs, db.results)]
  {
    var job := db.jobs[i];
    ghost var resultId := db.nextGuid;
    var inputs := ReadInputs(job, fs);
    if inputs.Failure? {
      MarkFailed(db, i);
      assert Finished(job, fs, p, store, resultId, now) == job.(status := Failed);
      return;
    }
    var aiResult := Assess(job, inputs.value, p, store);
    var result := Complete(db, i, aiResult, now);
    assert Finished(job, fs, p, store, resultId, now)
        == job.(status := Completed, result := Some(result), updatedAt := now);
  }

  /** One iteration of the worker loop, without the five-second delay. The
      result is the id of the job it processed, if any. */
  method ProcessNextJob(db: JobStore, rag: Rag.RagService, fs: FileSystem, p: AiEvaluation.Providers, now: int)
    returns (processed: Option<Guid>)
    requires db.Valid()
    modifies db
    ensures db.Valid()
    ensures OldestQueued(old(db.jobs)).None? ==>
      && processed.None?
      && db.jobs == old(db.jobs) && db.results == old(db.results) && db.commits == old(db.commits)
      && db.nextGuid == old(db.nextGuid)
    ensures OldestQueued(old(db.jobs)).Some? ==>
      var i := OldestQueued(old(db.jobs)).value;
      var job := old(db.jobs)[i];
      var finished := Finished(job.(status := Processing), fs, p, rag.documentVectors, old(db.nextGuid), now);
      && processed == Some(job.id)
      && db.jobs == old(db.jobs)[i := finished]
      && db.results == old(db.results) + (if finished.result.Some? then [finished.result.value] else [])
      && db.nextGuid == old(db.nextGuid) + (if finished.result.Some? then 1 else 0)
      && db.commits == old(db.commits) + [(old(db.jobs)[i := job.(status := Processing)], old(db.results)),
                                          (db.jobs, db.results)]
    ensures QueuedCount(db.jobs) + (if processed.Some? then 1 else 0) == QueuedCount(old(db.jobs))
  {
    var picked := OldestQueued(db.jobs);
    if picked.None? {
      return None;
    }
    var i := picked.value;
    ghost var before, resultId := db.jobs, db.nextGuid;
    MarkProcessing(db, i);
    processed := Some(db.jobs[i].id);
    FinishJob(db, i, rag.documentVectors, fs, p, now);
    IterationShrinksQueue(before, fs, p, rag.documentVectors, resultId, now);
  }
}
