/** The job registry of app.py (`active_jobs`) and the effect on it of the `/start`,
    `/status/<job_id>` and `/stop/<job_id>` handlers. */
module Jobs {
  import opened Base
  import opened Lines
  import opened Typing

  type Registry = map<string, Job>

  /** The delay used when the request names none. */
  const DefaultDelay: int := 60

  datatype StartError = NoFile | EmptyFile

  datatype StartReply =
    | Rejected(reason: StartError)
    | Accepted(jobs: Registry, lines: seq<string>, totalLines: nat)

  /** `/start`: reject a request without a file, and a file with no non-blank line;
      otherwise store a fresh record under `jobId` (derived from the clock in the source)
      and hand the prepared lines to the worker. */
  function StartTyping(jobs: Registry, jobId: string, upload: Option<string>, delayField: Option<int>): (r: StartReply)
    ensures r.Rejected? <==> upload.None? || PrepareLines(upload.value) == []
    ensures r.Rejected? ==> (r.reason == NoFile <==> upload.None?)
    ensures r.Accepted? ==>
      && r.lines == PrepareLines(upload.value)
      && r.totalLines == |r.lines| > 0
      && r.jobs.Keys == jobs.Keys + {jobId}
      && forall other :: other in jobs && other != jobId ==> r.jobs[other] == jobs[other]
  {
    var delay := delayField.GetOr(DefaultDelay);
    if upload.None? then Rejected(NoFile)
    else
      var lines := PrepareLines(upload.value);
      if lines == [] then Rejected(EmptyFile)
      else Accepted(jobs[jobId := NewJob(lines, delay)], lines, |lines|)
  }

  /** A started job's record is fresh: starting, nothing sent, an empty last message, the
      number of prepared lines as its total, the requested (or default) delay, no error. */
  lemma StartCreatesFreshJob(jobs: Registry, jobId: string, upload: Option<string>, delayField: Option<int>)
    requires StartTyping(jobs, jobId, upload, delayField).Accepted?
    ensures var r := StartTyping(jobs, jobId, upload, delayField);
      var job := r.jobs[jobId];
      && job.status == Starting
      && job.current == 0
      && job.lastMessage == ""
      && job.total == |r.lines| == r.totalLines
      && job.delay == (if delayField.Some? then delayField.value else DefaultDelay)
      && job.error.None?
  {
  }

  /** `/status/<job_id>`: the stored record, or nothing for an unknown id. */
  function GetStatus(jobs: Registry, jobId: string): (r: Option<Job>)
    ensures r.Some? <==> jobId in jobs
    ensures r.Some? ==> r.value == jobs[jobId]
  {
    if jobId in jobs then Some(jobs[jobId]) else None
  }

  /** `/stop/<job_id>`: a known job's status becomes stopped whatever it was, its other
      fields kept; an unknown id is reported and changes nothing. */
  function StopTyping(jobs: Registry, jobId: string): (r: (Registry, bool))
    ensures r.1 <==> jobId in jobs
    ensures !r.1 ==> r.0 == jobs
    ensures r.1 ==>
      && r.0.Keys == jobs.Keys
      && r.0[jobId] == jobs[jobId].(status := Stopped)
      && forall other :: other in jobs && other != jobId ==> r.0[other] == jobs[other]
  {
    if jobId in jobs then (jobs[jobId := jobs[jobId].(status := Stopped)], true)
    else (jobs, false)
  }

  /** A stop that lands before the worker begins is overwritten: the worker marks the job
      running again, then runs as if no stop had been issued. */
  lemma StopBeforeWorkerIsLost(jobs: Registry, jobId: string)
    requires jobId in jobs && jobs[jobId].status == Starting
    ensures Begin(StopTyping(jobs, jobId).0[jobId]).status == Running
    ensures Begin(StopTyping(jobs, jobId).0[jobId]) == Begin(jobs[jobId])
  {
  }

  /** Started jobs run in order over their prepared lines: every line the worker sends is
      the next prepared line of the upload, and its progress stays within the total the
      record announces. */
  lemma StartedWorkerSendsPreparedLines(jobs: Registry, jobId: string, upload: Option<string>, delayField: Option<int>,
                                        results: seq<SendResult>, stopSeen: seq<bool>)
    requires StartTyping(jobs, jobId, upload, delayField).Accepted?
    requires var r := StartTyping(jobs, jobId, upload, delayField); OraclesFit(r.lines, results, stopSeen)
    ensures var r := StartTyping(jobs, jobId, upload, delayField);
      var job := r.jobs[jobId];
      var run := Work(job, r.lines, job.delay, results, stopSeen);
      && Sends(run.events) == PrepareLines(upload.value)[..run.job.current]
      && run.job.current <= run.job.total == r.totalLines
  {
  }
}
