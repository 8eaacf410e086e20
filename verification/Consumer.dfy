/** The sequential consumer protocol: while the queue has pending jobs, take
    the next one, execute it, and report the outcome back to the queue. The
    executor updates the very job object the queue holds as current, which
    is modelled by writing the executed job back into the current slot. */
module SerialConsumer {
  import opened Wrappers
  import opened Jobs
  import opened Queues
  import opened Executor

  /** The message a failed job is reported to the queue with:
      `job.error_message or "Unknown error"`. */
  function FailureText(message: Option<string>): (r: string)
    ensures |r| > 0
    ensures message.Some? && message.value != [] ==> r == message.value
  {
    match message
    case Some(m) => if m == [] then "Unknown error" else m
    case None => "Unknown error"
  }

  /** The executor as the loop sees it: `exec(k, job)` is the outcome of
      executing `job` as the k-th job of the loop. */
  type Executes = (nat, Job) -> Run

  /** The executor of this model run against the k-th world `envOf(k)`,
      with a clock that reads `clock(2k)` when the k-th job starts and
      `clock(2k + 1)` when it finishes. */
  function ExecuteNth(envOf: nat -> Env, clock: nat -> int): Executes
  {
    (k: nat, job: Job) => ExecuteAt(envOf, clock, k, job)
  }

  /** The k-th execution keeps the promise `HonestRun` names. */
  function ExecuteAt(envOf: nat -> Env, clock: nat -> int, k: nat, job: Job): (r: Run)
    ensures HonestRun(job, r)
  {
    Execute(job, envOf(k), clock(2 * k), clock(2 * k + 1))
  }

  /** How the queue reports a job once it has been executed: completed when
      `execute` returned, failed with the job's error text otherwise. */
  function Reported(run: Run): Job
  {
    if run.raised.None? then run.job.(status := Completed)
    else run.job.(status := Failed, errorMessage := Some(FailureText(run.job.errorMessage)))
  }

  /** What the loop relies on from an execution of `job`: the same job
      comes back finished, completed at 100% exactly when nothing was
      raised, and with an error message when something was. */
  predicate HonestRun(job: Job, run: Run)
  {
    && run.job.id == job.id && run.job.spec == job.spec
    && run.job.IsFinished()
    && (run.raised.None? <==> run.job.status == Completed)
    && (run.raised.None? ==> run.job.progress == 100)
    && (run.raised.Some? ==> run.job.errorMessage.Some?)
  }

  lemma ExecuteNthHonest(envOf: nat -> Env, clock: nat -> int)
    ensures forall k: nat, job: Job :: HonestRun(job, ExecuteNth(envOf, clock)(k, job))
  {
    forall k: nat, job: Job
      ensures HonestRun(job, ExecuteNth(envOf, clock)(k, job))
    {
      var run := ExecuteAt(envOf, clock, k, job);
      assert ExecuteNth(envOf, clock)(k, job) == run;
    }
  }

  /** One pass of the loop on a queue with pending work: the job as the
      queue reports it, and the queue afterwards. */
  function Turn(q: Queue, k: nat, exec: Executes): (r: (Job, Queue))
    requires !IsEmpty(q)
    ensures r.1.pending == q.pending[1..] && !HasRunningJob(r.1)
    ensures r.0 == Reported(exec(k, q.pending[0]))
  {
    var (q1, next) := GetNext(q);
    var run := exec(k, next.value);
    var q2 := q1.(current := Some(run.job));
    var (q3, reported) :=
      if run.raised.None? then CompleteCurrent(q2)
      else FailCurrent(q2, FailureText(run.job.errorMessage));
    (reported.value, q3)
  }

  /** The loop from the k-th job on: the jobs in the order they finished,
      and the queue it leaves behind. */
  function Consume(q: Queue, k: nat, exec: Executes): (r: (seq<Job>, Queue))
    // every pending job is taken, in queue order, and reported once
    ensures |r.0| == |q.pending|
    ensures forall i :: 0 <= i < |r.0| ==> r.0[i] == Reported(exec(k + i, q.pending[i]))
    // nothing is left waiting or running
    ensures IsEmpty(r.1)
    ensures |q.pending| > 0 ==> !HasRunningJob(r.1)
    decreases |q.pending|
  {
    if IsEmpty(q) then ([], q)
    else
      var (job, q1) := Turn(q, k, exec);
      var (rest, q2) := Consume(q1, k + 1, exec);
      assert forall i :: 0 <= i < |rest| ==> q1.pending[i] == q.pending[i + 1];
      PrependReported(job, rest, q.pending, k, exec);
      ([job] + rest, q2)
  }

  lemma PrependReported(job: Job, rest: seq<Job>, pending: seq<Job>, k: nat, exec: Executes)
    requires |pending| > 0 && |rest| == |pending| - 1
    requires job == Reported(exec(k, pending[0]))
    requires forall i :: 0 <= i < |rest| ==> rest[i] == Reported(exec(k + 1 + i, pending[i + 1]))
    ensures forall i :: 0 <= i < |pending| ==> ([job] + rest)[i] == Reported(exec(k + i, pending[i]))
  {
    forall i | 0 <= i < |pending|
      ensures ([job] + rest)[i] == Reported(exec(k + i, pending[i]))
    {
      if i == 0 {
        assert ([job] + rest)[i] == job;
      } else {
        var j := i - 1;
        assert ([job] + rest)[i] == rest[j];
        assert rest[j] == Reported(exec(k + 1 + j, pending[j + 1]));
      }
    }
  }

  /** How a finished job `r` relates to the queued `job` and its run: the
      same job, finished, failed exactly when the run raised, at 100% when
      completed and with a non-empty message when failed. */
  predicate ReportsRun(r: Job, job: Job, run: Run)
  {
    && r.id == job.id && r.spec == job.spec
    && r.IsFinished()
    && (r.status == Failed <==> run.raised.Some?)
    && (r.status == Completed ==> r.progress == 100)
    && (r.status == Failed ==> r.errorMessage.Some? && |r.errorMessage.value| > 0)
  }

  /** The integration scenario: jobs added to an empty queue and consumed all
      finish in the order they were added, none is left, and each is reported
      as its run went. */
  lemma ConsumeQueued(jobs: seq<Job>, exec: Executes)
    requires forall k: nat, job: Job :: HonestRun(job, exec(k, job))
    ensures var (done, q) := Consume(AddAll(Empty, jobs), 0, exec);
      && |done| == |jobs|
      && q == Empty
      && forall i :: 0 <= i < |jobs| ==> ReportsRun(done[i], jobs[i], exec(i, jobs[i]))
  {
    AddAllAppends(Empty, jobs);
    var q0 := AddAll(Empty, jobs);
    assert q0.pending == jobs;
    var r := Consume(q0, 0, exec);
    forall i | 0 <= i < |jobs|
      ensures ReportsRun(r.0[i], jobs[i], exec(i, jobs[i]))
    {
      var run := exec(i, jobs[i]);
      assert r.0[i] == Reported(run);
      ReportedHonest(jobs[i], run);
    }
  }

  /** What the queue reports about an honest run. */
  lemma ReportedHonest(job: Job, run: Run)
    requires HonestRun(job, run)
    ensures ReportsRun(Reported(run), job, run)
  {
  }

  /** The same scenario with the executor of this model. */
  lemma ConsumeQueuedExecuted(jobs: seq<Job>, envOf: nat -> Env, clock: nat -> int)
    ensures var (done, q) := Consume(AddAll(Empty, jobs), 0, ExecuteNth(envOf, clock));
      && |done| == |jobs|
      && q == Empty
      && (forall i :: 0 <= i < |jobs| ==>
            done[i].id == jobs[i].id && done[i].IsFinished() &&
            (done[i].status == Failed <==> ExecuteNth(envOf, clock)(i, jobs[i]).raised.Some?))
  {
    ExecuteNthHonest(envOf, clock);
    ConsumeQueued(jobs, ExecuteNth(envOf, clock));
  }
}
