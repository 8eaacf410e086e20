/** `QueueManager`: a FIFO of pending jobs plus one "current" slot.  Every
    public operation runs under one lock, so each is modelled as a single
    state transition from the queue before the call to the queue after it. */
module Queues {
  import opened Wrappers
  import opened Jobs

  datatype Queue = Queue(pending: seq<Job>, current: Option<Job>)

  /** A new, empty queue. */
  const Empty: Queue := Queue([], None)

  /** `size`: pending jobs only; the current job is not counted. */
  function Size(q: Queue): nat { |q.pending| }

  /** `is_empty`: no pending jobs, whether or not a job is running. */
  predicate IsEmpty(q: Queue) { |q.pending| == 0 }

  /** `has_running_job`: the current slot is occupied. */
  predicate HasRunningJob(q: Queue) { q.current.Some? }

  /** `get_current`. */
  function GetCurrent(q: Queue): Option<Job> { q.current }

  /** `get_all_jobs`: the current job, if any, then the pending jobs in FIFO order. */
  function AllJobs(q: Queue): (r: seq<Job>)
    ensures |r| == Size(q) + (if HasRunningJob(q) then 1 else 0)
    ensures HasRunningJob(q) ==> r[0] == q.current.value && r[1..] == q.pending
    ensures !HasRunningJob(q) ==> r == q.pending
  {
    (if q.current.Some? then [q.current.value] else []) + q.pending
  }

  /** `add`: the job goes to the tail; the current slot is untouched. */
  function Add(q: Queue, job: Job): (r: Queue)
    ensures AllJobs(r) == AllJobs(q) + [job]
    ensures Size(r) == Size(q) + 1 && !IsEmpty(r)
    ensures GetCurrent(r) == GetCurrent(q)
  {
    Queue(q.pending + [job], q.current)
  }

  /** `get_next`: on an empty queue nothing changes and no job is returned;
      otherwise the head leaves the pending list and becomes current.  The
      previous occupant of the slot is overwritten without any check. */
  function GetNext(q: Queue): (r: (Queue, Option<Job>))
    ensures IsEmpty(q) ==> r == (q, None)
    ensures !IsEmpty(q) ==>
      && r.1 == Some(q.pending[0])
      && GetCurrent(r.0) == r.1
      && AllJobs(r.0) == q.pending
      && Size(r.0) == Size(q) - 1
  {
    if |q.pending| == 0 then (q, None)
    else (Queue(q.pending[1..], Some(q.pending[0])), Some(q.pending[0]))
  }

  /** The position of the first pending job carrying `id`, or the length
      of the list when none does. */
  function FirstWithId(pending: seq<Job>, id: JobId): (i: nat)
    ensures i <= |pending|
    ensures i < |pending| ==> pending[i].id == id
    ensures forall k :: 0 <= k < i ==> pending[k].id != id
  {
    if |pending| == 0 then 0
    else if pending[0].id == id then 0
    else 1 + FirstWithId(pending[1..], id)
  }

  /** `remove`: refused for the current job's id; otherwise the first pending
      job with that id, and only it, is removed.  A refusal leaves the queue
      unchanged. */
  function Remove(q: Queue, id: JobId): (r: (Queue, bool))
    ensures q.current.Some? && q.current.value.id == id ==> r == (q, false)
    ensures r.1 <==> !(q.current.Some? && q.current.value.id == id)
                     && exists i :: 0 <= i < |q.pending| && q.pending[i].id == id
    ensures !r.1 ==> r.0 == q
    ensures r.1 ==>
      var i := FirstWithId(q.pending, id);
      r.0 == Queue(q.pending[..i] + q.pending[i + 1..], q.current)
  {
    if q.current.Some? && q.current.value.id == id then (q, false)
    else
      var i := FirstWithId(q.pending, id);
      if i == |q.pending| then (q, false)
      else (Queue(q.pending[..i] + q.pending[i + 1..], q.current), true)
  }

  /** `clear`: reports how many jobs were pending and drops them all; the
      current job stays. */
  function Clear(q: Queue): (r: (Queue, nat))
    ensures r.1 == Size(q)
    ensures IsEmpty(r.0) && GetCurrent(r.0) == GetCurrent(q)
    ensures AllJobs(r.0) == (if HasRunningJob(q) then [q.current.value] else [])
  {
    (Queue([], q.current), |q.pending|)
  }

  /** `complete_current`: the current job becomes Completed and the slot is
      vacated; no effect without a current job.  The second component is the
      updated job.  Jobs are values here: a copy of the same job still in the
      pending list is not updated. */
  function CompleteCurrent(q: Queue): (r: (Queue, Option<Job>))
    ensures !HasRunningJob(r.0) && r.0.pending == q.pending
    ensures q.current.None? ==> r == (q, None)
    ensures q.current.Some? ==> r.1 == Some(q.current.value.(status := Completed))
  {
    match q.current
    case None => (q, None)
    case Some(job) => (Queue(q.pending, None), Some(job.(status := Completed)))
  }

  /** `fail_current`: the current job becomes Failed with `message` and the
      slot is vacated; no effect without a current job. */
  function FailCurrent(q: Queue, message: string): (r: (Queue, Option<Job>))
    ensures !HasRunningJob(r.0) && r.0.pending == q.pending
    ensures q.current.None? ==> r == (q, None)
    ensures q.current.Some? ==>
      r.1 == Some(q.current.value.(status := Failed, errorMessage := Some(message)))
  {
    match q.current
    case None => (q, None)
    case Some(job) =>
      (Queue(q.pending, None), Some(job.(status := Failed, errorMessage := Some(message))))
  }

  /** Adding jobs one after another. */
  function AddAll(q: Queue, jobs: seq<Job>): (r: Queue)
    decreases |jobs|
  {
    if |jobs| == 0 then q else AddAll(Add(q, jobs[0]), jobs[1..])
  }

  /** Calling `get_next` until it returns nothing: the jobs it hands out. */
  function Drain(q: Queue): (r: seq<Job>)
    decreases |q.pending|
  {
    match GetNext(q)
    case (_, None) => []
    case (q1, Some(job)) => [job] + Drain(q1)
  }

  /** Adding appends to the pending list and leaves the current slot alone. */
  lemma {:induction false} AddAllAppends(q: Queue, jobs: seq<Job>)
    ensures AddAll(q, jobs) == Queue(q.pending + jobs, q.current)
    decreases |jobs|
  {
    if |jobs| > 0 {
      AddAllAppends(Add(q, jobs[0]), jobs[1..]);
      assert q.pending + [jobs[0]] + jobs[1..] == q.pending + jobs;
    }
  }

  /** `get_next` hands the pending jobs out in exactly their queue order. */
  lemma {:induction false} DrainIsFifo(q: Queue)
    ensures Drain(q) == q.pending
    decreases |q.pending|
  {
    if |q.pending| > 0 {
      var (q1, _) := GetNext(q);
      DrainIsFifo(q1);
      assert [q.pending[0]] + q.pending[1..] == q.pending;
    }
  }

  /** Jobs added to an empty queue come back from `get_next` in insertion
      order, after which `get_next` returns nothing. */
  lemma FifoOrder(jobs: seq<Job>)
    ensures Drain(AddAll(Empty, jobs)) == jobs
  {
    AddAllAppends(Empty, jobs);
    DrainIsFifo(AddAll(Empty, jobs));
  }

  /** With distinct ids, removing a pending job succeeds once and a second
      removal of the same id fails. */
  lemma RemoveOnce(q: Queue, id: JobId)
    requires DistinctIds(q.pending)
    requires Remove(q, id).1
    ensures !Remove(Remove(q, id).0, id).1
  {
    var rest := Remove(q, id).0.pending;
    var i := FirstWithId(q.pending, id);
    forall k | 0 <= k < |rest|
      ensures rest[k].id != id
    {
      if k < i {
        assert rest[k] == q.pending[k];
      } else {
        assert rest[k] == q.pending[k + 1];
      }
    }
  }

  /** A queue whose only job is running reports empty, size 0, and running. */
  lemma OnlyRunningReportsEmpty(job: Job)
    ensures var (q, _) := GetNext(Add(Empty, job));
      IsEmpty(q) && Size(q) == 0 && HasRunningJob(q) && AllJobs(q) == [job]
  {
  }

  /** `get_next` over an occupied slot loses the previous current job from
      the snapshot unless it is also still pending. */
  lemma GetNextOverwritesCurrent(q: Queue)
    requires HasRunningJob(q) && !IsEmpty(q)
    requires q.current.value !in q.pending
    ensures q.current.value !in AllJobs(GetNext(q).0)
  {
  }
}
