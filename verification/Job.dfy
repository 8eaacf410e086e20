/** The runtime job record wrapping an immutable session specification. */
module Jobs {
  import opened Wrappers
  import opened SessionSpecs
  import opened Text

  /** Job identifiers.  The source draws a random UUID per job; the model
      hands out numbers from a counter, which is what makes them unique. */
  type JobId = nat

  /** `JobStatus`: a closed set of four states. */
  datatype JobStatus = Pending | Running | Completed | Failed

  /** `Job`.  Timestamps are clock readings in ticks. */
  datatype Job = Job(
    spec: SessionSpec,
    status: JobStatus,
    progress: int,
    errorMessage: Option<string>,
    queuedAt: int,
    startedAt: Option<int>,
    completedAt: Option<int>,
    id: JobId)
  {
    /** `is_finished`. */
    predicate IsFinished() { status == Completed || status == Failed }

    /** `display_name`: "Artist - Song". */
    function DisplayName(): string { spec.artist + " - " + spec.songName }

    /** `duration`: absent until the job has started; afterwards the time from
        the start to completion, or to `now` while still running. */
    function Duration(now: int): (d: Option<int>)
      ensures d.None? <==> startedAt.None?
      ensures startedAt.Some? && completedAt.Some? ==> d == Some(completedAt.value - startedAt.value)
      ensures startedAt.Some? && completedAt.None? ==> d == Some(now - startedAt.value)
    {
      if startedAt.None? then None
      else Some(completedAt.GetOr(now) - startedAt.value)
    }
  }

  /** The source of fresh job identifiers: the next one to hand out. */
  datatype IdSource = IdSource(next: JobId)

  /** `Job(spec=...)`: a fresh pending job queued at `now`. */
  function NewJob(spec: SessionSpec, now: int, ids: IdSource): (r: (Job, IdSource))
    ensures r.0.spec == spec && r.0.queuedAt == now
    ensures r.0.status == Pending && r.0.progress == 0 && r.0.errorMessage == None
    ensures r.0.startedAt == None && r.0.completedAt == None
    ensures !r.0.IsFinished() && r.0.Duration(now) == None
    ensures ids.next <= r.0.id < r.1.next
  {
    (Job(spec, Pending, 0, None, now, None, None, ids.next), IdSource(ids.next + 1))
  }

  /** Creating one job per specification, in order. */
  function NewJobs(specs: seq<SessionSpec>, now: int, ids: IdSource): (r: (seq<Job>, IdSource))
    ensures |r.0| == |specs|
    ensures forall i :: 0 <= i < |specs| ==> r.0[i].spec == specs[i] && r.0[i].status == Pending
    ensures forall i :: 0 <= i < |specs| ==> ids.next <= r.0[i].id < r.1.next
    decreases |specs|
  {
    if |specs| == 0 then ([], ids)
    else
      var (j, ids1) := NewJob(specs[0], now, ids);
      var (rest, ids2) := NewJobs(specs[1..], now, ids1);
      ([j] + rest, ids2)
  }

  /** No two jobs of `jobs` share an identifier. */
  predicate DistinctIds(jobs: seq<Job>)
  {
    forall i, j :: 0 <= i < j < |jobs| ==> jobs[i].id != jobs[j].id
  }

  /** Identifiers of distinct created jobs never collide. */
  lemma {:induction false} NewJobsDistinctIds(specs: seq<SessionSpec>, now: int, ids: IdSource)
    ensures DistinctIds(NewJobs(specs, now, ids).0)
    decreases |specs|
  {
    if |specs| > 0 {
      var (j0, ids1) := NewJob(specs[0], now, ids);
      NewJobsDistinctIds(specs[1..], now, ids1);
      var rest := NewJobs(specs[1..], now, ids1).0;
      var jobs := NewJobs(specs, now, ids).0;
      assert jobs == [j0] + rest;
      forall i, j | 0 <= i < j < |jobs|
        ensures jobs[i].id != jobs[j].id
      {
        assert jobs[j] == rest[j - 1];
        assert ids1.next <= rest[j - 1].id;
        if i > 0 {
          assert jobs[i] == rest[i - 1];
          assert rest[i - 1].id != rest[j - 1].id;
        } else {
          assert jobs[i] == j0 && j0.id < ids1.next;
        }
      }
    }
  }

  /** A job is finished exactly in the two terminal states, so a pending or
      running job is never finished. */
  lemma FinishedIffTerminal(job: Job)
    ensures job.IsFinished() <==> job.status in {Completed, Failed}
    ensures job.status in {Pending, Running} ==> !job.IsFinished()
  {
  }

  /** The display name is the artist, the separator " - ", and the song. */
  lemma DisplayNameParts(job: Job)
    ensures |job.DisplayName()| == |job.spec.artist| + 3 + |job.spec.songName|
    ensures job.DisplayName()[..|job.spec.artist|] == job.spec.artist
    ensures job.DisplayName()[|job.spec.artist|..|job.spec.artist| + 3] == " - "
    ensures job.DisplayName()[|job.spec.artist| + 3..] == job.spec.songName
  {
  }

  /** When artists contain no '-', the display name determines the artist
      and the song: the first " - " is the separator. */
  lemma {:induction false} DisplayNameInjective(a: Job, b: Job)
    requires '-' !in a.spec.artist && '-' !in b.spec.artist
    requires a.DisplayName() == b.DisplayName()
    ensures a.spec.artist == b.spec.artist && a.spec.songName == b.spec.songName
  {
    SeparatorNotInsideArtist(a.spec.artist, a.spec.songName, b.spec.artist, b.spec.songName);
    var x := a.spec.artist;
    var d := a.DisplayName();
    assert x == d[..|x|] == b.spec.artist;
    assert a.spec.songName == d[|x| + 3..] == b.spec.songName;
  }

  /** In `x + " - " + s` with no '-' in `x`, the first '-' sits right after
      `x` and its space, so that position gives back the length of `x`. */
  lemma SeparatorNotInsideArtist(x: string, s: string, y: string, t: string)
    requires '-' !in x && '-' !in y
    requires x + " - " + s == y + " - " + t
    ensures |x| == |y|
  {
    IndexOfAfter(x, " - " + s, '-');
    IndexOfAfter(y, " - " + t, '-');
    assert x + " - " + s == x + (" - " + s);
    assert y + " - " + t == y + (" - " + t);
  }
}
