/** `JobExecutor`: the nine-step workflow that drives one job through the
    session-creation workflow, reporting progress at fixed checkpoints and
    turning any step failure into a failed job plus a best-effort close. */
module Executor {
  import opened Wrappers
  import opened Errors
  import opened Text
  import opened Paths
  import opened SessionSpecs
  import opened Jobs

  /** The operations of the workflow interface (`ProToolsWorkflowProtocol`). */
  datatype Call =
    | Launch
    | CreateSession(name: string, sampleRate: int, bitDepth: int, outputDir: Path)
    | ImportAudio(audioFiles: seq<Path>)
    | ImportMidi(midiFiles: seq<Path>)
    | ImportTemplate(template: Path)
    | SaveSession(sessionFile: Path)
    | CloseSession

  /** Everything outside the executor: which paths exist, whether creating
      a directory fails (with the `OSError` text), and how the workflow
      answers the n-th call of the run (None: returns; Some(text): raises
      an exception whose `str` is text). */
  datatype Env = Env(
    onDisk: Path -> bool,
    makeDirs: Path -> Option<string>,
    workflow: (nat, Call) -> Option<string>)

  /** The nine steps. */
  datatype Step =
    | ValidateStep | CreateDirStep | LaunchStep | CreateSessionStep
    | ImportAudioStep | ImportMidiStep | ImportTemplateStep | SaveStep | CompleteStep

  /** The order in which `execute` runs the steps. */
  const Steps: seq<Step> :=
    [ValidateStep, CreateDirStep, LaunchStep, CreateSessionStep,
     ImportAudioStep, ImportMidiStep, ImportTemplateStep, SaveStep, CompleteStep]

  /** `STEP_PROGRESS`: the progress each step reports when it starts. */
  function Checkpoint(s: Step): nat
  {
    match s
    case ValidateStep => 5
    case CreateDirStep => 10
    case LaunchStep => 20
    case CreateSessionStep => 30
    case ImportAudioStep => 50
    case ImportMidiStep => 70
    case ImportTemplateStep => 85
    case SaveStep => 95
    case CompleteStep => 100
  }

  /** The checkpoints of a successful run, in order. */
  const Checkpoints: seq<nat> := [5, 10, 20, 30, 50, 70, 85, 95, 100]

  /** A progress notification `(progress_pct, message)` handed to the
      callback; `MessageText` gives the message's text. */
  datatype Event = Event(progress: nat, message: Message)

  /** The progress values of a list of notifications. */
  function Progresses(events: seq<Event>): (r: seq<nat>)
    ensures |r| == |events|
    ensures forall i :: 0 <= i < |events| ==> r[i] == events[i].progress
  {
    seq(|events|, i requires 0 <= i < |events| => events[i].progress)
  }

  /** The first of `files` that does not exist. */
  function FirstMissing(files: seq<Path>, onDisk: Path -> bool): (r: Option<Path>)
    ensures r.None? <==> forall i :: 0 <= i < |files| ==> onDisk(files[i])
    ensures r.Some? ==> r.value in files && !onDisk(r.value)
  {
    if |files| == 0 then None
    else if !onDisk(files[0]) then Some(files[0])
    else FirstMissing(files[1..], onDisk)
  }

  /** `_step_validate`: the text of the `ValidationError` raised for the
      first missing audio file, else MIDI file, else template. */
  function MissingFile(spec: SessionSpec, onDisk: Path -> bool): Option<string>
  {
    match FirstMissing(spec.audioFiles, onDisk)
    case Some(f) => Some("Audio file not found: " + PathText(f))
    case None =>
      match FirstMissing(spec.midiFiles, onDisk)
      case Some(f) => Some("MIDI file not found: " + PathText(f))
      case None =>
        if spec.HasTemplate() && !onDisk(spec.templatePath.value) then
          Some("Template file not found: " + PathText(spec.templatePath.value))
        else None
  }

  /** Every file the specification references exists. */
  predicate FilesPresent(spec: SessionSpec, onDisk: Path -> bool)
  {
    && (forall f :: f in spec.audioFiles ==> onDisk(f))
    && (forall f :: f in spec.midiFiles ==> onDisk(f))
    && (spec.templatePath.Some? ==> onDisk(spec.templatePath.value))
  }

  /** Validation fails exactly when some referenced file is missing. */
  lemma MissingFileIffAbsent(spec: SessionSpec, onDisk: Path -> bool)
    ensures MissingFile(spec, onDisk).None? <==> FilesPresent(spec, onDisk)
  {
    var a := FirstMissing(spec.audioFiles, onDisk);
    var m := FirstMissing(spec.midiFiles, onDisk);
    if a.None? {
      assert forall f :: f in spec.audioFiles ==> onDisk(f);
    }
    if m.None? {
      assert forall f :: f in spec.midiFiles ==> onDisk(f);
    }
  }

  /** What a progress notification says, before it is rendered as text. */
  datatype Message =
    | Validating | CreatingDir | Launching | CreatingSession(name: string)
    | SkippingAudio | ImportingAudio(count: nat) | SkippingMidi | ImportingMidi(count: nat)
    | SkippingTemplate | ImportingTemplate(name: string) | Saving | Complete

  /** The text of a progress notification as the callback receives it. */
  function MessageText(m: Message): string
  {
    match m
    case Validating => "Validating session specification"
    case CreatingDir => "Creating output directory"
    case Launching => "Launching Pro Tools"
    case CreatingSession(name) => "Creating session: " + name
    case SkippingAudio => "Skipping audio import (no audio files)"
    case ImportingAudio(count) => "Importing " + NatToString(count) + " audio file(s)"
    case SkippingMidi => "Skipping MIDI import (no MIDI files)"
    case ImportingMidi(count) => "Importing " + NatToString(count) + " MIDI file(s)"
    case SkippingTemplate => "Skipping template import (no template)"
    case ImportingTemplate(name) => "Importing template: " + name
    case Saving => "Saving session"
    case Complete => "Job complete"
  }

  /** The progress message a step reports. */
  function StepMessage(step: Step, spec: SessionSpec): Message
  {
    match step
    case ValidateStep => Validating
    case CreateDirStep => CreatingDir
    case LaunchStep => Launching
    case CreateSessionStep => CreatingSession(spec.SessionName())
    case ImportAudioStep => if !spec.HasAudio() then SkippingAudio else ImportingAudio(|spec.audioFiles|)
    case ImportMidiStep => if !spec.HasMidi() then SkippingMidi else ImportingMidi(|spec.midiFiles|)
    case ImportTemplateStep =>
      if !spec.HasTemplate() then SkippingTemplate else ImportingTemplate(Name(spec.templatePath.value))
    case SaveStep => Saving
    case CompleteStep => Complete
  }

  /** The workflow calls a step makes (none or one). */
  function StepCalls(step: Step, spec: SessionSpec): (r: seq<Call>)
    ensures |r| <= 1
  {
    match step
    case ValidateStep => []
    case CreateDirStep => []
    case LaunchStep => [Launch]
    case CreateSessionStep =>
      [CreateSession(spec.SessionName(), spec.sampleRate, spec.bitDepth, spec.outputDir)]
    case ImportAudioStep => if spec.HasAudio() then [ImportAudio(spec.audioFiles)] else []
    case ImportMidiStep => if spec.HasMidi() then [ImportMidi(spec.midiFiles)] else []
    case ImportTemplateStep =>
      if spec.HasTemplate() then [ImportTemplate(spec.templatePath.value)] else []
    case SaveStep => [SaveSession(spec.sessionFile)]
    case CompleteStep => [CloseSession]
  }

  /** The failure of the part of a step that does not involve the workflow:
      validation and creating the output directory. */
  function LocalFailure(step: Step, spec: SessionSpec, env: Env): Option<string>
  {
    match step
    case ValidateStep => MissingFile(spec, env.onDisk)
    case CreateDirStep =>
      (match env.makeDirs(spec.outputDir)
       case None => None
       case Some(e) => Some("Failed to create output directory: " + e))
    case _ => None
  }

  /** The `_step_*` methods: the text of the exception a step raises, if any.
      `n` counts the workflow calls made before the step. */
  function StepFailure(step: Step, spec: SessionSpec, env: Env, n: nat): Option<string>
  {
    var local := LocalFailure(step, spec, env);
    var calls := StepCalls(step, spec);
    if local.Some? then local
    else if |calls| == 1 then env.workflow(n, calls[0])
    else None
  }

  /** The workflow returns normally from each of `calls`, numbered from `n`. */
  predicate Answered(calls: seq<Call>, env: Env, n: nat)
  {
    forall i :: 0 <= i < |calls| ==> env.workflow(n + i, calls[i]).None?
  }

  lemma AnsweredConcat(a: seq<Call>, b: seq<Call>, env: Env, n: nat)
    ensures Answered(a + b, env, n) <==> Answered(a, env, n) && Answered(b, env, n + |a|)
  {
    if Answered(a, env, n) && Answered(b, env, n + |a|) {
      forall i | 0 <= i < |a + b|
        ensures env.workflow(n + i, (a + b)[i]).None?
      {
        if i >= |a| {
          assert (a + b)[i] == b[i - |a|];
          assert n + i == (n + |a|) + (i - |a|);
        } else {
          assert (a + b)[i] == a[i];
        }
      }
    }
    if Answered(a + b, env, n) {
      forall i | 0 <= i < |a|
        ensures env.workflow(n + i, a[i]).None?
      {
        assert (a + b)[i] == a[i];
      }
      forall i | 0 <= i < |b|
        ensures env.workflow(n + |a| + i, b[i]).None?
      {
        assert (a + b)[|a| + i] == b[i];
      }
    }
  }

  /** A step fails exactly when its own check fails or the workflow raises
      on the call it makes. */
  lemma StepFailsIff(step: Step, spec: SessionSpec, env: Env, n: nat)
    ensures StepFailure(step, spec, env, n).None? <==>
      LocalFailure(step, spec, env).None? && Answered(StepCalls(step, spec), env, n)
  {
    var calls := StepCalls(step, spec);
    if |calls| == 1 {
      assert n + 0 == n;
    }
  }

  /** The state threaded through the steps. */
  datatype Progress = Progress(job: Job, events: seq<Event>, calls: seq<Call>, failure: Option<string>)

  /** One step from a state without failure: set the job's progress to the
      step's checkpoint and notify, then do the work. */
  function Advance(step: Step, p: Progress, env: Env): Progress
  {
    Progress(
      p.job.(progress := Checkpoint(step)),
      p.events + [Event(Checkpoint(step), StepMessage(step, p.job.spec))],
      p.calls + StepCalls(step, p.job.spec),
      StepFailure(step, p.job.spec, env, |p.calls|))
  }

  /** Runs `steps` in order; the first failure stops the run.  What a run
      does to the job, the notifications and the calls is stated by the
      lemmas that follow. */
  function RunSteps(steps: seq<Step>, p: Progress, env: Env): Progress
    requires p.failure.None?
    decreases |steps|
  {
    if |steps| == 0 then p
    else
      var p1 := Advance(steps[0], p, env);
      if p1.failure.Some? then p1 else RunSteps(steps[1..], p1, env)
  }

  /** A run changes nothing about the job but its progress. */
  lemma {:induction false} RunStepsJob(steps: seq<Step>, p: Progress, env: Env)
    requires p.failure.None?
    ensures var r := RunSteps(steps, p, env);
      r.job == p.job.(progress := r.job.progress)
    decreases |steps|
  {
    if |steps| > 0 {
      var p1 := Advance(steps[0], p, env);
      if p1.failure.None? {
        RunStepsJob(steps[1..], p1, env);
      }
    }
  }

  /** A run only appends notifications, at least one and at most one per
      step, and one per step when no step fails. */
  lemma {:induction false} RunStepsEvents(steps: seq<Step>, p: Progress, env: Env)
    requires p.failure.None?
    ensures var r := RunSteps(steps, p, env);
      && (|steps| == 0 ==> r == p)
      && (|steps| > 0 ==> |p.events| < |r.events| <= |p.events| + |steps|)
      && r.events[..|p.events|] == p.events
      && (r.failure.None? ==> |r.events| == |p.events| + |steps|)
    decreases |steps|
  {
    if |steps| > 0 {
      var p1 := Advance(steps[0], p, env);
      assert p1.events == p.events + [p1.events[|p.events|]];
      if p1.failure.None? {
        var r := RunSteps(steps[1..], p1, env);
        RunStepsEvents(steps[1..], p1, env);
        PrefixOfPrefix(r.events, p1.events, p.events);
      }
    }
  }

  /** The k-th notification of a run reports the k-th step's checkpoint. */
  lemma {:induction false} RunStepsProgress(steps: seq<Step>, p: Progress, env: Env)
    requires p.failure.None?
    ensures var r := RunSteps(steps, p, env);
      forall k :: |p.events| <= k < |r.events| && k - |p.events| < |steps| ==>
        r.events[k].progress == Checkpoint(steps[k - |p.events|])
    decreases |steps|
  {
    if |steps| > 0 {
      var p1 := Advance(steps[0], p, env);
      if p1.failure.None? {
        var r := RunSteps(steps[1..], p1, env);
        RunStepsEvents(steps[1..], p1, env);
        RunStepsProgress(steps[1..], p1, env);
        ProgressShift(steps, p.events, p1.events[|p.events|], r.events);
      }
    }
  }

  /** After a non-empty run the job shows the progress of the last notification. */
  lemma {:induction false} RunStepsLastProgress(steps: seq<Step>, p: Progress, env: Env)
    requires p.failure.None?
    ensures var r := RunSteps(steps, p, env);
      |steps| > 0 && |r.events| > 0 ==> r.job.progress == r.events[|r.events| - 1].progress
    decreases |steps|
  {
    if |steps| > 0 {
      var p1 := Advance(steps[0], p, env);
      if p1.failure.None? {
        RunStepsEvents(steps[1..], p1, env);
        RunStepsLastProgress(steps[1..], p1, env);
      }
    }
  }

  /** A run only appends workflow calls. */
  lemma {:induction false} RunStepsCalls(steps: seq<Step>, p: Progress, env: Env)
    requires p.failure.None?
    ensures var r := RunSteps(steps, p, env);
      |p.calls| <= |r.calls| && r.calls[..|p.calls|] == p.calls
    decreases |steps|
  {
    if |steps| > 0 {
      var p1 := Advance(steps[0], p, env);
      if p1.failure.None? {
        var r := RunSteps(steps[1..], p1, env);
        RunStepsCalls(steps[1..], p1, env);
        PrefixOfPrefix(r.calls, p1.calls, p.calls);
      }
    }
  }

  /** The first k of `steps` pass, each numbered by the workflow calls made
      before it, starting from n. */
  predicate PassesBefore(steps: seq<Step>, spec: SessionSpec, env: Env, n: nat, k: nat)
    requires k <= |steps|
  {
    forall j :: 0 <= j < k ==> StepFailure(steps[j], spec, env, n + |CallsOf(steps[..j], spec)|).None?
  }

  /** The failure of step k of `steps`, numbered from n. */
  function FailureAt(steps: seq<Step>, spec: SessionSpec, env: Env, n: nat, k: nat): Option<string>
    requires k < |steps|
  {
    StepFailure(steps[k], spec, env, n + |CallsOf(steps[..k], spec)|)
  }

  /** Step k of `steps` fails with f after the steps before it passed,
      numbering the workflow calls from n. */
  predicate FailedAt(steps: seq<Step>, spec: SessionSpec, env: Env, n: nat, k: int, f: Option<string>)
  {
    0 <= k < |steps| && PassesBefore(steps, spec, env, n, k) && f == FailureAt(steps, spec, env, n, k)
  }

  /** A run that fails stops at the step of its last notification, with
      that step's failure; every earlier step passed. */
  lemma {:induction false} RunStepsFailure(steps: seq<Step>, p: Progress, env: Env)
    requires p.failure.None?
    ensures var r := RunSteps(steps, p, env);
      r.failure.Some? ==> FailedAt(steps, p.job.spec, env, |p.calls|, |r.events| - |p.events| - 1, r.failure)
    decreases |steps|
  {
    if |steps| > 0 {
      var spec := p.job.spec;
      var p1 := Advance(steps[0], p, env);
      assert p1.job.spec == spec && |p1.events| == |p.events| + 1;
      if p1.failure.None? {
        var r := RunSteps(steps[1..], p1, env);
        assert RunSteps(steps, p, env) == r;
        RunStepsFailure(steps[1..], p1, env);
        if r.failure.Some? {
          FailureCons(steps, spec, env, |p.calls|, |p1.calls|, |r.events| - |p1.events| - 1, r.failure);
        }
      } else {
        assert RunSteps(steps, p, env) == p1;
        assert steps[..0] == [];
      }
    }
  }

  /** A failure at step k of the steps after a first step that passed is a
      failure at step k + 1 of them all. */
  lemma FailureCons(steps: seq<Step>, spec: SessionSpec, env: Env, n: nat, n1: nat, k: int, f: Option<string>)
    requires |steps| > 0 && n1 == n + |StepCalls(steps[0], spec)|
    requires StepFailure(steps[0], spec, env, n).None?
    requires FailedAt(steps[1..], spec, env, n1, k, f)
    ensures FailedAt(steps, spec, env, n, k + 1, f)
  {
    ShiftPassesBefore(steps, spec, env, n, k);
    ShiftFailureAt(steps, spec, env, n, k);
  }

  /** Passing the first step and then k more is passing the first k + 1. */
  lemma ShiftPassesBefore(steps: seq<Step>, spec: SessionSpec, env: Env, n: nat, k: nat)
    requires k < |steps| - 1
    requires StepFailure(steps[0], spec, env, n).None?
    requires PassesBefore(steps[1..], spec, env, n + |StepCalls(steps[0], spec)|, k)
    ensures PassesBefore(steps, spec, env, n, k + 1)
  {
    forall j | 0 <= j < k + 1
      ensures StepFailure(steps[j], spec, env, n + |CallsOf(steps[..j], spec)|).None?
    {
      if j == 0 {
        assert steps[..0] == [];
      } else {
        ShiftFailureAt(steps, spec, env, n, j - 1);
        assert FailureAt(steps[1..], spec, env, n + |StepCalls(steps[0], spec)|, j - 1).None?;
      }
    }
  }

  /** Step k of the steps after the first is step k + 1 of them all. */
  lemma ShiftFailureAt(steps: seq<Step>, spec: SessionSpec, env: Env, n: nat, k: nat)
    requires k < |steps| - 1
    ensures FailureAt(steps[1..], spec, env, n + |StepCalls(steps[0], spec)|, k)
      == FailureAt(steps, spec, env, n, k + 1)
  {
    CallsOfPrefixCons(steps, k, spec);
    assert steps[k + 1] == steps[1..][k];
  }

  /** The calls of the first k + 1 steps: those of the first step, then
      those of the next k. */
  lemma CallsOfPrefixCons(s: seq<Step>, k: nat, spec: SessionSpec)
    requires k < |s|
    ensures CallsOf(s[..k + 1], spec) == StepCalls(s[0], spec) + CallsOf(s[1..][..k], spec)
  {
    assert s[..k + 1][0] == s[0];
    assert s[..k + 1][1..] == s[1..][..k];
  }

  /** A prefix of a prefix is a prefix. */
  lemma PrefixOfPrefix<T>(a: seq<T>, mid: seq<T>, b: seq<T>)
    requires |b| <= |mid| <= |a| && a[..|mid|] == mid && mid[..|b|] == b
    ensures a[..|b|] == b
  {
    assert a[..|b|] == a[..|mid|][..|b|];
  }

  /** The notifications after the first step of `steps` follow the remaining
      steps' checkpoints, so all of them follow `steps`' checkpoints. */
  lemma ProgressShift(steps: seq<Step>, before: seq<Event>, e: Event, after: seq<Event>)
    requires |steps| > 0 && e.progress == Checkpoint(steps[0])
    requires |before| < |after| && after[..|before| + 1] == before + [e]
    requires forall k :: |before| + 1 <= k < |after| && k - (|before| + 1) < |steps| - 1 ==>
      after[k].progress == Checkpoint(steps[1..][k - (|before| + 1)])
    ensures forall k :: |before| <= k < |after| && k - |before| < |steps| ==>
      after[k].progress == Checkpoint(steps[k - |before|])
  {
    forall k | |before| <= k < |after| && k - |before| < |steps|
      ensures after[k].progress == Checkpoint(steps[k - |before|])
    {
      if k == |before| {
        assert after[k] == after[..|before| + 1][k] == e;
      } else {
        assert steps[1..][k - (|before| + 1)] == steps[k - |before|];
      }
    }
  }

  /** The workflow calls `steps` make when none of them fails. */
  function CallsOf(steps: seq<Step>, spec: SessionSpec): seq<Call>
    decreases |steps|
  {
    if |steps| == 0 then [] else StepCalls(steps[0], spec) + CallsOf(steps[1..], spec)
  }

  /** Every one of `steps` passes its own check. */
  predicate StepsOk(steps: seq<Step>, spec: SessionSpec, env: Env)
  {
    forall i :: 0 <= i < |steps| ==> LocalFailure(steps[i], spec, env).None?
  }

  lemma StepsOkCons(steps: seq<Step>, spec: SessionSpec, env: Env)
    requires |steps| > 0
    ensures StepsOk(steps, spec, env) <==>
      LocalFailure(steps[0], spec, env).None? && StepsOk(steps[1..], spec, env)
  {
    if LocalFailure(steps[0], spec, env).None? && StepsOk(steps[1..], spec, env) {
      forall i | 0 <= i < |steps|
        ensures LocalFailure(steps[i], spec, env).None?
      {
        if i > 0 {
          assert steps[i] == steps[1..][i - 1];
        }
      }
    }
    if StepsOk(steps, spec, env) {
      forall i | 0 <= i < |steps[1..]|
        ensures LocalFailure(steps[1..][i], spec, env).None?
      {
        assert steps[1..][i] == steps[i + 1];
      }
    }
  }

  /** A run of `steps` succeeds exactly when every step passes its own check
      and the workflow returns from every call; a successful run makes
      exactly the calls of `CallsOf`. */
  lemma {:induction false} RunStepsSucceedsIff(steps: seq<Step>, p: Progress, env: Env)
    requires p.failure.None?
    ensures RunSteps(steps, p, env).failure.None? <==>
      StepsOk(steps, p.job.spec, env) && Answered(CallsOf(steps, p.job.spec), env, |p.calls|)
    ensures RunSteps(steps, p, env).failure.None? ==>
      RunSteps(steps, p, env).calls == p.calls + CallsOf(steps, p.job.spec)
    decreases |steps|
  {
    if |steps| > 0 {
      var spec := p.job.spec;
      var n := |p.calls|;
      var c := StepCalls(steps[0], spec);
      var p1 := Advance(steps[0], p, env);
      assert p1.job.spec == spec;
      StepFailsIff(steps[0], spec, env, n);
      AnsweredConcat(c, CallsOf(steps[1..], spec), env, n);
      StepsOkCons(steps, spec, env);
      if p1.failure.None? {
        RunStepsSucceedsIff(steps[1..], p1, env);
        assert RunSteps(steps, p, env) == RunSteps(steps[1..], p1, env);
        assert CallsOf(steps, spec) == c + CallsOf(steps[1..], spec);
        Assoc3(p.calls, c, CallsOf(steps[1..], spec));
      } else {
        assert RunSteps(steps, p, env) == p1;
      }
    } else {
      assert RunSteps(steps, p, env) == p;
    }
  }

  /** The calls of a successful run, written out: launch, create the session,
      import whatever the specification has, save and close. */
  function ExpectedCalls(spec: SessionSpec): seq<Call>
  {
    [Launch, CreateSession(spec.SessionName(), spec.sampleRate, spec.bitDepth, spec.outputDir)]
    + ((if spec.HasAudio() then [ImportAudio(spec.audioFiles)] else [])
    + ((if spec.HasMidi() then [ImportMidi(spec.midiFiles)] else [])
    + ((if spec.HasTemplate() then [ImportTemplate(spec.templatePath.value)] else [])
    + [SaveSession(spec.sessionFile), CloseSession])))
  }

  lemma CallsOfStepsExpected(spec: SessionSpec)
    ensures CallsOf(Steps, spec) == ExpectedCalls(spec)
  {
    CallsOfStepsWritten(spec);
    ExpectedCallsWritten(spec);
  }

  /** The calls of the nine steps, grouped as `ExpectedCalls` groups them. */
  lemma CallsOfStepsWritten(spec: SessionSpec)
    ensures CallsOf(Steps, spec) ==
      [Launch, CreateSession(spec.SessionName(), spec.sampleRate, spec.bitDepth, spec.outputDir)]
      + (StepCalls(ImportAudioStep, spec) + (StepCalls(ImportMidiStep, spec)
      + (StepCalls(ImportTemplateStep, spec) + [SaveSession(spec.sessionFile), CloseSession])))
  {
    var a := StepCalls(ImportAudioStep, spec);
    var m := StepCalls(ImportMidiStep, spec);
    var t := StepCalls(ImportTemplateStep, spec);
    var save := SaveSession(spec.sessionFile);
    var create := CreateSession(spec.SessionName(), spec.sampleRate, spec.bitDepth, spec.outputDir);
    CallsOfNine(Steps, spec, ValidateStep, CreateDirStep, LaunchStep, CreateSessionStep,
                ImportAudioStep, ImportMidiStep, ImportTemplateStep, SaveStep, CompleteStep);
    FixedStepCalls(spec);
    Pair(save, CloseSession);
    Regroup(Launch, create, a + (m + (t + [save, CloseSession])));
  }

  /** The import calls of `ExpectedCalls` are those of the import steps. */
  lemma ExpectedCallsWritten(spec: SessionSpec)
    ensures ExpectedCalls(spec) ==
      [Launch, CreateSession(spec.SessionName(), spec.sampleRate, spec.bitDepth, spec.outputDir)]
      + (StepCalls(ImportAudioStep, spec) + (StepCalls(ImportMidiStep, spec)
      + (StepCalls(ImportTemplateStep, spec) + [SaveSession(spec.sessionFile), CloseSession])))
  {
  }

  /** The steps whose calls do not depend on what the specification holds. */
  lemma FixedStepCalls(spec: SessionSpec)
    ensures StepCalls(ValidateStep, spec) == [] && StepCalls(CreateDirStep, spec) == []
    ensures StepCalls(LaunchStep, spec) == [Launch]
    ensures StepCalls(CreateSessionStep, spec) ==
      [CreateSession(spec.SessionName(), spec.sampleRate, spec.bitDepth, spec.outputDir)]
    ensures StepCalls(SaveStep, spec) == [SaveSession(spec.sessionFile)]
    ensures StepCalls(CompleteStep, spec) == [CloseSession]
  {
  }

  lemma Pair(x: Call, y: Call)
    ensures [x] + ([y] + []) == [x, y]
  {
  }

  lemma Regroup(x: Call, y: Call, rest: seq<Call>)
    ensures [] + ([] + ([x] + ([y] + rest))) == [x, y] + rest
  {
  }

  /** The calls of nine steps, written out one step at a time. */
  lemma CallsOfNine(s: seq<Step>, spec: SessionSpec,
                     s0: Step, s1: Step, s2: Step, s3: Step, s4: Step, s5: Step, s6: Step, s7: Step, s8: Step)
    requires s == [s0, s1, s2, s3, s4, s5, s6, s7, s8]
    ensures CallsOf(s, spec) ==
      StepCalls(s0, spec) + (StepCalls(s1, spec) + (StepCalls(s2, spec) + (StepCalls(s3, spec)
      + (StepCalls(s4, spec) + (StepCalls(s5, spec) + (StepCalls(s6, spec) + (StepCalls(s7, spec)
      + (StepCalls(s8, spec) + []))))))))
  {
    CallsOfPeel(s, spec, 0);
    CallsOfPeel(s, spec, 1);
    CallsOfPeel(s, spec, 2);
    CallsOfPeel(s, spec, 3);
    CallsOfPeel(s, spec, 4);
    CallsOfPeel(s, spec, 5);
    CallsOfPeel(s, spec, 6);
    CallsOfPeel(s, spec, 7);
    CallsOfPeel(s, spec, 8);
    assert s[0..] == s;
    assert s[9..] == [];
  }

  /** Peeling the k-th step off the steps from k on. */
  lemma CallsOfPeel(s: seq<Step>, spec: SessionSpec, k: nat)
    requires k < |s|
    ensures CallsOf(s[k..], spec) == StepCalls(s[k], spec) + CallsOf(s[k + 1..], spec)
  {
    assert s[k..][0] == s[k];
    assert s[k..][1..] == s[k + 1..];
  }

  lemma Assoc3<T>(x0: seq<T>, x1: seq<T>, x2: seq<T>)
    ensures (x0 + x1) + x2 == x0 + (x1 + x2)
  {
  }

  /** The nine steps pass their own checks exactly when every referenced file
      exists and the output directory can be created. */
  lemma StepsOkIff(spec: SessionSpec, env: Env)
    ensures StepsOk(Steps, spec, env) <==>
      FilesPresent(spec, env.onDisk) && env.makeDirs(spec.outputDir).None?
  {
    MissingFileIffAbsent(spec, env.onDisk);
    if FilesPresent(spec, env.onDisk) && env.makeDirs(spec.outputDir).None? {
      forall i | 0 <= i < |Steps|
        ensures LocalFailure(Steps[i], spec, env).None?
      {
      }
    }
    if StepsOk(Steps, spec, env) {
      assert LocalFailure(Steps[0], spec, env).None?;
      assert LocalFailure(Steps[1], spec, env).None?;
    }
  }

  /** The checkpoints of the nine steps, in order. */
  lemma CheckpointsOfSteps()
    ensures |Steps| == |Checkpoints|
    ensures forall i :: 0 <= i < |Steps| ==> Checkpoint(Steps[i]) == Checkpoints[i]
  {
  }

  /** The checkpoints strictly increase and end at 100. */
  lemma CheckpointsIncrease()
    ensures forall i, j :: 0 <= i < j < |Checkpoints| ==> Checkpoints[i] < Checkpoints[j]
    ensures Checkpoints[|Checkpoints| - 1] == 100
  {
  }

  /** A run of all nine steps from a fresh state: the notifications follow
      the checkpoints, and a successful run reaches every one of them. */
  lemma RunAllSteps(job: Job, env: Env)
    ensures var p := RunSteps(Steps, Progress(job, [], [], None), env);
      && 0 < |p.events| <= |Checkpoints|
      && Progresses(p.events) == Checkpoints[..|p.events|]
      && p.job == job.(progress := p.events[|p.events| - 1].progress)
      && (p.failure.None? ==> |p.events| == |Checkpoints|)
  {
    var p0 := Progress(job, [], [], None);
    var p := RunSteps(Steps, p0, env);
    RunStepsJob(Steps, p0, env);
    RunStepsEvents(Steps, p0, env);
    RunStepsProgress(Steps, p0, env);
    RunStepsLastProgress(Steps, p0, env);
    CheckpointsOfSteps();
    assert Progresses(p.events) == Checkpoints[..|p.events|];
  }

  /** A successful run of all nine steps makes exactly the expected calls. */
  lemma RunAllStepsCalls(job: Job, env: Env)
    ensures var p := RunSteps(Steps, Progress(job, [], [], None), env);
      p.failure.None? ==> p.calls == ExpectedCalls(job.spec)
  {
    var p0 := Progress(job, [], [], None);
    var p := RunSteps(Steps, p0, env);
    if p.failure.None? {
      RunStepsSucceedsIff(Steps, p0, env);
      CallsOfStepsExpected(job.spec);
      assert p.calls == [] + CallsOf(Steps, job.spec);
    }
  }

  /** The result of `execute`: the job as left behind, the notifications,
      the workflow calls made, and the exception raised (if any). */
  datatype Run = Run(job: Job, events: seq<Event>, calls: seq<Call>, raised: Option<Error>)

  /** `execute(job)`.  The clock reads `startedAt` when the job starts and
      `finishedAt` when it completes or fails. */
  function Execute(job: Job, env: Env, startedAt: int, finishedAt: int): (r: Run)
    // nothing but the execution state changes; the specification is untouched
    ensures r.job.spec == job.spec && r.job.id == job.id && r.job.queuedAt == job.queuedAt
    // never left running
    ensures r.job.IsFinished()
    ensures r.job.startedAt == Some(startedAt) && r.job.completedAt == Some(finishedAt)
    ensures r.raised.None? <==> r.job.status == Completed
    ensures r.raised.None? ==> r.job.progress == 100 && r.job.errorMessage == job.errorMessage
    ensures r.raised.Some? ==>
      && r.job.status == Failed
      && r.job.errorMessage.Some?
      && r.raised == Some(JobExecution("Job execution failed: " + r.job.errorMessage.value))
      && |r.calls| > 0 && r.calls[|r.calls| - 1] == CloseSession
  {
    var running := job.(status := Running, startedAt := Some(startedAt));
    var p := RunSteps(Steps, Progress(running, [], [], None), env);
    RunAllSteps(running, env);
    match p.failure
    case None =>
      Run(p.job.(status := Completed, completedAt := Some(finishedAt)), p.events, p.calls, None)
    case Some(message) =>
      // `_cleanup_on_error`: mark the job failed, then attempt `close_session`
      // and ignore whatever it does
      Run(p.job.(status := Failed, errorMessage := Some(message), completedAt := Some(finishedAt)),
          p.events, p.calls + [CloseSession],
          Some(JobExecution("Job execution failed: " + message)))
  }

  /** What `execute` reports along the way: progress only ever climbs
      through the checkpoints and the job shows the last one reached; a
      successful run passes every checkpoint and makes exactly the expected
      workflow calls. */
  lemma ExecuteProgress(job: Job, env: Env, startedAt: int, finishedAt: int)
    ensures var r := Execute(job, env, startedAt, finishedAt);
      && 0 < |r.events| <= |Checkpoints|
      && Progresses(r.events) == Checkpoints[..|r.events|]
      && r.job.progress == r.events[|r.events| - 1].progress
      && (r.raised.None? ==> Progresses(r.events) == Checkpoints && r.calls == ExpectedCalls(job.spec))
  {
    var running := job.(status := Running, startedAt := Some(startedAt));
    var p := RunSteps(Steps, Progress(running, [], [], None), env);
    RunAllSteps(running, env);
    RunAllStepsCalls(running, env);
    var r := Execute(job, env, startedAt, finishedAt);
    assert r.events == p.events && r.job.progress == p.job.progress;
    assert r.raised.None? ==> p.failure.None? && r.calls == p.calls;
  }

  /** `execute` succeeds exactly when every referenced file exists, the output
      directory can be created and the workflow returns from each expected call. */
  lemma ExecuteSucceedsIff(job: Job, env: Env, startedAt: int, finishedAt: int)
    ensures Execute(job, env, startedAt, finishedAt).raised.None? <==>
      && FilesPresent(job.spec, env.onDisk)
      && env.makeDirs(job.spec.outputDir).None?
      && Answered(ExpectedCalls(job.spec), env, 0)
  {
    var running := job.(status := Running, startedAt := Some(startedAt));
    RunStepsSucceedsIff(Steps, Progress(running, [], [], None), env);
    CallsOfStepsExpected(job.spec);
    StepsOkIff(job.spec, env);
  }

  /** A missing audio, MIDI or template file fails the job in the first step:
      the only notification is the validation one and the only workflow call
      is the closing attempt of the cleanup. */
  lemma MissingFileFailsFirst(job: Job, env: Env, startedAt: int, finishedAt: int)
    requires !FilesPresent(job.spec, env.onDisk)
    ensures var r := Execute(job, env, startedAt, finishedAt);
      && r.job.status == Failed
      && r.job.progress == 5
      && r.events == [Event(5, Validating)]
      && r.calls == [CloseSession]
      && r.job.errorMessage == MissingFile(job.spec, env.onDisk)
  {
    MissingFileIffAbsent(job.spec, env.onDisk);
  }

  /** The message a failed job records is the failure of the step it
      stopped at, the step of its last notification, and every earlier
      step passed. */
  lemma ExecuteFailureMessage(job: Job, env: Env, startedAt: int, finishedAt: int)
    ensures var r := Execute(job, env, startedAt, finishedAt);
      var k := |r.events| - 1;
      r.raised.Some? ==>
        && 0 <= k < |Steps|
        && PassesBefore(Steps, job.spec, env, 0, k)
        && r.job.errorMessage == FailureAt(Steps, job.spec, env, 0, k)
  {
    var running := job.(status := Running, startedAt := Some(startedAt));
    var p0 := Progress(running, [], [], None);
    var p := RunSteps(Steps, p0, env);
    RunStepsFailure(Steps, p0, env);
    var r := Execute(job, env, startedAt, finishedAt);
    assert r.events == p.events;
    assert r.raised.Some? ==> r.job.errorMessage == p.failure;
  }

  /** With every file present, a directory that cannot be created fails the
      job at 10% with the `OSError` text, and only the cleanup close is called. */
  lemma MakeDirsFailureRecorded(job: Job, env: Env, startedAt: int, finishedAt: int, e: string)
    requires FilesPresent(job.spec, env.onDisk)
    requires env.makeDirs(job.spec.outputDir) == Some(e)
    ensures var r := Execute(job, env, startedAt, finishedAt);
      && r.job.status == Failed
      && r.job.progress == 10
      && r.job.errorMessage == Some("Failed to create output directory: " + e)
      && r.calls == [CloseSession]
  {
    MissingFileIffAbsent(job.spec, env.onDisk);
  }
}
