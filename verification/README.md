# ProtoolsPrep core, modelled in Dafny

ProtoolsPrep prepares Pro Tools sessions in batches. Someone describes each
session as a `SessionSpec`: sample rate, bit depth, output directory, session
file, artist, song, the audio, MIDI and template files, and an optional
album/EP project name. A `Job` wraps the spec. The jobs wait in a
`QueueManager`, which is a FIFO of pending jobs plus one "current" slot. A
`JobExecutor` runs one job through nine fixed steps against a Pro Tools
workflow. Under that workflow sits an AppleScript controller, which fills in
`{key}` placeholders, classifies error messages as retryable or terminal,
and retries with exponential backoff. Three pure helpers feed the specs:

- a path resolver that sanitises names and lays out the output folders;
- a folder scanner that splits a directory listing into sorted audio and MIDI lists;
- a check that all audio files share one sample rate and bit depth.

The model is functional. Records are immutable datatypes and every operation
is a pure function or a small method. Everything the program asks of the
outside world is an input:

- file existence and directory creation (`onDisk`, `makeDirs`);
- the answer to each workflow call (`workflow`);
- the outcome of each `osascript` run (`osascript`);
- `soxi` analysis (`analyze`);
- directory listings (`Listing`);
- clock readings;
- script files (a map from path to text).

Modules, one per source file, plus four support modules:

| module | file | models |
|---|---|---|
| `Wrappers`, `Errors` | Wrappers.dfy, Errors.dfy | `Option`/`Result`, the exception taxonomy of `src/core/exceptions.py` |
| `Text`, `Paths` | Text.dfy, Paths.dfy | the parts of Python `str` and `pathlib` the core relies on: `strip`, ASCII `lower`, `in`, `replace`, `/`, `name`, `stem`, `suffix` |
| `SessionSpecs` | SessionSpec.dfy | `SessionSpec` and its `__post_init__` validation |
| `Jobs` | Job.dfy | `JobStatus`, `Job`, `display_name`, `is_finished`, `duration`, fresh ids |
| `Queues` | QueueManager.dfy | every public `QueueManager` operation |
| `Executor` | JobExecutor.dfy | `JobExecutor.execute`, the nine steps, the cleanup and the progress checkpoints |
| `SerialConsumer` | Consumer.dfy | the sequential consume loop of the queue integration test |
| `Templates` | Templates.dfy | `_load_and_substitute` placeholder filling |
| `AppleScriptControl` | AppleScript.dfy | `_execute_once`, `_execute_with_retry`, `_is_retryable_error`, `execute` |
| `Resolver` | PathResolver.dfy | `resolve_paths`, `_sanitize_name`, `get_audio_files_dir` |
| `Scanner` | FolderScanner.dfy | `scan_folder` over a given listing, `get_supported_extensions` |
| `Analyzer` | AudioAnalyzer.dfy | `validate_folder` with `analyze_file` as an oracle |

Two points about `SessionSpec` construction follow the code closely:

- An allowed sample rate and bit depth do not by themselves make construction
  succeed: the later checks still run, so the model states only that a good rate
  and depth never produce the rate or depth errors (`SessionSpecs.GoodRateAndDepthPass`).
- `src/core/session_spec.py:85-89` raises "Output directory is required" and
  "Session file path is required" behind a `Path` truth test that never fails.
  `SessionSpecs.CreateAsWritten` models that code and `SessionSpecs.Create` the
  corrected construction (see Findings). The rejection lemmas of `SessionSpecs`
  are stated over `Create`, and each also says what `CreateAsWritten` does
  with the same spec. `Jobs`, `Executor` and `SerialConsumer` place no
  construction requirement on the spec they carry: like the program, which
  hands on whatever the as-written check accepted, they take any `SessionSpec`.

## Model

| member | source | states |
|---|---|---|
| SessionSpecs.Validate | src/core/session_spec.py:74-104 | construction passes exactly when all eight checks pass (rate, depth, output dir, session file, artist, song, files, template); on failure the error names the first check that failed in that order |
| SessionSpecs.CreateAsWritten | src/core/session_spec.py:74-104 | as written, an accepted record is returned unchanged and everything the corrected construction accepts is accepted too; a spec is accepted exactly when the six checks other than the output-directory and session-file checks pass, because Python counts every path as true; a rejection reports the first failing check in source order |
| SessionSpecs.AsWrittenChecks | src/core/session_spec.py:74-104 | with the always-true path test, validation passes exactly when the six other checks pass |
| SessionSpecs.Create | src/core/session_spec.py:66-104 | an accepted spec is returned unchanged and satisfies every stated condition, and every spec that satisfies them is accepted |
| SessionSpecs.CreateAcceptsValid | src/core/session_spec.py:74-104 | construction succeeds if and only if the independent condition `Valid` holds |
| SessionSpecs.BadSampleRateRejected | src/core/session_spec.py:75-77 | a rate outside the six allowed values is rejected with "Invalid sample rate: " and the number, both as written and corrected |
| SessionSpecs.GoodRateAndDepthPass | src/core/session_spec.py:74-82 | an allowed rate and depth never cause the rate or depth error |
| SessionSpecs.NoFilesRejected | src/core/session_spec.py:99-100 | with no audio and no MIDI files, a spec that passes the earlier checks fails with the "at least one audio or MIDI file" message, both as written and corrected |
| SessionSpecs.AgreeWhenPathsGiven | src/core/session_spec.py:74-104 | when the output directory and session file both name something, construction as written and corrected give the same result |
| SessionSpecs.BlankNamesRejected | src/core/session_spec.py:92-96 | an empty or whitespace-only artist or song name is rejected, both as written and corrected, with the matching message when the earlier checks pass |
| SessionSpecs.MissingTemplateRejected | src/core/session_spec.py:103-104 | a template path that does not exist is rejected, both as written and corrected |
| SessionSpecs.AcceptedHasContent | src/core/session_spec.py:99-100 | every accepted spec has audio or MIDI files |
| SessionSpecs.AlbumModeByPresence | src/core/session_spec.py:56-59 | album mode means a project name is present, so an empty project name still counts |
| SessionSpecs.SessionNameIsStem | src/core/session_spec.py:61-64 | the session name plus the file's suffix is the session file's name |
| SessionSpecs.EmptyOutputDirAcceptedAsWritten | src/core/session_spec.py:85-86 | an output directory of `Path("")` is accepted as written but rejected with "Output directory is required" once corrected |
| Jobs.Job.Duration | src/queue/job.py:60-73 | a duration exists exactly when the job has started; it is completion minus start, or now minus start while unfinished |
| Jobs.NewJob | src/queue/job.py:33-48 | a new job carries the given spec, is Pending with progress 0, no error and no start or end time, and takes an id from the fresh range |
| Jobs.NewJobsDistinctIds | src/queue/job.py:48 | jobs created one after another never share an id |
| Jobs.FinishedIffTerminal | src/queue/job.py:55-58 | a job is finished exactly when its status is Completed or Failed |
| Jobs.DisplayNameParts | src/queue/job.py:50-53 | the display name is the artist, then " - ", then the song name |
| Jobs.DisplayNameInjective | src/queue/job.py:50-53 | when artists contain no '-', equal display names mean equal artist and song |
| Queues.AllJobs | src/queue/queue_manager.py:118-130 | the snapshot is the current job, if any, followed by the pending jobs in FIFO order |
| Queues.Add | src/queue/queue_manager.py:26-34 | the job joins the tail, size grows by one, the current slot is unchanged |
| Queues.GetNext | src/queue/queue_manager.py:73-86 | an empty queue returns nothing and does not change; otherwise the head is returned, becomes current and leaves the pending list |
| Queues.Remove | src/queue/queue_manager.py:36-59 | succeeds exactly when the id is not the current job's and some pending job has it; then only the first such job is removed; a refusal changes nothing |
| Queues.Clear | src/queue/queue_manager.py:61-71 | reports the previous pending count, leaves no pending job and keeps the current one |
| Queues.CompleteCurrent | src/queue/queue_manager.py:98-103 | the current job is reported Completed and the slot vacated; the pending list is unchanged (as values); nothing happens without a current job |
| Queues.FailCurrent | src/queue/queue_manager.py:105-116 | the current job is reported Failed with the message and the slot vacated; the pending list is unchanged (as values); nothing happens without a current job |
| Queues.AddAllAppends | src/queue/queue_manager.py:26-34 | adding jobs one by one appends them, in order, to the pending list |
| Queues.DrainIsFifo | src/queue/queue_manager.py:73-86 | repeated `get_next` yields the pending jobs in order |
| Queues.FifoOrder | src/queue/queue_manager.py:26-86 | jobs added to an empty queue come out of `get_next` in insertion order |
| Queues.RemoveOnce | src/queue/queue_manager.py:54-59 | with distinct pending ids, removing the same id a second time fails |
| Queues.OnlyRunningReportsEmpty | src/queue/queue_manager.py:132-160 | a queue whose only job is running reports empty and size 0 but has a running job |
| Queues.GetNextOverwritesCurrent | src/queue/queue_manager.py:84-85 | `get_next` overwrites an occupied current slot, and the old job drops out of the snapshot |
| Executor.MissingFileIffAbsent | src/queue/job_executor.py:143-166 | validation reports a missing file exactly when some audio, MIDI or template file does not exist |
| Executor.StepFailsIff | src/queue/job_executor.py:143-243 | a step succeeds exactly when its local check passes and the workflow answers each of its calls |
| Executor.RunStepsJob | src/queue/job_executor.py:119-133 | running steps changes nothing about the job except its progress |
| Executor.RunStepsEvents | src/queue/job_executor.py:119-133 | running steps keeps the earlier notifications and appends at least one and at most one per step; a run without failure notifies exactly once per step |
| Executor.RunStepsProgress | src/queue/job_executor.py:268-279 | each notification of a run carries the checkpoint of the step that sent it, in step order |
| Executor.RunStepsLastProgress | src/queue/job_executor.py:268-279 | after a run, the job's progress equals that of the last notification |
| Executor.RunStepsCalls | src/queue/job_executor.py:119-133 | running steps keeps the earlier workflow calls and only appends to them |
| Executor.RunStepsSucceedsIff | src/queue/job_executor.py:119-141 | a step sequence finishes without failure exactly when every step passes its own check and the workflow answers every call; then the calls are exactly those the steps make |
| Executor.CallsOfStepsExpected | src/queue/job_executor.py:177-243 | the nine steps call launch, create_session, import audio/MIDI/template only when present, save, then close |
| Executor.StepsOkIff | src/queue/job_executor.py:143-175 | the steps' own checks pass exactly when every referenced file exists and the output directory can be created |
| Executor.CheckpointsOfSteps | src/queue/job_executor.py:79-89 | each step's checkpoint is the matching entry of 5, 10, 20, 30, 50, 70, 85, 95, 100 |
| Executor.CheckpointsIncrease | src/queue/job_executor.py:79-89 | the checkpoints strictly increase and end at 100 |
| Executor.RunAllSteps | src/queue/job_executor.py:119-137 | the notifications of the nine steps follow a prefix of the checkpoints, the job shows the last one reached, and a successful run reaches all nine |
| Executor.RunAllStepsCalls | src/queue/job_executor.py:119-137 | a successful run of the nine steps makes exactly the expected workflow calls, in order |
| Executor.Execute | src/queue/job_executor.py:106-141 | the spec, id and queue time are unchanged, and the job ends Completed or Failed with its start and end times. Success means progress 100 and the error message untouched. Failure means Failed with a message, a `JobExecutionError` carrying it, and a final close attempt |
| Executor.ExecuteProgress | src/queue/job_executor.py:119-137 | the notifications of `execute` climb through a prefix of the checkpoints and the job shows the last one reached; a successful run passes all nine checkpoints and makes exactly the expected workflow calls |
| Executor.ExecuteSucceedsIff | src/queue/job_executor.py:106-141 | a job completes exactly when its files exist, the output directory can be created and the workflow answers every expected call |
| Executor.MissingFileFailsFirst | src/queue/job_executor.py:152-166 | a missing file fails the job at 5% after one notification, the job's error message is the "… file not found: …" text of the first missing file, and the only workflow call is the cleanup close |
| Executor.RunStepsFailure | src/queue/job_executor.py:119-141 | a run that fails stops at the step of its last notification, every earlier step passed, and the run's failure is that step's own exception text |
| Executor.ExecuteFailureMessage | src/queue/job_executor.py:245-257 | when `execute` raises, the job's error message is the exception text of the first of the nine steps that fails, and every step before it passed |
| Executor.MakeDirsFailureRecorded | src/queue/job_executor.py:168-175 | with every file present, a directory that cannot be created fails the job at 10% with "Failed to create output directory: " and the `OSError` text, and only the cleanup close is called |
| SerialConsumer.FailureText | tests/test_queue_integration.py:162 | the message passed to `fail_current` is never empty and is the job's own message when it has one |
| SerialConsumer.ExecuteAt | src/queue/job_executor.py:106-141 | the k-th execution of a job reports it honestly: same job, finished, and failed exactly when it raised |
| SerialConsumer.ExecuteNthHonest | src/queue/job_executor.py:106-141 | every execution handed to the consumer is honest in that sense |
| SerialConsumer.Turn | tests/test_queue_integration.py:153-162 | one loop turn takes the head, leaves the rest pending and the slot empty, and reports the job as its run left it |
| SerialConsumer.Consume | tests/test_queue_integration.py:153-162 | the loop reports every pending job in order, the k-th by the k-th execution, and leaves the queue empty |
| SerialConsumer.ReportedHonest | tests/test_queue_integration.py:156-162 | an honest run is reported with its id and spec, finished, failed exactly when it raised, at 100% when completed, with a non-empty message when failed |
| SerialConsumer.ConsumeQueued | tests/test_queue_integration.py:146-174 | jobs added to an empty queue are all consumed in order and nothing is left; one job failing does not stop the later ones |
| SerialConsumer.ConsumeQueuedExecuted | tests/test_queue_integration.py:146-174 | the same with this model's executor: every job finishes, in order, and fails exactly when its execution raised |
| Templates.Braced | src/protools/applescript_controller.py:91 | the placeholder is the key between '{' and '}' |
| Templates.SubstituteOne | src/protools/applescript_controller.py:91-92 | replacing one key's placeholder fills exactly the holes with that key; literal text may contain braces as long as no `{key}` occurrence starts in it |
| Templates.WellFormedOnlyInHoles | src/protools/applescript_controller.py:91-92 | in a template whose literal text has no '{', every `{key}` occurrence is a hole |
| Templates.SubstituteFills | src/protools/applescript_controller.py:89-92 | substituting all placeholders over a rendered template renders the template with the named holes filled |
| Templates.FillLeavesUnnamed | src/protools/applescript_controller.py:89-92 | a hole survives exactly when no placeholder names it |
| Templates.SubstituteCompletes | src/protools/applescript_controller.py:89-92 | when every hole is named, no placeholder is left in the result |
| Templates.SubstituteWithoutPlaceholders | src/protools/applescript_controller.py:89-92 | content in which no `{key}` of the given keys occurs comes back unchanged, whatever other braces it holds |
| Templates.SubstituteCascades | src/protools/applescript_controller.py:89-92 | replacements apply in dict order to the text so far, so a value that spells a later key's placeholder is itself replaced |
| AppleScriptControl.TerminalIff | src/protools/applescript_controller.py:175-216 | a message is terminal exactly when its lowercase form contains "critical:", "unsupported sample rate", "unsupported bit depth" or "failed to disable apply src"; everything else is retried |
| AppleScriptControl.RetryableIgnoresCase | src/protools/applescript_controller.py:203-213 | classification depends only on the lowercase form of the message |
| AppleScriptControl.Once | src/protools/applescript_controller.py:96-131 | success exactly on exit code 0, with stripped stdout or "Script executed successfully". A non-zero exit reports the code and stripped stderr or "Unknown error". A timeout and a spawn failure have their own messages |
| AppleScriptControl.TimeoutRetryable | src/protools/applescript_controller.py:128-129 | a timed-out attempt fails with a message that classifies as retryable |
| AppleScriptControl.Pow2Add | src/protools/applescript_controller.py:163-164 | the backoff multiplier 2^k satisfies 2^(a+b) = 2^a · 2^b, so each further attempt doubles it |
| AppleScriptControl.BackoffTotal | src/protools/applescript_controller.py:163-167 | the first k delays of base·2^j add up to base·(2^k − 1) |
| AppleScriptControl.RetryLoop | src/protools/applescript_controller.py:133-173 | the loop's trace is the one `RetriedAs` defines: it stops at the first success or terminal failure, waits base·2^j between attempts, and after the last attempt reports exhaustion |
| AppleScriptControl.TerminalFailsFast | src/protools/applescript_controller.py:154-160 | a terminal first failure ends the loop after one attempt, with no wait, returning that failure |
| AppleScriptControl.SucceedsAfterRetries | src/protools/applescript_controller.py:150-167 | success after k retryable failures takes k+1 attempts and waits base·(2^k − 1) in total |
| AppleScriptControl.AllRetryableFailures | src/protools/applescript_controller.py:150-173 | if every attempt fails retryably there are exactly max_attempts attempts and max_attempts − 1 waits, and the final error names the script, the attempt count and the last error |
| AppleScriptControl.NewController | src/protools/applescript_controller.py:31-41 | a controller is made exactly when the scripts directory exists; otherwise the error names the directory |
| AppleScriptControl.Execute | src/protools/applescript_controller.py:43-74 | a missing script fails before any attempt. Otherwise the script's text is substituted, then either one attempt runs or the retry loop does |
| Resolver.SafeChars | src/core/path_resolver.py:83-93 | the per-character replacement leaves none of `/ \ : * ? " < > \|` |
| Resolver.ReplacementsAreSafeChars | src/core/path_resolver.py:83-96 | the nine `replace` calls in dict order equal the per-character map: `/ \ : \|` become '-', `* ? " < >` are deleted |
| Resolver.ReplaceCharPointwise | src/core/path_resolver.py:95-96 | replacing one character everywhere is a per-character map |
| Resolver.ReplaceShrinks | src/core/path_resolver.py:99-100 | replacing "  " by " " never lengthens the text and shortens it while "  " remains, so the collapse loop ends |
| Resolver.SquashStable | src/core/path_resolver.py:99-100 | one collapse pass does not change the reference squashing of space runs |
| Resolver.Collapse | src/core/path_resolver.py:99-100 | the result has no double space and equals the reference definition that shrinks each run of spaces to one |
| Resolver.Sanitize | src/core/path_resolver.py:67-102 | the result contains no forbidden character and no double space, and is the stripped name with the characters mapped and space runs squashed |
| Resolver.NotIdempotent | src/core/path_resolver.py:80-100 | "a *" sanitises to "a " (stripping comes before deletion), which sanitises again to "a" |
| Resolver.ResolvePaths | src/core/path_resolver.py:24-65 | the output directory is root/artist/project/song with a non-empty project and root/artist/song otherwise, with empty parts dropped by the join; the session file is the sanitised song plus ".ptx" inside it |
| Resolver.EmptyProjectIsSingleLayout | src/core/path_resolver.py:54-60 | an empty project name gives the single-song layout |
| Resolver.SessionNamedAfterSong | src/core/path_resolver.py:63 | for a non-empty sanitised song, the session file is named after it, with stem the song and suffix ".ptx" |
| Resolver.AudioFilesDir | src/core/path_resolver.py:104-116 | the audio directory is the "Audio Files" child of the output directory |
| Scanner.SupportedExtensions | src/core/folder_scanner.py:60-62 | the supported extensions are the union of the disjoint audio and MIDI sets, five in all |
| Scanner.Selected | src/core/folder_scanner.py:37-52 | the kept names are exactly the names of the entries that pass the filter |
| Scanner.Sort | src/core/folder_scanner.py:55-56 | the result is sorted and a permutation of the input |
| Scanner.SortedUnique | src/core/folder_scanner.py:55-56 | two sorted permutations of the same names are equal, so the sorted lists are determined |
| Scanner.BelowTotal | src/core/folder_scanner.py:55-56 | the name order compares any two names |
| Scanner.BelowTransitive | src/core/folder_scanner.py:55-56 | the name order is transitive |
| Scanner.BelowAntisymmetric | src/core/folder_scanner.py:55-56 | the name order is antisymmetric |
| Scanner.ScanFolder | src/core/folder_scanner.py:13-58 | a missing folder and a non-directory give their own errors; a directory gives two lists, each the sorted children named by the selected audio or MIDI entries |
| Scanner.ScanSelects | src/core/folder_scanner.py:37-52 | a child is in the audio (MIDI) list exactly when some visible file entry with that name has an audio (MIDI) extension |
| Scanner.ScanDisjoint | src/core/folder_scanner.py:49-52 | no path is in both lists |
| Scanner.ScanOrder | src/core/folder_scanner.py:55-56 | the lists are the children of any sorted arrangement of the selected names |
| Scanner.ExtensionIgnoresCase | src/core/folder_scanner.py:47 | names that differ only in ASCII case have the same lowercase extension |
| Scanner.ClassIgnoresCase | src/core/folder_scanner.py:39-52 | names that differ only in ASCII case are classified alike |
| Scanner.UpperCaseWav | src/core/folder_scanner.py:47-50 | a visible file named stem + ".WAV" is audio |
| Analyzer.Collect | src/core/audio_analyzer.py:118-131 | collection succeeds exactly when every file is analysed, and otherwise reports the first failure's error |
| Analyzer.CollectCount | src/core/audio_analyzer.py:118-131 | the mismatch list has one entry per differing rate plus one per differing depth |
| Analyzer.CollectNames | src/core/audio_analyzer.py:121-131 | every differing rate and every differing depth has its line in the list |
| Analyzer.ValidateFolder | src/core/audio_analyzer.py:96-140 | an empty list gives "No audio files to validate". Success returns the first file's rate and depth, and then every file agrees with them. Every error is an audio-analysis error |
| Analyzer.ValidateSucceedsIff | src/core/audio_analyzer.py:108-140 | validation succeeds exactly when the list is non-empty, every file is analysed and all agree with the first |
| Analyzer.MismatchIff | src/core/audio_analyzer.py:133-135 | a mismatch error is raised exactly when all files are analysed and some file differs from the first |
| Analyzer.MismatchMessage | src/core/audio_analyzer.py:117-135 | the mismatch message is the header followed by one line per differing rate or depth, each naming the file |
| Analyzer.AnalysisFailureStops | src/core/audio_analyzer.py:112-119 | the first file whose analysis fails ends validation with that analysis error |
| Analyzer.SingleFileValidates | src/core/audio_analyzer.py:118 | one analysed file always validates, against its own rate and depth |

## Left out

- The Qt user interface, the QThread worker and its stop flag are left out. The consume loop is modelled sequentially, following the queue integration test.
- Queues.CompleteCurrent: jobs are values, not shared mutable objects. A job object referenced twice, for example added to the queue twice, is modelled as independent copies, so the in-place `status` update reaches only the copy returned, and a pending duplicate stays Pending where Python would show it Completed.
- Queues.FailCurrent: the same value semantics; the in-place `status` and `error_message` updates reach only the returned copy, not a pending duplicate of the same object.
- SerialConsumer.Turn: the same value semantics; the executor's and `complete_current`'s in-place updates do not reach a pending duplicate of the job being run. `SerialConsumer.Consume` and `SerialConsumer.ConsumeQueued` inherit this when one job object is queued twice.
- The `Lock` in the queue is left out: each call is one atomic state transition.
- `subprocess.run` and `osascript` are left out. Each attempt is given as its outcome: exit code, stdout, stderr, timeout or spawn failure.
- `time.sleep`, the retry progress `print` and the delay floats are left out. Delays are natural numbers (milliseconds) recorded in the trace rather than slept.
- `uuid` is left out. Ids come from a counter that hands out fresh numbers.
- `datetime.now` is left out. Clock readings are parameters, and durations are integer differences rather than float seconds.
- `str.lower` is modelled on ASCII letters only. Non-ASCII case folding is left out.
- The progress callback is left out. Its notifications are returned as a list of events. Each event carries a structured `Message`, and `Executor.MessageText` gives the text the callback would receive.
- The internals of the Pro Tools workflow (`src/protools/workflow.py`) are left out. The workflow is an oracle giving each call's failure message, or none.
- The settings file is left out. Retry attempts and base delay are plain parameters.
- Script templates are not read from files. Their texts are a map from path to content.
- `Path.exists`, `is_dir`, `is_file`, `mkdir` and `iterdir` are left out. They are oracle predicates or a directory listing given as data.
- `analyze_file` and its use of `soxi` are left out. The analysis is an oracle returning an `AudioSpec` or an error text, and `AudioSpec.duration` is not modelled.
- `validate_root_writable` is left out: it only probes the filesystem.
- Executor.Execute: the intermediate Running state is only internal to the function. A pure function cannot observe it between steps, so the contract states the start time it records instead.
- Paths are an anchoring flag plus a list of components. Windows drives are not modelled, and a path's text is its components joined by '/'.
- Analyzer.MismatchMessage: states the number of lines and that every expected line is present. It does not state that the lines follow file order.
- Templates.SubstituteOne: stated for hole keys without braces and literal text in which no `{key}` occurrence starts. Otherwise `replace` also rewrites text outside the holes, and the result is not the template with those holes filled.
- Templates.SubstituteFills: stated only for templates whose literal text has no '{' and values that contain no '{'. A brace in literal text or in a value can spell a placeholder across a token boundary or cascade into a later key, and then the rendered result is not the filled template. `Templates.Substitute` itself models those cases exactly (`Templates.SubstituteCascades`).
- Templates.SubstituteCompletes: the same restriction as `Templates.SubstituteFills`, for the same reason.
- Scanner.ScanFolder: paths are ordered by their names within one folder, the only case `scan_folder` sorts. A general pathlib path order is not modelled.

## Findings

| source | as written | input that shows it | evidently intended | confidence | as-written member | corrected member |
|---|---|---|---|---|---|---|
| src/core/session_spec.py:85-89 | `if not self.output_dir` and `if not self.session_file` test a `Path`'s truth value, which is always true, so "Output directory is required" and "Session file path is required" can never be raised | `output_dir=Path("")` with otherwise valid fields is accepted | reject an output directory or session file that has no components | medium, not executed | SessionSpecs.CreateAsWritten, SessionSpecs.EmptyOutputDirAcceptedAsWritten | SessionSpecs.Create |
