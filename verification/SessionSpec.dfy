/** The immutable session specification and its construction-time
    validation (`SessionSpec.__post_init__`). */
module SessionSpecs {
  import opened Wrappers
  import opened Errors
  import opened Text
  import opened Paths

  /** The fields of a session specification.  Construction may refuse a
      value of this type (`CreateAsWritten`, `Create`); the jobs, the executor
      and the consumer take any value and place no construction requirement
      on it. */
  datatype SessionSpec = SessionSpec(
    sampleRate: int,
    bitDepth: int,
    audioFiles: seq<Path>,
    midiFiles: seq<Path>,
    outputDir: Path,
    sessionFile: Path,
    artist: string,
    songName: string,
    projectName: Option<string>,
    templatePath: Option<Path>)
  {
    /** `has_audio`. */
    predicate HasAudio() { |audioFiles| > 0 }

    /** `has_midi`. */
    predicate HasMidi() { |midiFiles| > 0 }

    /** `has_template`: a template path is present (`is not None`). */
    predicate HasTemplate() { templatePath.Some? }

    /** `is_album_mode`: a project name is present (`is not None`), even "". */
    predicate IsAlbumMode() { projectName.Some? }

    /** `session_name`: the stem of the session file. */
    function SessionName(): string { Stem(sessionFile) }
  }

  const SampleRates: set<int> := {44100, 48000, 88200, 96000, 176400, 192000}
  const BitDepths: set<int> := {16, 24, 32}

  /** The checks construction performs. */
  datatype Check =
    | RateCheck | DepthCheck | OutputDirCheck | SessionFileCheck
    | ArtistCheck | SongCheck | FilesCheck | TemplateCheck

  /** The order in which construction runs the checks. */
  const CheckOrder: seq<Check> :=
    [RateCheck, DepthCheck, OutputDirCheck, SessionFileCheck,
     ArtistCheck, SongCheck, FilesCheck, TemplateCheck]

  /** Python's truth value of a path object.  pathlib paths define neither
      `__bool__` nor `__len__`, so every path, `Path("")` included, is true. */
  predicate PathTruthy(p: Path) { true }

  /** A path that names something: it has a root or at least one component.
      `Path("")` (which pathlib turns into ".") has neither. */
  predicate PathGiven(p: Path) { p.anchored || |p.parts| > 0 }

  /** Whether `spec` passes check `c`; `onDisk` tells which paths exist and
      `present` decides whether a required path counts as supplied. */
  predicate Passes(c: Check, spec: SessionSpec, onDisk: Path -> bool, present: Path -> bool)
  {
    match c
    case RateCheck => spec.sampleRate in SampleRates
    case DepthCheck => spec.bitDepth in BitDepths
    case OutputDirCheck => present(spec.outputDir)
    case SessionFileCheck => present(spec.sessionFile)
    case ArtistCheck => !Blank(spec.artist)
    case SongCheck => !Blank(spec.songName)
    case FilesCheck => spec.HasAudio() || spec.HasMidi()
    case TemplateCheck => spec.templatePath.None? || onDisk(spec.templatePath.value)
  }

  /** The `ValueError` a failing check raises. */
  function CheckError(c: Check, spec: SessionSpec): Error
  {
    match c
    case RateCheck => InvalidValue("Invalid sample rate: " + IntToString(spec.sampleRate))
    case DepthCheck => InvalidValue("Invalid bit depth: " + IntToString(spec.bitDepth))
    case OutputDirCheck => InvalidValue("Output directory is required")
    case SessionFileCheck => InvalidValue("Session file path is required")
    case ArtistCheck => InvalidValue("Artist name is required")
    case SongCheck => InvalidValue("Song name is required")
    case FilesCheck => InvalidValue("Session must have at least one audio or MIDI file")
    case TemplateCheck =>
      InvalidValue("Template file not found: " + PathText(spec.templatePath.GetOr(Path(false, []))))
  }

  /** Check `CheckOrder[i]` is the first one `spec` fails. */
  predicate FirstFailure(i: nat, spec: SessionSpec, onDisk: Path -> bool, present: Path -> bool)
  {
    && i < |CheckOrder|
    && (forall j :: 0 <= j < i ==> Passes(CheckOrder[j], spec, onDisk, present))
    && !Passes(CheckOrder[i], spec, onDisk, present)
  }

  /** Construction: the checks run one after another and the first failing
      one is reported; when all pass, the specification is the supplied record. */
  function Validate(spec: SessionSpec, onDisk: Path -> bool, present: Path -> bool)
    : (r: Result<SessionSpec, Check>)
    ensures r.Ok? ==> r.value == spec
    ensures r.Ok? <==> forall i :: 0 <= i < |CheckOrder| ==> Passes(CheckOrder[i], spec, onDisk, present)
    ensures r.Err? ==> exists i: nat :: FirstFailure(i, spec, onDisk, present) && r.error == CheckOrder[i]
  {
    if !Passes(RateCheck, spec, onDisk, present) then
      assert FirstFailure(0, spec, onDisk, present);
      Err(RateCheck)
    else if !Passes(DepthCheck, spec, onDisk, present) then
      assert FirstFailure(1, spec, onDisk, present);
      Err(DepthCheck)
    else if !Passes(OutputDirCheck, spec, onDisk, present) then
      assert FirstFailure(2, spec, onDisk, present);
      Err(OutputDirCheck)
    else if !Passes(SessionFileCheck, spec, onDisk, present) then
      assert FirstFailure(3, spec, onDisk, present);
      Err(SessionFileCheck)
    else if !Passes(ArtistCheck, spec, onDisk, present) then
      assert FirstFailure(4, spec, onDisk, present);
      Err(ArtistCheck)
    else if !Passes(SongCheck, spec, onDisk, present) then
      assert FirstFailure(5, spec, onDisk, present);
      Err(SongCheck)
    else if !Passes(FilesCheck, spec, onDisk, present) then
      assert FirstFailure(6, spec, onDisk, present);
      Err(FilesCheck)
    else if !Passes(TemplateCheck, spec, onDisk, present) then
      assert FirstFailure(7, spec, onDisk, present);
      Err(TemplateCheck)
    else
      Ok(spec)
  }

  /** The `ValueError` raised for the first failing check, if any. */
  function Raise(v: Result<SessionSpec, Check>, spec: SessionSpec): Result<SessionSpec, Error>
  {
    match v
    case Ok(s) => Ok(s)
    case Err(c) => Err(CheckError(c, spec))
  }

  /** Construction exactly as written: the two "is required" path checks
      use Python's truth value of a path, so they never fail. */
  function CreateAsWritten(spec: SessionSpec, onDisk: Path -> bool): (r: Result<SessionSpec, Error>)
    ensures r.Ok? ==> r.value == spec
    // whatever the corrected construction accepts is accepted here too
    ensures Create(spec, onDisk).Ok? ==> r == Create(spec, onDisk)
    // an error comes from some check other than the two "is required" path checks
    ensures r.Err? ==>
      exists c :: c != OutputDirCheck && c != SessionFileCheck && r.error == CheckError(c, spec)
    // accepted exactly when the six checks other than the path checks pass
    ensures r.Ok? <==>
      forall c :: c != OutputDirCheck && c != SessionFileCheck ==> Passes(c, spec, onDisk, PathGiven)
    // a rejection reports the first check that fails as written
    ensures r.Err? ==>
      exists i: nat :: FirstFailure(i, spec, onDisk, PathTruthy) && r.error == CheckError(CheckOrder[i], spec)
  {
    AsWrittenChecks(spec, onDisk);
    Raise(Validate(spec, onDisk, PathTruthy), spec)
  }

  /** As written, validation passes exactly when the checks other than the
      two path checks pass. */
  lemma AsWrittenChecks(spec: SessionSpec, onDisk: Path -> bool)
    ensures Validate(spec, onDisk, PathTruthy).Ok? <==>
      forall c :: c != OutputDirCheck && c != SessionFileCheck ==> Passes(c, spec, onDisk, PathGiven)
  {
    var v := Validate(spec, onDisk, PathTruthy);
    if v.Ok? {
      forall c | c != OutputDirCheck && c != SessionFileCheck
        ensures Passes(c, spec, onDisk, PathGiven)
      {
        var i := match c
          case RateCheck => 0 case DepthCheck => 1 case OutputDirCheck => 2 case SessionFileCheck => 3
          case ArtistCheck => 4 case SongCheck => 5 case FilesCheck => 6 case TemplateCheck => 7;
        assert CheckOrder[i] == c;
        assert Passes(c, spec, onDisk, PathTruthy);
      }
    } else {
      var i: nat :| FirstFailure(i, spec, onDisk, PathTruthy) && v.error == CheckOrder[i];
      var c := CheckOrder[i];
      assert c != OutputDirCheck && c != SessionFileCheck;
      assert !Passes(c, spec, onDisk, PathGiven);
    }
  }

  /** Construction with the path checks doing what their messages say:
      an output directory or session file without any component is refused. */
  function Create(spec: SessionSpec, onDisk: Path -> bool): (r: Result<SessionSpec, Error>)
    ensures r.Ok? ==> r.value == spec && Valid(spec, onDisk)
    ensures Valid(spec, onDisk) ==> r == Ok(spec)
  {
    Raise(Validate(spec, onDisk, PathGiven), spec)
  }

  /** The conditions an accepted specification satisfies, stated directly. */
  predicate Valid(spec: SessionSpec, onDisk: Path -> bool)
  {
    && spec.sampleRate in {44100, 48000, 88200, 96000, 176400, 192000}
    && spec.bitDepth in {16, 24, 32}
    && PathGiven(spec.outputDir)
    && PathGiven(spec.sessionFile)
    && !Blank(spec.artist)
    && !Blank(spec.songName)
    && (|spec.audioFiles| > 0 || |spec.midiFiles| > 0)
    && (spec.templatePath.Some? ==> onDisk(spec.templatePath.value))
  }

  /** Construction accepts exactly the records that satisfy `Valid`. */
  lemma CreateAcceptsValid(spec: SessionSpec, onDisk: Path -> bool)
    ensures Create(spec, onDisk).Ok? <==> Valid(spec, onDisk)
  {
    var present := PathGiven;
    if Create(spec, onDisk).Ok? {
      assert Passes(CheckOrder[0], spec, onDisk, present);
      assert Passes(CheckOrder[1], spec, onDisk, present);
      assert Passes(CheckOrder[2], spec, onDisk, present);
      assert Passes(CheckOrder[3], spec, onDisk, present);
      assert Passes(CheckOrder[4], spec, onDisk, present);
      assert Passes(CheckOrder[5], spec, onDisk, present);
      assert Passes(CheckOrder[6], spec, onDisk, present);
      assert Passes(CheckOrder[7], spec, onDisk, present);
    }
  }

  /** A sample rate outside the six supported ones is always refused, with
      the sample-rate error, whatever the other fields hold. */
  lemma BadSampleRateRejected(spec: SessionSpec, onDisk: Path -> bool)
    requires spec.sampleRate !in {44100, 48000, 88200, 96000, 176400, 192000}
    ensures Create(spec, onDisk) == Err(InvalidValue("Invalid sample rate: " + IntToString(spec.sampleRate)))
    ensures CreateAsWritten(spec, onDisk) == Create(spec, onDisk)
  {
  }

  /** A valid sample rate and bit depth never draw their errors. */
  lemma GoodRateAndDepthPass(spec: SessionSpec, onDisk: Path -> bool)
    requires spec.sampleRate in {44100, 48000, 88200, 96000, 176400, 192000}
    requires spec.bitDepth in {16, 24, 32}
    ensures Validate(spec, onDisk, PathGiven).Err? ==>
      Validate(spec, onDisk, PathGiven).error !in {RateCheck, DepthCheck}
  {
  }

  /** With no audio and no MIDI files, a record that passes every earlier
      check is refused with the "at least one audio or MIDI file" error. */
  lemma NoFilesRejected(spec: SessionSpec, onDisk: Path -> bool)
    requires spec.sampleRate in SampleRates && spec.bitDepth in BitDepths
    requires PathGiven(spec.outputDir) && PathGiven(spec.sessionFile)
    requires !Blank(spec.artist) && !Blank(spec.songName)
    requires spec.audioFiles == [] && spec.midiFiles == []
    ensures Create(spec, onDisk) == Err(InvalidValue("Session must have at least one audio or MIDI file"))
    ensures CreateAsWritten(spec, onDisk) == Create(spec, onDisk)
  {
    assert Validate(spec, onDisk, PathGiven) == Err(FilesCheck);
    AgreeWhenPathsGiven(spec, onDisk);
  }

  /** When both required paths name something, construction as written and
      corrected construction agree. */
  lemma AgreeWhenPathsGiven(spec: SessionSpec, onDisk: Path -> bool)
    requires PathGiven(spec.outputDir) && PathGiven(spec.sessionFile)
    ensures CreateAsWritten(spec, onDisk) == Create(spec, onDisk)
  {
    assert Validate(spec, onDisk, PathTruthy) == Validate(spec, onDisk, PathGiven);
  }

  /** An empty or whitespace-only artist is refused, and so is such a song
      name; an earlier failing check takes precedence. */
  lemma BlankNamesRejected(spec: SessionSpec, onDisk: Path -> bool)
    requires Blank(spec.artist) || Blank(spec.songName)
    ensures Create(spec, onDisk).Err?
    ensures CreateAsWritten(spec, onDisk).Err?
    ensures spec.sampleRate in SampleRates && spec.bitDepth in BitDepths
            && PathGiven(spec.outputDir) && PathGiven(spec.sessionFile) ==>
      Create(spec, onDisk).error ==
        (if Blank(spec.artist) then InvalidValue("Artist name is required")
         else InvalidValue("Song name is required"))
  {
    CreateAcceptsValid(spec, onDisk);
    assert !Passes(if Blank(spec.artist) then ArtistCheck else SongCheck, spec, onDisk, PathGiven);
    if spec.sampleRate in SampleRates && spec.bitDepth in BitDepths
       && PathGiven(spec.outputDir) && PathGiven(spec.sessionFile) {
      var v := Validate(spec, onDisk, PathGiven);
      if Blank(spec.artist) {
        assert v == Err(ArtistCheck);
      } else {
        assert v == Err(SongCheck);
      }
    }
  }

  /** A supplied template that does not exist is refused. */
  lemma MissingTemplateRejected(spec: SessionSpec, onDisk: Path -> bool)
    requires spec.templatePath.Some? && !onDisk(spec.templatePath.value)
    ensures Create(spec, onDisk).Err?
    ensures CreateAsWritten(spec, onDisk).Err?
  {
    CreateAcceptsValid(spec, onDisk);
    assert !Passes(TemplateCheck, spec, onDisk, PathGiven);
  }

  /** An accepted specification always has something to import. */
  lemma AcceptedHasContent(spec: SessionSpec, onDisk: Path -> bool)
    requires Create(spec, onDisk).Ok?
    ensures spec.HasAudio() || spec.HasMidi()
  {
    CreateAcceptsValid(spec, onDisk);
  }

  /** Album mode is decided by presence alone: an empty project name still
      counts, while a missing one does not. */
  lemma AlbumModeByPresence(spec: SessionSpec)
    ensures spec.IsAlbumMode() <==> spec.projectName != None
    ensures spec.projectName == Some("") ==> spec.IsAlbumMode()
  {
  }

  /** The session name is the session file's name without its suffix. */
  lemma SessionNameIsStem(spec: SessionSpec)
    ensures spec.SessionName() + Suffix(spec.sessionFile) == Name(spec.sessionFile)
  {
    StemSuffixSplit(spec.sessionFile);
  }

  /** The divergence between the two constructions: an output directory
      given as `Path("")` is accepted as written and refused once corrected. */
  lemma EmptyOutputDirAcceptedAsWritten()
    ensures var spec := SessionSpec(44100, 24, [Path(true, ["a.wav"])], [],
                                    Path(false, []), Path(true, ["s.ptx"]),
                                    "A", "S", None, None);
            CreateAsWritten(spec, p => true).Ok?
            && Create(spec, p => true) == Err(InvalidValue("Output directory is required"))
  {
    var spec := SessionSpec(44100, 24, [Path(true, ["a.wav"])], [],
                            Path(false, []), Path(true, ["s.ptx"]),
                            "A", "S", None, None);
    assert !Blank(spec.artist) by { assert !IsSpace(spec.artist[0]); }
    assert !Blank(spec.songName) by { assert !IsSpace(spec.songName[0]); }
  }
}
