/** `AudioAnalyzer.validate_folder`: every audio file must share the sample
    rate and bit depth of the first one.  Analysing one file (`analyze_file`,
    which shells out to `soxi`) is an oracle that either yields the file's
    specification or the text of the `AudioAnalysisError` it raised. */
module Analyzer {
  import opened Wrappers
  import opened Errors
  import opened Text
  import opened Paths

  /** `AudioSpec` without its floating-point duration. */
  datatype AudioSpec = AudioSpec(sampleRate: int, bitDepth: int, channels: int)

  /** The returned dictionary `{"sample_rate": ..., "bit_depth": ...}`. */
  datatype Reference = Reference(sampleRate: int, bitDepth: int)

  /** `analyze_file` as seen by the caller. */
  type Analyze = Path -> Result<AudioSpec, string>

  /** Every file can be analysed. */
  predicate AllAnalysed(files: seq<Path>, analyze: Analyze)
  {
    forall i :: 0 <= i < |files| ==> analyze(files[i]).Ok?
  }

  /** `files[k]` is the first file whose analysis fails. */
  predicate FirstFailure(files: seq<Path>, analyze: Analyze, k: int)
  {
    0 <= k < |files| && analyze(files[k]).Err? && forall j :: 0 <= j < k ==> analyze(files[j]).Ok?
  }

  predicate RateDiffers(f: Path, ref: Reference, analyze: Analyze)
  {
    analyze(f).Ok? && analyze(f).value.sampleRate != ref.sampleRate
  }

  predicate DepthDiffers(f: Path, ref: Reference, analyze: Analyze)
  {
    analyze(f).Ok? && analyze(f).value.bitDepth != ref.bitDepth
  }

  /** How many files have a sample rate other than the reference's. */
  function RateMismatches(files: seq<Path>, ref: Reference, analyze: Analyze): (n: nat)
    ensures n <= |files|
    ensures n == 0 <==> forall i :: 0 <= i < |files| ==> !RateDiffers(files[i], ref, analyze)
    decreases |files|
  {
    if |files| == 0 then 0
    else
      assert forall i :: 1 <= i < |files| ==> files[i] == files[1..][i - 1];
      (if RateDiffers(files[0], ref, analyze) then 1 else 0) + RateMismatches(files[1..], ref, analyze)
  }

  /** How many files have a bit depth other than the reference's. */
  function DepthMismatches(files: seq<Path>, ref: Reference, analyze: Analyze): (n: nat)
    ensures n <= |files|
    ensures n == 0 <==> forall i :: 0 <= i < |files| ==> !DepthDiffers(files[i], ref, analyze)
    decreases |files|
  {
    if |files| == 0 then 0
    else
      assert forall i :: 1 <= i < |files| ==> files[i] == files[1..][i - 1];
      (if DepthDiffers(files[0], ref, analyze) then 1 else 0) + DepthMismatches(files[1..], ref, analyze)
  }

  function RateLine(f: Path, spec: AudioSpec, ref: Reference): string
  {
    Name(f) + ": " + IntToString(spec.sampleRate) + " Hz (expected " + IntToString(ref.sampleRate) + " Hz)"
  }

  function DepthLine(f: Path, spec: AudioSpec, ref: Reference): string
  {
    Name(f) + ": " + IntToString(spec.bitDepth) + "-bit (expected " + IntToString(ref.bitDepth) + "-bit)"
  }

  /** The mismatch lines one file contributes: rate first, then depth. */
  function Lines(f: Path, spec: AudioSpec, ref: Reference): seq<string>
  {
    (if spec.sampleRate != ref.sampleRate then [RateLine(f, spec, ref)] else [])
    + (if spec.bitDepth != ref.bitDepth then [DepthLine(f, spec, ref)] else [])
  }

  /** The loop over `audio_files[1:]`: the mismatch lines in file order, or
      the first analysis failure. */
  function Collect(files: seq<Path>, ref: Reference, analyze: Analyze): (r: Result<seq<string>, string>)
    ensures r.Ok? <==> AllAnalysed(files, analyze)
    ensures r.Err? ==> exists k :: FirstFailure(files, analyze, k) && r.error == analyze(files[k]).error
    decreases |files|
  {
    if |files| == 0 then Ok([])
    else
      assert forall i :: 1 <= i < |files| ==> files[i] == files[1..][i - 1];
      match analyze(files[0])
      case Err(e) => Err(e)
      case Ok(spec) =>
        var rest := Collect(files[1..], ref, analyze);
        if rest.Err? then
          var k :| FirstFailure(files[1..], analyze, k) && rest.error == analyze(files[1..][k]).error;
          assert files[1..][k] == files[k + 1];
          assert FirstFailure(files, analyze, k + 1);
          Err(rest.error)
        else
          Ok(Lines(files[0], spec, ref) + rest.value)
  }

  /** The collected lines number one per differing rate plus one per
      differing depth. */
  lemma {:induction false} CollectCount(files: seq<Path>, ref: Reference, analyze: Analyze)
    requires AllAnalysed(files, analyze)
    ensures |Collect(files, ref, analyze).value| == RateMismatches(files, ref, analyze) + DepthMismatches(files, ref, analyze)
    decreases |files|
  {
    if |files| > 0 {
      var rest := files[1..];
      assert AllAnalysed(rest, analyze) by {
        assert forall i :: 0 <= i < |rest| ==> rest[i] == files[i + 1];
      }
      CollectCount(rest, ref, analyze);
    }
  }

  /** Each differing rate and each differing depth has its line, naming
      the file. */
  lemma {:induction false} CollectNames(files: seq<Path>, ref: Reference, analyze: Analyze)
    requires AllAnalysed(files, analyze)
    ensures forall i :: 0 <= i < |files| && RateDiffers(files[i], ref, analyze) ==>
      RateLine(files[i], analyze(files[i]).value, ref) in Collect(files, ref, analyze).value
    ensures forall i :: 0 <= i < |files| && DepthDiffers(files[i], ref, analyze) ==>
      DepthLine(files[i], analyze(files[i]).value, ref) in Collect(files, ref, analyze).value
    decreases |files|
  {
    if |files| > 0 {
      var rest := files[1..];
      assert AllAnalysed(rest, analyze) by {
        assert forall i :: 0 <= i < |rest| ==> rest[i] == files[i + 1];
      }
      CollectNames(rest, ref, analyze);
      var spec := analyze(files[0]).value;
      var all := Collect(files, ref, analyze).value;
      assert all == Lines(files[0], spec, ref) + Collect(rest, ref, analyze).value;
      forall i | 1 <= i < |files|
        ensures files[i] == rest[i - 1]
      {
      }
    }
  }

  /** A file agrees with the reference. */
  predicate Agrees(f: Path, ref: Reference, analyze: Analyze)
  {
    analyze(f).Ok? && analyze(f).value.sampleRate == ref.sampleRate && analyze(f).value.bitDepth == ref.bitDepth
  }

  /** The reference taken from the first file's specification. */
  function ReferenceOf(spec: AudioSpec): Reference
  {
    Reference(spec.sampleRate, spec.bitDepth)
  }

  const MismatchHeader := "Sample rate/bit depth mismatch found:\n"

  /** `validate_folder(audio_files)`. */
  function ValidateFolder(files: seq<Path>, analyze: Analyze): (r: Result<Reference, Error>)
    ensures |files| == 0 ==> r == Err(AudioAnalysis("No audio files to validate"))
    ensures r.Ok? ==> analyze(files[0]).Ok? && r.value == ReferenceOf(analyze(files[0]).value)
    ensures r.Ok? ==> forall i :: 0 <= i < |files| ==> Agrees(files[i], r.value, analyze)
    ensures r.Err? ==> r.error.IsAudioAnalysisError()
  {
    if |files| == 0 then Err(AudioAnalysis("No audio files to validate"))
    else
      match analyze(files[0])
      case Err(e) => Err(AudioAnalysis(e))
      case Ok(first) =>
        var ref := ReferenceOf(first);
        match Collect(files[1..], ref, analyze)
        case Err(e) => Err(AudioAnalysis(e))
        case Ok(lines) =>
          if |lines| > 0 then Err(SampleRateMismatch(MismatchHeader + Text.Join(lines, "\n")))
          else
            CollectCount(files[1..], ref, analyze);
            assert forall i :: 1 <= i < |files| ==> files[i] == files[1..][i - 1];
            assert forall i :: 1 <= i < |files| ==>
              !RateDiffers(files[i], ref, analyze) && !DepthDiffers(files[i], ref, analyze);
            Ok(ref)
  }

  /** Validation succeeds exactly when every file is analysed and agrees
      with the first. */
  lemma ValidateSucceedsIff(files: seq<Path>, analyze: Analyze)
    ensures ValidateFolder(files, analyze).Ok? <==>
      |files| > 0 && AllAnalysed(files, analyze)
      && forall i :: 0 <= i < |files| ==> Agrees(files[i], ReferenceOf(analyze(files[0]).value), analyze)
  {
    if |files| > 0 && AllAnalysed(files, analyze) {
      var ref := ReferenceOf(analyze(files[0]).value);
      if forall i :: 0 <= i < |files| ==> Agrees(files[i], ref, analyze) {
        assert AllAnalysed(files[1..], analyze) by {
          assert forall i :: 0 <= i < |files[1..]| ==> files[1..][i] == files[i + 1];
        }
        var rest := files[1..];
        assert forall i :: 0 <= i < |rest| ==> !RateDiffers(rest[i], ref, analyze) && !DepthDiffers(rest[i], ref, analyze) by {
          assert forall i :: 0 <= i < |rest| ==> rest[i] == files[i + 1];
        }
        CollectCount(rest, ref, analyze);
        assert RateMismatches(rest, ref, analyze) == 0;
        assert DepthMismatches(rest, ref, analyze) == 0;
      }
    }
  }

  /** The lines `validate_folder` collects from the files after the first,
      counted and located over all the files: the first file never differs
      from itself. */
  lemma CollectOverAll(files: seq<Path>, analyze: Analyze)
    requires |files| > 0 && AllAnalysed(files, analyze)
    ensures var ref := ReferenceOf(analyze(files[0]).value);
      var c := Collect(files[1..], ref, analyze);
      && c.Ok?
      && |c.value| == RateMismatches(files, ref, analyze) + DepthMismatches(files, ref, analyze)
      && (forall i :: 0 <= i < |files| && RateDiffers(files[i], ref, analyze) ==>
            RateLine(files[i], analyze(files[i]).value, ref) in c.value)
      && (forall i :: 0 <= i < |files| && DepthDiffers(files[i], ref, analyze) ==>
            DepthLine(files[i], analyze(files[i]).value, ref) in c.value)
  {
    var ref := ReferenceOf(analyze(files[0]).value);
    var rest := files[1..];
    assert AllAnalysed(rest, analyze) by {
      assert forall i :: 0 <= i < |rest| ==> rest[i] == files[i + 1];
    }
    CollectCount(rest, ref, analyze);
    CollectNames(rest, ref, analyze);
    assert !RateDiffers(files[0], ref, analyze) && !DepthDiffers(files[0], ref, analyze);
    forall i | 1 <= i < |files|
      ensures files[i] == rest[i - 1]
    {
    }
  }

  /** The mismatch error is raised exactly when every file is analysed but
      some file disagrees with the first. */
  lemma MismatchIff(files: seq<Path>, analyze: Analyze)
    ensures var r := ValidateFolder(files, analyze);
      (r.Err? && r.error.SampleRateMismatch?) <==>
        |files| > 0 && AllAnalysed(files, analyze)
        && exists i :: 0 <= i < |files| && !Agrees(files[i], ReferenceOf(analyze(files[0]).value), analyze)
  {
    ValidateSucceedsIff(files, analyze);
    if |files| > 0 && AllAnalysed(files, analyze) {
      CollectOverAll(files, analyze);
    }
  }

  /** The mismatch text: the header, then one line per differing rate and
      one per differing depth, joined by newlines. */
  lemma MismatchMessage(files: seq<Path>, analyze: Analyze)
    requires |files| > 0 && AllAnalysed(files, analyze)
    ensures var r := ValidateFolder(files, analyze);
      var ref := ReferenceOf(analyze(files[0]).value);
      r.Err? && r.error.SampleRateMismatch? ==>
        exists lines: seq<string> ::
          && r.error.message == MismatchHeader + Text.Join(lines, "\n")
          && |lines| == RateMismatches(files, ref, analyze) + DepthMismatches(files, ref, analyze)
          && (forall i :: 0 <= i < |files| && RateDiffers(files[i], ref, analyze) ==>
                RateLine(files[i], analyze(files[i]).value, ref) in lines)
          && (forall i :: 0 <= i < |files| && DepthDiffers(files[i], ref, analyze) ==>
                DepthLine(files[i], analyze(files[i]).value, ref) in lines)
  {
    CollectOverAll(files, analyze);
    var ref := ReferenceOf(analyze(files[0]).value);
    var c := Collect(files[1..], ref, analyze);
    assert ValidateFolder(files, analyze) ==
      if |c.value| > 0 then Err(SampleRateMismatch(MismatchHeader + Text.Join(c.value, "\n"))) else Ok(ref);
  }

  /** An analysis failure stops validation with that failure's text. */
  lemma AnalysisFailureStops(files: seq<Path>, analyze: Analyze, k: nat)
    requires FirstFailure(files, analyze, k)
    ensures ValidateFolder(files, analyze) == Err(AudioAnalysis(analyze(files[k]).error))
  {
    if k > 0 {
      var rest := files[1..];
      var ref := ReferenceOf(analyze(files[0]).value);
      assert FirstFailure(rest, analyze, k - 1) by {
        assert forall j :: 0 <= j < |rest| ==> rest[j] == files[j + 1];
      }
      FirstFailureUnique(rest, analyze, k - 1);
      assert !AllAnalysed(rest, analyze);
      var c := Collect(rest, ref, analyze);
      var m :| FirstFailure(rest, analyze, m) && c.error == analyze(rest[m]).error;
      assert m == k - 1;
    }
  }

  lemma FirstFailureUnique(files: seq<Path>, analyze: Analyze, k: int)
    requires FirstFailure(files, analyze, k)
    ensures forall m :: FirstFailure(files, analyze, m) ==> m == k
  {
  }

  /** A single analysable file always validates, against itself. */
  lemma SingleFileValidates(f: Path, analyze: Analyze)
    requires analyze(f).Ok?
    ensures ValidateFolder([f], analyze) == Ok(ReferenceOf(analyze(f).value))
  {
    assert [f][1..] == [];
  }
}
