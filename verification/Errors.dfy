/** The exception taxonomy of the session builder, flattened into one
    datatype.  Every constructor carries the text `str(e)` would give. */
module Errors {

  datatype Error =
    /** `ValueError`, raised by specification validation. */
    | InvalidValue(message: string)
    /** `AudioAnalysisError`: a file could not be analysed, or nothing to analyse. */
    | AudioAnalysis(message: string)
    /** `SampleRateMismatchError` (a kind of `AudioAnalysisError`). */
    | SampleRateMismatch(message: string)
    /** `ValidationError`: a referenced file disappeared before execution. */
    | Validation(message: string)
    /** `AppleScriptError`: an automation call failed. */
    | AppleScript(message: string)
    /** `JobExecutionError`: a workflow step failed during job execution. */
    | JobExecution(message: string)
    /** `FileNotFoundError` raised by the folder scanner. */
    | FileNotFound(message: string)
    /** `NotADirectoryError` raised by the folder scanner. */
    | NotADirectory(message: string)
  {
    /** True for the members of the `AudioAnalysisError` family. */
    predicate IsAudioAnalysisError() {
      AudioAnalysis? || SampleRateMismatch?
    }
  }
}
