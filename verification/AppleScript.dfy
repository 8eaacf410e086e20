/** `AppleScriptController`: running a script template through `osascript`,
    interpreting one run, classifying failures and retrying with
    exponential backoff. Running the process is an oracle: `Attempt`
    describes what one run of `osascript` did. */
module AppleScriptControl {
  import opened Wrappers
  import opened Errors
  import opened Text
  import opened Paths
  import opened Templates

  // ----- Failure classification (`_is_retryable_error`) -----

  /** Failures that retrying cannot fix, as compared: each pattern
      lowercased (`"CRITICAL:"`, `"Unsupported sample rate"`, ...). */
  const TerminalPhrases: seq<string> :=
    ["critical:", "unsupported sample rate", "unsupported bit depth", "failed to disable apply src"]

  /** Failures caused by timing, such as a window that has not appeared yet. */
  const RetryablePhrases: seq<string> :=
    ["did not appear", "not found", "doesn't exist", "can't get", "timeout", "timed out"]

  /** Some phrase occurs in `text`. */
  predicate AnyOccurs(text: string, phrases: seq<string>)
    decreases |phrases|
  {
    |phrases| > 0 && (Contains(text, phrases[0]) || AnyOccurs(text, phrases[1..]))
  }

  /** The terminal phrases are checked first, then the retryable ones, and
      a message matching neither is retried. */
  predicate IsRetryable(message: string)
  {
    var lower := Lower(message);
    if AnyOccurs(lower, TerminalPhrases) then false
    else if AnyOccurs(lower, RetryablePhrases) then true
    else true
  }

  lemma AnyOccursIff(text: string, phrases: seq<string>)
    ensures AnyOccurs(text, phrases) <==>
      exists i :: 0 <= i < |phrases| && Contains(text, phrases[i])
    decreases |phrases|
  {
    if |phrases| > 0 {
      AnyOccursIff(text, phrases[1..]);
      if exists i :: 0 <= i < |phrases| && Contains(text, phrases[i]) {
        var i :| 0 <= i < |phrases| && Contains(text, phrases[i]);
        if i > 0 {
          assert phrases[1..][i - 1] == phrases[i];
        }
      }
    }
  }

  /** A failure is terminal exactly when its lowercased text contains one of
      four phrases; the retryable list changes nothing, since a message that
      matches no terminal phrase is retried either way. */
  lemma TerminalIff(message: string)
    ensures !IsRetryable(message) <==>
      || Contains(Lower(message), "critical:")
      || Contains(Lower(message), "unsupported sample rate")
      || Contains(Lower(message), "unsupported bit depth")
      || Contains(Lower(message), "failed to disable apply src")
  {
    AnyOccursIff(Lower(message), TerminalPhrases);
  }

  /** Classification ignores the case of ASCII letters. */
  lemma RetryableIgnoresCase(m1: string, m2: string)
    requires Lower(m1) == Lower(m2)
    ensures IsRetryable(m1) <==> IsRetryable(m2)
  {
  }

  // ----- One run of `osascript` (`_execute_once`) -----

  /** What one run of `osascript -e <script>` did. */
  datatype Attempt =
    | Exited(exitCode: int, stdout: string, stderr: string)
    | TimedOut
    | SpawnFailed(reason: string)

  /** The message of a run that exceeded the 120-second limit,
      "AppleScript execution timed out after 120 seconds".  It is written in
      words so that the proofs about its lowercase form can go word by word. */
  const TimeoutText: string := "Apple" + "Script" + " execution" + " timed out" + " after 120" + " seconds"

  const ExitFailurePrefix: string := "AppleScript execution failed (exit code "

  /** Interprets one run: a non-zero exit is an error carrying the exit code
      and the stripped stderr ("Unknown error" when stderr is empty); a zero
      exit returns the stripped stdout, or a fixed message when that is empty. */
  function Once(a: Attempt): (r: Result<string, Error>)
    ensures r.Ok? <==> a.Exited? && a.exitCode == 0
    ensures r.Ok? ==> |r.value| > 0
    ensures r.Ok? && !Blank(a.stdout) ==> r.value == Strip(a.stdout)
    ensures r.Ok? && Blank(a.stdout) ==> r.value == "Script executed successfully"
    ensures r.Err? ==> r.error.AppleScript?
    ensures a.Exited? && a.exitCode != 0 ==>
      r.error.message == ExitFailurePrefix + IntToString(a.exitCode) + "): "
        + (if a.stderr == [] then "Unknown error" else Strip(a.stderr))
    ensures a.TimedOut? ==> r == Err(AppleScript(TimeoutText))
    ensures a.SpawnFailed? ==> r == Err(AppleScript("Failed to execute osascript: " + a.reason))
  {
    match a
    case Exited(code, out, err) =>
      if code != 0 then
        var detail := if err != [] then Strip(err) else "Unknown error";
        Err(AppleScript(ExitFailurePrefix + IntToString(code) + "): " + detail))
      else
        var output := Strip(out);
        Ok(if output != [] then output else "Script executed successfully")
    case TimedOut => Err(AppleScript(TimeoutText))
    case SpawnFailed(reason) => Err(AppleScript("Failed to execute osascript: " + reason))
  }

  // A timed-out run is retried. The proof works on the lowercased message
  // piece by piece: it holds no ':' and no 'b', and no "un", which rules out
  // each terminal phrase.

  /** No 'u' is directly followed by 'n'. */
  predicate NoUn(s: string)
  {
    forall i :: 0 <= i < |s| - 1 ==> !(s[i] == 'u' && s[i + 1] == 'n')
  }

  lemma NoUnConcat(a: string, b: string)
    requires NoUn(a) && NoUn(b) && (|a| == 0 || a[|a| - 1] != 'u')
    ensures NoUn(a + b)
  {
    forall i | 0 <= i < |a + b| - 1
      ensures !((a + b)[i] == 'u' && (a + b)[i + 1] == 'n')
    {
      if i + 1 < |a| {
        assert (a + b)[i] == a[i] && (a + b)[i + 1] == a[i + 1];
      } else if i + 1 == |a| {
        assert (a + b)[i] == a[i];
      } else {
        assert (a + b)[i] == b[i - |a|] && (a + b)[i + 1] == b[i + 1 - |a|];
      }
    }
  }

  lemma {:induction false} ContainsHasChar(s: string, p: string, c: char)
    requires Contains(s, p) && c in p
    ensures c in s
    decreases |s|
  {
    if IsPrefix(p, s) {
      var k :| 0 <= k < |p| && p[k] == c;
      assert s[k] == s[..|p|][k] == c;
    } else {
      ContainsHasChar(s[1..], p, c);
    }
  }

  lemma {:induction false} ContainsHasUn(s: string, p: string)
    requires Contains(s, p) && |p| >= 2 && p[0] == 'u' && p[1] == 'n'
    ensures !NoUn(s)
    decreases |s|
  {
    if IsPrefix(p, s) {
      assert s[0] == s[..|p|][0] == 'u' && s[1] == s[..|p|][1] == 'n';
    } else {
      ContainsHasUn(s[1..], p);
      var i :| 0 <= i < |s[1..]| - 1 && s[1..][i] == 'u' && s[1..][i + 1] == 'n';
      assert s[i + 1] == 'u' && s[i + 2] == 'n';
    }
  }

  lemma LowerConcat(a: string, b: string)
    ensures Lower(a + b) == Lower(a) + Lower(b)
  {
  }

  lemma LowerApple()
    ensures Lower("Apple") == "apple"
  {
    var l := Lower("Apple");
    assert l[0] == 'a' && l[1] == 'p' && l[2] == 'p' && l[3] == 'l' && l[4] == 'e';
  }

  lemma LowerScript()
    ensures Lower("Script") == "script"
  {
    var l := Lower("Script");
    assert l[0] == 's' && l[1] == 'c' && l[2] == 'r' && l[3] == 'i' && l[4] == 'p' && l[5] == 't';
  }

  /** Text without upper-case ASCII letters. */
  predicate NoUpper(s: string)
  {
    forall i :: 0 <= i < |s| ==> !('A' <= s[i] <= 'Z')
  }

  lemma LowerUnchanged(s: string)
    requires NoUpper(s)
    ensures Lower(s) == s
  {
    assert forall i :: 0 <= i < |s| ==> Lower(s)[i] == s[i];
  }

  lemma LowerExecution()
    ensures Lower(" execution") == " execution"
  {
    LowerUnchanged(" execution");
  }

  lemma LowerTimedOut()
    ensures Lower(" timed out") == " timed out"
  {
    LowerUnchanged(" timed out");
  }

  lemma LowerAfter()
    ensures Lower(" after 120") == " after 120"
  {
    LowerUnchanged(" after 120");
  }

  lemma LowerSeconds()
    ensures Lower(" seconds") == " seconds"
  {
    LowerUnchanged(" seconds");
  }

  lemma LowerConcat6(a: string, b: string, c: string, d: string, e: string, f: string)
    ensures Lower(a + b + c + d + e + f) == Lower(a) + Lower(b) + Lower(c) + Lower(d) + Lower(e) + Lower(f)
  {
    LowerConcat(a, b);
    LowerConcat(a + b, c);
    LowerConcat(a + b + c, d);
    LowerConcat(a + b + c + d, e);
    LowerConcat(a + b + c + d + e, f);
  }

  lemma LowerTimeoutText()
    ensures Lower(TimeoutText) == "apple" + "script" + " execution" + " timed out" + " after 120" + " seconds"
  {
    LowerConcat6("Apple", "Script", " execution", " timed out", " after 120", " seconds");
    LowerApple();
    LowerScript();
    LowerExecution();
    LowerTimedOut();
    LowerAfter();
    LowerSeconds();
  }

  /** Facts about the pieces of the lowercased timeout message. */
  predicate PlainPiece(s: string)
  {
    ':' !in s && 'b' !in s && NoUn(s) && |s| > 0 && s[|s| - 1] != 'u'
  }

  lemma TimeoutPieces()
    ensures PlainPiece("apple") && PlainPiece("script")
    ensures PlainPiece(" execution") && PlainPiece(" timed out")
    ensures PlainPiece(" after 120") && PlainPiece(" seconds")
  {
    PlainApple();
    PlainScript();
    PlainExecution();
    PlainTimedOut();
    PlainAfter();
    PlainSeconds();
  }

  lemma PlainApple() ensures PlainPiece("apple") {}
  lemma PlainScript() ensures PlainPiece("script") {}
  lemma PlainExecution() ensures PlainPiece(" execution") {}
  lemma PlainTimedOut() ensures PlainPiece(" timed out") {}
  lemma PlainAfter() ensures PlainPiece(" after 120") {}
  lemma PlainSeconds() ensures PlainPiece(" seconds") {}

  lemma PlainConcat(a: string, b: string)
    requires PlainPiece(a) && PlainPiece(b)
    ensures PlainPiece(a + b)
  {
    NoUnConcat(a, b);
    assert (a + b)[|a + b| - 1] == b[|b| - 1];
  }

  lemma TimeoutTextPlain()
    ensures PlainPiece(Lower(TimeoutText))
  {
    LowerTimeoutText();
    TimeoutPieces();
    var a, b, c, d, e, f := "apple", "script", " execution", " timed out", " after 120", " seconds";
    PlainConcat(a, b);
    PlainConcat(a + b, c);
    PlainConcat(a + b + c, d);
    PlainConcat(a + b + c + d, e);
    PlainConcat(a + b + c + d + e, f);
  }

  /** Text without ':' , 'b' or "un" holds none of the terminal phrases. */
  lemma PlainNotTerminal(l: string)
    requires PlainPiece(l)
    ensures !Contains(l, "critical:")
    ensures !Contains(l, "unsupported bit depth")
    ensures !Contains(l, "failed to disable apply src")
    ensures !Contains(l, "unsupported sample rate")
  {
    if Contains(l, "critical:") {
      ContainsHasChar(l, "critical:", ':');
    }
    if Contains(l, "unsupported bit depth") {
      ContainsHasChar(l, "unsupported bit depth", 'b');
    }
    if Contains(l, "failed to disable apply src") {
      ContainsHasChar(l, "failed to disable apply src", 'b');
    }
    if Contains(l, "unsupported sample rate") {
      ContainsHasUn(l, "unsupported sample rate");
    }
  }

  /** A run that exceeded the limit fails in a way that is retried. */
  lemma TimeoutRetryable()
    ensures Once(TimedOut).Err? && IsRetryable(Once(TimedOut).error.message)
  {
    TimeoutTextPlain();
    PlainRetryable(TimeoutText);
  }

  /** A message whose lowercase form is plain is retried. */
  lemma PlainRetryable(m: string)
    requires PlainPiece(Lower(m))
    ensures IsRetryable(m)
  {
    PlainNotTerminal(Lower(m));
    TerminalIff(m);
  }

  // ----- Retrying (`_execute_with_retry`) -----

  /** A run's result ends the retry loop: a success, or a terminal failure. */
  predicate Stops(r: Result<string, Error>)
  {
    r.Ok? || !IsRetryable(r.error.message)
  }

  /** 2^k, the backoff multiplier of attempt k. */
  function Pow2(k: nat): (r: nat)
    ensures r > k
  {
    if k == 0 then 1 else 2 * Pow2(k - 1)
  }

  /** Each further attempt doubles the multiplier: 2^(a+b) == 2^a * 2^b. */
  lemma {:induction false} Pow2Add(a: nat, b: nat)
    ensures Pow2(a + b) == Pow2(a) * Pow2(b)
    decreases b
  {
    if b > 0 {
      Pow2Add(a, b - 1);
      DoubleRight(Pow2(a), Pow2(b - 1));
    }
  }

  lemma DoubleRight(x: nat, y: nat)
    ensures x * (2 * y) == 2 * (x * y)
  {
  }

  lemma DoubleLess(b: nat, x: nat)
    requires x >= 1
    ensures b * (x - 1) + b * x == b * (2 * x - 1)
  {
  }

  /** The waits after the first `k` attempts: `base * 2^j` for `j < k`. */
  function Backoff(base: nat, k: nat): (r: seq<nat>)
    ensures |r| == k
    ensures forall j :: 0 <= j < k ==> r[j] == base * Pow2(j)
  {
    seq(k, j requires 0 <= j < k => base * Pow2(j))
  }

  function Sum(s: seq<nat>): nat
  {
    if |s| == 0 then 0 else Sum(s[..|s| - 1]) + s[|s| - 1]
  }

  /** The waits add up to `base * (2^k - 1)`. */
  lemma {:induction false} BackoffTotal(base: nat, k: nat)
    ensures Sum(Backoff(base, k)) == base * (Pow2(k) - 1)
  {
    if k > 0 {
      BackoffTotal(base, k - 1);
      assert Backoff(base, k)[..k - 1] == Backoff(base, k - 1);
      assert Pow2(k) == 2 * Pow2(k - 1);
      DoubleLess(base, Pow2(k - 1));
    }
  }

  /** The message when every attempt failed in a retryable way. */
  function ExhaustedText(scriptName: string, maxAttempts: int, last: Option<Error>): string
  {
    "Script '" + scriptName + "' failed after " + IntToString(maxAttempts)
      + " attempts. Last error: " + (match last case None => "None" case Some(e) => e.message)
  }

  /** What a call did: its result, how many runs of `osascript` it made and
      the waits between them (in the unit of the base delay). */
  datatype Trace = Trace(result: Result<string, Error>, attempts: nat, waits: seq<nat>)

  /** The contract of the retry loop: `run(j)` is the interpreted result of
      the j-th run of `osascript`. */
  predicate RetriedAs(t: Trace, scriptName: string, maxAttempts: int, base: nat,
                      run: nat -> Result<string, Error>)
  {
    // never more runs than allowed; none when the bound is not positive
    && t.attempts <= (if maxAttempts < 0 then 0 else maxAttempts)
    && (maxAttempts > 0 ==> t.attempts > 0)
    // every run but the last failed in a retryable way
    && (forall j :: 0 <= j < t.attempts - 1 ==> !Stops(run(j)))
    // the loop ends early only on a success or a terminal failure, which is
    // then what the call reports
    && (t.attempts < maxAttempts ==> t.attempts > 0 && Stops(run(t.attempts - 1)))
    && (t.attempts > 0 && Stops(run(t.attempts - 1)) ==> t.result == run(t.attempts - 1))
    // otherwise the call fails naming the bound and wrapping the last error
    && (t.attempts == 0 ==> t.result == Err(AppleScript(ExhaustedText(scriptName, maxAttempts, None))))
    && (t.attempts > 0 && !Stops(run(t.attempts - 1)) ==>
          t.result == Err(AppleScript(ExhaustedText(scriptName, maxAttempts, Some(run(t.attempts - 1).error)))))
    // a doubling wait follows every run but the last
    && t.waits == Backoff(base, if t.attempts == 0 then 0 else t.attempts - 1)
  }

  /** `_execute_with_retry`: run until a success or a terminal failure, at
      most `maxAttempts` times, waiting `base * 2^j` after the j-th retryable
      failure unless it was the last allowed run. */
  method RetryLoop(scriptName: string, maxAttempts: int, base: nat, run: nat -> Result<string, Error>)
    returns (t: Trace)
    ensures RetriedAs(t, scriptName, maxAttempts, base, run)
  {
    var attempt: nat := 0;
    var waits: seq<nat> := [];
    var last: Option<Error> := None;
    while attempt < maxAttempts
      invariant attempt <= (if maxAttempts < 0 then 0 else maxAttempts)
      invariant forall j :: 0 <= j < attempt ==> !Stops(run(j))
      invariant last == (if attempt == 0 then None else Some(run(attempt - 1).error))
      invariant waits == Backoff(base, if attempt == 0 then 0 else if attempt < maxAttempts then attempt else attempt - 1)
      decreases maxAttempts - attempt
    {
      var r := run(attempt);
      if r.Ok? {
        return Trace(r, attempt + 1, waits);
      }
      last := Some(r.error);
      if !IsRetryable(r.error.message) {
        return Trace(r, attempt + 1, waits);
      }
      if attempt < maxAttempts - 1 {
        waits := waits + [base * Pow2(attempt)];
      }
      attempt := attempt + 1;
    }
    return Trace(Err(AppleScript(ExhaustedText(scriptName, maxAttempts, last))), attempt, waits);
  }

  /** A terminal failure on the first run ends the call at once, with no wait. */
  lemma TerminalFailsFast(t: Trace, scriptName: string, maxAttempts: int, base: nat,
                          run: nat -> Result<string, Error>)
    requires RetriedAs(t, scriptName, maxAttempts, base, run)
    requires maxAttempts > 0 && run(0).Err? && !IsRetryable(run(0).error.message)
    ensures t.attempts == 1 && t.waits == [] && t.result == run(0)
  {
  }

  /** Success after `k` retryable failures: `k + 1` runs, the successful
      result, and `base * (2^k - 1)` of waiting in total. */
  lemma SucceedsAfterRetries(t: Trace, scriptName: string, maxAttempts: int, base: nat,
                             run: nat -> Result<string, Error>, k: nat)
    requires RetriedAs(t, scriptName, maxAttempts, base, run)
    requires k < maxAttempts
    requires forall j :: 0 <= j < k ==> !Stops(run(j))
    requires run(k).Ok?
    ensures t.attempts == k + 1 && t.result == run(k)
    ensures Sum(t.waits) == base * (Pow2(k) - 1)
  {
    assert Stops(run(k));
    if t.attempts > k + 1 {
      assert false;
    }
    if t.attempts < k + 1 {
      assert false;
    }
    BackoffTotal(base, k);
  }

  /** When every allowed run fails in a retryable way: exactly `maxAttempts`
      runs, `maxAttempts - 1` doubling waits, and an error naming the bound
      and the last failure. */
  lemma AllRetryableFailures(t: Trace, scriptName: string, maxAttempts: int, base: nat,
                             run: nat -> Result<string, Error>)
    requires RetriedAs(t, scriptName, maxAttempts, base, run)
    requires maxAttempts > 0
    requires forall j :: 0 <= j < maxAttempts ==> !Stops(run(j))
    ensures t.attempts == maxAttempts
    ensures |t.waits| == maxAttempts - 1
    ensures t.result == Err(AppleScript(ExhaustedText(scriptName, maxAttempts, Some(run(maxAttempts - 1).error))))
  {
    if t.attempts < maxAttempts {
      assert false;
    }
  }

  // ----- The controller (`__init__`, `execute`) -----

  /** The two settings the controller reads: the number of attempts and the
      base delay (in milliseconds rather than float seconds). */
  datatype Settings = Settings(retryAttempts: int, retryDelay: nat)

  /** The defaults: three attempts, one second of base delay. */
  const DefaultSettings := Settings(3, 1000)

  datatype Controller = Controller(settings: Settings, scriptsDir: Path)

  /** Construction fails when the scripts directory does not exist. */
  function NewController(settings: Settings, scriptsDir: Path, dirExists: bool): (r: Result<Controller, Error>)
    ensures r.Ok? <==> dirExists
    ensures r.Ok? ==> r.value == Controller(settings, scriptsDir)
    ensures r.Err? ==> r.error == AppleScript("Scripts directory not found: " + PathText(scriptsDir))
  {
    if dirExists then Ok(Controller(settings, scriptsDir))
    else Err(AppleScript("Scripts directory not found: " + PathText(scriptsDir)))
  }

  /** The template file of a script: `<scripts dir>/<name>.applescript`. */
  function ScriptPath(c: Controller, scriptName: string): Path
  {
    Paths.Join(c.scriptsDir, scriptName + ".applescript")
  }

  /** `execute`: load the template (`scripts` maps the template files that
      exist to their text), substitute the placeholders, then run it once
      or with retries. `osascript(content, j)` is what the j-th run of
      `content` does. */
  method Execute(c: Controller, scriptName: string, placeholders: seq<(string, string)>, retry: bool,
                 scripts: map<Path, string>, osascript: (string, nat) -> Attempt)
    returns (t: Trace)
    ensures ScriptPath(c, scriptName) !in scripts ==>
      t == Trace(Err(AppleScript("Script not found: " + PathText(ScriptPath(c, scriptName)))), 0, [])
    ensures ScriptPath(c, scriptName) in scripts ==>
      var content := Substitute(scripts[ScriptPath(c, scriptName)], placeholders);
      && (!retry ==> t == Trace(Once(osascript(content, 0)), 1, []))
      && (retry ==> RetriedAs(t, scriptName, c.settings.retryAttempts, c.settings.retryDelay,
                              (j: nat) => Once(osascript(content, j))))
  {
    var path := ScriptPath(c, scriptName);
    if path !in scripts {
      return Trace(Err(AppleScript("Script not found: " + PathText(path))), 0, []);
    }
    var content := Substitute(scripts[path], placeholders);
    if retry {
      t := RetryLoop(scriptName, c.settings.retryAttempts, c.settings.retryDelay,
                     (j: nat) => Once(osascript(content, j)));
    } else {
      t := Trace(Once(osascript(content, 0)), 1, []);
    }
  }
}
