/**
 * The server side of server.py: normalising the tool's inputs, building the
 * command line of the feedback window process, and launching it with a hard
 * wait bound, reading its result back from a temporary file that is removed
 * on every exit path.
 *
 * The file system is an abstract set of existing paths. The child process
 * is not run: its behaviour is a `ChildRun` value (how long it ran, its exit
 * code and error output, and what the result file holds afterwards).
 */
module Server {
  import opened Wrappers
  import opened Text
  import opened FeedbackModel

  /** `first_line`: the stripped text before the first newline. */
  function FirstLine(text: string): (r: string)
    ensures '\n' !in r
    ensures Unpadded(r)
    ensures PaddedBy(BeforeFirst(text, '\n'), r)
  {
    var line := BeforeFirst(text, '\n');
    PaddedByKeepsOut(line, Strip(line), '\n');
    Strip(line)
  }

  /** `first_line` is idempotent. */
  lemma FirstLineIdempotent(text: string)
    ensures FirstLine(FirstLine(text)) == FirstLine(text)
  {
    var r := FirstLine(text);
    BeforeFirstNoSeparator(r, '\n');
    StripUnpadded(r);
  }

  /** Python truthiness of an optional string. */
  predicate Truthy(s: Option<string>) {
    s.Some? && s.value != ""
  }

  /** Python truthiness of an optional list of options. */
  predicate HasOptions(options: Option<seq<string>>) {
    options.Some? && options.value != []
  }

  /** The value given for `flag` in the `--flag value` pairs after the first three arguments; the last one wins. */
  function ArgValue(args: seq<string>, flag: string): Option<string> {
    if |args| < 3 || (|args| - 3) % 2 != 0 then None else PairValue(args[3..], flag)
  }

  function PairValue(pairs: seq<string>, flag: string): Option<string>
    requires |pairs| % 2 == 0
  {
    if pairs == [] then None
    else if pairs[|pairs| - 2] == flag then Some(pairs[|pairs| - 1])
    else PairValue(pairs[..|pairs| - 2], flag)
  }

  /** One more `--flag value` pair overrides any earlier value of that flag. */
  lemma PairValueSnoc(pairs: seq<string>, f: string, v: string, flag: string)
    requires |pairs| % 2 == 0
    ensures PairValue(pairs + [f, v], flag) == if f == flag then Some(v) else PairValue(pairs, flag)
  {
    assert (pairs + [f, v])[..|pairs|] == pairs;
  }

  /** The values of the four pairs every command line starts with. */
  lemma FixedPairValues(projectDirectory: string, summary: string, outputFile: string, timeoutText: string, flag: string)
    ensures PairValue(["--project-directory", projectDirectory, "--prompt", summary,
                       "--output-file", outputFile, "--timeout", timeoutText], flag) ==
      if flag == "--timeout" then Some(timeoutText)
      else if flag == "--output-file" then Some(outputFile)
      else if flag == "--prompt" then Some(summary)
      else if flag == "--project-directory" then Some(projectDirectory)
      else None
  {
    var p1 := ["--project-directory", projectDirectory];
    var p2 := p1 + ["--prompt", summary];
    var p3 := p2 + ["--output-file", outputFile];
    var p4 := p3 + ["--timeout", timeoutText];
    assert p4 == ["--project-directory", projectDirectory, "--prompt", summary,
                  "--output-file", outputFile, "--timeout", timeoutText];
    PairValueSnoc([], "--project-directory", projectDirectory, flag);
    assert [] + ["--project-directory", projectDirectory] == p1;
    PairValueSnoc(p1, "--prompt", summary, flag);
    PairValueSnoc(p2, "--output-file", outputFile, flag);
    PairValueSnoc(p3, "--timeout", timeoutText, flag);
  }

  /** What the feedback window process is told on its command line. */
  ghost predicate ChildArgs(args: seq<string>, python: string, uiPath: string, projectDirectory: string,
                            summary: string, outputFile: string, timeoutSeconds: int,
                            currentFile: Option<string>, options: Option<seq<string>>, encode: seq<string> -> string)
  {
    && |args| == 11 + (if Truthy(currentFile) then 2 else 0) + (if HasOptions(options) then 2 else 0)
    && args[..3] == [python, "-u", uiPath]
    && ArgValue(args, "--project-directory") == Some(projectDirectory)
    && ArgValue(args, "--prompt") == Some(summary)
    && ArgValue(args, "--output-file") == Some(outputFile)
    && ArgValue(args, "--timeout").Some?
    && ParseDecimal(ArgValue(args, "--timeout").value) == Some(timeoutSeconds)
    && ArgValue(args, "--current-file") == (if Truthy(currentFile) then Some(currentFile.value) else None)
    && ArgValue(args, "--options") == (if HasOptions(options) then Some(encode(options.value)) else None)
  }

  /**
   * The `args` list of `launch_feedback_ui`: the fixed part, then the
   * current file when it is given and not empty, then the options encoded by
   * `encode` (`json.dumps`) when there are any.
   */
  method BuildArgs(python: string, uiPath: string, projectDirectory: string, summary: string, outputFile: string,
                   timeoutSeconds: int, currentFile: Option<string>, options: Option<seq<string>>,
                   encode: seq<string> -> string)
    returns (args: seq<string>)
    ensures ChildArgs(args, python, uiPath, projectDirectory, summary, outputFile, timeoutSeconds, currentFile, options, encode)
  {
    var timeoutText := IntString(timeoutSeconds);
    args := [python, "-u", uiPath,
             "--project-directory", projectDirectory,
             "--prompt", summary,
             "--output-file", outputFile,
             "--timeout", timeoutText];
    ghost var fixed := args;
    if Truthy(currentFile) {
      args := args + ["--current-file", currentFile.value];
    }
    ghost var withFile := args;
    if HasOptions(options) {
      args := args + ["--options", encode(options.value)];
    }
    ghost var pairs := fixed[3..];
    ghost var filePair := withFile[|fixed|..];
    ghost var optionsPair := args[|withFile|..];
    assert args == [python, "-u", uiPath] + pairs + filePair + optionsPair;
    IntStringRoundTrip(timeoutSeconds);
    BuiltArgValue([python, "-u", uiPath], pairs, filePair, optionsPair, "--project-directory");
    BuiltArgValue([python, "-u", uiPath], pairs, filePair, optionsPair, "--prompt");
    BuiltArgValue([python, "-u", uiPath], pairs, filePair, optionsPair, "--output-file");
    BuiltArgValue([python, "-u", uiPath], pairs, filePair, optionsPair, "--timeout");
    BuiltArgValue([python, "-u", uiPath], pairs, filePair, optionsPair, "--current-file");
    BuiltArgValue([python, "-u", uiPath], pairs, filePair, optionsPair, "--options");
    FixedPairValues(projectDirectory, summary, outputFile, timeoutText, "--project-directory");
    FixedPairValues(projectDirectory, summary, outputFile, timeoutText, "--prompt");
    FixedPairValues(projectDirectory, summary, outputFile, timeoutText, "--output-file");
    FixedPairValues(projectDirectory, summary, outputFile, timeoutText, "--timeout");
    FixedPairValues(projectDirectory, summary, outputFile, timeoutText, "--current-file");
    FixedPairValues(projectDirectory, summary, outputFile, timeoutText, "--options");
  }

  /** Past the three leading words, the command line is read as `--flag value` pairs. */
  lemma ArgValueAfterHead(head: seq<string>, rest: seq<string>, flag: string)
    requires |head| == 3 && |rest| % 2 == 0
    ensures ArgValue(head + rest, flag) == PairValue(rest, flag)
  {
    assert (head + rest)[3..] == rest;
  }

  /** A pair that may be absent: when present it decides the flag it names. */
  lemma OptionalPairValue(pairs: seq<string>, extra: seq<string>, flag: string)
    requires |pairs| % 2 == 0 && (|extra| == 0 || |extra| == 2)
    ensures PairValue(pairs + extra, flag) ==
      if extra != [] && extra[0] == flag then Some(extra[1]) else PairValue(pairs, flag)
  {
    if extra == [] {
      assert pairs + extra == pairs;
    } else {
      assert extra == [extra[0], extra[1]];
      PairValueSnoc(pairs, extra[0], extra[1], flag);
    }
  }

  /** The value of a flag on a command line made of three leading words, the fixed pairs and up to two optional pairs. */
  lemma BuiltArgValue(head: seq<string>, pairs: seq<string>, filePair: seq<string>, optionsPair: seq<string>, flag: string)
    requires |head| == 3 && |pairs| % 2 == 0
    requires |filePair| == 0 || |filePair| == 2
    requires |optionsPair| == 0 || |optionsPair| == 2
    ensures ArgValue(head + pairs + filePair + optionsPair, flag) ==
      if optionsPair != [] && optionsPair[0] == flag then Some(optionsPair[1])
      else if filePair != [] && filePair[0] == flag then Some(filePair[1])
      else PairValue(pairs, flag)
  {
    var withFile := pairs + filePair;
    var all := withFile + optionsPair;
    OptionalPairValue(pairs, filePair, flag);
    OptionalPairValue(withFile, optionsPair, flag);
    ArgValueAfterHead(head, all, flag);
    assert head + pairs + filePair + optionsPair == head + all;
  }

  /** Extra seconds the server waits beyond the session timeout before giving up on the window. */
  const GraceSeconds: int := 30

  function WaitBound(timeoutSeconds: int): int {
    timeoutSeconds + GraceSeconds
  }

  /** What the result file holds when the server reads it. */
  datatype OutputFile =
    | Missing
    | Unparseable
    | Parsed(result: FeedbackResult)

  /**
   * One run of the feedback window process: how long it ran, its exit code
   * and error output, what it left in the result file, and the other files
   * it created (the pasted images it saved to the temporary directory).
   */
  datatype ChildRun = ChildRun(elapsed: nat, returnCode: int, stderr: string, output: OutputFile, created: set<string>)

  /** The exceptions `launch_feedback_ui` lets escape. */
  datatype LaunchError =
    | ExitFailure(message: string)
    | TimeoutExpired(seconds: int)
    | FileNotFound(path: string)
    | DecodeError

  const ExitFailurePrefix: string := "Failed to launch feedback UI (exit code "

  /** The message of the exception raised for a non-zero exit code. */
  function ExitFailureMessage(code: int, stderr: string): string {
    ExitFailurePrefix + IntString(code) + "): " + (if stderr == "" then "Unknown error" else stderr)
  }

  /** The exit code a failure message reports, read back from its text. */
  function ReportedExitCode(message: string): Option<int> {
    if |ExitFailurePrefix| <= |message| && message[..|ExitFailurePrefix|] == ExitFailurePrefix
    then ParseDecimal(BeforeFirst(message[|ExitFailurePrefix|..], ')'))
    else None
  }

  /** The failure message carries the exit code. */
  lemma ExitFailureMessageCarriesCode(code: int, stderr: string)
    ensures ReportedExitCode(ExitFailureMessage(code, stderr)) == Some(code)
  {
    var m := ExitFailureMessage(code, stderr);
    var rest := ": " + (if stderr == "" then "Unknown error" else stderr);
    assert m == ExitFailurePrefix + (IntString(code) + [')'] + rest);
    assert m[|ExitFailurePrefix|..] == IntString(code) + [')'] + rest;
    IntStringAvoids(code, ')');
    BeforeFirstOfConcat(IntString(code), ')', rest);
    IntStringRoundTrip(code);
  }

  /**
   * `launch_feedback_ui`. `existing` is the set of paths that exist before
   * the call and `outputFile` the fresh name `tempfile.NamedTemporaryFile`
   * picks; `after` is the set of existing paths when the call returns or
   * raises.
   */
  method LaunchFeedbackUI(existing: set<string>, outputFile: string, python: string, scriptDir: string,
                          projectDirectory: string, summary: string, currentFile: Option<string>,
                          timeoutSeconds: int, options: Option<seq<string>>,
                          encode: seq<string> -> string, child: ChildRun)
    returns (args: seq<string>, r: Result<FeedbackResult, LaunchError>, after: set<string>)
    requires outputFile !in existing
    ensures after == existing + child.created - {outputFile} && outputFile !in after
    ensures ChildArgs(args, python, JoinPath(scriptDir, "feedback_ui.py"), projectDirectory, summary, outputFile,
                      timeoutSeconds, currentFile, options, encode)
    ensures child.elapsed > WaitBound(timeoutSeconds) ==> r == Failure(TimeoutExpired(WaitBound(timeoutSeconds)))
    ensures child.elapsed <= WaitBound(timeoutSeconds) && child.returnCode != 0 ==>
      r == Failure(ExitFailure(ExitFailureMessage(child.returnCode, child.stderr)))
    ensures child.elapsed <= WaitBound(timeoutSeconds) && child.returnCode == 0 ==>
      r == match child.output
           case Parsed(result) => Success(result)
           case Missing => Failure(FileNotFound(outputFile))
           case Unparseable => Failure(DecodeError)
  {
    var files := existing + child.created + {outputFile};
    var uiPath := JoinPath(scriptDir, "feedback_ui.py");
    args := BuildArgs(python, uiPath, projectDirectory, summary, outputFile, timeoutSeconds, currentFile, options, encode);
    if child.output.Missing? {
      files := files - {outputFile};
    }
    var raised: Option<LaunchError> := None;
    if child.elapsed > WaitBound(timeoutSeconds) {
      raised := Some(TimeoutExpired(WaitBound(timeoutSeconds)));
    } else if child.returnCode != 0 {
      raised := Some(ExitFailure(ExitFailureMessage(child.returnCode, child.stderr)));
    } else {
      match child.output
      case Missing =>
        raised := Some(FileNotFound(outputFile));
      case Unparseable =>
        raised := Some(DecodeError);
      case Parsed(result) =>
        files := files - {outputFile};
        r := Success(result);
    }
    if raised.Some? {
      if outputFile in files {
        files := files - {outputFile};
      }
      r := Failure(raised.value);
    }
    after := files;
  }

  /**
   * The `interactive_feedback` tool: the first line of each text input, the
   * current file only when it is given and not empty, and the configured
   * timeout, handed to `LaunchFeedbackUI`.
   */
  method InteractiveFeedback(existing: set<string>, outputFile: string, python: string, scriptDir: string,
                             configuredTimeout: int, projectDirectory: string, summary: string,
                             currentFile: Option<string>, options: Option<seq<string>>,
                             encode: seq<string> -> string, child: ChildRun)
    returns (args: seq<string>, r: Result<FeedbackResult, LaunchError>, after: set<string>)
    requires outputFile !in existing
    ensures after == existing + child.created - {outputFile} && outputFile !in after
    ensures ArgValue(args, "--project-directory") == Some(FirstLine(projectDirectory))
    ensures ArgValue(args, "--prompt") == Some(FirstLine(summary))
    ensures ArgValue(args, "--current-file") ==
      if Truthy(currentFile) && FirstLine(currentFile.value) != "" then Some(FirstLine(currentFile.value)) else None
    ensures ArgValue(args, "--timeout").Some? && ParseDecimal(ArgValue(args, "--timeout").value) == Some(configuredTimeout)
    ensures ArgValue(args, "--output-file") == Some(outputFile)
    ensures ArgValue(args, "--options") == if HasOptions(options) then Some(encode(options.value)) else None
    ensures r.Success? <==>
      child.elapsed <= WaitBound(configuredTimeout) && child.returnCode == 0 && child.output.Parsed?
    ensures r.Success? ==> r.value == child.output.result
  {
    var cf: Option<string> := if Truthy(currentFile) then Some(FirstLine(currentFile.value)) else None;
    args, r, after := LaunchFeedbackUI(existing, outputFile, python, scriptDir,
                                       FirstLine(projectDirectory), FirstLine(summary), cf,
                                       configuredTimeout, options, encode, child);
  }
}
