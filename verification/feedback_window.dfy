/**
 * The state the `FeedbackUI` window of feedback_ui.py keeps and the handlers
 * that change it: the session countdown (tick, reset, pause/resume, expiry),
 * the image and context-file attachment lists, submitting the feedback, and
 * `run`. Wall-clock time is an integer number of seconds passed to every
 * handler that reads the clock.
 */
module FeedbackWindow {
  import opened Wrappers
  import opened Text
  import opened FeedbackModel

  /** A loaded image; the window only asks whether it is null. */
  datatype Pixmap = Pixmap(isNull: bool, id: nat)

  /** The three states of the session countdown. */
  datatype TimerState = Running | Paused | Expired

  class FeedbackUI {
    const projectDirectory: string
    const prompt: string
    const currentFile: Option<string>
    const timeoutSeconds: int
    const options: seq<string>

    var startTime: int
    var timerActive: bool
    var timeoutTriggered: bool
    var feedbackResult: Option<FeedbackResult>
    /** Set once the window has asked to close (after storing a result). */
    var closed: bool
    /** The content of the feedback text editor. */
    var editorText: string
    var imagePaths: seq<string>
    var imagePixmaps: seq<Pixmap>
    var contextFiles: seq<string>
    var tempImageCounter: nat

    /** The invariants every handler keeps. */
    ghost predicate Valid()
      reads this
    {
      && |imagePaths| == |imagePixmaps|
      && NoDuplicates(imagePaths)
      && NoDuplicates(contextFiles)
      && (feedbackResult.Some? ==> KeepAliveShape(feedbackResult.value))
    }

    function State(): TimerState
      reads this
    {
      if timeoutTriggered then Expired else if timerActive then Running else Paused
    }

    /** `__init__` (the parts that are not widgets), ending with `_setup_timeout_timer`. */
    constructor (projectDirectory: string, prompt: string, currentFile: Option<string>,
                 timeoutSeconds: int, options: seq<string>, now: int)
      ensures Valid()
      ensures this.projectDirectory == projectDirectory && this.prompt == prompt
      ensures this.currentFile == currentFile && this.timeoutSeconds == timeoutSeconds && this.options == options
      ensures startTime == now && editorText == ""
      ensures imagePaths == [] && imagePixmaps == [] && contextFiles == [] && tempImageCounter == 0
      ensures timeoutSeconds > 0 ==> State() == Running && feedbackResult == None && !closed
      ensures timeoutSeconds <= 0 ==> State() == Expired && !timerActive && feedbackResult == Some(TimeoutResult) && closed
    {
      this.projectDirectory := projectDirectory;
      this.prompt := prompt;
      this.currentFile := currentFile;
      this.timeoutSeconds := timeoutSeconds;
      this.options := options;
      startTime := now;
      timerActive := false;
      timeoutTriggered := false;
      feedbackResult := None;
      closed := false;
      editorText := "";
      imagePaths := [];
      imagePixmaps := [];
      contextFiles := [];
      tempImageCounter := 0;
      new;
      SetupTimeoutTimer(now);
    }

    /** `_setup_timeout_timer`: start the one-second timer and show the countdown at once. */
    method SetupTimeoutTimer(now: int)
      requires Valid()
      modifies this`timerActive, this`timeoutTriggered, this`feedbackResult, this`closed
      ensures Valid()
      ensures now - startTime < timeoutSeconds ==>
        timerActive && timeoutTriggered == old(timeoutTriggered) && feedbackResult == old(feedbackResult) && closed == old(closed)
      ensures now - startTime >= timeoutSeconds ==> !timerActive && feedbackResult == Some(TimeoutResult) && closed && State() == Expired
    {
      timerActive := true;
      var _ := UpdateTimeoutDisplay(now);
    }

    /**
     * `_update_timeout_display`: compute the remaining time; when it is used
     * up, stop the timer and store the keep-alive result, otherwise show the
     * clock.
     */
    method UpdateTimeoutDisplay(now: int) returns (shown: TimerDisplay)
      requires Valid()
      modifies this`timerActive, this`timeoutTriggered, this`feedbackResult, this`closed
      ensures Valid()
      ensures shown == Display(Remaining(timeoutSeconds, startTime, now))
      ensures shown.TimeUp? <==> now - startTime >= timeoutSeconds
      ensures shown.TimeUp? ==> !timerActive && timeoutTriggered && feedbackResult == Some(TimeoutResult) && closed
      ensures !shown.TimeUp? ==> unchanged(this)
    {
      var remaining := Remaining(timeoutSeconds, startTime, now);
      shown := Display(remaining);
      if remaining <= 0 {
        timerActive := false;
        TriggerTimeout();
      }
    }

    /**
     * One firing of the periodic timer. Qt delivers it only while the timer
     * is active, so a paused or expired countdown is left untouched.
     */
    method TimerTick(now: int)
      requires Valid()
      modifies this`timerActive, this`timeoutTriggered, this`feedbackResult, this`closed
      ensures Valid()
      ensures !old(timerActive) ==> unchanged(this)
      ensures old(timerActive) && now - startTime < timeoutSeconds ==> unchanged(this)
      ensures old(timerActive) && now - startTime >= timeoutSeconds ==>
        State() == Expired && !timerActive && feedbackResult == Some(TimeoutResult) && closed
    {
      if timerActive {
        var _ := UpdateTimeoutDisplay(now);
      }
    }

    /**
     * Successive firings of the periodic timer at the given times, as the
     * event loop delivers them: the countdown expires at the first firing
     * that finds the time used up, and every later firing finds it stopped.
     */
    method TimerTicks(times: seq<int>)
      requires Valid()
      modifies this`timerActive, this`timeoutTriggered, this`feedbackResult, this`closed
      ensures Valid()
      ensures !old(timerActive) ==> unchanged(this)
      ensures old(timerActive) && (forall k :: 0 <= k < |times| ==> times[k] - startTime < timeoutSeconds) ==> unchanged(this)
      ensures old(timerActive) && (exists k :: 0 <= k < |times| && times[k] - startTime >= timeoutSeconds) ==>
        State() == Expired && !timerActive && feedbackResult == Some(TimeoutResult) && closed
    {
      for i := 0 to |times|
        invariant Valid()
        invariant !old(timerActive) ==> unchanged(this)
        invariant old(timerActive) && (forall k :: 0 <= k < i ==> times[k] - startTime < timeoutSeconds) ==> unchanged(this)
        invariant old(timerActive) && (exists k :: 0 <= k < i && times[k] - startTime >= timeoutSeconds) ==>
          State() == Expired && !timerActive && feedbackResult == Some(TimeoutResult) && closed
      {
        TimerTick(times[i]);
      }
    }

    /** `_reset_timeout`: restart the full duration from `now`, restarting a stopped timer. */
    method ResetTimeout(now: int)
      requires Valid()
      modifies this`startTime, this`timerActive, this`timeoutTriggered, this`feedbackResult, this`closed
      ensures Valid()
      ensures startTime == now
      ensures timeoutSeconds > 0 ==>
        timerActive && timeoutTriggered == old(timeoutTriggered) && feedbackResult == old(feedbackResult) && closed == old(closed)
      ensures timeoutSeconds <= 0 ==> State() == Expired && !timerActive && feedbackResult == Some(TimeoutResult) && closed
    {
      startTime := now;
      if !timerActive {
        timerActive := true;
      }
      var _ := UpdateTimeoutDisplay(now);
    }

    /**
     * `_stop_timeout`, the pause/resume button: pausing stops the timer and
     * keeps the start time; resuming restarts the full duration from `now`.
     */
    method StopTimeout(now: int)
      requires Valid()
      modifies this`startTime, this`timerActive, this`timeoutTriggered, this`feedbackResult, this`closed
      ensures Valid()
      ensures old(timerActive) ==>
        !timerActive && startTime == old(startTime) && timeoutTriggered == old(timeoutTriggered)
        && feedbackResult == old(feedbackResult) && closed == old(closed)
      ensures !old(timerActive) ==> startTime == now
      ensures !old(timerActive) && timeoutSeconds > 0 ==>
        timerActive && timeoutTriggered == old(timeoutTriggered) && feedbackResult == old(feedbackResult) && closed == old(closed)
      ensures !old(timerActive) && timeoutSeconds <= 0 ==>
        State() == Expired && !timerActive && feedbackResult == Some(TimeoutResult) && closed
    {
      if timerActive {
        timerActive := false;
      } else {
        startTime := now;
        timerActive := true;
        var _ := UpdateTimeoutDisplay(now);
      }
    }

    /** `_trigger_timeout`: store the keep-alive result and close the window. */
    method TriggerTimeout()
      requires Valid()
      modifies this`timeoutTriggered, this`feedbackResult, this`closed
      ensures Valid()
      ensures timeoutTriggered && feedbackResult == Some(TimeoutResult) && closed
    {
      timeoutTriggered := true;
      feedbackResult := Some(TimeoutResult);
      closed := true;
    }

    /** `_on_context_files_added`: append each file that is not listed yet, in order. */
    method OnContextFilesAdded(files: seq<string>)
      requires Valid()
      modifies this`contextFiles
      ensures Valid()
      ensures contextFiles == AppendNew(old(contextFiles), files)
    {
      for i := 0 to |files|
        invariant AppendNew(contextFiles, files[i..]) == AppendNew(old(contextFiles), files)
        invariant NoDuplicates(contextFiles)
      {
        var f := files[i];
        assert files[i..] == [f] + files[i + 1..];
        if f !in contextFiles {
          contextFiles := contextFiles + [f];
        }
      }
    }

    /** `_clear_context_files`. */
    method ClearContextFiles()
      requires Valid()
      modifies this`contextFiles
      ensures Valid()
      ensures contextFiles == []
    {
      contextFiles := [];
    }

    /**
     * `_on_image_added`: a non-null image is recorded under its source path
     * when that path exists, otherwise under a new temporary file name; a
     * path already listed is not added again. `existing` stands for the
     * paths `os.path.exists` accepts, `tempDir` for `tempfile.gettempdir()`
     * and `pid` for `os.getpid()`.
     */
    method OnImageAdded(pixmap: Pixmap, source: string, existing: set<string>, tempDir: string, pid: int)
      requires Valid()
      modifies this`imagePaths, this`imagePixmaps, this`tempImageCounter
      ensures Valid()
      ensures pixmap.isNull ==> unchanged(this)
      ensures !pixmap.isNull ==>
        var fromFile := source != "" && source in existing;
        var path := if fromFile then source else JoinPath(tempDir, TempImageName(pid, tempImageCounter));
        && tempImageCounter == old(tempImageCounter) + (if fromFile then 0 else 1)
        && imagePaths == AppendNew(old(imagePaths), [path])
        && imagePixmaps == old(imagePixmaps) + (if path in old(imagePaths) then [] else [pixmap])
    {
      if !pixmap.isNull {
        var imagePath;
        if source != "" && source in existing {
          imagePath := source;
        } else {
          tempImageCounter := tempImageCounter + 1;
          imagePath := JoinPath(tempDir, TempImageName(pid, tempImageCounter));
        }
        if imagePath !in imagePaths {
          imagePaths := imagePaths + [imagePath];
          imagePixmaps := imagePixmaps + [pixmap];
        }
      }
    }

    /** `_clear_image`: drop every image and restart the temporary-name counter. */
    method ClearImage()
      requires Valid()
      modifies this`imagePaths, this`imagePixmaps, this`tempImageCounter
      ensures Valid()
      ensures imagePaths == [] && imagePixmaps == [] && tempImageCounter == 0
    {
      imagePaths := [];
      imagePixmaps := [];
      tempImageCounter := 0;
    }

    /**
     * The first part of `_submit_feedback`: the feedback text built step by
     * step from the stripped editor text, then the image section, then the
     * context section, each joined by a blank line only when text precedes it.
     */
    method FeedbackText() returns (text: string)
      ensures text == ComposeFeedback(editorText, imagePaths, contextFiles)
    {
      text := Strip(editorText);
      ghost var sections: seq<string> := if text == "" then [] else [text];
      if imagePaths != [] {
        var imagesInfo := Join("\n", Bullets(imagePaths));
        var section := ImagesHeadOpen + IntString(|imagePaths|) + ImagesHeadClose + imagesInfo;
        assert section == ImagesSection(imagePaths);
        AppendSection("\n\n", text, sections, section);
        if text != "" {
          text := text + "\n\n" + section;
        } else {
          text := section;
        }
        sections := sections + [section];
      }
      if contextFiles != [] {
        var contextInfo := Join("\n", Bullets(contextFiles));
        var section := ContextHead + contextInfo;
        assert section == ContextSection(contextFiles);
        AppendSection("\n\n", text, sections, section);
        if text != "" {
          text := text + "\n\n" + section;
        } else {
          text := section;
        }
        sections := sections + [section];
      }
      assert sections == FeedbackSections(Strip(editorText), imagePaths, contextFiles);
    }

    /** `_submit_feedback`: store the result built from the feedback text and copies of both lists, then close the window. */
    method SubmitFeedback()
      requires Valid()
      modifies this`feedbackResult, this`closed
      ensures Valid()
      ensures feedbackResult == Some(SubmittedResult(editorText, imagePaths, contextFiles)) && closed
    {
      var text := FeedbackText();
      feedbackResult := Some(FeedbackResult("", text, if imagePaths != [] then imagePaths[0] else "", imagePaths, contextFiles, false));
      closed := true;
    }

    /** `_end_feedback`: put the end marker in the editor and submit. */
    method EndFeedback()
      requires Valid()
      modifies this`editorText, this`feedbackResult, this`closed
      ensures Valid()
      ensures editorText == EndText
      ensures feedbackResult == Some(SubmittedResult(EndText, imagePaths, contextFiles)) && closed
      ensures var f := feedbackResult.value.interactiveFeedback; |EndText| <= |f| && f[..|EndText|] == EndText
    {
      editorText := EndText;
      SubmitFeedback();
      EndFeedbackLeads(imagePaths, contextFiles);
    }

    /** `run` after the event loop returns: the stored result, or the empty one. */
    method Run() returns (r: FeedbackResult)
      requires Valid()
      ensures feedbackResult.Some? ==> r == feedbackResult.value
      ensures feedbackResult.None? ==> r == EmptyResult
      ensures r.timeoutTriggered ==> r.interactiveFeedback == KeepAliveText && r.imagePaths == [] && r.contextFiles == []
    {
      if feedbackResult.None? {
        return EmptyResult;
      }
      return feedbackResult.value;
    }

    /**
     * `_get_file_dialog_initial_dir`: the folder of the current file, the
     * current file itself when it is a folder, else the project directory.
     * `existing` stands for `os.path.exists`, `regularFiles` for `os.path.isfile`.
     */
    function FileDialogInitialDir(existing: set<string>, regularFiles: set<string>): (d: string)
      requires regularFiles <= existing
      ensures !(currentFile.Some? && currentFile.value != "" && currentFile.value in existing) ==> d == projectDirectory
      ensures currentFile.Some? && currentFile.value != "" && currentFile.value in existing - regularFiles ==> d == currentFile.value
      ensures currentFile.Some? && currentFile.value != "" && currentFile.value in regularFiles ==>
        var f := currentFile.value;
        && d == Dirname(f)
        && |d| <= |f| && d == f[..|d|]
        && (d == "" <==> '/' !in f)
        && forall k :: |d| <= k < AfterLastSlash(f) ==> f[k] == '/'
    {
      if currentFile.Some? && currentFile.value != "" && currentFile.value in existing then
        if currentFile.value in regularFiles then Dirname(currentFile.value) else currentFile.value
      else
        projectDirectory
    }
  }

  /**
   * A session nobody touches: the window opens at `start` with a positive
   * timeout and the timer fires at the given times. The keep-alive result
   * comes back exactly when some firing finds the time used up; otherwise
   * the window was closed some other way and `run` returns the empty result.
   */
  method SessionLeftAlone(projectDirectory: string, prompt: string, timeout: int, start: int, ticks: seq<int>)
    returns (r: FeedbackResult)
    requires timeout > 0
    ensures (exists k :: 0 <= k < |ticks| && ticks[k] - start >= timeout) ==> r == TimeoutResult
    ensures (forall k :: 0 <= k < |ticks| ==> ticks[k] - start < timeout) ==> r == EmptyResult
  {
    var ui := new FeedbackUI(projectDirectory, prompt, None, timeout, [], start);
    ui.TimerTicks(ticks);
    r := ui.Run();
  }

  /**
   * A countdown paused before it runs out never expires: whatever the timer
   * firings before the pause (all in time) and after it (at any time), `run`
   * returns the empty result.
   */
  method PausedSessionNeverExpires(timeout: int, start: int, before: seq<int>, pauseAt: int, after: seq<int>)
    returns (r: FeedbackResult)
    requires timeout > 0
    requires forall k :: 0 <= k < |before| ==> before[k] - start < timeout
    ensures r == EmptyResult
  {
    var ui := new FeedbackUI("", "", None, timeout, [], start);
    ui.TimerTicks(before);
    ui.StopTimeout(pauseAt);
    ui.TimerTicks(after);
    r := ui.Run();
  }
}
