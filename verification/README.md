# Interactive Feedback MCP — a Dafny model of the session core

Interactive Feedback MCP lets an automated agent stop and ask a person for
feedback. The `interactive_feedback` tool in server.py launches the
feedback window (feedback_ui.py) as a child process and waits for it. The
window shows a countdown. The person types text, attaches images and context
files, and submits. If nobody answers before the countdown runs out, the
window returns a fixed "keep the session alive" result instead. The result
comes back to the server through a temporary JSON file. The server reads that
file and deletes it.

This project models three parts of that core and proves what they promise:

- **The session countdown** (`FeedbackWindow.FeedbackUI`, a class whose
  fields the handlers update). It starts running. A tick that finds no time
  left stops it and stores the keep-alive result. The pause button stops the
  timer and keeps the start time. Resuming or resetting restarts the full
  duration. Time is a whole number of seconds, `now`, passed to every
  handler that reads the clock.
- **Attachments and the submitted result** (`FeedbackModel` and the
  `FeedbackUI` handlers). Context files and image paths are appended
  without duplicates, in order. The image paths and the loaded images stay
  the same length. The submitted text is laid out in a fixed way: the
  stripped text, the image section and the context section, separated by
  blank lines.
- **The server-side launch protocol** (`Server`). `first_line`
  normalises inputs. The child command line is built and its flag values are
  proved. The wait is bounded by the timeout plus 30 seconds. A non-zero exit
  code is a failure whose message carries the code. A zero exit code returns
  what the result file holds. The temporary file is gone on every path out
  of `launch_feedback_ui`.

Modules:

- `Wrappers`: `Option` and `Result`.
- `Text`: the Python `str` operations used. These are `strip()` with the
  full `str.isspace()` set, `split(sep)[0]`, `sep.join`, and `str(int)`.
  `int(s)` is included as the partner of `str(int)`.
- `FeedbackModel`: the `FeedbackResult` record, the countdown arithmetic, the
  reference layout of the submitted text, the duplicate-free append, and the
  POSIX path helpers.
- `FeedbackWindow`: the `FeedbackUI` class and two sessions stated as
  methods, for any timeout, start time and sequence of timer firings.
- `Server`: `first_line`, the command line, `launch_feedback_ui` and
  `interactive_feedback`.

Outside effects become parameters or abstract values:

- **File system.** `os.path.exists` and `os.path.isfile` are sets of paths.
  In `launch_feedback_ui` the file system is the set of existing paths,
  and the temporary file is a fresh name outside that set.
- **Child process.** One run of the feedback window is a `ChildRun` value:
  - its elapsed seconds;
  - its return code;
  - its standard error;
  - what its result file holds: missing, unparseable, or a parsed result;
  - the other files it created, such as the pasted images it saved.
- **Process and directory values.** `os.getpid()` and
  `tempfile.gettempdir()` are parameters.
- **Options encoding.** `json.dumps` of the options is a function parameter.
- **Configured timeout.** The value read from the environment is a
  parameter.

Where the code and the system's prose description differ, the model follows
the code:

- **Timeout kill.** When the wait times out, only the direct child is
  killed, by `subprocess.run`. There is no process-tree termination step.
- **Exceptions.** The program defines no exception classes of its own. A
  non-zero exit raises a bare `Exception` (server.py:74). The other failures
  are the library's own: `subprocess.TimeoutExpired`, `FileNotFoundError`
  and `json.JSONDecodeError`, re-raised unchanged (server.py:84).
  `LaunchError` only names which of them was raised.
- **Result record.** `FeedbackResult` has the fields `logs`,
  `interactive_feedback`, `image_path`, `image_paths`, `context_files` and
  `timeout_triggered`. It has no list of selected options.

## Model

| member | source | states |
|---|---|---|
| Text.Strip | server.py:87 | the result has no whitespace at either end and is the input with only whitespace removed from its two ends |
| Text.StripIdempotent | server.py:87 | stripping twice is the same as stripping once |
| Text.StripUnpadded | feedback_ui.py:1131 | text without surrounding whitespace is left unchanged by `strip()` |
| Text.BeforeFirst | server.py:87 | `split("\n")[0]`: a prefix of the input without the separator, followed in the input by the separator unless it is the whole input |
| Text.BeforeFirstNoSeparator | server.py:87 | a string without the separator is its own first piece |
| Text.BeforeFirstOfConcat | server.py:74 | the first piece of `x + sep + y` is `x` when `x` has no separator |
| Text.Join | feedback_ui.py:1135 | no contract of its own; characterised by Text.JoinSnoc, Text.JoinLeads, Text.JoinEmpty and Text.LineOfJoin |
| Text.LineOfJoin | feedback_ui.py:1135-1147 | a line of any part is still a line of the join when the separator starts and ends with a line break, as `"\n"` and `"\n\n"` do |
| Text.LineOfExtendedLeft | feedback_ui.py:1139-1147 | text put in front that ends with a line break keeps every line, as a section header does |
| Text.LineOfExtendedRight | feedback_ui.py:1137-1145 | text appended that starts with a line break keeps every line |
| Text.LineOfItself | feedback_ui.py:1135 | a string is a line of itself |
| Text.JoinSnoc | feedback_ui.py:1133-1147 | joining one more part appends the separator and the part, except after no parts |
| Text.AppendSection | feedback_ui.py:1136-1147 | adding a section with the separator only when the text so far is non-empty gives the join of all sections, and the result is non-empty |
| Text.JoinLeads | feedback_ui.py:1131-1140 | a join starts with its first part, followed by the separator when more parts follow |
| Text.JoinEmpty | feedback_ui.py:1130-1147 | a join of non-empty parts is empty exactly when there are no parts |
| Text.NatString | server.py:52 | `str(n)` of a natural number is non-empty, all digits, with no leading zero |
| Text.IntString | server.py:52 | `str(i)` is non-empty, starts with a digit or a minus sign, and the rest is digits |
| Text.IntStringAvoids | server.py:74 | a character that is neither a digit nor a minus sign never occurs in `str(i)` |
| Text.IntStringRoundTrip | server.py:52 | `int(str(i)) == i` for every integer, which the child's `--timeout` parsing (feedback_ui.py:1274) relies on |
| Text.ParseDecimal | feedback_ui.py:1274 | `int(s)` on decimal text; no contract of its own; characterised by Text.IntStringRoundTrip, FeedbackModel.ImagesHeaderCount and Server.ExitFailureMessageCarriesCode |
| Text.IntStringInjective | feedback_ui.py:1193 | different integers have different decimal texts |
| FeedbackModel.Remaining | feedback_ui.py:845-846 | the remaining time is never negative, and it is zero exactly when the elapsed time has reached the timeout |
| FeedbackModel.ClockOf | feedback_ui.py:848-849 | minutes and seconds of the display: seconds below 60, minutes * 60 + seconds == remaining |
| FeedbackModel.Display | feedback_ui.py:851-884 | which of the four displays is shown: time up at 0, red up to 60 seconds, orange up to 120, plain above, each an if-and-only-if |
| FeedbackModel.Bullets | feedback_ui.py:1135 | one attachment line per path, in order; what it means for the submitted text is stated by FeedbackModel.ImageLinesInFeedback and FeedbackModel.ContextLinesInFeedback |
| FeedbackModel.ImagesSection | feedback_ui.py:1134-1140 | no contract of its own; characterised by FeedbackModel.ImagesHeaderCount and FeedbackModel.ImageLinesInFeedback |
| FeedbackModel.ContextSection | feedback_ui.py:1142-1147 | no contract of its own; characterised by FeedbackModel.ComposeFeedbackEndsWithContext and FeedbackModel.ContextLinesInFeedback |
| FeedbackModel.ComposeFeedback | feedback_ui.py:1130-1147 | no contract of its own; the reference layout of the submitted text, characterised by the ComposeFeedback lemmas below and matched by FeedbackWindow.FeedbackUI.FeedbackText |
| FeedbackModel.ImageLinesInFeedback | feedback_ui.py:1134-1140 | every attached image path appears in the submitted text on a line of its own, as `"  - "` followed by the path, whatever the typed text and context files |
| FeedbackModel.ContextLinesInFeedback | feedback_ui.py:1142-1147 | every context file or folder appears in the submitted text on a line of its own, as `"  - "` followed by the path, whatever the typed text and images |
| FeedbackModel.SubmittedResult | feedback_ui.py:1149-1156 | the submitted record is not a timeout result, carries both lists, and its `image_path` is the first image or `""` |
| FeedbackModel.SectionsNonEmpty | feedback_ui.py:1133-1147 | no section of the submitted text is empty |
| FeedbackModel.ComposeFeedbackEmpty | feedback_ui.py:1130-1147 | the submitted text is empty exactly when the stripped text is empty and nothing is attached |
| FeedbackModel.ComposeFeedbackPlain | feedback_ui.py:1131 | without attachments the submitted text is the stripped editor text |
| FeedbackModel.ComposeFeedbackLeadsWithText | feedback_ui.py:1131-1140 | non-empty stripped text comes first, followed by a blank line whenever anything is attached |
| FeedbackModel.ComposeFeedbackLeadsWithUnpadded | feedback_ui.py:1131-1140 | text without surrounding whitespace appears unchanged at the head of the submitted text |
| FeedbackModel.ComposeFeedbackEndsWithContext | feedback_ui.py:1143-1147 | with context files, the submitted text ends with the context section |
| FeedbackModel.ImagesHeaderCount | feedback_ui.py:1138-1140 | the image section starts with the header, and the number in the header reads back as the number of images |
| FeedbackModel.StripEndText | feedback_ui.py:1161 | the end marker `结束` is left unchanged by `strip()` |
| FeedbackModel.EndFeedbackLeads | feedback_ui.py:1159-1162 | feedback sent with the end button starts with `结束` |
| FeedbackModel.FirstIndex | feedback_ui.py:1120-1122 | the position of the first occurrence of a value in a list that holds it: the value is there and nowhere earlier |
| FeedbackModel.AppendNew | feedback_ui.py:1120-1122 | no contract of its own; characterised by the AppendNew lemmas below |
| FeedbackModel.AppendNewOne | feedback_ui.py:1198-1200 | appending one path adds it at the end exactly when it is not present |
| FeedbackModel.AppendNewExtends | feedback_ui.py:1118-1123 | the old list is a prefix of the new one |
| FeedbackModel.AppendNewMembers | feedback_ui.py:1118-1123 | a path is in the new list exactly when it was in the old list or among the added paths |
| FeedbackModel.AppendNewNoDuplicates | feedback_ui.py:1118-1123 | appending to a duplicate-free list leaves it duplicate-free |
| FeedbackModel.AppendNewFirstAppearanceOrder | feedback_ui.py:1118-1123 | the new list is in order of first appearance in old-then-added paths |
| FeedbackModel.TempImageName | feedback_ui.py:1193 | no contract of its own; characterised by FeedbackModel.TempImageNameInjective |
| FeedbackModel.JoinPath | feedback_ui.py:1193 | POSIX `os.path.join` of two parts; no contract of its own; characterised by FeedbackModel.JoinPathInjective |
| FeedbackModel.TempImageNameInjective | feedback_ui.py:1193 | different counter values give different temporary image names |
| FeedbackModel.JoinPathInjective | feedback_ui.py:1193 | one directory joined with two different relative names gives two different paths |
| FeedbackModel.TempImagePathsDistinct | feedback_ui.py:1191-1193 | pasted images with different counter values are saved under different paths |
| FeedbackModel.AfterLastSlash | feedback_ui.py:1089 | where the last path component starts: no slash after it, a slash just before it |
| FeedbackModel.TrimSlashes | feedback_ui.py:1089 | `rstrip('/')`: a prefix of the input, only slashes removed, and the result does not end with a slash |
| FeedbackModel.Dirname | feedback_ui.py:1089 | `os.path.dirname`: the part before the last component, a prefix of the path; when that part is all slashes it is kept as is, otherwise its trailing slashes are removed; empty exactly when the path has no slash |
| FeedbackModel.DirnameDetermined | feedback_ui.py:1089 | the contract of `Dirname` admits exactly one result, so it pins down `os.path.dirname` completely |
| FeedbackWindow.FeedbackUI.constructor | feedback_ui.py:368-382 | a new window has no attachments, no result and counter 0; its countdown is running, or has expired at once when the timeout is not positive |
| FeedbackWindow.FeedbackUI.SetupTimeoutTimer | feedback_ui.py:836-841 | the timer is started and the display updated at once, which expires the countdown if no time is left |
| FeedbackWindow.FeedbackUI.UpdateTimeoutDisplay | feedback_ui.py:843-884 | the display for the remaining time; when no time is left the timer stops and the keep-alive result is stored, otherwise nothing changes |
| FeedbackWindow.FeedbackUI.TimerTick | feedback_ui.py:838-840 | ticks only act while the timer is active, so a paused or expired countdown is left untouched |
| FeedbackWindow.FeedbackUI.TimerTicks | feedback_ui.py:838-854 | successive firings of an active timer expire the countdown exactly when one of them finds the time used up, and otherwise change nothing; an inactive timer is left untouched |
| FeedbackWindow.FeedbackUI.ResetTimeout | feedback_ui.py:886-906 | the start time becomes `now` and the timer is active afterwards, whichever state it was in, unless the timeout is not positive |
| FeedbackWindow.FeedbackUI.StopTimeout | feedback_ui.py:908-953 | pausing deactivates the timer and keeps the start time; resuming sets the start time to `now` and reactivates it |
| FeedbackWindow.FeedbackUI.TriggerTimeout | feedback_ui.py:955-966 | the timeout flag is set, the keep-alive result is stored and the window closes |
| FeedbackWindow.FeedbackUI.OnContextFilesAdded | feedback_ui.py:1118-1123 | the loop appends each new file in order; the list equals the duplicate-free append of the added files |
| FeedbackWindow.FeedbackUI.ClearContextFiles | feedback_ui.py:1125-1128 | the context list is empty |
| FeedbackWindow.FeedbackUI.OnImageAdded | feedback_ui.py:1183-1201 | a null image changes nothing; otherwise the path is the source if it exists, else the next temporary name; the counter grows only for temporary names; the path and its image are appended only if the path is new |
| FeedbackWindow.FeedbackUI.ClearImage | feedback_ui.py:1203-1208 | both image lists are empty and the counter is 0 |
| FeedbackWindow.FeedbackUI.FeedbackText | feedback_ui.py:1130-1147 | the text built step by step equals the reference layout of the stripped text, the image section and the context section |
| FeedbackWindow.FeedbackUI.SubmitFeedback | feedback_ui.py:1130-1157 | the stored result is the submitted record for the current text and lists, and the window closes |
| FeedbackWindow.FeedbackUI.EndFeedback | feedback_ui.py:1159-1162 | the editor holds `结束`, the submitted record is stored, and its text starts with `结束` |
| FeedbackWindow.FeedbackUI.Run | feedback_ui.py:1225-1232 | the stored result if there is one, otherwise the empty result; a timeout result has the keep-alive text and empty lists |
| FeedbackWindow.FeedbackUI.FileDialogInitialDir | feedback_ui.py:1081-1092 | `os.path.dirname` of the current file when it is an existing file, the current file when it is an existing folder, else the project directory |
| FeedbackWindow.SessionLeftAlone | feedback_ui.py:836-854 | for any positive timeout, start time and timer firings, an untouched session returns the keep-alive result if some firing comes at or after the deadline, and the empty result if none does |
| FeedbackWindow.PausedSessionNeverExpires | feedback_ui.py:908-913 | for any positive timeout, a session paused after firings that all came in time returns the empty result, whatever the firings after the pause |
| Server.FirstLine | server.py:86-87 | the result has no newline and no surrounding whitespace, and it is the first line with only whitespace removed from its ends |
| Server.FirstLineIdempotent | server.py:86-87 | applying `first_line` twice is the same as applying it once |
| Server.PairValueSnoc | server.py:54-59 | a `--flag value` pair added at the end decides the value of that flag and leaves the others alone |
| Server.FixedPairValues | server.py:49-52 | the four fixed pairs give the project directory, the prompt, the output file and the timeout |
| Server.BuiltArgValue | server.py:45-59 | the value of each flag on a command line built from the fixed pairs and the two optional pairs |
| Server.BuildArgs | server.py:45-59 | the child command line starts with the interpreter, `-u` and the window script; each flag carries its value; the timeout reads back as the timeout; `--current-file` appears only for a non-empty file; `--options` appears only for a non-empty list |
| Server.WaitBound | server.py:69 | `timeout_seconds + 30`; no contract of its own; used by Server.LaunchFeedbackUI |
| Server.ExitFailureMessage | server.py:71-74 | no contract of its own; characterised by Server.ExitFailureMessageCarriesCode |
| Server.ExitFailureMessageCarriesCode | server.py:71-74 | the failure message for a non-zero exit reads back as that exit code |
| Server.LaunchFeedbackUI | server.py:22-84 | the command line as above; past timeout + 30 seconds the wait fails; a non-zero exit fails with the code and standard error, or "Unknown error"; otherwise the parsed file is returned, or the read fails; on every path the temporary file no longer exists, and the files left are those that existed before plus those the window created |
| Server.InteractiveFeedback | server.py:106-112 | project directory and summary pass through `first_line`, the current file only when non-empty, and the configured timeout is passed; success exactly when the window exits 0 in time with a parsed result, which is returned unchanged; the files left are as for Server.LaunchFeedbackUI |

## Left out

- Qt widgets, layout, style sheets, the palette, the dark title bar, the window height animation and the label texts. The model keeps which countdown display is shown, not how it is drawn.
- The Qt event loop. Handlers are methods called one after another. `close()` is the `closed` flag, and `run` is what happens after the loop returns.
- QSettings persistence and `get_project_settings_group`. The latter needs an MD5 hash.
- Drag and drop, the clipboard, the file and folder dialogs, and `_select_option`. These only feed the modelled handlers or the editor text.
- `pixmap.save` writing the pasted image. The image is an abstract `Pixmap`, and only the chosen path is modelled.
- Floating-point time. Time is whole seconds.
- The environment variable read for the timeout. The configured timeout is a parameter.
- `argparse` and `json.loads` in the child's `__main__`. The command line is stated by the value each flag carries, with the last occurrence winning. Values that start with `-` are not distinguished from flags.
- `json.dumps`, `json.dump` and `json.load`. The options encoding is a function parameter. The file content is an abstract outcome.
- The `feedback_ui` function that writes the result file in the child. It is summarised by the `OutputFile` outcome of a `ChildRun`.
- Decoding standard error from bytes. Standard error is a string.
- Exceptions from `subprocess.run` other than the timeout, and a failing `tempfile.NamedTemporaryFile`.
- `health_check` and warmup.py. They probe the environment and print.
- Windows path rules. `os.path.join` and `os.path.dirname` follow POSIX.
- Server.LaunchFeedbackUI: does not model that `json.load` can return any JSON value. A parsed file is a `FeedbackResult`.
- Server.InteractiveFeedback: an absent option list and an empty one are treated the same, as both are falsy in the code.
- FeedbackWindow.FeedbackUI.OnImageAdded: a path counts as from a file only when `os.path.exists` accepts it. Whether `QPixmap` could load it is left to the caller.
- FeedbackWindow.FeedbackUI.constructor: the options list is stored after `options or []`. Options only reach the option buttons, which are not modelled.
