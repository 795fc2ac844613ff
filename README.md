# mtvcgui core, modelled in Dafny

mtvcgui is a Qt front end that records analogue TV with `mencoder` and
previews it with `mplayer`. This project models the parts of it that make
decisions. The Qt widgets, the configuration file and process handling are
left out.

- **The command builders of `utils.py`** (`Commands.dfy`).
  - `generate_command` builds the `mencoder` argument list. It starts with the
    colon-joined `-tv` clause, then adds the codec block, the optional
    `-endpos`/`-ofps`/`-noskip`/`-quiet` flags, the `-vf`, `-lavcopts` and
    `-lameopts` blocks and the extra parameters, and ends with `-o <file>`.
  - `generate_mplayer_command` builds the preview argument list.
  - Each builder is a method that grows its list step by step, as the source
    does. It is proved equal to a function that lists the blocks, and lemmas
    state what the blocks mean.
- **`make_filename` and `secs_to_str`** (`Filename.dfy`).
  - `{channel}` is substituted first.
  - Each `{...}` group then has its `%Y %y %m %d %H %M %S %channel` codes
    replaced and loses its braces.
  - On request, a `_N` suffix is then probed until a name is free. The loop
    ends because the set of existing paths is finite.
- **The line filter of `get_codecs`** (`Codecs.dfy`).
- **The `MainWindow` lifecycle of `trunk/run.py`** (`MainWindow.dfy`).
  - A class holds:
    - the three pids: preview mplayer, recording mplayer and mencoder;
    - the seconds counter;
    - the four button flags;
    - the four timers;
    - the suffix check box;
    - the status text;
    - a log of `kill` calls.
  - One method per slot or timer tick. Each is proved to turn the window's
    state (a `WindowState` value) into what a function of the old state
    says, such as `Cleanup` or `Launched`. Lemmas about those functions state
    what each handler means.
  - Also here: the environment-variable parser and the duration text of
    `get_params_from_gui`.
- **Python's string operations** (`Text.dfy`): `split`, `join`, `replace`,
  `strip`, `find`/`rfind`, `str(n)` and `"%.2d"`.

Inputs stand in for the outside world:

- the clock is a `DateTime` value;
- `os.path.exists` is a finite set of existing paths;
- `Popen` is `Some(pid)` or `None` (the `OSError` path);
- `poll()` is a boolean;
- the output of the codec listing command is a string.

The source reads the clock twice during one recording start: once in
`run_mencoder` and once inside `generate_command`. So `RunMencoder` takes two
clocks, `nameClock` and `commandClock`.

Templates, as the code treats them:

- Every `{channel}` in the template becomes the channel text before any
  group is expanded, whatever other groups the template holds
  (`Filename.ChannelEverywhere`).
- Inside a group only `%` codes are replaced (`Filename.GroupWithoutCode`).
  A template `capture_{Y}{m}{d}_{channel}.avi` with channel `5` therefore
  gives `capture_Ymd_5.avi` (`Filename.LettersWithoutPercent`). The date
  must be written with `%`: `rec_{%Y}_{channel}.avi` gives `rec_`, the year,
  then `_5.avi` (`Filename.YearAndChannel`).

Kept as the source has it:

- **The encoder pid is not reset when a recording ends on its own.**
  - `update_status` then cleans up without resetting `mencoder_pid`.
  - If a later launch fails, the stale pid makes the window look as if it is
    recording.
  - `Window.StaleEncoderPid` proves this scenario on the state functions,
    and `Window.StaleEncoderAfterNaturalEnd` proves it on the class.
  - In the source the false "recording" view lasts one tick. The next
    `update_status` polls the exited encoder (trunk/run.py:181) and cleans
    up. A Stop pressed during that tick kills the stale pid
    (trunk/run.py:797-798).
  - The model takes each `poll()` result as a free input. It therefore also
    allows the count to go on for ever, which the source cannot do.
- **A scale height is used even without a width.**
  - With extra filters set, it yields `scale=:<h>`.
  - Without extra filters, the height alone is dropped
    (`Commands.ScaleHeightOnly`).
- **A second marker line is doubled.** A second `Available codecs:` line is
  appended twice by `get_codecs` (`Codecs.RepeatedMarker`).

## Model

| member | source | states |
|---|---|---|
| Text.Split | utils.py:323 | `str.split` on one character: at least one piece, and no piece contains the separator |
| Text.JoinSplit | utils.py:322-324 | joining the pieces of a split with the separator gives back the text, so the extra parameters are passed on without loss |
| Text.SplitJoin | utils.py:314 | splitting a join of separator-free pieces gives back the pieces |
| Text.IndexFrom | trunk/run.py:684 | the first occurrence of a character at or after a position, or none |
| Text.LastIndex | utils.py:110-120 | the last occurrence of a character, or none |
| Text.Strip | trunk/run.py:686-687 | `str.strip`: the slice left after cutting white space at both ends; no white space at either end of the result |
| Text.NatToStringValue | utils.py:92 | `str(n)` reads back as `n` |
| Text.NatToStringInjective | utils.py:120 | different suffix numbers give different texts |
| Text.ReplaceEvery | utils.py:103 | `str.replace` replaces every occurrence: pieces that do not contain the pattern, separated by it, become the same pieces separated by the replacement (for a pattern whose first character does not recur in it, such as `{channel}`) |
| Text.Pad2Value | utils.py:94-98 | `"%.2d" % n` is digits reading back as `n`: exactly two below 100, and no leading zero from 10 on |
| Text.HmsFields | utils.py:136 | the three fields of `hh:mm:ss` split on `:` are the `%.2d` texts of the three numbers |
| Filename.GroupTextOfBraces | utils.py:82-100 | `repl_func` on `{inner}` replaces the codes inside and drops exactly the two braces |
| Filename.GroupWithOneCode | utils.py:82-100 | a group holding one code becomes that code's value: `%Y` the year, `%y` the year from its third digit, `%m %d %H %M %S` two-digit fields, `%channel` the channel text |
| Filename.GroupWithoutCode | utils.py:82-105 | a group without a `%` code only loses its braces |
| Filename.CodesApart | utils.py:88-98 | no code contains an earlier one, and only the channel value may contain a `%`, so each code is replaced once |
| Filename.GroupYearFields | utils.py:83-93 | `{%Y}` reads back as the year, and `{%y}` is the year from its third digit on |
| Filename.GroupTimeFields | utils.py:84-98 | `{%m}` to `{%S}` are the `%.2d` texts of the month, day, hour, minute and second |
| Filename.FindGroup | utils.py:105 | the match of `{[^}]*?}`: the first `{` and the first `}` after it; no match exactly when no `{` has a `}` after it |
| Filename.ExpandGroupsLiteral | utils.py:105 | text without a complete group, such as `a{b` or `a}b{c`, is left unchanged |
| Filename.ExpandGroupsStep | utils.py:105 | literal text before the first group is kept, the group is expanded, and the rest is expanded in turn |
| Filename.ChannelEverywhere | utils.py:103-105 | every `{channel}` of the template becomes the channel text before the groups are expanded, whatever groups the rest of the template holds |
| Filename.PlainGroup | utils.py:82-105 | a group without a `%` code after literal text loses its braces, and the rest is expanded in turn |
| Filename.LettersWithoutPercent | utils.py:82-105 | for any brace-free prefix, channel and extension, `<prefix>{Y}{m}{d}_{channel}<ext>` gives `<prefix>Ymd_<channel><ext>` |
| Filename.YearAndChannel | utils.py:82-105 | for any brace-free prefix, channel and extension, `<prefix>{%Y}_{channel}<ext>` gives the prefix, `str(year)`, `_`, the channel and the extension |
| Filename.ChannelOnly | utils.py:103-105 | a template with one `{channel}` and no other group gives the template with the channel text in its place |
| Filename.SuffixedAtLastDot | utils.py:110-120 | round `k` of the loop inserts `_k` right before the last `.` of the whole path, or at the end when there is no `.` |
| Filename.ProbeNameInjective | utils.py:106-124 | distinct rounds probe distinct names |
| Filename.ProbesStep | utils.py:110 | each probe of an existing name shrinks the set of existing names not yet probed, which is why the loop ends |
| Filename.FirstFreeProbe | utils.py:106-124 | the loop stops at the first probe that does not exist; every earlier probe exists |
| Filename.MakeFilename | utils.py:78-126 | `make_filename`. Without `append_suffix` the result is the expanded template, whatever exists. With it, the result does not exist, and it is the expanded template itself whenever that does not exist |
| Filename.SecsToStrFields | utils.py:128-136 | `secs_to_str`: the fields are the `%.2d` texts of the hours, the minutes below 60 and the seconds below 60, and they add back up to the input |
| Commands.BuildTvClause | utils.py:219-263 | the `tvparms +=` steps build exactly the `-tv` items joined by `:` |
| Commands.StartTvClause | utils.py:219-233 | the first six steps build the six leading items joined by `:` |
| Commands.AddCaptureItems | utils.py:235-245 | the size items, `audiorate=` and the ALSA items are appended after the head, each under its condition, giving the head and capture items joined by `:` |
| Commands.AppendSizeItems | utils.py:235-237 | `width=` and `height=` are appended together, and only when both sizes are set |
| Commands.AppendIfSet | utils.py:239-240 | an item is appended after a `:` only when its value is set |
| Commands.AppendAlsaItems | utils.py:242-245 | with ALSA on, `alsa` is appended, then `adevice=` when a device is given |
| Commands.AddPictureItems | utils.py:248-263 | the picture items and the extra text are appended in order, each only when set |
| Commands.TvClauseRoundTrip | utils.py:219-263 | when no item contains `:`, splitting the `-tv` clause at `:` gives back its items |
| Commands.TvHeadItems | utils.py:219-233 | the clause starts `freq=` exactly for channel type `frequency`, otherwise `channel=`. It uses `normid=` exactly for driver `v4l2`, otherwise `norm=`. Then come `driver=`, `device=`, `input=` and `chanlist=` in order |
| Commands.TvClauseStart | utils.py:219-224 | the clause begins with its first item followed by `:` |
| Commands.TvCaptureSize | utils.py:235-237 | `width=`/`height=` appear, as a leading pair, exactly when both sizes are set |
| Commands.TvCaptureAlsa | utils.py:239-245 | an `adevice=` item appears only right after `alsa`, only with ALSA on and a device given |
| Commands.BuildCodecArgs | utils.py:269-274 | the codec block built step by step equals its specification |
| Commands.BuildOptionArgs | utils.py:276-286 | the optional-flag block built step by step equals its specification |
| Commands.BuildFilterArgs | utils.py:289-298 | the `-vf` block built step by step equals its specification |
| Commands.BuildEncoderArgs | utils.py:302-319 | the `-lavcopts` and `-lameopts` blocks built step by step equal their specification |
| Commands.AppendExtraArgs | utils.py:322-324 | the loop appends the pieces of `extramencoderparms.split(' ')` in order |
| Commands.GenerateCommand | utils.py:172-333 | `generate_command` returns the mencoder list for the name `make_filename` resolves, or its space-joined text with `preview` |
| Commands.MencoderCodecs | utils.py:265-274 | `-nosound` stands in place of `-oac <codec>` exactly when the audio codec is `none`, and `-ovc <codec>` always follows |
| Commands.OptionFlags | utils.py:276-286 | `-endpos`, `-ofps`, `-noskip` and `-quiet` are each present exactly when their parameter is set |
| Commands.OptionValues | utils.py:276-280 | the duration follows `-endpos` at the start of the block, and the frame rate follows `-ofps` right after it |
| Commands.FilterRule | utils.py:289-298 | `-vf` is emitted exactly when extra filters, or both scale sizes, are set. Its value is the extra filters, then `scale=w:h` for any scale height, joined by `,` |
| Commands.ScaleHeightOnly | utils.py:289-294 | a scale height without a width yields `scale=:<h>` after extra filters, and is dropped without them |
| Commands.LavcRule | utils.py:302-319 | `-lavcopts` is emitted exactly when one of the four fields is set. Its value splits back into the set entries in the order acodec, abitrate, vcodec, vbitrate. `-lameopts` is emitted exactly when the lame bitrate is set, with the value `cbr:br=<bitrate>` |
| Commands.MencoderShape | utils.py:265-328 | the list starts `mencoder tv:// -tv <clause>` and ends `-o <file>`. Right before come the extra pieces, which join back to the extra parameter text |
| Commands.PreviewLine | utils.py:328-333 | with `preview` the line starts `mencoder tv:// -tv <clause> ` and ends ` -o <file>`; without it the list itself is returned |
| Commands.GenerateMplayerCommand | utils.py:336-430 | `generate_mplayer_command` built step by step equals its specification |
| Commands.MplayerShape | utils.py:336-430 | the preview list has the same `-tv` clause as the recording and `-fps` only for a frame rate. It always has `-quiet`, then the same `-vf` block |
| Commands.MplayerNoRecordingFlags | utils.py:336-430 | the preview list has no `-o`, `-oac`, `-ovc` or `-endpos`, unless the frame rate or the extra filters are such a text |
| Codecs.GetCodecs | utils.py:59-75 | the loop computes the filter's specification |
| Codecs.ScanNoMarker | utils.py:65-71 | before any marker line nothing is kept |
| Codecs.NoMarkerKeepsOutput | utils.py:72-73 | without a marker line the whole output is returned |
| Codecs.ScanFromMarker | utils.py:65-71 | with one marker line, the kept text is that line and all after it, joined by newlines |
| Codecs.SingleMarker | utils.py:59-75 | with one marker line, `get_codecs` returns that line and all after it |
| Codecs.RepeatedMarker | utils.py:67-70 | a second marker line is appended twice |
| Window.EnvLineSplit | trunk/run.py:684-687 | a line is ignored exactly when it has no `=`; otherwise it is cut at its first `=` and both sides are stripped |
| Window.ParseEnvVars | trunk/run.py:682-689 | the loop computes the dictionary's specification |
| Window.EnvVarsDefined | trunk/run.py:682-689 | a variable is defined exactly when some line sets it |
| Window.EnvVarsLastWins | trunk/run.py:682-689 | a variable holds the value of the last line that sets it |
| Window.DurationText | trunk/run.py:568-576 | the duration is empty exactly when hour, minute and second are all 0; otherwise its three fields are the `%.2d` texts of the three numbers |
| Window.DurationIsSecsToStr | trunk/run.py:568-576 | for minutes and seconds below 60, a non-zero duration is `secs_to_str` of the total |
| Window.CleanupStops | trunk/run.py:215-232 | after `record_stop_cleanup` no recording mplayer is left (the one there was is the last pid killed), the status is `Stopped`, the timer is off, the counter is 0 and the buttons are idle. The encoder and preview pids are untouched, and a second cleanup changes nothing |
| Window.TicksCount | trunk/run.py:180-184 | `n` ticks while the encoder runs raise the counter by exactly `n` and show it; nothing else changes |
| Window.StopKillsBoth | trunk/run.py:796-800 | stop kills the encoder, then the recording mplayer, leaves both pids 0 and the buttons idle |
| Window.ScheduleThenCancel | trunk/run.py:245-258 | scheduling and then cancelling from an idle window gives the same window back, showing `Stopped` |
| Window.WaitingButtons | trunk/run.py:245-258 | while waiting only cancel is enabled and the schedule timer runs; cancelling stops it and makes the buttons idle |
| Window.LaunchOutcome | trunk/run.py:758-776 | a non-zero encoder pid after the launch shows the recording with only stop enabled. A zero pid gives run back and changes nothing else. A failed launch keeps the old pid |
| Window.OverwriteOnlyAsks | trunk/run.py:720-739 | an unaccepted existing name opens the dialog only: the new state is the old one with the preview killed and its pid 0, the schedule timer stopped and the name resolved, and nothing else changed |
| Window.RunEndsPreview | trunk/run.py:720-735 | whichever way `run_mencoder` goes, the preview mplayer is killed and its pid is 0, the schedule timer is off and the resolved name is kept |
| Window.ScheduledRunNeverAsks | trunk/run.py:203-209 | with the suffix box forced on, the resolved name does not exist, so a scheduled start never stops at the dialog |
| Window.StaleEncoderPid | trunk/run.py:180-185 | after a recording ends on its own the encoder pid is still set, so a relaunch that fails looks like a running recording with the old pid |
| Window.MainWindow.constructor | trunk/run.py:88-116 | a new window has no processes, a zero counter, no running timers and no kills |
| Window.MainWindow.RecordStopCleanup | trunk/run.py:215-232 | the new state is `Cleanup` of the old one |
| Window.MainWindow.UpdateStatus | trunk/run.py:180-185 | the new state is `StatusTick`: one more second while the encoder runs, the cleanup otherwise |
| Window.MainWindow.StopButtonPressed | trunk/run.py:796-800 | the new state is `StopPressed`: the encoder killed and its pid 0, then the cleanup |
| Window.MainWindow.ScheduleRecording | trunk/run.py:245-250 | the new state is `Scheduled` of the old one |
| Window.MainWindow.CancelSchedule | trunk/run.py:252-258 | the new state is `Cancelled` of the old one |
| Window.MainWindow.RunMencoder | trunk/run.py:720-776 | the new state is `AfterRun`: the preview killed, the name resolved, then either the dialog or the launch. The outcome is the dialog or the recording command |
| Window.MainWindow.StartRecording | trunk/run.py:741-776 | the part past the overwrite check: stop on, run off, the recording command, then the launch |
| Window.MainWindow.RecordingArgs | trunk/run.py:753 | the command is `generate_command` on the window's values and its suffix box |
| Window.MainWindow.LaunchEncoder | trunk/run.py:758-776 | the new state is `Launched`: a launch records its pid, a failed one keeps the old pid, and the pid decides the view |
| Window.MainWindow.CheckSchedule | trunk/run.py:203-213 | the new state is `ScheduleTick`. When the time has come, a recording starts with the suffix box forced on and its command is returned; otherwise only the waiting time is shown |
| Window.MainWindow.CheckPreviewFile | trunk/run.py:187-195 | the new state is `PreviewFileTick`: once the file exists, an mplayer on it is tried and the wait ends |
| Window.MainWindow.CheckMplayerPreview | trunk/run.py:197-200 | the new state is `PreviewWatchTick`: once the watched mplayer has exited, its pid is 0 and its timer stops |
| Window.MainWindow.PreviewWithMplayer | trunk/run.py:701-716 | the new state is `PreviewStarted`: a preview starts only when none runs, with the mplayer command of the current values |
| Window.StaleEncoderAfterNaturalEnd | trunk/run.py:180-185 | on the class: after a recording ends on its own, a relaunch that fails still looks like a running recording with the old pid |

## Left out

- Qt widgets, dialogs, icons, translation loading and `tr()`. Status texts
  are a `Status` value.
- Reading and writing the configuration file, and restoring the norm index.
  These are file I/O that depend on widget contents.
- The `pre_command` and `post_command` runs, the `kill` and `call` process
  calls, and stdin slave commands to mplayer. `kill` is only logged in
  `killed`. The existence set is assumed to be unchanged by a `pre_command`.
- Merging the environment variables into the child's environment. Only the
  parser is modelled.
- `commands.getoutput`. Its output is an input string.
- Formatting the frequency as a float. It is taken as a ready string.
- `mplayer_instance` is shared by the preview and by `check_preview_file`.
  Each `poll()` is a boolean input, so which process is polled is not
  modelled.
- Parameters that Python would read as `None` (missing dictionary keys).
  Every text parameter is a string, and `""` stands for unset.
- The `xvid_*`/`x264_*` fields. The builders never read them.
- `update_device_values` (trunk/run.py:860-872). It passes `extra_params`
  and `as_string` to `generate_mplayer_command`, which takes neither. It
  also calls `utils.get_device_information`, which `utils.py` does not define.
- The codec combo boxes filled through `utils.get_codecs_list`
  (trunk/run.py:136-147). `utils.py` does not define that function; only
  `get_codecs` is there.
- `exit_cleanup` and the mplayer slave-command slots. These are process I/O
  only.
- Window.MainWindow.RunMencoder: the two clock reads and the file-system
  state are independent inputs. The time between them is not modelled.
