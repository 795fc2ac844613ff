/** The recording and preview lifecycle of `MainWindow` in trunk/run.py, and
    the two pieces of `get_params_from_gui` that compute values: the
    environment-variable parser and the duration text.

    Qt is replaced by plain state: the buttons' enabled flags, the timers'
    running flags and the status label become fields, and each timer tick is
    one method call. Each handler is a method proved to turn the window's
    state into the state a function on `WindowState` describes. Process
    launches, exits, the clock and the file system are inputs: a launch is
    `Some(pid)` or `None` (the `OSError` path), a `poll()` is a boolean,
    `os.path.exists` is a set of existing paths. The `kill` calls are
    recorded, in order, in the field `killed`. */
module Window {
  import opened Text
  import opened Filename
  import opened Commands

  // ---------------------------------------------------------------------------
  // get_params_from_gui: the envvars parser
  // ---------------------------------------------------------------------------

  /** One line of the environment box: `line.split('=', 1)` with both halves
      stripped, or nothing for a line without `=`. */
  function EnvLine(line: string): Option<(string, string)>
  {
    match IndexFrom(line, '=', 0)
    case None => None
    case Some(i) => Some((Strip(line[..i]), Strip(line[i + 1..])))
  }

  /** A line is ignored exactly when it has no `=`; otherwise it is cut at
      its first `=` and both sides are stripped. */
  lemma EnvLineSplit(line: string)
    ensures EnvLine(line).None? <==> '=' !in line
    ensures EnvLine(line).Some? ==>
      exists i :: 0 <= i < |line| && line[i] == '=' && '=' !in line[..i]
                  && EnvLine(line).value == (Strip(line[..i]), Strip(line[i + 1..]))
  {
    match IndexFrom(line, '=', 0)
    case None =>
    case Some(i) =>
      assert '=' !in line[..i];
  }

  /** The dictionary the parser builds from the lines read so far. */
  function EnvVars(lines: seq<string>): map<string, string>
  {
    if |lines| == 0 then map[]
    else
      var env := EnvVars(lines[..|lines| - 1]);
      var keyval := EnvLine(lines[|lines| - 1]);
      if keyval.Some? then env[keyval.value.0 := keyval.value.1] else env
  }

  /** The loop that fills `envvars` from the text of the environment box. */
  method ParseEnvVars(text: string) returns (env: map<string, string>)
    ensures env == EnvVars(Split(text, '\n'))
  {
    var lines := Split(text, '\n');
    env := map[];
    var i := 0;
    while i < |lines|
      invariant 0 <= i <= |lines|
      invariant env == EnvVars(lines[..i])
    {
      assert lines[..i + 1][..i] == lines[..i];
      var keyval := EnvLine(lines[i]);
      if keyval.Some? {
        env := env[keyval.value.0 := keyval.value.1];
      }
      i := i + 1;
    }
    assert lines[..i] == lines;
  }

  /** Whether a line sets the variable `key`. */
  predicate SetsKey(line: string, key: string)
  {
    EnvLine(line).Some? && EnvLine(line).value.0 == key
  }

  /** One more line updates the dictionary only when it has an `=`. */
  lemma EnvVarsSnoc(lines: seq<string>)
    requires |lines| > 0
    ensures var prev := EnvVars(lines[..|lines| - 1]);
      var keyval := EnvLine(lines[|lines| - 1]);
      EnvVars(lines) == if keyval.Some? then prev[keyval.value.0 := keyval.value.1] else prev
  {
  }

  /** A variable is defined exactly when some line sets it; lines without
      `=` define nothing. */
  lemma {:induction false} EnvVarsDefined(lines: seq<string>, key: string)
    ensures key in EnvVars(lines) <==> exists i :: 0 <= i < |lines| && SetsKey(lines[i], key)
  {
    if |lines| > 0 {
      var n := |lines|;
      var prev := lines[..n - 1];
      EnvVarsDefined(prev, key);
      EnvVarsSnoc(lines);
      assert forall i :: 0 <= i < n - 1 ==> prev[i] == lines[i];
      if SetsKey(lines[n - 1], key) {
        assert key in EnvVars(lines);
      } else {
        assert key in EnvVars(lines) <==> key in EnvVars(prev);
        assert (exists i :: 0 <= i < n && SetsKey(lines[i], key))
           <==> (exists i :: 0 <= i < n - 1 && SetsKey(prev[i], key));
      }
    }
  }

  /** A variable holds the value of the last line that sets it: later lines
      overwrite earlier ones. */
  lemma {:induction false} EnvVarsLastWins(lines: seq<string>, key: string, i: nat)
    requires i < |lines| && SetsKey(lines[i], key)
    requires forall j {:trigger SetsKey(lines[j], key)} :: i < j < |lines| ==> !SetsKey(lines[j], key)
    ensures key in EnvVars(lines) && EnvVars(lines)[key] == EnvLine(lines[i]).value.1
  {
    var n := |lines|;
    var prev := lines[..n - 1];
    EnvVarsSnoc(lines);
    if i < n - 1 {
      assert !SetsKey(lines[n - 1], key);
      forall j | i < j < n - 1 ensures !SetsKey(prev[j], key) {
        assert prev[j] == lines[j];
        assert !SetsKey(lines[j], key);
      }
      EnvVarsLastWins(prev, key, i);
      assert prev[i] == lines[i];
    }
  }

  // ---------------------------------------------------------------------------
  // get_params_from_gui: the duration
  // ---------------------------------------------------------------------------

  /** The `-endpos` value from the duration widget: empty when the duration
      is zero, `hh:mm:ss` otherwise. */
  function Duration(hour: nat, minute: nat, second: nat): string
  {
    if hour != 0 || minute != 0 || second != 0 then Hms(hour, minute, second) else ""
  }

  /** The duration is empty exactly for a zero duration; otherwise its three
      fields are the `%.2d` texts of the hour, minute and second. */
  lemma DurationText(hour: nat, minute: nat, second: nat)
    ensures Duration(hour, minute, second) == "" <==> hour == 0 && minute == 0 && second == 0
    ensures Duration(hour, minute, second) != "" ==>
      var fields := Split(Duration(hour, minute, second), ':');
      |fields| == 3 && IsPad2Of(fields[0], hour) && IsPad2Of(fields[1], minute) && IsPad2Of(fields[2], second)
  {
    HmsFields(hour, minute, second);
  }

  /** For a time the widget can show (minutes and seconds below 60), a
      non-zero duration is `secs_to_str` of its total number of seconds. */
  lemma DurationIsSecsToStr(hour: nat, minute: nat, second: nat)
    requires minute < 60 && second < 60
    ensures Duration(hour, minute, second) != "" ==>
      Duration(hour, minute, second) == SecsToStr(hour * 3600 + minute * 60 + second)
  {
    var q := hour * 60 + minute;
    var total := hour * 3600 + minute * 60 + second;
    assert total == q * 60 + second;
    assert total / 60 == q;
    assert total % 60 == second;
    assert q / 60 == hour;
    assert q % 60 == minute;
  }

  // ---------------------------------------------------------------------------
  // MainWindow: the state and what each handler does to it
  // ---------------------------------------------------------------------------

  /** A process id as `Popen` reports it. The fields use 0 for "no process". */
  type Pid = n: nat | n > 0 witness 1

  /** The text of the status label. */
  datatype Status = Blank | Stopped | Recording(elapsed: string) | Waiting(remaining: string)

  /** Which buttons are enabled: run, stop, schedule and cancel-schedule. */
  datatype Buttons = Buttons(run: bool, stop: bool, schedule: bool, cancel: bool)

  /** Neither recording nor waiting: run and schedule on, stop and cancel off. */
  const IdleButtons := Buttons(true, false, true, false)

  /** Which timers run: the status tick (`checker_timer`), the schedule tick,
      the wait for the recorded file, and the watch on the preview. */
  datatype Timers = Timers(checker: bool, schedule: bool, previewFile: bool, previewWatch: bool)

  /** Everything of the window the lifecycle reads or writes: the three pids
      (`mplayer_preview_pid`, `mplayer_recording_pid`, `mencoder_pid`), the
      seconds counter, the buttons, the timers, the "append suffix" check
      box, the last file name, the status label, and the pids passed to
      `kill`, oldest first. */
  datatype WindowState = WindowState(
    previewPid: nat, recordingPid: nat, encoderPid: nat, timeRunning: nat,
    buttons: Buttons, timers: Timers, appendSuffix: bool, filename: string,
    status: Status, killed: seq<Pid>)

  /** The `kill` of a pid field, when it holds a process. */
  function KillIfSet(pid: nat): seq<Pid>
  {
    if pid != 0 then [pid as Pid] else []
  }

  /** `record_stop_cleanup`: status `Stopped`, status timer off, counter 0,
      the mplayer showing the recording killed and forgotten, buttons back
      to idle. The encoder pid is left as it is. */
  function Cleanup(w: WindowState): WindowState
  {
    w.(status := Stopped, timers := w.timers.(checker := false), timeRunning := 0,
       killed := w.killed + KillIfSet(w.recordingPid), recordingPid := 0, buttons := IdleButtons)
  }

  /** `update_status`, one tick of the status timer: one more second while
      the encoder runs, the cleanup once it has exited. */
  function StatusTick(w: WindowState, alive: bool): WindowState
  {
    if alive then w.(timeRunning := w.timeRunning + 1, status := Recording(SecsToStr(w.timeRunning + 1)))
    else Cleanup(w)
  }

  /** `stop_button_pressed`: kill the encoder, forget its pid, clean up. */
  function StopPressed(w: WindowState): WindowState
  {
    Cleanup(w.(killed := w.killed + KillIfSet(w.encoderPid), encoderPid := 0))
  }

  /** `shedule_recording`: only cancel stays enabled, the schedule timer runs. */
  function Scheduled(w: WindowState): WindowState
  {
    w.(buttons := Buttons(false, false, false, true), timers := w.timers.(schedule := true))
  }

  /** `cancel_shedule`: status `Stopped`, schedule timer off, buttons idle. */
  function Cancelled(w: WindowState): WindowState
  {
    w.(status := Stopped, timers := w.timers.(schedule := false), buttons := IdleButtons)
  }

  /** The launch at the end of `run_mencoder`: a launch records its pid, a
      failed one (`None`) leaves the old pid in place; whatever the pid then
      is decides between showing the recording and giving run back. */
  function Launched(w: WindowState, playWhileRecording: bool, launch: Option<Pid>): WindowState
  {
    var pid := if launch.Some? then launch.value as nat else w.encoderPid;
    if pid != 0 then
      w.(encoderPid := pid, status := Recording(SecsToStr(w.timeRunning)),
         timers := w.timers.(checker := true, previewFile := playWhileRecording || w.timers.previewFile),
         buttons := w.buttons.(schedule := false, cancel := false))
    else
      w.(buttons := w.buttons.(stop := false, run := true))
  }

  /** `run_mencoder` up to the overwrite check: kill the preview, stop the
      schedule timer, resolve the file name at `nameClock`. */
  function Prepared(w: WindowState, p: Params, nameClock: DateTime, existing: set<string>): WindowState
  {
    w.(killed := w.killed + KillIfSet(w.previewPid), previewPid := 0,
       timers := w.timers.(schedule := false),
       filename := RunFilename(w, p, nameClock, existing))
  }

  /** The file name `run_mencoder` resolves, with the window's suffix box. */
  function RunFilename(w: WindowState, p: Params, nameClock: DateTime, existing: set<string>): string
  {
    MadeFilename(p.outputfile, p.channelText, nameClock, existing, w.appendSuffix)
  }

  /** Whether `run_mencoder` stops at the overwrite dialog. */
  predicate AsksOverwrite(w: WindowState, accepted: bool, p: Params, nameClock: DateTime, existing: set<string>)
  {
    !accepted && RunFilename(w, p, nameClock, existing) in existing
  }

  /** The state after `run_mencoder`: after the dialog, or after stop on,
      run off and the launch. */
  function AfterRun(w: WindowState, accepted: bool, p: Params, nameClock: DateTime, existing: set<string>,
                    playWhileRecording: bool, launch: Option<Pid>): WindowState
  {
    var v := Prepared(w, p, nameClock, existing);
    if AsksOverwrite(w, accepted, p, nameClock, existing) then v
    else Launched(v.(buttons := v.buttons.(stop := true, run := false)), playWhileRecording, launch)
  }

  /** The command `run_mencoder` launches: `generate_command` on the window's
      values, with the suffix check box as given. */
  function RecordingCommand(p: Params, suffix: bool, clock: DateTime, existing: set<string>): seq<string>
  {
    MencoderArgs(p.(appendSuffix := suffix), MadeFilename(p.outputfile, p.channelText, clock, existing, suffix))
  }

  /** What `run_mencoder` did: opened the overwrite dialog, or went on to
      build (and try to launch) the recording command. */
  datatype RunOutcome = AskedOverwrite | Ran(command: seq<string>)

  function RunResult(w: WindowState, accepted: bool, p: Params, nameClock: DateTime, commandClock: DateTime,
                     existing: set<string>): RunOutcome
  {
    if AsksOverwrite(w, accepted, p, nameClock, existing) then AskedOverwrite
    else Ran(RecordingCommand(p, w.appendSuffix, commandClock, existing))
  }

  /** `check_schedule`, one tick: once the start time is reached, the suffix
      box is forced on, stop on, run off, and `run_mencoder(accepted=True)`
      runs; before that only the waiting time is shown. */
  function ScheduleTick(w: WindowState, secondsRemaining: int, p: Params, nameClock: DateTime,
                        existing: set<string>, playWhileRecording: bool, launch: Option<Pid>): WindowState
  {
    if secondsRemaining <= 0 then
      AfterRun(w.(appendSuffix := true, buttons := w.buttons.(stop := true, run := false)),
               true, p, nameClock, existing, playWhileRecording, launch)
    else
      w.(status := Waiting(SecsToStr(secondsRemaining)))
  }

  /** `check_preview_file`, one tick: once the recorded file exists, an
      mplayer on it is tried and the wait ends. */
  function PreviewFileTick(w: WindowState, fileExists: bool, launch: Option<Pid>): WindowState
  {
    if !fileExists then w
    else w.(recordingPid := if launch.Some? then launch.value as nat else w.recordingPid,
            timers := w.timers.(previewFile := false))
  }

  /** `check_mplayer_preview`, one tick: once the watched mplayer has exited,
      its pid is forgotten and the watch stops. */
  function PreviewWatchTick(w: WindowState, exited: bool): WindowState
  {
    if exited then w.(previewPid := 0, timers := w.timers.(previewWatch := false)) else w
  }

  /** `preview_with_mplayer`: a preview is launched only when none runs. */
  function PreviewStarted(w: WindowState, launch: Option<Pid>): WindowState
  {
    if w.previewPid == 0 && launch.Some? then
      w.(previewPid := launch.value as nat, timers := w.timers.(previewWatch := true))
    else w
  }

  // ---------------------------------------------------------------------------
  // what the handlers mean
  // ---------------------------------------------------------------------------

  /** The cleanup leaves no recording mplayer behind (the one there was is
      killed), shows `Stopped` with idle buttons, and does not touch the
      encoder pid; running it twice is running it once. */
  lemma CleanupStops(w: WindowState)
    ensures var v := Cleanup(w);
      v.recordingPid == 0 && !v.timers.checker && v.timeRunning == 0
      && v.status == Stopped && v.buttons == IdleButtons
      && v.encoderPid == w.encoderPid && v.previewPid == w.previewPid
      && (w.recordingPid != 0 <==> |v.killed| == |w.killed| + 1)
      && (w.recordingPid != 0 ==> v.killed[|w.killed|] == w.recordingPid)
      && Cleanup(v) == v
  {
  }

  /** `n` ticks of the status timer while the encoder runs. */
  function RunningTicks(w: WindowState, n: nat): WindowState
  {
    if n == 0 then w else StatusTick(RunningTicks(w, n - 1), true)
  }

  /** While the encoder runs, the counter counts the ticks exactly and the
      label shows it; nothing else changes. */
  lemma {:induction false} TicksCount(w: WindowState, n: nat)
    requires n > 0
    ensures RunningTicks(w, n) == w.(timeRunning := w.timeRunning + n,
                                     status := Recording(SecsToStr(w.timeRunning + n)))
  {
    if n > 1 {
      TicksCount(w, n - 1);
    }
  }

  /** Stop leaves neither the encoder nor the recording mplayer: both are
      killed, encoder first, and both pids are 0; the buttons are idle. */
  lemma StopKillsBoth(w: WindowState)
    requires w.encoderPid != 0 && w.recordingPid != 0
    ensures var v := StopPressed(w);
      v.encoderPid == 0 && v.recordingPid == 0 && v.buttons == IdleButtons && v.status == Stopped
      && v.killed == w.killed + [w.encoderPid as Pid, w.recordingPid as Pid]
  {
  }

  /** Scheduling and then cancelling gives back an idle window that shows
      `Stopped`: the round trip changes only the label. */
  lemma ScheduleThenCancel(w: WindowState)
    requires w.buttons == IdleButtons && !w.timers.schedule
    ensures Cancelled(Scheduled(w)) == w.(status := Stopped)
  {
  }

  /** While waiting, only cancel is enabled; cancelling stops the schedule timer. */
  lemma WaitingButtons(w: WindowState)
    ensures var v := Scheduled(w);
      v.buttons.cancel && !v.buttons.run && !v.buttons.stop && !v.buttons.schedule && v.timers.schedule
    ensures !Cancelled(w).timers.schedule && Cancelled(w).buttons == IdleButtons
  {
  }

  /** After `run_mencoder` has turned stop on and run off: a non-zero pid
      shows the recording (status timer on, only stop enabled), a zero pid
      gives run back and changes nothing else; a failed launch keeps
      whatever pid was there before. */
  lemma LaunchOutcome(w: WindowState, play: bool, launch: Option<Pid>)
    requires w.buttons.stop && !w.buttons.run
    ensures var v := Launched(w, play, launch);
      v.encoderPid != 0 ==>
        v.timers.checker && v.buttons == Buttons(false, true, false, false)
        && v.status == Recording(SecsToStr(w.timeRunning))
    ensures var v := Launched(w, play, launch);
      v.encoderPid == 0 ==> v == w.(buttons := w.buttons.(stop := false, run := true))
    ensures launch.None? ==> Launched(w, play, launch).encoderPid == w.encoderPid
    ensures launch.Some? ==> Launched(w, play, launch).encoderPid == launch.value
  {
  }

  /** The overwrite dialog changes nothing but what every run does first:
      the preview is killed and forgotten, the schedule timer stopped and the
      name resolved. No button, pid, counter or status changes. */
  lemma OverwriteOnlyAsks(w: WindowState, p: Params, nameClock: DateTime, existing: set<string>,
                          play: bool, launch: Option<Pid>)
    requires AsksOverwrite(w, false, p, nameClock, existing)
    ensures AfterRun(w, false, p, nameClock, existing, play, launch)
         == w.(killed := w.killed + KillIfSet(w.previewPid), previewPid := 0,
               timers := w.timers.(schedule := false),
               filename := RunFilename(w, p, nameClock, existing))
    ensures RunResult(w, false, p, nameClock, nameClock, existing) == AskedOverwrite
  {
  }

  /** Whichever way `run_mencoder` goes, the preview mplayer is killed and
      forgotten, the schedule timer is off and the resolved name is kept. */
  lemma RunEndsPreview(w: WindowState, accepted: bool, p: Params, nameClock: DateTime,
                       existing: set<string>, play: bool, launch: Option<Pid>)
    ensures var v := AfterRun(w, accepted, p, nameClock, existing, play, launch);
      v.previewPid == 0 && v.killed == w.killed + KillIfSet(w.previewPid)
      && !v.timers.schedule && v.filename == RunFilename(w, p, nameClock, existing)
  {
  }

  /** A scheduled recording never asks about overwriting: with the suffix
      box forced on, the resolved name is one that does not exist. */
  lemma ScheduledRunNeverAsks(w: WindowState, p: Params, nameClock: DateTime, existing: set<string>)
    ensures !AsksOverwrite(w.(appendSuffix := true), false, p, nameClock, existing)
    ensures MadeFilename(p.outputfile, p.channelText, nameClock, existing, true) !in existing
  {
  }

  /** A defect of the source (trunk/run.py:180-185): after a recording ends
      on its own (the encoder exits and the status tick runs the cleanup),
      the encoder pid is still set; a
      following recording whose launch fails therefore still looks like a
      running one, with the exited encoder's pid. */
  lemma StaleEncoderPid(w: WindowState, p: Params, clock: DateTime, existing: set<string>, play: bool)
    requires w.encoderPid != 0
    ensures var ended := StatusTick(w, false);
      ended.encoderPid == w.encoderPid && ended.buttons == IdleButtons
      && var v := AfterRun(ended, true, p, clock, existing, play, None);
      v.encoderPid == w.encoderPid && v.timers.checker && v.status.Recording?
      && v.buttons == Buttons(false, true, false, false)
  {
  }

  // ---------------------------------------------------------------------------
  // MainWindow: the object
  // ---------------------------------------------------------------------------

  class MainWindow {
    var previewPid: nat
    var recordingPid: nat
    var encoderPid: nat
    var timeRunning: nat
    var buttons: Buttons
    var timers: Timers
    /** The "append suffix" check box. */
    var appendSuffix: bool
    var filename: string
    var status: Status
    /** The pids passed to `kill`, oldest first. */
    var killed: seq<Pid>

    /** The window's state as a value. */
    function State(): WindowState
      reads this
    {
      WindowState(previewPid, recordingPid, encoderPid, timeRunning, buttons, timers,
                  appendSuffix, filename, status, killed)
    }

    /** A fresh window: no processes, no timers; the buttons and the check
        box start as the designer file sets them. */
    constructor (initial: Buttons, suffix: bool)
      ensures State() == WindowState(0, 0, 0, 0, initial, Timers(false, false, false, false), suffix, "", Blank, [])
    {
      previewPid, recordingPid, encoderPid, timeRunning := 0, 0, 0, 0;
      buttons, timers := initial, Timers(false, false, false, false);
      appendSuffix, filename, status, killed := suffix, "", Blank, [];
    }

    method RecordStopCleanup()
      modifies this
      ensures State() == Cleanup(old(State()))
    {
      status := Stopped;
      timers := timers.(checker := false);
      timeRunning := 0;
      if recordingPid != 0 {
        killed := killed + [recordingPid as Pid];
        recordingPid := 0;
      }
      buttons := buttons.(stop := false, run := true, cancel := false, schedule := true);
    }

    /** `alive` is the encoder's `poll() is None`. */
    method UpdateStatus(alive: bool)
      modifies this
      ensures State() == StatusTick(old(State()), alive)
    {
      if alive {
        timeRunning := timeRunning + 1;
        status := Recording(SecsToStr(timeRunning));
      } else {
        RecordStopCleanup();
      }
    }

    method StopButtonPressed()
      modifies this
      ensures State() == StopPressed(old(State()))
    {
      if encoderPid != 0 {
        killed := killed + [encoderPid as Pid];
        encoderPid := 0;
      }
      RecordStopCleanup();
    }

    method ScheduleRecording()
      modifies this
      ensures State() == Scheduled(old(State()))
    {
      buttons := buttons.(stop := false, run := false, cancel := true, schedule := false);
      timers := timers.(schedule := true);
    }

    method CancelSchedule()
      modifies this
      ensures State() == Cancelled(old(State()))
    {
      status := Stopped;
      timers := timers.(schedule := false);
      buttons := buttons.(cancel := false, schedule := true, stop := false, run := true);
    }

    /** `run_mencoder`. `p` holds the other values read from the window (the
        suffix check box is this window's own field); `nameClock` is the time
        the file name is resolved at here, `commandClock` the time
        `generate_command` resolves it again; `existing` is the file system,
        taken to be the same for both; `launch` is what `Popen` gives. */
    method RunMencoder(accepted: bool, p: Params, nameClock: DateTime, commandClock: DateTime,
                       existing: set<string>, playWhileRecording: bool, launch: Option<Pid>)
      returns (outcome: RunOutcome)
      modifies this
      ensures State() == AfterRun(old(State()), accepted, p, nameClock, existing, playWhileRecording, launch)
      ensures outcome == RunResult(old(State()), accepted, p, nameClock, commandClock, existing)
    {
      ghost var w := State();
      if previewPid != 0 {
        killed := killed + [previewPid as Pid];
        previewPid := 0;
      }
      timers := timers.(schedule := false);
      filename := MakeFilename(p.outputfile, p.channelText, nameClock, existing, appendSuffix);
      ghost var v := State();
      assert v == Prepared(w, p, nameClock, existing);
      if !accepted && filename in existing {
        outcome := AskedOverwrite;
      } else {
        var command := StartRecording(p, commandClock, existing, playWhileRecording, launch);
        outcome := Ran(command);
      }
    }

    /** The part of `run_mencoder` past the overwrite check: stop on, run
        off, build the command, launch it. */
    method StartRecording(p: Params, commandClock: DateTime, existing: set<string>,
                          playWhileRecording: bool, launch: Option<Pid>)
      returns (command: seq<string>)
      modifies this
      ensures command == RecordingCommand(p, old(appendSuffix), commandClock, existing)
      ensures State() == Launched(old(State()).(buttons := old(buttons).(stop := true, run := false)),
                                  playWhileRecording, launch)
    {
      buttons := buttons.(stop := true, run := false);
      command := RecordingArgs(p, appendSuffix, commandClock, existing);
      LaunchEncoder(playWhileRecording, launch);
    }

    /** `generate_command` on the window's values, as a list. */
    static method RecordingArgs(p: Params, suffix: bool, commandClock: DateTime, existing: set<string>)
      returns (command: seq<string>)
      ensures command == RecordingCommand(p, suffix, commandClock, existing)
    {
      var generated := GenerateCommand(p.(appendSuffix := suffix), commandClock, existing, false);
      command := generated.args;
    }

    /** The launch at the end of `run_mencoder`. */
    method LaunchEncoder(playWhileRecording: bool, launch: Option<Pid>)
      modifies this
      ensures State() == Launched(old(State()), playWhileRecording, launch)
    {
      if launch.Some? {
        encoderPid := launch.value;
      }
      if encoderPid != 0 {
        status := Recording(SecsToStr(timeRunning));
        timers := timers.(checker := true);
        buttons := buttons.(schedule := false, cancel := false);
        if playWhileRecording {
          timers := timers.(previewFile := true);
        }
      } else {
        buttons := buttons.(stop := false, run := true);
      }
    }

    /** `secondsRemaining` is the clock's `secsTo` the scheduled time. */
    method CheckSchedule(secondsRemaining: int, p: Params, nameClock: DateTime, commandClock: DateTime,
                         existing: set<string>, playWhileRecording: bool, launch: Option<Pid>)
      returns (outcome: Option<RunOutcome>)
      modifies this
      ensures State() == ScheduleTick(old(State()), secondsRemaining, p, nameClock, existing, playWhileRecording, launch)
      ensures outcome.Some? <==> secondsRemaining <= 0
      ensures secondsRemaining <= 0 ==> outcome.value == Ran(RecordingCommand(p, true, commandClock, existing))
    {
      if secondsRemaining <= 0 {
        appendSuffix := true;
        buttons := buttons.(stop := true, run := false);
        ScheduledRunNeverAsks(State(), p, nameClock, existing);
        var ran := RunMencoder(true, p, nameClock, commandClock, existing, playWhileRecording, launch);
        outcome := Some(ran);
      } else {
        status := Waiting(SecsToStr(secondsRemaining));
        outcome := None;
      }
    }

    /** `fileExists` is `os.path.exists(self.filename)`; `launch` is what
        `Popen` gives for the mplayer on the file. */
    method CheckPreviewFile(fileExists: bool, launch: Option<Pid>)
      modifies this
      ensures State() == PreviewFileTick(old(State()), fileExists, launch)
    {
      if fileExists {
        if launch.Some? {
          recordingPid := launch.value;
        }
        timers := timers.(previewFile := false);
      }
    }

    /** `exited` is the watched mplayer's `poll() is not None`. */
    method CheckMplayerPreview(exited: bool)
      modifies this
      ensures State() == PreviewWatchTick(old(State()), exited)
    {
      if exited {
        previewPid := 0;
        timers := timers.(previewWatch := false);
      }
    }

    /** Returns the mplayer command when one is built. */
    method PreviewWithMplayer(p: Params, launch: Option<Pid>) returns (command: Option<seq<string>>)
      modifies this
      ensures State() == PreviewStarted(old(State()), launch)
      ensures command == if old(previewPid) == 0 then Some(MplayerArgs(p)) else None
    {
      command := None;
      if previewPid == 0 {
        var cmd := GenerateMplayerCommand(p);
        command := Some(cmd);
        if launch.Some? {
          previewPid := launch.value;
          timers := timers.(previewWatch := true);
        }
      }
    }
  }

  /** The stale encoder pid, on the object: a recording whose encoder exits
      on its own, then a second recording whose launch fails, leaves a
      window that looks like it is recording with the first encoder's pid. */
  method StaleEncoderAfterNaturalEnd(p: Params, now: DateTime, existing: set<string>, pid: Pid)
    returns (looksRecording: bool, stalePid: nat)
    ensures looksRecording && stalePid == pid
  {
    var w := new MainWindow(IdleButtons, false);
    var first := w.RunMencoder(true, p, now, now, existing, false, Some(pid));
    w.UpdateStatus(false);
    var second := w.RunMencoder(true, p, now, now, existing, false, None);
    looksRecording := w.timers.checker && w.buttons.stop && !w.buttons.run && w.status.Recording?;
    stalePid := w.encoderPid;
  }
}
