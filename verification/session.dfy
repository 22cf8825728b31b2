/**
 * Properties of the recording session that relate several handlers: the
 * state invariant every handler keeps, what Record, a tick and the two
 * ways of stopping leave behind, and how action enablement keeps the user
 * from starting a second recording.
 */
module Session {
  import opened ScopeTypes
  import opened CDivision
  import opened FileNames
  import opened RecentFiles
  import opened ScopeActions
  import opened MainScope

  predicate RecAligned(rec: RecInfo)
  {
    Aligned(rec.ead) && Aligned(rec.fid) && Aligned(rec.digital)
  }

  /** The Recording view lists the EAD, FID and digital waves, in that order. */
  predicate IsRecordingView(v: seq<ViewWave>)
  {
    |v| == 3 && v[0].kind == EadWave && v[1].kind == FidWave && v[2].kind == DigitalWave
  }

  /**
   * The controller invariant: the timer runs exactly while recording; while
   * recording a file is open, it has a recording in progress, the wave
   * shortcuts are held and the Recording view shows the three waves; when
   * not recording there is no recording in progress; an in-progress
   * recording has index-aligned raw and display samples; and while the open
   * file reports its dirty flag, the title bar's marker shows that flag.
   */
  predicate Inv(s: Scope)
  {
    && s.timerRunning == s.recording
    && (s.recording ==> s.file.Some? && NewRec(s).Some? && s.waveRefsHeld && IsRecordingView(RecordingView(s)))
    && (!s.recording ==> NewRec(s).None?)
    && (NewRec(s).Some? ==> RecAligned(NewRec(s).value))
    && (s.dirtyWired ==> s.windowModified == Unsaved(s))
  }

  /**
   * The state after start-up: the new project file `newFile`, Review task,
   * Averages view, not recording, and the recent list read from the settings
   * shown in the menu. This is the corrected start-up: the menu refresh uses
   * the corrected guard, as in `AddRecentFile`, and the start-up file reports
   * its dirty flag like every file installed later.
   */
  function Initial(newFile: EadFile, recent: seq<string>, cfg: Config): (s: Scope)
    requires newFile.newRec.None?
    ensures Inv(s) && s.dirtyWired && s.windowModified == newFile.dirty
    ensures s.file == Some(newFile) && !s.recording && !s.timerRunning && !s.waveRefsHeld
    ensures s.task == Review && s.view == Averages
    ensures s.recent == recent
    ensures |recent| <= cfg.recentCapacity ==> s.menu.enabled == (|recent| > 0) && s.menu.slots == recent
    ensures |recent| > cfg.recentCapacity ==> s.menu == RecentMenu(false, [])
  {
    Scope(Some(newFile), false, false, Review, Averages,
          recent, RefreshMenu(RecentMenu(false, []), recent, cfg.recentCapacity), false, false,
          newFile.dirty, true)
  }

  /**
   * The start-up as the source writes it: the menu refresh uses the strict
   * guard, and the start-up file's dirty-flag reports are never connected,
   * so the marker is set once from its flag and then only by title refreshes.
   */
  function InitialAsWritten(newFile: EadFile, recent: seq<string>, cfg: Config): (s: Scope)
    requires newFile.newRec.None?
    ensures Inv(s) && !s.dirtyWired && s.windowModified == newFile.dirty
    ensures s.file == Some(newFile) && !s.recording && !s.timerRunning && !s.waveRefsHeld
    ensures s.task == Review && s.view == Averages
    ensures s.recent == recent
    ensures |recent| < cfg.recentCapacity ==> s.menu.enabled == (|recent| > 0) && s.menu.slots == recent
    ensures |recent| >= cfg.recentCapacity ==> s.menu == RecentMenu(false, [])
  {
    Scope(Some(newFile), false, false, Review, Averages,
          recent, RefreshMenuAsWritten(RecentMenu(false, []), recent, cfg.recentCapacity), false, false,
          newFile.dirty, false)
  }

  /**
   * While the open file reports its dirty flag the marker is exact, so the
   * check as written and File > New as written agree with the model's.
   */
  lemma WiredCheckAgrees(s: Scope, answer: Answer, env: SaveEnv, newFile: EadFile, cfg: Config)
    requires Inv(s) && s.dirtyWired
    ensures CheckSaveAndContinueAsWritten(s, answer, env, cfg) == CheckSaveAndContinue(s, answer, env, cfg)
    ensures FileNewAsWritten(s, answer, env, newFile, cfg) == FileNew(s, answer, env, newFile, cfg)
  {
  }

  /** The session used by both halves of the marker finding: record, then save with the dialog cancelled. */
  function CancelledSaveSession(s: Scope, cfg: Config): (t: Scope)
    requires ValidConfig(cfg)
    ensures s.file.Some? && s.file.value.filename == "" && !s.recording ==>
              t.file.Some? && !t.recording && t.file.value.handle == s.file.value.handle
  {
    StopRecording(Record(s, cfg, true, true, true, 0), true, false, SaveEnv("", false), cfg)
  }

  /**
   * As written: after start-up, a recording saved with the save-as dialog
   * cancelled is committed and the file is dirty, but the marker stays clear,
   * so File > New asks nothing even when the user would cancel and replaces
   * the file, losing the recording. The model's File > New keeps it.
   */
  lemma AsWrittenNewLosesRecording()
    ensures var cfg := Config(100, 0, 0, 5);
            var f := EadFile(0, "", false, [], None, []);
            var g := EadFile(1, "", false, [], None, []);
            var t := CancelledSaveSession(InitialAsWritten(f, [], cfg), cfg);
            && |Recs(t)| == 1 && Unsaved(t) && !t.windowModified
            && CheckSaveAndContinueAsWritten(t, CancelAnswer, SaveEnv("", false), cfg) == Outcome(true, t)
            && Recs(FileNewAsWritten(t, CancelAnswer, SaveEnv("", false), g, cfg)) == []
            && FileNew(t, CancelAnswer, SaveEnv("", false), g, cfg) == t
  {
  }

  /**
   * Corrected: when the start-up file reports its dirty flag, the same
   * session leaves the marker set, so the check as written asks and Cancel
   * keeps the recording.
   */
  lemma CorrectedNewKeepsRecording()
    ensures var cfg := Config(100, 0, 0, 5);
            var f := EadFile(0, "", false, [], None, []);
            var g := EadFile(1, "", false, [], None, []);
            var t := CancelledSaveSession(Initial(f, [], cfg), cfg);
            && |Recs(t)| == 1 && Unsaved(t) && t.windowModified
            && FileNewAsWritten(t, CancelAnswer, SaveEnv("", false), g, cfg) == t
  {
  }

  lemma SetFileKeepsInv(s: Scope, f: EadFile, cfg: Config)
    requires Inv(s) && f.newRec.None?
    ensures Inv(SetFile(s, f, cfg))
  {
  }

  lemma OpenKeepsInv(s: Scope, found: bool, result: LoadSaveResult, loaded: EadFile, cfg: Config)
    requires Inv(s) && loaded.newRec.None?
    ensures Inv(Open(s, found, result, loaded, cfg))
  {
  }

  lemma FileNewKeepsInv(s: Scope, answer: Answer, env: SaveEnv, newFile: EadFile, cfg: Config)
    requires Inv(s) && newFile.newRec.None?
    ensures Inv(FileNew(s, answer, env, newFile, cfg))
  {
    var c := CheckSaveAndContinue(s, answer, env, cfg);
    assert Inv(c.scope);
  }

  lemma FileOpenKeepsInv(s: Scope, answer: Answer, env: SaveEnv, dialogName: string,
                         found: bool, result: LoadSaveResult, loaded: EadFile, cfg: Config)
    requires Inv(s) && loaded.newRec.None?
    ensures Inv(FileOpen(s, answer, env, dialogName, found, result, loaded, cfg))
  {
    var c := CheckSaveAndContinue(s, answer, env, cfg);
    assert Inv(c.scope);
  }

  /** Saving, by name or through the save-as dialog, keeps the invariant. */
  lemma FileSaveKeepsInv(s: Scope, env: SaveEnv, cfg: Config)
    requires Inv(s)
    ensures Inv(FileSave(s, env, cfg).scope)
    ensures Inv(FileSaveAs(s, env, cfg).scope)
  {
  }

  /**
   * After a successful save-as the file has a name, so the next save writes
   * under that name without the dialog; when it succeeds the file is clean
   * again and the recent list, already headed by that name, stays as it is.
   */
  lemma SaveAsThenSave(s: Scope, env: SaveEnv, env2: SaveEnv, cfg: Config)
    requires FileSaveAs(s, env, cfg).ok
    ensures var t := FileSaveAs(s, env, cfg).scope;
            var u := FileSave(t, env2, cfg);
            && u == Save(t, WithEadExtension(env.dialogName), env2.saveOk, cfg)
            && (u.ok <==> env2.saveOk)
            && (u.ok ==> u.scope.file == t.file && u.scope.recent == t.recent)
  {
    var name := WithEadExtension(env.dialogName);
    var t := FileSaveAs(s, env, cfg).scope;
    assert t.file.value.filename == name;
    assert name != "" by {
      assert HasEadExtension(name);
    }
    if env2.saveOk {
      PushIdempotent(s.recent, name, cfg.recentCapacity);
    }
  }

  lemma RecordKeepsInv(s: Scope, cfg: Config, linked: bool, ready: bool, accepted: bool, now: int)
    requires Inv(s) && ValidConfig(cfg)
    ensures Inv(Record(s, cfg, linked, ready, accepted, now))
  {
  }

  lemma StopKeepsInv(s: Scope, save: bool, autoStop: bool, env: SaveEnv, cfg: Config)
    requires Inv(s)
    ensures Inv(StopRecording(s, save, autoStop, env, cfg))
  {
  }

  lemma TickKeepsInv(s: Scope, cfg: Config, b: Batch, env: SaveEnv)
    requires Inv(s) && ValidConfig(cfg) && WellFormedBatch(b)
    ensures Inv(Tick(s, cfg, b, env))
  {
    if s.timerRunning && b.checkOk && b.convertOk {
      var rec := NewRec(s).value;
      var rec' := AppendBatch(rec, b);
      assert RecAligned(rec');
      var s1 := s.(file := Some(s.file.value.(newRec := Some(rec'))));
      assert Inv(s1);
      StopKeepsInv(s1, true, true, env, cfg);
    }
  }

  /** Whenever Record is enabled, starting a recording cannot drop samples: none is in progress. */
  lemma RecordEnabledOnlyWhenIdle(s: Scope, hardwareAvailable: bool)
    requires Inv(s) && ActionsOf(s, hardwareAvailable).recordRecord
    ensures !s.recording && !s.timerRunning && NewRec(s).None?
  {
  }

  /**
   * The Record handler itself does not refuse a running session: triggered
   * while recording it throws away the samples gathered so far. The
   * disabled Record action is the only guard.
   */
  lemma RecordWhileRecordingDropsSamples(s: Scope, cfg: Config, now: int)
    requires Inv(s) && ValidConfig(cfg) && s.recording
    ensures NewRec(Record(s, cfg, true, true, true, now)) == Some(FreshRecording(now))
    ensures Record(s, cfg, true, true, true, now).recording
    ensures !ActionsOf(s, true).recordRecord
  {
  }

  /** After a successful start the stop actions are enabled and Record, New, Open and the sample project are not. */
  lemma ActionsWhileRecording(s: Scope, cfg: Config, now: int, hardwareAvailable: bool)
    requires Inv(s) && ValidConfig(cfg) && s.file.Some?
    ensures var a := ActionsOf(Record(s, cfg, true, true, true, now), hardwareAvailable);
            a.recordSave && a.recordDiscard && !a.recordRecord && !a.recordHardwareSettings
            && !a.fileNew && !a.fileOpen && !a.fileLoadSampleProject
  {
  }

  /** After either kind of stop Record is enabled again and the stop actions are not. */
  lemma ActionsAfterStop(s: Scope, save: bool, autoStop: bool, env: SaveEnv, cfg: Config, hardwareAvailable: bool)
    requires Inv(s) && s.recording
    ensures var a := ActionsOf(StopRecording(s, save, autoStop, env, cfg), hardwareAvailable);
            a.recordRecord && a.recordHardwareSettings && !a.recordSave && !a.recordDiscard
            && a.fileNew && a.fileOpen && a.fileLoadSampleProject
  {
  }

  /** A second stop changes nothing, whatever its arguments. */
  lemma StopTwiceIsStopOnce(s: Scope, save: bool, autoStop: bool, env: SaveEnv,
                            save2: bool, autoStop2: bool, env2: SaveEnv, cfg: Config)
    ensures var t := StopRecording(s, save, autoStop, env, cfg);
            StopRecording(t, save2, autoStop2, env2, cfg) == t
  {
  }

  /**
   * Saving a recording adds exactly that recording to the committed list,
   * whether or not writing the file then succeeds.
   */
  lemma CommitAddsExactlyOne(s: Scope, autoStop: bool, env: SaveEnv, cfg: Config)
    requires Inv(s) && s.recording
    ensures var t := StopRecording(s, true, autoStop, env, cfg);
            |Recs(t)| == |Recs(s)| + 1 && Recs(t)[..|Recs(s)|] == Recs(s)
            && Recs(t)[|Recs(s)|] == NewRec(s).value
            && t.task == Review && t.view == Recording
  {
  }

  /**
   * Starting and then discarding a recording leaves the committed
   * recordings as they were before the start, an empty Recording view and
   * no recording in progress.
   */
  lemma StartThenDiscard(s: Scope, cfg: Config, now: int, env: SaveEnv)
    requires Inv(s) && ValidConfig(cfg) && s.file.Some? && !s.recording
    ensures var t := StopRecording(Record(s, cfg, true, true, true, now), false, false, env, cfg);
            Recs(t) == Recs(s) && RecordingView(t) == [] && NewRec(t).None?
            && !t.recording && !t.timerRunning && !t.waveRefsHeld
  {
  }

  /** A tick that does not end the recording never touches the committed recordings. */
  lemma TickKeepsCommitted(s: Scope, cfg: Config, b: Batch, env: SaveEnv)
    requires Inv(s) && ValidConfig(cfg)
    ensures Tick(s, cfg, b, env).recording ==> Recs(Tick(s, cfg, b, env)) == Recs(s)
  {
  }

  /**
   * A committed recording followed by a new start: the committed one stays,
   * and the new recording in progress is empty (nothing carries over).
   */
  lemma CommitThenRestartIsFresh(s: Scope, env: SaveEnv, cfg: Config, now: int)
    requires Inv(s) && ValidConfig(cfg) && s.recording
    ensures var t := Record(StopRecording(s, true, false, env, cfg), cfg, true, true, true, now);
            && Recs(t) == Recs(s) + [NewRec(s).value]
            && NewRec(t) == Some(FreshRecording(now))
            && t.recording
  {
    var stopped := StopRecording(s, true, false, env, cfg);
    assert stopped.file.Some?;
  }

  /**
   * One tick while recording: the poll's samples are appended to the
   * recording in progress (digital words, then EAD, then FID); the recording
   * ends, committed with those samples, exactly when the duration limit is
   * positive and the EAD wave now holds at least limit * 60 * rate samples.
   */
  lemma {:induction false} TickAppendsAndAutoStops(s: Scope, cfg: Config, b: Batch, env: SaveEnv)
    requires Inv(s) && ValidConfig(cfg) && s.recording && b.checkOk && b.convertOk
    ensures var rec := AppendBatch(NewRec(s).value, b);
            var t := Tick(s, cfg, b, env);
            var limit := cfg.recordingDuration;
            var stops := limit > 0 && |rec.ead.raw| >= limit * 60 * cfg.samplesPerSecond;
            && (!stops ==> t.recording && NewRec(t) == Some(rec) && Recs(t) == Recs(s))
            && (stops ==> !t.recording && !t.timerRunning && Recs(t) == Recs(s) + [rec])
  {
    var rec := AppendBatch(NewRec(s).value, b);
    AutoStopThreshold(|rec.ead.raw|, cfg.samplesPerSecond, cfg.recordingDuration);
    var s1 := s.(file := Some(s.file.value.(newRec := Some(rec))));
    assert Tick(s, cfg, b, env) == (if AutoStopDue(|rec.ead.raw|, cfg.samplesPerSecond, cfg.recordingDuration)
                                    then StopRecording(s1, true, true, env, cfg) else s1);
  }

  /** Without a positive duration limit a tick never ends the recording. */
  lemma TickWithoutLimitKeepsRecording(s: Scope, cfg: Config, b: Batch, env: SaveEnv)
    requires Inv(s) && ValidConfig(cfg) && s.recording && cfg.recordingDuration <= 0
    ensures Tick(s, cfg, b, env).recording
  {
  }

  /**
   * The digital wave of a tick grows by exactly the poll's word count, on raw
   * and display alike: in the recording still in progress, or in the
   * recording the tick committed when it reached the duration limit.
   */
  lemma TickDigitalGrowth(s: Scope, cfg: Config, b: Batch, env: SaveEnv)
    requires Inv(s) && ValidConfig(cfg) && s.recording && b.checkOk && b.convertOk
    ensures var before := NewRec(s).value.digital;
            var t := Tick(s, cfg, b, env);
            && (t.recording ==> NewRec(t).Some? && DigitalGrown(before, NewRec(t).value.digital, |b.digital|))
            && (!t.recording ==> |Recs(t)| == |Recs(s)| + 1
                                 && DigitalGrown(before, Recs(t)[|Recs(s)|].digital, |b.digital|))
  {
    TickAppendsAndAutoStops(s, cfg, b, env);
  }

  predicate DigitalGrown(before: Wave, after: Wave, n: nat)
  {
    |after.raw| == |before.raw| + n && |after.display| == |before.display| + n
  }

  /** While recording, the file handlers may save but never replace the file or touch the session. */
  lemma FileHandlersRefusedWhileRecording(s: Scope, answer: Answer, env: SaveEnv, newFile: EadFile,
                                          found: bool, result: LoadSaveResult, loaded: EadFile, cfg: Config)
    requires Inv(s) && s.recording
    ensures var t := FileNew(s, answer, env, newFile, cfg);
            SameSession(s, t) && Recs(t) == Recs(s) && t.file.value.handle == s.file.value.handle
    ensures var t := Open(s, found, result, loaded, cfg);
            t == s
  {
    var c := CheckSaveAndContinue(s, answer, env, cfg);
    assert c.scope.file.Some? && c.scope.file.value.handle == s.file.value.handle;
  }

  /**
   * Switching task or view is not refused while recording, but it never
   * disturbs the session: the invariant holds and recording goes on.
   */
  lemma ViewSwitchKeepsSession(s: Scope, task: Task, view: View)
    requires Inv(s)
    ensures var t := SetViewType(SetTaskType(s, task), view);
            Inv(t) && SameSession(s, t) && Recs(t) == Recs(s) && t.task == task && t.view == view
  {
  }

  /** A failed load leaves the open file, the task, the view and the recent list untouched. */
  lemma FailedLoadKeepsFile(s: Scope, loaded: EadFile, cfg: Config)
    ensures Open(s, true, LoadSaveFailed, loaded, cfg) == s
    ensures Open(s, false, LoadSaveOk, loaded, cfg) == s
  {
  }
}
