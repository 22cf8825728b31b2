/**
 * The handlers of the main-window controller as pure transitions over the
 * controller state. Dialog answers, hardware results and load/save outcomes
 * arrive as parameters.
 */
module MainScope {
  import opened ScopeTypes
  import opened CDivision
  import opened FileNames
  import opened RecentFiles

  /** A handler's boolean answer together with the state it leaves behind. */
  datatype Outcome = Outcome(ok: bool, scope: Scope)

  /** A file is open and it has unsaved changes. */
  predicate Unsaved(s: Scope)
  {
    s.file.Some? && s.file.value.dirty
  }

  /** The committed recordings, or none when no file is open. */
  function Recs(s: Scope): (recs: seq<RecInfo>)
  {
    if s.file.Some? then s.file.value.recs else []
  }

  /** The recording in progress, if a file is open and has one. */
  function NewRec(s: Scope): (rec: Option<RecInfo>)
  {
    if s.file.Some? then s.file.value.newRec else None
  }

  /** The wave list of the open file's Recording view. */
  function RecordingView(s: Scope): (v: seq<ViewWave>)
  {
    if s.file.Some? then s.file.value.recordingView else []
  }

  /**
   * Refreshing the window title: the unsaved-changes marker is set from the
   * open file's dirty flag (false without a file); nothing else changes.
   */
  function TitleUpdated(s: Scope): (r: Scope)
    ensures r.windowModified == Unsaved(r) && Unsaved(r) == Unsaved(s)
    ensures r.(windowModified := s.windowModified) == s
  {
    s.(windowModified := Unsaved(s))
  }

  /**
   * The open file's contents become `g`. When the file reports changes of
   * its dirty flag and the flag did change, the controller refreshes the
   * window title and with it the marker; otherwise the marker stays.
   */
  function FileUpdated(s: Scope, g: EadFile): (r: Scope)
    requires s.file.Some?
    ensures r.file == Some(g)
    ensures s.dirtyWired && s.file.value.dirty != g.dirty ==> r.windowModified == g.dirty
    ensures !(s.dirtyWired && s.file.value.dirty != g.dirty) ==> r.windowModified == s.windowModified
    ensures r.(file := s.file, windowModified := s.windowModified) == s
  {
    var s1 := s.(file := Some(g));
    if s.dirtyWired && s.file.value.dirty != g.dirty then TitleUpdated(s1) else s1
  }

  /** The recording-session part of the state: what no file or view handler may touch. */
  predicate SameSession(s: Scope, t: Scope)
  {
    s.recording == t.recording && s.timerRunning == t.timerRunning
    && s.waveRefsHeld == t.waveRefsHeld && NewRec(s) == NewRec(t)
    && RecordingView(s) == RecordingView(t)
  }

  function SetTaskType(s: Scope, task: Task): (r: Scope)
    ensures r.task == task
    ensures r.(task := s.task) == s
  {
    s.(task := task)
  }

  function SetViewType(s: Scope, view: View): (r: Scope)
    ensures r.view == view
    ensures r.(view := s.view) == s
  {
    s.(view := view)
  }

  /** Sets the recording flag; a change of the flag starts or stops the polling timer with it. */
  function SetIsRecording(s: Scope, recording: bool): (r: Scope)
    ensures r.recording == recording
    ensures s.timerRunning == s.recording ==> r.timerRunning == r.recording
    ensures r.(recording := s.recording, timerRunning := s.timerRunning) == s
  {
    if recording != s.recording then s.(recording := recording, timerRunning := recording) else s
  }

  /**
   * Puts `name` at the head of the recent-files list and refreshes the menu;
   * an empty name does nothing. The refresh uses the corrected guard
   * (`RefreshMenu`), so a list that fills every slot is shown.
   */
  function AddRecentFile(s: Scope, name: string, cfg: Config): (r: Scope)
    ensures name == "" ==> r == s
    ensures name != "" ==> r.recent == Push(s.recent, name, cfg.recentCapacity)
    ensures name != "" && cfg.recentCapacity >= 1 ==>
              |r.recent| >= 1 && r.recent[0] == name && r.menu.enabled
              && |r.menu.slots| >= |r.recent| && r.menu.slots[..|r.recent|] == r.recent
    ensures r.(recent := s.recent, menu := s.menu) == s
  {
    if name == "" then s
    else
      var list := Push(s.recent, name, cfg.recentCapacity);
      s.(recent := list, menu := RefreshMenu(s.menu, list, cfg.recentCapacity))
  }

  /**
   * `AddRecentFile` with the menu refresh as the source writes it: the menu
   * is rewritten only while the trimmed list is strictly shorter than the
   * number of slots, and left as it was once the list fills them.
   */
  function AddRecentFileAsWritten(s: Scope, name: string, cfg: Config): (r: Scope)
    ensures name == "" ==> r == s
    ensures name != "" ==> r.recent == Push(s.recent, name, cfg.recentCapacity)
    ensures name != "" && |r.recent| < cfg.recentCapacity ==> r.menu == Refreshed(s.menu, r.recent)
    ensures name != "" && |r.recent| >= cfg.recentCapacity ==> r.menu == s.menu
    ensures r.(recent := s.recent, menu := s.menu) == s
  {
    if name == "" then s
    else
      var list := Push(s.recent, name, cfg.recentCapacity);
      s.(recent := list, menu := RefreshMenuAsWritten(s.menu, list, cfg.recentCapacity))
  }

  /**
   * The two handlers keep the same list and differ only when the push fills
   * it: then the corrected one shows the pushed name in the first slot, while
   * the one as written keeps a menu that did not.
   */
  lemma AddRecentFileVersionsAgree(s: Scope, name: string, cfg: Config)
    ensures AddRecentFile(s, name, cfg).recent == AddRecentFileAsWritten(s, name, cfg).recent
    ensures name == "" || |AddRecentFile(s, name, cfg).recent| < cfg.recentCapacity ==>
              AddRecentFile(s, name, cfg) == AddRecentFileAsWritten(s, name, cfg)
    ensures name != "" && cfg.recentCapacity >= 1
            && |AddRecentFile(s, name, cfg).recent| == cfg.recentCapacity
            && !(s.menu.enabled && |s.menu.slots| >= 1 && s.menu.slots[0] == name) ==>
              AddRecentFile(s, name, cfg) != AddRecentFileAsWritten(s, name, cfg)
  {
  }

  /**
   * Installs `f` as the open file. Refused while recording; installing the
   * file already open changes nothing; otherwise the task returns to Review,
   * the view to Averages, the file's name goes to the recent list, the
   * Recording chart is disabled, the file's dirty-flag reports are connected
   * and the title refresh sets the marker from the new file.
   */
  function SetFile(s: Scope, f: EadFile, cfg: Config): (r: Scope)
    ensures s.recording ==> r == s
    ensures !s.recording && !(s.file.Some? && s.file.value.handle == f.handle) ==>
              && r.file == Some(f)
              && r.task == Review && r.view == Averages
              && !r.recordingChartEnabled
              && r.recent == Push(s.recent, f.filename, cfg.recentCapacity)
              && r.recording == s.recording && r.timerRunning == s.timerRunning
              && r.waveRefsHeld == s.waveRefsHeld
              && r.dirtyWired && r.windowModified == f.dirty
    ensures s.file.Some? && s.file.value.handle == f.handle ==> r == s
  {
    if s.recording then s
    else if s.file.Some? && s.file.value.handle == f.handle then s
    else
      var s1 := TitleUpdated(s.(file := Some(f), dirtyWired := true));
      var s2 := SetViewType(SetTaskType(s1, Review), Averages);
      var s3 := AddRecentFile(s2, f.filename, cfg);
      s3.(recordingChartEnabled := false)
  }

  /**
   * Opening a project path: nothing happens when the path does not exist or
   * the load fails; a successful load installs the loaded file.
   */
  function Open(s: Scope, found: bool, result: LoadSaveResult, loaded: EadFile, cfg: Config): (r: Scope)
    ensures !found || result == LoadSaveFailed ==> r == s
    ensures found && result == LoadSaveOk ==> r == SetFile(s, loaded, cfg)
    ensures r.file == s.file || r.file == Some(loaded)
  {
    if !found then s
    else if result == LoadSaveOk then SetFile(s, loaded, cfg)
    else s
  }

  /**
   * Writing the open file under `name`. Success adopts the name, clears the
   * dirty flag and records the name as most recent; failure leaves the file
   * as it was. Either way the window title is refreshed, so the marker
   * follows the file's dirty flag afterwards. Without a file nothing happens.
   */
  function Save(s: Scope, name: string, saveOk: bool, cfg: Config): (r: Outcome)
    ensures r.ok <==> s.file.Some? && saveOk
    ensures s.file.None? ==> r == Outcome(false, s)
    ensures s.file.Some? ==> r.scope.file.Some? && r.scope.file.value.handle == s.file.value.handle
    ensures s.file.Some? && !saveOk ==> r.scope == TitleUpdated(s)
    ensures s.file.Some? ==> r.scope.windowModified == Unsaved(r.scope)
    ensures r.ok ==> r.scope.file.Some? && r.scope.file.value.filename == name && !r.scope.file.value.dirty
    ensures r.ok ==> r.scope.recent == Push(s.recent, name, cfg.recentCapacity) && !r.scope.windowModified
    ensures Recs(r.scope) == Recs(s) && SameSession(s, r.scope)
    ensures r.scope.task == s.task && r.scope.view == s.view
    ensures r.scope.recordingChartEnabled == s.recordingChartEnabled && r.scope.dirtyWired == s.dirtyWired
  {
    if s.file.None? then Outcome(false, s)
    else if saveOk then
      var s1 := s.(file := Some(s.file.value.(filename := name, dirty := false)));
      var s2 := AddRecentFile(s1, name, cfg);
      assert s2.file == s1.file && SameSession(s, s2);
      Outcome(true, TitleUpdated(s2))
    else Outcome(false, TitleUpdated(s))
  }

  /** Save-as: a cancelled dialog saves nothing; otherwise the name gets the ".ead" extension rule. */
  function FileSaveAs(s: Scope, env: SaveEnv, cfg: Config): (r: Outcome)
    ensures env.dialogName == "" ==> r == Outcome(false, s)
    ensures r.ok <==> env.dialogName != "" && s.file.Some? && env.saveOk
    ensures r.ok ==> r.scope.file.Some? && r.scope.file.value.filename == WithEadExtension(env.dialogName)
    ensures env.dialogName != "" ==> r == Save(s, WithEadExtension(env.dialogName), env.saveOk, cfg)
    ensures !r.ok ==> r.scope.(windowModified := s.windowModified) == s
    ensures Recs(r.scope) == Recs(s) && SameSession(s, r.scope)
  {
    if env.dialogName == "" then Outcome(false, s)
    else Save(s, WithEadExtension(env.dialogName), env.saveOk, cfg)
  }

  /** Save: a file without a name goes through save-as; otherwise it is written under its own name. */
  function FileSave(s: Scope, env: SaveEnv, cfg: Config): (r: Outcome)
    ensures s.file.None? ==> r == Outcome(false, s)
    ensures s.file.Some? && s.file.value.filename != "" ==>
              (r.ok <==> env.saveOk) && (r.ok ==> r.scope.file.Some? && r.scope.file.value.filename == s.file.value.filename)
    ensures s.file.Some? && s.file.value.filename == "" ==> r == FileSaveAs(s, env, cfg)
    ensures s.file.Some? && s.file.value.filename != "" ==> r == Save(s, s.file.value.filename, env.saveOk, cfg)
    ensures !r.ok ==> r.scope.(windowModified := s.windowModified) == s
    ensures Recs(r.scope) == Recs(s) && SameSession(s, r.scope)
    ensures r.scope.task == s.task && r.scope.view == s.view
    ensures r.scope.recordingChartEnabled == s.recordingChartEnabled
  {
    if s.file.None? then Outcome(false, s)
    else if s.file.value.filename == "" then FileSaveAs(s, env, cfg)
    else Save(s, s.file.value.filename, env.saveOk, cfg)
  }

  /**
   * Asks about unsaved changes before a file is replaced. With no unsaved
   * changes, or when the user discards them, the caller continues; Cancel
   * stops it; Save continues only if the save succeeds. Whether there are
   * unsaved changes is read from the file's dirty flag, which is what the
   * title bar's marker shows whenever the file reports its flag changes.
   */
  function CheckSaveAndContinue(s: Scope, answer: Answer, env: SaveEnv, cfg: Config): (r: Outcome)
    ensures !Unsaved(s) ==> r == Outcome(true, s)
    ensures Unsaved(s) && answer == CancelAnswer ==> r == Outcome(false, s)
    ensures answer == DiscardAnswer ==> r == Outcome(true, s)
    ensures Unsaved(s) && answer == SaveAnswer ==> r == FileSave(s, env, cfg)
    ensures Recs(r.scope) == Recs(s) && SameSession(s, r.scope)
  {
    if Unsaved(s) then
      match answer
      case SaveAnswer => FileSave(s, env, cfg)
      case CancelAnswer => Outcome(false, s)
      case DiscardAnswer => Outcome(true, s)
    else Outcome(true, s)
  }

  /**
   * The unsaved-changes check as the source writes it: it reads the title
   * bar's marker, which lags behind the dirty flag of a file that does not
   * report its flag changes.
   */
  function CheckSaveAndContinueAsWritten(s: Scope, answer: Answer, env: SaveEnv, cfg: Config): (r: Outcome)
    ensures !s.windowModified ==> r == Outcome(true, s)
    ensures s.windowModified && answer == CancelAnswer ==> r == Outcome(false, s)
    ensures answer == DiscardAnswer ==> r == Outcome(true, s)
    ensures s.windowModified && answer == SaveAnswer ==> r == FileSave(s, env, cfg)
    ensures s.windowModified == Unsaved(s) ==> r == CheckSaveAndContinue(s, answer, env, cfg)
  {
    if s.windowModified then
      match answer
      case SaveAnswer => FileSave(s, env, cfg)
      case CancelAnswer => Outcome(false, s)
      case DiscardAnswer => Outcome(true, s)
    else Outcome(true, s)
  }

  /** File > New: after the unsaved-changes check, install a new empty file. */
  function FileNew(s: Scope, answer: Answer, env: SaveEnv, newFile: EadFile, cfg: Config): (r: Scope)
    ensures s.recording ==> SameSession(s, r) && Recs(r) == Recs(s)
    ensures !CheckSaveAndContinue(s, answer, env, cfg).ok ==> r == CheckSaveAndContinue(s, answer, env, cfg).scope
    ensures var c := CheckSaveAndContinue(s, answer, env, cfg);
            c.ok ==> r == SetFile(c.scope, newFile, cfg)
    ensures !s.recording && CheckSaveAndContinue(s, answer, env, cfg).ok
            && (s.file.Some? ==> s.file.value.handle != newFile.handle) ==>
              r.file == Some(newFile) && r.task == Review && r.view == Averages && !r.recordingChartEnabled
  {
    var c := CheckSaveAndContinue(s, answer, env, cfg);
    if c.ok then SetFile(c.scope, newFile, cfg) else c.scope
  }

  /** File > New with the unsaved-changes check as written. */
  function FileNewAsWritten(s: Scope, answer: Answer, env: SaveEnv, newFile: EadFile, cfg: Config): (r: Scope)
    ensures var c := CheckSaveAndContinueAsWritten(s, answer, env, cfg);
            (c.ok ==> r == SetFile(c.scope, newFile, cfg)) && (!c.ok ==> r == c.scope)
    ensures s.windowModified == Unsaved(s) ==> r == FileNew(s, answer, env, newFile, cfg)
  {
    var c := CheckSaveAndContinueAsWritten(s, answer, env, cfg);
    if c.ok then SetFile(c.scope, newFile, cfg) else c.scope
  }

  /** File > Open: after the unsaved-changes check, open the path chosen in the dialog ("" = cancelled). */
  function FileOpen(s: Scope, answer: Answer, env: SaveEnv, dialogName: string,
                    found: bool, result: LoadSaveResult, loaded: EadFile, cfg: Config): (r: Scope)
    ensures s.recording ==> SameSession(s, r) && Recs(r) == Recs(s)
    ensures dialogName == "" ==> r == CheckSaveAndContinue(s, answer, env, cfg).scope
    ensures !CheckSaveAndContinue(s, answer, env, cfg).ok ==> r == CheckSaveAndContinue(s, answer, env, cfg).scope
    ensures var c := CheckSaveAndContinue(s, answer, env, cfg);
            c.ok && dialogName != "" ==> r == Open(c.scope, found, result, loaded, cfg)
  {
    var c := CheckSaveAndContinue(s, answer, env, cfg);
    if c.ok && dialogName != "" then Open(c.scope, found, result, loaded, cfg) else c.scope
  }

  /** A recording with three empty waves, stamped with the start time. */
  function FreshRecording(now: int): (rec: RecInfo)
    ensures rec.timeOfRecording == now
    ensures rec.ead.raw == [] && rec.fid.raw == [] && rec.digital.raw == []
    ensures rec.ead.display == [] && rec.fid.display == [] && rec.digital.display == []
  {
    RecInfo(now, EmptyWave, EmptyWave, EmptyWave)
  }

  /** The Recording view of a new recording: EAD, FID (shifted by the GC delay), digital. */
  function RecordingViewFor(cfg: Config): (v: seq<ViewWave>)
    requires ValidConfig(cfg)
    ensures |v| == 3
    ensures v[0].kind == EadWave && v[1].kind == FidWave && v[2].kind == DigitalWave
    ensures v[0].shift == 0 && v[2].shift == 0
    ensures v[1].shift == -TruncDiv(cfg.gcDelayMs, TruncDiv(1000, cfg.samplesPerSecond))
  {
    [ViewWave(EadWave, 0), ViewWave(FidWave, FidShift(cfg.gcDelayMs, cfg.samplesPerSecond)), ViewWave(DigitalWave, 0)]
  }

  /**
   * The Record action. Nothing happens without an open file, without a
   * hardware link, when the hardware does not become ready or when the
   * preview dialog is cancelled. Otherwise any in-progress recording is
   * dropped, a new one is created, the Recording view is filled with its
   * three waves, the task becomes Review, the view Recording, and recording
   * (with the timer) starts. The handler itself does not check whether a
   * recording is already running.
   */
  function Record(s: Scope, cfg: Config, hardwareLinked: bool, hardwareReady: bool,
                  previewAccepted: bool, now: int): (r: Scope)
    requires ValidConfig(cfg)
    ensures s.file.None? || !hardwareLinked || !hardwareReady || !previewAccepted ==> r == s
    ensures s.file.Some? && hardwareLinked && hardwareReady && previewAccepted ==>
              && r.file.Some?
              && r.file.value.newRec == Some(FreshRecording(now))
              && r.file.value.recs == s.file.value.recs
              && r.file.value.recordingView == RecordingViewFor(cfg)
              && r.task == Review && r.view == Recording
              && r.recording && r.recordingChartEnabled && r.waveRefsHeld
              && r.recent == s.recent && r.menu == s.menu
              && r.windowModified == s.windowModified && r.dirtyWired == s.dirtyWired
              && r.file.value.(newRec := None, recordingView := []) == s.file.value.(newRec := None, recordingView := [])
              && (s.timerRunning == s.recording ==> r.timerRunning)
  {
    if s.file.None? || !hardwareLinked || !hardwareReady || !previewAccepted then s
    else
      var f := s.file.value.(newRec := None);
      var f' := f.(newRec := Some(FreshRecording(now)), recordingView := RecordingViewFor(cfg));
      var s1 := s.(file := Some(f'), waveRefsHeld := true, recordingChartEnabled := true);
      SetIsRecording(SetViewType(SetTaskType(s1, Review), Recording), true)
  }

  /**
   * Moves the in-progress recording into the committed list, marking the
   * file as changed. A file with no recording in progress is left as it is.
   */
  function CommitNewRecording(f: EadFile): (g: EadFile)
    ensures f.newRec.Some? ==> g.recs == f.recs + [f.newRec.value] && g.dirty
    ensures f.newRec.None? ==> g == f
    ensures g.newRec.None?
    ensures g.filename == f.filename && g.handle == f.handle && g.recordingView == f.recordingView
  {
    match f.newRec
    case None => f
    case Some(rec) => f.(recs := f.recs + [rec], newRec := None, dirty := true)
  }

  /**
   * The save branch of a stop, once recording is switched off: the recording
   * in progress is committed, the Recording view of the Review task is shown
   * and the file is saved, under its name or through save-as.
   */
  function CommitAndSave(s: Scope, env: SaveEnv, cfg: Config): (r: Scope)
    requires s.file.Some?
    ensures r.file.Some? && r.file.value.handle == s.file.value.handle && NewRec(r).None?
    ensures r.task == Review && r.view == Recording
    ensures Recs(r) == Recs(s) + (if NewRec(s).Some? then [NewRec(s).value] else [])
    ensures r.recording == s.recording && r.timerRunning == s.timerRunning && r.waveRefsHeld == s.waveRefsHeld
    ensures r.file.value.recordingView == s.file.value.recordingView
    ensures r.recordingChartEnabled == s.recordingChartEnabled && r.dirtyWired == s.dirtyWired
    ensures s.file.value.filename != "" ==>
              && r.file.value.filename == s.file.value.filename
              && (env.saveOk ==> !r.file.value.dirty
                                 && r.recent == Push(s.recent, s.file.value.filename, cfg.recentCapacity))
              && (!env.saveOk ==> r.recent == s.recent && r.menu == s.menu)
    ensures s.file.value.filename == "" ==>
              && (env.dialogName != "" && env.saveOk ==>
                    r.file.value.filename == WithEadExtension(env.dialogName) && !r.file.value.dirty
                    && r.recent == Push(s.recent, WithEadExtension(env.dialogName), cfg.recentCapacity))
              && (env.dialogName == "" || !env.saveOk ==> r.recent == s.recent && r.menu == s.menu)
    ensures !((s.file.value.filename != "" || env.dialogName != "") && env.saveOk) ==>
              r.file == Some(CommitNewRecording(s.file.value))
    ensures s.file.value.filename != "" || env.dialogName != "" ==> r.windowModified == Unsaved(r)
    ensures s.file.value.filename == "" && env.dialogName == "" ==>
              && (s.dirtyWired && s.windowModified == Unsaved(s) ==> r.windowModified == Unsaved(r))
              && (!s.dirtyWired ==> r.windowModified == s.windowModified)
  {
    var s1 := FileUpdated(s, CommitNewRecording(s.file.value));
    var s2 := SetViewType(SetTaskType(s1, Review), Recording);
    FileSave(s2, env, cfg).scope
  }

  /**
   * Ends a recording. Refused without a file or when not recording.
   * Otherwise recording and the timer stop; with `save` the recording is
   * committed, the Recording view of the Review task is shown and the file
   * is saved (a failed or cancelled save does not undo the commit, and the
   * file stays dirty); without `save` the Recording view is emptied, the
   * recording is dropped and the wave shortcuts are released. `autoStop`
   * only chooses the message shown. The commit refreshes the marker only if
   * the file reports its dirty flag; a save that reaches the write refreshes
   * it in any case.
   */
  function StopRecording(s: Scope, save: bool, autoStop: bool, env: SaveEnv, cfg: Config): (r: Scope)
    ensures s.file.None? || !s.recording ==> r == s
    ensures s.file.Some? && s.recording ==> !r.recording && r.file.Some? && NewRec(r).None?
    ensures s.file.Some? && s.recording ==> !r.timerRunning
    ensures s.file.Some? && s.recording ==> r.file.Some? && r.file.value.handle == s.file.value.handle
    ensures s.file.Some? && s.recording ==>
              r.recordingChartEnabled == s.recordingChartEnabled && r.dirtyWired == s.dirtyWired
    ensures s.file.Some? && s.recording && save
            && !((s.file.value.filename != "" || env.dialogName != "") && env.saveOk) ==>
              r.file == Some(CommitNewRecording(s.file.value))
    ensures s.file.Some? && s.recording && save && (s.file.value.filename != "" || env.dialogName != "") ==>
              r.windowModified == Unsaved(r)
    ensures s.file.Some? && s.recording && save && s.file.value.filename == "" && env.dialogName == "" ==>
              && (s.dirtyWired && s.windowModified == Unsaved(s) ==> r.windowModified == Unsaved(r))
              && (!s.dirtyWired ==> r.windowModified == s.windowModified)
    ensures s.file.Some? && s.recording && save && s.file.value.filename != "" ==>
              && r.file.Some? && r.file.value.filename == s.file.value.filename
              && (env.saveOk ==> !r.file.value.dirty
                                 && r.recent == Push(s.recent, s.file.value.filename, cfg.recentCapacity))
              && (!env.saveOk ==> r.recent == s.recent && r.menu == s.menu)
    ensures s.file.Some? && s.recording && save && s.file.value.filename == "" ==>
              && r.file.Some?
              && (env.dialogName != "" && env.saveOk ==>
                    r.file.value.filename == WithEadExtension(env.dialogName) && !r.file.value.dirty
                    && r.recent == Push(s.recent, WithEadExtension(env.dialogName), cfg.recentCapacity))
              && (env.dialogName == "" || !env.saveOk ==> r.recent == s.recent && r.menu == s.menu)
    ensures s.file.Some? && s.recording && save ==>
              && r.task == Review && r.view == Recording
              && Recs(r) == Recs(s) + (if NewRec(s).Some? then [NewRec(s).value] else [])
              && r.waveRefsHeld == s.waveRefsHeld
              && r.file.value.recordingView == s.file.value.recordingView
    ensures s.file.Some? && s.recording && !save ==>
              && Recs(r) == Recs(s)
              && r.file.value.recordingView == []
              && !r.waveRefsHeld
              && r.task == s.task && r.view == s.view
              && r.recent == s.recent && r.menu == s.menu
              && r.windowModified == s.windowModified
              && r.file.value == s.file.value.(recordingView := [], newRec := None)
  {
    if s.file.None? || !s.recording then s
    else
      var s1 := SetIsRecording(s, false);
      if save then CommitAndSave(s1, env, cfg)
      else
        var f := s1.file.value.(recordingView := [], newRec := None);
        s1.(file := Some(f), waveRefsHeld := false)
  }

  /** The digital channel is drawn as a two-level signal: bit 0x02 set gives +1, clear gives -1. */
  function DigitalLevel(n: bv16): (v: int)
    ensures v == 1 || v == -1
    ensures v == 1 <==> n & 0x02 != 0
  {
    if n & 0x02 != 0 then 1 else -1
  }

  /** The display value of a digital word: 0.5 for bit 0x02 set, -0.5 for clear. */
  function DigitalDisplay(n: bv16): (v: real)
    ensures v == 0.5 || v == -0.5
    ensures v == DigitalLevel(n) as real / 2.0
  {
    if n & 0x02 != 0 then 0.5 else -0.5
  }

  /** The digital wave after a poll's words are appended. */
  function AppendDigital(w: Wave, words: seq<bv16>): (r: Wave)
    ensures |r.raw| == |w.raw| + |words| && |r.display| == |w.display| + |words|
    ensures r.raw[..|w.raw|] == w.raw && r.display[..|w.display|] == w.display
    ensures forall i :: 0 <= i < |words| ==>
              r.raw[|w.raw| + i] == (if words[i] & 0x02 != 0 then 1 else -1)
              && r.display[|w.display| + i] == (if words[i] & 0x02 != 0 then 0.5 else -0.5)
    ensures r.ratio == w.ratio
  {
    Wave(w.raw + seq(|words|, i requires 0 <= i < |words| => DigitalLevel(words[i])),
         w.display + seq(|words|, i requires 0 <= i < |words| => DigitalDisplay(words[i])),
         w.ratio)
  }

  /** The per-word loop of the timer handler, appending one raw and one display value per word. */
  method AppendDigitalLoop(w: Wave, words: seq<bv16>) returns (r: Wave)
    ensures r == AppendDigital(w, words)
    ensures |r.raw| == |w.raw| + |words|
  {
    var raw := w.raw;
    var display := w.display;
    var i := 0;
    while i < |words|
      invariant 0 <= i <= |words|
      invariant raw == w.raw + seq(i, k requires 0 <= k < i => DigitalLevel(words[k]))
      invariant display == w.display + seq(i, k requires 0 <= k < i => DigitalDisplay(words[k]))
    {
      var n := words[i];
      var b := n & 0x02 != 0;
      raw := raw + [if b then 1 else -1];
      display := display + [if b then 0.5 else -0.5];
      i := i + 1;
    }
    r := Wave(raw, display, w.ratio);
  }

  /** An analog wave after a poll: samples appended and the ratio replaced by the one just computed. */
  function AppendAnalog(w: Wave, raw: seq<int>, display: seq<real>, ratio: Ratio): (r: Wave)
    ensures |r.raw| == |w.raw| + |raw| && |r.display| == |w.display| + |display|
    ensures r.raw[..|w.raw|] == w.raw && r.raw[|w.raw|..] == raw
    ensures r.display[..|w.display|] == w.display && r.display[|w.display|..] == display
    ensures r.ratio == Some(ratio)
  {
    Wave(w.raw + raw, w.display + display, Some(ratio))
  }

  /** A recording after one poll: digital words, then EAD, then FID samples appended. */
  function AppendBatch(rec: RecInfo, b: Batch): (r: RecInfo)
    ensures r.timeOfRecording == rec.timeOfRecording
    ensures r.digital == AppendDigital(rec.digital, b.digital)
    ensures r.ead == AppendAnalog(rec.ead, b.eadRaw, b.eadDisplay, b.eadRatio)
    ensures r.fid == AppendAnalog(rec.fid, b.fidRaw, b.fidDisplay, b.fidRatio)
  {
    rec.(digital := AppendDigital(rec.digital, b.digital),
         ead := AppendAnalog(rec.ead, b.eadRaw, b.eadDisplay, b.eadRatio),
         fid := AppendAnalog(rec.fid, b.fidRaw, b.fidDisplay, b.fidRatio))
  }

  /**
   * One firing of the 200 ms timer. Nothing happens when the timer is not
   * running or the handler's check or conversion fails. Otherwise the poll's
   * samples are appended to the in-progress recording, and if the duration
   * limit is positive and the EAD wave holds that many whole minutes
   * (counted with two truncating divisions) the recording is stopped and
   * saved.
   */
  function Tick(s: Scope, cfg: Config, b: Batch, env: SaveEnv): (r: Scope)
    requires ValidConfig(cfg)
    ensures !s.timerRunning || !b.checkOk || !b.convertOk ==> r == s
    ensures s.timerRunning && b.checkOk && b.convertOk && s.waveRefsHeld && NewRec(s).Some? ==>
              var rec := AppendBatch(NewRec(s).value, b);
              || (r.recording == s.recording && NewRec(r) == Some(rec) && Recs(r) == Recs(s))
              || (!r.recording && NewRec(r).None? && Recs(r) == Recs(s) + [rec])
    ensures s.timerRunning && b.checkOk && b.convertOk && s.waveRefsHeld && NewRec(s).Some? ==>
              var rec := AppendBatch(NewRec(s).value, b);
              var s1 := s.(file := Some(s.file.value.(newRec := Some(rec))));
              && (!AutoStopDue(|rec.ead.raw|, cfg.samplesPerSecond, cfg.recordingDuration) ==> r == s1)
              && (AutoStopDue(|rec.ead.raw|, cfg.samplesPerSecond, cfg.recordingDuration) ==>
                    r == StopRecording(s1, true, true, env, cfg)
                    && (s.recording ==> r.task == Review && r.view == Recording))
    ensures cfg.recordingDuration <= 0 ==> r.recording == s.recording
  {
    if !s.timerRunning || !b.checkOk || !b.convertOk then s
    else
      match s.file
      case None => s
      case Some(f) =>
        match f.newRec
        case None => s
        case Some(rec) =>
          if !s.waveRefsHeld then s
          else
            var rec' := AppendBatch(rec, b);
            var s1 := s.(file := Some(f.(newRec := Some(rec'))));
            if AutoStopDue(|rec'.ead.raw|, cfg.samplesPerSecond, cfg.recordingDuration)
            then StopRecording(s1, true, true, env, cfg)
            else s1
  }
}
