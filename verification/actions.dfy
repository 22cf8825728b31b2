/**
 * Which menu and toolbar actions are enabled: a pure function of whether a
 * file is open, whether a recording is running, the number of recordings,
 * the dirty flag, the current task and view, and hardware availability.
 */
module ScopeActions {
  import opened ScopeTypes

  datatype Actions = Actions(
    fileNew: bool,
    fileOpen: bool,
    fileSave: bool,
    fileSaveAs: bool,
    fileExportSignalData: bool,
    fileExportRetentionData: bool,
    fileLoadSampleProject: bool,
    viewWaveComments: bool,
    viewHidePeaks: bool,
    viewDetectedPeaks: bool,
    viewVerifiedPeaks: bool,
    viewEditPeaks: bool,
    recordRecord: bool,
    recordHardwareSettings: bool,
    recordSave: bool,
    recordDiscard: bool,
    recordHardwareConnect: bool)

  /**
   * The enablement rules. "Having data" means more than one recording in
   * the file.
   */
  function UpdateActions(haveFile: bool, recording: bool, recCount: nat, dirty: bool,
                         task: Task, view: View, hardwareAvailable: bool): (a: Actions)
    ensures a.recordRecord <==> haveFile && !recording
    ensures a.recordHardwareSettings <==> haveFile && !recording
    ensures a.recordSave <==> haveFile && recording
    ensures a.recordDiscard <==> haveFile && recording
    ensures a.fileNew <==> !recording
    ensures a.fileOpen <==> !recording
    ensures a.fileLoadSampleProject <==> !recording
    ensures a.fileSave <==> haveFile && (dirty || recCount <= 1)
    ensures a.fileSaveAs <==> haveFile
    ensures a.fileExportSignalData <==> haveFile && recCount > 1
    ensures a.fileExportRetentionData <==> haveFile && recCount > 1
    ensures a.viewWaveComments <==> task == Review
    ensures a.viewHidePeaks <==> task == Review && view != EADs
    ensures a.viewDetectedPeaks <==> task == Review && view != EADs
    ensures a.viewVerifiedPeaks <==> task == Review && view != EADs
    ensures a.viewEditPeaks <==> task == Review && view != EADs
    ensures a.recordHardwareConnect <==> !hardwareAvailable
  {
    var haveData := haveFile && recCount > 1;
    var reviewing := task == Review;
    var peaks := reviewing && view != EADs;
    Actions(
      fileNew := !recording,
      fileOpen := !recording,
      fileSave := haveFile && (dirty || !haveData),
      fileSaveAs := haveFile,
      fileExportSignalData := haveData,
      fileExportRetentionData := haveData,
      fileLoadSampleProject := !recording,
      viewWaveComments := reviewing,
      viewHidePeaks := peaks,
      viewDetectedPeaks := peaks,
      viewVerifiedPeaks := peaks,
      viewEditPeaks := peaks,
      recordRecord := haveFile && !recording,
      recordHardwareSettings := haveFile && !recording,
      recordSave := haveFile && recording,
      recordDiscard := haveFile && recording,
      recordHardwareConnect := !hardwareAvailable)
  }

  /** The actions of a controller state. */
  function ActionsOf(s: Scope, hardwareAvailable: bool): (a: Actions)
    ensures a.recordRecord ==> !s.recording && s.file.Some?
    ensures a.recordSave || a.recordDiscard ==> s.recording
    ensures s.recording ==> !a.fileNew && !a.fileOpen && !a.fileLoadSampleProject
  {
    match s.file
    case None => UpdateActions(false, s.recording, 0, false, s.task, s.view, hardwareAvailable)
    case Some(f) => UpdateActions(true, s.recording, |f.recs|, f.dirty, s.task, s.view, hardwareAvailable)
  }

  /** Record and the two stop actions are never enabled together. */
  lemma RecordExcludesStop(s: Scope, hardwareAvailable: bool)
    ensures var a := ActionsOf(s, hardwareAvailable);
            !(a.recordRecord && (a.recordSave || a.recordDiscard))
    ensures s.file.Some? ==> (ActionsOf(s, hardwareAvailable).recordRecord
                              <==> !ActionsOf(s, hardwareAvailable).recordSave)
  {
  }
}
