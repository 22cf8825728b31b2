# Recording-session controller of the EAD/FID scope, in Dafny

This project models the main-window controller (`MainScope`) of a data-acquisition
application that records an EAD channel, an FID channel and a digital trigger
channel into recordings of a project file. The controller decides when a
recording may start, appends the samples of every 200 ms poll to the recording
in progress, stops it on user request or when a duration limit is reached, and
then commits or discards it. It also keeps the open project, the current task
(Review or Publish) and chart view, the enabled actions and the most-recently-used
file list consistent with that session.

The controller state is one immutable record (`ScopeTypes.Scope`): the open file
(with its committed recordings, the recording in progress and the Recording
view's wave list), the `recording` flag, the polling timer as a boolean, task,
view, the recent-file list and its menu, the title bar's unsaved-changes marker
(`windowModified`) and whether the open file reports changes of its dirty flag
(`dirtyWired`). The marker is refreshed from the dirty flag only when the window
title is updated: by a save, by installing a file, and on a reported dirty-flag
change. Each handler is a pure function from
state to state (`MainScope`). Everything the controller gets from outside is a
parameter: the hardware poll (`Batch`: whether `check()`/`convert()` succeeded,
the digital words, EAD/FID raw and display samples, the conversion ratios), the
dialog answers, whether a path exists, the load result, the save result, the
clock reading that stamps a new recording (`now`), the Record handler's
hardware answers (whether a hardware link exists, whether it became ready,
whether the preview dialog was accepted), the sample rate, the GC delay, the
duration limit and the number of recent-file slots.

Modules:

- `ScopeTypes` (types.dfy): the data model.
- `CDivision` (cdivision.dfy): C++ truncating division, the FID delay shift, the auto-stop arithmetic.
- `FileNames` (filenames.dfy): the ".ead" extension rule of save-as.
- `RecentFiles` (recentfiles.dfy): the most-recently-used list and its menu refresh.
- `ScopeActions` (actions.dfy): action enablement.
- `MainScope` (mainscope.dfy): the handlers.
- `Session` (session.dfy): the controller invariant and lemmas that relate several handlers.

The model follows the code in these places, where the intended design of the session would suggest otherwise:

- Task and view switches are not refused while recording. `setTaskType` and `setViewType` have no guard.
- Starting a recording has no "already recording" error. The handler replaces the recording in progress (`Session.RecordWhileRecordingDropsSamples`). Only the disabled Record action prevents this (`Session.RecordEnabledOnlyWhenIdle`).
- On commit the Recording view keeps its three waves. Only a discard empties it.
- A failed check or conversion in a tick changes nothing and does not stop the timer.

Assumptions about the project-file class, whose code is not part of this model:

- `saveNewRecording` appends the recording in progress to the committed list, clears it and marks the file dirty.
- `discardNewRecording` clears the recording in progress.
- `saveAs` on success adopts the new name and clears the dirty flag; on failure it changes nothing.
- `addWave` gives a view entry the shift 0.
- A fresh wave has no conversion ratio until the first poll.
- A loaded or new file has no recording in progress. The invariant lemmas take this as a hypothesis.

## Model

| member | source | states |
|---|---|---|
| CDivision.TruncDivRemainder | Scope/MainScope.cpp:551 | C++ `/` on int: the remainder a - q * b is smaller than the divisor in magnitude and has the dividend's sign or is zero |
| CDivision.TruncDivSign | Scope/MainScope.cpp:551 | the quotient is non-negative when the operands' signs agree, non-positive when they differ, and 0 when the dividend is smaller in magnitude |
| CDivision.TruncDivNonNegative | Scope/MainScope.cpp:708-710 | on a non-negative sample count, truncation equals floor division |
| CDivision.SamplePeriodMs | Scope/MainScope.cpp:551 | `1000 / rate` lies in 1..1000 and is the largest p with p * rate <= 1000 |
| CDivision.FidShift | Scope/MainScope.cpp:551-552 | the FID shift is never positive for a non-negative delay and is zero for a delay shorter than one sample period |
| CDivision.FidShiftIsWholePeriods | Scope/MainScope.cpp:551-552 | for a delay D >= 0 the FID wave moves back n samples, where n periods fit into D and n + 1 do not |
| CDivision.FidShiftOdd | Scope/MainScope.cpp:551-552 | a negated delay gives the negated shift (truncation toward zero, not floor) |
| CDivision.ElapsedMinutes | Scope/MainScope.cpp:708-710 | the whole minutes counted never exceed the time the samples cover |
| CDivision.AutoStopThreshold | Scope/MainScope.cpp:706-712 | the rule fires iff the limit L > 0 and samples >= L * 60 * rate; with L <= 0 it never fires |
| CDivision.AutoStopExample | Scope/MainScope.cpp:706-712 | at 100 samples/s a one-minute limit fires at 6000 samples and not at 5999; a zero limit never fires |
| FileNames.WithEadExtension | Scope/MainScope.cpp:430-431 | ".ead" is appended iff the lower-cased name does not end in ".ead"; the result always does, and starts with the given name |
| FileNames.AppendedExtensionMatches | Scope/MainScope.cpp:430-431 | any name with ".ead" appended passes the case-insensitive test |
| FileNames.WithEadExtensionIdempotent | Scope/MainScope.cpp:430-431 | applying the rule twice equals applying it once |
| FileNames.UpperCaseExtensionKept | Scope/MainScope.cpp:430-431 | "a.EAD" is kept as it is |
| FileNames.OtherExtensionExtended | Scope/MainScope.cpp:430-431 | "a.txt" becomes "a.txt.ead" |
| RecentFiles.RemoveAll | Scope/MainScope.cpp:293 | removing a path drops every occurrence of it and nothing else: the length falls by its occurrence count and every other path keeps its occurrence count |
| RecentFiles.KeepFirst | Scope/MainScope.cpp:297-298 | removing last entries while over capacity leaves exactly the first min(length, capacity) entries, so only the oldest are lost |
| RecentFiles.Push | Scope/MainScope.cpp:286-299 | an empty name changes nothing; otherwise the path is at index 0, not repeated behind it, and followed by the old list without it, cut from the end (the oldest entries go) so that at most capacity entries remain; its length is min(capacity, 1 + the old length without the path) |
| RecentFiles.PushOccursOnce | Scope/MainScope.cpp:293-294 | after a push the path occurs exactly once |
| RecentFiles.PushKeepsOrder | Scope/MainScope.cpp:293-298 | the entries behind the path are a subsequence of the old list: relative order is kept |
| RecentFiles.PushWithRoomKeepsAll | Scope/MainScope.cpp:293-298 | with room to spare no old entry is lost |
| RecentFiles.PushNoDuplicates | Scope/MainScope.cpp:293-294 | a list without repeated paths stays without repeats |
| RecentFiles.PushIdempotent | Scope/MainScope.cpp:293-298 | pushing the most recent path again changes nothing |
| RecentFiles.RemoveAllIsSubsequence | Scope/MainScope.cpp:293 | removing a path yields a subsequence of the list |
| RecentFiles.Refreshed | Scope/MainScope.cpp:310-320 | a refresh enables the menu iff the list is non-empty, shows list[i] in slot i and leaves later slots as they were |
| RecentFiles.RefreshMenuAsWritten | Scope/MainScope.cpp:307-320 | the refresh as written: refused unless the list is strictly shorter than the slot count |
| RecentFiles.RefreshMenu | Scope/MainScope.cpp:307-320 | the corrected refresh: any list that fits the slots is shown |
| RecentFiles.AsWrittenMenuMissesFullList | Scope/MainScope.cpp:297-298 | with one slot, the first recent file leaves the menu disabled and empty |
| RecentFiles.AsWrittenMenuStaleWhenFull | Scope/MainScope.cpp:297-307 | as written, every push into a full list without repeats leaves the menu unchanged |
| RecentFiles.PushThenRefreshShowsList | Scope/MainScope.cpp:286-320 | with the corrected guard, after a push the menu is enabled and shows the list, the pushed path first |
| ScopeActions.UpdateActions | Scope/MainScope.cpp:222-249 | Record and hardware settings iff file and not recording; record save and discard iff file and recording; New, Open and sample project iff not recording; peak actions iff Review and view is not EADs; save, export and connect rules |
| ScopeActions.ActionsOf | Scope/MainScope.cpp:224-247 | on a controller state: Record enabled implies a file and no recording; stop actions imply recording; recording disables New, Open and sample project |
| ScopeActions.RecordExcludesStop | Scope/MainScope.cpp:244-247 | Record and the stop actions are never enabled together, and with a file exactly one side is |
| MainScope.SetTaskType | Scope/MainScope.cpp:135-148 | the task becomes the given one and nothing else changes |
| MainScope.SetViewType | Scope/MainScope.cpp:150-165 | the view becomes the given one and nothing else changes |
| MainScope.SetIsRecording | Scope/MainScope.cpp:206-220 | the flag takes the given value, and a timer in step with the flag stays in step; nothing else changes |
| MainScope.AddRecentFile | Scope/MainScope.cpp:286-303 | an empty name changes nothing; otherwise the list becomes the push of the name, so the name heads it, and the menu is enabled and shows the list; only list and menu change |
| MainScope.AddRecentFileAsWritten | Scope/MainScope.cpp:286-307 | the list is pushed as in `AddRecentFile`; the menu is rewritten from it only while it is shorter than the slot count and left unchanged once it fills the slots |
| MainScope.AddRecentFileVersionsAgree | Scope/MainScope.cpp:297-307 | the handler as written and the corrected one keep the same list and the same menu unless the push fills the list; then, if the menu did not already show the name first, they differ |
| MainScope.SetFile | Scope/MainScope.cpp:110-133 | refused while recording; the already open file changes nothing; otherwise file installed with its dirty-flag reports connected and the marker set from its flag, task Review, view Averages, Recording chart disabled, name pushed to the recent list, recording flag, timer and wave shortcuts untouched |
| MainScope.Open | Scope/MainScope.cpp:369-398 | a missing path or failed load changes nothing; a successful load is exactly SetFile of the loaded file |
| MainScope.Save | Scope/MainScope.cpp:436-459 | without a file nothing happens; otherwise it succeeds iff the write succeeds; success adopts the name, clears dirty in the same file object, pushes the name to the recent list and clears the marker; failure leaves everything but the marker, which the title refresh sets from the dirty flag; recordings, session and chart enablement untouched |
| MainScope.TitleUpdated | Scope/MainScope.cpp:251-284 | a title refresh sets the marker to "a file is open and dirty" and changes nothing else |
| MainScope.FileUpdated | Scope/MainScope.cpp:341-345 | a change of the open file's contents refreshes the marker to the new dirty flag only when the file reports its flag and the flag changed; nothing else changes |
| MainScope.FileSaveAs | Scope/MainScope.cpp:422-434 | a cancelled dialog changes nothing; otherwise it is a save under the chosen name with the ".ead" rule applied, which the result names; a failure changes at most the marker |
| MainScope.FileSave | Scope/MainScope.cpp:412-420 | no file: false; unnamed file: save-as; named file: a save under its own name; a failure changes at most the marker |
| MainScope.CheckSaveAndContinue | Scope/MainScope.cpp:461-475 | with the open file clean or Discard: continue unchanged; dirty and Cancel: stop unchanged; dirty and Save: continue iff the save succeeds |
| MainScope.CheckSaveAndContinueAsWritten | Scope/MainScope.cpp:461-475 | the check as written reads the marker: marker clear or Discard: continue unchanged; set and Cancel: stop; set and Save: continue iff the save succeeds; whenever the marker equals the dirty flag it is the model's check |
| MainScope.FileNew | Scope/MainScope.cpp:347-354 | a refused check leaves only what the check did; a passed check is followed by exactly SetFile of the new file in the state the check left, so while recording the session and recordings survive, and otherwise the new file is installed with task Review, view Averages and the Recording chart disabled |
| MainScope.FileNewAsWritten | Scope/MainScope.cpp:347-354 | File > New with the check as written: SetFile of the new file after a passed check, the check's state otherwise; equal to the model's File > New whenever the marker equals the dirty flag |
| MainScope.FileOpen | Scope/MainScope.cpp:356-367 | a refused check or a cancelled dialog does nothing beyond the check; an accepted check with a chosen path opens it in the state the check left; while recording the session and recordings survive |
| MainScope.FreshRecording | Scope/MainScope.cpp:540-549 | a new recording has three empty waves and the start time |
| MainScope.RecordingViewFor | Scope/MainScope.cpp:541-552 | the Recording view is exactly EAD, FID, digital; EAD and digital unshifted, the FID shift -(delay / (1000 / rate)) truncating |
| MainScope.Record | Scope/MainScope.cpp:528-563 | without file, hardware link, ready hardware or accepted preview nothing changes; otherwise a fresh recording replaces the old one, the view holds the three waves, the rest of the file (identity, name, dirty flag, committed recordings), the recent list, the menu and the marker are untouched, task Review, view Recording, recording on; the timer runs whenever it was in step with the recording flag before |
| MainScope.CommitNewRecording | Scope/MainScope.cpp:619 | the recording in progress is appended to the committed list and cleared |
| MainScope.StopRecording | Scope/MainScope.cpp:609-666 | no file or not recording: no-op; otherwise recording and timer stop, the same file stays open and chart enablement is kept; save commits the recording, shows Recording in Review and saves the file (under its name, or through save-as when unnamed): on success it is clean and its name heads the recent list; on a failed or cancelled save the file is exactly the committed one, still dirty, with recent list and menu untouched; a save that reaches the write leaves the marker equal to the dirty flag, a cancelled one leaves the marker as it was for a file that does not report its flag; discard empties the view, drops the recording, releases the wave shortcuts and changes nothing else |
| MainScope.CommitAndSave | Scope/MainScope.cpp:619-625 | the save branch of a stop: the recording is committed, the Recording view of the Review task is shown and the file saved, with the same outcomes as the save branch of StopRecording |
| MainScope.DigitalLevel | Scope/MainScope.cpp:684-687 | a digital word maps to +1 exactly when bit 0x02 is set, and to -1 otherwise |
| MainScope.DigitalDisplay | Scope/MainScope.cpp:688 | the display value is half the raw level, 0.5 or -0.5 |
| MainScope.AppendDigital | Scope/MainScope.cpp:681-689 | raw and display each grow by the batch length; old samples kept; word i adds +1/0.5 iff bit 0x02 is set, else -1/-0.5 |
| MainScope.AppendDigitalLoop | Scope/MainScope.cpp:681-689 | the per-word loop computes the same wave as the whole-batch definition |
| MainScope.AppendAnalog | Scope/MainScope.cpp:692-703 | the old samples are followed by the new ones, and the ratio is replaced by the one just computed |
| MainScope.AppendBatch | Scope/MainScope.cpp:680-703 | a poll appends the digital words, then the EAD samples, then the FID samples, and keeps the start time |
| MainScope.Tick | Scope/MainScope.cpp:668-717 | a tick with the timer stopped, or whose check or conversion fails, changes nothing; otherwise the poll is appended to the recording in progress and nothing else changes while the limit is not reached, and once it is the recording is stopped with save (Review, Recording view, file saved); with a limit <= 0 the recording flag never changes |
| Session.Initial | Scope/MainScope.cpp:45-71 | the corrected start-up state satisfies the invariant: the new project file open and reporting its dirty flag, marker from its flag, Review, Averages, not recording, timer off; the recent list from the settings is shown in the menu when it fits the slots |
| Session.InitialAsWritten | Scope/MainScope.cpp:45-71 | the start-up as written: invariant holds, the start-up file does not report its dirty flag, the marker is set from its flag, and the settings list is shown only when strictly shorter than the slot count |
| Session.WiredCheckAgrees | Scope/MainScope.cpp:461-475 | under the invariant, for a file that reports its dirty flag, the check and File > New as written equal the model's |
| Session.AsWrittenNewLosesRecording | Scope/MainScope.cpp:461-475 | as written (the start-up file of line 52 is never connected, line 120 connects only installed files, line 426 returns before the save), after start-up, record and a save with the dialog cancelled, the file holds one committed recording and is dirty but the marker is clear, so File > New continues on Cancel and the recording is gone; the model's File > New keeps the state |
| Session.CorrectedNewKeepsRecording | Scope/MainScope.cpp:461-475 | with the start-up file reporting its dirty flag, the same session leaves the marker set and File > New as written stops on Cancel |
| Session.SetFileKeepsInv | Scope/MainScope.cpp:110-133 | installing a file without a recording in progress keeps the invariant |
| Session.OpenKeepsInv | Scope/MainScope.cpp:369-398 | opening a file keeps the invariant |
| Session.FileNewKeepsInv | Scope/MainScope.cpp:347-354 | File > New keeps the invariant, including when the check saves first |
| Session.FileOpenKeepsInv | Scope/MainScope.cpp:356-367 | File > Open keeps the invariant |
| Session.FileSaveKeepsInv | Scope/MainScope.cpp:412-459 | Save and Save As keep the invariant |
| Session.SaveAsThenSave | Scope/MainScope.cpp:412-459 | after a successful save-as the next save needs no dialog, writes under the same name, succeeds iff the write does and then leaves the open file and the recent list as the save-as left them |
| Session.RecordKeepsInv | Scope/MainScope.cpp:528-563 | Record keeps the invariant: timer and flag in step, the Recording view holds the three waves, the new recording is aligned |
| Session.StopKeepsInv | Scope/MainScope.cpp:609-666 | both ways of stopping keep the invariant |
| Session.TickKeepsInv | Scope/MainScope.cpp:668-717 | a tick keeps the invariant, including raw/display alignment when the handler returns equal-length samples |
| Session.RecordEnabledOnlyWhenIdle | Scope/MainScope.cpp:244 | whenever Record is enabled nothing is recording, the timer is off and no recording is in progress |
| Session.RecordWhileRecordingDropsSamples | Scope/MainScope.cpp:538-561 | the handler itself replaces a running recording with a fresh one; only the disabled action prevents it |
| Session.ActionsWhileRecording | Scope/MainScope.cpp:228-247 | after a start the stop actions are enabled and Record, New, Open and sample project are not |
| Session.ActionsAfterStop | Scope/MainScope.cpp:612-615 | after any stop Record is enabled again and the stop actions are not |
| Session.StopTwiceIsStopOnce | Scope/MainScope.cpp:611-612 | a second stop, with any arguments, changes nothing |
| Session.CommitAddsExactlyOne | Scope/MainScope.cpp:617-625 | saving adds exactly the recording in progress to the end of the list, even if writing the file fails |
| Session.StartThenDiscard | Scope/MainScope.cpp:538-561 | start then discard leaves the committed list as before the start, an empty Recording view and no recording in progress |
| Session.TickKeepsCommitted | Scope/MainScope.cpp:668-717 | a tick that does not end the recording leaves the committed recordings alone |
| Session.CommitThenRestartIsFresh | Scope/MainScope.cpp:538-540 | after a commit a new start keeps the committed recording and begins with empty waves |
| Session.TickAppendsAndAutoStops | Scope/MainScope.cpp:680-713 | a tick appends the poll to the recording in progress; it ends the recording, committing the appended samples, exactly when the limit L > 0 and the EAD wave holds >= L * 60 * rate samples |
| Session.TickWithoutLimitKeepsRecording | Scope/MainScope.cpp:706 | with a limit <= 0 a tick never stops the recording |
| Session.TickDigitalGrowth | Scope/MainScope.cpp:681-712 | a tick grows the digital raw and display waves by exactly the number of digital words, in the recording still running or in the one it committed at the duration limit |
| Session.FileHandlersRefusedWhileRecording | Scope/MainScope.cpp:112 | while recording, New keeps the same file and session, and Open changes nothing |
| Session.ViewSwitchKeepsSession | Scope/MainScope.cpp:135-165 | switching task or view while recording is not refused, and it keeps the invariant, the session and the recordings |
| Session.FailedLoadKeepsFile | Scope/MainScope.cpp:374-397 | a missing path or a failed load leaves the whole state untouched |

## Findings

| source | as written | input that shows it | evidently intended | confidence | as-written member | corrected member |
|---|---|---|---|---|---|---|
| Scope/MainScope.cpp:52 | the start-up file is created without connecting its `dirtyChanged` signal (only `setFile`, line 120, connects it), and the unsaved-changes check (line 464) reads the marker that only a title refresh updates | start-up, Record, Save recording with the save-as dialog cancelled (line 426 returns before `save`), then File > New: the file holds a committed, unsaved recording but the marker is clear, so no question is asked and the recording is discarded | the start-up file reports its dirty flag like every other file, so the check asks | medium, not executed | Session.AsWrittenNewLosesRecording | Session.CorrectedNewKeepsRecording |
| Scope/MainScope.cpp:307 | the menu refresh is refused unless `recentFiles.count() < fileOpenRecentActions.count()`, but `addRecentFile` (lines 297-298) trims the list to at most that count, so a full list is never shown | one menu slot, empty list, open "a.ead": the list becomes ["a.ead"], the refresh is refused and the menu stays disabled | `<=`: refresh whenever the list fits the slots | medium, not executed | RecentFiles.AsWrittenMenuMissesFullList | RecentFiles.PushThenRefreshShowsList |

`RecentFiles.RefreshMenuAsWritten` models the guard as written, and
`RecentFiles.AsWrittenMenuStaleWhenFull` shows that every later push into a full
list leaves the menu stale. `MainScope.AddRecentFileAsWritten` is the handler
as written; `MainScope.AddRecentFileVersionsAgree` shows where it and the
corrected handler part. The rest of the model (`MainScope.AddRecentFile`, and
through it `SetFile`, `Save` and `Session.Initial`) uses the corrected
`RecentFiles.RefreshMenu`.

For the marker row, `MainScope.CheckSaveAndContinueAsWritten` and
`MainScope.FileNewAsWritten` read the marker as written, and
`Session.InitialAsWritten` leaves the start-up file unreporting.
`Session.WiredCheckAgrees` shows that the written check is the model's for every
file that reports its dirty flag. The model's `MainScope.CheckSaveAndContinue`
reads the dirty flag directly, and `Session.Initial` connects the start-up file.

## Left out

- MainScope.CheckSaveAndContinue: reads the file's dirty flag, the corrected reading; the program reads the marker, which for the start-up file can stay clear after a save-as is cancelled (see Findings and `MainScope.CheckSaveAndContinueAsWritten`).

- MainScope.AddRecentFile: its menu clause states the corrected refresh guard, not line 307's; when a push fills the list the program leaves the menu unchanged, as `MainScope.AddRecentFileAsWritten` states.
- Session.Initial: the start-up menu refresh (line 71) uses the corrected guard too; as written, a settings list that fills every slot leaves the menu disabled.
- Qt signal and slot wiring and the emitted notifications. The polling timer is a boolean; a tick is a call of `Tick`.
- Dialogs, message texts, translation, the wait cursor and the window title text. Dialog answers are parameters. The marker is a boolean; the title text is not modelled.
- Hardware handling: `checkHardware`, `waitForHardware`, `setup`, `stopSampling`, calibration, `updateRawToVoltageFactors`, the hardware-connect and hardware-settings handlers. Their outcomes are parameters or are not modelled.
- The floating-point conversion factor `num / den` (lines 697 and 703). The integer ratio is kept as returned.
- Path resolution (`QFileInfo` absolute paths, separators, file names for labels, `setLastDir`). Paths are strings taken as given.
- `FileNames.ToLower`: lower-cases only ASCII letters A to Z, not Unicode case mapping.
- Settings persistence, the comment, peak-mode and window-modified setters, and the label text of the recent menu.
- Project-file load and save serialisation and `createFakeData`. The load sample project handler is not modelled separately; it behaves like `MainScope.FileNew` with a generated file.
- The open-recent handler: it is the unsaved-changes check followed by `MainScope.Open` of the chosen entry.
- `int` overflow of sample counts and of the GC delay. Integers are unbounded.
- A null hardware link: `updateActions` calls `isAvailable()` without a null check. Availability is a parameter.
- Re-entrancy of ticks: a tick runs to completion, as in the single-threaded event loop.
