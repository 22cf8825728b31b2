/**
 * Data model of the recording-session controller of the EAD/FID scope
 * application: the open project file, its recordings and waves, the
 * controller's own state, and the values the acquisition hardware hands
 * to the controller on every poll.
 */
module ScopeTypes {

  datatype Option<+T> = None | Some(value: T)

  /** The two tasks of the main window. */
  datatype Task = Review | Publish

  /** The chart views of the main window. */
  datatype View = Averages | EADs | FIDs | All | Recording

  /** Channels of one recording. */
  datatype WaveKind = EadWave | FidWave | DigitalWave

  /** An exact raw-to-voltage conversion ratio, kept as returned by the hardware (never reduced). */
  datatype Ratio = Ratio(num: int, den: int)

  /**
   * One channel's samples: `raw` integers and the `display` values drawn for
   * them, plus the last conversion ratio computed for the channel
   * (None until the first poll of a recording).
   */
  datatype Wave = Wave(raw: seq<int>, display: seq<real>, ratio: Option<Ratio>)

  /** A recording: one wave per channel and the time it was started. */
  datatype RecInfo = RecInfo(timeOfRecording: int, ead: Wave, fid: Wave, digital: Wave)

  /** An entry of a view: which wave of the recording is shown, shifted by `shift` samples. */
  datatype ViewWave = ViewWave(kind: WaveKind, shift: int)

  /**
   * A project file. `handle` stands for the object's identity (the pointer the
   * controller compares); `recs` are the committed recordings; `newRec` is the
   * recording in progress, if any; `recordingView` is the wave list of the
   * Recording view.
   */
  datatype EadFile = EadFile(
    handle: nat,
    filename: string,
    dirty: bool,
    recs: seq<RecInfo>,
    newRec: Option<RecInfo>,
    recordingView: seq<ViewWave>)

  /** The slots of the "open recent" menu: whether it is enabled and the path each visible slot opens. */
  datatype RecentMenu = RecentMenu(enabled: bool, slots: seq<string>)

  /**
   * The controller state. `timerRunning` is the 200 ms polling timer;
   * `waveRefsHeld` says whether the controller still holds its shortcuts to
   * the three waves of the Recording view; `recent` is the most-recently-used
   * file list. `windowModified` is the title bar's unsaved-changes marker,
   * which the unsaved-changes check reads; it is refreshed from the file's
   * dirty flag only when the window title is updated. `dirtyWired` says
   * whether the open file reports changes of its dirty flag to the
   * controller (files installed by `setFile` do; the start-up file does not).
   */
  datatype Scope = Scope(
    file: Option<EadFile>,
    recording: bool,
    timerRunning: bool,
    task: Task,
    view: View,
    recent: seq<string>,
    menu: RecentMenu,
    recordingChartEnabled: bool,
    waveRefsHeld: bool,
    windowModified: bool,
    dirtyWired: bool)

  /**
   * Settings the controller reads: the EAD sample rate, the gas-chromatograph
   * delay in ms, the recording duration limit in minutes (<= 0: unlimited)
   * and the number of "open recent" menu slots.
   */
  datatype Config = Config(
    samplesPerSecond: int,
    gcDelayMs: int,
    recordingDuration: int,
    recentCapacity: nat)

  /** The sample rate must divide 1000 ms to a nonzero sample period. */
  predicate ValidConfig(cfg: Config)
  {
    1 <= cfg.samplesPerSecond <= 1000
  }

  /** Outcome of loading or saving a project file. */
  datatype LoadSaveResult = LoadSaveOk | LoadSaveFailed

  /** The user's answer to the "unsaved changes" question. */
  datatype Answer = SaveAnswer | DiscardAnswer | CancelAnswer

  /** What a save needs from outside: the name typed into the save-as dialog ("" = cancelled) and whether writing succeeded. */
  datatype SaveEnv = SaveEnv(dialogName: string, saveOk: bool)

  /**
   * One poll of the record handler: whether `check()` and `convert()`
   * succeeded, the digital words (bit patterns of 16-bit shorts), the EAD and
   * FID raw and display samples, and the ratios computed for channels 1 (EAD)
   * and 2 (FID).
   */
  datatype Batch = Batch(
    checkOk: bool,
    convertOk: bool,
    digital: seq<bv16>,
    eadRaw: seq<int>,
    eadDisplay: seq<real>,
    fidRaw: seq<int>,
    fidDisplay: seq<real>,
    eadRatio: Ratio,
    fidRatio: Ratio)

  /** Raw and display samples of a wave are index-aligned. */
  predicate Aligned(w: Wave)
  {
    |w.raw| == |w.display|
  }

  /** The handler returned as many display values as raw values on both analog channels. */
  predicate WellFormedBatch(b: Batch)
  {
    |b.eadRaw| == |b.eadDisplay| && |b.fidRaw| == |b.fidDisplay|
  }

  const EmptyWave: Wave := Wave([], [], None)
}
