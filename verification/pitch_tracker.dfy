/** The tracker: the bounded history the capture loop appends to, the derived
    window lengths checked at construction, and the start/stop life cycle.  The
    audio capture itself is a parameter: each hop delivers one `AnalysisResult`. */
module PitchTracker {
  import opened Wrappers
  import opened Analysis
  import MedianFilter

  /** Why a tracker operation failed */
  datatype TrackerError =
    | HopExceedsBuffer     // the hop needed for the lowest frequency is longer than the buffer
    | FilterExceedsWindow  // the filter window is longer than the analysis window
    | DivisionByZero       // a zero lowest frequency, sample rate or hop size
    | NotStarted           // stopping or reading before the first start

  /** Default construction parameters of the source */
  const DefaultBufferSize: int := 4096
  const DefaultSampleRate: int := 44100
  const DefaultAnalysisWindow: real := 30.0   // seconds
  const DefaultFilterWindow: real := 0.2      // seconds
  const DefaultSilenceThreshold: real := -50.0  // dB
  const DefaultLowestFrequency: real := 65.4064 // Hz, C2

  /** The application's own settings, which override two of the defaults above */
  const AppAnalysisWindow: real := 10.0      // seconds
  const AppSilenceThreshold: real := -60.0   // dB

  /** Smallest integer not below x */
  function Ceil(x: real): (r: int)
    ensures r as real - 1.0 < x <= r as real
  {
    -((-x).Floor)
  }

  /** One run of the capture loop: its history and whether its stop flag is set */
  datatype Session = Session(history: seq<AnalysisResult>, stopRequested: bool)

  /** A constructed tracker; `session` is `None` until tracking is first started */
  datatype Tracker = Tracker(
    deviceIndex: int,
    sampleRate: int,
    bufferSize: int,
    silenceThreshold: real,
    hopSize: int,
    analysisWindowLen: int,
    filterWindowLen: int,
    session: Option<Session>)

  /** Capacity of the history; a non-positive window length keeps nothing */
  function Capacity(t: Tracker): nat {
    if t.analysisWindowLen < 0 then 0 else t.analysisWindowLen
  }

  /** What construction guarantees and every operation keeps */
  predicate Valid(t: Tracker) {
    && t.hopSize != 0 && t.hopSize <= t.bufferSize
    && t.filterWindowLen <= t.analysisWindowLen
    && (t.session.Some? ==> |t.session.value.history| <= Capacity(t))
  }

  /** Construction: the hop covers one period of the lowest frequency, the window
      lengths count hops of that size in the given seconds */
  function NewTracker(deviceIndex: int, bufferSize: int, sampleRate: int, analysisWindow: real,
                      filterWindow: real, silenceThreshold: real, lowestFrequency: real): (r: Result<Tracker, TrackerError>)
    ensures lowestFrequency == 0.0 ==> r == Err(DivisionByZero)
    ensures lowestFrequency != 0.0 ==>
              (r == Err(HopExceedsBuffer) <==> sampleRate as real / lowestFrequency > bufferSize as real)
    ensures (&& lowestFrequency != 0.0 && HopSize(sampleRate, lowestFrequency) <= bufferSize
             && (sampleRate == 0 || HopSize(sampleRate, lowestFrequency) == 0)) ==> r == Err(DivisionByZero)
    ensures (&& lowestFrequency != 0.0 && sampleRate != 0 && HopSize(sampleRate, lowestFrequency) != 0
             && HopSize(sampleRate, lowestFrequency) <= bufferSize) ==>
              var hop := HopSize(sampleRate, lowestFrequency);
              && (r.Ok? <==> WindowLength(filterWindow, hop, sampleRate) <= WindowLength(analysisWindow, hop, sampleRate))
              && (r.Err? ==> r.error == FilterExceedsWindow)
    ensures r.Ok? ==> Valid(r.value) && r.value.session.None?
    ensures r.Ok? ==> r.value.deviceIndex == deviceIndex && r.value.sampleRate == sampleRate
                      && r.value.bufferSize == bufferSize && r.value.silenceThreshold == silenceThreshold
    ensures r.Ok? ==> var hop := r.value.hopSize as real;
                      && hop - 1.0 < sampleRate as real / lowestFrequency <= hop
                      && sampleRate != 0
                      && r.value.analysisWindowLen == WindowLength(analysisWindow, r.value.hopSize, sampleRate)
                      && r.value.filterWindowLen == WindowLength(filterWindow, r.value.hopSize, sampleRate)
  {
    if lowestFrequency == 0.0 then Err(DivisionByZero)
    else
      var hop := HopSize(sampleRate, lowestFrequency);
      if hop > bufferSize then Err(HopExceedsBuffer)
      else if sampleRate == 0 || hop == 0 then Err(DivisionByZero)
      else
        var analysisLen := WindowLength(analysisWindow, hop, sampleRate);
        var filterLen := WindowLength(filterWindow, hop, sampleRate);
        if filterLen > analysisLen then Err(FilterExceedsWindow)
        else Ok(Tracker(deviceIndex, sampleRate, bufferSize, silenceThreshold, hop, analysisLen, filterLen, None))
  }

  /** `ceil((1 / lowest_frequency) * sample_rate)`: samples in one period of the lowest frequency, rounded up */
  function HopSize(sampleRate: int, lowestFrequency: real): (hop: int)
    requires lowestFrequency != 0.0
    ensures hop as real - 1.0 < sampleRate as real / lowestFrequency <= hop as real
  {
    var x := (1.0 / lowestFrequency) * sampleRate as real;
    assert x == sampleRate as real / lowestFrequency;
    Ceil(x)
  }

  /** `ceil(seconds / (hop_size / sample_rate))`: hops in the given number of seconds, rounded up */
  function WindowLength(seconds: real, hop: int, sampleRate: int): (n: int)
    requires hop != 0 && sampleRate != 0
    ensures n as real - 1.0 < seconds / (hop as real / sampleRate as real) <= n as real
  {
    Ceil(seconds / (hop as real / sampleRate as real))
  }

  /** One hop of the capture loop: append the new result, then drop the oldest one
      if the history has grown past the window length */
  function AppendEvict(history: seq<AnalysisResult>, r: AnalysisResult, windowLen: int): (h: seq<AnalysisResult>)
    ensures |history| < windowLen ==> h == history + [r]
    ensures |history| >= windowLen ==> h == (history + [r])[1..]
    ensures |history| <= windowLen ==> |h| <= windowLen
  {
    var appended := history + [r];
    if |appended| > windowLen then appended[1..] else appended
  }

  /** The capture loop fed `records` one hop at a time, starting from a fresh history:
      it keeps exactly the most recent `windowLen` records, in arrival order */
  method RunCapture(records: seq<AnalysisResult>, windowLen: nat) returns (history: seq<AnalysisResult>)
    ensures |history| == if |records| <= windowLen then |records| else windowLen
    ensures history == records[|records| - |history|..]
  {
    history := [];
    var i := 0;
    while i < |records|
      invariant i <= |records|
      invariant |history| == if i <= windowLen then i else windowLen
      invariant history == records[i - |history|..i]
    {
      assert history + [records[i]] == records[i - |history|..i + 1];
      history := AppendEvict(history, records[i], windowLen);
      i := i + 1;
    }
  }

  /** `start_tracking`: a fresh, empty history and a fresh, unset stop flag */
  function StartTracking(t: Tracker): (r: Tracker)
    ensures r.session == Some(Session([], false))
    ensures r.(session := t.session) == t
  {
    t.(session := Some(Session([], false)))
  }

  /** `stop_tracking`: set the stop flag and wait for the loop to exit; the history
      stays readable.  Before the first start there is nothing to stop. */
  function StopTracking(t: Tracker): (r: Result<Tracker, TrackerError>)
    ensures t.session.None? <==> r == Err(NotStarted)
    ensures r.Ok? ==> r.value.session.Some? && r.value.session.value.stopRequested
    ensures r.Ok? ==> r.value.session.value.history == t.session.value.history
    ensures r.Ok? ==> r.value.(session := t.session) == t
  {
    match t.session
    case None => Err(NotStarted)
    case Some(s) => Ok(t.(session := Some(s.(stopRequested := true))))
  }

  /** One hop of a running capture loop; a stopped loop has exited and appends nothing */
  function CaptureStep(t: Tracker, r: AnalysisResult): (u: Tracker)
    ensures Valid(t) ==> Valid(u)
    ensures u.(session := t.session) == t
    ensures t.session.None? || t.session.value.stopRequested ==> u == t
    ensures t.session.Some? && !t.session.value.stopRequested ==>
              u.session == Some(t.session.value.(history := AppendEvict(t.session.value.history, r, t.analysisWindowLen)))
  {
    match t.session
    case Some(s) =>
      if s.stopRequested then t
      else t.(session := Some(s.(history := AppendEvict(s.history, r, t.analysisWindowLen))))
    case None => t
  }

  /** `change_device`: stop, switch the input device, start again */
  function ChangeDevice(t: Tracker, deviceIndex: int): (r: Result<Tracker, TrackerError>)
    ensures r.Ok? <==> t.session.Some?
    ensures r.Ok? ==> r.value == t.(deviceIndex := deviceIndex, session := Some(Session([], false)))
  {
    var stopped :- StopTracking(t);
    Ok(StartTracking(stopped.(deviceIndex := deviceIndex)))
  }

  /** `set_silence`: stop, change the silence threshold, start again */
  function SetSilence(t: Tracker, silenceThreshold: real): (r: Result<Tracker, TrackerError>)
    ensures r.Ok? <==> t.session.Some?
    ensures r.Ok? ==> r.value == t.(silenceThreshold := silenceThreshold, session := Some(Session([], false)))
  {
    var stopped :- StopTracking(t);
    Ok(StartTracking(stopped.(silenceThreshold := silenceThreshold)))
  }

  /** `get_analysis_results`: the current history, median-filtered */
  function GetAnalysisResults(t: Tracker): (r: Result<seq<AnalysisResult>, TrackerError>)
    ensures r.Ok? <==> t.session.Some?
    ensures r.Ok? ==> SameButPitch(r.value, t.session.value.history)
    ensures r.Ok? && t.filterWindowLen <= 0 ==> r.value == t.session.value.history
    ensures r.Ok? ==> r.value == MedianFilter.Filter(t.session.value.history, t.filterWindowLen)
  {
    match t.session
    case None => Err(NotStarted)
    case Some(s) => Ok(MedianFilter.Filter(s.history, t.filterWindowLen))
  }

  // ---------------------------------------------------------------------------
  // Properties

  /** Every life-cycle operation keeps the construction guarantees and the bound on the history */
  lemma OperationsPreserveValid(t: Tracker, d: int, th: real)
    requires Valid(t)
    ensures Valid(StartTracking(t))
    ensures StopTracking(t).Ok? ==> Valid(StopTracking(t).value)
    ensures ChangeDevice(t, d).Ok? ==> Valid(ChangeDevice(t, d).value)
    ensures SetSilence(t, th).Ok? ==> Valid(SetSilence(t, th).value)
  {
  }

  /** The window lengths of the default configuration of the application
      (10 s of history, 0.2 s of filter window, the defaults for the rest) */
  lemma DefaultConfiguration()
    ensures NewTracker(0, DefaultBufferSize, DefaultSampleRate, AppAnalysisWindow, DefaultFilterWindow,
                       AppSilenceThreshold, DefaultLowestFrequency).Ok?
    ensures var t := NewTracker(0, DefaultBufferSize, DefaultSampleRate, AppAnalysisWindow, DefaultFilterWindow,
                                AppSilenceThreshold, DefaultLowestFrequency).value;
            t.hopSize == 675 && t.analysisWindowLen == 654 && t.filterWindowLen == 14
  {
  }

  /** The constructor's own defaults: the same hop, a history of 1960 hops (30 s) and a
      filter of 14 hops, with the silence threshold kept */
  lemma ConstructorDefaults()
    ensures NewTracker(0, DefaultBufferSize, DefaultSampleRate, DefaultAnalysisWindow, DefaultFilterWindow,
                       DefaultSilenceThreshold, DefaultLowestFrequency).Ok?
    ensures var t := NewTracker(0, DefaultBufferSize, DefaultSampleRate, DefaultAnalysisWindow, DefaultFilterWindow,
                                DefaultSilenceThreshold, DefaultLowestFrequency).value;
            && t.hopSize == 675 && t.analysisWindowLen == 1960 && t.filterWindowLen == 14
            && t.silenceThreshold == DefaultSilenceThreshold
  {
  }

  /** Equal analysis and filter windows are accepted */
  lemma EqualWindowsAccepted(bufferSize: int, sampleRate: int, window: real, lowestFrequency: real)
    requires sampleRate > 0 && lowestFrequency > 0.0
    requires sampleRate as real / lowestFrequency <= bufferSize as real
    ensures NewTracker(0, bufferSize, sampleRate, window, window, 0.0, lowestFrequency).Ok?
  {
  }
}
