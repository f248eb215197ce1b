# Pitch tracker — a Dafny model of its core

The pitch tracker listens to a microphone and displays the singer's pitch as a curve over a
scrolling note grid. This project models the sequential logic behind that display:

- **Note arithmetic** (`NoteHelper`). Converts between note names such as `"C#4"` and
  semitone values, where 0 is C0. Parsing follows the prefix pattern `([A-G]#?)(\d)` and
  the twelve-entry chromatic table. Printing uses floor division and modulo by 12. The
  distance of two names is also modelled. Frequency conversions go through `FloatMath`, a
  record of uninterpreted functions standing for `12 * log2(freq / C0)` and `2^x`. Only
  the 0 Hz sentinel (-1) and Python's round-half-even are stated exactly.
- **The tracker** (`PitchTracker`, `Analysis`, `MedianFilter`, `Statistics`).
  - Construction derives the hop size and the two window lengths with exact ceilings and
    refuses a hop longer than the buffer or a filter window longer than the analysis window.
  - The capture loop is one append-then-evict step per hop on a bounded history. The
    audio analysis that produces each record is a parameter.
  - The life cycle is start, stop, change device and set silence threshold. A tracker
    never started has no session: stopping or reading it fails with `NotStarted`, where
    Python raises `AttributeError`.
  - `get_analysis_results` de-spikes the snapshot. Each interior pitch is compared with
    the median of the original pitches in the window `[i - f, i + f)`. It is replaced by
    that median when it is off by more than a factor of 1.5. The median is defined
    through a sorted copy, as numpy computes it.
- **The camera of the graph** (`PitchTrackerGraph`).
  - The initial view is E2 to E4.
  - A frequency is mapped to a screen height, linear in note space, with a zero-range
    guard.
  - `update_camera_bounds` estimates the range. A pitch qualifies when it is audible, at
    most 2000 Hz, and its rounded note occurs more than 10 times in the snapshot. The
    target notes pad the lowest and highest qualifying pitch by one semitone each. A
    change of target restarts the animation from the current view. Where the source
    starts its scan from `+inf`, the model uses an explicit `found` flag.
  - `update_camera` advances the animation, clamped at 1. Each edge of the view is the
    exponential ease-in-out interpolation from where the animation started (progress 0)
    to its target (progress 1). The frame right after a retarget, before any time
    passes, shows the view unchanged (`PitchTrackerGraph.RetargetIsContinuous`).
  - The curve loop of `render` splits the samples into polylines. It is modelled as the
    list of index ranges it draws.
- **Easing** (`Interpolation`): `linear`, `ease_in_out_quad`, `ease_in_out_expo` (its
  guarded end points exactly, its middle through `pow2`) and `interp`.

The retargeting and the displayed-note read-back in `update_camera_bounds` and
`update_camera` (`src/main.py:153-157`, `src/main.py:175-176`) use the default 440 Hz
standard pitch, not the configured one. The model keeps that: `Retarget` and
`UpdateCamera` use `DefaultStandardPitch`.

With the application's settings (44100 Hz, 4096-sample buffer, lowest frequency 65.4064 Hz,
10 s of history, 0.2 s filter window), the hop is `ceil(44100 / 65.4064) = ceil(674.24…) = 675`
samples. The analysis and filter windows are then 654 and 14 hops
(`PitchTracker.DefaultConfiguration`).

## Model

| member | source | states |
|---|---|---|
| `NoteHelper.ParseNoteName` | src/note_helper.py:42-49 | a successful parse returns a name of the pattern `[A-G]#?` and a single-digit octave, and the input starts with exactly that name followed by that digit |
| `NoteHelper.ParseAcceptsPattern` | src/note_helper.py:42-49 | every pattern name followed by a digit parses to that name and digit, whatever text follows |
| `NoteHelper.TrailingTextIgnored` | src/note_helper.py:29-49 | text after the octave digit changes neither the parse nor the value (`"C#45"` is C#4) |
| `NoteHelper.IndexOf` | src/note_helper.py:32 | finds the first position holding the name, and fails exactly when the name is absent, as `list.index` |
| `NoteHelper.NoteNameToValue` | src/note_helper.py:29-32 | the value is twelve times the parsed octave plus the table index of the parsed name, so always in 0..119; an unparsable name is `NoMatch`; a parsed name fails exactly when the table lacks it |
| `NoteHelper.NoteNamesIndex` | src/note_helper.py:4 | the table holds no name twice: the index of the k-th name is k |
| `NoteHelper.UnknownNameRejected` | src/note_helper.py:29-32 | a pattern name missing from the table is refused with `UnknownName`, whatever follows the digit |
| `NoteHelper.SharpEAndSharpBRejected` | src/note_helper.py:4-6 | "E#" and "B#" match the pattern but are refused by the table lookup |
| `NoteHelper.NameToValue` | src/note_helper.py:29-32 | the name of table entry k with octave digit d has value 12·d + k |
| `NoteHelper.ValueToNoteName` | src/note_helper.py:35-39 | the name is the table entry k followed by the printed octave o, where value = 12·o + k and 0 ≤ k < 12: Python's floor division and modulo, also for negative values |
| `NoteHelper.ValueToName` | src/note_helper.py:35-39 | the value 12·d + k, for k < 12 and a digit d, prints as table entry k followed by d |
| `NoteHelper.NameRoundTrip` | src/note_helper.py:29-39 | name → value → name returns every table name with a one-digit octave |
| `NoteHelper.ValueRoundTrip` | src/note_helper.py:29-39 | value → name → value returns v exactly when 0 ≤ v < 120 |
| `NoteHelper.NegativeValueUnparsable` | src/note_helper.py:35-49 | a negative value prints with a minus sign before the octave, which the parser refuses |
| `NoteHelper.ValueToNoteNameExamples` | src/note_helper.py:35-39 | floor semantics: -1 is "B-1", 12 is "C1", 28 is "E2"; "C#45" reads as 49 |
| `NoteHelper.GetNoteDistance` | src/note_helper.py:52-56 | the distance exists exactly when both names have values, is their absolute difference, reports the first name's error first, and otherwise the second name's error |
| `NoteHelper.NoteDistanceSymmetric` | src/note_helper.py:52-56 | swapping the two names neither changes success nor the distance |
| `NoteHelper.NoteDistanceToItself` | src/note_helper.py:52-56 | a valid name is at distance 0 from itself |
| `NoteHelper.RoundHalfEven` | src/note_helper.py:17-18 | Python's `round`: the result is within one half of the input, and an exact tie goes to the even integer |
| `NoteHelper.RoundHalfEvenMonotone` | src/note_helper.py:17-18 | rounding keeps the order of its arguments |
| `NoteHelper.FrequencyToNote` | src/note_helper.py:9-20 | 0 Hz gives the sentinel -1 for any standard pitch; any other frequency gives the nearest integer to its continuous note value |
| `NoteHelper.FrequencyToNoteUnrounded` | src/note_helper.py:9-20 | without rounding, 0 Hz still gives -1; any other frequency gives a value within one half of the rounded note |
| `NoteHelper.RoundedIsRoundOfUnrounded` | src/note_helper.py:9-20 | the rounded note is Python's `round` of the unrounded value for every frequency, the 0 Hz sentinel included |
| `NoteHelper.FrequencyToNoteUnroundedMonotone` | src/note_helper.py:14-15 | if the continuous note value rises with frequency, the unrounded note never decreases as a positive frequency rises |
| `NoteHelper.FrequencyToNoteMonotone` | src/note_helper.py:9-20 | if the continuous note value rises with frequency, so does the rounded note |
| `NoteHelper.NoteToFrequency` | src/note_helper.py:23-26 | for a positive standard pitch and a `pow2` that is always positive, every note has a positive frequency |
| `NoteHelper.OctaveDoublesFrequency` | src/note_helper.py:23-26 | if `pow2` doubles when its exponent grows by one, twelve semitones up doubles the frequency |
| `NoteHelper.NoteFrequencyRoundTrip` | src/note_helper.py:9-26 | if `semitones` undoes `note_to_frequency`, a whole note taken to its frequency and back is that note: the frequency is never the 0 Hz sentinel and rounding keeps an integer |
| `Interpolation.Linear` | src/interpolation.py:3-4 | the linear curve returns its argument |
| `Interpolation.EaseInOutQuad` | src/interpolation.py:7-8 | the quadratic curve maps [0, 1] into [0, 1] |
| `Interpolation.EaseInOutExpo` | src/interpolation.py:11-21 | the guarded ends: 0 maps to 0 and 1 maps to 1 exactly |
| `Interpolation.Interp` | src/interpolation.py:24-25 | the result is `x0` when the curve gives 0 and `x1` when it gives 1; it is `x0` when both ends agree; it stays between `x0` and `x1` for a curve value in [0, 1] |
| `Interpolation.EasingEndpoints` | src/interpolation.py:3-16 | all three curves fix 0 and 1, and the linear and quadratic ones pass 1/2 at 1/2 |
| `Interpolation.EaseInOutQuadSymmetric` | src/interpolation.py:7-8 | the quadratic curve is point-symmetric about (1/2, 1/2) |
| `Interpolation.EaseInOutExpoSymmetric` | src/interpolation.py:11-21 | the exponential curve is point-symmetric about (1/2, 1/2) everywhere but its midpoint |
| `Interpolation.EaseInOutQuadMonotone` | src/interpolation.py:7-8 | the quadratic curve never decreases on [0, 1] |
| `Interpolation.InterpLandsOnEndpoints` | src/interpolation.py:24-25 | along any curve that fixes 0 and 1, interpolation starts at `x0` and lands on `x1` |
| `Analysis.Pitches` | src/pitch_tracker.py:147 | the pitch column has one entry per record, holding that record's pitch |
| `Statistics.Sort` | src/pitch_tracker.py:155 | the sorted copy that the median reads is sorted and a permutation of the window |
| `Statistics.InsertSorted` | src/pitch_tracker.py:155 | placing an element into a sorted sequence keeps it sorted |
| `Statistics.MedianOfInputEntries` | src/pitch_tracker.py:155 | the median of a window is one of its pitches for an odd length, and the mean of two of its pitches in general |
| `Statistics.MedianWithinBounds` | src/pitch_tracker.py:155 | the median lies between the smallest and the largest pitch of the window |
| `Statistics.MedianOfMajority` | src/pitch_tracker.py:155 | a pitch held by more than half of the window is its median |
| `Statistics.MedianOfConstant` | src/pitch_tracker.py:155 | the median of a constant window is that constant |
| `MedianFilter.Filter` | src/pitch_tracker.py:144-164 | only pitches change and the length is kept; with a non-positive filter length or a history shorter than it, the snapshot is returned as is; the f indices at each end keep their pitch; an interior pitch becomes the median of the original pitches in `[i-f, i+f)` exactly when it is below median/1.5 or above median·1.5 |
| `MedianFilter.FilterResults` | src/pitch_tracker.py:146-164 | the loop the source runs over the copied pitch column, zipped back with the other columns, computes `Filter` |
| `MedianFilter.FilterPitches` | src/pitch_tracker.py:149-158 | the in-place loop over the interior leaves every index at its filtered pitch |
| `MedianFilter.ConstantUnchanged` | src/pitch_tracker.py:146-164 | a constant pitch track passes unchanged |
| `MedianFilter.SpikeReplacedByMajority` | src/pitch_tracker.py:152-158 | when more than half of the window holds one pitch c, an outlier of c is replaced by c and any other pitch is kept |
| `MedianFilter.FixedPointIffClean` | src/pitch_tracker.py:152-158 | for non-negative pitches, the filter changes nothing exactly when no interior pitch is an outlier of its window median |
| `PitchTracker.Ceil` | src/pitch_tracker.py:106 | `math.ceil`: the smallest integer not below the input |
| `PitchTracker.HopSize` | src/pitch_tracker.py:106 | the hop is the sample count of one period of the lowest frequency, rounded up |
| `PitchTracker.WindowLength` | src/pitch_tracker.py:112-114 | a window length is the number of hops in the given seconds, rounded up |
| `PitchTracker.NewTracker` | src/pitch_tracker.py:90-117 | construction fails with `HopExceedsBuffer` exactly when sample rate / lowest frequency exceeds the buffer, so equality is accepted; it fails with `DivisionByZero` on a zero lowest frequency, and on a zero sample rate or hop once the hop fits; past those checks it succeeds exactly when the filter window is no longer than the analysis window and otherwise fails with `FilterExceedsWindow`; a constructed tracker keeps its arguments, has hop ≤ buffer and filter length ≤ analysis length, and is not yet started |
| `PitchTracker.EqualWindowsAccepted` | src/pitch_tracker.py:108-117 | equal analysis and filter windows pass validation |
| `PitchTracker.DefaultConfiguration` | src/pitch_tracker.py:106-114 | the application's settings give a hop of 675 samples and windows of 654 and 14 hops |
| `PitchTracker.ConstructorDefaults` | src/pitch_tracker.py:90-114 | the constructor's default arguments are accepted and give a hop of 675 samples, windows of 1960 and 14 hops, and keep the -50 dB threshold |
| `PitchTracker.AppendEvict` | src/pitch_tracker.py:82-85 | one hop appends the new record last; it drops the oldest record exactly when the history already held a full window, and keeps everything otherwise; a history within the window stays within it |
| `PitchTracker.RunCapture` | src/pitch_tracker.py:67-85 | feeding N records to a fresh history keeps exactly the last min(N, window) of them, in arrival order |
| `PitchTracker.CaptureStep` | src/pitch_tracker.py:67-85 | a running loop's hop keeps the tracker valid and changes only the history, which becomes the old one with the record appended and the oldest evicted as `AppendEvict` does; a stopped or never started loop changes nothing |
| `PitchTracker.StartTracking` | src/pitch_tracker.py:122-136 | starting installs a fresh, empty history with an unset stop flag and leaves the configuration alone |
| `PitchTracker.StopTracking` | src/pitch_tracker.py:139-141 | stopping fails exactly when tracking was never started; otherwise it sets the stop flag and keeps the history and configuration |
| `PitchTracker.ChangeDevice` | src/pitch_tracker.py:167-170 | stop then start: only the device changes, and the history is emptied; it fails exactly when never started |
| `PitchTracker.SetSilence` | src/pitch_tracker.py:173-176 | stop then start: only the silence threshold changes, and the history is emptied; it fails exactly when never started |
| `PitchTracker.GetAnalysisResults` | src/pitch_tracker.py:144-164 | reading fails exactly when never started; otherwise it returns the median-filtered history (`MedianFilter.Filter` with the filter length), so only pitches change, and nothing changes for a non-positive filter length |
| `PitchTracker.OperationsPreserveValid` | src/pitch_tracker.py:122-176 | start, stop, change device and set silence keep the construction guarantees and the bound on the history |
| `PitchTrackerGraph.InitialNotesNamed` | src/main.py:82-89 | the names "E2" and "E4" have the values 28 and 52 |
| `PitchTrackerGraph.InitialCamera` | src/main.py:82-96 | the initial view is E2 to E4, its edge frequencies are those notes' frequencies at the configured standard pitch, note, target and previous agree on both edges, and the animation is at 0 |
| `PitchTrackerGraph.FrequencyToYCoord` | src/main.py:110-126 | a view without range draws everything at 0; otherwise the lowest displayed note is at the bottom edge and the highest at the top |
| `PitchTrackerGraph.ScreenHeight` | src/main.py:121-126 | the linear map of note space onto the surface sends low to the height and high to 0, with the zero-range guard |
| `PitchTrackerGraph.HigherNotesDrawnHigher` | src/main.py:110-126 | on a view with range, a higher note is drawn strictly higher up |
| `PitchTrackerGraph.HigherFrequenciesDrawnHigher` | src/main.py:110-126 | if the continuous note value rises strictly with frequency, as 12·log2 does, then on a view with ordered positive edges a strictly higher positive frequency is drawn strictly higher up |
| `PitchTrackerGraph.ScreenHeightDecreasing` | src/main.py:121-126 | the height strictly decreases as the note rises |
| `PitchTrackerGraph.EqualNoteSpacing` | src/main.py:121-126 | with linear scaling (the default at src/main.py:69) notes are spaced equally: one semitone up always moves the height by the same amount, the surface height over the note range |
| `PitchTrackerGraph.NoteValues` | src/main.py:130 | one rounded note per record, under the configured standard pitch |
| `PitchTrackerGraph.Count` | src/main.py:132 | `list.count`: the number of occurrences of the note, as the multiset of notes records it |
| `PitchTrackerGraph.Qualifies` | src/main.py:139 | a qualifying pitch's note occurs among the notes of the snapshot, and the snapshot has more than 10 records |
| `PitchTrackerGraph.Candidates` | src/main.py:137-143 | every pitch the scan keeps qualifies: audible, at most 2000 Hz, and its note occurring more than 10 times |
| `PitchTrackerGraph.CandidateIsQualifyingPitch` | src/main.py:137-143 | every kept pitch is the pitch of a qualifying record |
| `PitchTrackerGraph.QualifyingIsCandidate` | src/main.py:137-143 | every qualifying record's pitch is kept |
| `PitchTrackerGraph.QualifyingExtremes` | src/main.py:134-143 | the scan finds a qualifying record exactly when one exists, and then returns the lowest and highest qualifying pitch, both attained |
| `PitchTrackerGraph.ExtremesAreCandidateBounds` | src/main.py:134-143 | the scanned extremes are the minimum and maximum of the kept pitches |
| `PitchTrackerGraph.ScanGivesTargets` | src/main.py:134-147 | the scan asks for new targets exactly when the highest qualifying pitch exceeds the lowest, and then for their notes padded by one semitone |
| `PitchTrackerGraph.TargetNotes` | src/main.py:145-147 | if notes rise with frequency, the requested low target lies at least two semitones below the high one |
| `PitchTrackerGraph.TargetsIffSpread` | src/main.py:134-147 | a snapshot requests target notes exactly when two of its qualifying records differ in pitch |
| `PitchTrackerGraph.CandidateSpread` | src/main.py:134-145 | the kept pitches spread over more than one value exactly when two qualifying records differ in pitch; for a monotone note scale the lowest kept pitch has the lower note |
| `PitchTrackerGraph.Retarget` | src/main.py:149-159 | a new target makes the current view the animation start, resets the animation, and takes the target frequencies and notes at the default 440 Hz standard pitch |
| `PitchTrackerGraph.ApplyTargets` | src/main.py:145-159 | the camera changes only when the requested notes differ from the current targets |
| `PitchTrackerGraph.UpdateCameraBounds` | src/main.py:129-159 | the source's scan-and-retarget equals applying the target notes of the snapshot |
| `PitchTrackerGraph.TargetsCoverQualifyingPitches` | src/main.py:145-147 | if notes rise with frequency, every qualifying pitch's note lies strictly inside the new target range |
| `PitchTrackerGraph.NoSpreadNoRetarget` | src/main.py:145 | without two distinct qualifying pitches the camera does not move |
| `PitchTrackerGraph.RetargetSettles` | src/main.py:149-157 | when the target notes survive the trip through frequency and back, a second look at the same snapshot does not reset the animation again |
| `PitchTrackerGraph.RetargetSettlesWithExactMath` | src/main.py:149-157 | with exact `log2` and `pow`, the requested notes survive the trip through the 440 Hz frequency, so a second look at the same snapshot does not reset the animation |
| `PitchTrackerGraph.UpdateCamera` | src/main.py:162-178 | progress grows by Δt / 0.5 up to 1 and never decreases from within [0, 1]; each edge is the exponential ease-in-out interpolation from its previous to its target frequency at that progress, so it shows the previous frequency at 0 and the target at 1, and an edge already at its target stays there; displayed notes are read at 440 Hz; nothing else changes |
| `PitchTrackerGraph.RetargetIsContinuous` | src/main.py:149-173 | the frame after a retarget, with no time elapsed, shows the same edge frequencies as before the retarget: the animation starts from the current view |
| `PitchTrackerGraph.Animate` | src/main.py:181-182 | repeated frames keep targets and animation starts, and after a frame with progress 1 the view shows the targets |
| `PitchTrackerGraph.AnimationProgress` | src/main.py:163-165 | after frames of total length T the progress is at least min(1, p + T / 0.5) and at most 1 |
| `PitchTrackerGraph.LandsAfterAnimationDuration` | src/main.py:163-173 | however the frames fall, after half a second in total the view shows exactly the target frequencies |
| `PitchTrackerGraph.CloseRunOrdered` | src/main.py:250-257 | closing a run at a silent or out-of-range sample keeps the drawn polylines maximal and in order |
| `PitchTrackerGraph.CloseRunCovered` | src/main.py:250-257 | closing a run covers every sample of it that has a drawable neighbour |
| `PitchTrackerGraph.CurveSegments` | src/main.py:244-269 | every drawn polyline is a maximal run of at least two consecutive drawable samples (audible, at most 2000 Hz), the polylines come in order without touching, and every drawable sample with a drawable neighbour is drawn |

## Left out

- Audio capture, pitch, onset and volume estimation, the device list, and the packaging
  script. These are device I/O and foreign signal processing. Each hop's record is an
  input of `CaptureStep` and `RunCapture`.
- Processes, the shared list, the stop event and `join`. Concurrency is not modelled:
  the life cycle is a sequence of state transitions, and a stopped loop appends nothing.
  Starting twice replaces the session; the orphaned process the source leaves behind is
  not modelled.
- All pygame drawing. This covers the surface, fonts, the note column and grid lines,
  the x coordinate of curve points, `num_notes_on_display` and the font scaling, window
  handling and the main loop. The curve loop is modelled as the index ranges it draws.
- The `EXPONENTIAL_SCALING` branch of `frequency_to_y_coord`. Its switch is the constant
  `False`, so only the note-space branch is live.
- Floating point. Reals are exact, so `PitchTracker.HopSize` and
  `PitchTracker.WindowLength` do not model the rounding of `(1 / f) * sr` and of
  `hop / sr` before the ceiling.
- `NoteHelper.FrequencyToNote`: `log2` and `pow` are uninterpreted (`FloatMath`), so only
  the 0 Hz sentinel, the rounding, and order preservation under an assumed monotone
  `log2` are stated. For a negative frequency or a negative standard pitch, Python's
  `math.log2` raises `ValueError`, and a zero standard pitch raises `ZeroDivisionError`
  (`src/note_helper.py:14-15`). The model returns a value there instead. Pitches are
  never negative, so only a settings file with a standard pitch ≤ 0 (`src/main.py:459`)
  would lead the program there.
- `NoteHelper.NoteToFrequency`: `pow` is uninterpreted, so its properties are stated
  under assumptions about `pow2`: positivity, doubling, and `semitones` as its inverse.
- `Interpolation.EaseInOutExpo`: the middle branches are stated only in terms of an
  uninterpreted `pow2`. Their range, and their value at 1/2, are not proved.
- `PitchTrackerGraph.RetargetIsContinuous`: only the frame with no elapsed time is covered.
  For 0 < x < 1/2 the source's exponential curve is 2^(20x - 10) / 2, which tends to 2^-11,
  not 0, as x approaches 0. So the first frame with any positive Δt after a retarget moves
  each edge by at least 1/2048 of the distance to its target. With `pow2` uninterpreted,
  the model does not state this small step.
- `NoteHelper.IsDigit`: `\d` is taken as the ASCII digits 0-9. Python's `re` also
  accepts other Unicode decimal digits.
- `PitchTrackerGraph.Qualifies`: the source's occurrence dictionary is replaced by
  counting the note directly (`Count`), which gives the same number for every note.
