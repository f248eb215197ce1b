/** The camera of the pitch graph: which note range is on screen, how it follows
    the singer's range, and how pitches map to screen heights; plus the splitting of
    the pitch curve into drawable polylines. */
module PitchTrackerGraph {
  import opened Wrappers
  import opened Analysis
  import opened NoteHelper
  import opened Statistics
  import opened Interpolation

  /** Pitches above this are not drawn and do not move the camera (Hz) */
  const HighestPitchToDisplay: real := 2000.0

  /** Seconds a camera transition takes */
  const AnimationDuration: real := 0.5

  /** A note must occur more often than this in the history to move the camera */
  const MinOccurrenceAgainstOutliers: int := 10

  /** The notes the camera starts with */
  const InitialLowestNote: int := 28   // E2
  const InitialHighestNote: int := 52  // E4

  /** The camera: for each edge of the view the note shown, the target note, and the
      displayed, previous (animation start) and target frequency; plus the animation
      progress in [0, 1] */
  datatype Camera = Camera(
    lowestNote: int,
    lowestNoteTarget: int,
    lowestFrequency: real,
    lowestFrequencyPrevious: real,
    lowestFrequencyTarget: real,
    highestNote: int,
    highestNoteTarget: int,
    highestFrequency: real,
    highestFrequencyPrevious: real,
    highestFrequencyTarget: real,
    cameraLerp: real)

  /** The initial notes are the values of the names "E2" and "E4" */
  lemma InitialNotesNamed()
    ensures NoteNameToValue("E2") == Ok(InitialLowestNote)
    ensures NoteNameToValue("E4") == Ok(InitialHighestNote)
  {
    assert "E2" == NoteNames[4] + [DigitChar(2)];
    assert "E4" == NoteNames[4] + [DigitChar(4)];
    NameToValue(4, 2);
    NameToValue(4, 4);
  }

  /** The camera as constructed: E2 to E4, at rest, with the configured standard pitch */
  function InitialCamera(m: FloatMath, standardPitch: real): (c: Camera)
    ensures c.lowestNote == c.lowestNoteTarget == InitialLowestNote
    ensures c.highestNote == c.highestNoteTarget == InitialHighestNote
    ensures c.lowestFrequencyPrevious == c.lowestFrequency == c.lowestFrequencyTarget
    ensures c.highestFrequencyPrevious == c.highestFrequency == c.highestFrequencyTarget
    ensures c.cameraLerp == 0.0
    ensures c.lowestFrequency == NoteToFrequency(m, InitialLowestNote as real, standardPitch)
    ensures c.highestFrequency == NoteToFrequency(m, InitialHighestNote as real, standardPitch)
  {
    InitialNotesNamed();
    var lowestNote := NoteNameToValue("E2").value;
    var lowestFrequency := NoteToFrequency(m, lowestNote as real, standardPitch);
    var highestNote := NoteNameToValue("E4").value;
    var highestFrequency := NoteToFrequency(m, highestNote as real, standardPitch);
    Camera(lowestNote, lowestNote, lowestFrequency, lowestFrequency, lowestFrequency,
           highestNote, highestNote, highestFrequency, highestFrequency, highestFrequency,
           0.0)
  }

  // ---------------------------------------------------------------------------
  // Mapping pitches to the screen

  /** Height on the surface (0 = top) of a frequency, linear in note space between the
      displayed lowest (bottom edge) and highest (top edge) frequency */
  function FrequencyToYCoord(cam: Camera, m: FloatMath, standardPitch: real, surfaceHeight: real, freq: real): (y: real)
    ensures var low := FrequencyToNoteUnrounded(m, cam.lowestFrequency, standardPitch);
            var high := FrequencyToNoteUnrounded(m, cam.highestFrequency, standardPitch);
            var note := FrequencyToNoteUnrounded(m, freq, standardPitch);
            && (high == low ==> y == 0.0)
            && (high != low && note == low ==> y == surfaceHeight)
            && (high != low && note == high ==> y == 0.0)
  {
    ScreenHeight(surfaceHeight,
                 FrequencyToNoteUnrounded(m, cam.lowestFrequency, standardPitch),
                 FrequencyToNoteUnrounded(m, cam.highestFrequency, standardPitch),
                 FrequencyToNoteUnrounded(m, freq, standardPitch))
  }

  /** The linear map of note space onto the surface height; a view without range maps
      everything to the top */
  function ScreenHeight(surfaceHeight: real, low: real, high: real, note: real): (y: real)
    ensures high == low ==> y == 0.0
    ensures high != low && note == low ==> y == surfaceHeight
    ensures high != low && note == high ==> y == 0.0
  {
    var range := high - low;
    if range == 0.0 then 0.0
    else
      assert note == high ==> surfaceHeight * (note - low) / range == surfaceHeight;
      surfaceHeight - surfaceHeight * (note - low) / range
  }

  /** On a non-empty view, a higher note is drawn strictly higher up */
  lemma HigherNotesDrawnHigher(cam: Camera, m: FloatMath, sp: real, surfaceHeight: real, f1: real, f2: real)
    requires surfaceHeight > 0.0
    requires FrequencyToNoteUnrounded(m, cam.lowestFrequency, sp) < FrequencyToNoteUnrounded(m, cam.highestFrequency, sp)
    requires FrequencyToNoteUnrounded(m, f1, sp) < FrequencyToNoteUnrounded(m, f2, sp)
    ensures FrequencyToYCoord(cam, m, sp, surfaceHeight, f1) > FrequencyToYCoord(cam, m, sp, surfaceHeight, f2)
  {
    ScreenHeightDecreasing(surfaceHeight,
                           FrequencyToNoteUnrounded(m, cam.lowestFrequency, sp),
                           FrequencyToNoteUnrounded(m, cam.highestFrequency, sp),
                           FrequencyToNoteUnrounded(m, f1, sp),
                           FrequencyToNoteUnrounded(m, f2, sp));
  }

  /** With a `semitones` that rises strictly, as 12 * log2 does, a strictly higher
      positive frequency is drawn strictly higher on a view whose edges are ordered */
  lemma HigherFrequenciesDrawnHigher(cam: Camera, m: FloatMath, sp: real, surfaceHeight: real, f1: real, f2: real)
    requires StrictlyMonotone(m, sp)
    requires surfaceHeight > 0.0
    requires 0.0 < cam.lowestFrequency < cam.highestFrequency
    requires 0.0 < f1 < f2
    ensures FrequencyToYCoord(cam, m, sp, surfaceHeight, f1) > FrequencyToYCoord(cam, m, sp, surfaceHeight, f2)
  {
    assert m.semitones(cam.lowestFrequency, sp) < m.semitones(cam.highestFrequency, sp);
    assert m.semitones(f1, sp) < m.semitones(f2, sp);
    HigherNotesDrawnHigher(cam, m, sp, surfaceHeight, f1, f2);
  }

  lemma ScreenHeightDecreasing(h: real, low: real, high: real, n1: real, n2: real)
    requires h > 0.0 && low < high && n1 < n2
    ensures ScreenHeight(h, low, high, n1) > ScreenHeight(h, low, high, n2)
  {
    var d := high - low;
    var a, b := h * (n1 - low) / d, h * (n2 - low) / d;
    ScaleKeepsOrder(h, n1 - low, n2 - low, d);
    assert a < b;
    assert ScreenHeight(h, low, high, n1) == h - a;
    assert ScreenHeight(h, low, high, n2) == h - b;
  }

  /** Equal note spacing: one semitone up always moves the height by the same amount */
  lemma EqualNoteSpacing(h: real, low: real, high: real, n: real)
    requires high != low
    ensures ScreenHeight(h, low, high, n + 1.0) - ScreenHeight(h, low, high, n) == -h / (high - low)
  {
    var d := high - low;
    assert h * (n + 1.0 - low) / d == h * (n - low) / d + h / d;
  }

  lemma ScaleKeepsOrder(h: real, a: real, b: real, d: real)
    requires h > 0.0 && a < b && d > 0.0
    ensures h * a / d < h * b / d
  {
    assert h * a < h * b;
  }

  // ---------------------------------------------------------------------------
  // Following the singer's range

  /** The rounded note of every result, silence included (as -1) */
  function NoteValues(m: FloatMath, sp: real, rs: seq<AnalysisResult>): (notes: seq<int>)
    ensures |notes| == |rs|
    ensures forall i :: 0 <= i < |rs| ==> notes[i] == FrequencyToNote(m, rs[i].pitch, sp)
  {
    seq(|rs|, i requires 0 <= i < |rs| => FrequencyToNote(m, rs[i].pitch, sp))
  }

  /** A pitch moves the camera only if it is audible, displayable, and its note occurs
      more than `MinOccurrenceAgainstOutliers` times among `notes` */
  predicate Qualifies(m: FloatMath, sp: real, notes: seq<int>, p: real)
    ensures Qualifies(m, sp, notes, p) ==> FrequencyToNote(m, p, sp) in notes
    ensures Qualifies(m, sp, notes, p) ==> |notes| > MinOccurrenceAgainstOutliers
  {
    && 0.0 < p <= HighestPitchToDisplay
    && Count(notes, FrequencyToNote(m, p, sp)) > MinOccurrenceAgainstOutliers
  }

  /** How often `x` occurs in `xs`, as Python's `list.count` */
  function Count(xs: seq<int>, x: int): (n: nat)
    ensures n == multiset(xs)[x]
    ensures n <= |xs|
  {
    if |xs| == 0 then 0
    else
      assert xs == [xs[0]] + xs[1..];
      (if xs[0] == x then 1 else 0) + Count(xs[1..], x)
  }

  /** The qualifying pitches of `rs`, in order */
  function Candidates(m: FloatMath, sp: real, notes: seq<int>, rs: seq<AnalysisResult>): (c: seq<real>)
    ensures |c| <= |rs|
    ensures forall k :: 0 <= k < |c| ==> Qualifies(m, sp, notes, c[k])
  {
    if |rs| == 0 then []
    else
      var rest := Candidates(m, sp, notes, rs[1..]);
      if Qualifies(m, sp, notes, rs[0].pitch) then [rs[0].pitch] + rest else rest
  }

  /** The target notes a snapshot asks for: one semitone below the lowest and above the
      highest qualifying pitch, provided those two differ */
  function TargetNotes(m: FloatMath, sp: real, rs: seq<AnalysisResult>): (r: Option<(int, int)>)
    ensures Monotone(m, sp) && r.Some? ==> r.value.0 + 2 <= r.value.1
  {
    CandidateSpread(m, sp, NoteValues(m, sp, rs), rs);
    var c := Candidates(m, sp, NoteValues(m, sp, rs), rs);
    if |c| > 0 && SeqMax(c) > SeqMin(c) then
      Some((FrequencyToNote(m, SeqMin(c), sp) - 1, FrequencyToNote(m, SeqMax(c), sp) + 1))
    else
      None
  }

  /** The snapshot asks for new target notes exactly when two qualifying results differ in pitch */
  lemma TargetsIffSpread(m: FloatMath, sp: real, rs: seq<AnalysisResult>)
    ensures TargetNotes(m, sp, rs).Some? <==>
              exists i, j :: && 0 <= i < |rs| && 0 <= j < |rs|
                             && Qualifies(m, sp, NoteValues(m, sp, rs), rs[i].pitch)
                             && Qualifies(m, sp, NoteValues(m, sp, rs), rs[j].pitch)
                             && rs[i].pitch < rs[j].pitch
  {
    CandidateSpread(m, sp, NoteValues(m, sp, rs), rs);
  }

  /** The candidates spread over more than one pitch exactly when two qualifying results
      differ in pitch; then, for a monotone note scale, the lowest candidate's note is
      at most the highest one's */
  lemma CandidateSpread(m: FloatMath, sp: real, notes: seq<int>, rs: seq<AnalysisResult>)
    ensures var c := Candidates(m, sp, notes, rs);
            (|c| > 0 && SeqMax(c) > SeqMin(c)) <==>
              exists i, j :: && 0 <= i < |rs| && 0 <= j < |rs|
                             && Qualifies(m, sp, notes, rs[i].pitch) && Qualifies(m, sp, notes, rs[j].pitch)
                             && rs[i].pitch < rs[j].pitch
    ensures var c := Candidates(m, sp, notes, rs);
            Monotone(m, sp) && |c| > 0 ==> FrequencyToNote(m, SeqMin(c), sp) <= FrequencyToNote(m, SeqMax(c), sp)
  {
    var c := Candidates(m, sp, notes, rs);
    if |c| > 0 {
      SeqMinIsElement(c);
      SeqMaxIsElement(c);
      CandidateIsQualifyingPitch(m, sp, notes, rs, SeqMin(c));
      CandidateIsQualifyingPitch(m, sp, notes, rs, SeqMax(c));
      if Monotone(m, sp) {
        FrequencyToNoteMonotone(m, sp, SeqMin(c), SeqMax(c));
      }
    }
    if exists i, j :: && 0 <= i < |rs| && 0 <= j < |rs|
                      && Qualifies(m, sp, notes, rs[i].pitch) && Qualifies(m, sp, notes, rs[j].pitch)
                      && rs[i].pitch < rs[j].pitch {
      var i, j :| && 0 <= i < |rs| && 0 <= j < |rs|
                  && Qualifies(m, sp, notes, rs[i].pitch) && Qualifies(m, sp, notes, rs[j].pitch)
                  && rs[i].pitch < rs[j].pitch;
      QualifyingIsCandidate(m, sp, notes, rs, i);
      QualifyingIsCandidate(m, sp, notes, rs, j);
    }
  }

  /** Start a transition to new target notes from where the view is now.  The target
      frequencies use the default standard pitch, not the configured one. */
  function Retarget(cam: Camera, m: FloatMath, lowNote: int, highNote: int): (r: Camera)
    ensures r.lowestFrequencyPrevious == cam.lowestFrequency && r.highestFrequencyPrevious == cam.highestFrequency
    ensures r.cameraLerp == 0.0
    ensures r.lowestFrequency == cam.lowestFrequency && r.highestFrequency == cam.highestFrequency
    ensures r.lowestNote == cam.lowestNote && r.highestNote == cam.highestNote
    ensures r.lowestFrequencyTarget == NoteToFrequency(m, lowNote as real, DefaultStandardPitch)
    ensures r.highestFrequencyTarget == NoteToFrequency(m, highNote as real, DefaultStandardPitch)
    ensures r.lowestNoteTarget == FrequencyToNote(m, r.lowestFrequencyTarget, DefaultStandardPitch)
    ensures r.highestNoteTarget == FrequencyToNote(m, r.highestFrequencyTarget, DefaultStandardPitch)
  {
    var lowTarget := NoteToFrequency(m, lowNote as real, DefaultStandardPitch);
    var highTarget := NoteToFrequency(m, highNote as real, DefaultStandardPitch);
    cam.(lowestFrequencyPrevious := cam.lowestFrequency,
         highestFrequencyPrevious := cam.highestFrequency,
         lowestFrequencyTarget := lowTarget,
         highestFrequencyTarget := highTarget,
         lowestNoteTarget := FrequencyToNote(m, lowTarget, DefaultStandardPitch),
         highestNoteTarget := FrequencyToNote(m, highTarget, DefaultStandardPitch),
         cameraLerp := 0.0)
  }

  /** Retarget only when the requested notes differ from the current targets */
  function ApplyTargets(cam: Camera, m: FloatMath, targets: Option<(int, int)>): (r: Camera)
    ensures targets.None? ==> r == cam
    ensures targets.Some? && targets.value == (cam.lowestNoteTarget, cam.highestNoteTarget) ==> r == cam
    ensures targets.Some? && targets.value != (cam.lowestNoteTarget, cam.highestNoteTarget) ==>
              r == Retarget(cam, m, targets.value.0, targets.value.1)
  {
    match targets
    case None => cam
    case Some((low, high)) =>
      if low != cam.lowestNoteTarget || high != cam.highestNoteTarget then Retarget(cam, m, low, high) else cam
  }

  /** The scan of `update_camera_bounds`: lowest and highest qualifying pitch, with
      `found` telling whether there was any (the source starts from +inf and 0.0) */
  method QualifyingExtremes(m: FloatMath, sp: real, notes: seq<int>, rs: seq<AnalysisResult>) returns (lowest: real, highest: real, found: bool)
    ensures found <==> exists i :: 0 <= i < |rs| && Qualifies(m, sp, notes, rs[i].pitch)
    ensures found ==> && (exists i :: 0 <= i < |rs| && Qualifies(m, sp, notes, rs[i].pitch) && rs[i].pitch == lowest)
                      && (exists i :: 0 <= i < |rs| && Qualifies(m, sp, notes, rs[i].pitch) && rs[i].pitch == highest)
                      && (forall i :: 0 <= i < |rs| && Qualifies(m, sp, notes, rs[i].pitch) ==> lowest <= rs[i].pitch <= highest)
    ensures !found ==> highest == 0.0
  {
    lowest, highest, found := 0.0, 0.0, false;
    ghost var lo, hi := 0, 0;
    var i := 0;
    while i < |rs|
      invariant i <= |rs|
      invariant !found ==> forall j :: 0 <= j < i ==> !Qualifies(m, sp, notes, rs[j].pitch)
      invariant found ==> && 0 <= lo < i && Qualifies(m, sp, notes, rs[lo].pitch) && rs[lo].pitch == lowest
                          && 0 <= hi < i && Qualifies(m, sp, notes, rs[hi].pitch) && rs[hi].pitch == highest
      invariant found ==> forall j :: 0 <= j < i && Qualifies(m, sp, notes, rs[j].pitch) ==> lowest <= rs[j].pitch <= highest
      invariant !found ==> highest == 0.0
    {
      var pitch := rs[i].pitch;
      if Qualifies(m, sp, notes, pitch) {
        if !found || pitch < lowest {
          lowest := pitch;
          lo := i;
        }
        if pitch > highest {
          highest := pitch;
          hi := i;
        }
        found := true;
      }
      i := i + 1;
    }
  }

  /** `update_camera_bounds`: scan the snapshot and retarget if the range it asks for is new */
  method UpdateCameraBounds(cam: Camera, m: FloatMath, sp: real, rs: seq<AnalysisResult>) returns (next: Camera)
    ensures next == ApplyTargets(cam, m, TargetNotes(m, sp, rs))
  {
    var notes := NoteValues(m, sp, rs);
    var lowest, highest, found := QualifyingExtremes(m, sp, notes, rs);
    ScanGivesTargets(m, sp, rs, lowest, highest, found);
    next := cam;
    if found && highest > lowest {
      var newLowest := FrequencyToNote(m, lowest, sp) - 1;
      var newHighest := FrequencyToNote(m, highest, sp) + 1;
      if newLowest != cam.lowestNoteTarget || newHighest != cam.highestNoteTarget {
        next := Retarget(cam, m, newLowest, newHighest);
      }
    }
  }

  /** The target notes computed from the scanned extremes */
  lemma ScanGivesTargets(m: FloatMath, sp: real, rs: seq<AnalysisResult>, lowest: real, highest: real, found: bool)
    requires var notes := NoteValues(m, sp, rs);
             && (found <==> exists i :: 0 <= i < |rs| && Qualifies(m, sp, notes, rs[i].pitch))
             && (found ==> && (exists i :: 0 <= i < |rs| && Qualifies(m, sp, notes, rs[i].pitch) && rs[i].pitch == lowest)
                           && (exists i :: 0 <= i < |rs| && Qualifies(m, sp, notes, rs[i].pitch) && rs[i].pitch == highest)
                           && (forall i :: 0 <= i < |rs| && Qualifies(m, sp, notes, rs[i].pitch) ==> lowest <= rs[i].pitch <= highest))
    ensures TargetNotes(m, sp, rs) ==
              if found && highest > lowest
              then Some((FrequencyToNote(m, lowest, sp) - 1, FrequencyToNote(m, highest, sp) + 1))
              else None
  {
    ExtremesAreCandidateBounds(m, sp, NoteValues(m, sp, rs), rs, lowest, highest, found);
    TargetsFromBounds(m, sp, rs, lowest, highest, found);
  }

  /** The target notes from the bounds of the candidates */
  lemma TargetsFromBounds(m: FloatMath, sp: real, rs: seq<AnalysisResult>, lowest: real, highest: real, found: bool)
    requires var c := Candidates(m, sp, NoteValues(m, sp, rs), rs);
             && (found <==> |c| > 0)
             && (found ==> lowest == SeqMin(c) && highest == SeqMax(c))
    ensures TargetNotes(m, sp, rs) ==
              if found && highest > lowest
              then Some((FrequencyToNote(m, lowest, sp) - 1, FrequencyToNote(m, highest, sp) + 1))
              else None
  {
    var c := Candidates(m, sp, NoteValues(m, sp, rs), rs);
    assert TargetNotes(m, sp, rs) ==
             if |c| > 0 && SeqMax(c) > SeqMin(c)
             then Some((FrequencyToNote(m, SeqMin(c), sp) - 1, FrequencyToNote(m, SeqMax(c), sp) + 1))
             else None;
  }

  /** The scanned extremes are the minimum and maximum of the candidates */
  lemma ExtremesAreCandidateBounds(m: FloatMath, sp: real, notes: seq<int>, rs: seq<AnalysisResult>, lowest: real, highest: real, found: bool)
    requires && (found <==> exists i :: 0 <= i < |rs| && Qualifies(m, sp, notes, rs[i].pitch))
             && (found ==> && (exists i :: 0 <= i < |rs| && Qualifies(m, sp, notes, rs[i].pitch) && rs[i].pitch == lowest)
                           && (exists i :: 0 <= i < |rs| && Qualifies(m, sp, notes, rs[i].pitch) && rs[i].pitch == highest)
                           && (forall i :: 0 <= i < |rs| && Qualifies(m, sp, notes, rs[i].pitch) ==> lowest <= rs[i].pitch <= highest))
    ensures var c := Candidates(m, sp, notes, rs);
            && (found <==> |c| > 0)
            && (found ==> lowest == SeqMin(c) && highest == SeqMax(c))
  {
    var c := Candidates(m, sp, notes, rs);
    if found {
      var i :| 0 <= i < |rs| && Qualifies(m, sp, notes, rs[i].pitch) && rs[i].pitch == lowest;
      var j :| 0 <= j < |rs| && Qualifies(m, sp, notes, rs[j].pitch) && rs[j].pitch == highest;
      ExtremeIsMinimum(m, sp, notes, rs, i, lowest);
      ExtremeIsMaximum(m, sp, notes, rs, j, highest);
    } else if |c| > 0 {
      CandidateIsQualifyingPitch(m, sp, notes, rs, c[0]);
    }
  }

  /** A qualifying pitch no larger than any other is the minimum of the candidates */
  lemma ExtremeIsMinimum(m: FloatMath, sp: real, notes: seq<int>, rs: seq<AnalysisResult>, i: int, lowest: real)
    requires 0 <= i < |rs| && Qualifies(m, sp, notes, rs[i].pitch) && rs[i].pitch == lowest
    requires forall j :: 0 <= j < |rs| && Qualifies(m, sp, notes, rs[j].pitch) ==> lowest <= rs[j].pitch
    ensures |Candidates(m, sp, notes, rs)| > 0 && lowest == SeqMin(Candidates(m, sp, notes, rs))
  {
    var c := Candidates(m, sp, notes, rs);
    QualifyingIsCandidate(m, sp, notes, rs, i);
    SeqMinIsElement(c);
    CandidateIsQualifyingPitch(m, sp, notes, rs, SeqMin(c));
  }

  /** A qualifying pitch no smaller than any other is the maximum of the candidates */
  lemma ExtremeIsMaximum(m: FloatMath, sp: real, notes: seq<int>, rs: seq<AnalysisResult>, i: int, highest: real)
    requires 0 <= i < |rs| && Qualifies(m, sp, notes, rs[i].pitch) && rs[i].pitch == highest
    requires forall j :: 0 <= j < |rs| && Qualifies(m, sp, notes, rs[j].pitch) ==> rs[j].pitch <= highest
    ensures |Candidates(m, sp, notes, rs)| > 0 && highest == SeqMax(Candidates(m, sp, notes, rs))
  {
    var c := Candidates(m, sp, notes, rs);
    QualifyingIsCandidate(m, sp, notes, rs, i);
    SeqMaxIsElement(c);
    CandidateIsQualifyingPitch(m, sp, notes, rs, SeqMax(c));
  }

  /** Every candidate is the pitch of a qualifying result */
  lemma {:induction false} CandidateIsQualifyingPitch(m: FloatMath, sp: real, notes: seq<int>, rs: seq<AnalysisResult>, p: real)
    requires p in Candidates(m, sp, notes, rs)
    ensures exists i :: 0 <= i < |rs| && rs[i].pitch == p && Qualifies(m, sp, notes, p)
  {
    var rest := Candidates(m, sp, notes, rs[1..]);
    if !(Qualifies(m, sp, notes, rs[0].pitch) && p == rs[0].pitch) {
      assert p in rest;
      CandidateIsQualifyingPitch(m, sp, notes, rs[1..], p);
      var j :| 0 <= j < |rs[1..]| && rs[1..][j].pitch == p && Qualifies(m, sp, notes, p);
      assert rs[j + 1].pitch == p;
    }
  }

  /** Every qualifying result contributes its pitch to the candidates */
  lemma {:induction false} QualifyingIsCandidate(m: FloatMath, sp: real, notes: seq<int>, rs: seq<AnalysisResult>, i: int)
    requires 0 <= i < |rs| && Qualifies(m, sp, notes, rs[i].pitch)
    ensures rs[i].pitch in Candidates(m, sp, notes, rs)
  {
    if i > 0 {
      assert rs[1..][i - 1] == rs[i];
      QualifyingIsCandidate(m, sp, notes, rs[1..], i - 1);
    }
  }

  /** Every qualifying pitch lies strictly inside the target notes: one semitone of
      padding on each side, provided the note of a frequency rises with it */
  lemma TargetsCoverQualifyingPitches(m: FloatMath, sp: real, rs: seq<AnalysisResult>, i: int)
    requires Monotone(m, sp)
    requires TargetNotes(m, sp, rs).Some?
    requires 0 <= i < |rs| && Qualifies(m, sp, NoteValues(m, sp, rs), rs[i].pitch)
    ensures TargetNotes(m, sp, rs).value.0 < FrequencyToNote(m, rs[i].pitch, sp) < TargetNotes(m, sp, rs).value.1
  {
    var c := Candidates(m, sp, NoteValues(m, sp, rs), rs);
    var p := rs[i].pitch;
    QualifyingIsCandidate(m, sp, NoteValues(m, sp, rs), rs, i);
    var k :| 0 <= k < |c| && c[k] == p;
    var lo := SeqMin(c);
    SeqMinIsElement(c);
    var j :| 0 <= j < |c| && c[j] == lo;
    FrequencyToNoteMonotone(m, sp, lo, p);
    FrequencyToNoteMonotone(m, sp, p, SeqMax(c));
  }

  /** With no two distinct qualifying pitches (silence, out-of-range or rare notes
      only, or a single steady pitch) the camera does not move */
  lemma NoSpreadNoRetarget(cam: Camera, m: FloatMath, sp: real, rs: seq<AnalysisResult>)
    requires forall i, j ::
               (0 <= i < |rs| && 0 <= j < |rs|
                && Qualifies(m, sp, NoteValues(m, sp, rs), rs[i].pitch)
                && Qualifies(m, sp, NoteValues(m, sp, rs), rs[j].pitch)) ==> rs[i].pitch == rs[j].pitch
    ensures ApplyTargets(cam, m, TargetNotes(m, sp, rs)) == cam
  {
    var notes := NoteValues(m, sp, rs);
    var c := Candidates(m, sp, notes, rs);
    if |c| > 0 {
      SeqMinIsElement(c);
      SeqMaxIsElement(c);
      CandidateIsQualifyingPitch(m, sp, notes, rs, SeqMin(c));
      CandidateIsQualifyingPitch(m, sp, notes, rs, SeqMax(c));
    }
  }

  /** Once the requested notes survive the trip through frequency and back, a second
      look at the same snapshot changes nothing: the camera is not reset again */
  lemma RetargetSettles(cam: Camera, m: FloatMath, sp: real, rs: seq<AnalysisResult>)
    requires TargetNotes(m, sp, rs).Some?
    requires var (low, high) := TargetNotes(m, sp, rs).value;
             && FrequencyToNote(m, NoteToFrequency(m, low as real, DefaultStandardPitch), DefaultStandardPitch) == low
             && FrequencyToNote(m, NoteToFrequency(m, high as real, DefaultStandardPitch), DefaultStandardPitch) == high
    ensures var once := ApplyTargets(cam, m, TargetNotes(m, sp, rs));
            ApplyTargets(once, m, TargetNotes(m, sp, rs)) == once
  {
  }

  /** With exact floating-point functions every requested note survives the trip through
      the default-pitch frequency, so a repeated look never restarts the animation */
  lemma RetargetSettlesWithExactMath(cam: Camera, m: FloatMath, sp: real, rs: seq<AnalysisResult>)
    requires TargetNotes(m, sp, rs).Some?
    requires PositivePowers(m) && InverseOfFrequency(m, DefaultStandardPitch)
    ensures var once := ApplyTargets(cam, m, TargetNotes(m, sp, rs));
            ApplyTargets(once, m, TargetNotes(m, sp, rs)) == once
  {
    var (low, high) := TargetNotes(m, sp, rs).value;
    NoteFrequencyRoundTrip(m, low, DefaultStandardPitch);
    NoteFrequencyRoundTrip(m, high, DefaultStandardPitch);
    RetargetSettles(cam, m, sp, rs);
  }

  // ---------------------------------------------------------------------------
  // Animation

  function Min(a: real, b: real): real {
    if a <= b then a else b
  }

  /** `update_camera`: advance the animation by `deltaT` seconds (progress clamped at
      1) and move both edges along the exponential ease from previous to target.  The
      displayed notes are read back with the default standard pitch. */
  function UpdateCamera(cam: Camera, m: FloatMath, deltaT: real): (r: Camera)
    ensures r.cameraLerp <= 1.0
    ensures 0.0 <= cam.cameraLerp <= 1.0 && 0.0 <= deltaT ==> cam.cameraLerp <= r.cameraLerp
    ensures r.cameraLerp == Min(1.0, cam.cameraLerp + deltaT / AnimationDuration)
    ensures r.lowestFrequency == Interp(cam.lowestFrequencyPrevious, cam.lowestFrequencyTarget, r.cameraLerp, Ease(m))
    ensures r.highestFrequency == Interp(cam.highestFrequencyPrevious, cam.highestFrequencyTarget, r.cameraLerp, Ease(m))
    ensures r.cameraLerp == 0.0 ==> (r.lowestFrequency == cam.lowestFrequencyPrevious
                                     && r.highestFrequency == cam.highestFrequencyPrevious)
    ensures r.cameraLerp == 1.0 ==> (r.lowestFrequency == r.lowestFrequencyTarget
                                     && r.highestFrequency == r.highestFrequencyTarget)
    ensures cam.lowestFrequencyPrevious == cam.lowestFrequencyTarget ==> r.lowestFrequency == cam.lowestFrequencyTarget
    ensures cam.highestFrequencyPrevious == cam.highestFrequencyTarget ==> r.highestFrequency == cam.highestFrequencyTarget
    ensures r.lowestNote == FrequencyToNote(m, r.lowestFrequency, DefaultStandardPitch)
    ensures r.highestNote == FrequencyToNote(m, r.highestFrequency, DefaultStandardPitch)
    ensures r == cam.(lowestNote := r.lowestNote, highestNote := r.highestNote,
                      lowestFrequency := r.lowestFrequency, highestFrequency := r.highestFrequency,
                      cameraLerp := r.cameraLerp)
  {
    var advanced := cam.cameraLerp + deltaT / AnimationDuration;
    var lerp := if advanced > 1.0 then 1.0 else advanced;
    var ease := Ease(m);
    assert lerp == 0.0 ==> ease(lerp) == 0.0;
    assert lerp == 1.0 ==> ease(lerp) == 1.0;
    var low := Interp(cam.lowestFrequencyPrevious, cam.lowestFrequencyTarget, lerp, ease);
    var high := Interp(cam.highestFrequencyPrevious, cam.highestFrequencyTarget, lerp, ease);
    cam.(cameraLerp := lerp,
         lowestFrequency := low,
         highestFrequency := high,
         lowestNote := FrequencyToNote(m, low, DefaultStandardPitch),
         highestNote := FrequencyToNote(m, high, DefaultStandardPitch))
  }

  /** The curve both edges of the view follow during an animation */
  function Ease(m: FloatMath): real -> real {
    t => EaseInOutExpo(t, m.pow2)
  }

  /** A new target does not make the view jump: the frame right after retargeting,
      before any time has passed, shows the view as it was */
  lemma RetargetIsContinuous(cam: Camera, m: FloatMath, lowNote: int, highNote: int)
    ensures var r := UpdateCamera(Retarget(cam, m, lowNote, highNote), m, 0.0);
            r.lowestFrequency == cam.lowestFrequency && r.highestFrequency == cam.highestFrequency
  {
  }

  /** Total time of a run of frames */
  function Sum(dts: seq<real>): real {
    if |dts| == 0 then 0.0 else dts[0] + Sum(dts[1..])
  }

  lemma SumNonNegative(dts: seq<real>)
    requires forall k :: 0 <= k < |dts| ==> dts[k] >= 0.0
    ensures Sum(dts) >= 0.0
  {
    if |dts| > 0 {
      SumNonNegative(dts[1..]);
    }
  }

  /** The camera after one `update_camera` per frame */
  function Animate(cam: Camera, m: FloatMath, dts: seq<real>): (r: Camera)
    ensures r.lowestFrequencyTarget == cam.lowestFrequencyTarget && r.highestFrequencyTarget == cam.highestFrequencyTarget
    ensures r.lowestFrequencyPrevious == cam.lowestFrequencyPrevious && r.highestFrequencyPrevious == cam.highestFrequencyPrevious
    ensures |dts| > 0 && r.cameraLerp == 1.0 ==> (r.lowestFrequency == r.lowestFrequencyTarget
                                                  && r.highestFrequency == r.highestFrequencyTarget)
    decreases |dts|
  {
    if |dts| == 0 then cam else Animate(UpdateCamera(cam, m, dts[0]), m, dts[1..])
  }

  /** Progress grows by the elapsed time over the animation duration, up to 1 */
  lemma {:induction false} AnimationProgress(cam: Camera, m: FloatMath, dts: seq<real>)
    requires 0.0 <= cam.cameraLerp <= 1.0
    requires forall k :: 0 <= k < |dts| ==> dts[k] >= 0.0
    ensures Min(1.0, cam.cameraLerp + Sum(dts) / AnimationDuration) <= Animate(cam, m, dts).cameraLerp <= 1.0
    decreases |dts|
  {
    if |dts| > 0 {
      var next := UpdateCamera(cam, m, dts[0]);
      var rest := dts[1..];
      assert Animate(cam, m, dts) == Animate(next, m, rest);
      assert Sum(dts) == dts[0] + Sum(rest);
      SumNonNegative(rest);
      AnimationProgress(next, m, rest);
    }
  }

  /** However the frames fall, after half a second in total the view shows exactly the
      target frequencies */
  lemma LandsAfterAnimationDuration(cam: Camera, m: FloatMath, dts: seq<real>)
    requires 0.0 <= cam.cameraLerp <= 1.0
    requires forall k :: 0 <= k < |dts| ==> dts[k] >= 0.0
    requires Sum(dts) >= AnimationDuration
    ensures Animate(cam, m, dts).lowestFrequency == cam.lowestFrequencyTarget
    ensures Animate(cam, m, dts).highestFrequency == cam.highestFrequencyTarget
  {
    AnimationProgress(cam, m, dts);
  }

  // ---------------------------------------------------------------------------
  // The pitch curve

  /** A sample is drawn only if it is audible and not above the displayable range */
  predicate Drawable(p: real) {
    0.0 < p <= HighestPitchToDisplay
  }

  /** One polyline of the curve: the samples with indices in [start, end) */
  datatype Segment = Segment(start: nat, end: nat)

  /** A maximal run of at least two drawable samples */
  predicate IsMaximalRun(rs: seq<AnalysisResult>, s: Segment) {
    && s.start + 2 <= s.end <= |rs|
    && (forall i :: s.start <= i < s.end ==> Drawable(rs[i].pitch))
    && (s.start == 0 || !Drawable(rs[s.start - 1].pitch))
    && (s.end == |rs| || !Drawable(rs[s.end].pitch))
  }

  /** A drawable sample with a drawable neighbour */
  predicate Connected(rs: seq<AnalysisResult>, i: int)
    requires 0 <= i < |rs|
  {
    && Drawable(rs[i].pitch)
    && ((i > 0 && Drawable(rs[i - 1].pitch)) || (i + 1 < |rs| && Drawable(rs[i + 1].pitch)))
  }

  /** Index j lies on one of the polylines */
  predicate Covered(segments: seq<Segment>, j: int) {
    exists k :: 0 <= k < |segments| && segments[k].start <= j < segments[k].end
  }

  /** The polylines after the run [start, end) ends: the run is kept if it has at
      least two points */
  function CloseRun(segments: seq<Segment>, start: nat, end: nat): seq<Segment> {
    if end - start > 1 then segments + [Segment(start, end)] else segments
  }

  /** Maximal runs, in order, all ending before `bound` */
  predicate OrderedRuns(rs: seq<AnalysisResult>, segments: seq<Segment>, bound: int) {
    && (forall k :: 0 <= k < |segments| ==> IsMaximalRun(rs, segments[k]) && segments[k].end < bound)
    && (forall k1, k2 :: 0 <= k1 < k2 < |segments| ==> segments[k1].end < segments[k2].start)
  }

  /** Every connected sample below `bound` lies on a polyline */
  predicate CoveredBelow(rs: seq<AnalysisResult>, segments: seq<Segment>, bound: int) {
    forall j :: 0 <= j < bound && j < |rs| && Connected(rs, j) ==> Covered(segments, j)
  }

  /** Closing a run of drawable samples bounded by undrawable ones (or the ends) keeps
      the polylines maximal and ordered ... */
  lemma CloseRunOrdered(rs: seq<AnalysisResult>, segments: seq<Segment>, start: nat, end: nat)
    requires start <= end <= |rs|
    requires forall j :: start <= j < end ==> Drawable(rs[j].pitch)
    requires start == 0 || !Drawable(rs[start - 1].pitch)
    requires end == |rs| || !Drawable(rs[end].pitch)
    requires OrderedRuns(rs, segments, start)
    ensures OrderedRuns(rs, CloseRun(segments, start, end), end + 1)
  {
    if end - start > 1 {
      var next := segments + [Segment(start, end)];
      assert IsMaximalRun(rs, next[|segments|]);
      forall k | 0 <= k < |next|
        ensures IsMaximalRun(rs, next[k]) && next[k].end < end + 1
      {
        if k < |segments| {
          assert next[k] == segments[k];
        }
      }
      forall k1, k2 | 0 <= k1 < k2 < |next|
        ensures next[k1].end < next[k2].start
      {
        assert next[k1] == segments[k1];
      }
    }
  }

  /** ... and covers every connected sample up to the bound */
  lemma CloseRunCovered(rs: seq<AnalysisResult>, segments: seq<Segment>, start: nat, end: nat)
    requires start <= end <= |rs|
    requires forall j :: start <= j < end ==> Drawable(rs[j].pitch)
    requires end == |rs| || !Drawable(rs[end].pitch)
    requires start == 0 || !Drawable(rs[start - 1].pitch)
    requires CoveredBelow(rs, segments, start)
    ensures CoveredBelow(rs, CloseRun(segments, start, end), end + 1)
  {
    var next := CloseRun(segments, start, end);
    forall j | 0 <= j < end + 1 && j < |rs| && Connected(rs, j)
      ensures Covered(next, j)
    {
      if j < start {
        var k :| 0 <= k < |segments| && segments[k].start <= j < segments[k].end;
        assert next[k] == segments[k];
      } else {
        assert next[|segments|] == Segment(start, end);
      }
    }
  }

  /** The curve loop of `render`: a silent or undisplayable sample ends the polyline
      being built, which is drawn only if it has at least two points */
  method CurveSegments(rs: seq<AnalysisResult>) returns (segments: seq<Segment>)
    ensures forall k :: 0 <= k < |segments| ==> IsMaximalRun(rs, segments[k])
    ensures forall k1, k2 :: 0 <= k1 < k2 < |segments| ==> segments[k1].end < segments[k2].start
    ensures forall i :: 0 <= i < |rs| && Connected(rs, i) ==> Covered(segments, i)
  {
    segments := [];
    if |rs| > 1 {
      var start := 0;
      var i := 0;
      while i < |rs|
        invariant 0 <= start <= i <= |rs|
        invariant forall j :: start <= j < i ==> Drawable(rs[j].pitch)
        invariant start == 0 || !Drawable(rs[start - 1].pitch)
        invariant OrderedRuns(rs, segments, start)
        invariant CoveredBelow(rs, segments, start)
      {
        var pitch := rs[i].pitch;
        if pitch <= 0.0 || pitch > HighestPitchToDisplay {
          CloseRunOrdered(rs, segments, start, i);
          CloseRunCovered(rs, segments, start, i);
          if i - start > 1 {
            segments := segments + [Segment(start, i)];
          }
          start := i + 1;
        }
        i := i + 1;
      }
      CloseRunOrdered(rs, segments, start, |rs|);
      CloseRunCovered(rs, segments, start, |rs|);
      if |rs| - start > 1 {
        segments := segments + [Segment(start, |rs|)];
      }
    } else {
      assert forall i :: 0 <= i < |rs| ==> !Connected(rs, i);
    }
  }
}
