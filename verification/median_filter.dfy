/** The de-spiking pass applied to a snapshot of the analysis history before it is
    displayed: a pitch that is off by more than a factor of 1.5 from the median of
    its neighbourhood is replaced by that median.  The neighbourhood of index i is
    the window [i - f, i + f) of the ORIGINAL pitches; indices closer than f to
    either end are left alone. */
module MedianFilter {
  import opened Analysis
  import opened Statistics

  /** How far a pitch may stray from the local median before it is replaced */
  const MaxFactor: real := 1.5

  predicate IsOutlier(p: real, median: real) {
    p < median / MaxFactor || p > median * MaxFactor
  }

  /** Filtering happens only for a positive window and a history at least that long */
  predicate Active(n: int, f: int) {
    f > 0 && n >= f
  }

  /** The median of the 2f original pitches around index i */
  function WindowMedian(ps: seq<real>, f: int, i: int): real
    requires 0 < f <= i && i + f <= |ps|
  {
    Median(ps[i - f..i + f])
  }

  /** The displayed pitch at index i */
  function FilteredPitch(ps: seq<real>, f: int, i: int): real
    requires 0 <= i < |ps|
  {
    if Active(|ps|, f) && f <= i < |ps| - f then
      var m := WindowMedian(ps, f, i);
      if IsOutlier(ps[i], m) then m else ps[i]
    else
      ps[i]
  }

  /** The filtered snapshot: same records, pitches de-spiked */
  function Filter(rs: seq<AnalysisResult>, f: int): (out: seq<AnalysisResult>)
    ensures SameButPitch(out, rs)
    ensures !Active(|rs|, f) ==> out == rs
    ensures forall i :: 0 <= i < |rs| && (i < f || i >= |rs| - f) ==> out[i] == rs[i]
    ensures forall i :: 0 <= i < |rs| && Active(|rs|, f) && f <= i < |rs| - f ==>
              var m := WindowMedian(Pitches(rs), f, i);
              out[i].pitch == (if IsOutlier(rs[i].pitch, m) then m else rs[i].pitch)
  {
    var ps := Pitches(rs);
    var out := seq(|rs|, i requires 0 <= i < |rs| => rs[i].(pitch := FilteredPitch(ps, f, i)));
    assert !Active(|rs|, f) ==> out == rs;
    out
  }

  /** The filter as the source runs it: copy the pitches, overwrite the outliers of
      the interior one index at a time, then zip the columns back together */
  method FilterResults(rs: seq<AnalysisResult>, f: int) returns (out: seq<AnalysisResult>)
    ensures out == Filter(rs, f)
  {
    if !Active(|rs|, f) {
      return rs;
    }
    var ps := Pitches(rs);
    var filtered := FilterPitches(ps, f);
    out := seq(|rs|, j requires 0 <= j < |rs| => rs[j].(pitch := filtered[j]));
    ghost var expected := Filter(rs, f);
    assert forall j :: 0 <= j < |rs| ==> out[j] == expected[j];
  }

  /** The loop over the interior indices, on the pitch column alone */
  method FilterPitches(ps: seq<real>, f: int) returns (filtered: seq<real>)
    requires Active(|ps|, f)
    ensures |filtered| == |ps|
    ensures forall j :: 0 <= j < |ps| ==> filtered[j] == FilteredPitch(ps, f, j)
  {
    ghost var target := FilteredPitches(ps, f);
    filtered := ps;
    var i := f;
    while i < |ps| - f
      invariant f <= i <= if |ps| - f < f then f else |ps| - f
      invariant |filtered| == |ps|
      invariant forall j :: f <= j < i ==> filtered[j] == target[j]
      invariant forall j :: 0 <= j < |ps| && !(f <= j < i) ==> filtered[j] == ps[j]
    {
      var median := Median(ps[i - f..i + f]);
      InteriorPitch(ps, f, i, median);
      if ps[i] < median / MaxFactor || ps[i] > median * MaxFactor {
        filtered := filtered[i := median];
      }
      i := i + 1;
    }
  }

  /** The displayed pitch column */
  function FilteredPitches(ps: seq<real>, f: int): (out: seq<real>)
    ensures |out| == |ps|
    ensures forall j :: 0 <= j < |ps| ==> out[j] == FilteredPitch(ps, f, j)
  {
    seq(|ps|, j requires 0 <= j < |ps| => FilteredPitch(ps, f, j))
  }

  /** The displayed pitch at an interior index, given the median of its window */
  lemma InteriorPitch(ps: seq<real>, f: int, i: int, median: real)
    requires Active(|ps|, f) && f <= i < |ps| - f
    requires median == Median(ps[i - f..i + f])
    ensures FilteredPitch(ps, f, i) == if IsOutlier(ps[i], median) then median else ps[i]
  {
  }

  // ---------------------------------------------------------------------------
  // Properties

  /** A constant pitch track passes unchanged, whatever the window */
  lemma ConstantUnchanged(rs: seq<AnalysisResult>, f: int, c: real)
    requires forall i :: 0 <= i < |rs| ==> rs[i].pitch == c
    ensures Filter(rs, f) == rs
  {
    var out := Filter(rs, f);
    var ps := Pitches(rs);
    forall i | 0 <= i < |rs|
      ensures out[i] == rs[i]
    {
      if Active(|rs|, f) && f <= i < |rs| - f {
        MedianOfConstant(ps[i - f..i + f], c);
      }
    }
  }

  /** A pitch that more than half of its window agrees on is never touched, and a
      spike beyond a factor of 1.5 of that majority pitch is replaced by it */
  lemma SpikeReplacedByMajority(rs: seq<AnalysisResult>, f: int, i: int, c: real)
    requires Active(|rs|, f) && f <= i < |rs| - f
    requires 2 * multiset(Pitches(rs)[i - f..i + f])[c] > 2 * f
    ensures IsOutlier(rs[i].pitch, c) ==> Filter(rs, f)[i].pitch == c
    ensures !IsOutlier(rs[i].pitch, c) ==> Filter(rs, f)[i].pitch == rs[i].pitch
  {
    MedianOfMajority(Pitches(rs)[i - f..i + f], c);
  }

  /** For non-negative pitches the filter leaves a snapshot unchanged exactly when no
      interior pitch is an outlier of its window */
  lemma FixedPointIffClean(rs: seq<AnalysisResult>, f: int)
    requires forall i :: 0 <= i < |rs| ==> rs[i].pitch >= 0.0
    ensures Filter(rs, f) == rs <==>
              forall i :: Active(|rs|, f) && f <= i < |rs| - f ==>
                !IsOutlier(rs[i].pitch, WindowMedian(Pitches(rs), f, i))
  {
    var ps := Pitches(rs);
    if Filter(rs, f) == rs {
      forall i | Active(|rs|, f) && f <= i < |rs| - f
        ensures !IsOutlier(rs[i].pitch, WindowMedian(ps, f, i))
      {
        var w := ps[i - f..i + f];
        MedianWithinBounds(w);
        SeqMinIsElement(w);
        var m := WindowMedian(ps, f, i);
        assert Filter(rs, f)[i].pitch == rs[i].pitch;
      }
    }
  }
}
