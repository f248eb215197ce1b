/** The record the capture loop produces once per hop. */
module Analysis {

  /** One analysis step: wall-clock time, estimated pitch in Hz (0 = silence),
      volume in dB, confidence of the estimate and onset value */
  datatype AnalysisResult = AnalysisResult(timestamp: real, pitch: real, volume: real, confidence: real, onset: real)

  /** The pitch column of a sequence of results */
  function Pitches(rs: seq<AnalysisResult>): (ps: seq<real>)
    ensures |ps| == |rs|
    ensures forall i :: 0 <= i < |rs| ==> ps[i] == rs[i].pitch
  {
    seq(|rs|, i requires 0 <= i < |rs| => rs[i].pitch)
  }

  /** Two sequences of results that differ in pitch at most */
  predicate SameButPitch(a: seq<AnalysisResult>, b: seq<AnalysisResult>) {
    |a| == |b| && forall i :: 0 <= i < |a| ==> a[i].(pitch := b[i].pitch) == b[i]
  }
}
