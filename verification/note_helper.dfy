/** Conversions between note names such as "C#4", integer semitone values
    (0 = C0) and frequencies, in twelve-tone equal temperament. */
module NoteHelper {
  import opened Wrappers

  /** The twelve chromatic names of one octave, starting at C */
  const NoteNames: seq<string> := ["C", "C#", "D", "D#", "E", "F", "F#", "G", "G#", "A", "A#", "B"]

  /** The concert pitch the conversions fall back to when no standard pitch is given */
  const DefaultStandardPitch: real := 440.0

  /** Why a note name was refused */
  datatype NoteError =
    | NoMatch      // the text does not start with a letter A-G, an optional '#' and a digit
    | UnknownName  // the letter part matched but is not in `NoteNames` ("E#", "B#")

  predicate IsDigit(c: char) {
    '0' <= c <= '9'
  }

  predicate IsLetter(c: char) {
    'A' <= c <= 'G'
  }

  function DigitValue(c: char): (d: nat)
    requires IsDigit(c)
    ensures d < 10
  {
    c as int - '0' as int
  }

  function DigitChar(d: nat): (c: char)
    requires d < 10
    ensures IsDigit(c) && DigitValue(c) == d
  {
    (d + '0' as int) as char
  }

  /** The names the pattern `[A-G]#?` accepts: a letter, optionally followed by a sharp */
  predicate IsPatternName(name: string) {
    || (|name| == 1 && IsLetter(name[0]))
    || (|name| == 2 && IsLetter(name[0]) && name[1] == '#')
  }

  /** Matches `([A-G]#?)(\d)` at the start of `s`; whatever follows the digit is ignored.
      On success `s` begins with the returned name and the digit of the returned octave. */
  function ParseNoteName(s: string): (r: Result<(string, nat), NoteError>)
    ensures r.Ok? ==> IsPatternName(r.value.0) && r.value.1 < 10
    ensures r.Ok? ==> |r.value.0| < |s| && s[..|r.value.0| + 1] == r.value.0 + [DigitChar(r.value.1)]
  {
    if |s| >= 3 && IsLetter(s[0]) && s[1] == '#' && IsDigit(s[2]) then
      Ok((s[..2], DigitValue(s[2])))
    else if |s| >= 2 && IsLetter(s[0]) && IsDigit(s[1]) then
      Ok((s[..1], DigitValue(s[1])))
    else
      Err(NoMatch)
  }

  /** Position of the first occurrence of `x` in `xs`, as Python's `list.index` finds it */
  function IndexOf(xs: seq<string>, x: string): (r: Option<nat>)
    ensures r.Some? ==> r.value < |xs| && xs[r.value] == x && x !in xs[..r.value]
    ensures r.None? <==> x !in xs
  {
    if |xs| == 0 then None
    else if xs[0] == x then Some(0)
    else
      match IndexOf(xs[1..], x)
      case None => None
      case Some(i) =>
        assert xs[1..][..i] == xs[1..i + 1];
        assert xs[..i + 1] == [xs[0]] + xs[1..i + 1];
        Some(i + 1)
  }

  /** The semitone value of a note name: twelve per octave plus the position in the table */
  function NoteNameToValue(s: string): (r: Result<int, NoteError>)
    ensures r.Ok? ==> 0 <= r.value < 120
    ensures ParseNoteName(s).Err? ==> r == Err(NoMatch)
    ensures ParseNoteName(s).Ok? ==>
              (r.Ok? <==> ParseNoteName(s).value.0 in NoteNames)
    ensures r.Ok? ==> r.value == 12 * ParseNoteName(s).value.1 + IndexOf(NoteNames, ParseNoteName(s).value.0).value
  {
    match ParseNoteName(s)
    case Err(e) => Err(e)
    case Ok((name, octave)) => NameValue(name, octave)
  }

  /** Twelve semitones per octave plus the position of the name in the table */
  function NameValue(name: string, octave: nat): (r: Result<int, NoteError>)
    ensures r.Ok? <==> name in NoteNames
  {
    match IndexOf(NoteNames, name)
    case None => Err(UnknownName)
    case Some(i) => Ok(12 * octave + i)
  }

  /** Decimal digits of a natural number, most significant first */
  function NatToString(n: nat): (s: string)
    ensures 1 <= |s|
    ensures forall i :: 0 <= i < |s| ==> IsDigit(s[i])
    ensures n < 10 <==> |s| == 1
  {
    if n < 10 then [DigitChar(n)] else NatToString(n / 10) + [DigitChar(n % 10)]
  }

  /** Python's `str` of an integer: a minus sign before the digits of a negative number */
  function IntToString(i: int): (s: string)
    ensures 0 <= i ==> s == NatToString(i)
    ensures i < 0 ==> s == "-" + NatToString(-i)
  {
    if i < 0 then "-" + NatToString(-i) else NatToString(i)
  }

  /** The name of a semitone value: the table entry of `value mod 12` followed by the
      octave `floor(value / 12)`.  Dafny's `/` and `%` by the positive 12 are Python's
      floor division and modulo, so negative values get a negative octave. */
  function ValueToNoteName(value: int): (r: string)
    ensures exists k, octave :: 0 <= k < 12 && value == 12 * octave + k && r == NoteNames[k] + IntToString(octave)
  {
    var k, octave := value % 12, value / 12;
    assert value == 12 * octave + k;
    NoteNames[k] + IntToString(octave)
  }

  /** Absolute distance in semitones of two note names; the first name is parsed first */
  function GetNoteDistance(a: string, b: string): (r: Result<nat, NoteError>)
    ensures r.Ok? <==> NoteNameToValue(a).Ok? && NoteNameToValue(b).Ok?
    ensures NoteNameToValue(a).Err? ==> r == Err(NoteNameToValue(a).error)
    ensures NoteNameToValue(a).Ok? && NoteNameToValue(b).Err? ==> r == Err(NoteNameToValue(b).error)
    ensures r.Ok? ==> (r.value as int == NoteNameToValue(a).value - NoteNameToValue(b).value ||
                       r.value as int == NoteNameToValue(b).value - NoteNameToValue(a).value)
  {
    var va :- NoteNameToValue(a);
    var vb :- NoteNameToValue(b);
    if va >= vb then Ok(va - vb) else Ok(vb - va)
  }

  /** Python's `round` on a float: to the nearest integer, ties to the even one */
  function RoundHalfEven(x: real): (r: int)
    ensures x - 0.5 <= r as real <= x + 0.5
    ensures (r as real - x == 0.5 || x - r as real == 0.5) ==> r % 2 == 0
  {
    var f := x.Floor;
    var d := x - f as real;
    if d < 0.5 then f
    else if d > 0.5 then f + 1
    else if f % 2 == 0 then f
    else f + 1
  }

  /** The floating-point functions the frequency conversions are made of, left
      uninterpreted: `semitones(freq, sp)` stands for 12 * log2(freq / C0) with
      C0 = sp * 2^-4.75, and `pow2(x)` for 2^x. */
  datatype FloatMath = FloatMath(semitones: (real, real) -> real, pow2: real -> real)

  /** Frequency to the nearest semitone value; 0 Hz (silence) gives the sentinel -1 */
  function FrequencyToNote(m: FloatMath, freq: real, standardPitch: real): (r: int)
    ensures freq == 0.0 ==> r == -1
    ensures freq != 0.0 ==> m.semitones(freq, standardPitch) - 0.5 <= r as real <= m.semitones(freq, standardPitch) + 0.5
  {
    if freq == 0.0 then -1 else RoundHalfEven(m.semitones(freq, standardPitch))
  }

  /** Frequency to a continuous semitone value (`rounding=False`); 0 Hz gives -1 */
  function FrequencyToNoteUnrounded(m: FloatMath, freq: real, standardPitch: real): (r: real)
    ensures freq == 0.0 ==> r == -1.0
    ensures freq != 0.0 ==> r - 0.5 <= FrequencyToNote(m, freq, standardPitch) as real <= r + 0.5
  {
    if freq == 0.0 then -1.0 else m.semitones(freq, standardPitch)
  }

  /** Semitone value to frequency: C0 * 2^(note / 12) with C0 = sp * 2^-4.75 */
  function NoteToFrequency(m: FloatMath, note: real, standardPitch: real): (r: real)
    ensures PositivePowers(m) && standardPitch > 0.0 ==> r > 0.0
  {
    var c0 := standardPitch * m.pow2(-4.75);
    PositiveProduct(standardPitch, m.pow2(-4.75));
    PositiveProduct(c0, m.pow2(note / 12.0));
    c0 * m.pow2(note / 12.0)
  }

  /** `pow2` behaves like 2^x: always positive */
  ghost predicate PositivePowers(m: FloatMath) {
    forall x: real :: m.pow2(x) > 0.0
  }

  /** `pow2` behaves like 2^x: one more in the exponent doubles the power */
  ghost predicate DoublingPowers(m: FloatMath) {
    forall x: real :: m.pow2(x + 1.0) == 2.0 * m.pow2(x)
  }

  /** `semitones` undoes `NoteToFrequency`, as 12 * log2 undoes 2^(x / 12) */
  ghost predicate InverseOfFrequency(m: FloatMath, standardPitch: real) {
    forall x: real :: m.semitones(NoteToFrequency(m, x, standardPitch), standardPitch) == x
  }

  lemma PositiveProduct(a: real, b: real)
    ensures a > 0.0 && b > 0.0 ==> a * b > 0.0
  {
  }

  /** The continuous note value never decreases as the frequency rises */
  ghost predicate Monotone(m: FloatMath, standardPitch: real) {
    forall f1: real, f2: real :: 0.0 < f1 <= f2 ==> m.semitones(f1, standardPitch) <= m.semitones(f2, standardPitch)
  }

  /** The continuous note rises strictly with the frequency, as 12 * log2 does */
  ghost predicate StrictlyMonotone(m: FloatMath, standardPitch: real) {
    forall f1: real, f2: real :: 0.0 < f1 < f2 ==> m.semitones(f1, standardPitch) < m.semitones(f2, standardPitch)
  }

  // ---------------------------------------------------------------------------
  // Properties

  /** Rounding keeps the order of its arguments */
  lemma RoundHalfEvenMonotone(x: real, y: real)
    requires x <= y
    ensures RoundHalfEven(x) <= RoundHalfEven(y)
  {
  }

  /** Under a monotone `semitones`, a higher positive frequency never gets a lower note */
  lemma FrequencyToNoteMonotone(m: FloatMath, sp: real, f1: real, f2: real)
    requires Monotone(m, sp)
    requires 0.0 < f1 <= f2
    ensures FrequencyToNote(m, f1, sp) <= FrequencyToNote(m, f2, sp)
  {
    RoundHalfEvenMonotone(m.semitones(f1, sp), m.semitones(f2, sp));
  }

  /** `rounding=True` rounds the very value `rounding=False` returns, the 0 Hz sentinel included */
  lemma RoundedIsRoundOfUnrounded(m: FloatMath, freq: real, sp: real)
    ensures FrequencyToNote(m, freq, sp) == RoundHalfEven(FrequencyToNoteUnrounded(m, freq, sp))
  {
    if freq == 0.0 {
      assert (-1.0).Floor == -1;
    }
  }

  /** Under a monotone `semitones`, the continuous note never decreases as a positive
      frequency rises */
  lemma FrequencyToNoteUnroundedMonotone(m: FloatMath, sp: real, f1: real, f2: real)
    requires Monotone(m, sp)
    requires 0.0 < f1 <= f2
    ensures FrequencyToNoteUnrounded(m, f1, sp) <= FrequencyToNoteUnrounded(m, f2, sp)
  {
  }

  /** Every name of the pattern followed by a digit parses, whatever text follows */
  lemma ParseAcceptsPattern(name: string, d: nat, rest: string)
    requires IsPatternName(name) && d < 10
    ensures ParseNoteName(name + [DigitChar(d)] + rest) == Ok((name, d))
  {
    var s := name + [DigitChar(d)] + rest;
    if |name| == 2 {
      assert s[..2] == name;
    } else {
      assert s[..1] == name;
    }
  }

  /** Text after the name and octave digit does not change the parse */
  lemma TrailingTextIgnored(s: string, rest: string)
    requires ParseNoteName(s).Ok?
    ensures ParseNoteName(s + rest) == ParseNoteName(s)
    ensures NoteNameToValue(s + rest) == NoteNameToValue(s)
  {
    ParseIgnoresSuffix(s, rest);
    ValueFollowsParse(s + rest, s);
  }

  /** The value of a name is decided by its parse alone */
  lemma ValueFollowsParse(s: string, t: string)
    requires ParseNoteName(s) == ParseNoteName(t)
    ensures NoteNameToValue(s) == NoteNameToValue(t)
  {
  }

  lemma ParseIgnoresSuffix(s: string, rest: string)
    requires ParseNoteName(s).Ok?
    ensures ParseNoteName(s + rest) == ParseNoteName(s)
  {
    var name := ParseNoteName(s).value.0;
    var d := ParseNoteName(s).value.1;
    var tail := s[|name| + 1..];
    assert s == name + [DigitChar(d)] + tail;
    ParseAcceptsPattern(name, d, tail);
    assert s + rest == name + [DigitChar(d)] + (tail + rest);
    ParseAcceptsPattern(name, d, tail + rest);
  }

  /** The table lists its twelve names without repetition */
  lemma NoteNamesIndex(k: nat)
    requires k < 12
    ensures IndexOf(NoteNames, NoteNames[k]) == Some(k)
  {
    forall j | 0 <= j < k
      ensures NoteNames[j] != NoteNames[k]
    {
      NoteNamesDistinct(j, k);
    }
    FirstOccurrence(NoteNames, k);
  }

  lemma NoteNamesDistinct(j: nat, k: nat)
    requires j < k < 12
    ensures NoteNames[j] != NoteNames[k]
  {
    var a, b := NoteNames[j], NoteNames[k];
    assert |a| != |b| || a[0] != b[0];
  }

  /** An element that no earlier element equals is found at its own position */
  lemma {:induction false} FirstOccurrence(xs: seq<string>, k: nat)
    requires k < |xs|
    requires forall j :: 0 <= j < k ==> xs[j] != xs[k]
    ensures IndexOf(xs, xs[k]) == Some(k)
  {
    if k > 0 {
      assert xs[1..][k - 1] == xs[k];
      FirstOccurrence(xs[1..], k - 1);
    }
  }

  /** Every name of the table is accepted by the pattern */
  lemma NoteNamesMatchPattern(k: nat)
    requires k < 12
    ensures IsPatternName(NoteNames[k])
  {
  }

  /** The sharps of the table follow only C, D, F, G and A */
  lemma TableSharps(k: nat)
    requires k < 12
    ensures NoteNames[k] != "E#" && NoteNames[k] != "B#"
  {
  }

  /** A name of the pattern that the table lacks is refused as unknown */
  lemma UnknownNameRejected(name: string, d: nat, rest: string)
    requires IsPatternName(name) && name !in NoteNames && d < 10
    ensures NoteNameToValue(name + [DigitChar(d)] + rest) == Err(UnknownName)
  {
    ParseAcceptsPattern(name, d, rest);
  }

  /** "E#" and "B#" satisfy the pattern but are not note names of the table */
  lemma SharpEAndSharpBRejected(d: nat, rest: string)
    requires d < 10
    ensures NoteNameToValue("E#" + [DigitChar(d)] + rest) == Err(UnknownName)
    ensures NoteNameToValue("B#" + [DigitChar(d)] + rest) == Err(UnknownName)
  {
    forall k | 0 <= k < 12
      ensures NoteNames[k] != "E#" && NoteNames[k] != "B#"
    {
      TableSharps(k);
    }
    UnknownNameRejected("E#", d, rest);
    UnknownNameRejected("B#", d, rest);
  }

  /** A single digit prints as itself */
  lemma SingleDigitString(d: nat)
    requires d < 10
    ensures IntToString(d) == [DigitChar(d)]
  {
  }

  /** Twelve times the octave plus the index splits back into octave and index */
  lemma OctaveAndIndex(k: nat, d: nat)
    requires k < 12
    ensures (12 * d + k) % 12 == k && (12 * d + k) / 12 == d
  {
    var v := 12 * d + k;
    assert v == 12 * (v / 12) + v % 12;
  }

  /** Name, then value, then name again: every table name with a one-digit octave comes back */
  lemma NameRoundTrip(k: nat, d: nat)
    requires k < 12 && d < 10
    ensures NoteNameToValue(NoteNames[k] + [DigitChar(d)]) == Ok(12 * d + k)
    ensures ValueToNoteName(12 * d + k) == NoteNames[k] + [DigitChar(d)]
  {
    NameToValue(k, d);
    ValueToName(k, d);
  }

  lemma NameToValue(k: nat, d: nat)
    requires k < 12 && d < 10
    ensures NoteNameToValue(NoteNames[k] + [DigitChar(d)]) == Ok(12 * d + k)
  {
    var name := NoteNames[k];
    NoteNamesMatchPattern(k);
    ParsePatternName(name, d);
    NoteNamesIndex(k);
    assert NameValue(name, d) == Ok(12 * d + k);
  }

  /** A name of the pattern with an octave digit and nothing after it parses to itself */
  lemma ParsePatternName(name: string, d: nat)
    requires IsPatternName(name) && d < 10
    ensures ParseNoteName(name + [DigitChar(d)]) == Ok((name, d))
    ensures NoteNameToValue(name + [DigitChar(d)]) == NameValue(name, d)
  {
    ParseAcceptsPattern(name, d, "");
    assert name + [DigitChar(d)] + "" == name + [DigitChar(d)];
  }

  lemma ValueToName(k: nat, d: nat)
    requires k < 12 && d < 10
    ensures ValueToNoteName(12 * d + k) == NoteNames[k] + [DigitChar(d)]
  {
    OctaveAndIndex(k, d);
    SingleDigitString(d);
  }

  /** Value, then name, then value again gives back exactly the values 0..119: larger
      values print a two-digit octave of which only the first digit is read back, and
      negative ones print a minus sign that the pattern refuses */
  lemma ValueRoundTrip(v: int)
    ensures NoteNameToValue(ValueToNoteName(v)) == Ok(v) <==> 0 <= v < 120
  {
    if 0 <= v < 120 {
      var k, d := v % 12, v / 12;
      assert v == 12 * d + k;
      NameRoundTrip(k, d);
    }
  }

  /** A negative value prints with a minus sign, which makes the name unparsable */
  lemma NegativeValueUnparsable(v: int)
    requires v < 0
    ensures NoteNameToValue(ValueToNoteName(v)) == Err(NoMatch)
  {
    var name := NoteNames[v % 12];
    var digits := NatToString(-(v / 12));
    var s := ValueToNoteName(v);
    NoteNamesMatchPattern(v % 12);
    assert v / 12 < 0;
    assert IntToString(v / 12) == "-" + digits;
    assert s == name + ("-" + digits);
    assert s[|name|] == '-' && !IsDigit('-');
    if |name| == 1 {
      assert !IsDigit(s[1]) && s[1] != '#';
    } else {
      assert !IsDigit(s[2]) && s[..2] == name;
    }
    assert ParseNoteName(s) == Err(NoMatch);
  }

  /** Floor division in action: the octave below C0 and the first value of octave 1 */
  lemma ValueToNoteNameExamples()
    ensures ValueToNoteName(-1) == "B-1"
    ensures ValueToNoteName(12) == "C1"
    ensures ValueToNoteName(28) == "E2"
    ensures NoteNameToValue("C#45") == Ok(49)
  {
    assert -1 % 12 == 11 && -1 / 12 == -1;
    assert IntToString(-1) == "-1";
    assert IntToString(1) == "1";
    assert IntToString(2) == "2";
    assert "C#45"[..2] == "C#";
  }

  /** Twelve semitones up is one octave up: the frequency doubles */
  lemma OctaveDoublesFrequency(m: FloatMath, note: real, standardPitch: real)
    requires DoublingPowers(m)
    ensures NoteToFrequency(m, note + 12.0, standardPitch) == 2.0 * NoteToFrequency(m, note, standardPitch)
  {
    var c0 := standardPitch * m.pow2(-4.75);
    assert (note + 12.0) / 12.0 == note / 12.0 + 1.0;
    assert m.pow2((note + 12.0) / 12.0) == 2.0 * m.pow2(note / 12.0);
    assert c0 * (2.0 * m.pow2(note / 12.0)) == 2.0 * (c0 * m.pow2(note / 12.0));
  }

  /** The frequency of a whole semitone value is heard as that same semitone value:
      it is never taken for silence, and rounding an exact integer keeps it */
  lemma NoteFrequencyRoundTrip(m: FloatMath, n: int, standardPitch: real)
    requires PositivePowers(m) && standardPitch > 0.0 && InverseOfFrequency(m, standardPitch)
    ensures FrequencyToNote(m, NoteToFrequency(m, n as real, standardPitch), standardPitch) == n
  {
    var f := NoteToFrequency(m, n as real, standardPitch);
    assert f != 0.0;
    assert m.semitones(f, standardPitch) == n as real;
    assert (n as real).Floor == n;
  }

  /** The distance of two names does not depend on their order */
  lemma NoteDistanceSymmetric(a: string, b: string)
    ensures GetNoteDistance(a, b).Ok? <==> GetNoteDistance(b, a).Ok?
    ensures GetNoteDistance(a, b).Ok? ==> GetNoteDistance(a, b).value == GetNoteDistance(b, a).value
  {
  }

  /** Every valid name is at distance zero from itself */
  lemma NoteDistanceToItself(a: string)
    requires NoteNameToValue(a).Ok?
    ensures GetNoteDistance(a, a) == Ok(0)
  {
  }
}
