/** Easing curves on [0, 1] and interpolation between two values along them. */
module Interpolation {

  /** The identity curve */
  function Linear(x: real): (r: real)
    ensures r == x
  {
    x
  }

  /** Quadratic ease-in below one half, mirrored ease-out from one half on */
  function EaseInOutQuad(x: real): (r: real)
    ensures 0.0 <= x <= 1.0 ==> 0.0 <= r <= 1.0
  {
    QuadPiecesWithin(x);
    if x < 0.5 then 2.0 * (x * x) else 1.0 - (-2.0 * x + 2.0) * (-2.0 * x + 2.0) / 2.0
  }

  /** Each piece of the quadratic curve stays in [0, 1] on its half of [0, 1] */
  lemma QuadPiecesWithin(x: real)
    ensures 0.0 <= x < 0.5 ==> 0.0 <= 2.0 * (x * x) <= 1.0
    ensures 0.5 <= x <= 1.0 ==> 0.0 <= 1.0 - (-2.0 * x + 2.0) * (-2.0 * x + 2.0) / 2.0 <= 1.0
  {
    if 0.0 <= x < 0.5 {
      ScaleWithin(x, x);
    } else if 0.5 <= x <= 1.0 {
      var u := -2.0 * x + 2.0;
      ScaleWithin(u, u);
    }
  }

  /** Exponential ease-in-out.  The ends are guarded explicitly so that the curve hits
      0 and 1 exactly; in between it is built from `pow2` (2^x), left uninterpreted. */
  function EaseInOutExpo(x: real, pow2: real -> real): (r: real)
    ensures x == 0.0 ==> r == 0.0
    ensures x == 1.0 ==> r == 1.0
  {
    if x == 0.0 then 0.0
    else if x == 1.0 then 1.0
    else if x < 0.5 then pow2(20.0 * x - 10.0) / 2.0
    else (2.0 - pow2(-20.0 * x + 10.0)) / 2.0
  }

  /** `x0` moved towards `x1` by the fraction `func(t)` */
  function Interp(x0: real, x1: real, t: real, func: real -> real): (r: real)
    ensures func(t) == 0.0 ==> r == x0
    ensures func(t) == 1.0 ==> r == x1
    ensures x0 == x1 ==> r == x0
    ensures 0.0 <= func(t) <= 1.0 && x0 <= x1 ==> x0 <= r <= x1
    ensures 0.0 <= func(t) <= 1.0 && x1 <= x0 ==> x1 <= r <= x0
  {
    var c := func(t);
    var step := (x1 - x0) * c;
    StepBetween(x1 - x0, c, step);
    x0 + step
  }

  /** The fraction `c` of a signed distance `d` */
  lemma StepBetween(d: real, c: real, step: real)
    requires step == d * c
    ensures c == 0.0 ==> step == 0.0
    ensures c == 1.0 ==> step == d
    ensures d == 0.0 ==> step == 0.0
    ensures 0.0 <= c <= 1.0 && 0.0 <= d ==> 0.0 <= step <= d
    ensures 0.0 <= c <= 1.0 && d <= 0.0 ==> d <= step <= 0.0
  {
    if 0.0 <= c <= 1.0 {
      if 0.0 <= d {
        ScaleWithin(d, c);
      }
      if d <= 0.0 {
        ScaleWithin(-d, c);
        assert 0.0 <= (-d) * c <= -d;
        assert step == -((-d) * c);
      }
    }
  }

  /** Scaling a non-negative amount by a fraction keeps it between 0 and itself */
  lemma ScaleWithin(d: real, c: real)
    requires 0.0 <= d && 0.0 <= c <= 1.0
    ensures 0.0 <= d * c <= d
  {
  }

  /** A curve that starts at 0 and ends at 1 */
  ghost predicate FixesEndpoints(f: real -> real) {
    f(0.0) == 0.0 && f(1.0) == 1.0
  }

  /** All three curves start at 0 and end at 1; the quadratic one passes 1/2 at 1/2 */
  lemma EasingEndpoints(pow2: real -> real)
    ensures FixesEndpoints(Linear)
    ensures FixesEndpoints(EaseInOutQuad)
    ensures FixesEndpoints(t => EaseInOutExpo(t, pow2))
    ensures Linear(0.5) == 0.5 && EaseInOutQuad(0.5) == 0.5
  {
  }

  /** The quadratic curve is point-symmetric about (1/2, 1/2) */
  lemma EaseInOutQuadSymmetric(x: real)
    ensures EaseInOutQuad(1.0 - x) == 1.0 - EaseInOutQuad(x)
  {
  }

  /** So is the exponential one, away from its middle (where it depends on 2^0) */
  lemma EaseInOutExpoSymmetric(x: real, pow2: real -> real)
    requires x != 0.5
    ensures EaseInOutExpo(1.0 - x, pow2) == 1.0 - EaseInOutExpo(x, pow2)
  {
    if 0.0 < x < 0.5 {
      assert -20.0 * (1.0 - x) + 10.0 == 20.0 * x - 10.0;
    } else if 0.5 < x < 1.0 {
      assert 20.0 * (1.0 - x) - 10.0 == -20.0 * x + 10.0;
    }
  }

  /** The quadratic curve never decreases on [0, 1] */
  lemma EaseInOutQuadMonotone(x: real, y: real)
    requires 0.0 <= x <= y <= 1.0
    ensures EaseInOutQuad(x) <= EaseInOutQuad(y)
  {
    if y < 0.5 {
      SquareMonotone(x, y);
    } else if 0.5 <= x {
      SquareMonotone(-2.0 * y + 2.0, -2.0 * x + 2.0);
    } else {
      SquareMonotone(x, 0.5);
      assert EaseInOutQuad(x) <= 0.5;
      var u := -2.0 * y + 2.0;
      SquareMonotone(u, 1.0);
      assert EaseInOutQuad(y) == 1.0 - u * u / 2.0;
    }
  }

  lemma SquareMonotone(x: real, y: real)
    requires 0.0 <= x <= y
    ensures x * x <= y * y
  {
  }

  /** Along any curve fixing the endpoints, interpolation starts at `x0` and lands on `x1` */
  lemma InterpLandsOnEndpoints(x0: real, x1: real, f: real -> real)
    requires FixesEndpoints(f)
    ensures Interp(x0, x1, 0.0, f) == x0
    ensures Interp(x0, x1, 1.0, f) == x1
  {
  }
}
