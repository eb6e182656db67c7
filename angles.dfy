/**
 * Angle units: degrees, radians and hours, and the hours-minutes-seconds
 * split of an hour angle. Each conversion is one multiplication by a
 * constant factor; `PI` is the value of the `f64` constant the library
 * uses.
 */
module Angles {
  const PI: real := 3.141592653589793

  /** `Degrees::to_radians` and `Degrees::as_radians` (the same expression). */
  function DegreesToRadians(degrees: real): (radians: real)
    ensures degrees == 180.0 ==> radians == PI
    ensures (radians < 0.0 <==> degrees < 0.0) && (radians == 0.0 <==> degrees == 0.0)
  {
    degrees * PI / 180.0
  }

  /** `Radians::to_degrees`. */
  function RadiansToDegrees(radians: real): (degrees: real)
    ensures radians == PI ==> degrees == 180.0
    ensures (degrees < 0.0 <==> radians < 0.0) && (degrees == 0.0 <==> radians == 0.0)
  {
    radians / PI * 180.0
  }

  /** `Degrees::to_hours`: a full turn of 360 degrees is 24 hours. */
  function DegreesToHours(degrees: real): (hours: real)
    ensures degrees == 360.0 ==> hours == 24.0
    ensures (hours < 0.0 <==> degrees < 0.0) && (hours == 0.0 <==> degrees == 0.0)
  {
    degrees * 24.0 / 360.0
  }

  /** `Hours::to_degrees`. */
  function HoursToDegrees(hours: real): (degrees: real)
    ensures hours == 24.0 ==> degrees == 360.0
    ensures (degrees < 0.0 <==> hours < 0.0) && (degrees == 0.0 <==> hours == 0.0)
  {
    hours * 360.0 / 24.0
  }

  /** `Radians::to_hours`: half a turn, `PI` radians, is 12 hours. */
  function RadiansToHours(radians: real): (hours: real)
    ensures radians == PI ==> hours == 12.0
    ensures (hours < 0.0 <==> radians < 0.0) && (hours == 0.0 <==> radians == 0.0)
  {
    radians * 12.0 / PI
  }

  /** `Hours::to_radians`. */
  function HoursToRadians(hours: real): (radians: real)
    ensures hours == 12.0 ==> radians == PI
    ensures (radians < 0.0 <==> hours < 0.0) && (radians == 0.0 <==> hours == 0.0)
  {
    hours * PI / 12.0
  }

  /** Degrees to radians and back, and radians to degrees and back, are the identity. */
  lemma DegreesRadiansRoundTrip(degrees: real, radians: real)
    ensures RadiansToDegrees(DegreesToRadians(degrees)) == degrees
    ensures DegreesToRadians(RadiansToDegrees(radians)) == radians
  {
  }

  /** Degrees to hours and back, and hours to degrees and back, are the identity. */
  lemma DegreesHoursRoundTrip(degrees: real, hours: real)
    ensures HoursToDegrees(DegreesToHours(degrees)) == degrees
    ensures DegreesToHours(HoursToDegrees(hours)) == hours
  {
  }

  /** Radians to hours and back, and hours to radians and back, are the identity. */
  lemma RadiansHoursRoundTrip(radians: real, hours: real)
    ensures HoursToRadians(RadiansToHours(radians)) == radians
    ensures RadiansToHours(HoursToRadians(hours)) == hours
  {
  }

  /** Converting directly or through the third unit gives the same angle. */
  lemma ConversionsCommute(degrees: real, hours: real)
    ensures DegreesToHours(degrees) == RadiansToHours(DegreesToRadians(degrees))
    ensures HoursToDegrees(hours) == RadiansToDegrees(HoursToRadians(hours))
  {
  }

  /** Rust's `trunc`: rounds toward zero. */
  function Trunc(x: real): (r: int)
    ensures 0.0 <= x ==> r as real <= x < r as real + 1.0
    ensures x < 0.0 ==> r as real - 1.0 < x <= r as real
  {
    if 0.0 <= x then x.Floor else -((-x).Floor)
  }

  /** Rust's `fract`: what is left after truncation, with the sign of `x`. */
  function Fract(x: real): (r: real)
    ensures 0.0 <= x ==> 0.0 <= r < 1.0
    ensures x < 0.0 ==> -1.0 < r <= 0.0
    ensures x - r == Trunc(x) as real
  {
    x - Trunc(x) as real
  }

  function Abs(x: real): (r: real)
    ensures 0.0 <= r && (r == x || r == -x)
  {
    if x < 0.0 then -x else x
  }

  /** `Hours::hours`: the hour component, rounded down. */
  function HoursPart(hours: real): (h: real)
    ensures h <= hours < h + 1.0
  {
    hours.Floor as real
  }

  /** `Hours::minutes`: the whole minutes of the (unsigned) fraction of an hour. */
  function MinutesPart(hours: real): (m: real)
    ensures 0.0 <= m < 60.0 && m == m.Floor as real
    ensures m <= Abs(Fract(hours)) * 60.0 < m + 1.0
  {
    (Abs(Fract(hours)) * 60.0).Floor as real
  }

  /** `Hours::seconds`: the seconds left of the (unsigned) fraction of an hour after the whole minutes. */
  function SecondsPart(hours: real): (s: real)
    ensures 0.0 <= s < 60.0
  {
    Fract(Abs(Fract(hours)) * 60.0) * 60.0
  }

  /** For a non-negative hour angle the three components add back up to it. */
  lemma HoursMinutesSecondsSum(hours: real)
    requires 0.0 <= hours
    ensures HoursPart(hours) + MinutesPart(hours) / 60.0 + SecondsPart(hours) / 3600.0 == hours
  {
    var f := Fract(hours);
    assert HoursPart(hours) == Trunc(hours) as real;
    var m := f * 60.0;
    assert Trunc(m) == m.Floor;
    assert SecondsPart(hours) == (m - m.Floor as real) * 60.0;
  }

  /**
   * For a negative hour angle they do not: the hour is rounded down while
   * the minutes and seconds come from the fraction toward zero, so -1.25
   * hours splits into -2 hours and 15 minutes.
   */
  lemma NegativeHoursSplit()
    ensures HoursPart(-1.25) == -2.0 && MinutesPart(-1.25) == 15.0 && SecondsPart(-1.25) == 0.0
    ensures HoursPart(-1.25) + MinutesPart(-1.25) / 60.0 + SecondsPart(-1.25) / 3600.0 != -1.25
  {
    assert Trunc(-1.25) == -1;
    assert Fract(-1.25) == -0.25;
    assert Trunc(15.0) == 15;
  }
}
