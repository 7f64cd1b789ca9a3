/**
 * A run: the distance and the time given on the command line, and what
 * is derived from them — the average velocity, the time the same pace
 * needs for another distance, and the ratio to a reference velocity.
 */
module Runs {
  import opened Wrappers
  import opened Quantities
  import opened DistanceParser
  import opened TimeParser

  /** Why the arguments were not understood. */
  datatype RunError =
    | BadDistance(distanceError: DistanceError)
    | BadTime(timeError: TimeError)

  datatype Run = Run(distance: Length, time: Time) {

    /** `average_velocity`: the distance covered per unit of time. */
    function AverageVelocity(): (v: Velocity)
      requires time != 0.0
      ensures v as real * time as real == distance as real
    {
      distance.Per(time)
    }

    /** `time_for_distance`: how long `other` takes at this run's pace. */
    function TimeForDistance(other: Length): (t: Time)
      requires distance != 0.0
      ensures t as real * distance as real == other as real * time as real
    {
      time.Scale(other.Ratio(distance))
    }

    /** How many times faster than `reference` this run was. */
    function VelocityRatio(reference: Velocity): (r: real)
      requires time != 0.0 && reference != 0.0
      ensures r * reference as real == AverageVelocity() as real
    {
      AverageVelocity().Ratio(reference)
    }
  }

  /**
   * `Run::from_options`: the distance is parsed first and its failure
   * ends the parse; then the time. Both parsers only produce
   * non-negative quantities.
   */
  function FromOptions(distance: string, time: string): (r: Result<Run, RunError>)
    ensures r.Success? ==> r.value.distance >= 0.0 && r.value.time >= 0.0
  {
    match ParseDistance(distance)
    case Failure(e) => Failure(BadDistance(e))
    case Success(d) =>
      TimeFromCapturesSpec(CapturesOf(time));
      match ParseTime(time)
      case Failure(e) => Failure(BadTime(e))
      case Success(t) => Success(Run(d, t))
  }

  /**
   * The run is built exactly when both arguments parse, from their two
   * values; otherwise the distance error is reported if there is one, and
   * the time error only when the distance is fine.
   */
  lemma FromOptionsOutcome(distance: string, time: string)
    ensures FromOptions(distance, time).Success?
      <==> ParseDistance(distance).Success? && ParseTime(time).Success?
    ensures FromOptions(distance, time).Success? ==>
      FromOptions(distance, time).value == Run(ParseDistance(distance).value, ParseTime(time).value)
    ensures ParseDistance(distance).Failure? ==>
      FromOptions(distance, time) == Failure(BadDistance(ParseDistance(distance).error))
    ensures ParseDistance(distance).Success? && ParseTime(time).Failure? ==>
      FromOptions(distance, time) == Failure(BadTime(ParseTime(time).error))
  {
  }

  /** A text with no digit is rejected as a distance, whatever the time says. */
  lemma NoDigitsNoRun(distance: string, time: string)
    requires Text.NoDigits(distance)
    ensures FromOptions(distance, time) == Failure(BadDistance(NoDistance))
  {
  }

  /** At its own distance the pace gives back the run's own time. */
  lemma TimeForOwnDistance(run: Run)
    requires run.distance != 0.0
    ensures run.TimeForDistance(run.distance) == run.time
  {
    var t := run.TimeForDistance(run.distance);
    assert (t as real - run.time as real) * run.distance as real == 0.0;
  }

  /** The time for a distance is linear in that distance. */
  lemma TimeForDistanceLinear(run: Run, k: real, d1: Length, d2: Length)
    requires run.distance != 0.0
    ensures run.TimeForDistance((k * d1 as real + d2 as real) as Length) as real
      == k * run.TimeForDistance(d1) as real + run.TimeForDistance(d2) as real
  {
    var d := run.distance as real;
    var t1 := run.TimeForDistance(d1) as real;
    var t2 := run.TimeForDistance(d2) as real;
    var t := run.TimeForDistance((k * d1 as real + d2 as real) as Length) as real;
    assert t * d == (k * d1 as real + d2 as real) * run.time as real;
    assert (k * t1 + t2) * d == k * (t1 * d) + t2 * d;
    CancelFactor(t, k * t1 + t2, d);
  }

  /** A non-zero factor can be cancelled. */
  lemma CancelFactor(x: real, y: real, d: real)
    requires d != 0.0 && x * d == y * d
    ensures x == y
  {
    assert (x - y) * d == 0.0;
  }

  /** The average velocity times the time for a distance is that distance. */
  lemma PaceRoundTrip(run: Run, other: Length)
    requires run.distance != 0.0 && run.time != 0.0
    ensures run.AverageVelocity() as real * run.TimeForDistance(other) as real == other as real
  {
    var v := run.AverageVelocity() as real;
    var t := run.TimeForDistance(other) as real;
    var d := run.distance as real;
    var T := run.time as real;
    assert v * T == d;
    assert t * d == other as real * T;
    assert (v * t) * T == other as real * T by {
      assert (v * t) * T == t * (v * T);
    }
    CancelFactor(v * t, other as real, T);
  }

  /** For a run that covered ground, a longer distance never takes less time. */
  lemma TimeForDistanceMonotone(run: Run, d1: Length, d2: Length)
    requires run.distance > 0.0 && run.time >= 0.0 && d1 <= d2
    ensures run.TimeForDistance(d1) <= run.TimeForDistance(d2)
  {
    var t1 := run.TimeForDistance(d1) as real;
    var t2 := run.TimeForDistance(d2) as real;
    var d := run.distance as real;
    assert (t2 - t1) * d == (d2 as real - d1 as real) * run.time as real;
    assert (d2 as real - d1 as real) * run.time as real >= 0.0;
    SignOfProduct(t2 - t1, d);
  }

  /** Against a positive reference velocity, the ratio exceeds 1 exactly when the run was faster. */
  lemma VelocityRatioCompare(run: Run, reference: Velocity)
    requires run.time != 0.0 && reference > 0.0
    ensures run.VelocityRatio(reference) > 1.0 <==> run.AverageVelocity() > reference
    ensures run.VelocityRatio(reference) == 1.0 <==> run.AverageVelocity() == reference
  {
    var r := run.VelocityRatio(reference);
    var v := run.AverageVelocity() as real;
    var w := reference as real;
    assert r * w == v;
    assert (r - 1.0) * w == v - w;
    SignOfProduct(r - 1.0, w);
  }

  /** With a positive factor, the sign of a product is the sign of the other factor. */
  lemma SignOfProduct(x: real, w: real)
    requires w > 0.0
    ensures x * w > 0.0 <==> x > 0.0
    ensures x * w == 0.0 <==> x == 0.0
  {
    if x > 0.0 {
      assert x * w > 0.0 * w;
    } else if x < 0.0 {
      assert x * w < 0.0 * w;
    }
  }
}
