/**
 * Typed physical quantities, each a number in one base unit: lengths in
 * metres, times in seconds, velocities in metres per second. A unit is a
 * fixed scale factor relative to the base unit; `XOf(v, u)` builds a
 * quantity from a value in unit `u` and `q.In(u)` reads it back. Sums and
 * differences of like quantities are the newtypes' own `+` and `-`.
 */
module Quantities {

  datatype LengthUnit = Meter | Kilometer | Mile | Yard | Foot

  /** Metres in one unit: the international mile, yard and foot. */
  function MetresPer(u: LengthUnit): (r: real)
    ensures r > 0.0
  {
    match u
    case Meter => 1.0
    case Kilometer => 1000.0
    case Mile => 1609.344
    case Yard => 0.9144
    case Foot => 0.3048
  }

  /** A length in metres. */
  newtype Length = real {
    function In(u: LengthUnit): (v: real)
      ensures v * MetresPer(u) == this as real
    {
      this as real / MetresPer(u)
    }

    /** Length / Time gives a Velocity. */
    function Per(t: Time): (v: Velocity)
      requires t != 0.0
      ensures v as real * t as real == this as real
    {
      (this as real / t as real) as Velocity
    }

    /** Length / Length gives a plain ratio. */
    function Ratio(other: Length): (r: real)
      requires other != 0.0
      ensures r * other as real == this as real
    {
      this as real / other as real
    }
  }

  function LengthOf(v: real, u: LengthUnit): (l: Length)
    ensures v >= 0.0 <==> l >= 0.0
  {
    (v * MetresPer(u)) as Length
  }

  datatype TimeUnit = Hour | Minute | Second

  function SecondsPer(u: TimeUnit): (r: real)
    ensures r > 0.0
  {
    match u
    case Hour => 3600.0
    case Minute => 60.0
    case Second => 1.0
  }

  /** Truncation toward zero, as `f64::trunc` does it. */
  function Trunc(x: real): (r: int)
    ensures x >= 0.0 ==> r as real <= x < r as real + 1.0
    ensures x < 0.0 ==> r as real - 1.0 < x <= r as real
  {
    if x >= 0.0 then x.Floor else -((-x).Floor)
  }

  /** A time in seconds. */
  newtype Time = real {
    function In(u: TimeUnit): (v: real)
      ensures v * SecondsPer(u) == this as real
    {
      this as real / SecondsPer(u)
    }

    /** The whole number of units `u` in this time, rounded toward zero, as a time. */
    function TruncIn(u: TimeUnit): (t: Time)
      ensures t.In(u) == Trunc(In(u)) as real
      ensures this >= 0.0 ==> 0.0 <= t <= this
      ensures this < 0.0 ==> this <= t <= 0.0
      ensures -SecondsPer(u) < (this - t) as real < SecondsPer(u)
    {
      TimeOf(Trunc(In(u)) as real, u)
    }

    /** A dimensionless ratio times a time is a time. */
    function Scale(k: real): (t: Time)
      ensures t as real == k * this as real
      ensures forall u: TimeUnit :: t.In(u) == k * In(u)
    {
      (k * this as real) as Time
    }
  }

  function TimeOf(v: real, u: TimeUnit): (t: Time)
    ensures v >= 0.0 <==> t >= 0.0
  {
    (v * SecondsPer(u)) as Time
  }

  datatype SpeedUnit = KilometrePerHour | MilePerHour

  function MpsPer(u: SpeedUnit): (r: real)
    ensures r > 0.0
    ensures u == KilometrePerHour ==> r == MetresPer(Kilometer) / SecondsPer(Hour)
    ensures u == MilePerHour ==> r == MetresPer(Mile) / SecondsPer(Hour)
  {
    match u
    case KilometrePerHour => 1000.0 / 3600.0
    case MilePerHour => 1609.344 / 3600.0
  }

  /** A velocity in metres per second. */
  newtype Velocity = real {
    function In(u: SpeedUnit): (v: real)
      ensures v * MpsPer(u) == this as real
    {
      this as real / MpsPer(u)
    }

    /** Velocity / Velocity gives a plain ratio. */
    function Ratio(other: Velocity): (r: real)
      requires other != 0.0
      ensures r * other as real == this as real
    {
      this as real / other as real
    }
  }

  function VelocityOf(v: real, u: SpeedUnit): Velocity
  {
    (v * MpsPer(u)) as Velocity
  }

  /** Converting to a unit and back gives the same quantity, for every unit, in both directions. */
  lemma LengthRoundTrip(l: Length, v: real, u: LengthUnit)
    ensures LengthOf(l.In(u), u) == l
    ensures LengthOf(v, u).In(u) == v
  {
  }

  lemma TimeRoundTrip(t: Time, v: real, u: TimeUnit)
    ensures TimeOf(t.In(u), u) == t
    ensures TimeOf(v, u).In(u) == v
  {
  }

  lemma VelocityRoundTrip(w: Velocity, v: real, u: SpeedUnit)
    ensures VelocityOf(w.In(u), u) == w
    ensures VelocityOf(v, u).In(u) == v
  {
  }

  /** Lengths convert between units by the ratio of their factors. */
  lemma LengthConversion(v: real, u: LengthUnit, w: LengthUnit)
    ensures LengthOf(v, u).In(w) * MetresPer(w) == v * MetresPer(u)
  {
  }

  /** A velocity built from a distance and a time reads, in km/h or mph, as that distance per hour. */
  lemma VelocityInUnits(d: Length, t: Time)
    requires t != 0.0
    ensures d.Per(t).In(KilometrePerHour) == d.In(Kilometer) / t.In(Hour)
    ensures d.Per(t).In(MilePerHour) == d.In(Mile) / t.In(Hour)
  {
    var v := d.Per(t);
    assert v as real == d as real / t as real;
    calc {
      v.In(KilometrePerHour);
      v as real / (1000.0 / 3600.0);
      (d as real / 1000.0) / (t as real / 3600.0);
    }
    calc {
      v.In(MilePerHour);
      v as real / (1609.344 / 3600.0);
      (d as real / 1609.344) / (t as real / 3600.0);
    }
  }
}
