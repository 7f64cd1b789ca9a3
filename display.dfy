/**
 * How a time is shown: whole hours, whole minutes and the remaining
 * seconds, in one of three tiers. The hours and minutes are converted to
 * 32-bit integers (`as i32`, which truncates and saturates); the seconds
 * are printed with three decimals, which this model leaves to a rendering
 * function supplied by the caller.
 */
module Display {
  import opened Wrappers
  import opened Text
  import opened Numbers
  import opened Quantities

  const I32Min: int := -0x8000_0000
  const I32Max: int := 0x7fff_ffff

  /** Rust's `x as i32` on a float: truncation toward zero, then saturation at the bounds. */
  function CastI32(x: real): (r: int)
    ensures I32Min <= r <= I32Max
    ensures I32Min <= Trunc(x) <= I32Max ==> r == Trunc(x)
    ensures Trunc(x) > I32Max ==> r == I32Max
    ensures Trunc(x) < I32Min ==> r == I32Min
  {
    var n := Trunc(x);
    if n > I32Max then I32Max else if n < I32Min then I32Min else n
  }

  /** The three output tiers, with the values each one prints. */
  datatype TimeDisplay =
    | HoursMinutesSeconds(h: int, m: int, s: real)   // "{h} h {m} min {s:.3} s"
    | MinutesSeconds(m: int, s: real)                // "{m} min {s:.3} s"
    | SecondsOnly(s: real)                           // "{s:.3} s"

  /** A time split into whole hours, whole minutes and the seconds left over. */
  datatype Parts = Parts(hours: int, minutes: int, seconds: real)

  /**
   * The reference split: for a non-negative time the largest whole number
   * of hours, then of minutes, that fit; a negative time is split like its
   * absolute value, with every part negated.
   */
  function Breakdown(t: real): Parts
  {
    if t >= 0.0 then Split(t)
    else
      var p := Split(-t);
      Parts(-p.hours, -p.minutes, -p.seconds)
  }

  function Split(t: real): Parts
    requires t >= 0.0
  {
    var h := (t / 3600.0).Floor;
    var r := t - 3600.0 * h as real;
    var m := (r / 60.0).Floor;
    Parts(h, m, r - 60.0 * m as real)
  }

  /** The parts sum back to the time, whatever its sign. */
  lemma BreakdownSum(t: real)
    ensures var p := Breakdown(t);
      3600.0 * p.hours as real + 60.0 * p.minutes as real + p.seconds == t
  {
  }

  /** A non-negative time splits into h >= 0, 0 <= m < 60 and 0 <= s < 60. */
  lemma BreakdownBounds(t: real)
    requires t >= 0.0
    ensures var p := Breakdown(t);
      && p.hours >= 0 && 0 <= p.minutes < 60 && 0.0 <= p.seconds < 60.0
      && p.hours as real <= t / 3600.0 < p.hours as real + 1.0
  {
    var h := (t / 3600.0).Floor;
    var r := t - 3600.0 * h as real;
    assert 0.0 <= r < 3600.0;
    var m := (r / 60.0).Floor;
    assert 0.0 <= r / 60.0 < 60.0;
    assert 0 <= m < 60;
  }

  /** The split of a non-negative time is the only one with those bounds. */
  lemma BreakdownUnique(t: real, h: int, m: int, s: real)
    requires t >= 0.0 && h >= 0 && 0 <= m < 60 && 0.0 <= s < 60.0
    requires 3600.0 * h as real + 60.0 * m as real + s == t
    ensures Breakdown(t) == Parts(h, m, s)
  {
    BreakdownBounds(t);
    BreakdownSum(t);
    var p := Breakdown(t);
    assert 3600.0 * (h - p.hours) as real == (60.0 * p.minutes as real + p.seconds) - (60.0 * m as real + s);
    assert h == p.hours;
    assert 60.0 * (m - p.minutes) as real == p.seconds - s;
  }

  /** The tier rule: hours when there are some, else minutes when there are some, else seconds only. */
  function Tier(h: int, m: int, s: real): (d: TimeDisplay)
    ensures d.HoursMinutesSeconds? <==> h > 0
    ensures d.MinutesSeconds? <==> h <= 0 && m > 0
    ensures d.SecondsOnly? <==> h <= 0 && m <= 0
    ensures d.s == s
    ensures d.HoursMinutesSeconds? ==> d.h == h && d.m == m
    ensures d.MinutesSeconds? ==> d.m == m
  {
    if h > 0 then HoursMinutesSeconds(h, m, s)
    else if m > 0 then MinutesSeconds(m, s)
    else SecondsOnly(s)
  }

  /** What `display_time` shows for a time given in seconds. */
  function DisplayOf(t: real): TimeDisplay
  {
    var p := Breakdown(t);
    Tier(CastI32(p.hours as real), CastI32(p.minutes as real), p.seconds)
  }

  /**
   * `display_time`: subtract the whole hours, then the whole minutes, from
   * a working copy of the time, and choose the tier from what was taken.
   */
  method DisplayTime(time: Time) returns (d: TimeDisplay)
    ensures d == DisplayOf(time as real)
  {
    var t := time;
    var hours := t.TruncIn(Hour);
    t := t - hours;
    var minutes := t.TruncIn(Minute);
    t := t - minutes;
    var seconds := t;

    var h := CastI32(hours.In(Hour));
    var m := CastI32(minutes.In(Minute));
    var s := seconds.In(Second);

    DisplaySteps(time);
    DisplayOfParts(time as real, Parts(Trunc(hours.In(Hour)), Trunc(minutes.In(Minute)), s));
    if h > 0 {
      d := HoursMinutesSeconds(h, m, s);
    } else if m > 0 {
      d := MinutesSeconds(m, s);
    } else {
      d := SecondsOnly(s);
    }
  }

  /** The steps of `DisplayTime`, taken on the time itself, give the reference split, in whole hours and minutes. */
  lemma DisplaySteps(time: Time)
    ensures var hours := time.TruncIn(Hour);
      var minutes := (time - hours).TruncIn(Minute);
      && hours.In(Hour) == Trunc(hours.In(Hour)) as real
      && minutes.In(Minute) == Trunc(minutes.In(Minute)) as real
      && Breakdown(time as real)
        == Parts(Trunc(hours.In(Hour)), Trunc(minutes.In(Minute)), (time - hours - minutes).In(Second))
  {
    var hours := time.TruncIn(Hour);
    var minutes := (time - hours).TruncIn(Minute);
    TruncWhole(Trunc(time.In(Hour)));
    TruncWhole(Trunc((time - hours).In(Minute)));
    TruncStepsAreBreakdown(time as real);
  }

  lemma DisplayOfParts(t: real, p: Parts)
    requires Breakdown(t) == p
    ensures DisplayOf(t) == Tier(CastI32(p.hours as real), CastI32(p.minutes as real), p.seconds)
  {
  }

  lemma TruncWhole(n: int)
    ensures Trunc(n as real) == n
  {
  }

  /** Truncating to hours, then the remainder to minutes, gives the reference split. */
  lemma TruncStepsAreBreakdown(t: real)
    ensures var h := Trunc(t / 3600.0);
      var r := t - 3600.0 * h as real;
      var m := Trunc(r / 60.0);
      Breakdown(t) == Parts(h, m, r - 60.0 * m as real)
  {
    if t < 0.0 {
      var h := Trunc(-t / 3600.0);
      assert Trunc(t / 3600.0) == -h;
      var r := -t - 3600.0 * h as real;
      assert r >= 0.0;
      assert Trunc(-r / 60.0) == -Trunc(r / 60.0);
    }
  }

  /** For a non-negative time the tier follows from the time alone. */
  lemma TierOfTime(t: real)
    requires t >= 0.0
    ensures DisplayOf(t).HoursMinutesSeconds? <==> t >= 3600.0
    ensures DisplayOf(t).MinutesSeconds? <==> 60.0 <= t < 3600.0
    ensures DisplayOf(t).SecondsOnly? <==> t < 60.0
  {
    BreakdownBounds(t);
    BreakdownSum(t);
    var p := Breakdown(t);
    if p.hours == 0 {
      assert t == 60.0 * p.minutes as real + p.seconds;
    }
  }

  /** A negative time shows only its seconds part, which lies in (-60, 0]. */
  lemma NegativeShowsSeconds(t: real)
    requires t < 0.0
    ensures DisplayOf(t).SecondsOnly?
    ensures -60.0 < DisplayOf(t).s <= 0.0
  {
    BreakdownBounds(-t);
  }

  /** Past 2^31 - 1 whole hours the hour count saturates. */
  lemma HoursSaturate(t: real)
    requires t >= 3600.0 * (I32Max + 1) as real
    ensures DisplayOf(t).HoursMinutesSeconds? && DisplayOf(t).h == I32Max
  {
    BreakdownBounds(t);
  }

  /** The printed text, given how the seconds are printed with three decimals. */
  function Render(d: TimeDisplay, fixed3: real -> string): (r: string)
    ensures var tail := fixed3(d.s) + " s"; |tail| <= |r| && r[|r| - |tail|..] == tail
    ensures d.HoursMinutesSeconds? ==>
      var lead := IntToString(d.h) + " h " + IntToString(d.m) + " min ";
      |lead| <= |r| && r[..|lead|] == lead
    ensures d.MinutesSeconds? ==>
      var lead := IntToString(d.m) + " min "; |lead| <= |r| && r[..|lead|] == lead
  {
    match d
    case HoursMinutesSeconds(h, m, s) => IntToString(h) + " h " + IntToString(m) + " min " + fixed3(s) + " s"
    case MinutesSeconds(m, s) => IntToString(m) + " min " + fixed3(s) + " s"
    case SecondsOnly(s) => fixed3(s) + " s"
  }

  /**
   * The count that leads the text reads back as a number: the whole hours
   * of the time in the hours tier, the whole minutes in the minutes tier,
   * as long as the hours fit in 32 bits.
   */
  lemma RenderedCountReadsBack(t: real, fixed3: real -> string)
    requires 0.0 <= t < 3600.0 * (I32Max + 1) as real
    ensures var d := DisplayOf(t); var r := Render(d, fixed3);
      && (d.HoursMinutesSeconds? ==>
        var n := IntToString(d.h);
        n < r && ParseNumber(n) == Some(Breakdown(t).hours as real) && r[|n|] == ' ')
      && (d.MinutesSeconds? ==>
        var n := IntToString(d.m);
        n < r && ParseNumber(n) == Some(Breakdown(t).minutes as real) && r[|n|] == ' ')
  {
    BreakdownBounds(t);
    var p := Breakdown(t);
    var d := DisplayOf(t);
    var r := Render(d, fixed3);
    assert p.hours < I32Max + 1;
    if d.HoursMinutesSeconds? {
      assert d.h == p.hours;
      ParseNatToString(d.h);
      var lead := IntToString(d.h) + " h " + IntToString(d.m) + " min ";
      assert r[..|lead|] == lead;
      assert IntToString(d.h) <= lead;
    } else if d.MinutesSeconds? {
      assert d.m == p.minutes;
      ParseNatToString(d.m);
      var lead := IntToString(d.m) + " min ";
      assert r[..|lead|] == lead;
      assert IntToString(d.m) <= lead;
    }
  }

  /** Zero shows as seconds only. */
  lemma ZeroDisplay(fixed3: real -> string)
    ensures DisplayOf(0.0) == SecondsOnly(0.0)
    ensures Render(DisplayOf(0.0), fixed3) == fixed3(0.0) + " s"
  {
  }

  /** One hour shows the minutes even though they are 0. */
  lemma HourDisplay(fixed3: real -> string)
    ensures DisplayOf(3600.0) == HoursMinutesSeconds(1, 0, 0.0)
    ensures Render(DisplayOf(3600.0), fixed3) == "1 h 0 min " + fixed3(0.0) + " s"
  {
    BreakdownUnique(3600.0, 1, 0, 0.0);
  }

  /** 1500 s is 25 minutes. */
  lemma QuarterDisplay(fixed3: real -> string)
    ensures DisplayOf(1500.0) == MinutesSeconds(25, 0.0)
    ensures Render(DisplayOf(1500.0), fixed3) == "25 min " + fixed3(0.0) + " s"
  {
    BreakdownUnique(1500.0, 0, 25, 0.0);
    assert IntToString(25) == "25";
  }
}
