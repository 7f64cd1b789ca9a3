/**
 * Concrete inputs and what the model makes of them, each derived from the
 * general lemmas about the forms.
 */
module Scenarios {
  import opened Wrappers
  import opened Text
  import opened Numbers
  import opened Quantities
  import opened DistanceParser
  import opened TimeParser
  import opened TimeForms
  import opened TimeShortForms
  import opened Runs
  import opened Display

  lemma Number1()
    ensures ParseNumber("1") == Some(1.0)
  {
    ParseIntegral("1");
  }

  lemma Number2()
    ensures ParseNumber("2") == Some(2.0)
  {
    ParseIntegral("2");
  }

  lemma Number5()
    ensures ParseNumber("5") == Some(5.0)
  {
    ParseIntegral("5");
  }

  lemma Number10()
    ensures ParseNumber("10") == Some(10.0)
  {
    ParseIntegral("10");
    assert "10"[..1] == "1";
  }

  lemma Number25()
    ensures ParseNumber("25") == Some(25.0)
  {
    ParseIntegral("25");
    assert "25"[..1] == "2";
  }

  lemma Number30()
    ensures ParseNumber("30") == Some(30.0)
  {
    ParseIntegral("30");
    assert "30"[..1] == "3";
  }

  lemma Number45()
    ensures ParseNumber("45") == Some(45.0)
  {
    ParseIntegral("45");
    assert "45"[..1] == "4";
  }

  lemma Number50()
    ensures ParseNumber("50") == Some(50.0)
  {
    ParseIntegral("50");
    assert "50"[..1] == "5";
  }

  lemma Number90()
    ensures ParseNumber("90") == Some(90.0)
  {
    ParseIntegral("90");
    assert "90"[..1] == "9";
  }

  // ---------------------------------------------------------------------
  // Times

  lemma SecondsExample()
    ensures ParseTime("45s") == Success(45.0 as Time)
  {
    Number45();
    assert "45" + "s" == "45s";
    SecondsFormTime("45");
  }

  lemma MinutesExamples()
    ensures ParseTime("25min") == Success(1500.0 as Time)
    ensures ParseTime("90min") == Success(5400.0 as Time)
  {
    Number25();
    Number90();
    assert "25" + "min" == "25min";
    assert "90" + "min" == "90min";
    MinutesFormTime("25");
    MinutesFormTime("90");
  }

  lemma HoursMinutesText2h30()
    ensures HoursMinutesText("2", " ", "30") == "2h 30min"
  {
  }

  lemma HoursMinutesExample()
    ensures ParseTime("2h 30min") == Success(9000.0 as Time)
  {
    Number2();
    Number30();
    HoursMinutesText2h30();
    HoursMinutesFormTime("2", " ", "30");
  }

  lemma HoursSecondsText1h30()
    ensures HoursSecondsText("1", " ", "30") == "1h 30s"
  {
  }

  lemma HoursSecondsExample()
    ensures ParseTime("1h 30s") == Success(3630.0 as Time)
  {
    Number1();
    Number30();
    HoursSecondsText1h30();
    HoursSecondsFormTime("1", " ", "30");
  }

  lemma FullText1h5m30()
    ensures FullText("1", " ", "5", " ", "30") == "1h 5min 30s"
    ensures FullText("1", " ", "5", "", "30") == "1h 5min30s"
    ensures " " + "30" == " 30" && "" + "30" == "30"
  {
  }

  /**
   * All three groups: with a blank after `min` the seconds text is " 30",
   * which is no number; without it the time is 3930 s.
   */
  lemma FullExamples()
    ensures ParseTime("1h 5min 30s") == Failure(BadNumber(Seconds, " 30"))
    ensures ParseTime("1h 5min30s") == Success(3930.0 as Time)
  {
    Number1();
    Number5();
    Number30();
    FullText1h5m30();
    FullFormTime("1", " ", "5", " ", "30");
    FullFormTime("1", " ", "5", "", "30");
  }

  lemma MinutesSecondsText5m30()
    ensures MinutesSecondsText("5", " ", "30") == "5min 30s"
    ensures " " + "30" == " 30"
  {
  }

  lemma MinutesSecondsExample()
    ensures ParseTime("5min 30s") == Failure(BadNumber(Seconds, " 30"))
  {
    Number5();
    Number30();
    MinutesSecondsText5m30();
    MinutesSecondsFormTime("5", " ", "30");
  }

  lemma TrailingBlankExample()
    ensures ParseTime("45 s") == Failure(BadNumber(Seconds, "45 "))
  {
    Number45();
    assert "45" + " " + "s" == "45 s";
    assert "45" + " " == "45 ";
    TrailingBlankRejected("45", " ");
  }

  lemma NothingGivenExamples()
    ensures ParseTime("") == Failure(NoTimeGiven)
    ensures ParseTime("abc") == Failure(NoTimeGiven)
  {
    NoUnitLetterNoTime("");
    NoUnitLetterNoTime("abc");
  }

  /** The characters of "h min s". */
  predicate HminS(s: string) {
    |s| == 7 && s[0] == 'h' && s[1] == ' ' && s[2] == 'm' && s[3] == 'i' && s[4] == 'n' && s[5] == ' ' && s[6] == 's'
  }

  lemma HoursAbsent(s: string)
    requires HminS(s)
    ensures HoursEnd(s) == None
  {
    forall k | 1 <= k < 7 ensures !MarkerAt(s, k, "h") {
      NoMarkerAtChar(s, k, "h");
    }
    assert NoMarkerIn(s, 1, 7, "h");
    NoMarkerNoCandidate(s, 0, "h");
  }

  lemma MinutesSpan(s: string)
    requires HminS(s)
    ensures MinutesFrom(s) == 0
    ensures MinutesEnd(s) == Some(2)
  {
    HoursAbsent(s);
    RunEndUnique(s, 0, Space, 0);
    MarkerOfChars(s, 2, "min");
    forall k | 3 <= k < 7 ensures !MarkerAt(s, k, "min") {
      NoMarkerAtChar(s, k, "min");
    }
    assert NoMarkerIn(s, 3, 7, "min");
    LastCandidateIsLastMarker(s, 0, 2, "min");
  }

  lemma SecondsSpan(s: string)
    requires HminS(s)
    ensures SecondsFrom(s) == 5
    ensures SecondsEnd(s) == Some(6)
  {
    MinutesSpan(s);
    RunEndUnique(s, 2, Space, 2);
    MarkerOfChars(s, 6, "s");
    LastCandidateIsLastMarker(s, 5, 6, "s");
  }

  lemma HminSCaptures(s: string)
    requires HminS(s)
    ensures CapturesOf(s) == TimeCaptures(None, Some(s[0..2]), Some(s[5..6]))
  {
    HoursAbsent(s);
    MinutesSpan(s);
    SecondsSpan(s);
    CapturesOfMatch(s, TimeMatch(None, Some(Span(0, 2)), Some(Span(5, 6))));
  }

  /**
   * Unit words without numbers: the minutes group takes "h " (the `.+`
   * may hold letters and blanks), so the parse fails on that text rather
   * than reporting that nothing was given.
   */
  lemma NoNumeralsExample()
    ensures ParseTime("h min s") == Failure(BadNumber(Minutes, "h "))
  {
    var s := "h min s";
    assert HminS(s);
    HminSCaptures(s);
    assert s[0..2] == "h ";
    ParseTimeOfCaptures(s, TimeCaptures(None, Some("h "), Some(s[5..6])));
    assert ParseNumber("h ") == None;
  }

  /** The characters of "30sec". */
  predicate ThirtySec(s: string) {
    |s| == 5 && s[0] == '3' && s[1] == '0' && s[2] == 's' && s[3] == 'e' && s[4] == 'c'
  }

  lemma ThirtySecCaptures(s: string)
    requires ThirtySec(s)
    ensures CapturesOf(s) == TimeCaptures(None, None, Some(s[0..2]))
  {
    forall k | 0 <= k < 5 ensures !MarkerAt(s, k, "h") && !MarkerAt(s, k, "min") {
      NoMarkerAtChar(s, k, "h");
      NoMarkerAtChar(s, k, "min");
    }
    NoMarkerNoCandidate(s, 0, "h");
    RunEndUnique(s, 0, Space, 0);
    NoMarkerNoCandidate(s, 0, "min");
    MarkerOfChars(s, 2, "s");
    forall k | 3 <= k < 5 ensures !MarkerAt(s, k, "s") {
      NoMarkerAtChar(s, k, "s");
    }
    LastCandidateIsLastMarker(s, 0, 2, "s");
    CapturesOfMatch(s, TimeMatch(None, None, Some(Span(0, 2))));
  }

  lemma ThirtySecTime(s: string)
    requires ThirtySec(s)
    ensures ParseTime(s) == Success(30.0 as Time)
  {
    ThirtySecCaptures(s);
    assert s[0..2] == "30";
    Number30();
    ParseTimeOfNumbers(s, None, None, Some("30"));
  }

  /** `(s|sec)` takes the `s`; the rest of `sec` is left unmatched. */
  lemma SecSuffixExample()
    ensures ParseTime("30sec") == Success(30.0 as Time)
  {
    assert ThirtySec("30sec");
    ThirtySecTime("30sec");
  }

  /** The characters of "5m". */
  predicate FiveM(s: string) {
    |s| == 2 && s[0] == '5' && s[1] == 'm'
  }

  lemma FiveMCaptures(s: string)
    requires FiveM(s)
    ensures NoGroup(CapturesOf(s))
  {
    forall k | 0 <= k < 2 ensures !MarkerAt(s, k, "h") && !MarkerAt(s, k, "s") {
      NoMarkerAtChar(s, k, "h");
      NoMarkerAtChar(s, k, "s");
    }
    NoMarkerAtChar(s, 0, "min");
    NoMarkerNoCandidate(s, 0, "h");
    RunEndUnique(s, 0, Space, 0);
    NoMarkerNoCandidate(s, 0, "min");
    NoMarkerNoCandidate(s, 0, "s");
    CapturesOfMatch(s, TimeMatch(None, None, None));
  }

  /** The characters of "h". */
  predicate LoneH(s: string) {
    |s| == 1 && s[0] == 'h'
  }

  lemma LoneHCaptures(s: string)
    requires LoneH(s)
    ensures NoGroup(CapturesOf(s))
  {
    NoMarkerNoCandidate(s, 0, "h");
    RunEndUnique(s, 0, Space, 0);
    NoMarkerNoCandidate(s, 0, "min");
    NoMarkerAtChar(s, 0, "s");
    NoMarkerNoCandidate(s, 0, "s");
    CapturesOfMatch(s, TimeMatch(None, None, None));
  }

  /**
   * Unit letters alone capture no group either: "5m" has no `min` and no
   * `s`, and a lone "h" has no character before it for `.+`.
   */
  lemma UnitLettersWithoutGroups()
    ensures ParseTime("5m") == Failure(NoTimeGiven)
    ensures ParseTime("h") == Failure(NoTimeGiven)
  {
    assert FiveM("5m") && LoneH("h");
    FiveMCaptures("5m");
    LoneHCaptures("h");
  }

  // ---------------------------------------------------------------------
  // Distances

  lemma Text10km()
    ensures Numeral("10", None) + "" + "km" + "" == "10km"
    ensures Lower("km") == "km" && LookupUnit("km") == Some(Kilometer)
  {
  }

  lemma Value10()
    ensures NumeralValue("10", None) == 10.0
  {
    Number10();
    ParseNumeral("10", None);
  }

  lemma Distance10km()
    ensures ParseDistance("10km") == Success(10000.0 as Length)
  {
    assert AllDigits("10") && AllAlpha("km");
    Text10km();
    Value10();
    ParseDistanceShape("10", None, "", "km", "");
  }

  lemma Text800()
    ensures Numeral("800", None) + "" + "" + "" == "800"
    ensures Lower("") == "" && LookupUnit("") == None
  {
  }

  /** A bare number has no unit: the empty token is not in the table. */
  lemma DistanceWithoutUnit()
    ensures ParseDistance("800") == Failure(UnknownUnit(""))
  {
    assert AllDigits("800") && AllAlpha("");
    Text800();
    ParseDistanceShape("800", None, "", "", "");
  }

  lemma DistanceWithoutDigits()
    ensures ParseDistance("far") == Failure(NoDistance)
  {
  }

  // ---------------------------------------------------------------------
  // Runs

  lemma FiftyMinutes()
    ensures ParseTime("50min") == Success(3000.0 as Time)
  {
    Number50();
    assert "50" + "min" == "50min";
    MinutesFormTime("50");
  }

  /** "10km" and "50min" give a run of 10000 m in 3000 s ... */
  lemma TenKilometresInFiftyMinutes()
    ensures FromOptions("10km", "50min") == Success(Run(10000.0 as Length, 3000.0 as Time))
  {
    Distance10km();
    FiftyMinutes();
  }

  /** ... which is 12 km/h. */
  lemma TwelveKilometresPerHour()
    ensures Run(10000.0 as Length, 3000.0 as Time).AverageVelocity().In(KilometrePerHour) == 12.0
  {
    VelocityInUnits(10000.0 as Length, 3000.0 as Time);
  }

  /** At that pace 5 km take 25 min, shown as "25 min 0.000 s". */
  lemma FiveKilometresAtThatPace(fixed3: real -> string)
    ensures Run(10000.0 as Length, 3000.0 as Time).TimeForDistance(5000.0 as Length) == 1500.0 as Time
    ensures Render(DisplayOf(1500.0), fixed3) == "25 min " + fixed3(0.0) + " s"
  {
    QuarterDisplay(fixed3);
  }

  /** A marathon in 2 h 30 min is 16.878 km/h. */
  lemma MarathonInTwoAndAHalfHours()
    ensures Run(LengthOf(42.195, Kilometer), TimeOf(2.5, Hour)).AverageVelocity().In(KilometrePerHour) == 16.878
  {
    VelocityInUnits(LengthOf(42.195, Kilometer), TimeOf(2.5, Hour));
  }
}
