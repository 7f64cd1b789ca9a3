/**
 * The time forms with fewer than three groups: one number with its unit
 * (`45s`, `25min`, `2h`), two numbers with theirs (`2h 30min`, `1h 30s`,
 * `5min30s`), and the texts that capture nothing. Each form is first
 * described by where its pieces lie in the text (a `...Shape` predicate),
 * the match is derived from that, and the form itself is a thin wrapper.
 */
module TimeShortForms {
  import opened Wrappers
  import opened Text
  import opened Numbers
  import opened Quantities
  import opened TimeParser
  import opened TimeForms

  // ---------------------------------------------------------------------
  // Facts shared by the forms

  /** A group whose text holds a blank, or any other non-numeral character, is no number. */
  lemma NumberHasOnlyNumeralChars(t: string, k: nat)
    requires k < |t|
    ensures ParseNumber(t).Some? ==> InClass(t[k], NumeralChar)
  {
    if ParseNumber(t).Some? {
      NumberChars(t);
    }
  }

  /** The seconds group is reported when it is the first present group that is no number. */
  lemma SecondsNotANumber(c: TimeCaptures)
    requires c.hours.Some? ==> ParseNumber(c.hours.value).Some?
    requires c.minutes.Some? ==> ParseNumber(c.minutes.value).Some?
    requires c.seconds.Some? && ParseNumber(c.seconds.value).None?
    ensures TimeFromCaptures(c) == Failure(BadNumber(Seconds, c.seconds.value))
  {
  }

  /** A non-space character at `i` ends the `\s*` that starts there at once. */
  lemma NoSpaceAt(s: string, i: nat)
    requires i < |s| && !IsSpace(s[i])
    ensures RunEnd(s, i, Space) == i
  {
    RunEndUnique(s, i, Space, i);
  }

  /** A piece `t` of `s` at offset `i`, character by character. */
  predicate PieceAt(s: string, i: nat, t: string) {
    i + |t| <= |s| && forall k {:trigger t[k]} | 0 <= k < |t| :: s[i + k] == t[k]
  }

  lemma PieceOfNumeral(s: string, i: nat, t: string)
    requires NumeralText(t) && PieceAt(s, i, t)
    ensures Every(s, i, i + |t|, NumeralChar) && s[i..i + |t|] == t
  {
    EveryOfPiece(s, i, t, NumeralChar);
    SliceOfPiece(s, i, t);
  }

  lemma PieceOfBlank(s: string, i: nat, t: string)
    requires Blank(t) && PieceAt(s, i, t)
    ensures Every(s, i, i + |t|, Space) && Every(s, i, i + |t|, NonNewline)
  {
    BlankClasses(t);
    EveryOfPiece(s, i, t, Space);
    EveryOfPiece(s, i, t, NonNewline);
  }

  /** No `h`, `min` or `s` starts inside a numeral or a run of blanks. */
  lemma NoUnitInRun(s: string, i: nat, j: nat, cls: CharClass)
    requires i <= j <= |s| && Every(s, i, j, cls) && (cls == NumeralChar || cls == Space)
    ensures NoMarkerIn(s, i, j, "h") && NoMarkerIn(s, i, j, "min") && NoMarkerIn(s, i, j, "s")
  {
    NoMarkerInClass(s, i, j, "h", cls);
    NoMarkerInClass(s, i, j, "min", cls);
    NoMarkerInClass(s, i, j, "s", cls);
  }

  // ---------------------------------------------------------------------
  // c + "s": seconds only

  predicate SecondsShape(s: string, se: nat) {
    0 < se && |s| == se + 1 && Every(s, 0, se, NumeralChar) && s[se] == 's'
  }

  lemma SecondsShapeMatch(s: string, se: nat)
    requires SecondsShape(s, se)
    ensures MatchTime(s) == TimeMatch(None, None, Some(Span(0, se)))
  {
    NoUnitInRun(s, 0, se, NumeralChar);
    NoMarkerAtChar(s, se, "h");
    NoMarkerAtChar(s, se, "min");
    NoMarkerConcat(s, 1, se, se + 1, "h");
    NoMarkerConcat(s, 1, se, se + 1, "min");
    NoMarkerNoCandidate(s, 0, "h");
    NoSpaceAt(s, 0);
    NoMarkerNoCandidate(s, 0, "min");
    NumeralNoNewline(s, 0, se);
    MarkerOfChars(s, se, "s");
    LastCandidateIsLastMarker(s, 0, se, "s");
    AssembleMatch(s, None, 0, None, 0, Some(se));
  }

  lemma SecondsShapeCaptures(s: string, se: nat, c: string)
    requires SecondsShape(s, se) && s[0..se] == c
    ensures CapturesOf(s) == TimeCaptures(None, None, Some(c))
  {
    SecondsShapeMatch(s, se);
    CapturesOfMatch(s, TimeMatch(None, None, Some(Span(0, se))));
  }

  /** `c s` is `c` seconds. */
  lemma SecondsFormTime(c: string)
    requires ParseNumber(c).Some?
    ensures ParseTime(c + "s") == Success(ParseNumber(c).value as Time)
  {
    var s := c + "s";
    NumberChars(c);
    assert PieceAt(s, 0, c);
    PieceOfNumeral(s, 0, c);
    SecondsShapeCaptures(s, |c|, c);
    ParseTimeOfNumbers(s, None, None, Some(c));
  }

  // ---------------------------------------------------------------------
  // c + sep + "s" with blanks before the unit: rejected

  predicate TrailingBlankShape(s: string, n0: nat, se: nat) {
    0 < n0 < se && |s| == se + 1 && Every(s, 0, n0, NumeralChar)
    && Every(s, n0, se, Space) && Every(s, n0, se, NonNewline) && s[se] == 's'
  }

  lemma TrailingBlankShapeMatch(s: string, n0: nat, se: nat)
    requires TrailingBlankShape(s, n0, se)
    ensures MatchTime(s) == TimeMatch(None, None, Some(Span(0, se)))
  {
    NoUnitInRun(s, 0, n0, NumeralChar);
    NoUnitInRun(s, n0, se, Space);
    NoMarkerConcat(s, 1, n0, se, "h");
    NoMarkerConcat(s, 1, n0, se, "min");
    NoMarkerAtChar(s, se, "h");
    NoMarkerAtChar(s, se, "min");
    NoMarkerConcat(s, 1, se, se + 1, "h");
    NoMarkerConcat(s, 1, se, se + 1, "min");
    NoMarkerNoCandidate(s, 0, "h");
    NoSpaceAt(s, 0);
    NoMarkerNoCandidate(s, 0, "min");
    NumeralNoNewline(s, 0, n0);
    EveryConcat(s, 0, n0, se, NonNewline);
    MarkerOfChars(s, se, "s");
    LastCandidateIsLastMarker(s, 0, se, "s");
    AssembleMatch(s, None, 0, None, 0, Some(se));
  }

  lemma TrailingBlankShapeCaptures(s: string, n0: nat, se: nat, t: string)
    requires TrailingBlankShape(s, n0, se) && s[0..se] == t
    ensures CapturesOf(s) == TimeCaptures(None, None, Some(t))
  {
    TrailingBlankShapeMatch(s, n0, se);
    CapturesOfMatch(s, TimeMatch(None, None, Some(Span(0, se))));
  }

  lemma TrailingBlankShapeOfText(c: string, sep: string)
    requires NumeralText(c) && Blank(sep) && sep != []
    ensures var s := c + sep + "s";
      TrailingBlankShape(s, |c|, |c| + |sep|) && s[0..|c| + |sep|] == c + sep
  {
    var s := c + sep + "s";
    assert PieceAt(s, 0, c) && PieceAt(s, |c|, sep) && PieceAt(s, 0, c + sep);
    PieceOfNumeral(s, 0, c);
    PieceOfBlank(s, |c|, sep);
    SliceOfPiece(s, 0, c + sep);
  }

  /** `c sep s` with blanks in `sep`: the seconds capture keeps the blanks and is no number. */
  lemma TrailingBlankRejected(c: string, sep: string)
    requires ParseNumber(c).Some? && Blank(sep) && sep != []
    ensures ParseTime(c + sep + "s") == Failure(BadNumber(Seconds, c + sep))
  {
    NumberChars(c);
    TrailingBlankShapeOfText(c, sep);
    TrailingBlankShapeCaptures(c + sep + "s", |c|, |c| + |sep|, c + sep);
    ParseTimeOfCaptures(c + sep + "s", TimeCaptures(None, None, Some(c + sep)));
    assert (c + sep)[|c|] == sep[0];
    NumberHasOnlyNumeralChars(c + sep, |c|);
    SecondsNotANumber(TimeCaptures(None, None, Some(c + sep)));
  }

  // ---------------------------------------------------------------------
  // b + "min": minutes only

  predicate MinutesShape(s: string, mi: nat) {
    0 < mi && |s| == mi + 3 && Every(s, 0, mi, NumeralChar)
    && s[mi] == 'm' && s[mi + 1] == 'i' && s[mi + 2] == 'n'
  }

  lemma MinutesShapeMatch(s: string, mi: nat)
    requires MinutesShape(s, mi)
    ensures MatchTime(s) == TimeMatch(None, Some(Span(0, mi)), None)
  {
    NoUnitInRun(s, 0, mi, NumeralChar);
    NoMarkerAtChar(s, mi, "h");
    NoMarkerAtChar(s, mi + 1, "h");
    NoMarkerAtChar(s, mi + 2, "h");
    NoMarkerConcat(s, 1, mi, mi + 1, "h");
    NoMarkerConcat(s, 1, mi + 1, mi + 2, "h");
    NoMarkerConcat(s, 1, mi + 2, mi + 3, "h");
    NoMarkerNoCandidate(s, 0, "h");
    NoSpaceAt(s, 0);
    NumeralNoNewline(s, 0, mi);
    MarkerOfChars(s, mi, "min");
    NoMarkerAtChar(s, mi + 1, "min");
    NoMarkerAtChar(s, mi + 2, "min");
    NoMarkerConcat(s, mi + 1, mi + 2, mi + 3, "min");
    LastCandidateIsLastMarker(s, 0, mi, "min");
    NoSpaceAt(s, mi);
    NoMarkerNoCandidate(s, mi + 3, "s");
    AssembleMatch(s, None, 0, Some(mi), mi + 3, None);
  }

  lemma MinutesShapeCaptures(s: string, mi: nat, b: string)
    requires MinutesShape(s, mi) && s[0..mi] == b
    ensures CapturesOf(s) == TimeCaptures(None, Some(b), None)
  {
    MinutesShapeMatch(s, mi);
    CapturesOfMatch(s, TimeMatch(None, Some(Span(0, mi)), None));
  }

  /** `b min` is 60 b seconds. */
  lemma MinutesFormTime(b: string)
    requires ParseNumber(b).Some?
    ensures ParseTime(b + "min") == Success((60.0 * ParseNumber(b).value) as Time)
  {
    var s := b + "min";
    NumberChars(b);
    assert PieceAt(s, 0, b);
    PieceOfNumeral(s, 0, b);
    MinutesShapeCaptures(s, |b|, b);
    ParseTimeOfNumbers(s, None, Some(b), None);
  }

  // ---------------------------------------------------------------------
  // a + "h": hours only

  predicate HoursShape(s: string, ha: nat) {
    0 < ha && |s| == ha + 1 && Every(s, 0, ha, NumeralChar) && s[ha] == 'h'
  }

  lemma HoursShapeMatch(s: string, ha: nat)
    requires HoursShape(s, ha)
    ensures MatchTime(s) == TimeMatch(Some(Span(0, ha)), None, None)
  {
    NumeralNoNewline(s, 0, ha);
    MarkerOfChars(s, ha, "h");
    LastCandidateIsLastMarker(s, 0, ha, "h");
    NoSpaceAt(s, ha);
    RunEndUnique(s, ha + 1, Space, ha + 1);
    MinutesFromAfterHours(s, ha, ha + 1);
    NoMarkerNoCandidate(s, ha + 1, "min");
    NoMarkerNoCandidate(s, ha + 1, "s");
    AssembleMatch(s, Some(ha), ha + 1, None, ha + 1, None);
  }

  lemma HoursShapeCaptures(s: string, ha: nat, a: string)
    requires HoursShape(s, ha) && s[0..ha] == a
    ensures CapturesOf(s) == TimeCaptures(Some(a), None, None)
  {
    HoursShapeMatch(s, ha);
    CapturesOfMatch(s, TimeMatch(Some(Span(0, ha)), None, None));
  }

  /** `a h` is 3600 a seconds. */
  lemma HoursFormTime(a: string)
    requires ParseNumber(a).Some?
    ensures ParseTime(a + "h") == Success((3600.0 * ParseNumber(a).value) as Time)
  {
    var s := a + "h";
    NumberChars(a);
    assert PieceAt(s, 0, a);
    PieceOfNumeral(s, 0, a);
    HoursShapeCaptures(s, |a|, a);
    ParseTimeOfNumbers(s, Some(a), None, None);
  }

  // ---------------------------------------------------------------------
  // a + "h" + sep + b + "min": hours and minutes

  predicate HoursMinutesShape(s: string, ha: nat, b0: nat, mi: nat) {
    0 < ha < b0 < mi && |s| == mi + 3
    && Every(s, 0, ha, NumeralChar) && s[ha] == 'h'
    && Every(s, ha + 1, b0, Space) && Every(s, ha + 1, b0, NonNewline)
    && Every(s, b0, mi, NumeralChar)
    && s[mi] == 'm' && s[mi + 1] == 'i' && s[mi + 2] == 'n'
  }

  lemma HoursMinutesShapeHours(s: string, ha: nat, b0: nat, mi: nat)
    requires HoursMinutesShape(s, ha, b0, mi)
    ensures LastCandidate(s, 0, "h") == Some(ha)
    ensures RunEnd(s, ha, Space) == ha && RunEnd(s, ha + 1, Space) == b0
  {
    NoUnitInRun(s, ha + 1, b0, Space);
    NoUnitInRun(s, b0, mi, NumeralChar);
    NoMarkerConcat(s, ha + 1, b0, mi, "h");
    NoMarkerAtChar(s, mi, "h");
    NoMarkerAtChar(s, mi + 1, "h");
    NoMarkerAtChar(s, mi + 2, "h");
    NoMarkerConcat(s, ha + 1, mi, mi + 1, "h");
    NoMarkerConcat(s, ha + 1, mi + 1, mi + 2, "h");
    NoMarkerConcat(s, ha + 1, mi + 2, mi + 3, "h");
    NumeralNoNewline(s, 0, ha);
    MarkerOfChars(s, ha, "h");
    LastCandidateIsLastMarker(s, 0, ha, "h");
    NoSpaceAt(s, ha);
    RunEndUnique(s, ha + 1, Space, b0);
  }

  lemma HoursMinutesShapeMinutes(s: string, ha: nat, b0: nat, mi: nat)
    requires HoursMinutesShape(s, ha, b0, mi)
    ensures LastCandidate(s, b0, "min") == Some(mi) && RunEnd(s, mi, Space) == mi
  {
    NoMarkerAtChar(s, mi + 1, "min");
    NoMarkerAtChar(s, mi + 2, "min");
    NoMarkerConcat(s, mi + 1, mi + 2, mi + 3, "min");
    NumeralNoNewline(s, b0, mi);
    MarkerOfChars(s, mi, "min");
    LastCandidateIsLastMarker(s, b0, mi, "min");
    NoSpaceAt(s, mi);
  }

  lemma HoursMinutesShapeMatch(s: string, ha: nat, b0: nat, mi: nat)
    requires HoursMinutesShape(s, ha, b0, mi)
    ensures MatchTime(s) == TimeMatch(Some(Span(0, ha)), Some(Span(b0, mi)), None)
  {
    HoursMinutesShapeHours(s, ha, b0, mi);
    HoursMinutesShapeMinutes(s, ha, b0, mi);
    HoursThenMinutes(s, ha, b0, mi);
    SecondsFromAfterMinutes(s, mi);
    NoMarkerNoCandidate(s, mi + 3, "s");
    SecondsEndFrom(s, mi + 3, None);
    AssembleMatch(s, Some(ha), b0, Some(mi), mi + 3, None);
  }

  lemma HoursMinutesShapeCaptures(s: string, ha: nat, b0: nat, mi: nat, a: string, b: string)
    requires HoursMinutesShape(s, ha, b0, mi) && s[0..ha] == a && s[b0..mi] == b
    ensures CapturesOf(s) == TimeCaptures(Some(a), Some(b), None)
  {
    HoursMinutesShapeMatch(s, ha, b0, mi);
    CapturesOfMatch(s, TimeMatch(Some(Span(0, ha)), Some(Span(b0, mi)), None));
  }

  function HoursMinutesText(a: string, sep: string, b: string): string {
    a + "h" + sep + b + "min"
  }

  lemma HoursMinutesShapeOfText(a: string, sep: string, b: string)
    requires NumeralText(a) && Blank(sep) && NumeralText(b)
    ensures var s := HoursMinutesText(a, sep, b);
      var b0 := |a| + 1 + |sep|;
      && HoursMinutesShape(s, |a|, b0, b0 + |b|)
      && s[0..|a|] == a && s[b0..b0 + |b|] == b
  {
    var s := HoursMinutesText(a, sep, b);
    var b0 := |a| + 1 + |sep|;
    assert PieceAt(s, 0, a) && PieceAt(s, |a| + 1, sep) && PieceAt(s, b0, b);
    PieceOfNumeral(s, 0, a);
    PieceOfBlank(s, |a| + 1, sep);
    PieceOfNumeral(s, b0, b);
  }

  /** `a h sep b min` is 3600 a + 60 b seconds. */
  lemma HoursMinutesFormTime(a: string, sep: string, b: string)
    requires ParseNumber(a).Some? && Blank(sep) && ParseNumber(b).Some?
    ensures ParseTime(HoursMinutesText(a, sep, b))
      == Success((3600.0 * ParseNumber(a).value + 60.0 * ParseNumber(b).value) as Time)
  {
    HoursMinutesFormCaptures(a, sep, b);
    ParseTimeOfCaptures(HoursMinutesText(a, sep, b), TimeCaptures(Some(a), Some(b), None));
    HoursMinutesCapturesTime(a, b);
  }

  lemma HoursMinutesCapturesTime(a: string, b: string)
    requires ParseNumber(a).Some? && ParseNumber(b).Some?
    ensures TimeFromCaptures(TimeCaptures(Some(a), Some(b), None))
      == Success((3600.0 * ParseNumber(a).value + 60.0 * ParseNumber(b).value) as Time)
  {
    TimeOfCaptures(Some(a), Some(b), None);
  }

  lemma HoursMinutesFormCaptures(a: string, sep: string, b: string)
    requires ParseNumber(a).Some? && Blank(sep) && ParseNumber(b).Some?
    ensures CapturesOf(HoursMinutesText(a, sep, b)) == TimeCaptures(Some(a), Some(b), None)
  {
    NumberChars(a);
    NumberChars(b);
    var b0 := |a| + 1 + |sep|;
    HoursMinutesShapeOfText(a, sep, b);
    HoursMinutesShapeCaptures(HoursMinutesText(a, sep, b), |a|, b0, b0 + |b|, a, b);
  }

  // ---------------------------------------------------------------------
  // a + "h" + sep + c + "s": hours and seconds

  predicate HoursSecondsShape(s: string, ha: nat, c0: nat, se: nat) {
    0 < ha < c0 < se && |s| == se + 1
    && Every(s, 0, ha, NumeralChar) && s[ha] == 'h'
    && Every(s, ha + 1, c0, Space) && Every(s, ha + 1, c0, NonNewline)
    && Every(s, c0, se, NumeralChar) && s[se] == 's'
  }

  lemma HoursSecondsShapeHours(s: string, ha: nat, c0: nat, se: nat)
    requires HoursSecondsShape(s, ha, c0, se)
    ensures LastCandidate(s, 0, "h") == Some(ha)
    ensures RunEnd(s, ha, Space) == ha && RunEnd(s, ha + 1, Space) == c0
  {
    NoUnitInRun(s, ha + 1, c0, Space);
    NoUnitInRun(s, c0, se, NumeralChar);
    NoMarkerConcat(s, ha + 1, c0, se, "h");
    NoMarkerAtChar(s, se, "h");
    NoMarkerConcat(s, ha + 1, se, se + 1, "h");
    NumeralNoNewline(s, 0, ha);
    MarkerOfChars(s, ha, "h");
    LastCandidateIsLastMarker(s, 0, ha, "h");
    NoSpaceAt(s, ha);
    RunEndUnique(s, ha + 1, Space, c0);
  }

  lemma HoursSecondsShapeMatch(s: string, ha: nat, c0: nat, se: nat)
    requires HoursSecondsShape(s, ha, c0, se)
    ensures MatchTime(s) == TimeMatch(Some(Span(0, ha)), None, Some(Span(c0, se)))
  {
    HoursSecondsShapeHours(s, ha, c0, se);
    MinutesFromAfterHours(s, ha, c0);
    NoUnitInRun(s, c0, se, NumeralChar);
    NoMarkerAtChar(s, se, "min");
    NoMarkerConcat(s, c0 + 1, se, se + 1, "min");
    NoMarkerNoCandidate(s, c0, "min");
    NumeralNoNewline(s, c0, se);
    MarkerOfChars(s, se, "s");
    LastCandidateIsLastMarker(s, c0, se, "s");
    AssembleMatch(s, Some(ha), c0, None, c0, Some(se));
  }

  lemma HoursSecondsShapeCaptures(s: string, ha: nat, c0: nat, se: nat, a: string, c: string)
    requires HoursSecondsShape(s, ha, c0, se) && s[0..ha] == a && s[c0..se] == c
    ensures CapturesOf(s) == TimeCaptures(Some(a), None, Some(c))
  {
    HoursSecondsShapeMatch(s, ha, c0, se);
    CapturesOfMatch(s, TimeMatch(Some(Span(0, ha)), None, Some(Span(c0, se))));
  }

  function HoursSecondsText(a: string, sep: string, c: string): string {
    a + "h" + sep + c + "s"
  }

  lemma HoursSecondsShapeOfText(a: string, sep: string, c: string)
    requires NumeralText(a) && Blank(sep) && NumeralText(c)
    ensures var s := HoursSecondsText(a, sep, c);
      var c0 := |a| + 1 + |sep|;
      && HoursSecondsShape(s, |a|, c0, c0 + |c|)
      && s[0..|a|] == a && s[c0..c0 + |c|] == c
  {
    var s := HoursSecondsText(a, sep, c);
    var c0 := |a| + 1 + |sep|;
    assert PieceAt(s, 0, a) && PieceAt(s, |a| + 1, sep) && PieceAt(s, c0, c);
    PieceOfNumeral(s, 0, a);
    PieceOfBlank(s, |a| + 1, sep);
    PieceOfNumeral(s, c0, c);
  }

  /**
   * `a h sep c s` is 3600 a + c seconds: the `\s*` after `h` takes the
   * blanks, so here, unlike after `min`, they do not reach the seconds.
   */
  lemma HoursSecondsFormTime(a: string, sep: string, c: string)
    requires ParseNumber(a).Some? && Blank(sep) && ParseNumber(c).Some?
    ensures ParseTime(HoursSecondsText(a, sep, c))
      == Success((3600.0 * ParseNumber(a).value + ParseNumber(c).value) as Time)
  {
    HoursSecondsFormCaptures(a, sep, c);
    ParseTimeOfCaptures(HoursSecondsText(a, sep, c), TimeCaptures(Some(a), None, Some(c)));
    HoursSecondsCapturesTime(a, c);
  }

  lemma HoursSecondsCapturesTime(a: string, c: string)
    requires ParseNumber(a).Some? && ParseNumber(c).Some?
    ensures TimeFromCaptures(TimeCaptures(Some(a), None, Some(c)))
      == Success((3600.0 * ParseNumber(a).value + ParseNumber(c).value) as Time)
  {
    TimeOfCaptures(Some(a), None, Some(c));
  }

  lemma HoursSecondsFormCaptures(a: string, sep: string, c: string)
    requires ParseNumber(a).Some? && Blank(sep) && ParseNumber(c).Some?
    ensures CapturesOf(HoursSecondsText(a, sep, c)) == TimeCaptures(Some(a), None, Some(c))
  {
    NumberChars(a);
    NumberChars(c);
    var c0 := |a| + 1 + |sep|;
    HoursSecondsShapeOfText(a, sep, c);
    HoursSecondsShapeCaptures(HoursSecondsText(a, sep, c), |a|, c0, c0 + |c|, a, c);
  }

  // ---------------------------------------------------------------------
  // b + "min" + sep + c + "s": minutes and seconds

  predicate MinutesSecondsShape(s: string, mi: nat, c0: nat, se: nat) {
    0 < mi && mi + 3 <= c0 < se && |s| == se + 1
    && Every(s, 0, mi, NumeralChar)
    && s[mi] == 'm' && s[mi + 1] == 'i' && s[mi + 2] == 'n'
    && Every(s, mi + 3, c0, Space) && Every(s, mi + 3, c0, NonNewline)
    && Every(s, c0, se, NumeralChar) && s[se] == 's'
  }

  lemma MinutesSecondsShapeMinutes(s: string, mi: nat, c0: nat, se: nat)
    requires MinutesSecondsShape(s, mi, c0, se)
    ensures HoursEnd(s) == None && MinutesFrom(s) == 0
    ensures LastCandidate(s, 0, "min") == Some(mi) && RunEnd(s, mi, Space) == mi
  {
    NoUnitInRun(s, 0, mi, NumeralChar);
    NoUnitInRun(s, mi + 3, c0, Space);
    NoUnitInRun(s, c0, se, NumeralChar);
    NoMarkerAtChar(s, mi, "h");
    NoMarkerAtChar(s, mi + 1, "h");
    NoMarkerAtChar(s, mi + 2, "h");
    NoMarkerAtChar(s, se, "h");
    NoMarkerConcat(s, 1, mi, mi + 1, "h");
    NoMarkerConcat(s, 1, mi + 1, mi + 2, "h");
    NoMarkerConcat(s, 1, mi + 2, mi + 3, "h");
    NoMarkerConcat(s, 1, mi + 3, c0, "h");
    NoMarkerConcat(s, 1, c0, se, "h");
    NoMarkerConcat(s, 1, se, se + 1, "h");
    NoMarkerNoCandidate(s, 0, "h");
    NoSpaceAt(s, 0);
    NoMarkerAtChar(s, mi + 1, "min");
    NoMarkerAtChar(s, mi + 2, "min");
    NoMarkerAtChar(s, se, "min");
    NoMarkerConcat(s, mi + 1, mi + 2, mi + 3, "min");
    NoMarkerConcat(s, mi + 1, mi + 3, c0, "min");
    NoMarkerConcat(s, mi + 1, c0, se, "min");
    NoMarkerConcat(s, mi + 1, se, se + 1, "min");
    NumeralNoNewline(s, 0, mi);
    MarkerOfChars(s, mi, "min");
    LastCandidateIsLastMarker(s, 0, mi, "min");
    NoSpaceAt(s, mi);
  }

  lemma MinutesSecondsShapeMatch(s: string, mi: nat, c0: nat, se: nat)
    requires MinutesSecondsShape(s, mi, c0, se)
    ensures MatchTime(s) == TimeMatch(None, Some(Span(0, mi)), Some(Span(mi + 3, se)))
  {
    MinutesSecondsShapeMinutes(s, mi, c0, se);
    MinutesEndFrom(s, 0, mi);
    NumeralNoNewline(s, c0, se);
    EveryConcat(s, mi + 3, c0, se, NonNewline);
    MarkerOfChars(s, se, "s");
    LastCandidateIsLastMarker(s, mi + 3, se, "s");
    SecondsFromAfterMinutes(s, mi);
    SecondsEndFrom(s, mi + 3, Some(se));
    AssembleMatch(s, None, 0, Some(mi), mi + 3, Some(se));
  }

  lemma MinutesSecondsShapeCaptures(s: string, mi: nat, c0: nat, se: nat, b: string, t: string)
    requires MinutesSecondsShape(s, mi, c0, se) && s[0..mi] == b && s[mi + 3..se] == t
    ensures CapturesOf(s) == TimeCaptures(None, Some(b), Some(t))
  {
    MinutesSecondsShapeMatch(s, mi, c0, se);
    CapturesOfMatch(s, TimeMatch(None, Some(Span(0, mi)), Some(Span(mi + 3, se))));
  }

  function MinutesSecondsText(b: string, sep: string, c: string): string {
    b + "min" + sep + c + "s"
  }

  lemma MinutesSecondsShapeOfText(b: string, sep: string, c: string)
    requires NumeralText(b) && Blank(sep) && NumeralText(c)
    ensures var s := MinutesSecondsText(b, sep, c);
      var c0 := |b| + 3 + |sep|;
      && MinutesSecondsShape(s, |b|, c0, c0 + |c|)
      && s[0..|b|] == b && s[|b| + 3..c0 + |c|] == sep + c
  {
    var s := MinutesSecondsText(b, sep, c);
    var c0 := |b| + 3 + |sep|;
    assert PieceAt(s, 0, b) && PieceAt(s, |b| + 3, sep) && PieceAt(s, c0, c) && PieceAt(s, |b| + 3, sep + c);
    PieceOfNumeral(s, 0, b);
    PieceOfBlank(s, |b| + 3, sep);
    PieceOfNumeral(s, c0, c);
    SliceOfPiece(s, |b| + 3, sep + c);
  }

  /**
   * `b min sep c s` is 60 b + c seconds when `c` follows `min` directly;
   * with blanks in between they are part of the seconds capture, which is
   * then no number.
   */
  lemma MinutesSecondsFormTime(b: string, sep: string, c: string)
    requires ParseNumber(b).Some? && Blank(sep) && ParseNumber(c).Some?
    ensures ParseTime(b + "min" + sep + c + "s")
      == if sep == [] then
           Success((60.0 * ParseNumber(b).value + ParseNumber(c).value) as Time)
         else
           Failure(BadNumber(Seconds, sep + c))
  {
    var s := MinutesSecondsText(b, sep, c);
    var c0 := |b| + 3 + |sep|;
    NumberChars(b);
    NumberChars(c);
    MinutesSecondsShapeOfText(b, sep, c);
    MinutesSecondsShapeCaptures(s, |b|, c0, c0 + |c|, b, sep + c);
    ParseTimeOfCaptures(s, TimeCaptures(None, Some(b), Some(sep + c)));
    MinutesSecondsCapturesTime(b, sep, c);
  }

  lemma MinutesSecondsCapturesTime(b: string, sep: string, c: string)
    requires ParseNumber(b).Some? && Blank(sep) && ParseNumber(c).Some?
    ensures TimeFromCaptures(TimeCaptures(None, Some(b), Some(sep + c)))
      == if sep == [] then
           Success((60.0 * ParseNumber(b).value + ParseNumber(c).value) as Time)
         else
           Failure(BadNumber(Seconds, sep + c))
  {
    if sep == [] {
      assert sep + c == c;
      TimeOfCaptures(None, Some(b), Some(c));
    } else {
      NumberHasOnlyNumeralChars(sep + c, 0);
      SecondsNotANumber(TimeCaptures(None, Some(b), Some(sep + c)));
    }
  }

  // ---------------------------------------------------------------------
  // No unit letter: nothing is captured

  /** `s` holds none of the letters that begin `h`, `min` and `s`. */
  predicate NoUnitLetter(s: string) {
    forall k | 0 <= k < |s| :: s[k] != 'h' && s[k] != 'm' && s[k] != 's'
  }

  lemma NoLetterNoMarker(s: string, marker: string)
    requires NoUnitLetter(s) && marker in ["h", "min", "s"]
    ensures NoMarkerIn(s, 0, |s|, marker)
  {
    forall k | 0 <= k < |s| ensures !MarkerAt(s, k, marker) {
      NoMarkerAtChar(s, k, marker);
    }
  }

  /**
   * Without any `h`, `m` or `s` the pattern still matches, empty, and no
   * group is captured, so the parse reports that no time was given rather
   * than yielding 0 seconds.
   */
  lemma NoUnitLetterNoTime(s: string)
    requires NoUnitLetter(s)
    ensures CapturesOf(s) == TimeCaptures(None, None, None)
    ensures ParseTime(s) == Failure(NoTimeGiven)
  {
    NoLetterNoMarker(s, "h");
    NoLetterNoMarker(s, "min");
    NoLetterNoMarker(s, "s");
    NoMarkerNoCandidate(s, 0, "h");
    var f := RunEnd(s, 0, Space);
    NoMarkerNoCandidate(s, f, "min");
    NoMarkerNoCandidate(s, f, "s");
    AssembleMatch(s, None, f, None, f, None);
    ParseTimeOfCaptures(s, TimeCaptures(None, None, None));
  }
}
