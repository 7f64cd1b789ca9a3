/**
 * The time argument, matched against
 * `((?P<hours>.+)\s*h)?\s*((?P<minutes>.+)\s*min)?((?P<seconds>.+)\s*(s|sec))?`.
 * Every part of the pattern is optional, so it matches at position 0 of
 * every text, and with leftmost-first priority each optional group is
 * taken whenever it can be, with the longest `.+` for which the rest of
 * the group matches. `.` does not match a newline. The alternative
 * `(s|sec)` always takes `s`, since `sec` begins with `s`.
 */
module TimeParser {
  import opened Wrappers
  import opened Text
  import opened Numbers
  import opened Quantities

  datatype TimeGroup = Hours | Minutes | Seconds

  datatype TimeError =
    | NoTimeGiven                           // "No hours, no minutes, and no seconds given."
    | BadNumber(group: TimeGroup, text: string) // "\"...\" is not a number"

  /** A captured text s[start..end]. */
  datatype Span = Span(start: nat, end: nat)

  datatype TimeMatch = TimeMatch(hours: Option<Span>, minutes: Option<Span>, seconds: Option<Span>)

  datatype TimeCaptures = TimeCaptures(hours: Option<string>, minutes: Option<string>, seconds: Option<string>)

  predicate MarkerAt(s: string, k: nat, marker: string) {
    k + |marker| <= |s| && s[k..k + |marker|] == marker
  }

  /**
   * `(.+)\s*marker` matches from `from` with `.+` ending at `i`: the
   * capture s[from..i] is non-empty and has no newline, and the marker
   * follows the run of spaces that starts at `i`.
   */
  predicate Candidate(s: string, from: nat, i: nat, marker: string)
    requires from <= |s|
  {
    from < i <= |s| && Every(s, from, i, NonNewline) && MarkerAt(s, RunEnd(s, i, Space), marker)
  }

  /** The greedy choice: the largest candidate end, if there is one (see `LastCandidateSpec`). */
  function LastCandidate(s: string, from: nat, marker: string): (r: Option<nat>)
    requires from <= |s|
    ensures r.Some? ==> from < r.value <= |s| && MarkerAt(s, RunEnd(s, r.value, Space), marker)
  {
    SearchDown(s, from, RunEnd(s, from, NonNewline), marker)
  }

  /** Tries the ends i, i - 1, ..., from + 1 in turn: the backtracking of the greedy `.+`. */
  function SearchDown(s: string, from: nat, i: nat, marker: string): (r: Option<nat>)
    requires from <= i <= |s|
    ensures r.Some? ==> from < r.value <= i && MarkerAt(s, RunEnd(s, r.value, Space), marker)
    decreases i
  {
    if i == from then None
    else if MarkerAt(s, RunEnd(s, i, Space), marker) then Some(i)
    else SearchDown(s, from, i - 1, marker)
  }

  /** Searching down from the end of the line finds the largest candidate. */
  lemma {:induction false} SearchDownSpec(s: string, from: nat, i: nat, marker: string)
    requires from <= i <= |s| && Every(s, from, i, NonNewline)
    ensures var r := SearchDown(s, from, i, marker);
      && (r.Some? ==> Candidate(s, from, r.value, marker))
      && (forall k | from < k <= i && Candidate(s, from, k, marker) :: r.Some? && k <= r.value)
    decreases i
  {
    if i > from && !MarkerAt(s, RunEnd(s, i, Space), marker) {
      assert Every(s, from, i - 1, NonNewline);
      SearchDownSpec(s, from, i - 1, marker);
      assert !Candidate(s, from, i, marker);
    }
  }

  /**
   * The group `(.+)\s*marker` from `from` is present exactly when some
   * candidate end exists, and then it ends at the largest one.
   */
  lemma LastCandidateSpec(s: string, from: nat, marker: string)
    requires from <= |s|
    ensures var r := LastCandidate(s, from, marker);
      && (r.Some? ==> Candidate(s, from, r.value, marker))
      && (forall i | from < i <= |s| && Candidate(s, from, i, marker) :: r.Some? && i <= r.value)
  {
    var lineEnd := RunEnd(s, from, NonNewline);
    RunEndSpec(s, from, NonNewline);
    SearchDownSpec(s, from, lineEnd, marker);
    forall i | lineEnd < i <= |s| ensures !Every(s, from, i, NonNewline) {
      assert !InClass(s[lineEnd], NonNewline);
    }
  }

  function SpanFrom(start: nat, end: Option<nat>): Option<Span>
  {
    if end.Some? then Some(Span(start, end.value)) else None
  }

  predicate SpanIn(s: string, sp: Option<Span>) {
    sp.Some? ==> sp.value.start <= sp.value.end <= |s|
  }

  /** Where the marker matched by `(.+)\s*marker` ends, for a `.+` that ends at `i`. */
  function AfterMarker(s: string, i: nat, marker: string): (j: nat)
    requires i <= |s| && MarkerAt(s, RunEnd(s, i, Space), marker)
    ensures i + |marker| <= j <= |s|
  {
    RunEnd(s, i, Space) + |marker|
  }

  /** Where `.+` of the hours group ends: the whole pattern starts at 0. */
  function HoursEnd(s: string): Option<nat> {
    LastCandidate(s, 0, "h")
  }

  /** Where the minutes group starts: after `h` (if any) and the `\s*` that follows. */
  function MinutesFrom(s: string): (i: nat)
    ensures i <= |s|
    ensures i == |s| || !IsSpace(s[i])
  {
    var h := HoursEnd(s);
    var start := if h.Some? then AfterMarker(s, h.value, "h") else 0;
    RunEndSpec(s, start, Space);
    RunEnd(s, start, Space)
  }

  function MinutesEnd(s: string): Option<nat> {
    LastCandidate(s, MinutesFrom(s), "min")
  }

  /** Where the seconds group starts: right after `min`, with no `\s*` in between. */
  function SecondsFrom(s: string): (i: nat)
    ensures i <= |s|
  {
    var mi := MinutesEnd(s);
    if mi.Some? then AfterMarker(s, mi.value, "min") else MinutesFrom(s)
  }

  function SecondsEnd(s: string): Option<nat> {
    LastCandidate(s, SecondsFrom(s), "s")
  }

  function MatchTime(s: string): (m: TimeMatch)
    ensures SpanIn(s, m.hours) && SpanIn(s, m.minutes) && SpanIn(s, m.seconds)
  {
    TimeMatch(SpanFrom(0, HoursEnd(s)), SpanFrom(MinutesFrom(s), MinutesEnd(s)), SpanFrom(SecondsFrom(s), SecondsEnd(s)))
  }

  function Captured(s: string, sp: Option<Span>): Option<string>
    requires SpanIn(s, sp)
  {
    if sp.Some? then Some(s[sp.value.start..sp.value.end]) else None
  }

  /** What the three groups capture: each present capture is what `.+` matched, non-empty and on one line. */
  function CapturesOf(s: string): (c: TimeCaptures)
    ensures c.hours.Some? ==> DotPlus(c.hours.value)
    ensures c.minutes.Some? ==> DotPlus(c.minutes.value)
    ensures c.seconds.Some? ==> DotPlus(c.seconds.value)
  {
    var m := MatchTime(s);
    CapturedIsDotPlus(s, 0, "h");
    CapturedIsDotPlus(s, MinutesFrom(s), "min");
    CapturedIsDotPlus(s, SecondsFrom(s), "s");
    TimeCaptures(Captured(s, m.hours), Captured(s, m.minutes), Captured(s, m.seconds))
  }

  /** Text that `.+` can match: at least one character, and no newline. */
  predicate DotPlus(t: string) {
    |t| > 0 && NoNewline(t)
  }

  /** The capture of a group `(.+)\s*marker` is text that `.+` can match. */
  lemma CapturedIsDotPlus(s: string, from: nat, marker: string)
    requires from <= |s|
    ensures var r := LastCandidate(s, from, marker);
      r.Some? ==> DotPlus(s[from..r.value])
  {
    LastCandidateSpec(s, from, marker);
    var r := LastCandidate(s, from, marker);
    if r.Some? {
      assert forall k | 0 <= k < r.value - from :: s[from..r.value][k] == s[from + k];
    }
  }

  /** An absent group counts as 0; a present one must parse as a number. */
  function GroupValue(text: Option<string>, g: TimeGroup): (r: Result<real, TimeError>)
    ensures text.None? ==> r == Success(0.0)
    ensures text.Some? && ParseNumber(text.value).Some? ==> r == Success(ParseNumber(text.value).value)
    ensures r.Success? ==> r.value >= 0.0
    ensures r.Failure? <==> text.Some? && ParseNumber(text.value).None?
    ensures r.Failure? ==> r.error == BadNumber(g, text.value)
  {
    match text
    case None => Success(0.0)
    case Some(t) =>
      match ParseNumber(t)
      case None => Failure(BadNumber(g, t))
      case Some(v) => Success(v)
  }

  /** The time the captures give; see `TimeFromCapturesSpec` for its value. */
  function TimeFromCaptures(c: TimeCaptures): (r: Result<Time, TimeError>)
    ensures r == Failure(NoTimeGiven) <==> NoGroup(c)
    ensures r.Success? ==> r.value >= 0.0
    ensures r.Failure? && r.error.BadNumber? ==> ParseNumber(r.error.text).None?
  {
    if c.hours.None? && c.minutes.None? && c.seconds.None? then
      Failure(NoTimeGiven)
    else
      var hours := GroupValue(c.hours, Hours);
      var minutes := GroupValue(c.minutes, Minutes);
      var seconds := GroupValue(c.seconds, Seconds);
      if hours.Failure? then Failure(hours.error)
      else if minutes.Failure? then Failure(minutes.error)
      else if seconds.Failure? then Failure(seconds.error)
      else Success(TimeOf(hours.value, Hour) + TimeOf(minutes.value, Minute) + TimeOf(seconds.value, Second))
  }

  /**
   * The time argument: "no time given" exactly when no group captures
   * anything; otherwise a non-negative time, or the text of a group that
   * is not a number.
   */
  function ParseTime(s: string): (r: Result<Time, TimeError>)
    ensures r == Failure(NoTimeGiven) <==> NoGroup(CapturesOf(s))
    ensures r.Success? ==> r.value >= 0.0
    ensures r.Failure? && r.error.BadNumber? ==> ParseNumber(r.error.text).None?
  {
    TimeFromCaptures(CapturesOf(s))
  }

  /** The parse depends on the text only through what the groups capture. */
  lemma ParseTimeOfCaptures(s: string, c: TimeCaptures)
    requires CapturesOf(s) == c
    ensures ParseTime(s) == TimeFromCaptures(c)
  {
  }

  predicate NoGroup(c: TimeCaptures) {
    c.hours.None? && c.minutes.None? && c.seconds.None?
  }

  /** Every group that is present holds a number. */
  predicate AllNumbers(c: TimeCaptures) {
    (c.hours.Some? ==> ParseNumber(c.hours.value).Some?)
    && (c.minutes.Some? ==> ParseNumber(c.minutes.value).Some?)
    && (c.seconds.Some? ==> ParseNumber(c.seconds.value).Some?)
  }

  /** What a group holds: its number, or 0 when it is absent. */
  function Amount(text: Option<string>): real
    requires text.Some? ==> ParseNumber(text.value).Some?
  {
    if text.Some? then ParseNumber(text.value).value else 0.0
  }

  /**
   * The time is defined exactly when some group is present and every
   * present group is a number; it is then 3600 h + 60 min + s seconds.
   */
  lemma TimeFromCapturesSpec(c: TimeCaptures)
    ensures TimeFromCaptures(c) == Failure(NoTimeGiven) <==> NoGroup(c)
    ensures TimeFromCaptures(c).Success? <==> !NoGroup(c) && AllNumbers(c)
    ensures TimeFromCaptures(c).Success? ==>
      TimeFromCaptures(c).value as real
        == 3600.0 * Amount(c.hours) + 60.0 * Amount(c.minutes) + Amount(c.seconds) >= 0.0
  {
  }

  /** The time of captures that are all numbers, spelled out. */
  lemma TimeOfCaptures(h: Option<string>, m: Option<string>, sec: Option<string>)
    requires !NoGroup(TimeCaptures(h, m, sec)) && AllNumbers(TimeCaptures(h, m, sec))
    ensures TimeFromCaptures(TimeCaptures(h, m, sec))
      == Success((3600.0 * Amount(h) + 60.0 * Amount(m) + Amount(sec)) as Time)
  {
    TimeFromCapturesSpec(TimeCaptures(h, m, sec));
  }

  /** A text whose captures are all numbers, with some group present, parses to 3600 h + 60 min + s. */
  lemma ParseTimeOfNumbers(s: string, h: Option<string>, m: Option<string>, sec: Option<string>)
    requires CapturesOf(s) == TimeCaptures(h, m, sec)
    requires !NoGroup(TimeCaptures(h, m, sec)) && AllNumbers(TimeCaptures(h, m, sec))
    ensures ParseTime(s) == Success((3600.0 * Amount(h) + 60.0 * Amount(m) + Amount(sec)) as Time)
  {
    ParseTimeOfCaptures(s, TimeCaptures(h, m, sec));
    TimeOfCaptures(h, m, sec);
  }

  /** The group reported as not a number is the first present group that is not one. */
  lemma FirstBadGroupReported(c: TimeCaptures, g: TimeGroup, text: string)
    requires TimeFromCaptures(c) == Failure(BadNumber(g, text))
    ensures ParseNumber(text).None?
    ensures g == Hours ==> c.hours == Some(text)
    ensures g == Minutes ==> c.minutes == Some(text) && (c.hours.Some? ==> ParseNumber(c.hours.value).Some?)
    ensures g == Seconds ==> c.seconds == Some(text) && (c.hours.Some? ==> ParseNumber(c.hours.value).Some?)
                              && (c.minutes.Some? ==> ParseNumber(c.minutes.value).Some?)
  {
  }
}
