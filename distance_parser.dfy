/**
 * The distance argument: the first match of
 * `(?P<value>\d+(\.\d*)?)\s*(?P<unit>[[:alpha:]]*)` anywhere in the text,
 * the value parsed as a number, the unit lower-cased and looked up in a
 * fixed table of spellings.
 */
module DistanceParser {
  import opened Wrappers
  import opened Text
  import opened Numbers
  import opened Quantities

  datatype DistanceError =
    | NoDistance                     // "Could not parse distance."
    | BadDistanceValue(text: string) // "Could not parse distance value as number."
    | UnknownUnit(token: string)     // "Unknown unit \"...\"."

  /**
   * Capture boundaries of a match: `value` is s[valueStart..valueEnd], its
   * digit run `\d+` ends at digitsEnd, and `unit` is s[unitStart..unitEnd].
   */
  datatype DistanceMatch = DistanceMatch(valueStart: nat, digitsEnd: nat, valueEnd: nat, unitStart: nat, unitEnd: nat)

  /**
   * The leftmost-first match of the pattern: it starts at the first digit,
   * and every part (digits, fraction, spaces, letters) is as long as it can be.
   */
  predicate IsLeftmostGreedy(s: string, m: DistanceMatch) {
    && InOrder(s, m)
    && Every(s, 0, m.valueStart, NonDigit)
    && Every(s, m.valueStart, m.digitsEnd, Digit)
    && (m.digitsEnd == |s| || !IsDigit(s[m.digitsEnd]))
    && (if m.digitsEnd < |s| && s[m.digitsEnd] == '.'
        then m.digitsEnd < m.valueEnd && Every(s, m.digitsEnd + 1, m.valueEnd, Digit)
             && (m.valueEnd == |s| || !IsDigit(s[m.valueEnd]))
        else m.valueEnd == m.digitsEnd)
    && Every(s, m.valueEnd, m.unitStart, Space)
    && (m.unitStart == |s| || !IsSpace(s[m.unitStart]))
    && Every(s, m.unitStart, m.unitEnd, Alpha)
    && (m.unitEnd == |s| || !IsAlpha(s[m.unitEnd]))
  }

  /** The capture boundaries of a match lie in order inside `s`. */
  predicate InOrder(s: string, m: DistanceMatch) {
    m.valueStart < m.digitsEnd <= m.valueEnd <= m.unitStart <= m.unitEnd <= |s|
  }

  /** The match, when there is one (see `MatchDistanceGreedy` for which one it is). */
  function MatchDistance(s: string): (r: Option<DistanceMatch>)
    ensures r.None? <==> NoDigits(s)
    ensures r.Some? ==> InOrder(s, r.value)
  {
    match FindFirst(s, 0, Digit)
    case None => None
    case Some(valueStart) =>
      var digitsEnd := RunEnd(s, valueStart, Digit);
      var valueEnd := if digitsEnd < |s| && s[digitsEnd] == '.' then RunEnd(s, digitsEnd + 1, Digit) else digitsEnd;
      var unitStart := RunEnd(s, valueEnd, Space);
      var unitEnd := RunEnd(s, unitStart, Alpha);
      Some(DistanceMatch(valueStart, digitsEnd, valueEnd, unitStart, unitEnd))
  }

  /** The match found is the leftmost-first one. */
  lemma MatchDistanceGreedy(s: string)
    requires MatchDistance(s).Some?
    ensures IsLeftmostGreedy(s, MatchDistance(s).value)
  {
    var m := MatchDistance(s).value;
    RunEndSpec(s, m.valueStart, Digit);
    if m.digitsEnd < |s| && s[m.digitsEnd] == '.' {
      RunEndSpec(s, m.digitsEnd + 1, Digit);
    }
    RunEndSpec(s, m.valueEnd, Space);
    RunEndSpec(s, m.unitStart, Alpha);
  }

  /** The pattern has exactly one leftmost-first match: the one MatchDistance finds. */
  lemma MatchDistanceUnique(s: string, m: DistanceMatch)
    requires IsLeftmostGreedy(s, m)
    ensures MatchDistance(s) == Some(m)
  {
    FindFirstUnique(s, 0, Digit, m.valueStart);
    RunEndUnique(s, m.valueStart, Digit, m.digitsEnd);
    if m.digitsEnd < |s| && s[m.digitsEnd] == '.' {
      RunEndUnique(s, m.digitsEnd + 1, Digit, m.valueEnd);
    }
    RunEndUnique(s, m.valueEnd, Space, m.unitStart);
    RunEndUnique(s, m.unitStart, Alpha, m.unitEnd);
  }

  /** The spellings the unit table accepts for each unit, in lower case. */
  function Spellings(u: LengthUnit): set<string>
  {
    match u
    case Meter => {"m", "meter", "meters"}
    case Kilometer => {"km", "kilometer", "kilometers"}
    case Mile => {"mi", "mile", "miles"}
    case Yard => {"yd", "yard", "yards"}
    case Foot => {"ft", "foot", "feet"}
  }

  /** The unit table, applied to an already lower-cased token. */
  function LookupUnit(token: string): (r: Option<LengthUnit>)
    ensures r.Some? ==> token in Spellings(r.value)
    ensures r.None? <==> forall u: LengthUnit :: token !in Spellings(u)
  {
    if token == "m" || token == "meter" || token == "meters" then Some(Meter)
    else if token == "km" || token == "kilometer" || token == "kilometers" then Some(Kilometer)
    else if token == "mi" || token == "mile" || token == "miles" then Some(Mile)
    else if token == "yd" || token == "yard" || token == "yards" then Some(Yard)
    else if token == "ft" || token == "foot" || token == "feet" then Some(Foot)
    else None
  }

  /**
   * The conditional chain of `LookupUnit` and the spelling sets of
   * `Spellings` agree: the chain accepts exactly the listed spellings,
   * each for its own unit.
   */
  lemma LookupUnitTable(token: string, u: LengthUnit)
    ensures LookupUnit(token) == Some(u) <==> token in Spellings(u)
  {
  }

  function ParseDistance(s: string): (r: Result<Length, DistanceError>)
    ensures r.Success? ==> r.value >= 0.0
    ensures r == Failure(NoDistance) <==> NoDigits(s)
    ensures r.Failure? && r.error.UnknownUnit? ==> LookupUnit(r.error.token).None?
  {
    match MatchDistance(s)
    case None => Failure(NoDistance)
    case Some(m) => FromCaptures(s[m.valueStart..m.valueEnd], s[m.unitStart..m.unitEnd])
  }

  /** The distance named by the captured `value` and `unit` texts. */
  function FromCaptures(value: string, unit: string): (r: Result<Length, DistanceError>)
    ensures r.Success? ==> r.value >= 0.0
    ensures r != Failure(NoDistance)
    ensures r.Failure? && r.error.UnknownUnit? ==> LookupUnit(r.error.token).None?
  {
    match ParseNumber(value)
    case None => Failure(BadDistanceValue(value))
    case Some(v) =>
      var token := Lower(unit);
      match LookupUnit(token)
      case None => Failure(UnknownUnit(token))
      case Some(u) => Success(LengthOf(v, u))
  }

  /**
   * The captured value consists of ASCII digits with an optional
   * fractional part, so in this model, whose digit class is ASCII, the
   * value parse never fails.
   */
  lemma DistanceValueAlwaysParses(s: string)
    ensures !(ParseDistance(s).Failure? && ParseDistance(s).error.BadDistanceValue?)
  {
    var r := MatchDistance(s);
    if r.Some? {
      var m := r.value;
      MatchDistanceGreedy(s);
      var text := s[m.valueStart..m.valueEnd];
      var j := m.digitsEnd - m.valueStart;
      assert forall k | 0 <= k < |text| :: text[k] == s[m.valueStart + k];
      assert AllDigits(text[..j]);
      if m.valueEnd > m.digitsEnd {
        assert text[j] == '.';
        assert AllDigits(text[j + 1..]);
      }
      assert NumeralSplitAt(text, j);
    }
  }

  predicate StartsWith(s: string, cls: CharClass) { |s| > 0 && InClass(s[0], cls) }

  /**
   * What a distance text of the shape numeral, spaces, letters, rest
   * parses to: the numeral times the unit's factor when the lower-cased
   * letters are a known spelling, and an unknown-unit failure otherwise
   * (also when there are no letters). The side conditions say that each
   * part is maximal, so the rest is ignored.
   */
  lemma {:induction false} ParseDistanceShape(ip: string, fp: Option<string>, sep: string, tok: string, rest: string)
    requires |ip| > 0 && AllDigits(ip) && (fp.Some? ==> AllDigits(fp.value))
    requires AllSpaces(sep) && AllAlpha(tok)
    requires !StartsWith(sep + tok + rest, Digit)
    requires fp.None? ==> !(|sep + tok + rest| > 0 && (sep + tok + rest)[0] == '.')
    requires !StartsWith(tok + rest, Space)
    requires !StartsWith(rest, Alpha)
    ensures LookupUnit(Lower(tok)).Some? ==>
      ParseDistance(Numeral(ip, fp) + sep + tok + rest) == Success(LengthOf(NumeralValue(ip, fp), LookupUnit(Lower(tok)).value))
    ensures LookupUnit(Lower(tok)).None? ==>
      ParseDistance(Numeral(ip, fp) + sep + tok + rest) == Failure(UnknownUnit(Lower(tok)))
  {
    var num := Numeral(ip, fp);
    var s := num + sep + tok + rest;
    var m := DistanceMatch(0, |ip|, |num|, |num| + |sep|, |num| + |sep| + |tok|);
    ShapeIsLeftmostGreedy(ip, fp, sep, tok, rest);
    assert s[0..|num|] == num;
    assert s[m.unitStart..m.unitEnd] == tok;
    ParseByMatch(s, m, num, tok);
    ParseNumeral(ip, fp);
  }

  lemma {:induction false} ShapeIsLeftmostGreedy(ip: string, fp: Option<string>, sep: string, tok: string, rest: string)
    requires |ip| > 0 && AllDigits(ip) && (fp.Some? ==> AllDigits(fp.value))
    requires AllSpaces(sep) && AllAlpha(tok)
    requires !StartsWith(sep + tok + rest, Digit)
    requires fp.None? ==> !(|sep + tok + rest| > 0 && (sep + tok + rest)[0] == '.')
    requires !StartsWith(tok + rest, Space)
    requires !StartsWith(rest, Alpha)
    ensures IsLeftmostGreedy(Numeral(ip, fp) + sep + tok + rest,
                             DistanceMatch(0, |ip|, |Numeral(ip, fp)|, |Numeral(ip, fp)| + |sep|, |Numeral(ip, fp)| + |sep| + |tok|))
  {
    var num := Numeral(ip, fp);
    var after := sep + tok + rest;
    var s := num + after;
    assert s == Numeral(ip, fp) + sep + tok + rest;
    var a := |num|;
    NumeralShape(ip, fp);
    EveryAppendLeft(num, after, 0, |ip|, Digit);
    if fp.Some? {
      EveryAppendLeft(num, after, |ip| + 1, a, Digit);
      assert s[|ip|] == num[|ip|];
    }
    AfterShape(sep, tok, rest);
    EveryAppendRight(num, after, 0, |sep|, Space);
    EveryAppendRight(num, after, |sep|, |sep| + |tok|, Alpha);
    assert forall k | a <= k < |s| :: s[k] == after[k - a];
  }

  /** The digit runs of a numeral. */
  lemma NumeralShape(ip: string, fp: Option<string>)
    requires AllDigits(ip) && (fp.Some? ==> AllDigits(fp.value))
    ensures Every(Numeral(ip, fp), 0, |ip|, Digit)
    ensures fp.Some? ==> Numeral(ip, fp)[|ip|] == '.' && Every(Numeral(ip, fp), |ip| + 1, |Numeral(ip, fp)|, Digit)
    ensures fp.None? ==> Numeral(ip, fp) == ip
  {
    var num := Numeral(ip, fp);
    assert forall k | 0 <= k < |ip| :: num[k] == ip[k];
    if fp.Some? {
      assert forall k | |ip| + 1 <= k < |num| :: num[k] == fp.value[k - |ip| - 1];
    }
  }

  /** The spaces and letters after the numeral. */
  lemma AfterShape(sep: string, tok: string, rest: string)
    requires AllSpaces(sep) && AllAlpha(tok)
    ensures Every(sep + tok + rest, 0, |sep|, Space)
    ensures Every(sep + tok + rest, |sep|, |sep| + |tok|, Alpha)
  {
    var after := sep + tok + rest;
    assert after == sep + (tok + rest);
    EveryAppendLeft(sep, tok + rest, 0, |sep|, Space);
    EveryAppendLeft(tok, rest, 0, |tok|, Alpha);
    EveryAppendRight(sep, tok + rest, 0, |tok|, Alpha);
  }

  function Shift(m: DistanceMatch, n: nat): DistanceMatch
  {
    DistanceMatch(m.valueStart + n, m.digitsEnd + n, m.valueEnd + n, m.unitStart + n, m.unitEnd + n)
  }

  lemma ShiftIsLeftmostGreedy(pre: string, s: string, m: DistanceMatch)
    requires NoDigits(pre) && IsLeftmostGreedy(s, m)
    ensures IsLeftmostGreedy(pre + s, Shift(m, |pre|))
  {
    ShiftRuns(pre, s, m);
    CharAfter(pre, s, m.digitsEnd);
    CharAfter(pre, s, m.valueEnd);
    CharAfter(pre, s, m.unitStart);
    CharAfter(pre, s, m.unitEnd);
  }

  /** The runs of a match, shifted past a prefix without digits. */
  lemma ShiftRuns(pre: string, s: string, m: DistanceMatch)
    requires NoDigits(pre) && IsLeftmostGreedy(s, m)
    ensures var t, m' := pre + s, Shift(m, |pre|);
      && Every(t, 0, m'.valueStart, NonDigit)
      && Every(t, m'.valueStart, m'.digitsEnd, Digit)
      && (m.digitsEnd < |s| && s[m.digitsEnd] == '.' ==> Every(t, m'.digitsEnd + 1, m'.valueEnd, Digit))
      && Every(t, m'.valueEnd, m'.unitStart, Space)
      && Every(t, m'.unitStart, m'.unitEnd, Alpha)
  {
    var t := pre + s;
    var n := |pre|;
    assert Every(pre, 0, n, NonDigit);
    EveryAppendLeft(pre, s, 0, n, NonDigit);
    EveryAppendRight(pre, s, 0, m.valueStart, NonDigit);
    EveryConcat(t, 0, n, n + m.valueStart, NonDigit);
    EveryAppendRight(pre, s, m.valueStart, m.digitsEnd, Digit);
    if m.digitsEnd < |s| && s[m.digitsEnd] == '.' {
      EveryAppendRight(pre, s, m.digitsEnd + 1, m.valueEnd, Digit);
    }
    EveryAppendRight(pre, s, m.valueEnd, m.unitStart, Space);
    EveryAppendRight(pre, s, m.unitStart, m.unitEnd, Alpha);
  }

  lemma CharAfter(pre: string, s: string, k: nat)
    ensures k < |s| ==> (pre + s)[|pre| + k] == s[k]
  {
  }

  /** Text before the first digit is skipped. */
  lemma ParseDistanceSkipsPrefix(pre: string, s: string)
    requires NoDigits(pre)
    ensures ParseDistance(pre + s) == ParseDistance(s)
  {
    var r := MatchDistance(s);
    if r.Some? {
      var m := r.value;
      MatchDistanceGreedy(s);
      ParseByMatch(s, m, s[m.valueStart..m.valueEnd], s[m.unitStart..m.unitEnd]);
      ParseShifted(pre, s, m);
    } else {
      NoDigitsConcat(pre, s);
    }
  }

  lemma ParseShifted(pre: string, s: string, m: DistanceMatch)
    requires NoDigits(pre) && IsLeftmostGreedy(s, m)
    ensures ParseDistance(pre + s) == FromCaptures(s[m.valueStart..m.valueEnd], s[m.unitStart..m.unitEnd])
  {
    ShiftIsLeftmostGreedy(pre, s, m);
    SliceOfShift(pre, s, m);
    ParseByMatch(pre + s, Shift(m, |pre|), s[m.valueStart..m.valueEnd], s[m.unitStart..m.unitEnd]);
  }

  /** A distance text parses to what the captures of its leftmost-first match name. */
  lemma ParseByMatch(s: string, m: DistanceMatch, value: string, unit: string)
    requires IsLeftmostGreedy(s, m)
    requires s[m.valueStart..m.valueEnd] == value && s[m.unitStart..m.unitEnd] == unit
    ensures ParseDistance(s) == FromCaptures(value, unit)
  {
    MatchDistanceUnique(s, m);
  }

  lemma SliceOfShift(pre: string, s: string, m: DistanceMatch)
    requires IsLeftmostGreedy(s, m)
    ensures (pre + s)[Shift(m, |pre|).valueStart..Shift(m, |pre|).valueEnd] == s[m.valueStart..m.valueEnd]
    ensures (pre + s)[Shift(m, |pre|).unitStart..Shift(m, |pre|).unitEnd] == s[m.unitStart..m.unitEnd]
  {
  }

  lemma NoDigitsConcat(a: string, b: string)
    requires NoDigits(a) && NoDigits(b)
    ensures NoDigits(a + b)
  {
    var t := a + b;
    forall k | 0 <= k < |t| ensures !IsDigit(t[k]) {
      if k >= |a| { assert t[k] == b[k - |a|]; } else { assert t[k] == a[k]; }
    }
  }
}
