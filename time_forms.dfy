/**
 * What the time pattern makes of the forms a user types: numbers directly
 * followed by their unit, groups separated by blanks, and the forms it
 * rejects because the captured text is not trimmed before it is parsed.
 */
module TimeForms {
  import opened Wrappers
  import opened Text
  import opened Numbers
  import opened Quantities
  import opened TimeParser

  /** No occurrence of `marker` starts in [i, j). */
  predicate NoMarkerIn(s: string, i: nat, j: nat, marker: string)
  {
    forall k | i <= k < j :: !MarkerAt(s, k, marker)
  }

  /** What a group holds when it parses: digits and dots, at least one of them (see `NumberChars`). */
  predicate NumeralText(t: string) {
    |t| > 0 && Every(t, 0, |t|, NumeralChar)
  }

  /** White space between groups that stays on one line. */
  predicate Blank(t: string) {
    AllSpaces(t) && NoNewline(t)
  }

  /** A marker at `j` with no later occurrence ends the greedy capture at `j`. */
  lemma LastCandidateIsLastMarker(s: string, from: nat, j: nat, marker: string)
    requires from < j <= |s| && Every(s, from, j, NonNewline)
    requires |marker| > 0 && !IsSpace(marker[0]) && MarkerAt(s, j, marker)
    requires NoMarkerIn(s, j + 1, |s|, marker)
    ensures LastCandidate(s, from, marker) == Some(j)
  {
    LastCandidateSpec(s, from, marker);
    RunEndUnique(s, j, Space, j);
    assert Candidate(s, from, j, marker);
    var r := LastCandidate(s, from, marker).value;
    assert RunEnd(s, r, Space) <= j by {
      var k := RunEnd(s, r, Space);
      assert MarkerAt(s, k, marker);
    }
  }

  /** With no marker after `from`, the group is absent. */
  lemma NoMarkerNoCandidate(s: string, from: nat, marker: string)
    requires from <= |s| && |marker| > 0 && NoMarkerIn(s, from + 1, |s|, marker)
    ensures LastCandidate(s, from, marker) == None
  {
    LastCandidateSpec(s, from, marker);
  }

  /** A marker cannot start inside a run of characters that its first letter is not among. */
  lemma NoMarkerInClass(s: string, i: nat, j: nat, marker: string, cls: CharClass)
    requires i <= j <= |s| && Every(s, i, j, cls)
    requires |marker| > 0 && !InClass(marker[0], cls)
    ensures NoMarkerIn(s, i, j, marker)
  {
    forall k | i <= k < j ensures !MarkerAt(s, k, marker) {
      if k + |marker| <= |s| {
        assert s[k..k + |marker|][0] == s[k];
      }
    }
  }

  /** A marker cannot start at a character other than its first letter. */
  lemma NoMarkerAtChar(s: string, k: nat, marker: string)
    requires k < |s| && |marker| > 0 && s[k] != marker[0]
    ensures NoMarkerIn(s, k, k + 1, marker)
  {
    if k + |marker| <= |s| {
      assert s[k..k + |marker|][0] == s[k];
    }
  }

  lemma NoMarkerConcat(s: string, i: nat, j: nat, k: nat, marker: string)
    requires i <= j <= k
    requires NoMarkerIn(s, i, j, marker) && NoMarkerIn(s, j, k, marker)
    ensures NoMarkerIn(s, i, k, marker)
  {
  }

  /** A piece of `s` at offset `i` carries its character classes into `s`. */
  lemma EveryOfPiece(s: string, i: nat, t: string, cls: CharClass)
    requires i + |t| <= |s| && Every(t, 0, |t|, cls)
    requires forall k | 0 <= k < |t| :: s[i + k] == t[k]
    ensures Every(s, i, i + |t|, cls)
  {
    forall k | i <= k < i + |t| ensures InClass(s[k], cls) {
      assert s[i + (k - i)] == t[k - i];
    }
  }

  /** A marker is at `k` when its letters are. */
  lemma MarkerOfChars(s: string, k: nat, marker: string)
    requires k + |marker| <= |s| && forall i | 0 <= i < |marker| :: s[k + i] == marker[i]
    ensures MarkerAt(s, k, marker)
  {
    var t := s[k..k + |marker|];
    assert forall i | 0 <= i < |t| :: t[i] == s[k + i];
    assert t == marker;
  }

  /** A piece of `s` at offset `i` is the slice there. */
  lemma SliceOfPiece(s: string, i: nat, t: string)
    requires i + |t| <= |s| && forall k | 0 <= k < |t| :: s[i + k] == t[k]
    ensures s[i..i + |t|] == t
  {
    var u := s[i..i + |t|];
    assert forall k | 0 <= k < |u| :: u[k] == s[i + k];
  }

  lemma BlankClasses(t: string)
    requires Blank(t)
    ensures Every(t, 0, |t|, Space) && Every(t, 0, |t|, NonNewline)
  {
  }

  lemma NumeralNoNewline(s: string, i: nat, j: nat)
    requires i <= j <= |s| && Every(s, i, j, NumeralChar)
    ensures Every(s, i, j, NonNewline)
  {
  }

  // ---------------------------------------------------------------------
  // a + "h" + sep1 + b + "min" + sep2 + c + "s"

  function FullText(a: string, sep1: string, b: string, sep2: string, c: string): string {
    a + "h" + sep1 + b + "min" + sep2 + c + "s"
  }

  /** Where each piece of the full form lies. */
  lemma FullLayout(a: string, sep1: string, b: string, sep2: string, c: string)
    ensures FullPieces(FullText(a, sep1, b, sep2, c), a, sep1, b, sep2, c)
  {
  }

  /** The pieces of the full form, placed in a text `s`. */
  predicate FullPieces(s: string, a: string, sep1: string, b: string, sep2: string, c: string)
  {
    var b0 := |a| + 1 + |sep1|;
    var mi := b0 + |b|;
    var c0 := mi + 3 + |sep2|;
    |s| == c0 + |c| + 1
    && (forall k {:trigger a[k]} | 0 <= k < |a| :: s[0 + k] == a[k])
    && s[|a|] == 'h'
    && (forall k {:trigger sep1[k]} | 0 <= k < |sep1| :: s[|a| + 1 + k] == sep1[k])
    && (forall k {:trigger b[k]} | 0 <= k < |b| :: s[b0 + k] == b[k])
    && s[mi] == 'm' && s[mi + 1] == 'i' && s[mi + 2] == 'n'
    && (forall k {:trigger sep2[k]} | 0 <= k < |sep2| :: s[mi + 3 + k] == sep2[k])
    && (forall k {:trigger c[k]} | 0 <= k < |c| :: s[c0 + k] == c[k])
    && s[c0 + |c|] == 's'
  }

  /**
   * The shape of the full form as the searches see it, with `h` at `ha`,
   * `min` at `mi` and the final `s` at `se`.
   */
  predicate FullShape(s: string, ha: nat, b0: nat, mi: nat, c0: nat, se: nat)
  {
    0 < ha < b0 < mi && mi + 3 <= c0 < se && |s| == se + 1
    && Every(s, 0, ha, NumeralChar) && s[ha] == 'h'
    && Every(s, ha + 1, b0, Space) && Every(s, ha + 1, b0, NonNewline)
    && Every(s, b0, mi, NumeralChar)
    && s[mi] == 'm' && s[mi + 1] == 'i' && s[mi + 2] == 'n'
    && Every(s, mi + 3, c0, Space) && Every(s, mi + 3, c0, NonNewline)
    && Every(s, c0, se, NumeralChar) && s[se] == 's'
  }

  lemma FullPiecesShape(s: string, a: string, sep1: string, b: string, sep2: string, c: string)
    requires NumeralText(a) && NumeralText(b) && NumeralText(c)
    requires Blank(sep1) && Blank(sep2)
    requires FullPieces(s, a, sep1, b, sep2, c)
    ensures var b0 := |a| + 1 + |sep1|;
      var mi := b0 + |b|;
      var c0 := mi + 3 + |sep2|;
      FullShape(s, |a|, b0, mi, c0, c0 + |c|)
  {
    var b0 := |a| + 1 + |sep1|;
    var mi := b0 + |b|;
    var c0 := mi + 3 + |sep2|;
    BlankClasses(sep1);
    BlankClasses(sep2);
    EveryOfPiece(s, 0, a, NumeralChar);
    EveryOfPiece(s, |a| + 1, sep1, Space);
    EveryOfPiece(s, |a| + 1, sep1, NonNewline);
    EveryOfPiece(s, b0, b, NumeralChar);
    EveryOfPiece(s, mi + 3, sep2, Space);
    EveryOfPiece(s, mi + 3, sep2, NonNewline);
    EveryOfPiece(s, c0, c, NumeralChar);
  }

  /** In the full shape the hours group ends at the only `h`. */
  lemma FullShapeHours(s: string, ha: nat, b0: nat, mi: nat, c0: nat, se: nat)
    requires FullShape(s, ha, b0, mi, c0, se)
    ensures LastCandidate(s, 0, "h") == Some(ha)
    ensures RunEnd(s, ha, Space) == ha && RunEnd(s, ha + 1, Space) == b0
  {
    assert NoMarkerIn(s, ha + 1, |s|, "h") by {
      NoMarkerInClass(s, ha + 1, b0, "h", Space);
      NoMarkerInClass(s, b0, mi, "h", NumeralChar);
      NoMarkerConcat(s, ha + 1, b0, mi, "h");
      NoMarkerAtChar(s, mi, "h");
      NoMarkerConcat(s, ha + 1, mi, mi + 1, "h");
      NoMarkerAtChar(s, mi + 1, "h");
      NoMarkerConcat(s, ha + 1, mi + 1, mi + 2, "h");
      NoMarkerAtChar(s, mi + 2, "h");
      NoMarkerConcat(s, ha + 1, mi + 2, mi + 3, "h");
      NoMarkerInClass(s, mi + 3, c0, "h", Space);
      NoMarkerConcat(s, ha + 1, mi + 3, c0, "h");
      NoMarkerInClass(s, c0, se, "h", NumeralChar);
      NoMarkerConcat(s, ha + 1, c0, se, "h");
      NoMarkerAtChar(s, se, "h");
      NoMarkerConcat(s, ha + 1, se, se + 1, "h");
    }
    NumeralNoNewline(s, 0, ha);
    MarkerOfChars(s, ha, "h");
    LastCandidateIsLastMarker(s, 0, ha, "h");
    RunEndUnique(s, ha, Space, ha);
    RunEndUnique(s, ha + 1, Space, b0);
  }

  /** In the full shape the minutes group, searched from `b0`, ends at the only `min`. */
  lemma FullShapeMinutes(s: string, ha: nat, b0: nat, mi: nat, c0: nat, se: nat)
    requires FullShape(s, ha, b0, mi, c0, se)
    ensures LastCandidate(s, b0, "min") == Some(mi) && RunEnd(s, mi, Space) == mi
  {
    assert NoMarkerIn(s, mi + 1, |s|, "min") by {
      NoMarkerAtChar(s, mi + 1, "min");
      NoMarkerAtChar(s, mi + 2, "min");
      NoMarkerConcat(s, mi + 1, mi + 2, mi + 3, "min");
      NoMarkerInClass(s, mi + 3, c0, "min", Space);
      NoMarkerConcat(s, mi + 1, mi + 3, c0, "min");
      NoMarkerInClass(s, c0, se, "min", NumeralChar);
      NoMarkerConcat(s, mi + 1, c0, se, "min");
      NoMarkerAtChar(s, se, "min");
      NoMarkerConcat(s, mi + 1, se, se + 1, "min");
    }
    NumeralNoNewline(s, b0, mi);
    MarkerOfChars(s, mi, "min");
    LastCandidateIsLastMarker(s, b0, mi, "min");
    RunEndUnique(s, mi, Space, mi);
  }

  /** In the full shape the seconds group, searched from right after `min`, ends at the final `s`. */
  lemma FullShapeSeconds(s: string, ha: nat, b0: nat, mi: nat, c0: nat, se: nat)
    requires FullShape(s, ha, b0, mi, c0, se)
    ensures LastCandidate(s, mi + 3, "s") == Some(se)
  {
    NumeralNoNewline(s, c0, se);
    EveryConcat(s, mi + 3, c0, se, NonNewline);
    MarkerOfChars(s, se, "s");
    LastCandidateIsLastMarker(s, mi + 3, se, "s");
  }

  /** In the full shape each group ends at its own unit. */
  lemma FullShapeMatch(s: string, ha: nat, b0: nat, mi: nat, c0: nat, se: nat)
    requires FullShape(s, ha, b0, mi, c0, se)
    ensures MatchTime(s) == TimeMatch(Some(Span(0, ha)), Some(Span(b0, mi)), Some(Span(mi + 3, se)))
  {
    FullShapeHours(s, ha, b0, mi, c0, se);
    FullShapeMinutes(s, ha, b0, mi, c0, se);
    FullShapeSeconds(s, ha, b0, mi, c0, se);
    HoursThenMinutes(s, ha, b0, mi);
    MatchOfThreeSearches(s, ha, b0, mi, se);
  }

  // Each step of the match, from the search that precedes it.

  lemma MinutesFromAfterHours(s: string, ha: nat, b0: nat)
    requires ha < |s| && HoursEnd(s) == Some(ha)
    requires RunEnd(s, ha, Space) == ha && RunEnd(s, ha + 1, Space) == b0
    ensures MinutesFrom(s) == b0
  {
  }

  lemma MinutesEndFrom(s: string, b0: nat, mi: nat)
    requires MinutesFrom(s) == b0 && LastCandidate(s, b0, "min") == Some(mi)
    ensures MinutesEnd(s) == Some(mi)
  {
  }

  lemma SecondsFromAfterMinutes(s: string, mi: nat)
    requires MinutesEnd(s) == Some(mi) && mi + 3 <= |s| && RunEnd(s, mi, Space) == mi
    ensures SecondsFrom(s) == mi + 3
  {
  }

  lemma SecondsEndFrom(s: string, sf: nat, se: Option<nat>)
    requires SecondsFrom(s) == sf && LastCandidate(s, sf, "s") == se
    ensures SecondsEnd(s) == se
  {
  }

  lemma AssembleMatch(s: string, h: Option<nat>, mf: nat, m: Option<nat>, sf: nat, se: Option<nat>)
    requires HoursEnd(s) == h && MinutesFrom(s) == mf && MinutesEnd(s) == m
    requires SecondsFrom(s) == sf && SecondsEnd(s) == se
    ensures MatchTime(s) == TimeMatch(SpanFrom(0, h), SpanFrom(mf, m), SpanFrom(sf, se))
  {
  }

  /** The hours and minutes steps of the match, from their searches. */
  lemma HoursThenMinutes(s: string, ha: nat, b0: nat, mi: nat)
    requires ha < |s| && LastCandidate(s, 0, "h") == Some(ha)
    requires RunEnd(s, ha, Space) == ha && RunEnd(s, ha + 1, Space) == b0
    requires LastCandidate(s, b0, "min") == Some(mi)
    ensures HoursEnd(s) == Some(ha) && MinutesFrom(s) == b0 && MinutesEnd(s) == Some(mi)
  {
    MinutesFromAfterHours(s, ha, b0);
    MinutesEndFrom(s, b0, mi);
  }

  /** The match when all three searches succeed, assembled from their results. */
  lemma MatchOfThreeSearches(s: string, ha: nat, b0: nat, mi: nat, se: nat)
    requires HoursEnd(s) == Some(ha) && MinutesFrom(s) == b0 && MinutesEnd(s) == Some(mi)
    requires mi + 3 <= |s| && RunEnd(s, mi, Space) == mi
    requires LastCandidate(s, mi + 3, "s") == Some(se)
    ensures MatchTime(s) == TimeMatch(Some(Span(0, ha)), Some(Span(b0, mi)), Some(Span(mi + 3, se)))
  {
    SecondsFromAfterMinutes(s, mi);
    SecondsEndFrom(s, mi + 3, Some(se));
    AssembleMatch(s, Some(ha), b0, Some(mi), mi + 3, Some(se));
  }

  /** The full form's pieces in `s` determine the match. */
  lemma FullPiecesMatch(s: string, a: string, sep1: string, b: string, sep2: string, c: string)
    requires NumeralText(a) && NumeralText(b) && NumeralText(c)
    requires Blank(sep1) && Blank(sep2)
    requires FullPieces(s, a, sep1, b, sep2, c)
    ensures var b0 := |a| + 1 + |sep1|;
      var mi := b0 + |b|;
      var c0 := mi + 3 + |sep2|;
      MatchTime(s) == TimeMatch(Some(Span(0, |a|)), Some(Span(b0, mi)), Some(Span(mi + 3, c0 + |c|)))
  {
    var b0 := |a| + 1 + |sep1|;
    var mi := b0 + |b|;
    var c0 := mi + 3 + |sep2|;
    FullPiecesShape(s, a, sep1, b, sep2, c);
    FullShapeMatch(s, |a|, b0, mi, c0, c0 + |c|);
  }

  /** The pieces of the full form, as slices of `s`. */
  lemma PiecesSlices(s: string, a: string, sep1: string, b: string, sep2: string, c: string)
    requires FullPieces(s, a, sep1, b, sep2, c)
    ensures var b0 := |a| + 1 + |sep1|;
      var mi := b0 + |b|;
      var c0 := mi + 3 + |sep2|;
      s[0..|a|] == a && s[b0..mi] == b && s[mi + 3..c0 + |c|] == sep2 + c
  {
    var b0 := |a| + 1 + |sep1|;
    var mi := b0 + |b|;
    SliceOfPiece(s, 0, a);
    SliceOfPiece(s, b0, b);
    assert forall k | 0 <= k < |sep2 + c| :: s[mi + 3 + k] == (sep2 + c)[k];
    SliceOfPiece(s, mi + 3, sep2 + c);
  }

  /** What each group captures, once the match is known. */
  lemma CapturesOfMatch(s: string, m: TimeMatch)
    requires MatchTime(s) == m
    ensures SpanIn(s, m.hours) && SpanIn(s, m.minutes) && SpanIn(s, m.seconds)
    ensures CapturesOf(s) == TimeCaptures(Captured(s, m.hours), Captured(s, m.minutes), Captured(s, m.seconds))
  {
  }

  lemma FullPiecesCaptures(s: string, a: string, sep1: string, b: string, sep2: string, c: string)
    requires NumeralText(a) && NumeralText(b) && NumeralText(c)
    requires Blank(sep1) && Blank(sep2)
    requires FullPieces(s, a, sep1, b, sep2, c)
    ensures CapturesOf(s) == TimeCaptures(Some(a), Some(b), Some(sep2 + c))
  {
    var b0 := |a| + 1 + |sep1|;
    var mi := b0 + |b|;
    var c0 := mi + 3 + |sep2|;
    FullPiecesMatch(s, a, sep1, b, sep2, c);
    PiecesSlices(s, a, sep1, b, sep2, c);
    CapturesOfMatch(s, TimeMatch(Some(Span(0, |a|)), Some(Span(b0, mi)), Some(Span(mi + 3, c0 + |c|))));
  }

  /** The full form captures its three numbers, the seconds with the blanks before them. */
  lemma FullFormCaptures(a: string, sep1: string, b: string, sep2: string, c: string)
    requires ParseNumber(a).Some? && ParseNumber(b).Some? && ParseNumber(c).Some?
    requires Blank(sep1) && Blank(sep2)
    ensures CapturesOf(FullText(a, sep1, b, sep2, c)) == TimeCaptures(Some(a), Some(b), Some(sep2 + c))
  {
    NumberChars(a);
    NumberChars(b);
    NumberChars(c);
    FullLayout(a, sep1, b, sep2, c);
    FullPiecesCaptures(FullText(a, sep1, b, sep2, c), a, sep1, b, sep2, c);
  }

  /** The time as read from the full form's captures. */
  lemma FullCapturesTime(a: string, b: string, sep2: string, c: string)
    requires ParseNumber(a).Some? && ParseNumber(b).Some? && ParseNumber(c).Some?
    requires Blank(sep2)
    ensures TimeFromCaptures(TimeCaptures(Some(a), Some(b), Some(sep2 + c)))
      == if sep2 == [] then
           Success((3600.0 * ParseNumber(a).value + 60.0 * ParseNumber(b).value + ParseNumber(c).value) as Time)
         else
           Failure(BadNumber(Seconds, sep2 + c))
  {
    if sep2 == [] {
      assert sep2 + c == c;
      TimeOfCaptures(Some(a), Some(b), Some(c));
    } else {
      SpacedSecondsRejected(a, b, sep2, c);
    }
  }

  /** Leading blanks in the seconds capture make it no number. */
  lemma SpacedSecondsRejected(a: string, b: string, sep2: string, c: string)
    requires ParseNumber(a).Some? && ParseNumber(b).Some?
    requires Blank(sep2) && sep2 != []
    ensures TimeFromCaptures(TimeCaptures(Some(a), Some(b), Some(sep2 + c))) == Failure(BadNumber(Seconds, sep2 + c))
  {
    assert IsSpace(sep2[0]);
    assert sep2 + c == [sep2[0]] + (sep2[1..] + c);
    UntrimmedRejected(sep2[1..] + c, sep2[0]);
  }

  /**
   * `a h sep1 b min sep2 c s` is 3600 a + 60 b + c seconds when `c`
   * follows `min` directly. The seconds capture keeps the blanks after
   * `min`, so with `sep2` non-empty the seconds text fails to parse.
   */
  lemma FullFormTime(a: string, sep1: string, b: string, sep2: string, c: string)
    requires ParseNumber(a).Some? && ParseNumber(b).Some? && ParseNumber(c).Some?
    requires Blank(sep1) && Blank(sep2)
    ensures ParseTime(FullText(a, sep1, b, sep2, c))
      == if sep2 == [] then
           Success((3600.0 * ParseNumber(a).value + 60.0 * ParseNumber(b).value + ParseNumber(c).value) as Time)
         else
           Failure(BadNumber(Seconds, sep2 + c))
  {
    FullFormCaptures(a, sep1, b, sep2, c);
    ParseTimeOfCaptures(FullText(a, sep1, b, sep2, c), TimeCaptures(Some(a), Some(b), Some(sep2 + c)));
    FullCapturesTime(a, b, sep2, c);
  }
}
