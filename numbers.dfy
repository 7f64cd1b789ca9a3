/**
 * The number parse applied to captured text (`str::parse::<f64>`),
 * restricted to unsigned decimal numerals: digits, optionally one `.`
 * followed by digits, with at least one digit in all. The text is not
 * trimmed, so any other character makes the parse fail.
 */
module Numbers {
  import opened Wrappers
  import opened Text

  function Pow10(k: nat): (r: nat)
    ensures r >= 1
  {
    if k == 0 then 1 else 10 * Pow10(k - 1)
  }

  /** The value of the numeral `ip.fp`. */
  function DecimalValue(ip: string, fp: string): (v: real)
    requires AllDigits(ip) && AllDigits(fp)
    ensures v >= 0.0
  {
    NatValue(ip) as real + NatValue(fp) as real / Pow10(|fp|) as real
  }

  /** `s` is an unsigned decimal numeral whose integral part ends at `j`. */
  predicate NumeralSplitAt(s: string, j: nat)
    requires j <= |s|
  {
    AllDigits(s[..j]) &&
    if j == |s| then j > 0 else s[j] == '.' && AllDigits(s[j + 1..]) && |s| >= 2
  }

  ghost predicate IsNumeral(s: string) {
    exists j | 0 <= j <= |s| :: NumeralSplitAt(s, j)
  }

  function ParseNumber(s: string): (r: Option<real>)
    ensures r.Some? <==> IsNumeral(s)
    ensures r.Some? ==> r.value >= 0.0
  {
    var j := RunEnd(s, 0, Digit);
    RunEndSpec(s, 0, Digit);
    assert AllDigits(s[..j]) by {
      assert forall k | 0 <= k < j :: s[..j][k] == s[k];
    }
    if j == |s| then
      if j > 0 then
        assert NumeralSplitAt(s, j);
        Some(NatValue(s) as real)
      else
        NoNumeralWithoutDigits(s);
        None
    else if s[j] == '.' && AllDigits(s[j + 1..]) && |s| >= 2 then
      assert NumeralSplitAt(s, j);
      Some(DecimalValue(s[..j], s[j + 1..]))
    else
      SplitIsDigitRunEnd(s, j);
      None
  }

  /** A split point of a numeral is always the end of its leading digit run. */
  lemma SplitIsDigitRunEnd(s: string, j: nat)
    requires j <= |s| && AllDigits(s[..j]) && (j == |s| || !IsDigit(s[j]))
    ensures forall k | 0 <= k <= |s| :: NumeralSplitAt(s, k) ==> k == j
  {
    forall k | 0 <= k < j ensures !NumeralSplitAt(s, k) {
      assert IsDigit(s[k]);
    }
    forall k | j < k <= |s| ensures !AllDigits(s[..k]) {
      assert s[..k][j] == s[j];
    }
  }

  lemma NoNumeralWithoutDigits(s: string)
    requires s == []
    ensures !IsNumeral(s)
  {
  }

  /** A non-empty digit string parses to its value. */
  lemma ParseIntegral(ip: string)
    requires |ip| > 0 && AllDigits(ip)
    ensures ParseNumber(ip) == Some(NatValue(ip) as real)
  {
    RunEndUnique(ip, 0, Digit, |ip|);
  }

  /** `ip.fp` parses to its value when it has at least one digit. */
  lemma ParseFractional(ip: string, fp: string)
    requires AllDigits(ip) && AllDigits(fp) && |ip| + |fp| >= 1
    ensures ParseNumber(ip + "." + fp) == Some(DecimalValue(ip, fp))
  {
    var s := ip + "." + fp;
    var j := RunEnd(s, 0, Digit);
    assert s[|ip|] == '.';
    assert forall k | 0 <= k < |ip| :: s[k] == ip[k];
    RunEndUnique(s, 0, Digit, |ip|);
    assert s[..j] == ip;
    assert s[j + 1..] == fp;
  }

  /** The numeral with integral digits `ip` and, when present, the fraction digits `fp` after a `.`. */
  function Numeral(ip: string, fp: Option<string>): string
  {
    if fp.Some? then ip + "." + fp.value else ip
  }

  function NumeralValue(ip: string, fp: Option<string>): (v: real)
    requires AllDigits(ip) && (fp.Some? ==> AllDigits(fp.value))
    ensures v >= 0.0
  {
    if fp.Some? then DecimalValue(ip, fp.value) else NatValue(ip) as real
  }

  lemma NumeralChars(ip: string, fp: Option<string>)
    requires AllDigits(ip) && (fp.Some? ==> AllDigits(fp.value))
    ensures Every(Numeral(ip, fp), 0, |Numeral(ip, fp)|, NumeralChar)
  {
    var num := Numeral(ip, fp);
    if fp.Some? {
      assert forall k | 0 <= k < |ip| :: num[k] == ip[k];
      assert forall k | |ip| < k < |num| :: num[k] == fp.value[k - |ip| - 1];
    }
  }

  /** Text that parses is non-empty and made of digits and dots only. */
  lemma NumberChars(s: string)
    requires ParseNumber(s).Some?
    ensures |s| > 0 && Every(s, 0, |s|, NumeralChar)
  {
    var j :| 0 <= j <= |s| && NumeralSplitAt(s, j);
    forall k | 0 <= k < |s| ensures InClass(s[k], NumeralChar) {
      if k < j {
        assert s[..j][k] == s[k];
      } else if k > j {
        assert s[j + 1..][k - j - 1] == s[k];
      }
    }
  }

  lemma ParseNumeral(ip: string, fp: Option<string>)
    requires |ip| > 0 && AllDigits(ip) && (fp.Some? ==> AllDigits(fp.value))
    ensures ParseNumber(Numeral(ip, fp)) == Some(NumeralValue(ip, fp))
  {
    if fp.Some? {
      ParseFractional(ip, fp.value);
    } else {
      ParseIntegral(ip);
    }
  }

  /** The rendering of a natural number parses back to it. */
  lemma ParseNatToString(n: nat)
    ensures ParseNumber(NatToString(n)) == Some(n as real)
  {
    ParseIntegral(NatToString(n));
    NatToStringValue(n);
  }

  /** No trimming: a numeral with a leading or trailing non-numeral character is rejected. */
  lemma {:induction false} UntrimmedRejected(s: string, c: char)
    requires !IsDigit(c) && c != '.'
    ensures ParseNumber(s + [c]) == None
    ensures ParseNumber([c] + s) == None
  {
    var t := s + [c];
    forall j | 0 <= j <= |t| ensures !NumeralSplitAt(t, j) {
      if j == |t| {
        assert t[..j][j - 1] == c;
      } else if j == |t| - 1 {
        assert t[j] == c;
      } else {
        assert t[j + 1..][|t| - j - 2] == c;
      }
    }
    var u := [c] + s;
    forall j | 0 <= j <= |u| ensures !NumeralSplitAt(u, j) {
      if j > 0 {
        assert u[..j][0] == c;
      } else {
        assert u[0] == c;
      }
    }
  }
}
