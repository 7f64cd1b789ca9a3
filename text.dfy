/**
 * Character classes and scanning primitives over `string` (= seq<char>).
 * The classes are the ASCII members of the regex classes `\d`, `\s` and
 * `[[:alpha:]]`.
 */
module Text {
  import opened Wrappers

  /** `\d` restricted to ASCII. */
  predicate IsDigit(c: char) { '0' <= c <= '9' }

  /** `[[:alpha:]]`, which is ASCII-only in the regex syntax. */
  predicate IsAlpha(c: char) { 'a' <= c <= 'z' || 'A' <= c <= 'Z' }

  /** `\s` restricted to ASCII: space, tab, newline, vertical tab, form feed, carriage return. */
  predicate IsSpace(c: char) {
    c == ' ' || c == '\t' || c == '\n' || c == '\U{000B}' || c == '\U{000C}' || c == '\r'
  }

  /** The character classes the scanners use. */
  datatype CharClass = Digit | NonDigit | Space | Alpha | NonNewline | NumeralChar

  predicate InClass(c: char, cls: CharClass) {
    match cls
    case Digit => IsDigit(c)
    case NonDigit => !IsDigit(c)
    case Space => IsSpace(c)
    case Alpha => IsAlpha(c)
    case NonNewline => c != '\n'
    case NumeralChar => IsDigit(c) || c == '.'
  }

  predicate AllDigits(s: string) { forall i | 0 <= i < |s| :: IsDigit(s[i]) }

  predicate AllSpaces(s: string) { forall i | 0 <= i < |s| :: IsSpace(s[i]) }

  predicate AllAlpha(s: string) { forall i | 0 <= i < |s| :: IsAlpha(s[i]) }

  predicate NoDigits(s: string) { forall i | 0 <= i < |s| :: !IsDigit(s[i]) }

  predicate NoNewline(s: string) { forall i | 0 <= i < |s| :: s[i] != '\n' }

  /** Every character of s[i..j] satisfies `cls`. */
  predicate Every(s: string, i: nat, j: nat, cls: CharClass)
    requires i <= j <= |s|
  {
    forall k | i <= k < j :: InClass(s[k], cls)
  }

  /** End of the maximal run of characters satisfying `cls` that starts at `i`. */
  function RunEnd(s: string, i: nat, cls: CharClass): (j: nat)
    requires i <= |s|
    ensures i <= j <= |s|
    decreases |s| - i
  {
    if i < |s| && InClass(s[i], cls) then RunEnd(s, i + 1, cls) else i
  }

  /** The run that `RunEnd` finds: every character before it is in `cls`, the one at it is not. */
  lemma {:induction false} RunEndSpec(s: string, i: nat, cls: CharClass)
    requires i <= |s|
    ensures forall k | i <= k < RunEnd(s, i, cls) :: InClass(s[k], cls)
    ensures RunEnd(s, i, cls) == |s| || !InClass(s[RunEnd(s, i, cls)], cls)
    decreases |s| - i
  {
    if i < |s| && InClass(s[i], cls) {
      RunEndSpec(s, i + 1, cls);
    }
  }

  /** The end of a maximal run is determined by the run itself. */
  lemma RunEndUnique(s: string, i: nat, cls: CharClass, j: nat)
    requires i <= j <= |s|
    requires forall k | i <= k < j :: InClass(s[k], cls)
    requires j == |s| || !InClass(s[j], cls)
    ensures RunEnd(s, i, cls) == j
    decreases j - i
  {
    if i < j {
      assert InClass(s[i], cls);
      RunEndUnique(s, i + 1, cls, j);
    }
  }

  /** The first index at or after `i` whose character satisfies `cls`. */
  function FindFirst(s: string, i: nat, cls: CharClass): (r: Option<nat>)
    requires i <= |s|
    ensures r.Some? ==> i <= r.value < |s| && InClass(s[r.value], cls)
    ensures r.Some? ==> forall k | i <= k < r.value :: !InClass(s[k], cls)
    ensures r.None? ==> forall k | i <= k < |s| :: !InClass(s[k], cls)
    decreases |s| - i
  {
    if i == |s| then None
    else if InClass(s[i], cls) then Some(i)
    else FindFirst(s, i + 1, cls)
  }

  /** The first match is determined by where it is and what precedes it. */
  lemma FindFirstUnique(s: string, i: nat, cls: CharClass, j: nat)
    requires i <= j < |s| && InClass(s[j], cls)
    requires forall k | i <= k < j :: !InClass(s[k], cls)
    ensures FindFirst(s, i, cls) == Some(j)
  {
  }

  /** Two adjacent runs of a class make one. */
  lemma EveryConcat(s: string, i: nat, j: nat, k: nat, cls: CharClass)
    requires i <= j <= k <= |s|
    requires Every(s, i, j, cls) && Every(s, j, k, cls)
    ensures Every(s, i, k, cls)
  {
  }

  /** A run in `x` is still one in `x + y`. */
  lemma EveryAppendLeft(x: string, y: string, i: nat, j: nat, cls: CharClass)
    requires i <= j <= |x| && Every(x, i, j, cls)
    ensures Every(x + y, i, j, cls)
  {
    forall k | i <= k < j ensures InClass((x + y)[k], cls) {
      assert (x + y)[k] == x[k];
    }
  }

  /** A run in `y` is one in `x + y`, shifted by `|x|`. */
  lemma EveryAppendRight(x: string, y: string, i: nat, j: nat, cls: CharClass)
    requires i <= j <= |y| && Every(y, i, j, cls)
    ensures Every(x + y, |x| + i, |x| + j, cls)
  {
    forall k | |x| + i <= k < |x| + j ensures InClass((x + y)[k], cls) {
      assert (x + y)[k] == y[k - |x|];
    }
  }

  /** ASCII lower-casing; every other character is left as it is. */
  function LowerChar(c: char): (r: char)
    ensures 'A' <= c <= 'Z' ==> 'a' <= r <= 'z' && r as int == c as int + 32
    ensures !('A' <= c <= 'Z') ==> r == c
  {
    if 'A' <= c <= 'Z' then (c as int + 32) as char else c
  }

  function Lower(s: string): (r: string)
    ensures |r| == |s|
    ensures forall i | 0 <= i < |s| :: r[i] == LowerChar(s[i])
  {
    if s == [] then [] else [LowerChar(s[0])] + Lower(s[1..])
  }

  function DigitValue(c: char): (d: nat)
    requires IsDigit(c)
    ensures d < 10
  {
    c as int - '0' as int
  }

  function DigitChar(d: nat): (c: char)
    requires d < 10
    ensures IsDigit(c) && DigitValue(c) == d
  {
    ('0' as int + d) as char
  }

  /** The value of a string of decimal digits, most significant first; 0 for the empty string. */
  function NatValue(ds: string): nat
    requires AllDigits(ds)
  {
    if ds == [] then 0 else NatValue(ds[..|ds| - 1]) * 10 + DigitValue(ds[|ds| - 1])
  }

  /** Decimal rendering of a natural number without leading zeros, as `{}` prints it. */
  function NatToString(n: nat): (s: string)
    ensures |s| > 0 && AllDigits(s)
    ensures |s| > 1 ==> s[0] != '0'
  {
    if n < 10 then [DigitChar(n)] else NatToString(n / 10) + [DigitChar(n % 10)]
  }

  /** Decimal rendering of an integer with a leading `-` when negative. */
  function IntToString(i: int): (s: string)
    ensures |s| > 0
    ensures i >= 0 <==> IsDigit(s[0])
  {
    if i < 0 then "-" + NatToString(-i) else NatToString(i)
  }

  lemma {:induction false} NatToStringValue(n: nat)
    ensures NatValue(NatToString(n)) == n
  {
    if n >= 10 {
      var s := NatToString(n);
      NatToStringValue(n / 10);
      assert s[..|s| - 1] == NatToString(n / 10);
    }
  }
}
