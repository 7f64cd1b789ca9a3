# tir ("Today I Ran") — a Dafny model of the argument parsers and the run calculator

`tir` is a command-line tool. It takes the distance a runner covered and the
time they needed, both as free text ("10km", "2h 30min"), and prints the
average velocity, the time the same pace would need for other distances, and
how the velocity compares with reference performances. This project models
the core of `src/main.rs`:

- **The distance parser** (`DistanceParser`). It takes the first match of
  `(?P<value>\d+(\.\d*)?)\s*(?P<unit>[[:alpha:]]*)` found in the text. The
  value is parsed as a number. The unit is lower-cased and looked up in a
  fixed table of fifteen spellings for metres, kilometres, miles, yards and
  feet.
- **The time parser** (`TimeParser`, `TimeForms`, `TimeShortForms`). It
  matches
  `((?P<hours>.+)\s*h)?\s*((?P<minutes>.+)\s*min)?((?P<seconds>.+)\s*(s|sec))?`
  and applies the regex engine's leftmost-first, greedy rule to every group.
  The text of each present group is parsed as a number, without trimming.
  The result is 3600 h + 60 min + s seconds. If no group is present, the
  parse fails; it never yields zero.
- **The quantities** (`Quantities`). Length, time and velocity are newtypes
  over `real`, in metres, seconds and metres per second. Each unit is a fixed
  factor: km = 1000 m, mi = 1609.344 m, yd = 0.9144 m, ft = 0.3048 m,
  h = 3600 s, min = 60 s. km/h and mph are derived from these.
- **The run** (`Runs`). This is `Run::from_options`, which reports the
  distance error first. It also covers `average_velocity`,
  `time_for_distance` and the velocity ratio used in the comparison table.
- **The display of a time** (`Display`). `display_time` is a method that
  takes whole hours, then whole minutes, off a working copy of the time. It
  converts them to `i32` with truncation and saturation, and chooses one of
  three output tiers. It is proved equal to a reference split of the time.
- **Concrete scenarios** (`Scenarios`). These are derived from the general
  lemmas: the time forms "45s", "25min", "90min", "2h 30min", "1h 30s",
  "1h 5min30s", "30sec"; the rejected inputs "1h 5min 30s", "5min 30s",
  "45 s", "", "abc", "h min s"; the distances "10km", "800", "far"; and the
  runs 10 km in 50 min (12 km/h) and a marathon in 2 h 30 min (16.878 km/h).

Things that happen outside the program's own text are parameters of the
model. The command-line parser supplies the two argument strings. The
`{:.3}` rendering of the seconds is a function argument `fixed3`.

Where a user's natural expectation and the code disagree, the model follows
the code:

- **"1h 5min 30s"**. A user would expect 3930 s. The code rejects it with
  `"\" 30\" is not a number"`. Unlike the `\s*` after `h`, the one between
  `min` and the seconds group is missing, so the seconds capture keeps the
  blank (`Scenarios.FullExamples`, `TimeForms.FullFormTime`). The same goes
  for "5min 30s" and for a blank before the unit, as in "45 s"
  (`TimeShortForms.TrailingBlankRejected`). Written without the blank,
  "1h 5min30s" is 3930 s.
- **"h min s"**. A user would expect "no time given". In the code the
  minutes group's `.+` captures "h ", so the parse fails because that text
  is not a number (`Scenarios.NoNumeralsExample`). The parse reports that
  no time was given exactly when no group captures anything
  (`TimeParser.ParseTime`). A text without any `h`, `m` or `s` is one such
  text (`TimeShortForms.NoUnitLetterNoTime`). "5m" and a lone "h" are
  others (`Scenarios.UnitLettersWithoutGroups`).
- **Display.** A user might expect whole seconds, as in "0 s" or
  "1 h 0 min 0 s". The code prints the seconds with three decimals, as
  "0.000 s" and "1 h 0 min 0.000 s".
- **Division by zero.** A user would expect an error for a zero time or a
  zero reference. The code divides `f64`s without a check. The model
  requires a non-zero divisor instead.
- **Error kinds.** The code's context messages become the enums
  `DistanceError` (`NoDistance`, `BadDistanceValue`, `UnknownUnit`) and
  `TimeError` (`NoTimeGiven`, `BadNumber(group, text)`).

## Model

| member | source | states |
|---|---|---|
| Text.RunEndSpec | src/main.rs:37 | a greedy class run starting at i covers only characters of the class and stops at the end of the text or at the first character outside it |
| Text.RunEndUnique | src/main.rs:37 | any maximal run of the class starting at i ends where the greedy run ends |
| Text.FindFirst | src/main.rs:39-41 | the leftmost position at or after i with a character of the class, or None exactly when there is none |
| Text.FindFirstUnique | src/main.rs:39-41 | a position holding the class, with none before it, is the one found |
| Text.LowerChar | src/main.rs:52 | ASCII upper-case letters are shifted to lower case, every other character is kept |
| Text.Lower | src/main.rs:52 | lower-casing keeps the length and lower-cases each character in place |
| Text.NatToString | src/main.rs:132-135 | the `{}` rendering of a natural number is non-empty, all digits, and has no leading zero |
| Text.IntToString | src/main.rs:132-135 | the rendering of an integer starts with a digit exactly when the integer is non-negative |
| Text.NatToStringValue | src/main.rs:132-135 | the digits of the rendering have the value of the number (round trip) |
| Numbers.ParseNumber | src/main.rs:46 | the number parse succeeds exactly on unsigned decimal numerals (digits, at most one `.`, at least one digit), and the value is non-negative |
| Numbers.ParseIntegral | src/main.rs:46 | a non-empty digit string parses to its decimal value |
| Numbers.ParseFractional | src/main.rs:46 | `ip.fp` with at least one digit parses to ip plus fp divided by 10 to the power of the number of fraction digits |
| Numbers.NumeralValue | src/main.rs:46 | the value of a numeral is non-negative |
| Numbers.ParseNumeral | src/main.rs:46 | every numeral built from digit strings parses to its value |
| Numbers.NumberChars | src/main.rs:81-83 | text that parses is non-empty and consists of digits and dots only |
| Numbers.UntrimmedRejected | src/main.rs:81-83 | a leading or trailing character other than a digit or `.` makes the parse fail: captures are not trimmed |
| Numbers.ParseNatToString | src/main.rs:46 | the rendering of a natural number parses back to that number |
| Quantities.MetresPer | src/main.rs:54-59 | metres per unit: 1, 1000, 1609.344, 0.9144 and 0.3048, all positive |
| Quantities.LengthOf | src/main.rs:54-59 | a length built from a value in a unit is non-negative exactly when the value is |
| Quantities.Length.In | src/main.rs:149 | the value in a unit times the unit's factor is the length |
| Quantities.Length.Per | src/main.rs:100 | length / time is the velocity v with v · time = length |
| Quantities.Length.Ratio | src/main.rs:104 | length / length is the ratio r with r · other = this |
| Quantities.SecondsPer | src/main.rs:93-94 | seconds per unit: 3600, 60 and 1, all positive |
| Quantities.TimeOf | src/main.rs:93-94 | a time built from a value in a unit is non-negative exactly when the value is |
| Quantities.Time.In | src/main.rs:127-129 | the value in a unit times the unit's factor is the time |
| Quantities.Trunc | src/main.rs:121-123 | truncation toward zero: within 1 of x, never beyond x away from 0 |
| Quantities.Time.TruncIn | src/main.rs:121-123 | `trunc::<unit>` holds a whole number of units, no larger in magnitude than the time, on the same side of 0, and leaves less than one unit |
| Quantities.Time.Scale | src/main.rs:104 | ratio × time is a time whose value in every time unit is the ratio times the original value in that unit |
| Quantities.MpsPer | src/main.rs:165-173 | km/h and mph are the kilometre and the mile per 3600 s |
| Quantities.Velocity.In | src/main.rs:165-173 | the value in km/h or mph times the unit's factor is the velocity |
| Quantities.Velocity.Ratio | src/main.rs:287 | velocity / velocity is the ratio r with r · other = this |
| Quantities.LengthRoundTrip | src/main.rs:54-59 | building a length in a unit and reading it back in that unit are inverse, both ways |
| Quantities.TimeRoundTrip | src/main.rs:93-94 | the same for times |
| Quantities.VelocityRoundTrip | src/main.rs:165-173 | the same for velocities |
| Quantities.LengthConversion | src/main.rs:149 | converting a length between units multiplies by the ratio of their factors |
| Quantities.VelocityInUnits | src/main.rs:165-173 | the velocity in km/h (mph) is the distance in km (mi) over the time in hours |
| DistanceParser.MatchDistance | src/main.rs:37-41 | there is a match exactly when the text has a digit; its capture bounds lie in order inside the text |
| DistanceParser.MatchDistanceGreedy | src/main.rs:37-41 | the match found is leftmost-first: it starts at the first digit and each part is maximal |
| DistanceParser.MatchDistanceUnique | src/main.rs:37-41 | the leftmost-first match is unique, so it is the one found |
| DistanceParser.LookupUnit | src/main.rs:54-61 | a unit found is one the token spells; no unit is found exactly when the token is none of the fifteen spellings |
| DistanceParser.LookupUnitTable | src/main.rs:54-60 | the table maps a token to a unit exactly when it is one of that unit's three spellings |
| DistanceParser.ParseDistance | src/main.rs:37-61 | "Could not parse distance." exactly when there is no digit; a distance is non-negative; an unknown unit is one the table does not know |
| DistanceParser.FromCaptures | src/main.rs:42-61 | a distance built from the captures is non-negative; the result is never the no-match error; an unknown unit reported is one the table does not know |
| DistanceParser.DistanceValueAlwaysParses | src/main.rs:42-47 | with ASCII digits the value capture always parses, so the model never reports "Could not parse distance value as number." |
| DistanceParser.ParseDistanceShape | src/main.rs:37-61 | numeral, spaces, letters, rest gives numeral × factor when the lower-cased letters are a spelling (case-insensitive), and UnknownUnit of the lower-cased letters otherwise, also when there are none |
| DistanceParser.ShapeIsLeftmostGreedy | src/main.rs:37 | in such a text the match covers exactly the numeral, the spaces and the letters |
| DistanceParser.ParseDistanceSkipsPrefix | src/main.rs:39-41 | text without digits before the distance does not change the result |
| DistanceParser.ParseByMatch | src/main.rs:39-61 | a text parses to what the captures of its leftmost-first match name |
| TimeParser.LastCandidate | src/main.rs:64 | a group `(.+)\s*marker` found from `from` ends after `from` and has the marker after its blanks |
| TimeParser.SearchDownSpec | src/main.rs:64 | backtracking `.+` from the end of the line finds the largest end that has the marker after its blanks |
| TimeParser.LastCandidateSpec | src/main.rs:64 | the group is present exactly when some end fits, and then it ends at the largest one (greedy `.+`, no newline) |
| TimeParser.MinutesFrom | src/main.rs:64 | the minutes group starts inside the text, at a non-blank or at the end: the `\s*` after the hours group has taken every blank |
| TimeParser.SecondsFrom | src/main.rs:64 | the seconds group starts inside the text |
| TimeParser.CapturesOf | src/main.rs:67-69 | every group present captures a non-empty text without a newline, as `.+` does |
| TimeParser.MatchTime | src/main.rs:63-69 | the pattern matches every text; the three group spans lie inside it |
| TimeParser.GroupValue | src/main.rs:79-85 | an absent group is 0; a present one is its number when it is one; it fails exactly when its text is not a number, naming the group and the text; a value is never negative |
| TimeParser.ParseTime | src/main.rs:63-94 | "no time given" exactly when no group captures; a time is non-negative; a text reported as not a number is indeed none |
| TimeParser.TimeFromCaptures | src/main.rs:71-94 | "no time given" exactly when the captures have no group; a time is non-negative; a reported text is not a number |
| TimeParser.TimeFromCapturesSpec | src/main.rs:71-94 | "no time given" exactly when no group is present; a time exactly when some group is present and all present ones are numbers; then it is 3600 h + 60 min + s ≥ 0 |
| TimeParser.TimeOfCaptures | src/main.rs:86-94 | captures that are all numbers give 3600 h + 60 min + s seconds |
| TimeParser.FirstBadGroupReported | src/main.rs:86-91 | the group reported as not a number is the first present group that is not one, in the order hours, minutes, seconds |
| TimeForms.LastCandidateIsLastMarker | src/main.rs:64 | a marker at j with no later occurrence ends the greedy capture at j |
| TimeForms.NoMarkerNoCandidate | src/main.rs:64 | with no marker after the start the group is absent |
| TimeForms.FullFormCaptures | src/main.rs:63-69 | `a h sep1 b min sep2 c s` captures a, b and sep2 + c: the seconds keep the blanks after `min` |
| TimeForms.SpacedSecondsRejected | src/main.rs:79-91 | seconds text starting with blanks is reported as not a number |
| TimeForms.FullCapturesTime | src/main.rs:79-94 | those captures give 3600 a + 60 b + c without blanks after `min`, and the seconds error with them |
| TimeForms.FullFormTime | src/main.rs:63-94 | the parse of the full form: 3600 a + 60 b + c seconds when c follows `min` directly, else BadNumber(Seconds, sep2 + c) |
| TimeShortForms.SecondsFormTime | src/main.rs:63-94 | `c s` is c seconds |
| TimeShortForms.TrailingBlankRejected | src/main.rs:63-94 | `c sep s` with blanks in sep fails with BadNumber(Seconds, c + sep) |
| TimeShortForms.MinutesFormTime | src/main.rs:63-94 | `b min` is 60 b seconds |
| TimeShortForms.HoursFormTime | src/main.rs:63-94 | `a h` is 3600 a seconds |
| TimeShortForms.HoursMinutesFormTime | src/main.rs:63-94 | `a h sep b min` is 3600 a + 60 b seconds, whatever blanks separate them |
| TimeShortForms.HoursSecondsFormTime | src/main.rs:63-94 | `a h sep c s` is 3600 a + c seconds: the blanks after `h` are skipped |
| TimeShortForms.MinutesSecondsFormTime | src/main.rs:63-94 | `b min sep c s` is 60 b + c seconds when sep is empty, else BadNumber(Seconds, sep + c) |
| TimeShortForms.NoUnitLetterNoTime | src/main.rs:63-77 | a text without `h`, `m` or `s` captures nothing and fails with "no time given", not 0 s |
| Runs.Run.AverageVelocity | src/main.rs:99-101 | the velocity v with v · time = distance |
| Runs.Run.TimeForDistance | src/main.rs:103-105 | the time t with t · distance = other · time (constant pace) |
| Runs.Run.VelocityRatio | src/main.rs:287 | the ratio r with r · reference = the run's average velocity |
| Runs.FromOptions | src/main.rs:36-97 | a run that is built has a non-negative distance and time |
| Runs.FromOptionsOutcome | src/main.rs:36-97 | a run exactly when both texts parse, made of the two values; the distance error is reported first, the time error only after a good distance |
| Runs.NoDigitsNoRun | src/main.rs:39-41 | a distance text without digits fails with "Could not parse distance." whatever the time |
| Runs.TimeForOwnDistance | src/main.rs:103-105 | at its own distance the pace gives back the run's own time |
| Runs.TimeForDistanceLinear | src/main.rs:103-105 | the time for k·d1 + d2 is k times the time for d1 plus the time for d2 |
| Runs.PaceRoundTrip | src/main.rs:99-105 | average velocity × time for a distance = that distance |
| Runs.TimeForDistanceMonotone | src/main.rs:103-105 | a longer distance never takes less time |
| Runs.VelocityRatioCompare | src/main.rs:287 | against a positive reference the ratio is above 1 exactly when the run was faster, and 1 exactly when as fast |
| Display.CastI32 | src/main.rs:127-128 | `as i32`: truncation toward zero when in range, saturation at the bounds otherwise, always within the i32 range |
| Display.BreakdownSum | src/main.rs:119-125 | whole hours, whole minutes and the seconds left add up to the time, for any sign |
| Display.BreakdownBounds | src/main.rs:119-125 | for t ≥ 0: h ≥ 0, 0 ≤ m < 60, 0 ≤ s < 60, and h is ⌊t / 3600⌋ |
| Display.BreakdownUnique | src/main.rs:119-125 | for t ≥ 0 that split is the only one with those bounds |
| Display.Tier | src/main.rs:131-139 | hours, minutes and seconds exactly when h > 0; minutes and seconds exactly when h ≤ 0 < m; seconds only otherwise; each tier keeps the values it shows |
| Display.DisplayTime | src/main.rs:118-140 | the method's result is the tier that the reference split of the time selects |
| Display.DisplaySteps | src/main.rs:119-125 | truncating to hours, subtracting, truncating to minutes, subtracting, gives the reference split in whole units |
| Display.TruncStepsAreBreakdown | src/main.rs:119-125 | the truncation steps give the reference split also for negative times |
| Display.TierOfTime | src/main.rs:131-139 | for t ≥ 0: hours, minutes and seconds shown exactly when t ≥ 3600; minutes and seconds exactly when 60 ≤ t < 3600; seconds only exactly when t < 60 |
| Display.NegativeShowsSeconds | src/main.rs:131-139 | a negative time shows only a seconds part in (-60, 0] |
| Display.HoursSaturate | src/main.rs:127 | from 2^31 hours on, the hour count shown is 2^31 - 1 |
| Display.Render | src/main.rs:132-137 | every text ends with `fixed3(s) s`; the hours tier starts with `{h} h {m} min `, the minutes tier with `{m} min ` |
| Display.RenderedCountReadsBack | src/main.rs:118-137 | for a time below 2^31 hours, the count leading the text parses back to the whole hours (hours tier) or whole minutes (minutes tier) of the time, followed by a blank |
| Display.ZeroDisplay | src/main.rs:137 | 0 s shows as seconds only: `fixed3(0) s` |
| Display.HourDisplay | src/main.rs:132 | 3600 s shows "1 h 0 min" and `fixed3(0) s`: a higher tier shows the lower parts even when they are 0 |
| Display.QuarterDisplay | src/main.rs:135 | 1500 s shows "25 min" and `fixed3(0) s` |
| Scenarios.SecondsExample | src/main.rs:63-94 | "45s" is 45 s |
| Scenarios.MinutesExamples | src/main.rs:63-94 | "25min" is 1500 s and "90min" is 5400 s |
| Scenarios.HoursMinutesExample | src/main.rs:63-94 | "2h 30min" is 9000 s |
| Scenarios.HoursSecondsExample | src/main.rs:63-94 | "1h 30s" is 3630 s |
| Scenarios.FullExamples | src/main.rs:63-94 | "1h 5min 30s" fails with BadNumber(Seconds, " 30"); "1h 5min30s" is 3930 s |
| Scenarios.MinutesSecondsExample | src/main.rs:63-94 | "5min 30s" fails with BadNumber(Seconds, " 30") |
| Scenarios.TrailingBlankExample | src/main.rs:63-94 | "45 s" fails with BadNumber(Seconds, "45 ") |
| Scenarios.NothingGivenExamples | src/main.rs:71-77 | "" and "abc" fail with "no time given", never 0 s |
| Scenarios.UnitLettersWithoutGroups | src/main.rs:63-77 | "5m" and "h" capture no group, so they fail with "no time given" |
| Scenarios.NoNumeralsExample | src/main.rs:63-91 | "h min s" fails with BadNumber(Minutes, "h ") |
| Scenarios.SecSuffixExample | src/main.rs:64 | "30sec" is 30 s: of the two alternatives `s` and `sec`, the first one is taken |
| Scenarios.Distance10km | src/main.rs:37-61 | "10km" is 10000 m |
| Scenarios.DistanceWithoutUnit | src/main.rs:54-60 | "800" fails with UnknownUnit("") |
| Scenarios.DistanceWithoutDigits | src/main.rs:39-41 | "far" fails with "Could not parse distance." |
| Scenarios.TenKilometresInFiftyMinutes | src/main.rs:36-97 | "10km" and "50min" give the run of 10000 m in 3000 s |
| Scenarios.TwelveKilometresPerHour | src/main.rs:99-101 | that run's average velocity is 12 km/h |
| Scenarios.FiveKilometresAtThatPace | src/main.rs:103-105 | at that pace 5 km take 1500 s, shown as "25 min" and `fixed3(0) s` |
| Scenarios.MarathonInTwoAndAHalfHours | src/main.rs:99-101 | 42.195 km in 2.5 h is 16.878 km/h |

## Left out

- Numbers.ParseNumber: `f64::from_str` also accepts a sign, an exponent, `inf`, `infinity` and `nan`, in any case. The model accepts only unsigned decimal numerals. A distance capture with ASCII digits is always such a numeral, so for it the distance parse is not affected. A time capture such as "1e3" is accepted by the source and rejected by the model. Because of the sign, a time text such as "-5s" parses to -5 s in the source and the run is still built, so the "a time is non-negative" ensures of `TimeParser.ParseTime`, `TimeParser.TimeFromCaptures` and `Runs.FromOptions` hold for the model only; the model rejects "-5s" as not a number, and how a negative time is shown is covered separately by `Display.NegativeShowsSeconds`.
- Floating point: every quantity is an exact real. `f64` rounding, infinities and NaN are not modelled, so the unit round trips and the pace identities are exact here and only approximate in the source.
- Division by zero: `average_velocity`, `time_for_distance` and the velocity ratio require a non-zero divisor (`Runs.Run.AverageVelocity`, `Runs.Run.TimeForDistance`, `Runs.Run.VelocityRatio`). The source divides `f64`s and gets an infinity or NaN.
- Unicode: `\d` and `\s` are Unicode classes in the regex engine; the model uses their ASCII members. So for a value written in other decimal digits, as in "５km", the source reports "Could not parse distance value as number." (`f64::from_str` takes only ASCII digits), where the model finds no digit and reports NoDistance. Likewise a non-ASCII blank after `h` is skipped by the source's `\s*` but is part of the model's minutes capture. `[[:alpha:]]`, by contrast, is ASCII in the engine, so `to_lowercase` only ever sees ASCII letters.
- The regex engine in general: only the two fixed patterns are modelled, each by its leftmost-first greedy match. The time pattern's `.` excludes only `\n`, as in the engine.
- The `{:.3}` rendering of the seconds is a function parameter (`fixed3`) of `Display.Render`; the `{}` rendering of the integers is `Text.IntToString`.
- Dead error paths: "Could not find a value for distance." (src/main.rs:43-44) and "Could not find a unit for distance." (src/main.rs:49-50) cannot happen, because both groups always take part in a match. "Could not parse time." (src/main.rs:69) cannot happen, because the time pattern matches every text. The model has no state for them.
- The error context strings of `anyhow`, including "Could not understand the passed arguments.", become the `DistanceError`, `TimeError` and `RunError` enums.
- Command-line parsing with StructOpt (src/main.rs:13-27, 143): the model takes the two argument strings directly; the `verbose` and `use_miles` flags only choose what is printed.
- Printing: the coloured output and the tables (src/main.rs:146-297) are not modelled, beyond the conversions they use (`Quantities.VelocityInUnits`, `Quantities.Length.In`, `Runs.Run.TimeForDistance`, `Runs.Run.VelocityRatio`, `Display.DisplayTime`).
- The reference distances and velocities listed in the tables (src/main.rs:180-279) are literal data and are not reproduced.
- The ratio is printed as "{:.3} times" (src/main.rs:285-287); only the ratio itself is modelled, as `Runs.Run.VelocityRatio`.
- The time pattern is modelled on arbitrary text. The closed forms (`TimeForms`, `TimeShortForms`) cover numerals with blanks between the groups; other layouts are covered only by the general definition `TimeParser.ParseTime`.
