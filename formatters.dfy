/** The display formatters: durations, weights, signed deltas and trend
    arrows. */
module Formatters {
  import opened Wrappers
  import opened Numeric
  import opened Text
  import opened NumberReading
  import opened FixedReading
  import opened Constants

  /** `formatDuration`: whole minutes below an hour, otherwise hours and the
      remaining minutes, the latter dropped when there are none. */
  function FormatDuration(minutes: int): (s: string)
    ensures |s| > 0
    ensures minutes < 60 ==> s[|s| - 1] == 'm'
  {
    if minutes < 60 then IntToString(minutes) + "m"
    else
      var hours := minutes / 60;
      var remainingMinutes := minutes % 60;
      if remainingMinutes > 0 then NatToString(hours) + "h " + NatToString(remainingMinutes) + "m"
      else NatToString(hours) + "h"
  }

  /** From an hour on, the text shows the hours `h` and remainder `r` with
      `60 h + r` the minutes and `0 <= r < 60`: "`h`h" when `r` is 0 and
      "`h`h `r`m" otherwise. */
  lemma FormatDurationHours(minutes: int)
    requires minutes >= 60
    ensures exists h: nat, r: nat :: HoursText(minutes, h, r)
  {
    var h, r := minutes / 60, minutes % 60;
    assert HoursText(minutes, h, r);
  }

  predicate HoursText(minutes: int, h: nat, r: nat) {
    && 60 * h + r == minutes && r < 60 && h >= 1
    && FormatDuration(minutes) == if r == 0 then NatToString(h) + "h" else NatToString(h) + "h " + NatToString(r) + "m"
  }

  /** Reads a duration text back: "`m`m", "`h`h" or "`h`h `r`m". */
  function ParseDuration(s: string): (r: Option<int>)
    ensures r.Some? ==> r.value >= 0
  {
    var k := DigitRun(s);
    if k == 0 then None else ParseUnit(DigitsValue(s[..k]), s[k..])
  }

  /** What may follow the leading number `n` of a duration text. */
  function ParseUnit(n: nat, rest: string): (r: Option<int>)
    ensures r.Some? ==> r.value >= 0
  {
    if |rest| == 1 && rest[0] == 'm' then Some(n)
    else if |rest| == 1 && rest[0] == 'h' then Some(60 * n)
    else if |rest| > 3 && rest[0] == 'h' && rest[1] == ' ' && rest[|rest| - 1] == 'm'
            && AllDigits(rest[2..|rest| - 1]) then
      Some(60 * n + DigitsValue(rest[2..|rest| - 1]))
    else None
  }

  /** A duration text that starts with a run of digits reads that number
      and then its unit. */
  lemma ParseDurationOfDigits(d: string, rest: string)
    requires |d| > 0 && AllDigits(d)
    requires rest == [] || !IsDigit(rest[0])
    ensures ParseDuration(d + rest) == ParseUnit(DigitsValue(d), rest)
  {
    DigitRunOfDigits(d, rest);
    assert (d + rest)[..|d|] == d;
    assert (d + rest)[|d|..] == rest;
  }

  lemma ParseMinutes(m: nat)
    ensures ParseDuration(NatToString(m) + "m") == Some(m)
  {
    ParseDurationOfDigits(NatToString(m), "m");
    NatToStringValue(m);
  }

  lemma ParseHours(h: nat)
    ensures ParseDuration(NatToString(h) + "h") == Some(60 * h)
  {
    ParseDurationOfDigits(NatToString(h), "h");
    NatToStringValue(h);
  }

  lemma ParseHoursMinutes(h: nat, r: nat)
    ensures ParseDuration(NatToString(h) + "h " + NatToString(r) + "m") == Some(60 * h + r)
  {
    ParseMinutesUnitOfNat(h, r);
    ParseHoursPrefixOfNat(h, NatToString(r), 60 * h + r);
  }

  lemma ParseMinutesUnitOfNat(h: nat, r: nat)
    ensures ParseUnit(h, "h " + NatToString(r) + "m") == Some(60 * h + r)
  {
    NatToStringValue(r);
    ParseMinutesUnit(h, NatToString(r));
  }

  lemma ParseHoursPrefixOfNat(h: nat, rs: string, v: int)
    requires ParseUnit(h, "h " + rs + "m") == Some(v)
    ensures ParseDuration(NatToString(h) + "h " + rs + "m") == Some(v)
  {
    NatToStringValue(h);
    ParseHoursPrefix(NatToString(h), rs, v);
  }

  /** The hours digits are read first; what follows them is left to ParseUnit. */
  lemma ParseHoursPrefix(hs: string, rs: string, v: int)
    requires |hs| > 0 && AllDigits(hs)
    requires ParseUnit(DigitsValue(hs), "h " + rs + "m") == Some(v)
    ensures ParseDuration(hs + "h " + rs + "m") == Some(v)
  {
    HoursMinutesSplit(hs, rs);
    ParseDurationOfDigits(hs, "h " + rs + "m");
  }

  lemma HoursMinutesSplit(hs: string, rs: string)
    ensures hs + "h " + rs + "m" == hs + ("h " + rs + "m")
    ensures ("h " + rs + "m")[0] == 'h'
  {
  }

  lemma ParseMinutesUnit(n: nat, rs: string)
    requires |rs| > 0 && AllDigits(rs)
    ensures ParseUnit(n, "h " + rs + "m") == Some(60 * n + DigitsValue(rs))
  {
    MinutesUnitText(rs);
    ParseMinutesUnitOf(n, "h " + rs + "m", rs);
  }

  lemma MinutesUnitText(rs: string)
    requires |rs| > 0
    ensures var rest := "h " + rs + "m";
      |rest| > 3 && rest[0] == 'h' && rest[1] == ' ' && rest[|rest| - 1] == 'm' && rest[2..|rest| - 1] == rs
  {
    var rest := "h " + rs + "m";
    assert rest[2..|rest| - 1] == rs;
  }

  lemma ParseMinutesUnitOf(n: nat, rest: string, rs: string)
    requires |rest| > 3 && rest[0] == 'h' && rest[1] == ' ' && rest[|rest| - 1] == 'm'
    requires rest[2..|rest| - 1] == rs && AllDigits(rs)
    ensures ParseUnit(n, rest) == Some(60 * n + DigitsValue(rs))
  {
  }

  /** Reading back what FormatDuration printed gives the minutes again, so
      different non-negative durations print differently. */
  lemma FormatDurationRoundTrip(minutes: nat)
    ensures ParseDuration(FormatDuration(minutes)) == Some(minutes)
  {
    if minutes < 60 {
      ParseMinutes(minutes);
    } else {
      var h, r := minutes / 60, minutes % 60;
      if r > 0 {
        ParseHoursMinutes(h, r);
      } else {
        ParseHours(h);
      }
    }
  }

  lemma FormatDurationInjective(a: nat, b: nat)
    requires FormatDuration(a) == FormatDuration(b)
    ensures a == b
  {
    FormatDurationRoundTrip(a);
    FormatDurationRoundTrip(b);
  }

  lemma FormatDurationExamples()
    ensures FormatDuration(45) == "45m"
    ensures FormatDuration(60) == "1h"
    ensures FormatDuration(75) == "1h 15m"
    ensures FormatDuration(125) == "2h 5m"
  {
    assert NatToString(45) == "45" && NatToString(15) == "15";
  }

  /** `formatWeight`: one decimal and the unit. */
  function FormatWeight(kg: real): (s: string)
    ensures |s| > 3 && s[|s| - 3..] == " kg"
  {
    ToFixed1(kg) + " kg"
  }

  /** `formatDelta`: a plus sign in front of positive values only (a
      negative value brings its own minus sign from `toFixed`). */
  function FormatDelta(value: real, unit: string): (s: string)
    ensures |s| > 0
    ensures s[0] == '+' <==> value > 0.0
    ensures s[0] == '-' <==> value < 0.0
  {
    var sign := if value > 0.0 then "+" else "";
    sign + ToFixed1(value) + " " + unit
  }

  /** The number a delta shows is the value rounded to one decimal (half up
      on its magnitude), whatever sign it carries. */
  lemma FormatDeltaValue(value: real, unit: string)
    ensures var s := FormatDelta(value, unit);
            var body := if value > 0.0 then s[1..|s| - |unit| - 1] else s[..|s| - |unit| - 1];
            ToNumber(body) == Some(if value < 0.0 then -Round1(-value) else Round1(value))
  {
    var s := FormatDelta(value, unit);
    var f := ToFixed1(value);
    if value > 0.0 {
      assert s == "+" + f + " " + unit;
      assert s[1..|s| - |unit| - 1] == f;
    } else {
      assert s == f + " " + unit;
      assert s[..|s| - |unit| - 1] == f;
    }
    ToNumberOfFixed(value);
    FixedRoundsAsRound1(ToNumber(f), value);
  }

  lemma FormatExamples()
    ensures FormatWeight(74.26) == "74.3 kg"
    ensures FormatDelta(1.234, "kg") == "+1.2 kg"
    ensures FormatDelta(-0.75, "kg") == "-0.8 kg"
  {
    assert Tenths(74.26) == 743;
    assert NatToString(74) == "74";
    assert Tenths(1.234) == 12;
    assert Tenths(0.75) == 8;
  }

  /** `formatTrend`: an arrow per direction. */
  function FormatTrend(trend: Trend): (s: string)
    ensures |s| == 1
  {
    match trend
    case Up => "↑"
    case Down => "↓"
    case Stable => "→"
  }

  /** Each direction has its own arrow. */
  lemma FormatTrendInjective(a: Trend, b: Trend)
    requires FormatTrend(a) == FormatTrend(b)
    ensures a == b
  {
    assert FormatTrend(a)[0] == FormatTrend(b)[0];
  }
}
