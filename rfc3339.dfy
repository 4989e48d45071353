/** Epoch seconds of an RFC 3339 date-time (section 5.6 of RFC 3339), as Go's
    `time.Parse(time.RFC3339, s)` followed by `Unix()` computes them in
    kubernetes.go for `startTime` and `completionTime`. The grammar is the
    one of Go's strict RFC 3339 reader:
      YYYY-MM-DDTHH:MM:SS[.fraction](Z | +HH:MM | -HH:MM)
    with year 0..9999, a day that exists in its month, hour 0..23,
    minute and second 0..59 and an offset of at most 23:59. The fraction
    is read and dropped, since `Unix()` keeps whole seconds. */
module Rfc3339 {
  import opened Wrappers
  import Decimal

  /** The digits of `s` as a number in [lo, hi], or None. */
  function ParseUint(s: string, lo: int, hi: int): (r: Option<int>)
    ensures r.Some? ==> lo <= r.value <= hi
  {
    if s != [] && Decimal.AllDigits(s) && lo <= Decimal.DigitsValue(s) <= hi
    then Some(Decimal.DigitsValue(s))
    else None
  }

  predicate IsLeapYear(y: int) {
    y % 4 == 0 && (y % 100 != 0 || y % 400 == 0)
  }

  function DaysIn(month: int, year: int): (r: int)
    requires 1 <= month <= 12
    ensures 28 <= r <= 31
  {
    if month == 2 then (if IsLeapYear(year) then 29 else 28)
    else if month == 4 || month == 6 || month == 9 || month == 11 then 30
    else 31
  }

  /** Days from 1970-01-01 to the given proleptic Gregorian date. */
  function DaysFromCivil(year: int, month: int, day: int): int
    requires 1 <= month <= 12
  {
    var y := if month <= 2 then year - 1 else year;
    var era := y / 400;
    var yoe := y - era * 400;
    var mp := if month > 2 then month - 3 else month + 9;
    var doy := (153 * mp + 2) / 5 + day - 1;
    var doe := yoe * 365 + yoe / 4 - yoe / 100 + doy;
    era * 146097 + doe - 719468
  }

  /** Length of the run of digits at the front of `s`. */
  function DigitRun(s: string): (n: nat)
    ensures n <= |s|
    ensures Decimal.AllDigits(s[..n])
    ensures n < |s| ==> !Decimal.IsDigit(s[n])
  {
    if s != [] && Decimal.IsDigit(s[0]) then
      var n := 1 + DigitRun(s[1..]);
      assert s[..n] == [s[0]] + s[1..][..n - 1];
      n
    else 0
  }

  /** What follows the seconds with an optional `.digits` fraction removed. */
  function SkipFraction(s: string): (r: string)
    ensures |r| <= |s|
  {
    if |s| >= 2 && s[0] == '.' && Decimal.IsDigit(s[1]) then s[1 + DigitRun(s[1..])..]
    else s
  }

  /** The zone offset east of UTC in seconds: `Z`, or a signed HH:MM. */
  function ParseOffset(z: string): (r: Option<int>)
    ensures r.Some? ==> -86400 < r.value < 86400
    ensures r.Some? ==> z != []
  {
    if z == "Z" then Some(0)
    else if |z| != 6 || !(z[0] == '+' || z[0] == '-') || z[3] != ':' then None
    else
      match (ParseUint(z[1..3], 0, 23), ParseUint(z[4..6], 0, 59))
      case (Some(hr), Some(mm)) =>
        var east := (hr * 60 + mm) * 60;
        Some(if z[0] == '-' then -east else east)
      case _ => None
  }

  /** Epoch seconds of the 19-character `YYYY-MM-DDTHH:MM:SS` part read
      as UTC, or None when a separator or a field is wrong. */
  function ParseHead(h: string): (r: Option<int>)
    requires |h| == 19
    ensures r.Some? ==> h[4] == '-' && h[7] == '-' && h[10] == 'T' && h[13] == ':' && h[16] == ':'
  {
    if h[4] != '-' || h[7] != '-' || h[10] != 'T' || h[13] != ':' || h[16] != ':' then None
    else
      match (ParseUint(h[0..4], 0, 9999), ParseUint(h[5..7], 1, 12))
      case (Some(year), Some(month)) =>
        (match (ParseUint(h[8..10], 1, DaysIn(month, year)), ParseUint(h[11..13], 0, 23),
                ParseUint(h[14..16], 0, 59), ParseUint(h[17..19], 0, 59))
         case (Some(day), Some(hour), Some(minute), Some(second)) =>
           Some(DaysFromCivil(year, month, day) * 86400 + hour * 3600 + minute * 60 + second)
         case _ => None)
      case _ => None
  }

  /** Epoch seconds of `s`, or None when Go reports a parse error: the
      date-time read as UTC, minus the zone's offset east of UTC. */
  function Parse(s: string): (r: Option<int>)
    ensures r.Some? ==> |s| >= 20 && s[4] == '-' && s[7] == '-' && s[10] == 'T' && s[13] == ':' && s[16] == ':'
  {
    if |s| < 19 then None
    else
      match (ParseHead(s[..19]), ParseOffset(SkipFraction(s[19..])))
      case (Some(utc), Some(offset)) => Some(utc - offset)
      case _ => None
  }

  /** Two decimal digits, zero-padded. */
  function Pad2(n: int): (r: string)
    requires 0 <= n <= 99
    ensures |r| == 2
  {
    [Decimal.DigitChar(n / 10), Decimal.DigitChar(n % 10)]
  }

  /** Four decimal digits, zero-padded. */
  function Pad4(n: int): (r: string)
    requires 0 <= n <= 9999
    ensures |r| == 4
  {
    Pad2(n / 100) + Pad2(n % 100)
  }

  /** The text `YYYY-MM-DDTHH:MM:SSZ` of a UTC date-time. */
  function FormatUtc(year: int, month: int, day: int, hour: int, minute: int, second: int): (s: string)
    requires 0 <= year <= 9999 && 1 <= month <= 12 && 1 <= day <= 31
    requires 0 <= hour <= 23 && 0 <= minute <= 59 && 0 <= second <= 59
    ensures |s| == 20
  {
    Pad4(year) + "-" + Pad2(month) + "-" + Pad2(day) + "T" + Pad2(hour) + ":" + Pad2(minute) + ":" + Pad2(second) + "Z"
  }

  lemma DigitCharValue(d: nat)
    requires d < 10
    ensures Decimal.IsDigit(Decimal.DigitChar(d)) && Decimal.DigitValue(Decimal.DigitChar(d)) == d
  {
  }

  lemma Pad2Value(n: int)
    requires 0 <= n <= 99
    ensures Decimal.AllDigits(Pad2(n)) && Decimal.DigitsValue(Pad2(n)) == n
  {
    var p := Pad2(n);
    DigitCharValue(n / 10);
    DigitCharValue(n % 10);
    assert p[..1] == [p[0]] && [p[0]][..0] == [];
    assert Decimal.DigitsValue(p[..1]) == n / 10;
  }

  /** Two more digits on the right scale the value by 100. */
  lemma DigitsValueAppend2(x: string, y: string)
    requires Decimal.AllDigits(x) && Decimal.AllDigits(y) && |y| == 2
    ensures Decimal.AllDigits(x + y)
    ensures Decimal.DigitsValue(x + y) == 100 * Decimal.DigitsValue(x) + Decimal.DigitsValue(y)
  {
    var xy := x + y;
    var x0 := x + [y[0]];
    assert Decimal.AllDigits(xy) && Decimal.AllDigits(x0);
    assert xy[..|xy| - 1] == x0 && xy[|xy| - 1] == y[1];
    assert x0[..|x0| - 1] == x && x0[|x0| - 1] == y[0];
    assert Decimal.DigitsValue(xy) == 10 * Decimal.DigitsValue(x0) + Decimal.DigitValue(y[1]);
    assert Decimal.DigitsValue(x0) == 10 * Decimal.DigitsValue(x) + Decimal.DigitValue(y[0]);
    assert y[..|y| - 1] == [y[0]] && [y[0]][..0] == [];
    assert Decimal.DigitsValue([y[0]]) == Decimal.DigitValue(y[0]);
    assert Decimal.DigitsValue(y) == 10 * Decimal.DigitValue(y[0]) + Decimal.DigitValue(y[1]);
  }

  /** A zero-padded field reads back as its number. */
  lemma ReadPad2(n: int, lo: int, hi: int)
    requires 0 <= n <= 99
    ensures ParseUint(Pad2(n), lo, hi) == if lo <= n <= hi then Some(n) else None
  {
    Pad2Value(n);
  }

  lemma ReadPad4(n: int)
    requires 0 <= n <= 9999
    ensures ParseUint(Pad4(n), 0, 9999) == Some(n)
  {
    Pad2Value(n / 100);
    Pad2Value(n % 100);
    DigitsValueAppend2(Pad2(n / 100), Pad2(n % 100));
  }

  /** The fields of the text of a UTC date-time, each where Go reads it. */
  lemma FormatUtcFields(year: int, month: int, day: int, hour: int, minute: int, second: int)
    requires 0 <= year <= 9999 && 1 <= month <= 12 && 1 <= day <= 31
    requires 0 <= hour <= 23 && 0 <= minute <= 59 && 0 <= second <= 59
    ensures var h := FormatUtc(year, month, day, hour, minute, second)[..19];
      && h[4] == '-' && h[7] == '-' && h[10] == 'T' && h[13] == ':' && h[16] == ':'
      && h[0..4] == Pad4(year) && h[5..7] == Pad2(month) && h[8..10] == Pad2(day)
      && h[11..13] == Pad2(hour) && h[14..16] == Pad2(minute) && h[17..19] == Pad2(second)
    ensures FormatUtc(year, month, day, hour, minute, second)[19..] == "Z"
  {
  }

  /** Every valid UTC date-time, written out in full, is accepted, and it
      reads as its day number times 86400 plus the seconds of its time of
      day. */
  lemma ParseAcceptsUtc(year: int, month: int, day: int, hour: int, minute: int, second: int)
    requires 0 <= year <= 9999 && 1 <= month <= 12 && 1 <= day <= DaysIn(month, year)
    requires 0 <= hour <= 23 && 0 <= minute <= 59 && 0 <= second <= 59
    ensures Parse(FormatUtc(year, month, day, hour, minute, second))
         == Some(DaysFromCivil(year, month, day) * 86400 + hour * 3600 + minute * 60 + second)
  {
    FormatUtcFields(year, month, day, hour, minute, second);
    ReadPad4(year);
    ReadPad2(month, 1, 12);
    ReadPad2(day, 1, DaysIn(month, year));
    ReadPad2(hour, 0, 23);
    ReadPad2(minute, 0, 59);
    ReadPad2(second, 0, 59);
  }

  /** A day past the end of its month is an error. */
  lemma ParseRejectsDayPastMonth(year: int, month: int, day: int, hour: int, minute: int, second: int)
    requires 0 <= year <= 9999 && 1 <= month <= 12 && DaysIn(month, year) < day <= 31
    requires 0 <= hour <= 23 && 0 <= minute <= 59 && 0 <= second <= 59
    ensures Parse(FormatUtc(year, month, day, hour, minute, second)) == None
  {
    FormatUtcFields(year, month, day, hour, minute, second);
    ReadPad4(year);
    ReadPad2(month, 1, 12);
    ReadPad2(day, 1, DaysIn(month, year));
  }

  /** A zone offset shifts the reading by exactly that many seconds: a
      time written east of UTC is that much earlier than the same wall
      clock in UTC. */
  lemma ParseOffsetShift(head: string, zone: string)
    requires |head| == 19 && ParseOffset(zone).Some?
    ensures Parse(head + zone).Some? <==> Parse(head + "Z").Some?
    ensures Parse(head + zone).Some? ==> Parse(head + zone).value == Parse(head + "Z").value - ParseOffset(zone).value
  {
    var s, u := head + zone, head + "Z";
    assert s[..19] == head == u[..19];
    assert s[19..] == zone && u[19..] == "Z";
    assert SkipFraction(zone) == zone && SkipFraction("Z") == "Z";
  }

  /** `DigitRun` stops exactly at the end of a run of digits. */
  lemma {:induction false} DigitRunOfDigits(d: string, z: string)
    requires Decimal.AllDigits(d) && (z == [] || !Decimal.IsDigit(z[0]))
    ensures DigitRun(d + z) == |d|
  {
    if d == [] {
      assert d + z == z;
    } else {
      assert (d + z)[1..] == d[1..] + z;
      DigitRunOfDigits(d[1..], z);
    }
  }

  /** A fraction of a second is read and dropped: the reading is the one
      of the same time without it. */
  lemma ParseDropsFraction(head: string, frac: string, zone: string)
    requires |head| == 19 && frac != [] && Decimal.AllDigits(frac) && ParseOffset(zone).Some?
    ensures Parse(head + "." + frac + zone) == Parse(head + zone)
  {
    var rest := "." + frac + zone;
    var s, u := head + rest, head + zone;
    assert head + "." + frac + zone == s;
    assert s[..19] == head == u[..19];
    assert s[19..] == rest && u[19..] == zone;
    assert SkipFraction(rest) == zone by { SkipFractionDrops(frac, zone); }
    assert SkipFraction(zone) == zone;
    SameParts(s, u);
  }

  /** Two texts with the same date-time and the same zone read the same. */
  lemma SameParts(s: string, u: string)
    requires |s| >= 19 && |u| >= 19 && s[..19] == u[..19]
    requires SkipFraction(s[19..]) == SkipFraction(u[19..])
    ensures Parse(s) == Parse(u)
  {
  }

  /** A `.digits` fraction in front of a zone is skipped up to the zone. */
  lemma SkipFractionDrops(frac: string, zone: string)
    requires frac != [] && Decimal.AllDigits(frac) && ParseOffset(zone).Some?
    ensures SkipFraction("." + frac + zone) == zone
  {
    var rest := "." + frac + zone;
    assert zone != [] && !Decimal.IsDigit(zone[0]);
    assert rest[1] == frac[0] && rest[1..] == frac + zone;
    DigitRunOfDigits(frac, zone);
    assert (frac + zone)[|frac|..] == zone;
  }

  lemma DigitsExamples()
    ensures Decimal.AllDigits("00") && Decimal.DigitsValue("00") == 0
    ensures Decimal.AllDigits("01") && Decimal.DigitsValue("01") == 1
    ensures Decimal.AllDigits("05") && Decimal.DigitsValue("05") == 5
    ensures Decimal.AllDigits("30") && Decimal.DigitsValue("30") == 30
    ensures Decimal.AllDigits("2024") && Decimal.DigitsValue("2024") == 2024
  {
    assert "2024"[..3] == "202" && "202"[..2] == "20" && "20"[..1] == "2" && "2"[..0] == "";
    assert "00"[..1] == "0" && "01"[..1] == "0" && "05"[..1] == "0" && "30"[..1] == "3";
    assert "0"[..0] == "" && "3"[..0] == "";
  }

  /** 2024-01-01 is day 19723 after the epoch. */
  lemma NewYear2024()
    ensures DaysFromCivil(2024, 1, 1) == 19723
  {
    assert 2023 / 400 == 5;
    assert (153 * 10 + 2) / 5 == 306;
    assert 23 / 4 == 5 && 23 / 100 == 0;
  }

  /** Day 0 is 1970-01-01, the Unix epoch. */
  lemma EpochDay()
    ensures DaysFromCivil(1970, 1, 1) == 0
  {
    assert 1969 / 400 == 4;
    assert 369 / 4 == 92 && 369 / 100 == 3;
    assert (153 * 10 + 2) / 5 == 306;
  }

  /** The next day of the same month is the next day number. */
  lemma NextDayInMonth(year: int, month: int, day: int)
    requires 1 <= month <= 12 && 1 <= day < DaysIn(month, year)
    ensures DaysFromCivil(year, month, day + 1) == DaysFromCivil(year, month, day) + 1
  {
  }

  /** The first of the next month follows the last day of a month. */
  lemma NextMonth(year: int, month: int)
    requires 1 <= month < 12
    ensures DaysFromCivil(year, month + 1, 1) == DaysFromCivil(year, month, DaysIn(month, year)) + 1
  {
    if month == 2 {
      MarchFollowsFebruary(year);
    }
  }

  /** March 1st follows the last day of February, 29 in a leap year and
      28 otherwise. */
  lemma MarchFollowsFebruary(year: int)
    ensures DaysFromCivil(year, 3, 1) == DaysFromCivil(year, 2, DaysIn(2, year)) + 1
  {
    var era := (year - 1) / 400;
    var yoe := (year - 1) - era * 400;
    assert DaysFromCivil(year, 2, DaysIn(2, year))
        == era * 146097 + yoe * 365 + yoe / 4 - yoe / 100 + 336 + DaysIn(2, year) - 719468;
    LeapByRemainder(year);
    if yoe < 399 {
      assert year / 400 == era && year % 400 == yoe + 1;
      assert DaysFromCivil(year, 3, 1)
          == era * 146097 + (yoe + 1) * 365 + (yoe + 1) / 4 - (yoe + 1) / 100 - 719468;
      LeapDayStep(yoe + 1);
    } else {
      assert year / 400 == era + 1 && year % 400 == 0;
      assert DaysFromCivil(year, 3, 1) == (era + 1) * 146097 - 719468;
    }
  }

  /** The leap rule depends only on the year's place in its 400-year cycle. */
  lemma LeapByRemainder(year: int)
    ensures IsLeapYear(year) <==> var k := year % 400; k % 4 == 0 && (k % 100 != 0 || k == 0)
  {
    var q := year / 400;
    var k := year % 400;
    assert year == q * 400 + k;
    assert year % 4 == k % 4 by { assert year == 4 * (q * 100) + k; }
    assert year % 100 == k % 100 by { assert year == 100 * (q * 4) + k; }
  }

  /** Going from year `k - 1` to year `k` of a cycle adds one leap day to
      the running count exactly when `k` is a leap year of the cycle. */
  lemma LeapDayStep(k: int)
    requires 1 <= k < 400
    ensures k / 4 - (k - 1) / 4 - (k / 100 - (k - 1) / 100) == if k % 4 == 0 && k % 100 != 0 then 1 else 0
  {
  }

  /** New Year's Day follows December 31st. */
  lemma NextYear(year: int)
    ensures DaysFromCivil(year + 1, 1, 1) == DaysFromCivil(year, 12, 31) + 1
  {
  }

  /** The text of the instant that starts 2024. */
  lemma StartOf2024Text()
    ensures FormatUtc(2024, 1, 1, 0, 0, 0) == "2024-01-01T00:00:00Z"
  {
  }

  lemma FiveMinutesLaterText()
    ensures FormatUtc(2024, 1, 1, 0, 5, 0) == "2024-01-01T00:05:00Z"
  {
  }

  lemma MissingDayText()
    ensures FormatUtc(2024, 2, 30, 0, 0, 0) == "2024-02-30T00:00:00Z"
  {
  }

  /** The instant that starts 2024, `2024-01-01T00:00:00Z`, reads as
      1704067200. */
  lemma ParseStartOf2024()
    ensures Parse(FormatUtc(2024, 1, 1, 0, 0, 0)) == Some(1704067200)
  {
    ParseAcceptsUtc(2024, 1, 1, 0, 0, 0);
    NewYear2024();
  }

  lemma SkipFractionExample()
    ensures SkipFraction(".25+01:00") == "+01:00"
  {
    assert DigitRun("+01:00") == 0;
    assert DigitRun("5+01:00") == 1 by { assert "5+01:00"[1..] == "+01:00"; }
    assert DigitRun("25+01:00") == 2 by { assert "25+01:00"[1..] == "5+01:00"; }
    assert ".25+01:00"[1..] == "25+01:00";
  }

  lemma ParseOffsetExample()
    ensures ParseOffset("+01:00") == Some(3600)
  {
    DigitsExamples();
    var z := "+01:00";
    assert z[1..3] == "01" && z[4..6] == "00";
  }

  /** Five minutes later the same day, `2024-01-01T00:05:00Z`, reads as
      1704067500. */
  lemma ParseFiveMinutesLater()
    ensures Parse(FormatUtc(2024, 1, 1, 0, 5, 0)) == Some(1704067500)
  {
    ParseAcceptsUtc(2024, 1, 1, 0, 5, 0);
    NewYear2024();
  }

  /** February 2024 has no 30th day: `2024-02-30T00:00:00Z` is an error. */
  lemma ParseRejectsMissingDay()
    ensures Parse(FormatUtc(2024, 2, 30, 0, 0, 0)) == None
  {
    assert DaysIn(2, 2024) == 29;
    ParseRejectsDayPastMonth(2024, 2, 30, 0, 0, 0);
  }
}
