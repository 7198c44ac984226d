/** The status bar's two timestamps: the clock `HH:MM:SS` and the
    last-updated date `YYYY.MM.DD`. The calendar fields are parameters
    standing for what `Date` returns. */
module Clock {

  import opened Options
  import opened Decimal

  /** What `updateClock` writes: each field through `pad`, joined by ':'. */
  function ClockText(hours: nat, minutes: nat, seconds: nat): string {
    Pad(hours) + ":" + Pad(minutes) + ":" + Pad(seconds)
  }

  /** Reads an `HH:MM:SS` text back into its three numbers. */
  function ParseClock(t: string): Option<(nat, nat, nat)> {
    if |t| == 8 && t[2] == ':' && t[5] == ':' then
      match (ParseNat(t[0..2]), ParseNat(t[3..5]), ParseNat(t[6..8]))
      case (Some(h), Some(m), Some(s)) => Some((h, m, s))
      case _ => None
    else None
  }

  /** For fields below one hundred (every hour, minute and second a `Date`
      reports is) the clock has eight characters, ':' at positions 2 and 5,
      and reads back as the same time. */
  lemma ClockTextFormat(hours: nat, minutes: nat, seconds: nat)
    requires hours < 100 && minutes < 100 && seconds < 100
    ensures |ClockText(hours, minutes, seconds)| == 8
    ensures ClockText(hours, minutes, seconds)[2] == ':'
    ensures ClockText(hours, minutes, seconds)[5] == ':'
    ensures ParseClock(ClockText(hours, minutes, seconds)) == Some((hours, minutes, seconds))
  {
    PadTwoDigits(hours);
    PadTwoDigits(minutes);
    PadTwoDigits(seconds);
    var t := ClockText(hours, minutes, seconds);
    assert t[0..2] == Pad(hours);
    assert t[3..5] == Pad(minutes);
    assert t[6..8] == Pad(seconds);
  }

  /** The last-updated date: `String(year)`, then the month (the zero-based
      month index plus one) and the day through `pad`, joined by '.'. */
  function DateText(year: int, monthIndex: nat, day: nat): string {
    IntToString(year) + "." + Pad(monthIndex + 1) + "." + Pad(day)
  }

  /** The text of the last-updated label: the date behind "UPDATED: ". */
  function LastUpdatedText(year: int, monthIndex: nat, day: nat): string {
    "UPDATED: " + DateText(year, monthIndex, day)
  }

  /** Reads a `YYYY.MM.DD` text back into year, calendar month and day. */
  function ParseDate(t: string): Option<(int, nat, nat)> {
    if |t| == 10 && t[4] == '.' && t[7] == '.' then
      match (ParseInt(t[0..4]), ParseNat(t[5..7]), ParseNat(t[8..10]))
      case (Some(y), Some(m), Some(d)) => Some((y, m, d))
      case _ => None
    else None
  }

  /** A four-digit year prints as four characters that read back as it. */
  lemma YearDigits(year: int)
    requires 1000 <= year <= 9999
    ensures |IntToString(year)| == 4
    ensures ParseInt(IntToString(year)) == Some(year)
  {
    NatToStringLength(year, 3);
    NatToStringLength(year, 4);
    assert Pow10(3) == 1000 && Pow10(4) == 10000;
    IntToStringRoundTrip(year);
  }

  /** For a four-digit year the date has ten characters, '.' at positions 4
      and 7, and reads back as the year, the calendar month (index plus
      one) and the day. */
  lemma DateTextFormat(year: int, monthIndex: nat, day: nat)
    requires 1000 <= year <= 9999 && monthIndex < 99 && day < 100
    ensures |DateText(year, monthIndex, day)| == 10
    ensures DateText(year, monthIndex, day)[4] == '.'
    ensures DateText(year, monthIndex, day)[7] == '.'
    ensures ParseDate(DateText(year, monthIndex, day)) == Some((year, monthIndex + 1, day))
  {
    YearDigits(year);
    PadTwoDigits(monthIndex + 1);
    PadTwoDigits(day);
    var y, m, d := IntToString(year), Pad(monthIndex + 1), Pad(day);
    var t := DateText(year, monthIndex, day);
    assert t == y + "." + m + "." + d;
    assert t[0..4] == y;
    assert t[5..7] == m;
    assert t[8..10] == d;
  }

  /** The last-updated label is its prefix followed by a date that reads
      back as the year, the calendar month and the day. */
  lemma LastUpdatedFormat(year: int, monthIndex: nat, day: nat)
    requires 1000 <= year <= 9999 && monthIndex < 99 && day < 100
    ensures "UPDATED: " <= LastUpdatedText(year, monthIndex, day)
    ensures |LastUpdatedText(year, monthIndex, day)| == 19
    ensures ParseDate(LastUpdatedText(year, monthIndex, day)[9..]) == Some((year, monthIndex + 1, day))
  {
    DateTextFormat(year, monthIndex, day);
    assert LastUpdatedText(year, monthIndex, day)[9..] == DateText(year, monthIndex, day);
  }

}
