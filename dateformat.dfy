/** The calendar timestamp every Databox record carries:
    `strftime('%Y-%m-%d %H:%M:%S')` of a UTC date and time. */
module DateFormat {
  import opened Wrappers
  import opened Text

  datatype DateTime = DateTime(year: int, month: int, day: int, hour: int, minute: int, second: int)

  predicate Leap(year: int)
  {
    year % 4 == 0 && (year % 100 != 0 || year % 400 == 0)
  }

  function DaysInMonth(year: int, month: int): int
    requires 1 <= month <= 12
  {
    if month == 2 then (if Leap(year) then 29 else 28)
    else if month in {4, 6, 9, 11} then 30
    else 31
  }

  /** A date and time `datetime` can hold, from year 1000 on (four-digit years). */
  predicate Valid(t: DateTime)
  {
    && 1000 <= t.year <= 9999
    && 1 <= t.month <= 12
    && 1 <= t.day <= DaysInMonth(t.year, t.month)
    && 0 <= t.hour < 24 && 0 <= t.minute < 60 && 0 <= t.second < 60
  }

  /** `strftime('%Y-%m-%d %H:%M:%S')`. */
  function Format(t: DateTime): string
    requires Valid(t)
  {
    Pad(t.year, 4) + "-" + Pad(t.month, 2) + "-" + Pad(t.day, 2) + " "
    + Pad(t.hour, 2) + ":" + Pad(t.minute, 2) + ":" + Pad(t.second, 2)
  }

  /** A run of decimal digits read as a number; None if any character is not
      a digit. */
  function ReadNumber(s: string): (r: Option<nat>)
    ensures r.Some? <==> AllDigits(s)
    ensures r.Some? ==> r.value == DigitsValue(s)
  {
    if s == [] then Some(0)
    else
      match ReadNumber(s[..|s| - 1])
      case None => None
      case Some(v) => if IsDigit(s[|s| - 1]) then Some(v * 10 + (s[|s| - 1] as int - '0' as int)) else None
  }

  /** Reading a `YYYY-MM-DD HH:MM:SS` string back; None unless it has that
      shape and names a valid date and time. */
  function Parse(s: string): Option<DateTime>
  {
    if |s| != 19 || s[4] != '-' || s[7] != '-' || s[10] != ' ' || s[13] != ':' || s[16] != ':' then None
    else
      var y, mo, d := ReadNumber(s[..4]), ReadNumber(s[5..7]), ReadNumber(s[8..10]);
      var h, mi, se := ReadNumber(s[11..13]), ReadNumber(s[14..16]), ReadNumber(s[17..]);
      if y.None? || mo.None? || d.None? || h.None? || mi.None? || se.None? then None
      else
        var t := DateTime(y.value, mo.value, d.value, h.value, mi.value, se.value);
        if Valid(t) then Some(t) else None
  }

  /** Where each field of the formatted timestamp sits. */
  lemma FormatFields(t: DateTime)
    requires Valid(t)
    ensures var s := Format(t);
            && |s| == 19
            && s[4] == '-' && s[7] == '-' && s[10] == ' ' && s[13] == ':' && s[16] == ':'
            && s[..4] == Pad(t.year, 4) && s[5..7] == Pad(t.month, 2) && s[8..10] == Pad(t.day, 2)
            && s[11..13] == Pad(t.hour, 2) && s[14..16] == Pad(t.minute, 2) && s[17..] == Pad(t.second, 2)
  {
    PadRoundTrip(t.year, 4);
    PadRoundTrip(t.month, 2);
    PadRoundTrip(t.day, 2);
    PadRoundTrip(t.hour, 2);
    PadRoundTrip(t.minute, 2);
    PadRoundTrip(t.second, 2);
    var a := Pad(t.year, 4) + "-" + Pad(t.month, 2) + "-";
    var b := a + Pad(t.day, 2) + " " + Pad(t.hour, 2) + ":";
    var c := b + Pad(t.minute, 2) + ":";
    assert Format(t) == c + Pad(t.second, 2);
    assert a[..4] == Pad(t.year, 4) && a[5..7] == Pad(t.month, 2);
    assert b[..8] == a && b[8..10] == Pad(t.day, 2) && b[11..13] == Pad(t.hour, 2);
    assert c[..14] == b && c[14..16] == Pad(t.minute, 2);
  }

  /** The formatted timestamp reads back as the same date and time. */
  lemma FormatParse(t: DateTime)
    requires Valid(t)
    ensures |Format(t)| == 19
    ensures Parse(Format(t)) == Some(t)
  {
    FormatFields(t);
    PadRoundTrip(t.year, 4);
    PadRoundTrip(t.month, 2);
    PadRoundTrip(t.day, 2);
    PadRoundTrip(t.hour, 2);
    PadRoundTrip(t.minute, 2);
    PadRoundTrip(t.second, 2);
  }

  /** Python's `a <= b` on naive datetimes: field by field, most significant
      first. */
  predicate NotAfter(a: DateTime, b: DateTime)
  {
    if a.year != b.year then a.year < b.year
    else if a.month != b.month then a.month < b.month
    else if a.day != b.day then a.day < b.day
    else if a.hour != b.hour then a.hour < b.hour
    else if a.minute != b.minute then a.minute < b.minute
    else a.second <= b.second
  }

  lemma NotAfterTransitive(a: DateTime, b: DateTime, c: DateTime)
    requires NotAfter(a, b) && NotAfter(b, c)
    ensures NotAfter(a, c)
  {
  }

  lemma NotAfterTotal(a: DateTime, b: DateTime)
    ensures NotAfter(a, b) || NotAfter(b, a)
    ensures NotAfter(a, b) && NotAfter(b, a) ==> a == b
  {
  }
}
