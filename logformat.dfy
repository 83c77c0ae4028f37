/**
 * The log line written for every request: a variant of the Apache common
 * log format with the response time in seconds as a last field,
 *   ip:port - - [timestamp] "METHOD URI PROTOCOL" status bytes seconds
 * followed by one newline. The timestamp uses the layout
 * "02/Jan/2006 15:04:05" (fixed width, a space between date and time) and
 * the seconds are rendered with exactly four decimals.
 */
module LogFormat {
  import opened Wrappers
  import opened Text
  import opened Decimal

  type Year = y: int | 0 <= y <= 9999
  type Month = m: int | 1 <= m <= 12 witness 1
  type Day = d: int | 1 <= d <= 31 witness 1
  type Hour = h: int | 0 <= h < 24
  type Minute = m: int | 0 <= m < 60
  type Second = s: int | 0 <= s < 60

  /** A wall-clock reading broken into the components the layout prints. */
  datatype DateTime = DateTime(year: Year, month: Month, day: Day, hour: Hour, minute: Minute, second: Second)

  /** The zero time value: January 1 of year 1, 00:00:00. */
  const ZeroTime := DateTime(1, 1, 1, 0, 0, 0)

  const MonthNames: seq<string> := ["Jan", "Feb", "Mar", "Apr", "May", "Jun",
                                    "Jul", "Aug", "Sep", "Oct", "Nov", "Dec"]

  /** The month number of a three-letter abbreviation, or 0 for any other string. */
  function MonthNumber(name: string): (m: int)
    ensures 0 <= m <= 12
  {
    if name == "Jan" then 1 else if name == "Feb" then 2 else if name == "Mar" then 3
    else if name == "Apr" then 4 else if name == "May" then 5 else if name == "Jun" then 6
    else if name == "Jul" then 7 else if name == "Aug" then 8 else if name == "Sep" then 9
    else if name == "Oct" then 10 else if name == "Nov" then 11 else if name == "Dec" then 12
    else 0
  }

  /** The date half of the layout, "02/Jan/2006": day, month abbreviation, year. */
  function FormatDate(t: DateTime): (s: string)
    ensures |s| == 11
  {
    Pad(t.day, 2) + "/" + MonthNames[t.month - 1] + "/" + Pad(t.year, 4)
  }

  /** The clock half of the layout, "15:04:05": hour, minute, second. */
  function FormatClock(t: DateTime): (s: string)
    ensures |s| == 8
  {
    Pad(t.hour, 2) + ":" + Pad(t.minute, 2) + ":" + Pad(t.second, 2)
  }

  /** Every month's abbreviation has three letters and names that month back. */
  lemma MonthRoundTrip(m: Month)
    ensures |MonthNames[m - 1]| == 3 && MonthNumber(MonthNames[m - 1]) == m
  {
  }

  /** Layout "02/Jan/2006 15:04:05": the date and the clock separated by one space. */
  function FormatTime(t: DateTime): (s: string)
    ensures |s| == 20 && s[11] == ' '
  {
    FormatDate(t) + " " + FormatClock(t)
  }

  /** Reads a date in the layout back as (year, month, day); None for anything else. */
  function ParseDate(s: string): Option<(Year, Month, Day)>
  {
    if |s| != 11 || s[2] != '/' || s[6] != '/' || !AllDigits(s[..2]) || !AllDigits(s[7..]) then None
    else
      var day, month, year := ParseDigits(s[..2]), MonthNumber(s[3..6]), ParseDigits(s[7..]);
      if 1 <= day <= 31 && 1 <= month <= 12 && year <= 9999 then Some((year, month, day)) else None
  }

  /** Reads a clock reading in the layout back as (hour, minute, second); None for anything else. */
  function ParseClock(s: string): Option<(Hour, Minute, Second)>
  {
    if |s| != 8 || s[2] != ':' || s[5] != ':' || !AllDigits(s[..2]) || !AllDigits(s[3..5]) || !AllDigits(s[6..])
    then None
    else
      var hour, minute, second := ParseDigits(s[..2]), ParseDigits(s[3..5]), ParseDigits(s[6..]);
      if hour < 24 && minute < 60 && second < 60 then Some((hour, minute, second)) else None
  }

  /** Reads a timestamp in the layout back; None for anything else. */
  function ParseTime(s: string): Option<DateTime>
  {
    if |s| != 20 || s[11] != ' ' then None
    else match (ParseDate(s[..11]), ParseClock(s[12..]))
      case (Some((year, month, day)), Some((hour, minute, second))) =>
        Some(DateTime(year, month, day, hour, minute, second))
      case _ => None
  }

  /** The timestamp field loses nothing: every time value can be read back from it. */
  lemma ParseFormatTime(t: DateTime)
    ensures ParseTime(FormatTime(t)) == Some(t)
  {
    var date, clock := FormatDate(t), FormatClock(t);
    SepPieces(date, clock, ' ');
    ParseFormatDate(t);
    ParseFormatClock(t);
  }

  lemma ParseFormatDate(t: DateTime)
    ensures ParseDate(FormatDate(t)) == Some((t.year, t.month, t.day))
  {
    var s := FormatDate(t);
    var month := MonthNames[t.month - 1];
    MonthRoundTrip(t.month);
    assert s[..2] == Pad(t.day, 2);
    assert s[3..6] == month;
    assert s[7..] == Pad(t.year, 4);
    ParsePad(t.day, 2);
    ParsePad(t.year, 4);
  }

  lemma ParseFormatClock(t: DateTime)
    ensures ParseClock(FormatClock(t)) == Some((t.hour, t.minute, t.second))
  {
    var s := FormatClock(t);
    assert s[..2] == Pad(t.hour, 2);
    assert s[3..5] == Pad(t.minute, 2);
    assert s[6..] == Pad(t.second, 2);
    ParsePad(t.hour, 2);
    ParsePad(t.minute, 2);
    ParsePad(t.second, 2);
  }

  /** The layout is fixed-width: '/' after the day and the month, a space before the clock, ':' inside it. */
  lemma FormatTimeShape(t: DateTime)
    ensures var s := FormatTime(t);
      s[2] == '/' && s[6] == '/' && s[11] == ' ' && s[14] == ':' && s[17] == ':'
  {
    var date, clock := FormatDate(t), FormatClock(t);
    SepPieces(date, clock, ' ');
    assert date[2] == '/' && date[6] == '/';
    assert clock[2] == ':' && clock[5] == ':';
    assert FormatTime(t)[12 + 2] == clock[2] && FormatTime(t)[12 + 5] == clock[5];
  }

  /** A timestamp holds no newline. */
  lemma FormatTimeChars(t: DateTime)
    ensures '\n' !in FormatTime(t)
  {
    DigitsArePlain(Pad(t.day, 2));
    DigitsArePlain(Pad(t.year, 4));
    DigitsArePlain(Pad(t.hour, 2));
    DigitsArePlain(Pad(t.minute, 2));
    DigitsArePlain(Pad(t.second, 2));
    assert '\n' !in MonthNames[t.month - 1];
  }

  /** A non-negative count of ten-thousandths of a second, with exactly four decimals. */
  function Fixed4(q: nat): string
  {
    NatToString(q / 10000) + "." + Pad(q % 10000, 4)
  }

  /** The elapsed-time field: a duration in nanoseconds as seconds rounded to four decimals. */
  function FormatSeconds(nanos: int): (s: string)
    ensures |s| >= 6 && ' ' !in s && '\n' !in s
  {
    if nanos < 0 then "-" + Fixed4((-nanos + 50000) / 100000) else Fixed4((nanos + 50000) / 100000)
  }

  /**
   * A non-negative duration is rendered as digits, a point and exactly four
   * digits, whose value is the duration rounded to ten-thousandths of a second.
   */
  lemma FormatSecondsShape(nanos: int)
    requires nanos >= 0
    ensures var s := FormatSeconds(nanos);
      && s[|s| - 5] == '.'
      && AllDigits(s[..|s| - 5]) && AllDigits(s[|s| - 4..])
      && ParseDigits(s[..|s| - 5]) * 10000 + ParseDigits(s[|s| - 4..]) == (nanos + 50000) / 100000
  {
    var q := (nanos + 50000) / 100000;
    var s := FormatSeconds(nanos);
    var whole := NatToString(q / 10000);
    assert s == whole + "." + Pad(q % 10000, 4);
    assert s[..|s| - 5] == whole;
    assert s[|s| - 4..] == Pad(q % 10000, 4);
    ParseNatToString(q / 10000);
    ParsePad(q % 10000, 4);
  }

  /** What one log line reports about a request. Times are carried as components and nanoseconds. */
  datatype Entry = Entry(ip: string, port: string, time: DateTime, methodName: string, uri: string,
                         protocol: string, status: int, responseBytes: int, elapsedNanos: int)

  /** The fields before the numbers: "ip:port - - [timestamp] \"METHOD URI PROTOCOL\"". */
  function RequestFields(e: Entry): string
  {
    e.ip + ":" + e.port + " - - [" + FormatTime(e.time) + "] \"" + e.methodName + " " + e.uri + " "
      + e.protocol + "\""
  }

  /** The line "%s:%s - - [%s] \"%s %s %s\" %d %d %0.4f\n" filled with the entry's fields. */
  function FormatLine(e: Entry): (line: string)
    ensures |line| >= 1 && line[|line| - 1] == '\n'
  {
    RequestFields(e) + " " + IntToString(e.status) + " " + IntToString(e.responseBytes) + " "
      + FormatSeconds(e.elapsedNanos) + "\n"
  }

  predicate NoNewline(e: Entry)
  {
    '\n' !in e.ip && '\n' !in e.port && '\n' !in e.methodName && '\n' !in e.uri && '\n' !in e.protocol
  }

  /** Unless a request field itself holds a newline, the line's only newline is its last character. */
  lemma FormatLineIsOneLine(e: Entry)
    requires NoNewline(e)
    ensures var line := FormatLine(e); '\n' !in line[..|line| - 1]
  {
    var line := FormatLine(e);
    var body := RequestFields(e) + " " + IntToString(e.status) + " " + IntToString(e.responseBytes) + " "
      + FormatSeconds(e.elapsedNanos);
    assert line[..|line| - 1] == body by {
      assert line == body + "\n";
    }
    FormatTimeChars(e.time);
    assert '\n' !in RequestFields(e);
  }

  lemma SplitLastThree(head: string, a: string, b: string, c: string)
    requires ' ' !in a && ' ' !in b && ' ' !in c
    ensures Split(head + " " + a + " " + b + " " + c, ' ') == Split(head, ' ') + [a, b, c]
  {
    SplitAppend(head + " " + a + " " + b, c, ' ');
    SplitAppend(head + " " + a, b, ' ');
    SplitAppend(head, a, ' ');
    assert Split(a, ' ') == [a] && Split(b, ' ') == [b] && Split(c, ' ') == [c];
  }

  /**
   * Whatever the request fields hold, the last three space-separated fields
   * of a line (without its newline) are the status, the byte count and the
   * elapsed seconds, and the first two read back as the numbers logged.
   */
  lemma FormatLineTrailer(e: Entry)
    ensures var line := FormatLine(e);
      var fields := Split(line[..|line| - 1], ' ');
      && |fields| >= 3
      && fields[|fields| - 3] == IntToString(e.status)
      && fields[|fields| - 2] == IntToString(e.responseBytes)
      && fields[|fields| - 1] == FormatSeconds(e.elapsedNanos)
      && ParseInt(fields[|fields| - 3]) == Some(e.status)
      && ParseInt(fields[|fields| - 2]) == Some(e.responseBytes)
  {
    var line := FormatLine(e);
    var head := RequestFields(e);
    var st, bytes, el := IntToString(e.status), IntToString(e.responseBytes), FormatSeconds(e.elapsedNanos);
    var body := head + " " + st + " " + bytes + " " + el;
    assert line[..|line| - 1] == body by {
      assert line == body + "\n";
    }
    SplitLastThree(head, st, bytes, el);
    ParseIntToString(e.status);
    ParseIntToString(e.responseBytes);
  }
}
