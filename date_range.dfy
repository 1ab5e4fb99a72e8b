/** `parse_dt_range`: the start and end date and time of an activity, taken
    from its free text, with the activity's date cell and today's date as
    fallbacks.  The regular expressions that find the pieces are not modelled:
    their match groups arrive as a `DtScan` value produced by a scanner the
    caller supplies; the groups hold the numbers the digits spell. */
module DateRange {
  import opened Strings
  import opened Values
  import opened Calendar
  import opened TextKey

  /** The date part of a match: year, month and day written out (the western
      form), or month and day only (the `M月D日` form). */
  datatype DateGroups =
    | West(y: int, m: int, d: int)
    | MonthDay(m: int, d: int)

  /** A time of day as written: one or two hour digits and up to two minute
      digits; `minute` is None when the minute group matched the empty text. */
  datatype Clock = Clock(hour: nat, minute: Option<nat>)

  /** What the scanner found in the cleaned text. */
  datatype DtScan =
    /** DATE_TIME_RANGE matched: a date, an optional start time and the end
        time, which the pattern requires. */
    | Range(date: DateGroups, start: Option<Clock>, end: Clock)
    /** It did not: the first western date or else the first `M月D日` date,
        and the first single time, each if any. */
    | Loose(found: Option<DateGroups>, time: Option<Clock>)

  /** `pd.to_datetime(fallback_date)`: no value (the cell is None, or the
      conversion raised), NaT, or a timestamp. */
  datatype Stamp = NoStamp | NaT | At(day: Date)

  datatype DtRange = DtRange(startDate: string, startTime: string, endDate: string, endTime: string)

  /** The date the groups name, when `datetime` accepts it; the month-day
      form takes the year given. */
  function GroupDate(g: DateGroups, year: int): (r: Option<Date>)
    ensures r.Some? ==> r.value.Representable()
    ensures r.Some? && g.West? ==> r.value == Date(g.y, g.m, g.d)
    ensures r.Some? && g.MonthDay? ==> r.value == Date(year, g.m, g.d)
    ensures r.None? <==> (g.West? && !IsValidDate(g.y, g.m, g.d)) || (g.MonthDay? && !IsValidDate(year, g.m, g.d))
  {
    match g
    case West(y, m, d) => if IsValidDate(y, m, d) then Some(Date(y, m, d)) else None
    case MonthDay(m, d) => if IsValidDate(year, m, d) then Some(Date(year, m, d)) else None
  }

  /** The date of the scan, if it found a valid one. */
  function ScannedDate(scan: DtScan, year: int): Option<Date> {
    match scan
    case Range(g, _, _) => GroupDate(g, year)
    case Loose(Some(g), _) => GroupDate(g, year)
    case Loose(None, _) => None
  }

  function ScannedStart(scan: DtScan): Option<Clock> {
    match scan
    case Range(_, s, _) => s
    case Loose(_, t) => t
  }

  function ScannedEnd(scan: DtScan): Option<Clock> {
    match scan
    case Range(_, _, e) => Some(e)
    case Loose(_, _) => None
  }

  /** `f"{int(h):02d}:{int(m):02d}"`, with an empty minute read as "00". */
  function ClockText(c: Clock): (r: string)
  {
    Padded(c.hour, 2) + ":" + Padded(if c.minute.Some? then c.minute.value else 0, 2)
  }

  /** Reads an "HH:MM" text back into hour and minute. */
  function ClockOfText(s: string): Option<(nat, nat)> {
    if |s| == 5 && s[2] == ':' && AllDigits(s[..2]) && AllDigits(s[3..])
    then Some((DigitsValue(s[..2]), DigitsValue(s[3..])))
    else None
  }

  /** A time of one or two digit groups is written as five characters that
      read back as its hour and minute. */
  lemma ClockTextRoundTrip(c: Clock)
    requires c.hour < 100 && (c.minute.Some? ==> c.minute.value < 100)
    ensures ClockOfText(ClockText(c)) == Some((c.hour, if c.minute.Some? then c.minute.value else 0))
  {
    var mi := if c.minute.Some? then c.minute.value else 0;
    var h, m := Padded(c.hour, 2), Padded(mi, 2);
    PaddedValue(c.hour, 2);
    PaddedValue(mi, 2);
    DigitsBelow(c.hour, 100, 2);
    DigitsBelow(mi, 100, 2);
    var s := ClockText(c);
    assert s == h + ":" + m;
    assert s[..2] == h && s[3..] == m;
  }

  /** The start date when the text gave none: the fallback timestamp, today
      when there is none; NaT is truthy but cannot be formatted, so
      `strftime` raises. */
  function FallbackDate(fb: Stamp, today: Date): (r: Result<string>)
    requires today.Representable() && (fb.At? ==> fb.day.Representable())
    ensures r.Failure? <==> fb.NaT?
    ensures fb.At? ==> r == Success(FormatDate(fb.day))
    ensures fb.NoStamp? ==> r == Success(FormatDate(today))
  {
    match fb
    case NoStamp => Success(FormatDate(today))
    case NaT => Failure("NaTType does not support strftime")
    case At(d) => Success(FormatDate(d))
  }

  /** `parse_dt_range` as written: when no time is found the start time
      defaults to "10:00" before the end time is defaulted, so the end time
      copies it and the "11:00" default is never used. */
  function ParseDtRangeAsWritten(scan: DtScan, fallbackYear: Option<int>, fb: Stamp, today: Date): (r: Result<DtRange>)
    requires today.Representable() && (fb.At? ==> fb.day.Representable())
    ensures r.Failure? <==> ScannedDate(scan, if fallbackYear.Some? then fallbackYear.value else today.year).None? && fb.NaT?
    ensures r.Success? ==> r.value.endDate == r.value.startDate
    ensures r.Success? ==> DateOfText(r.value.startDate).Some?
    ensures r.Success? ==> r.value.endTime == r.value.startTime || ScannedEnd(scan).Some?
  {
    var year := if fallbackYear.Some? then fallbackYear.value else today.year;
    var found := ScannedDate(scan, year);
    var startDate := if found.Some? then Success(FormatDate(found.value)) else FallbackDate(fb, today);
    if startDate.Failure? then Failure(startDate.error)
    else
      var startTime := if ScannedStart(scan).Some? then ClockText(ScannedStart(scan).value) else "10:00";
      var endTime := if ScannedEnd(scan).Some? then ClockText(ScannedEnd(scan).value) else startTime;
      assert DateOfText(startDate.value).Some? by {
        if found.Some? {
          FormatDateRoundTrip(found.value);
        } else if fb.At? {
          FormatDateRoundTrip(fb.day);
        } else {
          FormatDateRoundTrip(today);
        }
      }
      Success(DtRange(startDate.value, startTime, startDate.value, endTime))
  }

  /** The times as written: a found start time is kept, else 10:00; a found
      end time is kept, else the end time copies the start time. */
  lemma TimesOfRangeAsWritten(scan: DtScan, fallbackYear: Option<int>, fb: Stamp, today: Date)
    requires today.Representable() && (fb.At? ==> fb.day.Representable())
    requires ParseDtRangeAsWritten(scan, fallbackYear, fb, today).Success?
    ensures var r := ParseDtRangeAsWritten(scan, fallbackYear, fb, today).value;
      (ScannedStart(scan).Some? ==> r.startTime == ClockText(ScannedStart(scan).value)) &&
      (ScannedStart(scan).None? ==> r.startTime == "10:00") &&
      (ScannedEnd(scan).Some? ==> r.endTime == ClockText(ScannedEnd(scan).value)) &&
      (ScannedEnd(scan).None? ==> r.endTime == r.startTime)
  {
  }

  /** With no time in the text the as-written range is 10:00 to 10:00. */
  lemma NoTimeGivesEmptySlot(fb: Stamp, today: Date)
    requires today.Representable() && fb.NoStamp?
    ensures ParseDtRangeAsWritten(Loose(None, None), None, fb, today).Success?
    ensures ParseDtRangeAsWritten(Loose(None, None), None, fb, today).value.startTime == "10:00"
    ensures ParseDtRangeAsWritten(Loose(None, None), None, fb, today).value.endTime == "10:00"
  {
  }

  /** `parse_dt_range` with the end-time default it evidently intends: a
      single time found ends the activity at that time, no time at all gives
      10:00 to 11:00. */
  function ParseDtRange(scan: DtScan, fallbackYear: Option<int>, fb: Stamp, today: Date): (r: Result<DtRange>)
    requires today.Representable() && (fb.At? ==> fb.day.Representable())
    ensures r.Failure? <==> ScannedDate(scan, if fallbackYear.Some? then fallbackYear.value else today.year).None? && fb.NaT?
    ensures r.Success? ==> r.value.endDate == r.value.startDate
    ensures r.Success? ==> DateOfText(r.value.startDate).Some?
  {
    var year := if fallbackYear.Some? then fallbackYear.value else today.year;
    var found := ScannedDate(scan, year);
    var startDate := if found.Some? then Success(FormatDate(found.value)) else FallbackDate(fb, today);
    if startDate.Failure? then Failure(startDate.error)
    else
      var startTime := if ScannedStart(scan).Some? then ClockText(ScannedStart(scan).value) else "10:00";
      var endTime :=
        if ScannedEnd(scan).Some? then ClockText(ScannedEnd(scan).value)
        else if ScannedStart(scan).Some? then startTime
        else "11:00";
      assert DateOfText(startDate.value).Some? by {
        if found.Some? {
          FormatDateRoundTrip(found.value);
        } else if fb.At? {
          FormatDateRoundTrip(fb.day);
        } else {
          FormatDateRoundTrip(today);
        }
      }
      Success(DtRange(startDate.value, startTime, startDate.value, endTime))
  }

  /** The dates as written: a valid date in the text is the start and end date; an
      invalid or missing one gives way to the fallback timestamp, or to today. */
  lemma DatesOfRange(scan: DtScan, fallbackYear: Option<int>, fb: Stamp, today: Date)
    requires today.Representable() && (fb.At? ==> fb.day.Representable())
    ensures var year := if fallbackYear.Some? then fallbackYear.value else today.year;
      var r := ParseDtRangeAsWritten(scan, fallbackYear, fb, today);
      (ScannedDate(scan, year).Some? ==>
        r.Success? && DateOfText(r.value.startDate) == ScannedDate(scan, year) && r.value.endDate == r.value.startDate) &&
      (ScannedDate(scan, year).None? && fb.At? ==> r.Success? && DateOfText(r.value.startDate) == Some(fb.day)) &&
      (ScannedDate(scan, year).None? && fb.NoStamp? ==> r.Success? && DateOfText(r.value.startDate) == Some(today))
  {
    var year := if fallbackYear.Some? then fallbackYear.value else today.year;
    var found := ScannedDate(scan, year);
    if found.Some? {
      FormatDateRoundTrip(found.value);
    } else if fb.At? {
      FormatDateRoundTrip(fb.day);
    } else if fb.NoStamp? {
      FormatDateRoundTrip(today);
    }
  }

  /** The times: a found start time is kept, else 10:00; a found end time is
      kept; a lone start time also ends the activity; no time gives 11:00. */
  lemma TimesOfRange(scan: DtScan, fallbackYear: Option<int>, fb: Stamp, today: Date)
    requires today.Representable() && (fb.At? ==> fb.day.Representable())
    requires ParseDtRange(scan, fallbackYear, fb, today).Success?
    ensures var r := ParseDtRange(scan, fallbackYear, fb, today).value;
      (ScannedStart(scan).Some? ==> r.startTime == ClockText(ScannedStart(scan).value)) &&
      (ScannedStart(scan).None? ==> r.startTime == "10:00") &&
      (ScannedEnd(scan).Some? ==> r.endTime == ClockText(ScannedEnd(scan).value)) &&
      (ScannedEnd(scan).None? && ScannedStart(scan).Some? ==> r.endTime == r.startTime) &&
      (ScannedEnd(scan).None? && ScannedStart(scan).None? ==> r.endTime == "11:00")
  {
  }

  /** The correction leaves the outcome, the dates and the start time as
      they are written. */
  lemma CorrectionKeepsDates(scan: DtScan, fallbackYear: Option<int>, fb: Stamp, today: Date)
    requires today.Representable() && (fb.At? ==> fb.day.Representable())
    ensures var w := ParseDtRangeAsWritten(scan, fallbackYear, fb, today);
      var c := ParseDtRange(scan, fallbackYear, fb, today);
      (w.Success? <==> c.Success?) &&
      (w.Success? ==>
         w.value.startDate == c.value.startDate && w.value.endDate == c.value.endDate &&
         w.value.startTime == c.value.startTime)
  {
  }

  /** The corrected function differs from the written one only in the end
      time of a text without any time. */
  lemma CorrectionOnlyNoTime(scan: DtScan, fallbackYear: Option<int>, fb: Stamp, today: Date)
    requires today.Representable() && (fb.At? ==> fb.day.Representable())
    requires ScannedStart(scan).Some? || ScannedEnd(scan).Some?
    ensures ParseDtRange(scan, fallbackYear, fb, today) == ParseDtRangeAsWritten(scan, fallbackYear, fb, today)
  {
  }

  /** Hours and minutes are written with two digits, an empty minute as 00. */
  lemma ClockPadding()
    ensures ClockText(Clock(9, None)) == "09:00"
    ensures ClockText(Clock(14, Some(5))) == "14:05"
  {
    assert Padded(9, 2) == "09";
    assert Padded(0, 2) == "00";
    assert NatDigits(14) == "14";
    assert Padded(5, 2) == "05";
  }

  /** The scanner runs on the text after `clean_newlines`. */
  function ScanText(text: string, scan: string -> DtScan): DtScan {
    scan(CleanNewlines(Str(text)))
  }
}
