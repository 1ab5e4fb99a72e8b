/** The proleptic Gregorian calendar of Python's `datetime`, the date check
    `is_valid_date` and the conversion of Excel serial day numbers to
    "YYYY-MM-DD" texts (`convert_excel_serial_to_date`). */
module Calendar {
  import opened Strings
  import opened Values

  predicate IsLeap(y: int) {
    y % 4 == 0 && (y % 100 != 0 || y % 400 == 0)
  }

  function DaysInMonth(y: int, m: int): (r: int)
    requires 1 <= m <= 12
    ensures 28 <= r <= 31
    ensures m == 2 ==> (r == 29 <==> IsLeap(y))
  {
    if m == 2 then (if IsLeap(y) then 29 else 28)
    else if m == 4 || m == 6 || m == 9 || m == 11 then 30
    else 31
  }

  /** `datetime(y, m, d)` succeeds: years 1 to 9999 (MINYEAR, MAXYEAR). */
  predicate IsValidDate(y: int, m: int, d: int): (b: bool)
    ensures b <==> Date(y, m, d).Representable()
    ensures b ==> 1 <= d <= 31
  {
    1 <= y <= 9999 && 1 <= m <= 12 && 1 <= d <= DaysInMonth(y, m)
  }

  datatype Date = Date(year: int, month: int, day: int)
  {
    /** A calendar day, without the upper year bound of `datetime`. */
    predicate WellFormed() {
      year >= 1 && 1 <= month <= 12 && 1 <= day <= DaysInMonth(year, month)
    }

    /** A value of Python's `datetime`: a calendar day up to year 9999. */
    predicate Representable() {
      WellFormed() && year <= 9999
    }
  }

  /** Days in the years before `y` (Python's `_days_before_year`). */
  function DaysBeforeYear(y: int): int
    requires y >= 1
  {
    var p := y - 1;
    365 * p + p / 4 - p / 100 + p / 400
  }

  function DaysInYear(y: int): int {
    if IsLeap(y) then 366 else 365
  }

  /** Days in the months of year `y` before month `m`. */
  function DaysBeforeMonth(y: int, m: int): (r: int)
    requires 1 <= m <= 12
    ensures r >= 0
  {
    if m == 1 then 0 else DaysBeforeMonth(y, m - 1) + DaysInMonth(y, m - 1)
  }

  /** Python's `date.toordinal()`: 0001-01-01 is day 1. */
  function Ordinal(dt: Date): int
    requires dt.WellFormed()
  {
    DaysBeforeYear(dt.year) + DaysBeforeMonth(dt.year, dt.month) + dt.day
  }

  /** `strftime("%Y-%m-%d")`: year padded to four digits, month and day to two. */
  function FormatDate(dt: Date): (r: string)
    requires dt.Representable()
    ensures |r| == 10 && r[4] == '-' && r[7] == '-'
  {
    PaddedValue(dt.year, 4);
    PaddedValue(dt.month, 2);
    PaddedValue(dt.day, 2);
    assert |NatDigits(dt.year)| <= 4 by { DigitsBelow(dt.year, 10000, 4); }
    assert |NatDigits(dt.month)| <= 2 by { DigitsBelow(dt.month, 100, 2); }
    assert |NatDigits(dt.day)| <= 2 by { DigitsBelow(dt.day, 100, 2); }
    Padded(dt.year, 4) + "-" + Padded(dt.month, 2) + "-" + Padded(dt.day, 2)
  }

  /** A number below 10^k has at most k digits. */
  lemma {:induction false} DigitsBelow(n: nat, bound: nat, k: nat)
    requires (k == 4 && bound == 10000) || (k == 2 && bound == 100)
    requires n < bound
    ensures |NatDigits(n)| <= k
  {
    if n >= 10 {
      assert |NatDigits(n)| == |NatDigits(n / 10)| + 1;
      if n >= 100 {
        assert |NatDigits(n / 10)| == |NatDigits(n / 100)| + 1;
        if n >= 1000 {
          assert |NatDigits(n / 100)| == |NatDigits(n / 1000)| + 1;
        }
      }
    }
  }

  /** Reads a "YYYY-MM-DD" text back into a date. */
  function DateOfText(s: string): Option<Date> {
    if |s| == 10 && s[4] == '-' && s[7] == '-' && AllDigits(s[..4]) && AllDigits(s[5..7]) && AllDigits(s[8..])
    then Some(Date(DigitsValue(s[..4]), DigitsValue(s[5..7]), DigitsValue(s[8..])))
    else None
  }

  /** The date text names the date it was made from. */
  lemma FormatDateRoundTrip(dt: Date)
    requires dt.Representable()
    ensures DateOfText(FormatDate(dt)) == Some(dt)
  {
    var s := FormatDate(dt);
    var y, m, d := Padded(dt.year, 4), Padded(dt.month, 2), Padded(dt.day, 2);
    PaddedValue(dt.year, 4);
    PaddedValue(dt.month, 2);
    PaddedValue(dt.day, 2);
    DigitsBelow(dt.year, 10000, 4);
    DigitsBelow(dt.month, 100, 2);
    DigitsBelow(dt.day, 100, 2);
    assert s == y + "-" + m + "-" + d;
    assert s[..4] == y && s[5..7] == m && s[8..] == d;
  }

  /** The day after `dt`. */
  function NextDay(dt: Date): (r: Date)
    requires dt.WellFormed()
    ensures r.WellFormed()
  {
    if dt.day < DaysInMonth(dt.year, dt.month) then Date(dt.year, dt.month, dt.day + 1)
    else if dt.month < 12 then Date(dt.year, dt.month + 1, 1)
    else Date(dt.year + 1, 1, 1)
  }

  /** `dt + timedelta(days=k)`, one month at a time. */
  function AddDays(dt: Date, k: nat): (r: Date)
    requires dt.WellFormed()
    ensures r.WellFormed()
    decreases k
  {
    var left := DaysInMonth(dt.year, dt.month) - dt.day;
    if k <= left then Date(dt.year, dt.month, dt.day + k)
    else
      var last := Date(dt.year, dt.month, DaysInMonth(dt.year, dt.month));
      AddDays(NextDay(last), k - left - 1)
  }

  lemma LeapDivisions(y: int)
    requires y >= 1
    ensures y / 4 - (y - 1) / 4 == (if y % 4 == 0 then 1 else 0)
    ensures y / 100 - (y - 1) / 100 == (if y % 100 == 0 then 1 else 0)
    ensures y / 400 - (y - 1) / 400 == (if y % 400 == 0 then 1 else 0)
  {
  }

  /** Whatever 400 divides, 100 divides. */
  lemma Divides400(y: int)
    requires y % 400 == 0
    ensures y % 100 == 0
  {
    var k := 4 * (y / 400);
    assert y == 100 * k;
  }

  /** Whatever 100 divides, 4 divides. */
  lemma Divides100(y: int)
    requires y % 100 == 0
    ensures y % 4 == 0
  {
    var k := 25 * (y / 100);
    assert y == 4 * k;
  }

  lemma YearLength(y: int)
    requires y >= 1
    ensures DaysBeforeYear(y + 1) == DaysBeforeYear(y) + DaysInYear(y)
  {
    LeapDivisions(y);
    if y % 400 == 0 { Divides400(y); }
    if y % 100 == 0 { Divides100(y); }
    var a, b, c := y / 4 - (y - 1) / 4, y / 100 - (y - 1) / 100, y / 400 - (y - 1) / 400;
    assert DaysBeforeYear(y + 1) - DaysBeforeYear(y) == 365 + a - b + c;
  }

  /** The months of a year add up to its length. */
  lemma MonthsFillYear(y: int)
    ensures DaysBeforeMonth(y, 12) + 31 == DaysInYear(y)
  {
    var f := if IsLeap(y) then 1 else 0;
    assert DaysBeforeMonth(y, 2) == 31;
    assert DaysBeforeMonth(y, 3) == 59 + f;
    assert DaysBeforeMonth(y, 4) == 90 + f;
    assert DaysBeforeMonth(y, 5) == 120 + f;
    assert DaysBeforeMonth(y, 6) == 151 + f;
    assert DaysBeforeMonth(y, 7) == 181 + f;
    assert DaysBeforeMonth(y, 8) == 212 + f;
    assert DaysBeforeMonth(y, 9) == 243 + f;
    assert DaysBeforeMonth(y, 10) == 273 + f;
    assert DaysBeforeMonth(y, 11) == 304 + f;
    assert DaysBeforeMonth(y, 12) == 334 + f;
  }

  /** `NextDay` is one ordinal later. */
  lemma NextDayOrdinal(dt: Date)
    requires dt.WellFormed()
    ensures Ordinal(NextDay(dt)) == Ordinal(dt) + 1
  {
    var y, m := dt.year, dt.month;
    if dt.day < DaysInMonth(y, m) {
    } else if m < 12 {
      assert DaysBeforeMonth(y, m + 1) == DaysBeforeMonth(y, m) + DaysInMonth(y, m);
    } else {
      YearLength(y);
      MonthsFillYear(y);
      assert Ordinal(NextDay(dt)) == DaysBeforeYear(y + 1) + 1;
    }
  }

  /** Adding k days moves the ordinal by exactly k. */
  lemma {:induction false} AddDaysOrdinal(dt: Date, k: nat)
    requires dt.WellFormed()
    ensures Ordinal(AddDays(dt, k)) == Ordinal(dt) + k
    decreases k
  {
    var left := DaysInMonth(dt.year, dt.month) - dt.day;
    if k > left {
      var last := Date(dt.year, dt.month, DaysInMonth(dt.year, dt.month));
      NextDayOrdinal(last);
      AddDaysOrdinal(NextDay(last), k - left - 1);
    }
  }

  /** A well-formed date lies inside its own year. */
  lemma OrdinalWithinYear(dt: Date)
    requires dt.WellFormed()
    ensures DaysBeforeYear(dt.year) < Ordinal(dt) <= DaysBeforeYear(dt.year + 1)
  {
    YearLength(dt.year);
    MonthsFillYear(dt.year);
    MonthsBefore(dt.year, dt.month);
  }

  lemma {:induction false} MonthsBefore(y: int, m: int)
    requires 1 <= m <= 12
    ensures DaysBeforeMonth(y, m) + DaysInMonth(y, m) <= DaysBeforeMonth(y, 12) + 31
    decreases 12 - m
  {
    if m < 12 {
      MonthsBefore(y, m + 1);
    }
  }

  /** 29 February exists exactly in the leap years; 1900 is not one. */
  lemma LeapDay(y: int)
    requires 1 <= y <= 9999
    ensures IsValidDate(y, 2, 29) <==> IsLeap(y)
    ensures y == 1900 ==> !IsValidDate(y, 2, 29)
  {
  }

  /** `datetime(1900, 1, 1)`, the base of Excel serial numbers. */
  const ExcelBase := Date(1900, 1, 1)

  /** The date of an Excel serial number in 1..99999: serials from 60 on are
      moved back one day to undo Excel's fictitious 1900-02-29. */
  function ExcelDay(serial: int): (r: Date)
    requires 0 < serial < 100000
    ensures r.Representable()
    ensures Ordinal(r) == Ordinal(ExcelBase) + (if serial >= 60 then serial - 2 else serial - 1)
  {
    var adjusted := if serial >= 60 then serial - 1 else serial;
    var r := AddDays(ExcelBase, adjusted - 1);
    AddDaysOrdinal(ExcelBase, adjusted - 1);
    OrdinalYearBound(r);
    r
  }

  /** A date whose ordinal is below that of year 10000 lies in a year
      `datetime` accepts. */
  lemma OrdinalYearBound(dt: Date)
    requires dt.WellFormed() && Ordinal(dt) < 3652059
    ensures dt.year <= 9999
  {
    OrdinalWithinYear(dt);
    var p := dt.year - 1;
    assert p / 4 >= p / 100;
    assert DaysBeforeYear(dt.year) >= 365 * p;
  }

  /** The number `convert_excel_serial_to_date` works on: ints and integral
      floats as they are, a non-blank text that reads as an integer. */
  function SerialValue(c: Cell): Option<int> {
    match c
    case Int(v) => Some(v)
    case Float(v) => Some(v)
    case Str(s) => ParseInt(s)
    case _ => None
  }

  predicate InSerialRange(v: int) { 0 < v < 100000 }

  /** `convert_excel_serial_to_date`: an in-range serial becomes its date
      text; any other value is returned as it is, except that a numeric text
      out of range comes back as the float it was converted to. */
  function ConvertExcelSerial(c: Cell): (r: Cell)
    ensures SerialValue(c).Some? && InSerialRange(SerialValue(c).value) ==>
      r == Str(FormatDate(ExcelDay(SerialValue(c).value)))
    ensures SerialValue(c).None? ==> r == c
    ensures SerialValue(c).Some? && !InSerialRange(SerialValue(c).value) ==>
      r == if c.Str? then Float(SerialValue(c).value) else c
  {
    match c
    case Str(s) =>
      if IsBlank(s) then c
      else (
        match ParseInt(s)
        case None => c
        case Some(v) => if InSerialRange(v) then Str(FormatDate(ExcelDay(v))) else Float(v))
    case Int(v) => if InSerialRange(v) then Str(FormatDate(ExcelDay(v))) else c
    case Float(v) => if InSerialRange(v) then Str(FormatDate(ExcelDay(v))) else c
    case _ => c
  }

  /** Consecutive serials are consecutive days, except that 59 and 60 both
      name 1900-02-28. */
  lemma SerialsAreConsecutiveDays(s: int)
    requires 0 < s < 99999
    ensures s == 59 ==> ExcelDay(s + 1) == ExcelDay(s)
    ensures s != 59 ==> Ordinal(ExcelDay(s + 1)) == Ordinal(ExcelDay(s)) + 1
  {
    if s == 59 {
      assert ExcelDay(60) == AddDays(ExcelBase, 58) == ExcelDay(59);
    }
  }

  lemma YearDigits()
    ensures Padded(1900, 4) == "1900"
  {
    assert NatDigits(19) == "19";
    assert NatDigits(190) == "190" by { assert NatDigits(190) == NatDigits(19) + "0"; }
    assert NatDigits(1900) == "1900" by { assert NatDigits(1900) == NatDigits(190) + "0"; }
  }

  lemma SmallPadded(n: nat)
    requires 1 <= n <= 9
    ensures Padded(n, 2) == "0" + [DigitChar(n)]
  {
    assert NatDigits(n) == [DigitChar(n)];
    assert Zeros(1) == "0";
  }

  lemma FormatBase()
    ensures FormatDate(Date(1900, 1, 1)) == "1900-01-01"
  {
    YearDigits();
    SmallPadded(1);
  }

  lemma FormatFebruary()
    ensures FormatDate(Date(1900, 2, 28)) == "1900-02-28"
  {
    YearDigits();
    SmallPadded(2);
    assert Padded(28, 2) == "28" by { assert NatDigits(28) == "28"; }
  }

  lemma FormatMarch()
    ensures FormatDate(Date(1900, 3, 1)) == "1900-03-01"
  {
    YearDigits();
    SmallPadded(3);
    SmallPadded(1);
  }

  /** Serial 1 is 1900-01-01. */
  lemma SerialOne()
    ensures ConvertExcelSerial(Int(1)) == Str("1900-01-01")
  {
    assert ExcelDay(1) == AddDays(ExcelBase, 0) == Date(1900, 1, 1);
    FormatBase();
  }

  /** Serials 59 and 60 are both 1900-02-28. */
  lemma SerialLeapDay()
    ensures ConvertExcelSerial(Int(59)) == Str("1900-02-28")
    ensures ConvertExcelSerial(Int(60)) == Str("1900-02-28")
  {
    assert AddDays(Date(1900, 2, 1), 27) == Date(1900, 2, 28);
    assert AddDays(ExcelBase, 58) == Date(1900, 2, 28);
    assert ExcelDay(59) == Date(1900, 2, 28);
    assert ExcelDay(60) == Date(1900, 2, 28);
    FormatFebruary();
  }

  /** Serial 61 is 1900-03-01. */
  lemma SerialMarch()
    ensures ConvertExcelSerial(Int(61)) == Str("1900-03-01")
  {
    assert AddDays(Date(1900, 3, 1), 0) == Date(1900, 3, 1);
    assert AddDays(Date(1900, 2, 1), 28) == Date(1900, 3, 1);
    assert AddDays(ExcelBase, 59) == Date(1900, 3, 1);
    assert ExcelDay(61) == Date(1900, 3, 1);
    FormatMarch();
  }

  lemma SixtyOneDigits()
    ensures AllDigits("61") && DigitsValue("61") == 61
  {
    assert "61"[..1] == "6";
    assert "6"[..0] == [];
  }

  lemma StripSixtyOne()
    ensures Strip(" 61 ") == "61"
  {
    assert " 61 " == " " + "61" + " ";
    StripPadded("61");
  }

  lemma TrimmedSixtyOne()
    ensures ParseTrimmed("61") == Some(61)
  {
    SixtyOneDigits();
  }

  lemma ReadsSixtyOne()
    ensures ParseInt(" 61 ") == Some(61)
  {
    StripSixtyOne();
    TrimmedSixtyOne();
  }

  /** A numeric text is converted like the number it reads as. */
  lemma SerialText()
    ensures ConvertExcelSerial(Str(" 61 ")) == ConvertExcelSerial(Int(61))
  {
    ReadsSixtyOne();
    assert SerialValue(Str(" 61 ")) == SerialValue(Int(61));
  }

  /** A numeric text out of range comes back as the float it became. */
  lemma SerialTextOutOfRange()
    ensures ConvertExcelSerial(Str("0")) == Float(0)
  {
    assert Strip("0") == "0";
    assert ParseInt("0") == Some(0);
  }

  /** A text that is not a number comes back unchanged. */
  lemma SerialTextNotNumeric()
    ensures ConvertExcelSerial(Str("abc")) == Str("abc")
  {
    assert Strip("abc") == "abc";
    assert !IsAsciiDigit('a');
    assert ParseInt("abc") == None;
  }
}
