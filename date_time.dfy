/**
 * System.DateTime at a resolution of one second: the number of seconds since
 * 0001-01-01 00:00:00 in the proleptic Gregorian calendar, up to 9999-12-31
 * 23:59:59. The conversion to year, month and day follows .NET's own
 * decomposition into 400-, 100-, 4- and 1-year cycles.
 */
module DateTimes {
  import opened Wrappers
  import opened Text

  // A day has 86400 seconds; the literal is written out where it multiplies or divides, to keep the arithmetic linear.
  /** The number of days from 0001-01-01 to 10000-01-01. */
  const DaysInCalendar: int := 3652059
  /** 9999-12-31 23:59:59, the last whole second DateTime can hold. */
  const MaxSecond: int := 315537897599

  type DateTime = t: int | 0 <= t <= MaxSecond

  datatype Civil = Civil(year: int, month: int, day: int)

  /** The day number, counted from 0001-01-01. */
  function Day(t: DateTime): (n: int)
    ensures 0 <= n < DaysInCalendar
  {
    t / 86400
  }

  function SecondOfDay(t: DateTime): (s: int)
    ensures 0 <= s < 86400
  {
    t % 86400
  }

  function Hour(t: DateTime): (h: int)
    ensures 0 <= h < 24
  {
    SecondOfDay(t) / 3600
  }

  function Minute(t: DateTime): (m: int)
    ensures 0 <= m < 60
  {
    SecondOfDay(t) % 3600 / 60
  }

  function Second(t: DateTime): (s: int)
    ensures 0 <= s < 60
  {
    SecondOfDay(t) % 60
  }

  /** DateTime.Add: None where .NET throws ArgumentOutOfRangeException. */
  function Add(t: DateTime, seconds: int): (r: Option<DateTime>)
    ensures r.Some? <==> 0 <= t + seconds <= MaxSecond
    ensures r.Some? ==> r.value - t == seconds
  {
    if 0 <= t + seconds <= MaxSecond then Some(t + seconds) else None
  }

  /** Adding a clock time to a midnight keeps the day and sets the hour and minute. */
  lemma AddClockTime(t: DateTime, h: int, m: int)
    requires SecondOfDay(t) == 0 && 0 <= h < 24 && 0 <= m < 60
    ensures Add(t, h * 3600 + m * 60).Some?
    ensures var u := Add(t, h * 3600 + m * 60).value;
      Day(u) == Day(t) && Hour(u) == h && Minute(u) == m && Second(u) == 0
  {
    var s := h * 3600 + m * 60;
    assert 0 <= s < 86400;
    assert t == Day(t) * 86400;
    var u := t + s;
    assert u == Day(t) * 86400 + s;
    DivMod86400(u, Day(t), s);
    DivMod3600(s, h, m * 60);
    DivMod60(m * 60, m, 0);
  }

  lemma DivMod86400(x: int, q: int, r: int)
    requires x == 86400 * q + r && 0 <= r < 86400
    ensures x / 86400 == q && x % 86400 == r
  {
  }

  lemma DivMod3600(x: int, q: int, r: int)
    requires x == 3600 * q + r && 0 <= r < 3600
    ensures x / 3600 == q && x % 3600 == r
  {
  }

  lemma DivMod60(x: int, q: int, r: int)
    requires x == 60 * q + r && 0 <= r < 60
    ensures x / 60 == q && x % 60 == r
  {
  }

  /** DateTime.AddDays with a whole number of days. */
  function AddDays(t: DateTime, days: int): (r: Option<DateTime>)
  {
    Add(t, days * 86400)
  }

  /** Adding whole days moves the day number and keeps the time of day; it fails only past the calendar. */
  lemma AddDaysMovesDay(t: DateTime, days: int)
    ensures AddDays(t, days).Some? <==> 0 <= Day(t) + days < DaysInCalendar
    ensures AddDays(t, days).Some? ==>
      Day(AddDays(t, days).value) == Day(t) + days && SecondOfDay(AddDays(t, days).value) == SecondOfDay(t)
  {
  }

  predicate IsLeapYear(y: int)
  {
    y % 4 == 0 && (y % 100 != 0 || y % 400 == 0)
  }

  /** The number of days before January 1 of year `y`. */
  function DaysToYear(y: int): int
    requires y >= 1
  {
    var p := y - 1;
    p * 365 + p / 4 - p / 100 + p / 400
  }

  /** The number of days before the first of each month, and the length of the year at index 12. */
  function MonthStarts(leap: bool): (s: seq<int>)
    ensures |s| == 13
  {
    if leap then [0, 31, 60, 91, 121, 152, 182, 213, 244, 274, 305, 335, 366]
    else [0, 31, 59, 90, 120, 151, 181, 212, 243, 273, 304, 334, 365]
  }

  function DaysInMonth(y: int, m: int): int
    requires 1 <= m <= 12
  {
    MonthStarts(IsLeapYear(y))[m] - MonthStarts(IsLeapYear(y))[m - 1]
  }

  predicate ValidCivil(c: Civil)
  {
    1 <= c.year <= 9999 && 1 <= c.month <= 12 && 1 <= c.day <= DaysInMonth(c.year, c.month)
  }

  /** No month is longer than 31 days. */
  lemma DayAtMost31(c: Civil)
    requires ValidCivil(c)
    ensures c.day <= 31
  {
    var starts := MonthStarts(IsLeapYear(c.year));
    assert forall m :: 1 <= m <= 12 ==> starts[m] - starts[m - 1] <= 31;
  }

  /** The day number of a calendar date, as new DateTime(year, month, day) computes it. */
  function DaysFromCivil(c: Civil): int
    requires ValidCivil(c)
  {
    DaysToYear(c.year) + MonthStarts(IsLeapYear(c.year))[c.month - 1] + c.day - 1
  }

  /** A year and the zero-based day within it. */
  datatype YearDay = YearDay(year: int, dayOfYear: int, leap: bool)

  /** .NET's year computation: the day number split into 400-, 100-, 4- and 1-year cycles. */
  function YearOf(n: int): YearDay
    requires 0 <= n < DaysInCalendar
  {
    var y400 := n / 146097;
    var n1 := n % 146097;
    var y100 := if n1 / 36524 == 4 then 3 else n1 / 36524;
    var n2 := n1 - y100 * 36524;
    var y4 := n2 / 1461;
    var n3 := n2 % 1461;
    var y1 := if n3 / 365 == 4 then 3 else n3 / 365;
    var n4 := n3 - y1 * 365;
    YearDay(400 * y400 + 100 * y100 + 4 * y4 + y1 + 1, n4, y1 == 3 && (y4 != 24 || y100 == 3))
  }

  lemma DivMod4(x: int, q: int, r: int)
    requires x == 4 * q + r && 0 <= r < 4
    ensures x / 4 == q && x % 4 == r
  {
  }

  lemma DivMod100(x: int, q: int, r: int)
    requires x == 100 * q + r && 0 <= r < 100
    ensures x / 100 == q && x % 100 == r
  {
  }

  lemma DivMod400(x: int, q: int, r: int)
    requires x == 400 * q + r && 0 <= r < 400
    ensures x / 400 == q && x % 400 == r
  {
  }

  /** The days before a year written as 400a + 100b + 4c + d + 1, counted cycle by cycle. */
  lemma DaysToCycleYear(a: int, b: int, c: int, d: int)
    requires 0 <= a && 0 <= b <= 3 && 0 <= c <= 24 && 0 <= d <= 3
    ensures DaysToYear(400 * a + 100 * b + 4 * c + d + 1) == 146097 * a + 36524 * b + 1461 * c + 365 * d
  {
    var p := 400 * a + 100 * b + 4 * c + d;
    DivMod4(p, 100 * a + 25 * b + c, d);
    DivMod100(p, 4 * a + b, 4 * c + d);
    DivMod400(p, a, 100 * b + 4 * c + d);
  }

  /** The leap-year rule for a year written as 400a + 100b + 4c + d + 1. */
  lemma LeapCycleYear(a: int, b: int, c: int, d: int)
    requires 0 <= a && 0 <= b <= 3 && 0 <= c <= 24 && 0 <= d <= 3
    ensures IsLeapYear(400 * a + 100 * b + 4 * c + d + 1) <==> d == 3 && (c != 24 || b == 3)
  {
    var year := 400 * a + 100 * b + 4 * c + d + 1;
    if d == 3 {
      DivMod4(year, 100 * a + 25 * b + c + 1, 0);
    } else {
      DivMod4(year, 100 * a + 25 * b + c, d + 1);
    }
    if c == 24 && d == 3 {
      DivMod100(year, 4 * a + b + 1, 0);
    } else {
      DivMod100(year, 4 * a + b, 4 * c + d + 1);
    }
    if b == 3 && c == 24 && d == 3 {
      DivMod400(year, a + 1, 0);
    } else {
      DivMod400(year, a, 100 * b + 4 * c + d + 1);
    }
  }

  /** The cycle counts YearOf finds, and the bounds they keep. */
  lemma YearOfCycles(n: int) returns (a: int, b: int, c: int, d: int)
    requires 0 <= n < DaysInCalendar
    ensures 0 <= a <= 24 && 0 <= b <= 3 && 0 <= c <= 24 && 0 <= d <= 3
    ensures var r := YearOf(n);
      && r.year == 400 * a + 100 * b + 4 * c + d + 1
      && r.leap == (d == 3 && (c != 24 || b == 3))
      && n == 146097 * a + 36524 * b + 1461 * c + 365 * d + r.dayOfYear
      && 0 <= r.dayOfYear <= 365
      && (r.dayOfYear == 365 ==> r.leap)
      && (a == 24 ==> 100 * b + 4 * c + d < 399)
  {
    a := n / 146097;
    var n1 := n % 146097;
    b := if n1 / 36524 == 4 then 3 else n1 / 36524;
    var n2 := n1 - b * 36524;
    c := n2 / 1461;
    var n3 := n2 % 1461;
    d := if n3 / 365 == 4 then 3 else n3 / 365;
    assert b < 3 ==> n2 < 36524;
    assert c == 24 && b < 3 ==> n3 < 1460;
    assert a == 24 ==> n1 < 145731;
  }

  /** The cycle decomposition lands on a valid year and day, with .NET's leap-year flag equal to the calendar rule. */
  lemma YearOfCorrect(n: int)
    requires 0 <= n < DaysInCalendar
    ensures var r := YearOf(n);
      && 1 <= r.year <= 9999
      && r.leap == IsLeapYear(r.year)
      && 0 <= r.dayOfYear < MonthStarts(r.leap)[12]
      && DaysToYear(r.year) + r.dayOfYear == n
  {
    var a, b, c, d := YearOfCycles(n);
    DaysToCycleYear(a, b, c, d);
    LeapCycleYear(a, b, c, d);
  }

  /**
   * The month holding zero-based day `doy` of the year, searched upwards from
   * month `m`. (.NET starts the search at (doy >> 5) + 1, which finds the same month.)
   */
  function MonthOf(leap: bool, doy: int, m: int): (r: int)
    requires 1 <= m <= 12 && MonthStarts(leap)[m - 1] <= doy < MonthStarts(leap)[12]
    ensures m <= r <= 12 && MonthStarts(leap)[r - 1] <= doy < MonthStarts(leap)[r]
    decreases 12 - m
  {
    if doy < MonthStarts(leap)[m] then m else MonthOf(leap, doy, m + 1)
  }

  /** The calendar date of a day number; it is valid and converts back to the same day number. */
  function CivilFromDays(n: int): (c: Civil)
    requires 0 <= n < DaysInCalendar
    ensures ValidCivil(c) && DaysFromCivil(c) == n
  {
    YearOfCorrect(n);
    var y := YearOf(n);
    var m := MonthOf(y.leap, y.dayOfYear, 1);
    Civil(y.year, m, y.dayOfYear - MonthStarts(y.leap)[m - 1] + 1)
  }

  /** The Year, Month and Day properties of a DateTime. */
  function CivilOf(t: DateTime): (c: Civil)
    ensures ValidCivil(c) && DaysFromCivil(c) == Day(t)
  {
    CivilFromDays(Day(t))
  }

  /** new DateTime(year, month, day, 0, 0, 0) for a date inside the calendar. */
  function Midnight(c: Civil): (t: DateTime)
    requires ValidCivil(c) && DaysFromCivil(c) < DaysInCalendar
    ensures Day(t) == DaysFromCivil(c) && SecondOfDay(t) == 0
  {
    DaysFromCivil(c) * 86400
  }

  /** A two-digit field, as the "MM", "dd", "HH", "mm" and "ss" specifiers render it. */
  function Pad2(v: nat): (s: string)
    ensures |s| == 2 && AllDigits(s)
    ensures v < 100 ==> Value(s) == v
  {
    if v < 100 then ValueOfDigits(v, 2); Digits(v, 2) else Digits(v, 2)
  }

  /** A four-digit field, as the "yyyy" specifier renders it. */
  function Pad4(v: nat): (s: string)
    ensures |s| == 4 && AllDigits(s)
    ensures v < 10000 ==> Value(s) == v
  {
    if v < 10000 then ValueOfDigits(v, 4); Digits(v, 4) else Digits(v, 4)
  }

  /** The custom format "yyyyMMddHHmmss". */
  function Format14(t: DateTime): (s: string)
    ensures |s| == 14 && AllDigits(s)
  {
    var c := CivilOf(t);
    Pad4(c.year) + Pad2(c.month) + Pad2(c.day)
      + Pad2(Hour(t)) + Pad2(Minute(t)) + Pad2(Second(t))
  }

  /** The custom format "dd.MM.yyyy". */
  function FormatDayMonthYear(t: DateTime): (s: string)
    ensures |s| == 10 && s[2] == '.' && s[5] == '.'
  {
    var c := CivilOf(t);
    Pad2(c.day) + "." + Pad2(c.month) + "." + Pad4(c.year)
  }

  /** Reads the calendar date back from four, two and two digits; None for no valid date. */
  function ReadCivil(year: string, month: string, day: string): (r: Option<int>)
    requires AllDigits(year) && AllDigits(month) && AllDigits(day)
    ensures r.Some? ==> 0 <= r.value < DaysInCalendar
  {
    var c := Civil(Value(year), Value(month), Value(day));
    if ValidCivil(c) && DaysFromCivil(c) < DaysInCalendar && DaysFromCivil(c) >= 0
    then Some(DaysFromCivil(c)) else None
  }

  /** Reads a "yyyyMMddHHmmss" text back into a DateTime; None for no valid date and time. */
  function Read14(s: string): (r: Option<DateTime>)
    requires |s| == 14 && AllDigits(s)
  {
    Instant(ReadCivil(s[0..4], s[4..6], s[6..8]), Value(s[8..10]), Value(s[10..12]), Value(s[12..14]))
  }

  /** The instant at a time of day on a day; None unless both are in range. */
  function Instant(day: Option<int>, h: int, m: int, sec: int): Option<DateTime>
  {
    if day.Some? && 0 <= day.value < DaysInCalendar && 0 <= h < 24 && 0 <= m < 60 && 0 <= sec < 60
    then Some(day.value * 86400 + 3600 * h + 60 * m + sec)
    else None
  }

  /** The six fields of a "yyyyMMddHHmmss" rendering sit at fixed positions. */
  lemma Format14Fields(t: DateTime)
    ensures var c, s := CivilOf(t), Format14(t);
      && s[0..4] == Pad4(c.year) && s[4..6] == Pad2(c.month) && s[6..8] == Pad2(c.day)
      && s[8..10] == Pad2(Hour(t)) && s[10..12] == Pad2(Minute(t)) && s[12..14] == Pad2(Second(t))
  {
    var c := CivilOf(t);
    var y, mo, d := Pad4(c.year), Pad2(c.month), Pad2(c.day);
    var h, mi, se := Pad2(Hour(t)), Pad2(Minute(t)), Pad2(Second(t));
    assert Format14(t) == y + mo + d + h + mi + se;
    FieldsAt(y, mo, d, h, mi, se);
  }

  /** Where the fields of a four-digit and five two-digit fields rendering start and end. */
  lemma FieldsAt(y: string, mo: string, d: string, h: string, mi: string, se: string)
    requires |y| == 4 && |mo| == 2 && |d| == 2 && |h| == 2 && |mi| == 2 && |se| == 2
    ensures var s := y + mo + d + h + mi + se;
      && s[0..4] == y && s[4..6] == mo && s[6..8] == d
      && s[8..10] == h && s[10..12] == mi && s[12..14] == se
  {
    var s := y + mo + d + h + mi + se;
    assert s[0..4] == y;
    assert s[4..6] == mo;
    assert s[6..8] == d;
    assert s[8..10] == h;
    assert s[10..12] == mi;
    assert s[12..14] == se;
  }

  /** A DateTime is the instant at its own time of day on its own day. */
  lemma InstantOfParts(t: DateTime)
    ensures Instant(Some(Day(t)), Hour(t), Minute(t), Second(t)) == Some(t)
  {
  }

  /** Reading back a rendered calendar date gives its day number. */
  lemma ReadCivilOfFields(c: Civil)
    requires ValidCivil(c) && 0 <= DaysFromCivil(c) < DaysInCalendar
    ensures ReadCivil(Pad4(c.year), Pad2(c.month), Pad2(c.day)) == Some(DaysFromCivil(c))
  {
    DayAtMost31(c);
  }

  /** Reading a text whose fields hold a valid date and time gives that instant. */
  lemma Read14OfFields(s: string, c: Civil, h: nat, m: nat, sec: nat)
    requires |s| == 14 && AllDigits(s)
    requires ValidCivil(c) && 0 <= DaysFromCivil(c) < DaysInCalendar && h < 100 && m < 100 && sec < 100
    requires s[0..4] == Pad4(c.year) && s[4..6] == Pad2(c.month) && s[6..8] == Pad2(c.day)
    requires s[8..10] == Pad2(h) && s[10..12] == Pad2(m) && s[12..14] == Pad2(sec)
    ensures Read14(s) == Instant(Some(DaysFromCivil(c)), h, m, sec)
  {
    ReadCivilOfFields(c);
  }

  /** "yyyyMMddHHmmss" loses nothing at a resolution of one second. */
  lemma Format14RoundTrip(t: DateTime)
    ensures Read14(Format14(t)) == Some(t)
  {
    var c := CivilOf(t);
    Format14Fields(t);
    Read14OfFields(Format14(t), c, Hour(t), Minute(t), Second(t));
    InstantOfParts(t);
  }

  /** The three fields of a "dd.MM.yyyy" rendering sit at fixed positions. */
  lemma DayMonthYearFields(t: DateTime)
    ensures var c, s := CivilOf(t), FormatDayMonthYear(t);
      s[0..2] == Pad2(c.day) && s[3..5] == Pad2(c.month) && s[6..10] == Pad4(c.year)
  {
    var c := CivilOf(t);
    var d, mo, y := Pad2(c.day), Pad2(c.month), Pad4(c.year);
    assert FormatDayMonthYear(t) == d + "." + mo + "." + y;
    DottedFieldsAt(d, mo, y);
  }

  /** Where the fields of a "dd.MM.yyyy" rendering start and end. */
  lemma DottedFieldsAt(d: string, mo: string, y: string)
    requires |d| == 2 && |mo| == 2 && |y| == 4
    ensures var s := d + "." + mo + "." + y;
      s[0..2] == d && s[3..5] == mo && s[6..10] == y
  {
    var s := d + "." + mo + "." + y;
    assert s[0..2] == d;
    assert s[3..5] == mo;
    assert s[6..10] == y;
  }

  /** Two instants render to the same "dd.MM.yyyy" exactly when they fall on the same day. */
  lemma FormatDayMonthYearIdentifiesDay(t: DateTime, u: DateTime)
    ensures FormatDayMonthYear(t) == FormatDayMonthYear(u) <==> Day(t) == Day(u)
  {
    if FormatDayMonthYear(t) == FormatDayMonthYear(u) {
      var c, d := CivilOf(t), CivilOf(u);
      DayMonthYearFields(t);
      DayMonthYearFields(u);
      DayAtMost31(c);
      DayAtMost31(d);
      assert c == d;
    }
  }
}
