/** The proleptic Gregorian calendar as ECMA-262 section 21.4.1 defines it for Date objects:
    a date is a day number (day 0 is 1970-01-01), and year, month and day of month are read
    off the day number. Months are numbered 0..11, days of the month from 1. */
module Gregorian {

  const DAYS_PER_WEEK := 7

  /** Year, month (0..11) and day of the month (from 1). */
  datatype Civil = Civil(year: int, month: int, day: int)

  predicate IsLeap(y: int) {
    y % 4 == 0 && (y % 100 != 0 || y % 400 == 0)
  }

  function DaysInYear(y: int): int {
    if IsLeap(y) then 366 else 365
  }

  function DaysInMonth(y: int, m: int): int
    requires 0 <= m < 12
  {
    if m == 1 then (if IsLeap(y) then 29 else 28)
    else if m == 3 || m == 5 || m == 8 || m == 10 then 30
    else 31
  }

  /** Day number of 1 January of year y. */
  function DayFromYear(y: int): int {
    365 * (y - 1970) + (y - 1969) / 4 - (y - 1901) / 100 + (y - 1601) / 400
  }

  /** Days of year y before the first of month m; m == 12 gives the whole year. */
  function DaysBeforeMonth(y: int, m: int): int
    requires 0 <= m <= 12
  {
    if m == 0 then 0 else DaysBeforeMonth(y, m - 1) + DaysInMonth(y, m - 1)
  }

  ghost predicate Valid(c: Civil) {
    0 <= c.month < 12 && 1 <= c.day <= DaysInMonth(c.year, c.month)
  }

  function DayNumber(c: Civil): int
    requires 0 <= c.month < 12
  {
    DayFromYear(c.year) + DaysBeforeMonth(c.year, c.month) + c.day - 1
  }

  lemma EveryFourYears(y: int)
    ensures (y - 1968) / 4 == (y - 1969) / 4 + (if y % 4 == 0 then 1 else 0)
  {
  }

  lemma EveryHundredYears(y: int)
    ensures (y - 1900) / 100 == (y - 1901) / 100 + (if y % 100 == 0 then 1 else 0)
  {
  }

  lemma EveryFourHundredYears(y: int)
    ensures (y - 1600) / 400 == (y - 1601) / 400 + (if y % 400 == 0 then 1 else 0)
  {
  }

  lemma CenturiesAreFourths(y: int)
    requires y % 100 == 0
    ensures y % 4 == 0
  {
    var q := y / 100;
    assert y == 4 * (25 * q);
  }

  lemma FourCenturiesAreCenturies(y: int)
    requires y % 400 == 0
    ensures y % 100 == 0
  {
    var q := y / 400;
    assert y == 100 * (4 * q);
  }

  /** Leap years are exactly the steps of 366 days. */
  lemma YearLength(y: int)
    ensures DayFromYear(y + 1) - DayFromYear(y) == DaysInYear(y)
  {
    EveryFourYears(y);
    EveryHundredYears(y);
    EveryFourHundredYears(y);
    if y % 100 == 0 { CenturiesAreFourths(y); }
    if y % 400 == 0 { FourCenturiesAreCenturies(y); }
  }

  lemma MonthsFillYear(y: int)
    ensures DaysBeforeMonth(y, 12) == DaysInYear(y)
    ensures DaysBeforeMonth(y, 11) == DaysInYear(y) - 31
  {
    assert DaysBeforeMonth(y, 1) == 31;
    assert DaysBeforeMonth(y, 2) == 59 + (if IsLeap(y) then 1 else 0);
    assert DaysBeforeMonth(y, 4) == DaysBeforeMonth(y, 2) + 61;
    assert DaysBeforeMonth(y, 6) == DaysBeforeMonth(y, 4) + 61;
    assert DaysBeforeMonth(y, 8) == DaysBeforeMonth(y, 6) + 62;
    assert DaysBeforeMonth(y, 10) == DaysBeforeMonth(y, 8) + 61;
    assert DaysBeforeMonth(y, 12) == DaysBeforeMonth(y, 10) + 61;
  }

  /** The year that contains day n, found by walking from the guess y. */
  function YearWalk(n: int, y: int): (r: int)
    ensures DayFromYear(r) <= n < DayFromYear(r + 1)
    decreases if n < DayFromYear(y) then DayFromYear(y) - n else if n >= DayFromYear(y + 1) then n - DayFromYear(y)
              else 0
  {
    YearLength(y);
    YearLength(y - 1);
    YearLength(y + 1);
    if n < DayFromYear(y) then YearWalk(n, y - 1)
    else if n >= DayFromYear(y + 1) then YearWalk(n, y + 1)
    else y
  }

  /** Month and day of month of the k-th day (from 0) counted from the first of month m. */
  function MonthWalk(y: int, m: int, k: int): (r: (int, int))
    requires 0 <= m < 12 && 0 <= k < DaysBeforeMonth(y, 12) - DaysBeforeMonth(y, m)
    ensures m <= r.0 < 12 && 1 <= r.1 <= DaysInMonth(y, r.0)
    ensures DaysBeforeMonth(y, r.0) + r.1 - 1 == DaysBeforeMonth(y, m) + k
    decreases 12 - m
  {
    if k < DaysInMonth(y, m) then (m, k + 1)
    else
      assert DaysBeforeMonth(y, m + 1) == DaysBeforeMonth(y, m) + DaysInMonth(y, m);
      MonthWalk(y, m + 1, k - DaysInMonth(y, m))
  }

  /** Reads the calendar date off a day number. */
  function ReadCivil(n: int): (c: Civil)
    ensures Valid(c) && DayNumber(c) == n
  {
    var y := YearWalk(n, 1970);
    YearLength(y);
    MonthsFillYear(y);
    var md := MonthWalk(y, 0, n - DayFromYear(y));
    Civil(y, md.0, md.1)
  }

  /** The calendar date of day n: the one valid date whose day number is n. */
  ghost function CivilOf(n: int): (c: Civil)
    ensures Valid(c) && DayNumber(c) == n
  {
    assert Valid(ReadCivil(n)) && DayNumber(ReadCivil(n)) == n;
    var c: Civil :| Valid(c) && DayNumber(c) == n;
    c
  }

  lemma YearStartsIncrease(a: int, b: int)
    requires a < b
    ensures DayFromYear(a) + 365 <= DayFromYear(b)
    decreases b - a
  {
    YearLength(b - 1);
    if a < b - 1 { YearStartsIncrease(a, b - 1); }
  }

  lemma MonthStartsIncrease(y: int, a: int, b: int)
    requires 0 <= a < b <= 12
    ensures DaysBeforeMonth(y, a) + DaysInMonth(y, a) <= DaysBeforeMonth(y, b)
    decreases b - a
  {
    if a < b - 1 { MonthStartsIncrease(y, a, b - 1); }
  }

  lemma DayWithinYear(c: Civil)
    requires Valid(c)
    ensures DayFromYear(c.year) <= DayNumber(c) < DayFromYear(c.year + 1)
  {
    YearLength(c.year);
    MonthsFillYear(c.year);
    MonthStartsIncrease(c.year, c.month, 12);
    if c.month > 0 { MonthStartsIncrease(c.year, 0, c.month); }
  }

  /** Calendar dates and day numbers correspond one to one, in both directions. */
  lemma CivilRoundTrip(c: Civil)
    requires Valid(c)
    ensures CivilOf(DayNumber(c)) == c && ReadCivil(DayNumber(c)) == c
  {
    DayNumberInjective(c, CivilOf(DayNumber(c)));
    DayNumberInjective(c, ReadCivil(DayNumber(c)));
  }

  lemma DayNumberInjective(c: Civil, d: Civil)
    requires Valid(c) && Valid(d) && DayNumber(c) == DayNumber(d)
    ensures c == d
  {
    NotEarlierYear(c, d);
    NotEarlierYear(d, c);
    if c.month < d.month { MonthStartsIncrease(c.year, c.month, d.month); }
    if d.month < c.month { MonthStartsIncrease(c.year, d.month, c.month); }
  }

  lemma NotEarlierYear(c: Civil, d: Civil)
    requires Valid(c) && Valid(d) && DayNumber(c) == DayNumber(d)
    ensures c.year >= d.year
  {
    DayWithinYear(c);
    DayWithinYear(d);
    if c.year + 1 < d.year { YearStartsIncrease(c.year + 1, d.year); }
  }

  /** ECMA-262 MakeDay: months and days may overflow in either direction. */
  function MakeDay(year: int, month: int, date: int): int {
    DayNumber(Civil(year + month / 12, month % 12, 1)) + date - 1
  }

  /** ECMA-262 WeekDay: 0 is Sunday, 5 is Friday; day 0 was a Thursday. */
  function WeekDay(n: int): int {
    (n + 4) % DAYS_PER_WEEK
  }

  /** Months counted without a year boundary. */
  function MonthIndex(c: Civil): int { 12 * c.year + c.month }

  function MonthLength(index: int): int { DaysInMonth(index / 12, index % 12) }

  /** Day number of the given day of the month with the given index. */
  function DayInMonth(index: int, day: int): int { MakeDay(0, index, day) }

  lemma IndexParts(c: Civil)
    requires 0 <= c.month < 12
    ensures MonthIndex(c) / 12 == c.year && MonthIndex(c) % 12 == c.month
  {
  }

  /** A day of a month reads back as that month and that day. */
  lemma DayInMonthReadsBack(index: int, day: int)
    requires 1 <= day <= MonthLength(index)
    ensures MonthIndex(CivilOf(DayInMonth(index, day))) == index
    ensures CivilOf(DayInMonth(index, day)).day == day
  {
    var c := Civil(index / 12, index % 12, day);
    assert MonthIndex(c) == index;
    assert DayInMonth(index, day) == DayNumber(c);
    DayNumberInjective(c, CivilOf(DayInMonth(index, day)));
  }

  lemma FirstOfMonth(y: int, m: int)
    requires 0 <= m < 12
    ensures DayInMonth(12 * y + m, 1) == DayFromYear(y) + DaysBeforeMonth(y, m)
    ensures MonthLength(12 * y + m) == DaysInMonth(y, m)
  {
    assert (12 * y + m) / 12 == y && (12 * y + m) % 12 == m;
  }

  /** The months follow one another without a gap. */
  lemma MonthsAbut(index: int)
    ensures DayInMonth(index + 1, 1) == DayInMonth(index, 1) + MonthLength(index)
  {
    var y, m := index / 12, index % 12;
    assert index == 12 * y + m;
    MonthsOfYearAbut(y, m);
  }

  lemma MonthsOfYearAbut(y: int, m: int)
    requires 0 <= m < 12
    ensures DayInMonth(12 * y + m + 1, 1) == DayInMonth(12 * y + m, 1) + MonthLength(12 * y + m)
  {
    FirstOfMonth(y, m);
    if m == 11 {
      YearEndAbuts(y);
    } else {
      FirstOfMonth(y, m + 1);
    }
  }

  lemma YearEndAbuts(y: int)
    ensures DayInMonth(12 * y + 12, 1) == DayFromYear(y) + DaysBeforeMonth(y, 11) + DaysInMonth(y, 11)
  {
    FirstOfMonth(y + 1, 0);
    YearLength(y);
    MonthsFillYear(y);
    assert 12 * y + 12 == 12 * (y + 1) + 0;
  }

  /** Day 0 of a month is the last day of the one before. */
  lemma LastDayOfMonth(index: int)
    ensures DayInMonth(index + 1, 0) == DayInMonth(index, MonthLength(index))
  {
    MonthsAbut(index);
  }

  /** Civil and MonthIndex agree on which day is meant. */
  lemma DayOfCivil(c: Civil)
    requires 0 <= c.month < 12
    ensures DayNumber(c) == DayInMonth(MonthIndex(c), c.day)
    ensures MonthLength(MonthIndex(c)) == DaysInMonth(c.year, c.month)
  {
    IndexParts(c);
  }

  /** MakeDay sees only the month index. */
  lemma MakeDayByIndex(year: int, month: int, date: int)
    ensures MakeDay(year, month, date) == DayInMonth(12 * year + month, date)
  {
    assert (12 * year + month) / 12 == year + month / 12;
  }

  // ----- Anchors

  /** Day 0 is 1970-01-01; 29 February 2000 was day 11016, a Tuesday. */
  lemma KnownDates()
    ensures DayNumber(Civil(1970, 0, 1)) == 0
    ensures DayNumber(Civil(2000, 1, 29)) == 11016 && WeekDay(11016) == 2
  {
    assert DayFromYear(2000) == 10957;
    assert DaysBeforeMonth(2000, 0) == 0;
    assert DaysBeforeMonth(2000, 1) == DaysInMonth(2000, 0);
  }

  /** Thirty days have April, June, September and November. */
  lemma MonthTable(y: int)
    ensures seq(12, m requires 0 <= m < 12 => DaysInMonth(y, m)) ==
            [31, if DaysInYear(y) == 366 then 29 else 28, 31, 30, 31, 30, 31, 31, 30, 31, 30, 31]
  {
  }
}
