/** The weekends of a month or year (enumerateWeekends of fonio-availability.service.ts). */
module Weekends {
  import opened Wrappers
  import opened Gregorian

  const FRIDAY := 5

  datatype Weekend = Weekend(checkIn: int, checkOut: int)

  predicate IsFriday(n: int) {
    WeekDay(n) == FRIDAY
  }

  /** The Fridays of [lo, hi), in order. */
  ghost function Fridays(lo: int, hi: int): seq<int>
    decreases hi - lo
  {
    if hi <= lo then [] else Fridays(lo, hi - 1) + if IsFriday(hi - 1) then [hi - 1] else []
  }

  ghost function FridayStays(fridays: seq<int>, nights: int): seq<Weekend> {
    seq(|fridays|, i requires 0 <= i < |fridays| => Weekend(fridays[i], fridays[i] + nights))
  }

  /** Date.UTC takes the years 0 to 99 for 1900 to 1999. */
  function UtcYear(year: int): int {
    if 0 <= year <= 99 then 1900 + year else year
  }

  /** Date.UTC in days; the month (from 0) and the day may overflow. */
  function DateUTC(year: int, month: int, day: int): int {
    MakeDay(UtcYear(year), month, day)
  }

  /** Index of the month the source calls m (from 1). */
  function IndexOf(year: int, m: int): int {
    12 * UtcYear(year) + m - 1
  }

  ghost function FirstDay(index: int): int {
    DayInMonth(index, 1)
  }

  ghost function MonthFridays(index: int): seq<int> {
    Fridays(FirstDay(index), FirstDay(index + 1))
  }

  ghost function YearFridays(y: int): seq<int> {
    Fridays(DayFromYear(y), DayFromYear(y + 1))
  }

  /** Day 0 of the next month is the last of this one, so it tells how long this one is. */
  lemma LengthByDayZero(year: int, m: int)
    ensures CivilOf(DateUTC(year, m, 0)).day == MonthLength(IndexOf(year, m))
  {
    var index := IndexOf(year, m);
    assert DateUTC(year, m, 0) == DayInMonth(index + 1, 0) by { MakeDayByIndex(UtcYear(year), m, 0); }
    LastDayOfMonth(index);
    DayInMonthReadsBack(index, MonthLength(index));
  }

  method DaysInMonthOf(year: int, m: int) returns (days: int)
    ensures days == MonthLength(IndexOf(year, m))
  {
    var c := ReadCivil(DateUTC(year, m, 0));
    CivilRoundTrip(c);
    LengthByDayZero(year, m);
    days := c.day;
  }

  /** The weekends of the first day - 1 days of a month. */
  ghost predicate UpToDay(weekends: seq<Weekend>, index: int, nights: int, day: int) {
    weekends == FridayStays(Fridays(FirstDay(index), FirstDay(index) + day - 1), nights)
  }

  lemma UpToNextDay(weekends: seq<Weekend>, year: int, m: int, nights: int, day: int)
    requires day >= 1 && UpToDay(weekends, IndexOf(year, m), nights, day)
    ensures var date := DateUTC(year, m - 1, day);
            UpToDay(if IsFriday(date) then weekends + [Weekend(date, date + nights)] else weekends, IndexOf(year, m),
                    nights, day + 1)
  {
    MakeDayByIndex(UtcYear(year), m - 1, day);
    assert DateUTC(year, m - 1, day) == FirstDay(IndexOf(year, m)) + day - 1;
  }

  lemma UpToMonthEnd(weekends: seq<Weekend>, index: int, nights: int)
    requires UpToDay(weekends, index, nights, MonthLength(index) + 1)
    ensures weekends == FridayStays(MonthFridays(index), nights)
  {
    MonthsAbut(index);
  }

  /** The Fridays of one month, with the check-out the given nights later. */
  method MonthWeekends(year: int, m: int, nights: int) returns (weekends: seq<Weekend>)
    ensures weekends == FridayStays(MonthFridays(IndexOf(year, m)), nights)
  {
    weekends := [];
    var daysInMonth := DaysInMonthOf(year, m);
    var day := 1;
    while day <= daysInMonth
      invariant 1 <= day <= daysInMonth + 1
      invariant UpToDay(weekends, IndexOf(year, m), nights, day)
    {
      var date := DateUTC(year, m - 1, day);
      UpToNextDay(weekends, year, m, nights, day);
      if WeekDay(date) == FRIDAY {
        weekends := weekends + [Weekend(date, date + nights)];
      }
      day := day + 1;
    }
    UpToMonthEnd(weekends, IndexOf(year, m), nights);
  }

  lemma {:induction false} FridaysAppend(lo: int, mid: int, hi: int)
    requires lo <= mid <= hi
    ensures Fridays(lo, mid) + Fridays(mid, hi) == Fridays(lo, hi)
    decreases hi - mid
  {
    if mid < hi { FridaysAppend(lo, mid, hi - 1); }
  }

  /** The Fridays of the first m - 1 months of a year. */
  ghost predicate UpToMonth(fridays: seq<int>, year: int, m: int) {
    FirstDay(IndexOf(year, 1)) <= FirstDay(IndexOf(year, m))
    && fridays == Fridays(FirstDay(IndexOf(year, 1)), FirstDay(IndexOf(year, m)))
  }

  lemma UpToFirstMonth(year: int)
    ensures UpToMonth([], year, 1)
  {
  }

  lemma UpToNextMonth(fridays: seq<int>, year: int, m: int)
    requires UpToMonth(fridays, year, m)
    ensures UpToMonth(fridays + MonthFridays(IndexOf(year, m)), year, m + 1)
  {
    var first, index := FirstDay(IndexOf(year, 1)), IndexOf(year, m);
    MonthsAbut(index);
    FridaysAppend(first, FirstDay(index), FirstDay(index + 1));
    assert IndexOf(year, m + 1) == index + 1;
  }

  lemma UpToYearEnd(fridays: seq<int>, year: int)
    requires UpToMonth(fridays, year, 13)
    ensures fridays == YearFridays(UtcYear(year))
  {
    var y := UtcYear(year);
    YearStarts(y);
    YearStarts(y + 1);
    assert IndexOf(year, 1) == 12 * y && IndexOf(year, 13) == 12 * (y + 1);
  }

  lemma YearStarts(y: int)
    ensures FirstDay(12 * y) == DayFromYear(y)
  {
    MakeDayByIndex(y, 0, 1);
  }

  lemma StaysAppend(a: seq<int>, b: seq<int>, nights: int)
    ensures FridayStays(a + b, nights) == FridayStays(a, nights) + FridayStays(b, nights)
  {
  }

  /** Month by month through the year. */
  method YearWeekends(year: int, nights: int) returns (weekends: seq<Weekend>)
    ensures weekends == FridayStays(YearFridays(UtcYear(year)), nights)
  {
    weekends := [];
    ghost var fridays: seq<int> := [];
    UpToFirstMonth(year);
    var m := 1;
    while m <= 12
      invariant 1 <= m <= 13
      invariant UpToMonth(fridays, year, m) && weekends == FridayStays(fridays, nights)
    {
      var more := MonthWeekends(year, m, nights);
      ghost var moreFridays := MonthFridays(IndexOf(year, m));
      UpToNextMonth(fridays, year, m);
      StaysAppend(fridays, moreFridays, nights);
      fridays := fridays + moreFridays;
      weekends := weekends + more;
      m := m + 1;
    }
    UpToYearEnd(fridays, year);
  }

  /** The weekends of the month, or of the year when no month (or month 0) is given. */
  ghost function WeekendRanges(year: int, month: Option<int>, nights: int): seq<Weekend> {
    FridayStays(if month.GetOr(0) != 0 then MonthFridays(IndexOf(year, month.value)) else YearFridays(UtcYear(year)),
                nights)
  }

  method EnumerateWeekends(year: int, month: Option<int>, nights: int) returns (weekends: seq<Weekend>)
    ensures weekends == WeekendRanges(year, month, nights)
  {
    if month.GetOr(0) != 0 {
      weekends := MonthWeekends(year, month.value, nights);
    } else {
      weekends := YearWeekends(year, nights);
    }
  }

  // ----- What the list contains

  /** Each Friday of [lo, hi) once, in order, a week apart, none missing at either end. */
  ghost predicate WeeklyIn(f: seq<int>, lo: int, hi: int) {
    && (forall i :: 0 <= i < |f| ==> IsFriday(f[i]))
    && (forall i :: 0 < i < |f| ==> f[i] == f[i - 1] + 7)
    && (if f == [] then hi <= lo + 6 else lo <= f[0] < lo + 7 && hi - 7 <= f[|f| - 1] < hi)
  }

  lemma {:induction false} FridayMembers(lo: int, hi: int, d: int)
    ensures d in Fridays(lo, hi) <==> lo <= d < hi && IsFriday(d)
    decreases hi - lo
  {
    if lo < hi { FridayMembers(lo, hi - 1, d); }
  }

  lemma {:induction false} FridaysWeekly(lo: int, hi: int)
    ensures WeeklyIn(Fridays(lo, hi), lo, hi)
    decreases hi - lo
  {
    if lo < hi {
      FridaysWeekly(lo, hi - 1);
      if Fridays(lo, hi - 1) == [] { NoneYet(lo, hi - 1); }
      WeeklyNext(Fridays(lo, hi - 1), Fridays(lo, hi), lo, hi);
    }
  }

  lemma {:induction false} WeeklyNext(f: seq<int>, g: seq<int>, lo: int, hi: int)
    requires lo < hi && WeeklyIn(f, lo, hi - 1)
    requires g == if IsFriday(hi - 1) then f + [hi - 1] else f
    requires f == [] && hi - 1 == lo + 6 ==> IsFriday(hi - 1)
    ensures WeeklyIn(g, lo, hi)
  {
    if f != [] { NextFriday(f[|f| - 1], hi - 1); }
  }

  /** Seven days in a row include a Friday. */
  lemma NoneYet(lo: int, hi: int)
    requires lo <= hi <= lo + 6 && Fridays(lo, hi) == []
    ensures hi == lo + 6 ==> IsFriday(hi)
  {
    FridayMembers(lo, hi, lo);
    FridayMembers(lo, hi, lo + 1);
    FridayMembers(lo, hi, lo + 2);
    FridayMembers(lo, hi, lo + 3);
    FridayMembers(lo, hi, lo + 4);
    FridayMembers(lo, hi, lo + 5);
  }

  lemma NextFriday(last: int, d: int)
    requires IsFriday(last) && d - 7 <= last < d
    ensures IsFriday(d) <==> d == last + 7
  {
  }

  lemma {:induction false} WeeklyFrom(f: seq<int>, i: int)
    requires 0 <= i < |f| && forall j :: 0 < j < |f| ==> f[j] == f[j - 1] + 7
    ensures f[i] == f[0] + 7 * i
  {
    if i > 0 { WeeklyFrom(f, i - 1); }
  }

  /** The day belongs to the year exactly when it lies between two year starts. */
  lemma YearOfDay(n: int, y: int)
    ensures CivilOf(n).year == y <==> DayFromYear(y) <= n < DayFromYear(y + 1)
  {
    var c := CivilOf(n);
    DayWithinYear(c);
    if c.year < y { LaterYear(c.year + 1, y); }
    if y < c.year { LaterYear(y + 1, c.year); }
  }

  lemma LaterYear(a: int, b: int)
    requires a <= b
    ensures DayFromYear(a) <= DayFromYear(b)
  {
    if a < b { YearStartsIncrease(a, b); }
  }

  lemma CountWeekly(f: seq<int>, lo: int, hi: int)
    requires WeeklyIn(f, lo, hi) && lo + 7 <= hi
    ensures hi - lo - 6 <= 7 * |f| <= hi - lo + 6
  {
    if f != [] { WeeklyFrom(f, |f| - 1); }
  }

  /** The whole-year list holds every Friday of the year and nothing else, a week apart across
      month ends, 52 or 53 of them. */
  lemma YearHasAllFridays(y: int)
    ensures var f := YearFridays(y);
            && (forall d :: d in f <==> CivilOf(d).year == y && IsFriday(d))
            && (forall i :: 0 < i < |f| ==> f[i] == f[i - 1] + 7)
            && 52 <= |f| <= 53
  {
    var lo, hi := DayFromYear(y), DayFromYear(y + 1);
    YearLength(y);
    FridaysWeekly(lo, hi);
    CountWeekly(Fridays(lo, hi), lo, hi);
    forall d ensures d in Fridays(lo, hi) <==> CivilOf(d).year == y && IsFriday(d) {
      FridayMembers(lo, hi, d);
      YearOfDay(d, y);
    }
  }

  /** A month has four or five weekends. */
  lemma MonthHasFourOrFive(index: int)
    ensures 4 <= |MonthFridays(index)| <= 5
  {
    MonthsAbut(index);
    FridaysWeekly(FirstDay(index), FirstDay(index + 1));
    CountWeekly(MonthFridays(index), FirstDay(index), FirstDay(index + 1));
  }

  /** The list of a month or year holds exactly the stays that begin on one of its Fridays and end
      the given nights later, the years 0 to 99 standing for 1900 to 1999. */
  lemma {:induction false} WeekendsOf(year: int, month: Option<int>, nights: int, w: Weekend)
    ensures w in WeekendRanges(year, month, nights) <==>
            var c := CivilOf(w.checkIn);
            var y := if 0 <= year <= 99 then 1900 + year else year;
            && w.checkOut == w.checkIn + nights && WeekDay(w.checkIn) == 5
            && (if month.GetOr(0) != 0 then MonthIndex(c) == 12 * y + month.value - 1 else c.year == y)
  {
    var fridays := if month.GetOr(0) != 0 then MonthFridays(IndexOf(year, month.value)) else YearFridays(UtcYear(year));
    FridayStaysAre(fridays, nights, w);
    if month.GetOr(0) != 0 {
      var index := IndexOf(year, month.value);
      FridayMembers(FirstDay(index), FirstDay(index + 1), w.checkIn);
      DayOfMonth(w.checkIn, index);
    } else {
      FridayMembers(DayFromYear(UtcYear(year)), DayFromYear(UtcYear(year) + 1), w.checkIn);
      YearOfDay(w.checkIn, UtcYear(year));
    }
  }

  lemma {:induction false} FridayStaysAre(fridays: seq<int>, nights: int, w: Weekend)
    ensures w in FridayStays(fridays, nights) <==> w.checkIn in fridays && w.checkOut == w.checkIn + nights
  {
    var stays := FridayStays(fridays, nights);
    if w.checkIn in fridays && w.checkOut == w.checkIn + nights {
      var i :| 0 <= i < |fridays| && fridays[i] == w.checkIn;
      assert stays[i] == w;
    }
  }

  /** The day belongs to the month exactly when it lies between two month starts. */
  lemma DayOfMonth(n: int, index: int)
    ensures MonthIndex(CivilOf(n)) == index <==> FirstDay(index) <= n < FirstDay(index + 1)
  {
    MonthsAbut(index);
    if FirstDay(index) <= n < FirstDay(index + 1) {
      DayInMonthReadsBack(index, n - FirstDay(index) + 1);
    }
    DayOfCivil(CivilOf(n));
  }
}
