/** Due dates of instalment plans: the Date arithmetic of payment-plan.util.ts, proved against
    a description in calendar months, and what repeated and undone advances come to. */
module DueDates {
  import opened Wrappers
  import opened Gregorian

  datatype Frequency = Weekly | SemiMonthly | Monthly | Custom

  const DEFAULT_CUSTOM_DAYS := 30

  /** A JavaScript Date in UTC: a day number and the milliseconds since that midnight. */
  class UtcDate {
    var day: int
    var ms: int

    constructor Of(day: int, ms: int)
      ensures this.day == day && this.ms == ms
    {
      this.day, this.ms := day, ms;
    }

    constructor Copy(from: UtcDate)
      ensures day == from.day && ms == from.ms
    {
      day, ms := from.day, from.ms;
    }

    method GetUTC() returns (c: Civil)
      ensures c == CivilOf(day)
    {
      c := ReadCivil(day);
      CivilRoundTrip(c);
    }

    method SetUTCMidnight()
      modifies this
      ensures day == old(day) && ms == 0
    {
      ms := 0;
    }

    method SetUTCDate(date: int)
      modifies this
      ensures day == DayInMonth(MonthIndex(CivilOf(old(day))), date) && ms == old(ms)
    {
      var c := GetUTC();
      MakeDayByIndex(c.year, c.month, date);
      day := MakeDay(c.year, c.month, date);
    }

    method SetUTCMonth(month: int)
      modifies this
      ensures day == DayInMonth(12 * CivilOf(old(day)).year + month, CivilOf(old(day)).day)
      ensures ms == old(ms)
    {
      var c := GetUTC();
      MakeDayByIndex(c.year, month, c.day);
      day := MakeDay(c.year, month, c.day);
    }
  }

  function CustomDays(interval: Option<int>): (days: int)
    ensures days > 0
  {
    if interval.Some? && interval.value > 0 then interval.value else DEFAULT_CUSTOM_DAYS
  }

  /** The same day of the month k months away, or that month's last day if it is shorter. */
  ghost function ShiftMonths(n: int, k: int): int {
    var c := CivilOf(n);
    DayInMonth(MonthIndex(c) + k, Min(c.day, MonthLength(MonthIndex(c) + k)))
  }

  /** One plan period later (sign 1) or earlier (sign -1). */
  ghost function ShiftPeriod(n: int, f: Frequency, interval: Option<int>, sign: int): int {
    match f
    case Weekly => n + sign * 7
    case SemiMonthly => n + sign * 14
    case Monthly => ShiftMonths(n, sign)
    case Custom => n + sign * CustomDays(interval)
  }

  ghost function Advance(n: int, f: Frequency, interval: Option<int>): int {
    ShiftPeriod(n, f, interval, 1)
  }

  ghost function Rewind(n: int, f: Frequency, interval: Option<int>): int {
    ShiftPeriod(n, f, interval, -1)
  }

  lemma MonthLengths(index: int)
    ensures 28 <= MonthLength(index) <= 31
  {
  }

  lemma DaysOfMonth(index: int, day: int)
    ensures DayInMonth(index, day) == DayInMonth(index, 1) + day - 1
  {
  }

  /** A day past the end of its month is a day of the next one. */
  lemma OverflowReadsBack(index: int, day: int)
    requires MonthLength(index) < day <= 31
    ensures var r := CivilOf(DayInMonth(index, day));
            MonthIndex(r) == index + 1 && r.day == day - MonthLength(index)
  {
    var rest := day - MonthLength(index);
    MonthLengths(index);
    MonthLengths(index + 1);
    MonthsAbut(index);
    DaysOfMonth(index, day);
    DaysOfMonth(index + 1, rest);
    DayInMonthReadsBack(index + 1, rest);
  }

  /** setUTCMonth runs over into the following month exactly when the month is too short, and
      then setUTCDate(0) comes back to its last day: overflow and correction clamp the day. */
  lemma OverflowClamps(n: int, k: int)
    ensures var c := CivilOf(n);
            var moved := DayInMonth(MonthIndex(c) + k, c.day);
            ShiftMonths(n, k) ==
              if CivilOf(moved).day < c.day then DayInMonth(MonthIndex(CivilOf(moved)), 0) else moved
  {
    var c := CivilOf(n);
    ClampAtIndex(MonthIndex(c) + k, c.day);
  }

  lemma ClampAtIndex(index: int, day: int)
    requires 1 <= day <= 31
    ensures var r := CivilOf(DayInMonth(index, day));
            DayInMonth(index, Min(day, MonthLength(index))) ==
              if r.day < day then DayInMonth(MonthIndex(r), 0) else DayInMonth(index, day)
  {
    if day <= MonthLength(index) {
      DayInMonthReadsBack(index, day);
    } else {
      OverflowReadsBack(index, day);
      LastDayOfMonth(index);
    }
  }

  lemma DayPlus(n: int, days: int)
    ensures var c := CivilOf(n); DayInMonth(MonthIndex(c), c.day + days) == n + days
  {
    DayOfCivil(CivilOf(n));
  }

  method AdvanceDueDate(from: UtcDate, f: Frequency, interval: Option<int>) returns (next: UtcDate)
    ensures fresh(next) && next.ms == 0
    ensures next.day == Advance(from.day, f, interval)
  {
    next := new UtcDate.Copy(from);
    next.SetUTCMidnight();
    var now := next.GetUTC();
    match f {
      case Weekly =>
        DayPlus(next.day, 7);
        next.SetUTCDate(now.day + 7);
      case SemiMonthly =>
        DayPlus(next.day, 14);
        next.SetUTCDate(now.day + 14);
      case Monthly =>
        OverflowClamps(next.day, 1);
        next.SetUTCMonth(now.month + 1);
        var moved := next.GetUTC();
        if moved.day < now.day {
          next.SetUTCDate(0);
        }
      case Custom =>
        var days := if interval.Some? && interval.value > 0 then interval.value else DEFAULT_CUSTOM_DAYS;
        DayPlus(next.day, days);
        next.SetUTCDate(now.day + days);
    }
  }

  method RewindDueDate(from: UtcDate, f: Frequency, interval: Option<int>) returns (prev: UtcDate)
    ensures fresh(prev) && prev.ms == 0
    ensures prev.day == Rewind(from.day, f, interval)
  {
    prev := new UtcDate.Copy(from);
    prev.SetUTCMidnight();
    var now := prev.GetUTC();
    match f {
      case Weekly =>
        DayPlus(prev.day, -7);
        prev.SetUTCDate(now.day - 7);
      case SemiMonthly =>
        DayPlus(prev.day, -14);
        prev.SetUTCDate(now.day - 14);
      case Monthly =>
        OverflowClamps(prev.day, -1);
        prev.SetUTCMonth(now.month - 1);
        var moved := prev.GetUTC();
        if moved.day < now.day {
          prev.SetUTCDate(0);
        }
      case Custom =>
        var days := if interval.Some? && interval.value > 0 then interval.value else DEFAULT_CUSTOM_DAYS;
        DayPlus(prev.day, -days);
        prev.SetUTCDate(now.day - days);
    }
  }

  /** Where a shifted date lies on the calendar. */
  lemma ShiftReadsBack(n: int, k: int)
    ensures var c, s := CivilOf(n), CivilOf(ShiftMonths(n, k));
            MonthIndex(s) == MonthIndex(c) + k && s.day == Min(c.day, MonthLength(MonthIndex(c) + k))
  {
    var c := CivilOf(n);
    var target := MonthIndex(c) + k;
    DayInMonthReadsBack(target, Min(c.day, MonthLength(target)));
  }

  /** Every frequency moves the due date forward; a monthly step is 28 to 31 days. */
  lemma AdvanceMovesForward(n: int, f: Frequency, interval: Option<int>)
    ensures n < Advance(n, f, interval)
    ensures f == Monthly ==> n + 28 <= Advance(n, f, interval) <= n + 31
  {
    if f == Monthly {
      var c := CivilOf(n);
      DayOfCivil(c);
      MonthsAbut(MonthIndex(c));
    }
  }

  lemma RewindMovesBack(n: int, f: Frequency, interval: Option<int>)
    ensures Rewind(n, f, interval) < n
  {
    if f == Monthly {
      var c := CivilOf(n);
      DayOfCivil(c);
      MonthsAbut(MonthIndex(c) - 1);
    }
  }

  /** A monthly date survives advance-then-rewind exactly when its day exists next month. */
  ghost predicate FitsNextPeriod(n: int, f: Frequency) {
    f == Monthly ==> CivilOf(n).day <= MonthLength(MonthIndex(CivilOf(n)) + 1)
  }

  lemma RewindUndoesAdvance(n: int, f: Frequency, interval: Option<int>)
    ensures Rewind(Advance(n, f, interval), f, interval) == n <==> FitsNextPeriod(n, f)
  {
    if f == Monthly {
      var c := CivilOf(n);
      DayOfCivil(c);
      ShiftReadsBack(n, 1);
    }
  }

  ghost function AdvanceTimes(n: int, f: Frequency, interval: Option<int>, k: nat): int {
    if k == 0 then n else Advance(AdvanceTimes(n, f, interval, k - 1), f, interval)
  }

  /** d is the least of the start day and the lengths of the k months after index. */
  ghost predicate IsLeastDay(d: int, start: int, index: int, k: nat) {
    && d <= start
    && (forall i :: index < i <= index + k ==> d <= MonthLength(i))
    && (d == start || exists i :: index < i <= index + k && d == MonthLength(i))
  }

  /** k monthly advances come out exactly k calendar months later, on the least of the start
      day and the lengths of all months passed: a short month on the way is not made up for. */
  lemma {:induction false} MonthlyRun(n: int, interval: Option<int>, k: nat)
    ensures var c, r := CivilOf(n), CivilOf(AdvanceTimes(n, Monthly, interval, k));
            MonthIndex(r) == MonthIndex(c) + k && IsLeastDay(r.day, c.day, MonthIndex(c), k)
  {
    if k > 0 {
      MonthlyRun(n, interval, k - 1);
      MonthlyStep(CivilOf(n), AdvanceTimes(n, Monthly, interval, k - 1), interval, k);
    }
  }

  lemma MonthlyStep(c: Civil, mid: int, interval: Option<int>, k: nat)
    requires k > 0
    requires MonthIndex(CivilOf(mid)) == MonthIndex(c) + k - 1
    requires IsLeastDay(CivilOf(mid).day, c.day, MonthIndex(c), k - 1)
    ensures var r := CivilOf(Advance(mid, Monthly, interval));
            MonthIndex(r) == MonthIndex(c) + k && IsLeastDay(r.day, c.day, MonthIndex(c), k)
  {
    ShiftReadsBack(mid, 1);
    LeastDayStep(CivilOf(mid).day, c.day, MonthIndex(c), k);
  }

  lemma LeastDayStep(d: int, start: int, index: int, k: nat)
    requires k > 0 && IsLeastDay(d, start, index, k - 1)
    ensures IsLeastDay(Min(d, MonthLength(index + k)), start, index, k)
  {
  }

  /** The schedule never stands still or turns back: more periods, later date. */
  lemma {:induction false} AdvancesAccumulate(n: int, f: Frequency, interval: Option<int>, k: nat)
    ensures n + k <= AdvanceTimes(n, f, interval, k)
    ensures f == Monthly ==> n + 28 * k <= AdvanceTimes(n, f, interval, k) <= n + 31 * k
  {
    if k > 0 {
      AdvancesAccumulate(n, f, interval, k - 1);
      AdvanceMovesForward(AdvanceTimes(n, f, interval, k - 1), f, interval);
    }
  }

  /** A weekly, semi-monthly or custom plan keeps its interval exactly, however often it advances;
      a custom plan without a positive interval takes 30 days. */
  lemma {:induction false} FixedIntervals(n: int, interval: Option<int>, k: nat)
    ensures AdvanceTimes(n, Weekly, interval, k) == n + 7 * k
    ensures AdvanceTimes(n, SemiMonthly, interval, k) == n + 14 * k
    ensures interval.Some? && interval.value > 0 ==> AdvanceTimes(n, Custom, interval, k) == n + interval.value * k
    ensures interval.GetOr(0) <= 0 ==> AdvanceTimes(n, Custom, interval, k) == n + 30 * k
  {
    if k > 0 { FixedIntervals(n, interval, k - 1); }
  }
}
