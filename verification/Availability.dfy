/** Availability search from the calendar cache: one stay, and every weekend of a period in one
    batch (fonio-availability.service.ts). Dates are day numbers. */
module Availability {
  import opened Wrappers
  import opened Pigeonhole

  const DEFAULT_MIN_NIGHTS := 1

  /** A calendarDay row. */
  datatype CalendarRow = CalendarRow(listing: int, date: int, isAvailable: bool, minNights: Option<int>)

  /** What is said about one listing for one stay. */
  datatype Item = Item(listing: int, available: bool, unknown: bool)

  /** The calendar table has one row per listing and date. */
  ghost predicate UniqueRows(rows: seq<CalendarRow>) {
    forall i, j :: 0 <= i < j < |rows| ==> !(rows[i].listing == rows[j].listing && rows[i].date == rows[j].date)
  }

  // ----- What availability means

  function MinNights(r: CalendarRow): int {
    r.minNights.GetOr(DEFAULT_MIN_NIGHTS)
  }

  ghost predicate HasRow(rows: seq<CalendarRow>, listing: int, date: int) {
    exists r :: r in rows && r.listing == listing && r.date == date
  }

  /** The night is open, and a stay of this length is long enough for it. */
  ghost predicate OpenFor(rows: seq<CalendarRow>, listing: int, date: int, stay: int) {
    exists r :: r in rows && r.listing == listing && r.date == date && r.isAvailable && MinNights(r) <= stay
  }

  /** The listing can be booked for these nights: each has an open row, and the stay is at least
      as long as every row's minimum. */
  ghost predicate Bookable(rows: seq<CalendarRow>, listing: int, nights: seq<int>) {
    |nights| >= 1 && forall d :: d in nights ==> OpenFor(rows, listing, d, |nights|)
  }

  ghost predicate Unknown(rows: seq<CalendarRow>, listing: int, nights: seq<int>) {
    exists d :: d in nights && !HasRow(rows, listing, d)
  }

  ghost function Verdict(rows: seq<CalendarRow>, listing: int, nights: seq<int>): Item {
    Item(listing, Bookable(rows, listing, nights), Unknown(rows, listing, nights))
  }

  ghost function Verdicts(rows: seq<CalendarRow>, listings: seq<int>, nights: seq<int>): seq<Item> {
    seq(|listings|, i requires 0 <= i < |listings| => Verdict(rows, listings[i], nights))
  }

  // ----- Counting rows instead of nights

  /** The rows of a listing on the given dates. */
  function RowsOn(rows: seq<CalendarRow>, listing: int, dates: set<int>): (s: seq<CalendarRow>)
    ensures forall r :: r in s <==> r in rows && r.listing == listing && r.date in dates
  {
    if rows == [] then []
    else
      var last := rows[|rows| - 1];
      assert rows == rows[..|rows| - 1] + [last];
      RowsOn(rows[..|rows| - 1], listing, dates) + if last.listing == listing && last.date in dates then [last] else []
  }

  ghost function DatesOf(rows: seq<CalendarRow>): set<int> {
    set r | r in rows :: r.date
  }

  lemma {:induction false} DateIsNew(rows: seq<CalendarRow>, listing: int, dates: set<int>)
    requires rows != [] && UniqueRows(rows) && rows[|rows| - 1].listing == listing
    ensures rows[|rows| - 1].date !in DatesOf(RowsOn(rows[..|rows| - 1], listing, dates))
  {
    var init, last := rows[..|rows| - 1], rows[|rows| - 1];
    forall r | r in RowsOn(init, listing, dates) ensures r.date != last.date {
      var i :| 0 <= i < |init| && init[i] == r;
      assert rows[i] == r;
    }
  }

  lemma DatesSnoc(rows: seq<CalendarRow>, r: CalendarRow)
    ensures DatesOf(rows + [r]) == DatesOf(rows) + {r.date}
  {
    forall d ensures d in DatesOf(rows + [r]) <==> d in DatesOf(rows) + {r.date} {
      if d in DatesOf(rows) {
        var q :| q in rows && q.date == d;
        assert q in rows + [r];
      }
      if d == r.date { assert r in rows + [r]; }
    }
  }

  /** With one row per date there are as many dates as rows. */
  lemma {:induction false} RowsCountDates(rows: seq<CalendarRow>, listing: int, dates: set<int>)
    requires UniqueRows(rows)
    ensures |DatesOf(RowsOn(rows, listing, dates))| == |RowsOn(rows, listing, dates)|
  {
    if rows == [] {
      assert DatesOf([]) == {};
    } else {
      var init, last := rows[..|rows| - 1], rows[|rows| - 1];
      RowsCountDates(init, listing, dates);
      if last.listing == listing && last.date in dates {
        DateIsNew(rows, listing, dates);
        DatesSnoc(RowsOn(init, listing, dates), last);
      } else {
        assert RowsOn(rows, listing, dates) == RowsOn(init, listing, dates) + [];
        assert RowsOn(init, listing, dates) + [] == RowsOn(init, listing, dates);
      }
    }
  }

  /** The pigeonhole step: there are as many rows as nights exactly when every night has one. */
  lemma {:induction false} CountMeansCovered(rows: seq<CalendarRow>, listing: int, nights: seq<int>)
    requires UniqueRows(rows) && Distinct(nights)
    ensures var days := RowsOn(rows, listing, Elements(nights));
            |days| <= |nights| && (|days| == |nights| <==> !Unknown(rows, listing, nights))
  {
    var days := RowsOn(rows, listing, Elements(nights));
    RowsCountDates(rows, listing, Elements(nights));
    DistinctCount(nights);
    assert DatesOf(days) <= Elements(nights);
    SubsetSize(DatesOf(days), Elements(nights));
    if |days| == |nights| {
      SubsetOfSameSize(DatesOf(days), Elements(nights));
      forall d | d in nights ensures HasRow(rows, listing, d) {
        assert d in DatesOf(days);
      }
    }
    if !Unknown(rows, listing, nights) {
      forall d | d in nights ensures d in DatesOf(days) {
        assert HasRow(rows, listing, d);
      }
      assert DatesOf(days) == Elements(nights);
    }
  }

  /** Two rows of the table for the same listing and date are the same row. */
  lemma {:induction false} RowIsUnique(rows: seq<CalendarRow>, r: CalendarRow, q: CalendarRow)
    requires UniqueRows(rows) && r in rows && q in rows && r.listing == q.listing && r.date == q.date
    ensures r == q
  {
  }

  /** The test on the counted rows decides bookability. */
  lemma {:induction false} RowTestIsBookable(rows: seq<CalendarRow>, listing: int, nights: seq<int>)
    requires UniqueRows(rows) && Distinct(nights)
    ensures var days := RowsOn(rows, listing, Elements(nights));
            Bookable(rows, listing, nights) <==>
              |days| == |nights| && |nights| >= 1 && forall r :: r in days ==> r.isAvailable && MinNights(r) <= |nights|
  {
    var days := RowsOn(rows, listing, Elements(nights));
    CountMeansCovered(rows, listing, nights);
    if Bookable(rows, listing, nights) {
      forall d | d in nights ensures HasRow(rows, listing, d) {
        assert OpenFor(rows, listing, d, |nights|);
      }
      forall r | r in days ensures r.isAvailable && MinNights(r) <= |nights| {
        assert OpenFor(rows, listing, r.date, |nights|);
        var q :| q in rows && q.listing == listing && q.date == r.date && q.isAvailable && MinNights(q) <= |nights|;
        RowIsUnique(rows, r, q);
      }
    }
    if |days| == |nights| && forall r :: r in days ==> r.isAvailable && MinNights(r) <= |nights| {
      forall d | d in nights ensures OpenFor(rows, listing, d, |nights|) {
        assert HasRow(rows, listing, d);
        var r :| r in rows && r.listing == listing && r.date == d;
        assert r in days;
      }
    }
  }
}
