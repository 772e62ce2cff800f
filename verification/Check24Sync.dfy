/** Check24SyncService: the local calendar is reopened around active bookings after a cancel and
    pushed to CHECK24 as ranges (check24-sync.service.ts). */
module Check24Sync {
  import opened Wrappers
  import opened Pigeonhole
  import opened RunLength
  import opened CalendarRanges
  import opened Reopening

  const MS_PER_HOUR := 3_600_000
  const MAX_RECENT_CANCELS := 100

  /** Rows of the reservation table that overlap [from, to). */
  function Overlapping(rs: seq<Reservation>, listing: int, from: int, to: int): (s: seq<Reservation>)
    ensures forall r :: r in s <==> r in rs && r.listing == listing && r.arrival < to && r.departure > from
  {
    if rs == [] then []
    else
      var last := rs[|rs| - 1];
      assert rs == rs[..|rs| - 1] + [last];
      Overlapping(rs[..|rs| - 1], listing, from, to) +
      if last.listing == listing && last.arrival < to && last.departure > from then [last] else []
  }

  predicate IsRecentCancel(b: Booking, property: string, since: int) {
    && b.propertyId == property && IsTerminalBooking(b.status)
    && ((b.processedAt.Some? && b.processedAt.value >= since) || b.updatedAt >= since)
  }

  /** Terminal bookings of the property touched within the hold window, in table order. */
  function RecentCancels(bs: seq<Booking>, property: string, since: int): (s: seq<Booking>)
    ensures forall b :: b in s <==>
              && b in bs && b.propertyId == property && IsTerminalBooking(b.status)
              && (b.updatedAt >= since || (b.processedAt.Some? && b.processedAt.value >= since))
  {
    if bs == [] then []
    else
      var last := bs[|bs| - 1];
      assert bs == bs[..|bs| - 1] + [last];
      RecentCancels(bs[..|bs| - 1], property, since) +
      if IsRecentCancel(last, property, since) then [last] else []
  }

  /** A booking further down the table comes later among the recent cancellations. */
  lemma {:induction false} RecentCancelsKeepOrder(bs: seq<Booking>, b: Booking, property: string, since: int)
    ensures RecentCancels(bs + [b], property, since) ==
            RecentCancels(bs, property, since) + if IsRecentCancel(b, property, since) then [b] else []
  {
    assert (bs + [b])[..|bs|] == bs;
  }

  function FirstHundred(bs: seq<Booking>): (s: seq<Booking>)
    ensures s <= bs && |s| == Min(|bs|, 100)
  {
    if |bs| <= MAX_RECENT_CANCELS then bs else bs[..MAX_RECENT_CANCELS]
  }

  function Row(date: int, day: CalendarDay): LocalCalendarDay {
    LocalCalendarDay(date, day.isAvailable, day.minNights, day.price)
  }

  /** The rows of a listing from today on, each once. */
  ghost predicate IsCalendarFrom(days: seq<LocalCalendarDay>, cal: Calendar, listing: int, today: int) {
    && (forall x :: x in days <==>
          && x.date >= today && Slot(listing, x.date) in cal
          && var day := cal[Slot(listing, x.date)];
             x == LocalCalendarDay(x.date, day.isAvailable, day.minNights, day.price))
    && (forall i, j :: 0 <= i < j < |days| ==> days[i].date != days[j].date)
  }

  /** What was pushed says of every night from today on what the calendar says, open or closed and
      the minimum stay, and of no other night anything. */
  ghost predicate Publishes(ranges: seq<Availability>, cal: Calendar, listing: int, today: int) {
    forall d, open, minStay :: Says(ranges, d, open, minStay) <==>
      && d >= today && Slot(listing, d) in cal
      && cal[Slot(listing, d)].isAvailable == open && cal[Slot(listing, d)].minNights == minStay
  }

  lemma {:induction false} CalendarHasDay(days: seq<LocalCalendarDay>, cal: Calendar, listing: int, today: int,
                                          d: int, open: bool, minStay: Option<int>)
    requires IsCalendarFrom(days, cal, listing, today)
    ensures HasDay(days, d, open, minStay) <==>
            && d >= today && Slot(listing, d) in cal
            && cal[Slot(listing, d)].isAvailable == open && cal[Slot(listing, d)].minNights == minStay
  {
    if d >= today && Slot(listing, d) in cal {
      assert Row(d, cal[Slot(listing, d)]) in days;
    }
  }

  /** The ranges built from a listing's rows publish its calendar. */
  lemma {:induction false} RangesPublish(days: seq<LocalCalendarDay>, cal: Calendar, listing: int, today: int,
                                         ranges: seq<Availability>)
    requires IsCalendarFrom(days, cal, listing, today) && SaysTheSame(ranges, days)
    ensures Publishes(ranges, cal, listing, today)
  {
    forall d, open, minStay
      ensures Says(ranges, d, open, minStay) <==>
              && d >= today && Slot(listing, d) in cal
              && cal[Slot(listing, d)].isAvailable == open && cal[Slot(listing, d)].minNights == minStay
    {
      CalendarHasDay(days, cal, listing, today, d, open, minStay);
    }
  }

  // ----- What a push amounts to

  /** What a CHECK24 availability push contained. */
  datatype Push = Push(listing: int, ranges: seq<Availability>)

  /** A stay to force open, with the reservations that must not block it. */
  datatype Cancel = Cancel(from: int, to: int, exclude: seq<int>)

  ghost function StayExclusions(stay: Option<Cancel>): set<int> {
    if stay.Some? then Elements(stay.value.exclude) else {}
  }

  function OwnReservation(row: Booking): seq<int> {
    if row.hostawayReservationId.Some? && row.hostawayReservationId.value != 0
    then [row.hostawayReservationId.value] else []
  }

  /** The nights of the stay that no other active reservation holds. */
  ghost function StayNights(rs: seq<Reservation>, listing: int, bs: seq<Booking>, stay: Cancel): set<int> {
    FreeNights(rs, listing, bs, Elements(stay.exclude), stay.from, stay.to)
  }

  /** Nights a recently cancelled booking gives back; none if its dates are not known. */
  ghost function RowNights(rs: seq<Reservation>, bs: seq<Booking>, listing: int, row: Booking): set<int> {
    if row.dateFrom.None? || row.dateTo.None? then {}
    else FreeNights(rs, listing, bs, Elements(OwnReservation(row)), row.dateFrom.value, row.dateTo.value)
  }

  ghost function RecentRows(bs: seq<Booking>, holdHours: int, property: string, now: int): seq<Booking> {
    if holdHours <= 0 then [] else FirstHundred(RecentCancels(bs, property, now - holdHours * MS_PER_HOUR))
  }

  ghost function RowsNights(rs: seq<Reservation>, bs: seq<Booking>, listing: int, rows: seq<Booking>): seq<set<int>> {
    seq(|rows|, i requires 0 <= i < |rows| => RowNights(rs, bs, listing, rows[i]))
  }

  ghost function RecentNights(rs: seq<Reservation>, bs: seq<Booking>, holdHours: int, listing: int, property: string,
                              now: int)
    : seq<set<int>>
  {
    RowsNights(rs, bs, listing, RecentRows(bs, holdHours, property, now))
  }

  /** A night is given back by recent cancellations if and only if the stay of one of the first
      hundred ended bookings of the property touched within the hold window holds it, and no active
      reservation does. */
  lemma {:induction false} RecentNightsAre(rs: seq<Reservation>, bs: seq<Booking>, holdHours: int, listing: int,
                                           property: string, now: int, d: int)
    ensures d in Union(RecentNights(rs, bs, holdHours, listing, property, now)) <==>
            && holdHours > 0 && !Held(rs, listing, bs, {}, d)
            && exists b :: b in FirstHundred(RecentCancels(bs, property, now - holdHours * 3_600_000))
                           && b.dateFrom.Some? && b.dateTo.Some? && b.dateFrom.value <= d < b.dateTo.value
  {
    var rows, sets := RecentRows(bs, holdHours, property, now), RecentNights(rs, bs, holdHours, listing, property, now);
    forall i | 0 <= i < |rows|
      ensures rows[i] in bs && IsTerminalBooking(rows[i].status)
    {
      assert rows[i] in RecentCancels(bs, property, now - holdHours * MS_PER_HOUR);
    }
    forall i | 0 <= i < |rows|
      ensures d in sets[i] <==> && !Held(rs, listing, bs, {}, d) && rows[i].dateFrom.Some? && rows[i].dateTo.Some?
                                && rows[i].dateFrom.value <= d < rows[i].dateTo.value
    {
      EndedExclusionIsIdle(rs, listing, bs, rows[i], d);
    }
    if d in Union(sets) {
      var i :| 0 <= i < |sets| && d in sets[i];
      assert rows[i] in rows;
    }
    if b :| b in rows && b.dateFrom.Some? && b.dateTo.Some? && b.dateFrom.value <= d < b.dateTo.value
            && !Held(rs, listing, bs, {}, d) {
      var i :| 0 <= i < |rows| && rows[i] == b;
      assert d in sets[i];
    }
  }

  ghost predicate SameRow(a: Calendar, b: Calendar, s: Slot) {
    (s in a <==> s in b) && (s in a ==> a[s] == b[s])
  }

  /** CHECK24 has been sent the listing's calendar; an empty calendar is not sent. */
  ghost predicate Published(cal: Calendar, listing: int, today: int, before: seq<Push>, after: seq<Push>) {
    exists ranges :: Sent(ranges, listing, before, after) && Publishes(ranges, cal, listing, today)
  }

  ghost predicate Sent(ranges: seq<Availability>, listing: int, before: seq<Push>, after: seq<Push>) {
    after == if ranges == [] then before else before + [Push(listing, ranges)]
  }

  /** The minimum stay a night keeps when it is opened. */
  function MinStay(cal: Calendar, s: Slot): Option<int> {
    if s in cal then cal[s].minNights else None
  }

  /** Each of the nights from today on is in an open range of one new push, with its minimum stay. */
  ghost predicate SendsOpen(nights: set<int>, synced: Calendar, listing: int, today: int, before: seq<Push>,
                            after: seq<Push>) {
    forall d :: d >= today && d in nights ==>
      |after| == |before| + 1 && Says(after[|before|].ranges, d, true, MinStay(synced, Slot(listing, d)))
  }

  /** Every night opened is sent as open. */
  lemma {:induction false} FreedNightsAreSent(synced: Calendar, listing: int, nights: set<int>, today: int,
                                              before: seq<Push>, after: seq<Push>)
    requires Published(Opened(synced, listing, nights), listing, today, before, after)
    ensures SendsOpen(nights, synced, listing, today, before, after)
  {
    var cal := Opened(synced, listing, nights);
    OpenedOpensExactly(synced, listing, nights);
    var ranges :| Sent(ranges, listing, before, after) && Publishes(ranges, cal, listing, today);
    forall d | d >= today && d in nights
      ensures |after| == |before| + 1 && Says(after[|before|].ranges, d, true, MinStay(synced, Slot(listing, d)))
    {
      assert Says(ranges, d, true, MinStay(synced, Slot(listing, d)));
    }
  }

  lemma {:induction false} UnopenedUnchanged(cal: Calendar, listing: int, nights: set<int>)
    ensures forall d :: d !in nights ==> SameRow(Opened(cal, listing, nights), cal, Slot(listing, d))
    ensures forall s: Slot :: s.listing != listing ==> SameRow(Opened(cal, listing, nights), cal, s)
  {
  }

  /** Excluding the reservation of an ended booking makes no difference: it blocks no one anyway. */
  lemma {:induction false} EndedExclusionIsIdle(rs: seq<Reservation>, listing: int, bs: seq<Booking>, row: Booking,
                                                d: int)
    requires row in bs && IsTerminalBooking(row.status)
    ensures Held(rs, listing, bs, Elements(OwnReservation(row)), d) <==> Held(rs, listing, bs, {}, d)
  {
    forall r | r in rs ensures Blocks(r, listing, bs, Elements(OwnReservation(row))) <==> Blocks(r, listing, bs, {}) {
      assert r.hostawayId in OwnReservation(row) ==> LinkedTo(row, r.hostawayId);
    }
  }

  /** A night held despite any exclusions is held despite that of an ended booking. */
  lemma {:induction false} HeldDespite(rs: seq<Reservation>, listing: int, bs: seq<Booking>, excluded: set<int>,
                                       row: Booking, d: int)
    requires row in bs && IsTerminalBooking(row.status)
    requires Held(rs, listing, bs, excluded, d)
    ensures Held(rs, listing, bs, Elements(OwnReservation(row)), d)
  {
    FewerExcludedFewerFree(rs, listing, bs, {}, excluded, d);
    EndedExclusionIsIdle(rs, listing, bs, row, d);
  }

  /** A night held by an active reservation is not among those recent cancellations reopen. */
  lemma {:induction false} HeldNotReopened(rs: seq<Reservation>, bs: seq<Booking>, holdHours: int, listing: int,
                                           property: string, now: int,
                        excluded: set<int>)
    ensures forall d :: Held(rs, listing, bs, excluded, d) ==>
      d !in Union(RecentNights(rs, bs, holdHours, listing, property, now))
  {
    var rows := RecentRows(bs, holdHours, property, now);
    var sets := RecentNights(rs, bs, holdHours, listing, property, now);
    forall d, i | Held(rs, listing, bs, excluded, d) && 0 <= i < |sets| ensures d !in sets[i] {
      assert rows[i] in RecentCancels(bs, property, now - holdHours * MS_PER_HOUR);
      HeldDespite(rs, listing, bs, excluded, rows[i], d);
    }
  }

  ghost function OptionalNights(rs: seq<Reservation>, listing: int, bs: seq<Booking>, stay: Option<Cancel>): set<int> {
    if stay.Some? then StayNights(rs, listing, bs, stay.value) else {}
  }

  /** The nights a refresh opens: those of the cancelled stay, and of recent cancellations. */
  ghost function FreedNights(rs: seq<Reservation>, listing: int, bs: seq<Booking>, holdHours: int, property: string,
                             stay: Option<Cancel>, now: int): set<int> {
    OptionalNights(rs, listing, bs, stay) + Union(RecentNights(rs, bs, holdHours, listing, property, now))
  }

  /** Nights held by an active reservation that is not excluded are as they were. */
  ghost predicate KeepsHeld(rs: seq<Reservation>, listing: int, bs: seq<Booking>, excluded: set<int>, before: Calendar,
                            after: Calendar) {
    forall d :: Held(rs, listing, bs, excluded, d) ==> SameRow(after, before, Slot(listing, d))
  }

  ghost predicate KeepsOtherListings(listing: int, before: Calendar, after: Calendar) {
    forall s: Slot :: s.listing != listing ==> SameRow(after, before, s)
  }

  /** Exactly the freed nights are open now that were not, with their price and minimum stay; held
      nights and other listings are as they were. */
  ghost predicate Refreshed(rs: seq<Reservation>, listing: int, bs: seq<Booking>, freed: set<int>, excluded: set<int>,
                            before: Calendar, after: Calendar) {
    && after == Opened(before, listing, freed) && OpensExactly(before, after, listing, freed)
    && KeepsHeld(rs, listing, bs, excluded, before, after)
    && KeepsOtherListings(listing, before, after)
  }

  lemma {:induction false} FreedIsRefreshed(rs: seq<Reservation>, listing: int, bs: seq<Booking>, holdHours: int,
                                            property: string, stay: Option<Cancel>, now: int, cal: Calendar)
    ensures var freed := FreedNights(rs, listing, bs, holdHours, property, stay, now);
            Refreshed(rs, listing, bs, freed, StayExclusions(stay), cal, Opened(cal, listing, freed))
  {
    var freed := FreedNights(rs, listing, bs, holdHours, property, stay, now);
    OpenedOpensExactly(cal, listing, freed);
    UnopenedUnchanged(cal, listing, freed);
    HeldNotReopened(rs, bs, holdHours, listing, property, now, StayExclusions(stay));
  }

  /** The first i night sets have been opened, giving this calendar and total. */
  ghost predicate ReopenedTo(start: Calendar, listing: int, sets: seq<set<int>>, i: nat, cal: Calendar, total: int) {
    i <= |sets| && (cal, total) == Reopened(start, listing, sets[..i])
  }

  lemma {:induction false} ReopenNext(start: Calendar, listing: int, sets: seq<set<int>>, i: nat, cal: Calendar,
                                      total: int)
    requires i < |sets| && ReopenedTo(start, listing, sets, i, cal, total)
    ensures ReopenedTo(start, listing, sets, i + 1, Opened(cal, listing, sets[i]),
                       total + |ToOpen(cal, listing, sets[i])|)
  {
    assert sets[..i + 1][..i] == sets[..i];
  }

  lemma {:induction false} ReopenedAll(start: Calendar, listing: int, sets: seq<set<int>>, cal: Calendar, total: int)
    requires ReopenedTo(start, listing, sets, |sets|, cal, total)
    ensures cal == Opened(start, listing, Union(sets)) && total == |ToOpen(start, listing, Union(sets))|
  {
    assert sets[..|sets|] == sets;
    ReopenedIsUnion(start, listing, sets);
  }

  // ----- The service

  predicate KeepsNights(r: Reservation, excludeIds: set<int>) {
    r.hostawayId !in excludeIds && !IsCancelledStay(r.status) && !IsInquiry(r.status)
  }

  ghost predicate HeldBy(rs: seq<Reservation>, excludeIds: set<int>, night: int) {
    exists r :: r in rs && KeepsNights(r, excludeIds) && r.arrival <= night < r.departure
  }

  /** An id excluded by the caller, or of an overlapping stay whose CHECK24 booking has ended. */
  ghost predicate IsExcluded(id: int, exclude: seq<int>, overlapping: seq<Reservation>, bookings: seq<Booking>) {
    || (id > 0 && id in exclude)
    || ((exists r :: r in overlapping && r.hostawayId == id) && LinkedToTerminal(bookings, id))
  }

  lemma {:induction false} ExcludedSnoc(id: int, exclude: seq<int>, overlapping: seq<Reservation>,
                                        bookings: seq<Booking>, row: Booking)
    ensures IsExcluded(id, exclude, overlapping, bookings + [row]) <==>
            || IsExcluded(id, exclude, overlapping, bookings)
            || (id != 0 && LinkedTo(row, id) && exists r :: r in overlapping && r.hostawayId == id)
  {
    assert LinkedToTerminal(bookings + [row], id) <==>
           LinkedToTerminal(bookings, id) || (id != 0 && LinkedTo(row, id)) by {
      assert row in bookings + [row];
      assert forall b :: b in bookings ==> b in bookings + [row];
    }
  }

  /** The overlap query loses no blocker of any night in the range. */
  lemma {:induction false} OverlapLosesNoBlocker(rs: seq<Reservation>, listing: int, bookings: seq<Booking>, from: int,
                                                 to: int,
                              exclude: seq<int>, excludeIds: set<int>, night: int)
    requires from <= night < to
    requires forall id :: id in excludeIds <==> IsExcluded(id, exclude, Overlapping(rs, listing, from, to), bookings)
    ensures HeldBy(Overlapping(rs, listing, from, to), excludeIds, night) <==>
            Held(rs, listing, bookings, Elements(exclude), night)
  {
    var overlapping := Overlapping(rs, listing, from, to);
    forall r | r in rs && r.listing == listing && r.arrival <= night < r.departure
      ensures r in overlapping && (KeepsNights(r, excludeIds) <==> Blocks(r, listing, bookings, Elements(exclude)))
    {
      assert r.hostawayId in excludeIds <==> IsExcluded(r.hostawayId, exclude, overlapping, bookings);
    }
  }

  class Check24SyncService {
    var calendar: Calendar
    var reservations: seq<Reservation>
    var bookings: seq<Booking>        // most recently updated first
    var holdHours: int                // CHECK24_CANCEL_FORCE_OPEN_HOURS
    var pushes: seq<Push>

    constructor (reservations: seq<Reservation>, bookings: seq<Booking>, calendar: Calendar, holdHours: int)
      ensures this.reservations == reservations && this.bookings == bookings
      ensures this.calendar == calendar && this.holdHours == holdHours && pushes == []
    {
      this.reservations, this.bookings, this.calendar := reservations, bookings, calendar;
      this.holdHours, pushes := holdHours, [];
    }

    method ExcludedIds(overlapping: seq<Reservation>, exclude: seq<int>) returns (excludeIds: set<int>)
      ensures forall id :: id in excludeIds <==> IsExcluded(id, exclude, overlapping, bookings)
    {
      excludeIds := set id | id in exclude && id > 0;
      var overlappingIds := set r | r in overlapping :: r.hostawayId;
      var i := 0;
      while i < |bookings|
        invariant 0 <= i <= |bookings|
        invariant forall id :: id in excludeIds <==> IsExcluded(id, exclude, overlapping, bookings[..i])
      {
        var row := bookings[i];
        assert bookings[..i + 1] == bookings[..i] + [row];
        forall id ensures IsExcluded(id, exclude, overlapping, bookings[..i + 1]) <==>
          || IsExcluded(id, exclude, overlapping, bookings[..i])
          || (id != 0 && LinkedTo(row, id) && id in overlappingIds)
        {
          ExcludedSnoc(id, exclude, overlapping, bookings[..i], row);
        }
        if IsTerminalBooking(row.status) && row.hostawayReservationId.Some? {
          var id := row.hostawayReservationId.value;
          if id in overlappingIds && id != 0 {
            excludeIds := excludeIds + {id};
          }
        }
        i := i + 1;
      }
      assert bookings[..i] == bookings;
    }

    method BlockedNights(overlapping: seq<Reservation>, excludeIds: set<int>) returns (blocked: set<int>)
      ensures forall d :: d in blocked <==> HeldBy(overlapping, excludeIds, d)
    {
      blocked := {};
      var i := 0;
      while i < |overlapping|
        invariant 0 <= i <= |overlapping|
        invariant forall d :: d in blocked <==> HeldBy(overlapping[..i], excludeIds, d)
      {
        var r := overlapping[i];
        assert overlapping[..i + 1] == overlapping[..i] + [r];
        if KeepsNights(r, excludeIds) {
          var nights := EachNight(r.arrival, r.departure);
          NightsMembers(r.arrival, r.departure);
          blocked := blocked + set d | d in nights;
        }
        i := i + 1;
      }
      assert overlapping[..i] == overlapping;
    }

    /** Opens exactly the nights of [dateFrom, dateTo) that no blocking reservation holds and
        changes nothing else; the result is the number of nights that were not open before. */
    method ForceOpenCalendarRange(listing: int, dateFrom: int, dateTo: int, exclude: seq<int>) returns (touched: nat)
      modifies this`calendar
      ensures calendar == Opened(old(calendar), listing,
                                 FreeNights(reservations, listing, bookings, Elements(exclude), dateFrom, dateTo))
      ensures touched == |ToOpen(old(calendar), listing,
                                 FreeNights(reservations, listing, bookings, Elements(exclude), dateFrom, dateTo))|
      ensures OpensExactly(old(calendar), calendar, listing,
                           FreeNights(reservations, listing, bookings, Elements(exclude), dateFrom, dateTo))
    {
      ghost var free := FreeNights(reservations, listing, bookings, Elements(exclude), dateFrom, dateTo);
      OpenedOpensExactly(calendar, listing, free);
      var nights := EachNight(dateFrom, dateTo);
      touched := 0;
      if |nights| == 0 {
        assert free == {};
        NothingToOpen(calendar, listing);
        return;
      }
      var overlapping := Overlapping(reservations, listing, dateFrom, dateTo);
      var excludeIds := ExcludedIds(overlapping, exclude);
      var blocked := BlockedNights(overlapping, excludeIds);
      forall d | dateFrom <= d < dateTo ensures d in blocked <==> d !in free {
        OverlapLosesNoBlocker(reservations, listing, bookings, dateFrom, dateTo, exclude, excludeIds, d);
      }
      touched := OpenEach(listing, nights, blocked);
      assert free == set d | d in nights && d !in blocked by { NightsMembers(dateFrom, dateTo); }
    }

    method OpenEach(listing: int, nights: seq<int>, blocked: set<int>) returns (touched: nat)
      modifies this`calendar
      ensures calendar == Opened(old(calendar), listing, set d | d in nights && d !in blocked)
      ensures touched == |ToOpen(old(calendar), listing, set d | d in nights && d !in blocked)|
    {
      touched := 0;
      NothingToOpen(calendar, listing);
      var i := 0;
      ghost var done: set<int> := {};
      while i < |nights|
        invariant 0 <= i <= |nights|
        invariant done == set d | d in nights[..i] && d !in blocked
        invariant calendar == Opened(old(calendar), listing, done)
        invariant touched == |ToOpen(old(calendar), listing, done)|
      {
        var night := nights[i];
        assert nights[..i + 1] == nights[..i] + [night];
        if night !in blocked {
          var slot := Slot(listing, night);
          OpenedTwice(old(calendar), listing, done, {night});
          ToOpenTwice(old(calendar), listing, done, {night});
          OneNight(calendar, listing, night);
          if slot !in calendar {
            calendar := calendar[slot := CalendarDay(true, None, None)];
            touched := touched + 1;
          } else if !calendar[slot].isAvailable {
            calendar := calendar[slot := calendar[slot].(isAvailable := true)];
            touched := touched + 1;
          }
          done := done + {night};
        }
        i := i + 1;
      }
      assert nights[..i] == nights;
    }

    method ReopenBooking(listing: int, row: Booking) returns (touched: nat)
      modifies this`calendar
      ensures calendar == Opened(old(calendar), listing, RowNights(reservations, bookings, listing, row))
      ensures touched == |ToOpen(old(calendar), listing, RowNights(reservations, bookings, listing, row))|
    {
      touched := 0;
      NothingToOpen(calendar, listing);
      if row.dateFrom.None? || row.dateTo.None? { return; }
      touched := ForceOpenCalendarRange(listing, row.dateFrom.value, row.dateTo.value, OwnReservation(row));
    }

    /** Reopens the stays of recent cancellations; the total counts every newly opened night
        once, whatever the order and overlap of the stays. */
    method ApplyRecentCancelForceOpens(listing: int, property: string, now: int) returns (total: nat)
      modifies this`calendar
      ensures calendar == Opened(old(calendar), listing,
                                 Union(RecentNights(reservations, bookings, holdHours, listing, property, now)))
      ensures total == |ToOpen(old(calendar), listing,
                               Union(RecentNights(reservations, bookings, holdHours, listing, property, now)))|
    {
      var cancels := LoadRecentCancels(property, now);
      total := ReopenEach(listing, cancels);
    }

    method LoadRecentCancels(property: string, now: int) returns (cancels: seq<Booking>)
      ensures cancels == RecentRows(bookings, holdHours, property, now)
    {
      if holdHours <= 0 { return []; }
      cancels := FirstHundred(RecentCancels(bookings, property, now - holdHours * MS_PER_HOUR));
    }

    method ReopenEach(listing: int, cancels: seq<Booking>) returns (total: nat)
      modifies this`calendar
      ensures var nights := Union(RowsNights(reservations, bookings, listing, cancels));
              calendar == Opened(old(calendar), listing, nights) && total == |ToOpen(old(calendar), listing, nights)|
    {
      ghost var start, sets := calendar, RowsNights(reservations, bookings, listing, cancels);
      total := 0;
      var i := 0;
      while i < |cancels|
        invariant 0 <= i <= |cancels|
        invariant ReopenedTo(start, listing, sets, i, calendar, total)
      {
        ReopenNext(start, listing, sets, i, calendar, total);
        var touched := ReopenBooking(listing, cancels[i]);
        total := total + touched;
        i := i + 1;
      }
      ReopenedAll(start, listing, sets, calendar, total);
    }

    method LoadDays(listing: int, today: int) returns (days: seq<LocalCalendarDay>)
      ensures IsCalendarFrom(days, calendar, listing, today)
    {
      var keys := set s | s in calendar.Keys && s.listing == listing && s.date >= today;
      days := [];
      ghost var taken: set<Slot> := {};
      while keys != {}
        invariant forall s :: s in keys || s in taken <==> s in calendar.Keys && s.listing == listing && s.date >= today
        invariant keys !! taken
        invariant forall x :: x in days <==>
                    Slot(listing, x.date) in taken && x == Row(x.date, calendar[Slot(listing, x.date)])
        invariant forall i, j :: 0 <= i < j < |days| ==> days[i].date != days[j].date
        decreases |keys|
      {
        var s :| s in keys;
        days := days + [Row(s.date, calendar[s])];
        keys, taken := keys - {s}, taken + {s};
      }
    }

    /** Reopens recent cancellations and pushes the listing's calendar from today on. */
    method SyncListingAvailability(listing: int, property: string, now: int, today: int, pushSucceeds: bool)
      returns (ok: bool)
      modifies this`calendar, this`pushes
      ensures calendar == Opened(old(calendar), listing,
                                 Union(RecentNights(reservations, bookings, holdHours, listing, property, now)))
      ensures ok ==> Published(calendar, listing, today, old(pushes), pushes)
      ensures !ok ==> pushes == old(pushes)
    {
      var total := ApplyRecentCancelForceOpens(listing, property, now);
      var days := LoadDays(listing, today);
      var ranges := BuildAvailabilityRanges(days);
      RangesPublish(days, calendar, listing, today, ranges);
      if |ranges| == 0 { return true; }
      if !pushSucceeds { return false; }
      pushes := pushes + [Push(listing, ranges)];
      ok := true;
    }

    /** After a cancel push every free night of the stay from today on is sent as open, and a
        night held by another active reservation is as the Hostaway calendar left it. */
    method RefreshAndPushAvailability(listing: int, property: string, configured: bool, offline: bool,
                                      synced: Option<Calendar>, stay: Option<Cancel>, now: int, today: int,
                                        pushSucceeds: bool)
      returns (pushed: bool)
      modifies this`calendar, this`pushes
      ensures !configured || offline || synced.None? ==> !pushed && calendar == old(calendar) && pushes == old(pushes)
      ensures configured && !offline && synced.Some? ==>
        Refreshed(reservations, listing, bookings,
                  FreedNights(reservations, listing, bookings, holdHours, property, stay, now),
                  StayExclusions(stay), synced.value, calendar)
      ensures pushed ==>
        && Published(calendar, listing, today, old(pushes), pushes)
        && SendsOpen(FreedNights(reservations, listing, bookings, holdHours, property, stay, now), synced.value,
                     listing,
                     today, old(pushes), pushes)
    {
      if !configured || offline || synced.None? { return false; }
      calendar := synced.value;
      NothingToOpen(calendar, listing);
      if stay.Some? {
        var forced := ForceOpenCalendarRange(listing, stay.value.from, stay.value.to, stay.value.exclude);
      }
      OpenedTwice(synced.value, listing, OptionalNights(reservations, listing, bookings, stay),
                  Union(RecentNights(reservations, bookings, holdHours, listing, property, now)));
      pushed := SyncListingAvailability(listing, property, now, today, pushSucceeds);
      ghost var freed := FreedNights(reservations, listing, bookings, holdHours, property, stay, now);
      FreedIsRefreshed(reservations, listing, bookings, holdHours, property, stay, now, synced.value);
      if pushed {
        FreedNightsAreSent(synced.value, listing, freed, today, old(pushes), pushes);
      }
    }
  }

  /** Opening a single night is one row update, or none when the night is open. */
  lemma {:induction false} OneNight(cal: Calendar, listing: int, night: int)
    ensures var s := Slot(listing, night);
            && Opened(cal, listing, {night}) == (if IsOpen(cal, s) then cal else cal[s := OpenRow(cal, s)])
            && |ToOpen(cal, listing, {night})| == (if IsOpen(cal, s) then 0 else 1)
  {
    var s := Slot(listing, night);
    assert Slots(listing, {night}) == {s};
    assert ToOpen(cal, listing, {night}) == if IsOpen(cal, s) then {} else {night};
  }
}
