/** Which nights a cancelled stay gives back, and what opening nights in the calendar does.
    Everything here is a value; Check24Sync.dfy has the service that changes the tables. */
module Reopening {
  import opened Wrappers

  /** Key of a calendarDay row: one listing, one date. */
  datatype Slot = Slot(listing: int, date: int)

  datatype CalendarDay = CalendarDay(isAvailable: bool, minNights: Option<int>, price: Option<int>)

  type Calendar = map<Slot, CalendarDay>

  /** A local reservation; the status is in lower case. */
  datatype Reservation = Reservation(hostawayId: int, listing: int, arrival: int, departure: int, status: string)

  /** A check24Booking row, with the stay dates read from its payload when they are there. */
  datatype Booking = Booking(
    propertyId: string,
    status: string,
    hostawayReservationId: Option<int>,
    processedAt: Option<int>,
    updatedAt: int,
    dateFrom: Option<int>,
    dateTo: Option<int>)

  predicate IsTerminalBooking(status: string) {
    status in {"cancelled", "canceled", "declined", "failed"}
  }

  predicate IsCancelledStay(status: string) {
    status in {"cancelled", "canceled", "declined", "expired", "inquirydenied", "inquirytimedout", "inquirynotpossible"}
  }

  predicate IsInquiry(status: string) {
    "inquiry" <= status
  }

  // ----- Held nights

  predicate LinkedTo(b: Booking, id: int) {
    IsTerminalBooking(b.status) && b.hostawayReservationId == Some(id)
  }

  ghost predicate LinkedToTerminal(bookings: seq<Booking>, id: int) {
    id != 0 && exists b :: b in bookings && IsTerminalBooking(b.status) && b.hostawayReservationId == Some(id)
  }

  /** The reservation keeps its nights closed: it is neither excluded, cancelled, an inquiry,
      nor linked to a CHECK24 booking that has ended. */
  ghost predicate Blocks(r: Reservation, listing: int, bookings: seq<Booking>, excluded: set<int>) {
    && r.listing == listing
    && !(r.hostawayId > 0 && r.hostawayId in excluded)
    && !LinkedToTerminal(bookings, r.hostawayId)
    && !IsCancelledStay(r.status)
    && !IsInquiry(r.status)
  }

  ghost predicate Held(reservations: seq<Reservation>, listing: int, bookings: seq<Booking>, excluded: set<int>,
                       night: int)
  {
    exists r :: r in reservations && Blocks(r, listing, bookings, excluded) && r.arrival <= night < r.departure
  }

  /** The nights of [from, to) that no blocking reservation holds. */
  ghost function FreeNights(reservations: seq<Reservation>, listing: int, bookings: seq<Booking>, excluded: set<int>,
                            from: int, to: int): set<int> {
    set d | from <= d < to && !Held(reservations, listing, bookings, excluded, d)
  }

  /** Excluding fewer reservations frees fewer nights. */
  lemma {:induction false} FewerExcludedFewerFree(reservations: seq<Reservation>, listing: int, bookings: seq<Booking>,
                               less: set<int>, more: set<int>, night: int)
    requires less <= more && Held(reservations, listing, bookings, more, night)
    ensures Held(reservations, listing, bookings, less, night)
  {
    var r :| r in reservations && Blocks(r, listing, bookings, more) && r.arrival <= night < r.departure;
    assert Blocks(r, listing, bookings, less);
  }

  // ----- Opening nights

  predicate IsOpen(cal: Calendar, s: Slot) {
    s in cal && cal[s].isAvailable
  }

  /** The row of a night once it is opened: a missing row is created, price and minimum stay
      of an existing one are kept. */
  function OpenRow(cal: Calendar, s: Slot): CalendarDay {
    if s in cal then cal[s].(isAvailable := true) else CalendarDay(true, None, None)
  }

  ghost function Slots(listing: int, nights: set<int>): set<Slot> {
    set d | d in nights :: Slot(listing, d)
  }

  ghost function Opened(cal: Calendar, listing: int, nights: set<int>): Calendar {
    map s | s in cal.Keys + Slots(listing, nights) :: if s in Slots(listing, nights) then OpenRow(cal, s) else cal[s]
  }

  /** After opening: every row there was is there, with its price and minimum stay, and open if it
      was or if its night is among those opened; each of these nights has a row, a new one without
      price and minimum stay if there was none; no other row is there. */
  ghost predicate OpensExactly(before: Calendar, after: Calendar, listing: int, nights: set<int>) {
    && (forall s: Slot :: s in after <==> s in before || (s.listing == listing && s.date in nights))
    && (forall s: Slot :: s in before && s in after ==>
          && after[s].price == before[s].price && after[s].minNights == before[s].minNights
          && (after[s].isAvailable <==> before[s].isAvailable || (s.listing == listing && s.date in nights)))
    && (forall s: Slot :: s !in before && s in after ==> after[s] == CalendarDay(true, None, None))
  }

  lemma {:induction false} OpenedOpensExactly(cal: Calendar, listing: int, nights: set<int>)
    ensures OpensExactly(cal, Opened(cal, listing, nights), listing, nights)
  {
  }

  /** The nights that opening would change. */
  ghost function ToOpen(cal: Calendar, listing: int, nights: set<int>): set<int> {
    set d | d in nights && !IsOpen(cal, Slot(listing, d))
  }

  /** Opening twice is opening the union; nothing depends on the order. */
  lemma {:induction false} OpenedTwice(cal: Calendar, listing: int, s: set<int>, t: set<int>)
    ensures Opened(Opened(cal, listing, s), listing, t) == Opened(cal, listing, s + t)
  {
    var l, r := Opened(Opened(cal, listing, s), listing, t), Opened(cal, listing, s + t);
    assert Slots(listing, s + t) == Slots(listing, s) + Slots(listing, t);
    assert l.Keys == r.Keys;
  }

  /** Nights opened by the first pass are not counted by the second. */
  lemma {:induction false} ToOpenTwice(cal: Calendar, listing: int, s: set<int>, t: set<int>)
    ensures |ToOpen(cal, listing, s)| + |ToOpen(Opened(cal, listing, s), listing, t)| == |ToOpen(cal, listing, s + t)|
  {
    var a, b := ToOpen(cal, listing, s), ToOpen(Opened(cal, listing, s), listing, t);
    forall d ensures d in b <==> d in ToOpen(cal, listing, t) && d !in s {
      OpenAfter(cal, listing, s, d);
    }
    assert a !! b;
    assert a + b == ToOpen(cal, listing, s + t);
  }

  lemma {:induction false} OpenAfter(cal: Calendar, listing: int, s: set<int>, d: int)
    ensures IsOpen(Opened(cal, listing, s), Slot(listing, d)) <==> d in s || IsOpen(cal, Slot(listing, d))
  {
    assert Slot(listing, d) in Slots(listing, s) <==> d in s;
  }

  /** Opening is idempotent, and a second pass over the same nights changes none of them. */
  lemma {:induction false} OpenedIdempotent(cal: Calendar, listing: int, s: set<int>)
    ensures Opened(Opened(cal, listing, s), listing, s) == Opened(cal, listing, s)
    ensures ToOpen(Opened(cal, listing, s), listing, s) == {}
  {
    OpenedTwice(cal, listing, s, s);
    assert s + s == s;
    forall d ensures d !in ToOpen(Opened(cal, listing, s), listing, s) {
      OpenAfter(cal, listing, s, d);
    }
  }

  // ----- Several cancellations

  /** All nights of a list of night sets. */
  ghost function Union(sets: seq<set<int>>): set<int> {
    set i, d | 0 <= i < |sets| && d in sets[i] :: d
  }

  /** The calendar and the total after opening the night sets one after the other. */
  ghost function Reopened(cal: Calendar, listing: int, sets: seq<set<int>>): (Calendar, nat) {
    if sets == [] then (cal, 0)
    else
      var before := Reopened(cal, listing, sets[..|sets| - 1]);
      var nights := sets[|sets| - 1];
      (Opened(before.0, listing, nights), before.1 + |ToOpen(before.0, listing, nights)|)
  }

  lemma {:induction false} NothingToOpen(cal: Calendar, listing: int)
    ensures Opened(cal, listing, {}) == cal && ToOpen(cal, listing, {}) == {}
  {
  }

  lemma {:induction false} UnionSnoc(sets: seq<set<int>>)
    requires sets != []
    ensures Union(sets) == Union(sets[..|sets| - 1]) + sets[|sets| - 1]
  {
    var init, last := sets[..|sets| - 1], sets[|sets| - 1];
    assert forall i :: 0 <= i < |init| ==> init[i] == sets[i];
    forall d ensures d in Union(sets) <==> d in Union(init) + last {
      if d in Union(init) {
        var i :| 0 <= i < |init| && d in init[i];
        assert d in sets[i];
      }
      if d in Union(sets) {
        var i :| 0 <= i < |sets| && d in sets[i];
        assert i < |init| ==> d in init[i];
      }
    }
  }

  /** One after the other is all at once: the total is the number of nights newly opened, and
      a night in several stays is counted once. */
  lemma {:induction false} ReopenedIsUnion(cal: Calendar, listing: int, sets: seq<set<int>>)
    ensures Reopened(cal, listing, sets) == (Opened(cal, listing, Union(sets)), |ToOpen(cal, listing, Union(sets))|)
  {
    if sets == [] {
      NothingToOpen(cal, listing);
      assert Union(sets) == {};
    } else {
      var init, last := sets[..|sets| - 1], sets[|sets| - 1];
      ReopenedIsUnion(cal, listing, init);
      UnionSnoc(sets);
      OpenedTwice(cal, listing, Union(init), last);
      ToOpenTwice(cal, listing, Union(init), last);
    }
  }

  /** Any processing order, with any repetitions, gives the same calendar and the same total. */
  lemma {:induction false} ReopeningOrderIrrelevant(cal: Calendar, listing: int, s: seq<set<int>>, t: seq<set<int>>)
    requires forall x :: x in s <==> x in t
    ensures Reopened(cal, listing, s) == Reopened(cal, listing, t)
  {
    ReopenedIsUnion(cal, listing, s);
    ReopenedIsUnion(cal, listing, t);
    UnionByMembers(s, t);
    UnionByMembers(t, s);
    assert Union(s) == Union(t);
  }

  lemma {:induction false} UnionByMembers(s: seq<set<int>>, t: seq<set<int>>)
    requires forall x :: x in s ==> x in t
    ensures Union(s) <= Union(t)
  {
    forall d | d in Union(s) ensures d in Union(t) {
      var i :| 0 <= i < |s| && d in s[i];
      assert s[i] in t;
    }
  }
}
