/** What the answers of the availability search hold: which listings, in which order, and what the
    counts count. */
module AvailabilityAnswers {
  import opened Wrappers
  import opened Pigeonhole
  import opened CalendarRanges
  import opened Weekends
  import opened Availability
  import opened AvailabilitySearch

  // ----- The two filters

  lemma {:induction false} FilterMembers(items: seq<Item>, x: Item)
    ensures x in AvailableItems(items) <==> x in items && x.available
    ensures x in UnavailableItems(items) <==> x in items && !x.available
  {
    if items != [] {
      assert items == items[..|items| - 1] + [items[|items| - 1]];
      FilterMembers(items[..|items| - 1], x);
    }
  }

  /** Together the filters lose nothing and double nothing. */
  lemma {:induction false} FiltersSplit(items: seq<Item>)
    ensures multiset(AvailableItems(items)) + multiset(UnavailableItems(items)) == multiset(items)
  {
    if items != [] {
      assert items == items[..|items| - 1] + [items[|items| - 1]];
      FiltersSplit(items[..|items| - 1]);
    }
  }

  /** The filters keep the order: what comes first is filtered first. */
  lemma {:induction false} FiltersKeepOrder(a: seq<Item>, b: seq<Item>)
    ensures AvailableItems(a + b) == AvailableItems(a) + AvailableItems(b)
    ensures UnavailableItems(a + b) == UnavailableItems(a) + UnavailableItems(b)
  {
    if b == [] {
      assert a + b == a;
    } else {
      FiltersKeepOrder(a, b[..|b| - 1]);
      assert (a + b)[..|a + b| - 1] == a + b[..|b| - 1];
    }
  }

  ghost function AvailableAt(items: seq<Item>): set<int> {
    set i | 0 <= i < |items| && items[i].available
  }

  lemma {:induction false} AvailableCount(items: seq<Item>)
    ensures |AvailableItems(items)| == |AvailableAt(items)|
  {
    if items == [] {
      assert AvailableAt(items) == {};
    } else {
      var n := |items| - 1;
      AvailableCount(items[..n]);
      assert AvailableAt(items) == if items[n].available then AvailableAt(items[..n]) + {n}
             else AvailableAt(items[..n]);
    }
  }

  // ----- One stay

  /** Asked for available listings only, a search answers with the verdicts of exactly the
      candidates that can be booked for every night. */
  lemma {:induction false} SearchFinds(rows: seq<CalendarRow>, listings: seq<int>, checkIn: int, checkOut: int, x: Item)
    ensures x in SearchResult(rows, listings, checkIn, checkOut, true) <==>
            exists i :: 0 <= i < |listings| && Bookable(rows, listings[i], Nights(checkIn, checkOut))
                        && x == Verdict(rows, listings[i], Nights(checkIn, checkOut))
  {
    var nights := Nights(checkIn, checkOut);
    var items := Verdicts(rows, listings, nights);
    FilterMembers(items, x);
    assert AvailableItems(items) + [] == AvailableItems(items);
    if x in items && x.available {
      var i :| 0 <= i < |items| && items[i] == x;
      assert Bookable(rows, listings[i], nights) && x == Verdict(rows, listings[i], nights);
    }
    if i: int :| 0 <= i < |listings| && Bookable(rows, listings[i], nights) && x == Verdict(rows, listings[i], nights) {
      assert items[i] == x;
    }
  }

  /** Otherwise it answers with the verdicts on all candidates, the available ones first. */
  lemma {:induction false} SearchOrders(rows: seq<CalendarRow>, listings: seq<int>, checkIn: int, checkOut: int)
    ensures var answer := SearchResult(rows, listings, checkIn, checkOut, false);
            && multiset(answer) == multiset(Verdicts(rows, listings, Nights(checkIn, checkOut)))
            && forall i, j :: 0 <= i < j < |answer| && answer[j].available ==> answer[i].available
  {
    var items := Verdicts(rows, listings, Nights(checkIn, checkOut));
    FiltersSplit(items);
    var answer := AvailableItems(items) + UnavailableItems(items);
    forall i | 0 <= i < |answer| ensures answer[i].available <==> i < |AvailableItems(items)| {
      FilterMembers(items, answer[i]);
    }
  }

  ghost function UnknownAt(items: seq<Item>): set<int> {
    set i | 0 <= i < |items| && items[i].unknown
  }

  /** The number of unknown verdicts is that of candidates whose cache lacks a night. */
  lemma {:induction false} UnknownCount(items: seq<Item>)
    ensures CountUnknown(items) == |UnknownAt(items)|
  {
    if items == [] {
      assert UnknownAt(items) == {};
    } else {
      var n := |items| - 1;
      UnknownCount(items[..n]);
      assert UnknownAt(items) == if items[n].unknown then UnknownAt(items[..n]) + {n} else UnknownAt(items[..n]);
    }
  }

  // ----- Weekends

  ghost function BookableOn(rows: seq<CalendarRow>, listings: seq<int>, w: Weekend): set<int> {
    set i | 0 <= i < |listings| && Bookable(rows, listings[i], Nights(w.checkIn, w.checkOut))
  }

  /** A slot is of its weekend, counts the candidates that can be booked for it, and lists them, or
      all verdicts when not only available ones are asked for. */
  lemma {:induction false} SlotSays(rows: seq<CalendarRow>, listings: seq<int>, w: Weekend, availableOnly: bool,
                                    x: Item)
    ensures var slot := SlotOf(rows, listings, w, availableOnly);
            && slot.checkIn == w.checkIn && slot.checkOut == w.checkOut
            && slot.availableCount == |BookableOn(rows, listings, w)|
            && (!availableOnly ==> slot.items == Verdicts(rows, listings, Nights(w.checkIn, w.checkOut)))
            && (availableOnly ==>
                  (x in slot.items <==> exists i :: i in BookableOn(rows, listings, w)
                                                    && x == Verdict(rows, listings[i], Nights(w.checkIn, w.checkOut))))
  {
    var items := Verdicts(rows, listings, Nights(w.checkIn, w.checkOut));
    AvailableCount(items);
    assert AvailableAt(items) == BookableOn(rows, listings, w);
    assert AvailableItems(items) + [] == AvailableItems(items);
    SearchFinds(rows, listings, w.checkIn, w.checkOut, x);
    if x in SearchResult(rows, listings, w.checkIn, w.checkOut, true) {
      var i :| 0 <= i < |listings| && Bookable(rows, listings[i], Nights(w.checkIn, w.checkOut))
               && x == Verdict(rows, listings[i], Nights(w.checkIn, w.checkOut));
      assert i in BookableOn(rows, listings, w);
    }
  }

  /** The answer has the slot of every weekend, or of every weekend with something free. */
  lemma {:induction false} SlotsKept(rows: seq<CalendarRow>, listings: seq<int>, ws: seq<Weekend>, availableOnly: bool,
                                     x: Slot)
    ensures x in Slots(rows, listings, ws, availableOnly) <==>
            exists w :: w in ws && x == SlotOf(rows, listings, w, availableOnly)
                        && (availableOnly ==> BookableOn(rows, listings, w) != {})
    ensures !availableOnly ==> |Slots(rows, listings, ws, availableOnly)| == |ws|
  {
    if ws != [] {
      var init, last := ws[..|ws| - 1], ws[|ws| - 1];
      assert ws == init + [last];
      SlotsKept(rows, listings, init, availableOnly, x);
      SlotSays(rows, listings, last, availableOnly, Item(0, false, false));
      SlotAdded(rows, listings, init, last, availableOnly, x);
    }
  }

  lemma {:induction false} SlotAdded(rows: seq<CalendarRow>, listings: seq<int>, init: seq<Weekend>, last: Weekend,
                                     availableOnly: bool, x: Slot)
    ensures (exists w :: w in init + [last] && IsSlotOf(rows, listings, w, availableOnly, x)) <==>
            (exists w :: w in init && IsSlotOf(rows, listings, w, availableOnly, x))
            || IsSlotOf(rows, listings, last, availableOnly, x)
  {
    if w :| w in init && IsSlotOf(rows, listings, w, availableOnly, x) { assert w in init + [last]; }
    if IsSlotOf(rows, listings, last, availableOnly, x) { assert last in init + [last]; }
  }

  ghost predicate IsSlotOf(rows: seq<CalendarRow>, listings: seq<int>, w: Weekend, availableOnly: bool, x: Slot) {
    x == SlotOf(rows, listings, w, availableOnly) && (availableOnly ==> BookableOn(rows, listings, w) != {})
  }

  /** The slots come in the order of their weekends: a later weekend's slot is appended. */
  lemma {:induction false} SlotsKeepOrder(rows: seq<CalendarRow>, listings: seq<int>, ws: seq<Weekend>, w: Weekend,
                                          availableOnly: bool)
    ensures Slots(rows, listings, ws + [w], availableOnly) ==
            Slots(rows, listings, ws, availableOnly) + Slots(rows, listings, [w], availableOnly)
  {
    assert (ws + [w])[..|ws|] == ws;
    assert [w][..0] == [];
  }

  ghost function FreeAt(slots: seq<Slot>): set<int> {
    set i | 0 <= i < |slots| && slots[i].availableCount > 0
  }

  lemma {:induction false} WithAvailabilityCounts(slots: seq<Slot>)
    ensures WithAvailability(slots) == |FreeAt(slots)|
  {
    if slots == [] {
      assert FreeAt(slots) == {};
    } else {
      var n := |slots| - 1;
      WithAvailabilityCounts(slots[..n]);
      assert FreeAt(slots) == if slots[n].availableCount > 0 then FreeAt(slots[..n]) + {n} else FreeAt(slots[..n]);
    }
  }

  /** The incomplete candidates are those whose cache lacks some night of some weekend. */
  lemma {:induction false} UnknownMembers(rows: seq<CalendarRow>, listings: seq<int>, ws: seq<Weekend>, listing: int)
    ensures listing in UnknownSomewhere(rows, listings, ws) <==>
            listing in listings && exists k :: 0 <= k < |ws| && LacksNight(rows, listing, ws[k])
  {
    if ws != [] {
      var n := |ws| - 1;
      UnknownMembers(rows, listings, ws[..n], listing);
      if listing in UnknownOn(rows, listings, ws[n]) {
        assert LacksNight(rows, listing, ws[n]);
      }
      if k :| 0 <= k < |ws| && LacksNight(rows, listing, ws[k]) && listing in listings {
        if k < n { assert LacksNight(rows, listing, ws[..n][k]); }
      }
      if k :| 0 <= k < n && LacksNight(rows, listing, ws[..n][k]) { assert LacksNight(rows, listing, ws[k]); }
    }
  }

  ghost predicate LacksNight(rows: seq<CalendarRow>, listing: int, w: Weekend) {
    exists d :: d in Nights(w.checkIn, w.checkOut) && forall r :: r in rows ==> !(r.listing == listing && r.date == d)
  }
}
