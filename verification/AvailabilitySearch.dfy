/** The two searches: one stay, and all weekends of a period from one load of the calendar. The
    second says of every weekend what the first would. */
module AvailabilitySearch {
  import opened Wrappers
  import opened Pigeonhole
  import opened CalendarRanges
  import opened Weekends
  import opened Availability

  // ----- Loading and indexing the cache

  /** The calendar query: rows of the candidates on the given dates. */
  function CachedDays(rows: seq<CalendarRow>, listings: seq<int>, dates: set<int>): seq<CalendarRow> {
    if rows == [] then []
    else
      var last := rows[|rows| - 1];
      CachedDays(rows[..|rows| - 1], listings, dates) +
        if last.listing in listings && last.date in dates then [last] else []
  }

  function OfListing(rows: seq<CalendarRow>, listing: int): seq<CalendarRow> {
    if rows == [] then []
    else
      var last := rows[|rows| - 1];
      OfListing(rows[..|rows| - 1], listing) + if last.listing == listing then [last] else []
  }

  function OnDates(rows: seq<CalendarRow>, dates: set<int>): seq<CalendarRow> {
    if rows == [] then []
    else
      var last := rows[|rows| - 1];
      OnDates(rows[..|rows| - 1], dates) + if last.date in dates then [last] else []
  }

  lemma {:induction false} OfListingSnoc(rows: seq<CalendarRow>, r: CalendarRow, listing: int)
    ensures OfListing(rows + [r], listing) == OfListing(rows, listing) + if r.listing == listing then [r] else []
  {
    assert (rows + [r])[..|rows|] == rows;
  }

  lemma {:induction false} OnDatesSnoc(rows: seq<CalendarRow>, r: CalendarRow, dates: set<int>)
    ensures OnDates(rows + [r], dates) == OnDates(rows, dates) + if r.date in dates then [r] else []
  {
    assert (rows + [r])[..|rows|] == rows;
  }

  lemma {:induction false} ListingPart(rows: seq<CalendarRow>, listings: seq<int>, all: set<int>, listing: int)
    requires listing in listings
    ensures OfListing(CachedDays(rows, listings, all), listing) == RowsOn(rows, listing, all)
  {
    if rows != [] {
      var init, last := rows[..|rows| - 1], rows[|rows| - 1];
      ListingPart(init, listings, all, listing);
      var loaded := CachedDays(init, listings, all);
      OfListingSnoc(loaded, last, listing);
      assert loaded + [] == loaded;
      assert RowsOn(init, listing, all) + [] == RowsOn(init, listing, all);
    }
  }

  lemma {:induction false} DatePart(rows: seq<CalendarRow>, listing: int, all: set<int>, stay: set<int>)
    requires stay <= all
    ensures OnDates(RowsOn(rows, listing, all), stay) == RowsOn(rows, listing, stay)
  {
    if rows != [] {
      var init, last := rows[..|rows| - 1], rows[|rows| - 1];
      DatePart(init, listing, all, stay);
      OnDatesSnoc(RowsOn(init, listing, all), last, stay);
      assert RowsOn(init, listing, all) + [] == RowsOn(init, listing, all);
      assert RowsOn(init, listing, stay) + [] == RowsOn(init, listing, stay);
    }
  }

  /** The rows picked for a stay out of a larger load are the rows a load for the stay alone
      would have returned. */
  lemma {:induction false} LoadedEnough(rows: seq<CalendarRow>, listings: seq<int>, all: set<int>, listing: int,
                                        stay: set<int>)
    requires listing in listings && stay <= all
    ensures OnDates(OfListing(CachedDays(rows, listings, all), listing), stay) == RowsOn(rows, listing, stay)
  {
    ListingPart(rows, listings, all, listing);
    DatePart(rows, listing, all, stay);
  }

  ghost predicate IsIndex(index: map<int, seq<CalendarRow>>, cached: seq<CalendarRow>) {
    forall l :: OfListing(cached, l) == if l in index then index[l] else []
  }

  method IndexCalendarDays(cached: seq<CalendarRow>) returns (daysByListing: map<int, seq<CalendarRow>>)
    ensures IsIndex(daysByListing, cached)
  {
    daysByListing := map[];
    var i := 0;
    while i < |cached|
      invariant 0 <= i <= |cached| && IsIndex(daysByListing, cached[..i])
    {
      var day := cached[i];
      assert cached[..i + 1] == cached[..i] + [day];
      forall l
        ensures OfListing(cached[..i + 1], l) == OfListing(cached[..i], l) + if day.listing == l then [day] else []
      {
        OfListingSnoc(cached[..i], day, l);
      }
      var bucket := if day.listing in daysByListing then daysByListing[day.listing] else [];
      daysByListing := daysByListing[day.listing := bucket + [day]];
      i := i + 1;
    }
    assert cached[..i] == cached;
  }

  // ----- Evaluating one stay

  method IsStayAvailable(days: seq<CalendarRow>, stayNights: nat) returns (ok: bool)
    ensures ok <==> |days| == stayNights && stayNights >= 1
                    && forall r :: r in days ==> r.isAvailable && MinNights(r) <= stayNights
  {
    if |days| != stayNights { return false; }
    var requiredMin := 1;
    var i := 0;
    while i < |days|
      invariant 0 <= i <= |days| && requiredMin >= 1
      invariant forall j :: 0 <= j < i ==> days[j].isAvailable && MinNights(days[j]) <= requiredMin
      invariant requiredMin == 1 || exists j :: 0 <= j < i && MinNights(days[j]) == requiredMin
    {
      if !days[i].isAvailable { return false; }
      requiredMin := Max(requiredMin, MinNights(days[i]));
      i := i + 1;
    }
    ok := stayNights >= requiredMin;
  }

  /** One listing of the map in evaluateListings. */
  method EvaluateListing(listing: int, allDays: seq<CalendarRow>, nights: seq<int>, ghost rows: seq<CalendarRow>)
    returns (item: Item)
    requires UniqueRows(rows) && Distinct(nights)
    requires OnDates(allDays, Elements(nights)) == RowsOn(rows, listing, Elements(nights))
    ensures item == Verdict(rows, listing, nights)
  {
    var nightKeys := set d | d in nights;
    var days := OnDates(allDays, nightKeys);
    CountMeansCovered(rows, listing, nights);
    RowTestIsBookable(rows, listing, nights);
    var cacheComplete := |days| >= |nights|;
    var stayAvailable := IsStayAvailable(days, |nights|);
    item := Item(listing, cacheComplete && stayAvailable, !cacheComplete);
  }

  ghost predicate Evaluated(rows: seq<CalendarRow>, listings: seq<int>, nights: seq<int>, items: seq<Item>) {
    |items| <= |listings| && forall j :: 0 <= j < |items| ==> items[j] == Verdict(rows, listings[j], nights)
  }

  lemma {:induction false} EvaluatedNext(rows: seq<CalendarRow>, listings: seq<int>, nights: seq<int>, items: seq<Item>)
    requires Evaluated(rows, listings, nights, items) && |items| < |listings|
    ensures Evaluated(rows, listings, nights, items + [Verdict(rows, listings[|items|], nights)])
  {
  }

  lemma {:induction false} EvaluatedAll(rows: seq<CalendarRow>, listings: seq<int>, nights: seq<int>, items: seq<Item>)
    requires Evaluated(rows, listings, nights, items) && |items| == |listings|
    ensures items == Verdicts(rows, listings, nights)
  {
  }

  lemma {:induction false} IndexedDays(index: map<int, seq<CalendarRow>>, rows: seq<CalendarRow>, listings: seq<int>,
                                       all: set<int>,
                                       listing: int, stay: set<int>)
    requires IsIndex(index, CachedDays(rows, listings, all)) && listing in listings && stay <= all
    ensures OnDates(if listing in index then index[listing] else [], stay) == RowsOn(rows, listing, stay)
  {
    LoadedEnough(rows, listings, all, listing, stay);
  }

  method EvaluateListings(listings: seq<int>, daysByListing: map<int, seq<CalendarRow>>, nights: seq<int>,
                          ghost rows: seq<CalendarRow>, ghost all: set<int>) returns (items: seq<Item>)
    requires UniqueRows(rows) && Distinct(nights) && Elements(nights) <= all
    requires IsIndex(daysByListing, CachedDays(rows, listings, all))
    ensures items == Verdicts(rows, listings, nights)
  {
    items := [];
    while |items| < |listings|
      invariant Evaluated(rows, listings, nights, items)
    {
      var listing := listings[|items|];
      IndexedDays(daysByListing, rows, listings, all, listing, Elements(nights));
      var item := EvaluateListing(listing, if listing in daysByListing then daysByListing[listing] else [], nights,
                                  rows);
      EvaluatedNext(rows, listings, nights, items);
      items := items + [item];
    }
    EvaluatedAll(rows, listings, nights, items);
  }

  // ----- Search

  function AvailableItems(items: seq<Item>): seq<Item> {
    if items == [] then []
    else AvailableItems(items[..|items| - 1]) + if items[|items| - 1].available then [items[|items| - 1]] else []
  }

  function UnavailableItems(items: seq<Item>): seq<Item> {
    if items == [] then []
    else UnavailableItems(items[..|items| - 1]) + if items[|items| - 1].available then [] else [items[|items| - 1]]
  }

  /** Available listings first, otherwise in candidate order; only they are kept on request. */
  ghost function SearchResult(rows: seq<CalendarRow>, listings: seq<int>, checkIn: int, checkOut: int,
                              availableOnly: bool): seq<Item>
  {
    var items := Verdicts(rows, listings, Nights(checkIn, checkOut));
    AvailableItems(items) + if availableOnly then [] else UnavailableItems(items)
  }

  lemma {:induction false} NightsDistinct(from: int, to: int)
    ensures Distinct(Nights(from, to)) && forall d :: d in Elements(Nights(from, to)) <==> from <= d < to
  {
    NightsMembers(from, to);
  }

  /** How many verdicts rest on an incomplete cache. */
  function CountUnknown(items: seq<Item>): nat {
    if items == [] then 0 else CountUnknown(items[..|items| - 1]) + if items[|items| - 1].unknown then 1 else 0
  }

  /** One stay; None is the answer to a check-out that is not after the check-in. */
  method Search(rows: seq<CalendarRow>, listings: seq<int>, checkIn: int, checkOut: int, availableOnly: bool)
    returns (results: Option<seq<Item>>, cacheIncomplete: nat)
    requires UniqueRows(rows)
    ensures checkIn < checkOut ==> cacheIncomplete == CountUnknown(Verdicts(rows, listings, Nights(checkIn, checkOut)))
    ensures results == if checkIn < checkOut then Some(SearchResult(rows, listings, checkIn, checkOut, availableOnly))
            else None
  {
    var nights := EachNight(checkIn, checkOut);
    if |nights| == 0 { return None, 0; }
    NightsDistinct(checkIn, checkOut);
    var daysByListing := IndexCalendarDays(CachedDays(rows, listings, set d | d in nights));
    var items := EvaluateListings(listings, daysByListing, nights, rows, Elements(nights));
    cacheIncomplete := CountUnknown(items);
    results := Some(AvailableItems(items) + if availableOnly then [] else UnavailableItems(items));
  }

  // ----- Weekend search

  datatype Slot = Slot(checkIn: int, checkOut: int, availableCount: nat, items: seq<Item>)

  method UniqueDates(dates: seq<int>) returns (out: seq<int>)
    ensures Distinct(out) && Elements(out) == Elements(dates)
  {
    out := [];
    var seen: set<int> := {};
    var i := 0;
    while i < |dates|
      invariant 0 <= i <= |dates|
      invariant Distinct(out) && seen == Elements(out) && seen == Elements(dates[..i])
    {
      var d := dates[i];
      assert Elements(dates[..i + 1]) == Elements(dates[..i]) + {d};
      if d !in seen {
        seen := seen + {d};
        out := out + [d];
      }
      i := i + 1;
    }
    assert dates[..i] == dates;
  }

  /** What search says of the listings free on a weekend. */
  ghost function SlotOf(rows: seq<CalendarRow>, listings: seq<int>, w: Weekend, availableOnly: bool): Slot {
    var free := SearchResult(rows, listings, w.checkIn, w.checkOut, true);
    Slot(w.checkIn, w.checkOut, |free|,
         if availableOnly then free else Verdicts(rows, listings, Nights(w.checkIn, w.checkOut)))
  }

  /** One slot per weekend in order; weekends with nothing free are left out on request. */
  ghost function Slots(rows: seq<CalendarRow>, listings: seq<int>, ws: seq<Weekend>, availableOnly: bool): seq<Slot> {
    if ws == [] then []
    else
      var slot := SlotOf(rows, listings, ws[|ws| - 1], availableOnly);
      Slots(rows, listings, ws[..|ws| - 1], availableOnly) +
        if availableOnly && slot.availableCount == 0 then [] else [slot]
  }

  function WithAvailability(slots: seq<Slot>): nat {
    if slots == [] then 0
    else WithAvailability(slots[..|slots| - 1]) + if slots[|slots| - 1].availableCount > 0 then 1 else 0
  }

  /** The listings whose cache lacks a night of the weekend. */
  ghost function UnknownOn(rows: seq<CalendarRow>, listings: seq<int>, w: Weekend): set<int> {
    set i | 0 <= i < |listings| && Unknown(rows, listings[i], Nights(w.checkIn, w.checkOut)) :: listings[i]
  }

  /** The listings whose cache lacks a night of some weekend. */
  ghost function UnknownSomewhere(rows: seq<CalendarRow>, listings: seq<int>, ws: seq<Weekend>): set<int> {
    if ws == [] then {}
    else UnknownSomewhere(rows, listings, ws[..|ws| - 1]) + UnknownOn(rows, listings, ws[|ws| - 1])
  }

  /** The first i weekends have been looked at. */
  ghost predicate Examined(rows: seq<CalendarRow>, listings: seq<int>, ws: seq<Weekend>, availableOnly: bool, i: nat,
                           slots: seq<Slot>, withAvailability: nat, unknown: set<int>)
  {
    && i <= |ws|
    && slots == Slots(rows, listings, ws[..i], availableOnly)
    && withAvailability == WithAvailability(slots)
    && unknown == UnknownSomewhere(rows, listings, ws[..i])
  }

  lemma {:induction false} ExaminedNext(rows: seq<CalendarRow>, listings: seq<int>, ws: seq<Weekend>,
                                        availableOnly: bool, i: nat,
                                        slots: seq<Slot>, withAvailability: nat, unknown: set<int>)
    requires Examined(rows, listings, ws, availableOnly, i, slots, withAvailability, unknown) && i < |ws|
    ensures var slot := SlotOf(rows, listings, ws[i], availableOnly);
            var more := unknown + UnknownOn(rows, listings, ws[i]);
            if availableOnly && slot.availableCount == 0
            then Examined(rows, listings, ws, availableOnly, i + 1, slots, withAvailability, more)
            else Examined(rows, listings, ws, availableOnly, i + 1, slots + [slot],
                          withAvailability + (if slot.availableCount > 0 then 1 else 0), more)
  {
    var slot := SlotOf(rows, listings, ws[i], availableOnly);
    assert ws[..i + 1][..i] == ws[..i];
    assert (slots + [slot])[..|slots|] == slots;
    assert slots + [] == slots;
  }

  lemma {:induction false} ExaminedAll(rows: seq<CalendarRow>, listings: seq<int>, ws: seq<Weekend>,
                                       availableOnly: bool,
                                       slots: seq<Slot>, withAvailability: nat, unknown: set<int>)
    requires Examined(rows, listings, ws, availableOnly, |ws|, slots, withAvailability, unknown)
    ensures slots == Slots(rows, listings, ws, availableOnly) && withAvailability == WithAvailability(slots)
    ensures unknown == UnknownSomewhere(rows, listings, ws)
  {
    assert ws[..|ws|] == ws;
  }

  /** The dates include every night of every weekend. */
  ghost predicate Covers(ws: seq<Weekend>, dates: set<int>) {
    forall k :: 0 <= k < |ws| ==> Elements(Nights(ws[k].checkIn, ws[k].checkOut)) <= dates
  }

  lemma {:induction false} CoversOne(ws: seq<Weekend>, dates: set<int>, k: int)
    requires Covers(ws, dates) && 0 <= k < |ws|
    ensures Elements(Nights(ws[k].checkIn, ws[k].checkOut)) <= dates
  {
  }

  method AllNights(ws: seq<Weekend>) returns (nights: seq<int>)
    ensures Distinct(nights) && Covers(ws, Elements(nights))
  {
    var dates := [];
    var i := 0;
    while i < |ws|
      invariant 0 <= i <= |ws|
      invariant forall k :: 0 <= k < i ==> Elements(Nights(ws[k].checkIn, ws[k].checkOut)) <= Elements(dates)
    {
      var more := EachNight(ws[i].checkIn, ws[i].checkOut);
      assert Elements(dates + more) == Elements(dates) + Elements(more);
      dates := dates + more;
      i := i + 1;
    }
    nights := UniqueDates(dates);
  }

  /** The loop over the weekends: one load of the cache, one slot per weekend. */
  method SearchRanges(rows: seq<CalendarRow>, listings: seq<int>, weekendRanges: seq<Weekend>, availableOnly: bool)
    returns (slots: seq<Slot>, withAvailability: nat, cacheIncomplete: nat)
    requires UniqueRows(rows)
    ensures slots == Slots(rows, listings, weekendRanges, availableOnly)
    ensures withAvailability == WithAvailability(slots)
    ensures cacheIncomplete == |UnknownSomewhere(rows, listings, weekendRanges)|
  {
    var allNights := AllNights(weekendRanges);
    var daysByListing := IndexCalendarDays(CachedDays(rows, listings, set d | d in allNights));
    var unknown;
    slots, withAvailability, unknown := ExamineAll(rows, listings, weekendRanges, availableOnly, daysByListing,
                                                   Elements(allNights));
    cacheIncomplete := |unknown|;
  }

  method ExamineAll(rows: seq<CalendarRow>, listings: seq<int>, weekendRanges: seq<Weekend>, availableOnly: bool,
                    daysByListing: map<int, seq<CalendarRow>>, ghost all: set<int>)
    returns (slots: seq<Slot>, withAvailability: nat, unknown: set<int>)
    requires UniqueRows(rows) && Covers(weekendRanges, all) && IsIndex(daysByListing, CachedDays(rows, listings, all))
    ensures slots == Slots(rows, listings, weekendRanges, availableOnly) && withAvailability == WithAvailability(slots)
    ensures unknown == UnknownSomewhere(rows, listings, weekendRanges)
  {
    slots, withAvailability, unknown := [], 0, {};
    var i := 0;
    while i < |weekendRanges|
      invariant 0 <= i <= |weekendRanges|
      invariant Examined(rows, listings, weekendRanges, availableOnly, i, slots, withAvailability, unknown)
    {
      CoversOne(weekendRanges, all, i);
      ExaminedNext(rows, listings, weekendRanges, availableOnly, i, slots, withAvailability, unknown);
      var slot, newUnknown := Examine(rows, listings, weekendRanges[i], availableOnly, daysByListing, all);
      unknown := unknown + newUnknown;
      if !(availableOnly && slot.availableCount == 0) {
        slots := slots + [slot];
        withAvailability := withAvailability + if slot.availableCount > 0 then 1 else 0;
      }
      i := i + 1;
    }
    ExaminedAll(rows, listings, weekendRanges, availableOnly, slots, withAvailability, unknown);
  }

  /** Every weekend of the month or year. The slots are those search would give weekend by
      weekend; the answer is their first limit. */
  method SearchWeekends(rows: seq<CalendarRow>, listings: seq<int>, year: int, month: Option<int>, nights: int,
                        availableOnly: bool, limit: nat)
    returns (weekends: seq<Slot>, withAvailability: nat, cacheIncomplete: nat, truncated: bool)
    requires UniqueRows(rows)
    ensures var slots := Slots(rows, listings, WeekendRanges(year, month, nights), availableOnly);
            && weekends == slots[..Min(limit, |slots|)]
            && withAvailability == WithAvailability(slots)
            && (truncated <==> |slots| > limit)
    ensures cacheIncomplete == |UnknownSomewhere(rows, listings, WeekendRanges(year, month, nights))|
  {
    var weekendRanges := EnumerateWeekends(year, month, nights);
    var slots;
    slots, withAvailability, cacheIncomplete := SearchRanges(rows, listings, weekendRanges, availableOnly);
    truncated := |slots| > limit;
    weekends := if truncated then slots[..limit] else slots;
  }

  /** One weekend of the batch, from the index of the whole load. */
  method Examine(rows: seq<CalendarRow>, listings: seq<int>, weekend: Weekend, availableOnly: bool,
                 daysByListing: map<int, seq<CalendarRow>>, ghost all: set<int>)
    returns (slot: Slot, unknown: set<int>)
    requires UniqueRows(rows) && Elements(Nights(weekend.checkIn, weekend.checkOut)) <= all
    requires IsIndex(daysByListing, CachedDays(rows, listings, all))
    ensures slot == SlotOf(rows, listings, weekend, availableOnly)
    ensures unknown == UnknownOn(rows, listings, weekend)
  {
    NightsDistinct(weekend.checkIn, weekend.checkOut);
    var stayNights := EachNight(weekend.checkIn, weekend.checkOut);
    var items := EvaluateListings(listings, daysByListing, stayNights, rows, all);
    unknown := UnknownIn(items);
    UnknownOfVerdicts(rows, listings, weekend);
    var available := AvailableItems(items);
    assert available + [] == available;
    slot := Slot(weekend.checkIn, weekend.checkOut, |available|, if availableOnly then available else items);
  }

  lemma {:induction false} UnknownOfVerdicts(rows: seq<CalendarRow>, listings: seq<int>, w: Weekend)
    ensures var items := Verdicts(rows, listings, Nights(w.checkIn, w.checkOut));
            UnknownOn(rows, listings, w) == set i | 0 <= i < |items| && items[i].unknown :: items[i].listing
  {
    var items := Verdicts(rows, listings, Nights(w.checkIn, w.checkOut));
    forall l
      ensures l in UnknownOn(rows, listings, w) <==>
              l in set i | 0 <= i < |items| && items[i].unknown :: items[i].listing
    {
      if l in UnknownOn(rows, listings, w) {
        var i :| 0 <= i < |listings| && Unknown(rows, listings[i], Nights(w.checkIn, w.checkOut)) && listings[i] == l;
        assert items[i].unknown && items[i].listing == l;
      }
      if i: int :| 0 <= i < |items| && items[i].unknown && items[i].listing == l {
        assert Unknown(rows, listings[i], Nights(w.checkIn, w.checkOut));
      }
    }
  }

  method UnknownIn(items: seq<Item>) returns (ids: set<int>)
    ensures ids == set i | 0 <= i < |items| && items[i].unknown :: items[i].listing
  {
    ids := {};
    var i := 0;
    while i < |items|
      invariant 0 <= i <= |items|
      invariant ids == set j | 0 <= j < i && items[j].unknown :: items[j].listing
    {
      if items[i].unknown {
        ids := ids + {items[i].listing};
      }
      i := i + 1;
    }
  }
}
