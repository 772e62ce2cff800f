/** The calendar pushed to CHECK24 (check24-calendar.util.ts): nights of a stay, and the day
    rows collapsed into availability and price ranges. Dates are day numbers. */
module CalendarRanges {
  import opened Wrappers
  import opened RunLength

  /** One local calendar row; the price is in cents. */
  datatype LocalCalendarDay = LocalCalendarDay(
    date: int,
    isAvailable: bool,
    minNights: Option<int>,
    price: Option<int>)

  datatype Availability = Availability(
    dateFrom: int,
    dateTo: int,
    open: bool,
    minStay: Option<int>,
    checkinPossible: bool,
    checkoutPossible: bool)

  datatype StandardPricing = StandardPricing(dateFrom: int, dateTo: int, dailyPrice: int)

  /** What CHECK24 is told about one night. */
  datatype NightKey = NightKey(open: bool, minStay: Option<int>)

  // ----- Sorting by date (Array.prototype.sort is stable)

  function Insert(d: LocalCalendarDay, s: seq<LocalCalendarDay>): seq<LocalCalendarDay> {
    if s == [] || s[|s| - 1].date <= d.date then s + [d]
    else Insert(d, s[..|s| - 1]) + [s[|s| - 1]]
  }

  function SortByDate(days: seq<LocalCalendarDay>): seq<LocalCalendarDay> {
    if days == [] then [] else Insert(days[|days| - 1], SortByDate(days[..|days| - 1]))
  }

  ghost predicate SortedByDate(s: seq<LocalCalendarDay>) {
    forall i, j :: 0 <= i < j < |s| ==> s[i].date <= s[j].date
  }

  lemma {:induction false} InsertKeeps(d: LocalCalendarDay, s: seq<LocalCalendarDay>)
    ensures multiset(Insert(d, s)) == multiset(s) + multiset{d}
  {
    if !(s == [] || s[|s| - 1].date <= d.date) {
      assert s == s[..|s| - 1] + [s[|s| - 1]];
      InsertKeeps(d, s[..|s| - 1]);
    }
  }

  lemma {:induction false} InsertBelow(d: LocalCalendarDay, s: seq<LocalCalendarDay>, bound: int)
    requires d.date <= bound && forall i :: 0 <= i < |s| ==> s[i].date <= bound
    ensures forall i :: 0 <= i < |Insert(d, s)| ==> Insert(d, s)[i].date <= bound
  {
    if !(s == [] || s[|s| - 1].date <= d.date) {
      InsertBelow(d, s[..|s| - 1], bound);
    }
  }

  lemma {:induction false} InsertSorts(d: LocalCalendarDay, s: seq<LocalCalendarDay>)
    requires SortedByDate(s)
    ensures SortedByDate(Insert(d, s))
  {
    if !(s == [] || s[|s| - 1].date <= d.date) {
      InsertSorts(d, s[..|s| - 1]);
      InsertBelow(d, s[..|s| - 1], s[|s| - 1].date);
    }
  }

  /** Sorting puts the same rows in date order. */
  lemma {:induction false} SortSorts(days: seq<LocalCalendarDay>)
    ensures SortedByDate(SortByDate(days))
    ensures multiset(SortByDate(days)) == multiset(days)
  {
    if days != [] {
      var init := days[..|days| - 1];
      assert days == init + [days[|days| - 1]];
      SortSorts(init);
      InsertSorts(days[|days| - 1], SortByDate(init));
      InsertKeeps(days[|days| - 1], SortByDate(init));
    }
  }

  lemma {:induction false} SortMembers(days: seq<LocalCalendarDay>)
    ensures forall x :: x in SortByDate(days) <==> x in days
    ensures |SortByDate(days)| == |days|
  {
    SortSorts(days);
    var s := SortByDate(days);
    assert |multiset(s)| == |multiset(days)|;
    forall x ensures x in s <==> x in days {
      assert x in multiset(s) <==> x in multiset(days);
    }
  }

  // ----- Nights of a stay

  /** The nights from..to - 1. */
  function Nights(from: int, to: int): (s: seq<int>)
    ensures |s| == Max(0, to - from) && forall i :: 0 <= i < |s| ==> s[i] == from + i
  {
    seq(Max(0, to - from), i => from + i)
  }

  lemma {:induction false} NightsMembers(from: int, to: int)
    ensures forall d :: d in Nights(from, to) <==> from <= d < to
  {
    forall d | from <= d < to ensures d in Nights(from, to) {
      assert Nights(from, to)[d - from] == d;
    }
  }

  method EachNight(dateFrom: int, dateTo: int) returns (out: seq<int>)
    ensures out == Nights(dateFrom, dateTo)
  {
    out := [];
    if !(dateFrom < dateTo) { return; }
    var d := dateFrom;
    while d < dateTo
      invariant dateFrom <= d <= dateTo && out == Nights(dateFrom, d)
    {
      out := out + [d];
      d := d + 1;
    }
  }

  // ----- Ranges

  function AvailabilityKey(day: LocalCalendarDay): Dated<NightKey> {
    Dated(day.date, NightKey(day.isAvailable, day.minNights))
  }

  function AvailabilityDays(days: seq<LocalCalendarDay>): seq<Dated<NightKey>> {
    seq(|days|, i requires 0 <= i < |days| => AvailabilityKey(days[i]))
  }

  /** A night CHECK24 is told is open can be arrived on; any day can be left on. */
  function AvailabilityRange(r: Run<NightKey>): Availability {
    Availability(r.from, r.to, r.key.open, r.key.minStay, r.key.open, true)
  }

  function AvailabilityRanges(rs: seq<Run<NightKey>>): seq<Availability> {
    seq(|rs|, i requires 0 <= i < |rs| => AvailabilityRange(rs[i]))
  }

  /** The dates and nights a list of ranges speaks of. */
  function AvailabilityRuns(ranges: seq<Availability>): seq<Run<NightKey>> {
    seq(|ranges|, i requires 0 <= i < |ranges| => Run(ranges[i].dateFrom, ranges[i].dateTo,
                                                      NightKey(ranges[i].open, ranges[i].minStay)))
  }

  /** Guests can arrive where it is open and leave anywhere. */
  ghost predicate FlagsFollow(ranges: seq<Availability>) {
    forall i :: 0 <= i < |ranges| ==> ranges[i].checkinPossible == ranges[i].open && ranges[i].checkoutPossible
  }

  lemma {:induction false} RangesFlags(rs: seq<Run<NightKey>>)
    ensures FlagsFollow(AvailabilityRanges(rs))
  {
  }

  lemma {:induction false} RunsOfRanges(rs: seq<Run<NightKey>>)
    ensures AvailabilityRuns(AvailabilityRanges(rs)) == rs
  {
    forall i | 0 <= i < |rs| ensures AvailabilityRuns(AvailabilityRanges(rs))[i] == rs[i] {}
  }

  /** Ranges stand for exactly the given days, and nothing shorter or different does so in as
      few ranges. */
  ghost predicate LosslessAndMinimal<K(!new)>(rs: seq<Run<K>>, days: seq<Dated<K>>) {
    && Expand(rs) == days
    && forall other: seq<Run<K>> :: Expand(other) == days ==> |rs| <= |other| && (|rs| == |other| ==> rs == other)
  }

  lemma {:induction false} CompressIsBest<K(!new)>(days: seq<Dated<K>>)
    ensures LosslessAndMinimal(Compress(days), days)
  {
    CompressLossless(days);
    forall other: seq<Run<K>> | Expand(other) == days
      ensures |Compress(days)| <= |other| && (|Compress(days)| == |other| ==> Compress(days) == other)
    {
      CompressMinimal(days, other);
      CompressLength(days);
      if |Compress(days)| == |other| { CompressUnique(days, other); }
    }
  }

  // ----- What ranges say, day by day

  /** Some range says this of the date. */
  ghost predicate Says(ranges: seq<Availability>, date: int, open: bool, minStay: Option<int>) {
    exists r :: r in ranges && r.open == open && r.minStay == minStay && r.dateFrom <= date <= r.dateTo
  }

  ghost predicate HasDay(days: seq<LocalCalendarDay>, date: int, open: bool, minStay: Option<int>) {
    exists x :: x in days && x.date == date && x.isAvailable == open && x.minNights == minStay
  }

  /** The ranges say of every date what the days say, and of no other date anything. */
  ghost predicate SaysTheSame(ranges: seq<Availability>, days: seq<LocalCalendarDay>) {
    forall d, open, minStay :: Says(ranges, d, open, minStay) <==> HasDay(days, d, open, minStay)
  }

  lemma {:induction false} SaysInRuns(ranges: seq<Availability>, date: int, open: bool, minStay: Option<int>)
    ensures Says(ranges, date, open, minStay) <==>
            Dated(date, NightKey(open, minStay)) in Expand(AvailabilityRuns(ranges))
  {
    var runs, key := AvailabilityRuns(ranges), NightKey(open, minStay);
    ExpandMembers(runs, date, key);
    if Says(ranges, date, open, minStay) {
      var r :| r in ranges && r.open == open && r.minStay == minStay && r.dateFrom <= date <= r.dateTo;
      var i :| 0 <= i < |ranges| && ranges[i] == r;
      assert runs[i] in runs;
    }
    if run :| run in runs && run.key == key && run.from <= date <= run.to {
      var i :| 0 <= i < |runs| && runs[i] == run;
      assert ranges[i] in ranges;
    }
  }

  lemma {:induction false} HasDayInList(days: seq<LocalCalendarDay>, date: int, open: bool, minStay: Option<int>)
    ensures HasDay(days, date, open, minStay) <==>
            Dated(date, NightKey(open, minStay)) in AvailabilityDays(SortByDate(days))
  {
    SortMembers(days);
    var s := SortByDate(days);
    if HasDay(days, date, open, minStay) {
      var x :| x in days && x.date == date && x.isAvailable == open && x.minNights == minStay;
      var i :| 0 <= i < |s| && s[i] == x;
      assert AvailabilityDays(s)[i] == Dated(date, NightKey(open, minStay));
    }
    if Dated(date, NightKey(open, minStay)) in AvailabilityDays(s) {
      var i :| 0 <= i < |s| && AvailabilityDays(s)[i] == Dated(date, NightKey(open, minStay));
      assert s[i] in days;
    }
  }

  lemma {:induction false} RangesSayTheSame(ranges: seq<Availability>, days: seq<LocalCalendarDay>)
    requires Expand(AvailabilityRuns(ranges)) == AvailabilityDays(SortByDate(days))
    ensures SaysTheSame(ranges, days)
  {
    forall d, open, minStay ensures Says(ranges, d, open, minStay) <==> HasDay(days, d, open, minStay) {
      SaysInRuns(ranges, d, open, minStay);
      HasDayInList(days, d, open, minStay);
    }
  }

  /** The first i days are coded by the finished runs and the one still open. */
  ghost predicate Coded<K>(s: seq<Dated<K>>, i: int, runs: seq<Run<K>>, last: Run<K>) {
    0 < i <= |s| && Compress(s[..i]) == runs + [last]
  }

  lemma {:induction false} CodedFirst<K>(s: seq<Dated<K>>)
    requires s != []
    ensures Coded(s, 1, [], Run(s[0].day, s[0].day, s[0].key))
  {
    assert s[..1] == [s[0]];
  }

  /** The next day extends the open run or closes it and opens another. */
  lemma {:induction false} CodedNext<K>(s: seq<Dated<K>>, i: int, runs: seq<Run<K>>, last: Run<K>)
    requires Coded(s, i, runs, last) && i < |s|
    ensures if Joins(s[i - 1], s[i]) then Coded(s, i + 1, runs, last.(to := s[i].day))
            else Coded(s, i + 1, runs + [last], Run(s[i].day, s[i].day, s[i].key))
  {
    assert s[..i + 1][..i] == s[..i];
  }

  lemma {:induction false} CodedAll<K>(s: seq<Dated<K>>, runs: seq<Run<K>>, last: Run<K>)
    requires Coded(s, |s|, runs, last)
    ensures Compress(s) == runs + [last]
  {
    assert s[..|s|] == s;
  }

  lemma {:induction false} AvailabilityRangesAppend(runs: seq<Run<NightKey>>, run: Run<NightKey>)
    ensures AvailabilityRanges(runs + [run]) == AvailabilityRanges(runs) + [AvailabilityRange(run)]
  {
  }

  method BuildAvailabilityRanges(days: seq<LocalCalendarDay>)
    returns (ranges: seq<Availability>)
    ensures LosslessAndMinimal(AvailabilityRuns(ranges), AvailabilityDays(SortByDate(days)))
    ensures ranges == AvailabilityRanges(AvailabilityRuns(ranges))
    ensures SaysTheSame(ranges, days)
    ensures FlagsFollow(ranges)
  {
    ghost var all := AvailabilityDays(SortByDate(days));
    ghost var runs: seq<Run<NightKey>> := [];
    ranges := [];
    SortMembers(days);
    if |days| > 0 {
      var sorted := SortByDate(days);
      var start, end := sorted[0], sorted[0];
      var open := sorted[0].isAvailable;
      var minStay := sorted[0].minNights;
      var i := 1;
      ghost var last := Run(start.date, end.date, NightKey(open, minStay));
      CodedFirst(all);
      while i < |sorted|
        invariant 1 <= i <= |sorted| == |all|
        invariant end == sorted[i - 1] && open == end.isAvailable && minStay == end.minNights
        invariant last == Run(start.date, end.date, NightKey(open, minStay))
        invariant Coded(all, i, runs, last)
        invariant ranges == AvailabilityRanges(runs)
      {
        var day := sorted[i];
        CodedNext(all, i, runs, last);
        if day.isAvailable == open && day.minNights == minStay && day.date == end.date + 1 {
          end := day;
          last := last.(to := day.date);
        } else {
          AvailabilityRangesAppend(runs, last);
          ranges := ranges + [Availability(start.date, end.date, open, minStay, open, true)];
          runs, last := runs + [last], Run(day.date, day.date, NightKey(day.isAvailable, day.minNights));
          start, end := day, day;
          open := day.isAvailable;
          minStay := day.minNights;
        }
        i := i + 1;
      }
      AvailabilityRangesAppend(runs, last);
      CodedAll(all, runs, last);
      runs := runs + [last];
      ranges := ranges + [Availability(start.date, end.date, open, minStay, open, true)];
    }
    CompressIsBest(all);
    RunsOfRanges(runs);
    RangesFlags(runs);
    RangesSayTheSame(ranges, days);
  }

  function PricingKey(day: LocalCalendarDay): Dated<int> {
    Dated(day.date, day.price.GetOr(0))
  }

  function PricingDays(days: seq<LocalCalendarDay>): seq<Dated<int>> {
    seq(|days|, i requires 0 <= i < |days| => PricingKey(days[i]))
  }

  function PricingRange(r: Run<int>): StandardPricing {
    StandardPricing(r.from, r.to, r.key)
  }

  function PricingRanges(rs: seq<Run<int>>): seq<StandardPricing> {
    seq(|rs|, i requires 0 <= i < |rs| => PricingRange(rs[i]))
  }

  function PricingRuns(ranges: seq<StandardPricing>): seq<Run<int>> {
    seq(|ranges|, i requires 0 <= i < |ranges| => Run(ranges[i].dateFrom, ranges[i].dateTo, ranges[i].dailyPrice))
  }

  lemma {:induction false} RunsOfPrices(rs: seq<Run<int>>)
    ensures PricingRuns(PricingRanges(rs)) == rs
  {
    forall i | 0 <= i < |rs| ensures PricingRuns(PricingRanges(rs))[i] == rs[i] {}
  }

  ghost predicate SaysPrice(ranges: seq<StandardPricing>, date: int, price: int) {
    exists r :: r in ranges && r.dailyPrice == price && r.dateFrom <= date <= r.dateTo
  }

  ghost predicate HasPrice(days: seq<LocalCalendarDay>, date: int, price: int) {
    price > 0 && exists x :: x in days && x.date == date && x.price == Some(price)
  }

  /** The ranges say of every date its positive price, and of no other date anything. */
  ghost predicate SaysThePrices(ranges: seq<StandardPricing>, days: seq<LocalCalendarDay>) {
    forall d, price :: SaysPrice(ranges, d, price) <==> HasPrice(days, d, price)
  }

  lemma {:induction false} SaysPriceInRuns(ranges: seq<StandardPricing>, date: int, price: int)
    ensures SaysPrice(ranges, date, price) <==> Dated(date, price) in Expand(PricingRuns(ranges))
  {
    var runs := PricingRuns(ranges);
    ExpandMembers(runs, date, price);
    if SaysPrice(ranges, date, price) {
      var r :| r in ranges && r.dailyPrice == price && r.dateFrom <= date <= r.dateTo;
      var i :| 0 <= i < |ranges| && ranges[i] == r;
      assert runs[i] in runs;
    }
    if run :| run in runs && run.key == price && run.from <= date <= run.to {
      var i :| 0 <= i < |runs| && runs[i] == run;
      assert ranges[i] in ranges;
    }
  }

  lemma {:induction false} HasPriceInList(days: seq<LocalCalendarDay>, date: int, price: int)
    ensures HasPrice(days, date, price) <==> Dated(date, price) in PricingDays(SortByDate(Priced(days)))
  {
    SortMembers(Priced(days));
    var s := SortByDate(Priced(days));
    if HasPrice(days, date, price) {
      var x :| x in days && x.date == date && x.price == Some(price);
      assert x in Priced(days);
      var i :| 0 <= i < |s| && s[i] == x;
      assert PricingDays(s)[i] == Dated(date, price);
    }
    if Dated(date, price) in PricingDays(s) {
      var i :| 0 <= i < |s| && PricingDays(s)[i] == Dated(date, price);
      assert s[i] in Priced(days);
    }
  }

  lemma {:induction false} RangesSayThePrices(ranges: seq<StandardPricing>, days: seq<LocalCalendarDay>)
    requires Expand(PricingRuns(ranges)) == PricingDays(SortByDate(Priced(days)))
    ensures SaysThePrices(ranges, days)
  {
    forall d, price ensures SaysPrice(ranges, d, price) <==> HasPrice(days, d, price) {
      SaysPriceInRuns(ranges, d, price);
      HasPriceInList(days, d, price);
    }
  }

  predicate IsPriced(day: LocalCalendarDay) {
    day.price.Some? && day.price.value > 0
  }

  /** The rows with a positive price, in order. */
  function Priced(days: seq<LocalCalendarDay>): (s: seq<LocalCalendarDay>)
    ensures forall d :: d in s <==> d in days && IsPriced(d)
  {
    if days == [] then []
    else
      var last := days[|days| - 1];
      assert days == days[..|days| - 1] + [last];
      Priced(days[..|days| - 1]) + if IsPriced(last) then [last] else []
  }

  lemma {:induction false} PricingRangesAppend(runs: seq<Run<int>>, run: Run<int>)
    ensures PricingRanges(runs + [run]) == PricingRanges(runs) + [PricingRange(run)]
  {
  }

  method BuildStandardPricingRanges(days: seq<LocalCalendarDay>)
    returns (ranges: seq<StandardPricing>)
    ensures LosslessAndMinimal(PricingRuns(ranges), PricingDays(SortByDate(Priced(days))))
    ensures SaysThePrices(ranges, days)
  {
    var priced := SortByDate(Priced(days));
    ghost var all := PricingDays(priced);
    ghost var runs: seq<Run<int>> := [];
    ranges := [];
    SortMembers(Priced(days));
    if |priced| > 0 {
      var start, end := priced[0], priced[0];
      assert start in Priced(days);
      var price := priced[0].price.value;
      var i := 1;
      ghost var last := Run(start.date, end.date, price);
      CodedFirst(all);
      while i < |priced|
        invariant 1 <= i <= |priced| == |all|
        invariant end == priced[i - 1] && end.price == Some(price)
        invariant last == Run(start.date, end.date, price)
        invariant Coded(all, i, runs, last)
        invariant ranges == PricingRanges(runs)
      {
        var day := priced[i];
        assert day in Priced(days);
        CodedNext(all, i, runs, last);
        if day.price == Some(price) && day.date == end.date + 1 {
          end := day;
          last := last.(to := day.date);
        } else {
          PricingRangesAppend(runs, last);
          ranges := ranges + [StandardPricing(start.date, end.date, price)];
          runs, last := runs + [last], Run(day.date, day.date, day.price.value);
          start, end := day, day;
          price := day.price.value;
        }
        i := i + 1;
      }
      PricingRangesAppend(runs, last);
      CodedAll(all, runs, last);
      runs := runs + [last];
      ranges := ranges + [StandardPricing(start.date, end.date, price)];
    }
    CompressIsBest(all);
    RunsOfPrices(runs);
    RangesSayThePrices(ranges, days);
  }
}
