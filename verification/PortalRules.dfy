/** Portal payment rules: which rule applies to a booking, and how much of it is still open
    (portal-payment-rules.util.ts). Amounts are in cents, percentages whole numbers. */
module PortalRules {
  import opened Wrappers

  datatype Rule = Rule(
    matchers: seq<string>,
    isFallback: bool,
    enabled: bool,
    portalAssumedPaidPercent: int,
    treatAsPaidUntilDaysBeforeArrival: Option<int>,
    treatAsPaidUntilDaysAfterDeparture: Option<int>,
    hostDuePercent: int,
    hostDueByDaysBeforeArrival: Option<int>,
    hostDueByDaysAfterDeparture: Option<int>,
    overdueGraceDays: Option<int>,
    autoRequestInbox: bool,
    skipUnpaidReminder: bool,
    depositDuePercent: Option<int>,
    depositDueDaysAfterBooking: Option<int>,
    paymentDeadlineDays: Option<int>,
    autoSendGuestPaymentLink: bool,
    guestReminderDaysBeforeDeadline: Option<int>,
    autoCancelIfUnpaid: bool)

  const ONE_EURO := 100
  const DEFAULT_DUE_DAYS := 28

  // ----- Choosing a rule

  /** The needle occurs in the haystack (both in lower case). */
  ghost predicate Occurs(needle: string, haystack: string) {
    exists k :: OccursAt(needle, haystack, k)
  }

  predicate OccursAt(needle: string, haystack: string, k: int) {
    0 <= k && k + |needle| <= |haystack| && haystack[k..k + |needle|] == needle
  }

  ghost predicate Applies(r: Rule, haystack: string) {
    r.enabled && !r.isFallback && exists i :: 0 <= i < |r.matchers| && Occurs(r.matchers[i], haystack)
  }

  method Includes(haystack: string, needle: string) returns (found: bool)
    ensures found <==> Occurs(needle, haystack)
  {
    found := false;
    var k := 0;
    while k + |needle| <= |haystack|
      invariant 0 <= k
      invariant forall j :: j < k ==> !OccursAt(needle, haystack, j)
      decreases |haystack| - k
    {
      if OccursAt(needle, haystack, k) { return true; }
      k := k + 1;
    }
  }

  method AnyMatcher(r: Rule, haystack: string) returns (found: bool)
    ensures found <==> exists i :: 0 <= i < |r.matchers| && Occurs(r.matchers[i], haystack)
  {
    found := false;
    var i := 0;
    while i < |r.matchers|
      invariant 0 <= i <= |r.matchers|
      invariant forall j :: 0 <= j < i ==> !Occurs(r.matchers[j], haystack)
    {
      var hit := Includes(haystack, r.matchers[i]);
      if hit { return true; }
      i := i + 1;
    }
  }

  /** The first enabled rule whose matchers occur; failing that the first enabled fallback. */
  method MatchPortalRule(rules: seq<Rule>, haystack: string) returns (index: int)
    ensures -1 <= index < |rules|
    ensures (exists i :: 0 <= i < |rules| && Applies(rules[i], haystack)) ==>
      0 <= index && Applies(rules[index], haystack) && forall i :: 0 <= i < index ==> !Applies(rules[i], haystack)
    ensures (forall i :: 0 <= i < |rules| ==> !Applies(rules[i], haystack)) ==>
      if index == -1 then forall i :: 0 <= i < |rules| ==> !(rules[i].enabled && rules[i].isFallback)
      else rules[index].enabled && rules[index].isFallback
           && forall i :: 0 <= i < index ==> !(rules[i].enabled && rules[i].isFallback)
  {
    var i := 0;
    while i < |rules|
      invariant 0 <= i <= |rules|
      invariant forall j :: 0 <= j < i ==> !Applies(rules[j], haystack)
    {
      if rules[i].enabled && !rules[i].isFallback {
        var hit := AnyMatcher(rules[i], haystack);
        if hit { return i; }
      }
      i := i + 1;
    }
    i := 0;
    while i < |rules|
      invariant 0 <= i <= |rules|
      invariant forall j :: 0 <= j < i ==> !(rules[j].enabled && rules[j].isFallback)
    {
      if rules[i].enabled && rules[i].isFallback { return i; }
      i := i + 1;
    }
    index := -1;
  }

  // ----- Percentages

  function ClampPercent(p: int): (r: int)
    ensures 0 <= r <= 100
  {
    Min(100, Max(0, p))
  }

  /** The percentage of an amount, rounded half up to the cent and never negative. */
  function PercentOf(total: int, percent: int): int {
    Max(0, (total * ClampPercent(percent) + 50) / 100)
  }

  lemma PercentWithinTotal(total: int, percent: int)
    requires total >= 0
    ensures 0 <= PercentOf(total, percent) <= total
  {
    var p := ClampPercent(percent);
    assert total * p + total * (100 - p) == total * 100;
    assert 0 <= total * p && 0 <= total * (100 - p);
  }

  /** The share is the cent amount nearest to the exact percentage, ties going up. */
  lemma PercentRoundsHalfUp(total: int, percent: int)
    requires total >= 0
    ensures 100 * PercentOf(total, percent) - 50 <= total * ClampPercent(percent) < 100 * PercentOf(total, percent) + 50
  {
    assert 0 <= total * ClampPercent(percent);
  }

  // ----- The balance under a rule

  datatype PortalBalance = PortalBalance(
    outstanding: int,
    hostRequired: int,
    assumedPortalPaid: int,
    paidUnverified: bool,
    shouldOfficeRemind: bool,
    shouldRequestInbox: bool)

  function Settled(hostRequired: int, assumed: int, unverified: bool): PortalBalance {
    PortalBalance(0, hostRequired, assumed, unverified, false, false)
  }

  /** What is still outstanding, and whether anyone is to be reminded. Days since departure are
      negative while the guest has not left. */
  function EvaluatePortalBalance(r: Rule, total: int, matchedPaid: int, isPaid: bool, daysUntilArrival: int,
                                 daysSinceDeparture: int): PortalBalance
  {
    if isPaid then Settled(0, total, false)
    else if total <= 0 then Settled(0, 0, false)
    else if r.treatAsPaidUntilDaysAfterDeparture.Some? then
      PayoutAfterDeparture(r, total, matchedPaid, daysSinceDeparture)
    else if r.treatAsPaidUntilDaysBeforeArrival.Some?
      && daysUntilArrival > r.treatAsPaidUntilDaysBeforeArrival.value then
      Settled(0, total, true)
    else
      ShareBeforeArrival(r, total, matchedPaid, daysUntilArrival)
  }

  function PayoutAfterDeparture(r: Rule, total: int, matchedPaid: int, daysSinceDeparture: int): PortalBalance
    requires r.treatAsPaidUntilDaysAfterDeparture.Some?
  {
    var assumed := PercentOf(total, r.portalAssumedPaidPercent);
    var hostRequired := PercentOf(total, if r.hostDuePercent == 0 then 100 else r.hostDuePercent);
    var netFloor := Max(0, (total * 7 + 5) / 10);
    var outstanding := Max(0, hostRequired - matchedPaid);
    if daysSinceDeparture < 0 || daysSinceDeparture <= r.treatAsPaidUntilDaysAfterDeparture.value then
      Settled(hostRequired, assumed, true)
    else if matchedPaid + ONE_EURO >= netFloor && matchedPaid <= total + ONE_EURO then
      Settled(hostRequired, assumed, false)
    else if outstanding <= ONE_EURO then
      Settled(hostRequired, assumed, false)
    else
      var remind := !r.skipUnpaidReminder
                    && (r.hostDueByDaysAfterDeparture.None?
                        || daysSinceDeparture > r.hostDueByDaysAfterDeparture.value);
      PortalBalance(outstanding, hostRequired, assumed, false, remind, false)
  }

  function ShareBeforeArrival(r: Rule, total: int, matchedPaid: int, days: int): PortalBalance {
    var assumed := PercentOf(total, r.portalAssumedPaidPercent);
    var hostRequired := PercentOf(total, r.hostDuePercent);
    var outstanding := Max(0, hostRequired - matchedPaid);
    if r.skipUnpaidReminder then
      PortalBalance(if outstanding <= ONE_EURO then 0 else outstanding, hostRequired, assumed, false, false, false)
    else if outstanding <= ONE_EURO then
      Settled(hostRequired, assumed, false)
    else
      match r.hostDueByDaysBeforeArrival
      case None =>
        PortalBalance(outstanding, hostRequired, assumed, false, days <= DEFAULT_DUE_DAYS, false)
      case Some(dueBy) =>
        if days > dueBy then PortalBalance(outstanding, hostRequired, assumed, false, false, false)
        else
          var remind := r.overdueGraceDays.None? || days <= dueBy - r.overdueGraceDays.value;
          PortalBalance(outstanding, hostRequired, assumed, false, remind, r.autoRequestInbox)
  }

  ghost predicate ActsAtLeast(a: PortalBalance, b: PortalBalance) {
    (b.shouldOfficeRemind ==> a.shouldOfficeRemind) && (b.shouldRequestInbox ==> a.shouldRequestInbox)
  }

  /** More matched money never raises what is outstanding and never starts a reminder or request. */
  lemma MoreMoneyNeverWorse(r: Rule, total: int, isPaid: bool, days: int, since: int, less: int, more: int)
    requires less <= more
    ensures var a := EvaluatePortalBalance(r, total, less, isPaid, days, since);
            var b := EvaluatePortalBalance(r, total, more, isPaid, days, since);
            b.outstanding <= a.outstanding && ActsAtLeast(a, b)
            && b.hostRequired == a.hostRequired && b.paidUnverified == a.paidUnverified
  {
    if total > 0 {
      PercentWithinTotal(total, if r.hostDuePercent == 0 then 100 else r.hostDuePercent);
    }
  }

  /** With the money unchanged, later days never withdraw a reminder or request, and never lower
      what is outstanding. */
  lemma LaterDaysNeverWithdraw(r: Rule, total: int, matchedPaid: int, isPaid: bool, days: int, since: int, later: nat)
    ensures var a := EvaluatePortalBalance(r, total, matchedPaid, isPaid, days, since);
            var b := EvaluatePortalBalance(r, total, matchedPaid, isPaid, days - later, since + later);
            ActsAtLeast(b, a) && a.outstanding <= b.outstanding && (b.paidUnverified ==> a.paidUnverified)
  {
  }

  /** Nobody is bothered over a euro or less, or over money assumed paid, and what is shown as
      outstanding is the missing part of the host's share. */
  lemma ActionsNeedMoneyOutstanding(r: Rule, total: int, matchedPaid: int, isPaid: bool, days: int, since: int)
    ensures var b := EvaluatePortalBalance(r, total, matchedPaid, isPaid, days, since);
            && (b.shouldOfficeRemind || b.shouldRequestInbox ==> b.outstanding > ONE_EURO && !b.paidUnverified)
            && (b.paidUnverified ==> b.outstanding == 0)
            && (b.outstanding != 0 ==> b.outstanding > ONE_EURO && b.outstanding + matchedPaid == b.hostRequired)
            && (total >= 0 ==> 0 <= b.hostRequired <= total)
  {
    if total > 0 {
      PercentWithinTotal(total, r.hostDuePercent);
      PercentWithinTotal(total, if r.hostDuePercent == 0 then 100 else r.hostDuePercent);
    }
  }

  // ----- From which day on

  /** The part of the host's share that is missing; after departure a rule that asks nothing of
      the guest still expects the whole price from the portal. */
  function Missing(r: Rule, total: int, matchedPaid: int): int {
    var percent := if r.treatAsPaidUntilDaysAfterDeparture.Some?
      && r.hostDuePercent == 0 then 100 else r.hostDuePercent;
    PercentOf(total, percent) - matchedPaid
  }

  /** The given day before arrival, or a later one if the portal's word is taken until then. */
  function TrustEnds(r: Rule, day: int): int {
    if r.treatAsPaidUntilDaysBeforeArrival.Some? then Min(day, r.treatAsPaidUntilDaysBeforeArrival.value) else day
  }

  /** How many days before arrival the office is first reminded. */
  function ReminderDay(r: Rule): int {
    TrustEnds(r, match r.hostDueByDaysBeforeArrival
                 case None => DEFAULT_DUE_DAYS
                 case Some(dueBy) => dueBy - Max(0, r.overdueGraceDays.GetOr(0)))
  }

  /** Where the balance is due before arrival, one day decides on the reminder and one on the
      request: both are on from that day on, for as long as more than a euro is missing. */
  lemma ActsFromDay(r: Rule, total: int, matchedPaid: int, days: int, since: int)
    requires total > 0 && r.treatAsPaidUntilDaysAfterDeparture.None?
    ensures var b := EvaluatePortalBalance(r, total, matchedPaid, false, days, since);
            var due := !r.skipUnpaidReminder && Missing(r, total, matchedPaid) > ONE_EURO;
            && (b.shouldOfficeRemind <==> due && days <= ReminderDay(r))
            && (b.shouldRequestInbox <==> due && r.autoRequestInbox && r.hostDueByDaysBeforeArrival.Some?
                                          && days <= TrustEnds(r, r.hostDueByDaysBeforeArrival.value))
            && (b.paidUnverified <==> r.treatAsPaidUntilDaysBeforeArrival.Some?
                                      && days > r.treatAsPaidUntilDaysBeforeArrival.value)
  {
  }

  /** Where the portal pays out after the stay, the office is reminded once the payout is late,
      unless what came in looks like the price less a commission. */
  lemma RemindsAfterStay(r: Rule, total: int, matchedPaid: int, days: int, since: int)
    requires total > 0 && r.treatAsPaidUntilDaysAfterDeparture.Some?
    ensures var b := EvaluatePortalBalance(r, total, matchedPaid, false, days, since);
            var trusted := Max(-1, r.treatAsPaidUntilDaysAfterDeparture.value);
            var netPayout := 10 * (matchedPaid + ONE_EURO) > 7 * total - 5 && matchedPaid <= total + ONE_EURO;
            && (b.paidUnverified <==> since <= trusted)
            && (b.shouldOfficeRemind <==> since > Max(trusted, r.hostDueByDaysAfterDeparture.GetOr(trusted))
                                          && !r.skipUnpaidReminder && !netPayout
                                          && Missing(r, total, matchedPaid) > ONE_EURO)
            && !b.shouldRequestInbox
  {
  }

  // ----- The amounts

  /** A share taken in whole percents is the cent amount nearest to it, ties going up; a percentage
      outside 0 to 100 counts as the nearer end, and no price gives no share. */
  lemma SharesExactly(total: int, percent: int)
    ensures 0 <= percent <= 100 && total >= 0 ==>
      100 * PercentOf(total, percent) - 50 <= total * percent < 100 * PercentOf(total, percent) + 50
    ensures percent > 100 && total >= 0 ==> PercentOf(total, percent) == total
    ensures percent < 0 || total <= 0 ==> PercentOf(total, percent) == 0
  {
    if 0 <= percent <= 100 && total >= 0 {
      PercentRoundsHalfUp(total, percent);
    } else if total <= 0 {
      assert total * ClampPercent(percent) <= 0;
    }
  }

  /** Where the balance is due before arrival, nothing is outstanding while the portal's word is
      taken; afterwards it is the missing part of the host's share if that is more than a euro,
      due or not, reminded of or not. */
  lemma OutstandingBeforeArrival(r: Rule, total: int, matchedPaid: int, days: int, since: int)
    requires total > 0 && r.treatAsPaidUntilDaysAfterDeparture.None?
    ensures var b := EvaluatePortalBalance(r, total, matchedPaid, false, days, since);
            var trusted := r.treatAsPaidUntilDaysBeforeArrival.Some?
              && days > r.treatAsPaidUntilDaysBeforeArrival.value;
            var share := PercentOf(total, r.hostDuePercent);
            && b.outstanding == (if trusted || share - matchedPaid <= 100 then 0 else share - matchedPaid)
            && b.hostRequired == (if trusted then 0 else share)
            && b.assumedPortalPaid == (if trusted then total else PercentOf(total, r.portalAssumedPaidPercent))
  {
  }

  /** Where the portal pays out after the stay, nothing is outstanding until the payout is late, nor
      when what came in is 70 % of the price or more (a euro either way); a rule that asks nothing
      of the host's share expects the whole price. */
  lemma OutstandingAfterStay(r: Rule, total: int, matchedPaid: int, days: int, since: int)
    requires total > 0 && r.treatAsPaidUntilDaysAfterDeparture.Some?
    ensures var b := EvaluatePortalBalance(r, total, matchedPaid, false, days, since);
            var trusted := since < 0 || since <= r.treatAsPaidUntilDaysAfterDeparture.value;
            var netPayout := 10 * (matchedPaid + 100) > 7 * total - 5 && matchedPaid <= total + 100;
            var share := PercentOf(total, if r.hostDuePercent == 0 then 100 else r.hostDuePercent);
            && b.outstanding == (if trusted || netPayout || share - matchedPaid <= 100 then 0 else share - matchedPaid)
            && b.hostRequired == share && b.assumedPortalPaid == PercentOf(total, r.portalAssumedPaidPercent)
  {
  }

  /** A booking that is paid, or has no price, is settled. */
  lemma NothingOutstanding(r: Rule, total: int, matchedPaid: int, isPaid: bool, days: int, since: int)
    requires isPaid || total <= 0
    ensures EvaluatePortalBalance(r, total, matchedPaid, isPaid, days, since) ==
            PortalBalance(0, 0, if isPaid then total else 0, false, false, false)
  {
  }
}
