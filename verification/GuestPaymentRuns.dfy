/** One reservation under the daily payment job, day after day
    (guest-payment-automation.service.ts). */
module GuestPaymentRuns {
  import opened Wrappers
  import opened PortalRules
  import opened GuestSchedule

  datatype Action = Nothing | Request(phase: Phase, amount: int) | Remind(phase: Phase, amount: int) | Cancel

  /** What a day brings: whether the job's query returns the reservation, what Hostaway says
      about isPaid (None if it cannot be reached), the money matched, the days counted, and
      whether the action of the day can be carried out. */
  datatype Visit = Visit(
    selected: bool,
    remotePaid: Option<bool>,
    matchedPaid: int,
    daysUntilArrival: int,
    daysSinceBooking: int,
    now: int,
    succeeds: bool)

  /** isPaid is never unset while it holds; otherwise Hostaway's word is taken over. */
  function RefreshedPaid(row: Row, remote: Option<bool>): Row {
    if row.isPaid || remote.None? then row else row.(isPaid := remote.value)
  }

  predicate DepositArrived(row: Row, rule: Rule, total: int, matchedPaid: int) {
    && rule.depositDuePercent.Some? && rule.depositDuePercent.value > 0
    && row.phase == Deposit && row.requestSentAt.Some?
    && matchedPaid + HALF_EURO >= DepositAmount(total, rule)
  }

  function AfterDeposit(row: Row): Row {
    row.(phase := DepositPaid, requestSentAt := None, reminderSentAt := None, deadlineAt := None)
  }

  function DeadlineDays(rule: Rule, phase: Phase): int {
    if phase == Deposit then rule.depositDueDaysAfterBooking.GetOr(DEFAULT_WINDOW_DAYS)
    else rule.paymentDeadlineDays.GetOr(0)
  }

  function AfterRequest(row: Row, rule: Rule, phase: Phase, now: int): Row {
    var days := DeadlineDays(rule, phase);
    row.(requestSentAt := Some(now),
         reminderSentAt := if phase == Balance then None else row.reminderSentAt,
         deadlineAt := if days > 0 then Some(now + days * MS_PER_DAY) else None,
         phase := phase)
  }

  /** One day of the job for one reservation. */
  function Day(row: Row, rule: Rule, total: int, v: Visit): (Row, Action) {
    if !v.selected || row.autoCanceledAt.Some? || total <= 0 || !rule.enabled then (row, Nothing)
    else
      var known := RefreshedPaid(row, v.remotePaid);
      if known.isPaid then (known, Nothing)
      else
        var current := if DepositArrived(known, rule, total, v.matchedPaid) then AfterDeposit(known) else known;
        Act(current, rule, v,
            Evaluate(rule, total, v.matchedPaid, false, v.daysUntilArrival, v.daysSinceBooking, v.now, current))
  }

  /** Carries out what the schedule asks for; a failed attempt leaves the row as it is. */
  function Act(row: Row, rule: Rule, v: Visit, s: Schedule): (Row, Action) {
    if s.shouldCancel then
      if v.succeeds then (row.(autoCanceledAt := Some(v.now)), Cancel) else (row, Nothing)
    else if s.shouldSendGuestReminder then
      if v.succeeds then (row.(reminderSentAt := Some(v.now)), Remind(s.phase, s.amountDue)) else (row, Nothing)
    else if s.shouldRequestPayment && rule.autoSendGuestPaymentLink && v.succeeds then
      (AfterRequest(row, rule, s.phase, v.now), Request(s.phase, s.amountDue))
    else (row, Nothing)
  }

  // ----- Runs

  function RowAfter(row: Row, rule: Rule, total: int, vs: seq<Visit>): Row {
    if vs == [] then row else Day(RowAfter(row, rule, total, vs[..|vs| - 1]), rule, total, vs[|vs| - 1]).0
  }

  /** The actions of a run, idle days left out. */
  function Actions(row: Row, rule: Rule, total: int, vs: seq<Visit>): seq<Action> {
    if vs == [] then []
    else
      var a := Day(RowAfter(row, rule, total, vs[..|vs| - 1]), rule, total, vs[|vs| - 1]).1;
      Actions(row, rule, total, vs[..|vs| - 1]) + if a == Nothing then [] else [a]
  }

  /** The order in which a booking's actions may come. */
  function Rank(a: Action): int {
    match a
    case Nothing => 0
    case Request(phase, _) => if phase == Deposit then 1 else 3
    case Remind(phase, _) => if phase == Deposit then 2 else 4
    case Cancel => 5
  }

  function LastRank(actions: seq<Action>): int {
    if actions == [] then 0 else Rank(actions[|actions| - 1])
  }

  ghost predicate StrictlyIncreasing(actions: seq<Action>) {
    forall i, j :: 0 <= i < j < |actions| ==> Rank(actions[i]) < Rank(actions[j])
  }

  /** Nothing asked for yet, or only the request made when the booking was imported (the full
      amount) or offered by phone (the deposit). */
  predicate Untouched(row: Row) {
    && row.autoCanceledAt.None? && row.reminderSentAt.None?
    && (if row.requestSentAt.None? then row.phase == NoPhase else row.phase == Full || row.phase == Deposit)
  }

  ghost predicate MoneyNeverTakenBack(vs: seq<Visit>) {
    forall i, j :: 0 <= i < j < |vs| ==> vs[i].matchedPaid <= vs[j].matchedPaid
  }

  /** Where a row can be once the last action had the given rank. */
  ghost predicate Consistent(row: Row, rank: int, rule: Rule, total: int, floor: int) {
    if row.autoCanceledAt.Some? then rank <= 5
    else match row.phase
      case NoPhase => row.requestSentAt.None? && row.reminderSentAt.None? && rank == 0
      case Deposit => row.requestSentAt.Some? && rank <= 2 && (rank == 2 ==> row.reminderSentAt.Some?)
      case DepositPaid => row.requestSentAt.None? && rank <= 2 && floor + HALF_EURO >= DepositAmount(total, rule)
      case Balance => row.requestSentAt.Some? && 3 <= rank <= 4 && (rank == 4 ==> row.reminderSentAt.Some?)
      case Full => row.requestSentAt.Some? && rank <= 4 && (rank == 4 ==> row.reminderSentAt.Some?)
  }

  lemma {:induction false} DayAdvances(row: Row, rank: int, rule: Rule, total: int, floor: int, v: Visit)
    requires Consistent(row, rank, rule, total, floor) && floor <= v.matchedPaid
    ensures var (after, a) := Day(row, rule, total, v);
            && Consistent(after, if a == Nothing then rank else Rank(a), rule, total, v.matchedPaid)
            && (a != Nothing ==> rank < Rank(a))
            && (a.Request? && a.phase == Balance ==> v.matchedPaid + HALF_EURO >= DepositAmount(total, rule))
            && (a.Request? ==> a.phase == Deposit || a.phase == Balance)
  {
  }

  ghost predicate FloorOf(vs: seq<Visit>, floor: int) {
    vs != [] ==> floor == vs[|vs| - 1].matchedPaid
  }

  lemma {:induction false} AppendAction(actions: seq<Action>, a: Action)
    requires StrictlyIncreasing(actions) && (a != Nothing ==> LastRank(actions) < Rank(a))
    ensures var all := actions + if a == Nothing then [] else [a];
            StrictlyIncreasing(all) && LastRank(all) == if a == Nothing then LastRank(actions) else Rank(a)
  {
    LastIsLargest(actions);
    assert actions + [] == actions;
  }

  lemma {:induction false} RunAdvances(row: Row, rule: Rule, total: int, vs: seq<Visit>, floor: int)
    requires Untouched(row) && MoneyNeverTakenBack(vs) && FloorOf(vs, floor)
    ensures Consistent(RowAfter(row, rule, total, vs), LastRank(Actions(row, rule, total, vs)), rule, total, floor)
    ensures StrictlyIncreasing(Actions(row, rule, total, vs))
    decreases |vs|
  {
    if vs != [] {
      var init, v := vs[..|vs| - 1], vs[|vs| - 1];
      var before := if init == [] then v.matchedPaid else init[|init| - 1].matchedPaid;
      assert init != [] ==> init[|init| - 1] == vs[|vs| - 2];
      RunAdvances(row, rule, total, init, before);
      DayAdvances(RowAfter(row, rule, total, init), LastRank(Actions(row, rule, total, init)), rule, total, before, v);
      AppendAction(Actions(row, rule, total, init), Day(RowAfter(row, rule, total, init), rule, total, v).1);
    }
  }

  lemma {:induction false} LastIsLargest(actions: seq<Action>)
    requires StrictlyIncreasing(actions)
    ensures forall i :: 0 <= i < |actions| ==> Rank(actions[i]) <= LastRank(actions)
  {
  }

  /** With a fixed rule and total and matched money that is never taken back, the actions of any
      run come in this order, each at most once: deposit request, its reminder, balance request,
      its reminder, cancellation. Nothing follows a cancellation. */
  lemma {:induction false} ActionsInOrder(row: Row, rule: Rule, total: int, vs: seq<Visit>)
    requires Untouched(row) && MoneyNeverTakenBack(vs)
    ensures StrictlyIncreasing(Actions(row, rule, total, vs))
  {
    RunAdvances(row, rule, total, vs, if vs == [] then 0 else vs[|vs| - 1].matchedPaid);
  }

  /** A balance request is only made on a day on which the matched money reaches the deposit
      less half a euro, and asks for exactly what is missing. */
  lemma {:induction false} BalanceNeedsDeposit(row: Row, rule: Rule, total: int, v: Visit)
    ensures var a := Day(row, rule, total, v).1;
            && (a.Request? && a.phase == Balance ==> v.matchedPaid + HALF_EURO >= DepositAmount(total, rule))
            && (a.Request? || a.Remind? ==>
                  a.amount > ONE_EURO && a.amount == Outstanding(v.matchedPaid, a.phase, total, rule))
            && (a.Request? && a.phase == Balance && DepositAmount(total, rule) > 0 ==>
                  a.amount == total - Max(v.matchedPaid, DepositAmount(total, rule)))
  {
    AsksForWhatIsMissing(rule, total, v.matchedPaid, false, v.daysUntilArrival, v.daysSinceBooking, v.now,
                         RefreshedPaid(row, v.remotePaid));
    if DepositAmount(total, rule) > 0 && total >= 0 {
      PhasesPartition(total, v.matchedPaid, rule);
    }
  }

  /** Starting from a booking nothing was asked of, a reminder comes right after the request it
      reminds of, and a cancellation after at least one request. */
  ghost predicate FollowsItsRequest(actions: seq<Action>) {
    forall i :: 0 <= i < |actions| ==> FollowsAt(actions, i)
  }

  ghost predicate FollowsAt(actions: seq<Action>, i: int)
    requires 0 <= i < |actions|
  {
    && (actions[i].Remind? ==> i > 0 && actions[i - 1].Request? && actions[i - 1].phase == actions[i].phase)
    && (actions[i].Cancel? ==> i > 0)
  }

  /** The last action explains the request that is out. */
  ghost predicate Explained(row: Row, actions: seq<Action>) {
    && (row.requestSentAt.Some? && row.autoCanceledAt.None? ==>
          actions != [] && var last := actions[|actions| - 1];
          (last.Request? || last.Remind?) && last.phase == row.phase && (row.reminderSentAt.None? ==> last.Request?))
    && (row.requestSentAt.None? ==> row.reminderSentAt.None?)
    && (row.requestSentAt.Some? ==> row.phase == Deposit || row.phase == Balance)
  }

  lemma {:induction false} DayExplained(row: Row, rule: Rule, total: int, v: Visit, actions: seq<Action>)
    requires Explained(row, actions) && FollowsItsRequest(actions)
    ensures var (after, a) := Day(row, rule, total, v);
            var all := actions + (if a == Nothing then [] else [a]);
            Explained(after, all) && FollowsItsRequest(all)
  {
    var (after, a) := Day(row, rule, total, v);
    var all := actions + (if a == Nothing then [] else [a]);
    forall i | 0 <= i < |all| ensures FollowsAt(all, i) {
      if i < |actions| {
        assert FollowsAt(actions, i);
      } else if i > 0 {
        assert all[i - 1] == actions[|actions| - 1];
      }
    }
  }

  lemma {:induction false} RemindersFollowRequests(row: Row, rule: Rule, total: int, vs: seq<Visit>)
    requires Untouched(row) && row.phase == NoPhase
    ensures FollowsItsRequest(Actions(row, rule, total, vs))
    ensures Explained(RowAfter(row, rule, total, vs), Actions(row, rule, total, vs))
    decreases |vs|
  {
    if vs != [] {
      var init := vs[..|vs| - 1];
      RemindersFollowRequests(row, rule, total, init);
      DayExplained(RowAfter(row, rule, total, init), rule, total, vs[|vs| - 1], Actions(row, rule, total, init));
    }
  }

  // ----- Deposits that fall short, and deposits asked for again

  /** The job works on the booking that day, Hostaway does not call it paid, and what the day
      asks for succeeds. */
  predicate Effective(row: Row, rule: Rule, total: int, v: Visit) {
    v.selected && row.autoCanceledAt.None? && total > 0 && rule.enabled && !RefreshedPaid(row, v.remotePaid).isPaid
      && v.succeeds
  }

  predicate IsRequest(a: Action, phase: Phase) {
    a.Request? && a.phase == phase
  }

  /** What leads to a deposit request, from any row. */
  predicate DepositDue(row: Row, rule: Rule, total: int, v: Visit) {
    && Effective(row, rule, total, v) && row.requestSentAt.None? && rule.autoSendGuestPaymentLink
    && rule.depositDuePercent.GetOr(0) > 0 && rule.depositDueDaysAfterBooking.Some?
    && DepositAmount(total, rule) - v.matchedPaid > ONE_EURO
    && v.daysSinceBooking <= rule.depositDueDaysAfterBooking.value
  }

  lemma {:induction false} DepositRequestedExactlyWhen(row: Row, rule: Rule, total: int, v: Visit)
    ensures IsRequest(Day(row, rule, total, v).1, Deposit) <==> DepositDue(row, rule, total, v)
  {
  }

  /** With the deposit requested, the balance follows as soon as the deposit is there but for
      half a euro, arrival is near and more than a euro of the balance is open. */
  lemma {:induction false} BalanceFollowsDeposit(row: Row, rule: Rule, total: int, v: Visit)
    requires row.phase == Deposit && row.requestSentAt.Some?
    ensures IsRequest(Day(row, rule, total, v).1, Balance) <==>
            && Effective(row, rule, total, v) && HasDeposit(rule) && rule.autoSendGuestPaymentLink
            && DepositAmount(total, rule) - v.matchedPaid <= HALF_EURO
            && Outstanding(v.matchedPaid, Balance, total, rule) > ONE_EURO
            && rule.hostDueByDaysBeforeArrival.Some? && v.daysUntilArrival <= rule.hostDueByDaysBeforeArrival.value
  {
  }

  /** With the deposit requested and the money in the gap, the day does nothing. */
  lemma {:induction false} GapDayStalls(row: Row, rule: Rule, total: int, v: Visit)
    requires row.phase == Deposit && row.requestSentAt.Some? && InDepositGap(rule, total, v.matchedPaid)
    ensures var (after, a) := Day(row, rule, total, v);
            a == Nothing && after == row.(isPaid := after.isPaid)
  {
    ShortDepositStalls(rule, total, v.matchedPaid, false, v.daysUntilArrival, v.daysSinceBooking, v.now,
                       RefreshedPaid(row, v.remotePaid));
  }

  /** And it does nothing for as long as the money stays there: no balance request, no reminder,
      not even the cancellation after the deadline. */
  lemma {:induction false} GapStallsForever(row: Row, rule: Rule, total: int, vs: seq<Visit>)
    requires row.phase == Deposit && row.requestSentAt.Some?
    requires forall i :: 0 <= i < |vs| ==> InDepositGap(rule, total, vs[i].matchedPaid)
    ensures Actions(row, rule, total, vs) == []
    ensures var after := RowAfter(row, rule, total, vs); after == row.(isPaid := after.isPaid)
    decreases |vs|
  {
    if vs != [] {
      GapStallsForever(row, rule, total, vs[..|vs| - 1]);
      GapDayStalls(RowAfter(row, rule, total, vs[..|vs| - 1]), rule, total, vs[|vs| - 1]);
    }
  }

  function DepositRequests(actions: seq<Action>): nat {
    if actions == [] then 0
    else DepositRequests(actions[..|actions| - 1]) + if IsRequest(actions[|actions| - 1], Deposit) then 1 else 0
  }

  lemma {:induction false} DepositRequestsSnoc(actions: seq<Action>, a: Action)
    ensures DepositRequests(actions + [a]) == DepositRequests(actions) + if IsRequest(a, Deposit) then 1 else 0
  {
    assert (actions + [a])[..|actions|] == actions;
  }

  /** How often the deposit has been asked for, by the job or before it first ran. */
  function TimesAsked(row: Row, rule: Rule, total: int, vs: seq<Visit>): nat {
    DepositRequests(Actions(row, rule, total, vs)) + if row.phase == Deposit then 1 else 0
  }

  /** On day k the deposit counts as paid, but by now it is short by more than a euro, within its
      window. */
  predicate AsksAgainOn(row: Row, rule: Rule, total: int, vs: seq<Visit>, k: int)
    requires 0 <= k < |vs|
  {
    var now := RowAfter(row, rule, total, vs[..k]);
    now.phase == DepositPaid && DepositDue(now, rule, total, vs[k])
  }

  ghost predicate AsksAgain(row: Row, rule: Rule, total: int, vs: seq<Visit>) {
    exists k :: 0 <= k < |vs| && AsksAgainOn(row, rule, total, vs, k)
  }

  lemma {:induction false} AsksAgainSnoc(row: Row, rule: Rule, total: int, vs: seq<Visit>)
    requires vs != []
    ensures AsksAgain(row, rule, total, vs) <==>
            AsksAgain(row, rule, total, vs[..|vs| - 1]) || AsksAgainOn(row, rule, total, vs, |vs| - 1)
  {
    var init := vs[..|vs| - 1];
    forall k | 0 <= k < |init|
      ensures AsksAgainOn(row, rule, total, init, k) <==> AsksAgainOn(row, rule, total, vs, k)
    {
      assert init[..k] == vs[..k];
    }
  }

  /** What the phase says of the requests made so far. */
  predicate PhaseCounts(row: Row, asked: nat) {
    match row.phase
    case NoPhase => row.requestSentAt.None? && asked == 0
    case Deposit => row.requestSentAt.Some? && asked >= 1
    case DepositPaid => row.requestSentAt.None? && asked >= 1
    case _ => row.requestSentAt.Some?
  }

  lemma {:induction false} DayCounts(row: Row, rule: Rule, total: int, v: Visit, asked: nat)
    requires PhaseCounts(row, asked)
    ensures var (after, a) := Day(row, rule, total, v);
            PhaseCounts(after, asked + if IsRequest(a, Deposit) then 1 else 0)
  {
  }

  lemma {:induction false} RunCounts(row: Row, rule: Rule, total: int, vs: seq<Visit>)
    requires Untouched(row)
    ensures PhaseCounts(RowAfter(row, rule, total, vs), TimesAsked(row, rule, total, vs))
    ensures TimesAsked(row, rule, total, vs) >= 2 <==> AsksAgain(row, rule, total, vs)
    decreases |vs|
  {
    if vs != [] {
      var init, v := vs[..|vs| - 1], vs[|vs| - 1];
      RunCounts(row, rule, total, init);
      var before := RowAfter(row, rule, total, init);
      DayCounts(before, rule, total, v, TimesAsked(row, rule, total, init));
      DepositRequestedExactlyWhen(before, rule, total, v);
      DepositRequestsSnoc(Actions(row, rule, total, init), Day(before, rule, total, v).1);
      assert Actions(row, rule, total, init) + [] == Actions(row, rule, total, init);
      AsksAgainSnoc(row, rule, total, vs);
    }
  }

  /** The deposit is marked paid only after a day on which the money reached it. */
  lemma {:induction false} PaidAfterMoney(row: Row, rule: Rule, total: int, vs: seq<Visit>) returns (j: nat)
    requires Untouched(row) && RowAfter(row, rule, total, vs).phase == DepositPaid
    ensures j < |vs| && vs[j].matchedPaid + HALF_EURO >= DepositAmount(total, rule)
    decreases |vs|
  {
    var init := vs[..|vs| - 1];
    if RowAfter(row, rule, total, init).phase == DepositPaid {
      j := PaidAfterMoney(row, rule, total, init);
    } else {
      j := |vs| - 1;
    }
  }

  /** A run asks for the deposit twice if and only if on some day it counts as paid and is short
      by more than a euro within its window; and then money that had reached it was taken back. */
  lemma {:induction false} DepositAskedTwiceExactlyWhen(row: Row, rule: Rule, total: int, vs: seq<Visit>)
    requires Untouched(row)
    ensures TimesAsked(row, rule, total, vs) >= 2 <==> AsksAgain(row, rule, total, vs)
    ensures TimesAsked(row, rule, total, vs) >= 2 ==>
            exists j, k :: 0 <= j < k < |vs| && vs[j].matchedPaid + HALF_EURO >= DepositAmount(total, rule)
                           && vs[k].matchedPaid + ONE_EURO < DepositAmount(total, rule)
  {
    RunCounts(row, rule, total, vs);
    if AsksAgain(row, rule, total, vs) {
      var k :| 0 <= k < |vs| && AsksAgainOn(row, rule, total, vs, k);
      var j := PaidAfterMoney(row, rule, total, vs[..k]);
      assert vs[j] == vs[..k][j];
    }
  }

  // ----- What a day writes

  /** The row with Hostaway's word on isPaid: once paid it stays paid. */
  ghost predicate PaidAsTold(row: Row, after: Row, remote: Option<bool>) {
    && (after.isPaid <==> row.isPaid || remote == Some(true))
  }

  /** The number of days a request of this phase gives the guest. */
  function WindowDays(rule: Rule, phase: Phase): Option<int> {
    if phase == Deposit then rule.depositDueDaysAfterBooking else rule.paymentDeadlineDays
  }

  /** A request is stamped with the day's time and gets a deadline that many days later, none if
      there is no positive number of days; a balance request may be reminded of again. */
  lemma {:induction false} RequestWrites(row: Row, rule: Rule, total: int, v: Visit)
    ensures var (after, a) := Day(row, rule, total, v);
            a.Request? ==>
              && after.requestSentAt == Some(v.now) && after.phase == a.phase && after.autoCanceledAt.None?
              && after.deadlineAt == (if WindowDays(rule, a.phase).GetOr(0) > 0
                                      then Some(v.now + WindowDays(rule, a.phase).value * 86_400_000) else None)
              && (a.phase == Balance ==> after.reminderSentAt.None?)
              && (a.phase == Deposit ==> after.reminderSentAt == row.reminderSentAt)
              && PaidAsTold(row, after, v.remotePaid)
  {
  }

  /** A reminder and a cancellation write their own time and nothing else. */
  lemma {:induction false} OtherActionsWrite(row: Row, rule: Rule, total: int, v: Visit)
    ensures var (after, a) := Day(row, rule, total, v);
            && (a.Remind? ==> after == row.(reminderSentAt := Some(v.now), isPaid := after.isPaid))
            && (a.Cancel? ==> after == row.(autoCanceledAt := Some(v.now), isPaid := after.isPaid))
            && (a.Remind? || a.Cancel? ==> PaidAsTold(row, after, v.remotePaid))
  {
  }

  /** The deposit that was asked for counts as paid: the job works on the booking, Hostaway does
      not call it paid, and the money is there but for half a euro. */
  predicate DepositCounts(row: Row, rule: Rule, total: int, v: Visit) {
    && v.selected && row.autoCanceledAt.None? && total > 0 && rule.enabled
    && !row.isPaid && v.remotePaid != Some(true)
    && rule.depositDuePercent.GetOr(0) > 0 && row.phase == Deposit && row.requestSentAt.Some?
    && DepositAmount(total, rule) - v.matchedPaid <= 50
  }

  /** A day without an action marks a deposit that counts as paid, which clears its request, its
      reminder and its deadline, and otherwise only takes over Hostaway's word. */
  lemma {:induction false} IdleDayWrites(row: Row, rule: Rule, total: int, v: Visit)
    ensures var (after, a) := Day(row, rule, total, v);
            a == Nothing ==>
              && (DepositCounts(row, rule, total, v) ==>
                    after == Row(None, None, None, DepositPaid, None, after.isPaid))
              && (!DepositCounts(row, rule, total, v) ==> after == row.(isPaid := after.isPaid))
              && (v.selected && row.autoCanceledAt.None? && total > 0 && rule.enabled ==>
                  PaidAsTold(row, after, v.remotePaid))
              && (!(v.selected && row.autoCanceledAt.None? && total > 0 && rule.enabled) ==> after == row)
  {
  }

  /** What the request that is out still lacks. */
  function Lacking(row: Row, rule: Rule, total: int, v: Visit): int {
    Outstanding(v.matchedPaid, if row.phase == NoPhase then Full else row.phase, total, rule)
  }

  /** A day cancels if and only if the deadline of the request that is out has passed, more than a
      euro of it is missing, and the rule cancels. */
  lemma {:induction false} CancelledExactlyWhen(row: Row, rule: Rule, total: int, v: Visit)
    ensures Day(row, rule, total, v).1 == Cancel <==>
            && Effective(row, rule, total, v) && row.requestSentAt.Some? && row.deadlineAt.Some?
            && v.now >= row.deadlineAt.value && Lacking(row, rule, total, v) > 100 && rule.autoCancelIfUnpaid
  {
  }

  /** A day reminds if and only if the request that is out has a deadline ahead, no further than the
      reminder days, was not reminded of yet, and more than a euro of it is missing. */
  lemma {:induction false} RemindedExactlyWhen(row: Row, rule: Rule, total: int, v: Visit)
    ensures Day(row, rule, total, v).1.Remind? <==>
            && Effective(row, rule, total, v) && row.requestSentAt.Some? && row.deadlineAt.Some?
            && v.now < row.deadlineAt.value && row.reminderSentAt.None? && Lacking(row, rule, total, v) > 100
            && rule.guestReminderDaysBeforeDeadline.Some?
            && row.deadlineAt.value - v.now <= rule.guestReminderDaysBeforeDeadline.value * 86_400_000
  {
  }

  /** The action of the k-th day of a run. */
  function ActionOn(row: Row, rule: Rule, total: int, vs: seq<Visit>, k: int): Action
    requires 0 <= k < |vs|
  {
    Day(RowAfter(row, rule, total, vs[..k]), rule, total, vs[k]).1
  }

  /** The j-th day made the request that is out: its phase and deadline are the row's, and no later
      day made another. */
  ghost predicate RequestedOn(row: Row, rule: Rule, total: int, vs: seq<Visit>, j: int) {
    && 0 <= j < |vs| && ActionOn(row, rule, total, vs, j).Request?
    && var now, phase := RowAfter(row, rule, total, vs), ActionOn(row, rule, total, vs, j).phase;
       && now.phase == phase
       && now.deadlineAt == (if WindowDays(rule, phase).GetOr(0) > 0
                             then Some(vs[j].now + WindowDays(rule, phase).value * 86_400_000) else None)
       && forall i :: j < i < |vs| ==> !ActionOn(row, rule, total, vs, i).Request?
  }

  lemma {:induction false} RequestStays(row: Row, rule: Rule, total: int, vs: seq<Visit>, j: int)
    requires vs != [] && RequestedOn(row, rule, total, vs[..|vs| - 1], j)
    requires !ActionOn(row, rule, total, vs, |vs| - 1).Request?
    requires var before, after := RowAfter(row, rule, total, vs[..|vs| - 1]), RowAfter(row, rule, total, vs);
             after.phase == before.phase && after.deadlineAt == before.deadlineAt
    ensures RequestedOn(row, rule, total, vs, j)
  {
    var init := vs[..|vs| - 1];
    forall i | 0 <= i < |init|
      ensures ActionOn(row, rule, total, init, i) == ActionOn(row, rule, total, vs, i)
    {
      assert init[..i] == vs[..i];
    }
  }

  /** From an untouched booking, a request that is out was made by the job on some day of the run. */
  lemma {:induction false} RequestIsOwn(row: Row, rule: Rule, total: int, vs: seq<Visit>) returns (j: int)
    requires Untouched(row) && row.phase == NoPhase && RowAfter(row, rule, total, vs).requestSentAt.Some?
    ensures RequestedOn(row, rule, total, vs, j)
    decreases |vs|
  {
    var init, v := vs[..|vs| - 1], vs[|vs| - 1];
    var before := RowAfter(row, rule, total, init);
    RequestWrites(before, rule, total, v);
    if ActionOn(row, rule, total, vs, |vs| - 1).Request? {
      j := |vs| - 1;
    } else {
      OtherActionsWrite(before, rule, total, v);
      IdleDayWrites(before, rule, total, v);
      j := RequestIsOwn(row, rule, total, init);
      RequestStays(row, rule, total, vs, j);
    }
  }

  /** A booking is never cancelled before its time: the last day of a run cancels only if at least
      the days its last request gave have gone by since that request. */
  lemma {:induction false} CancelWaitsForDeadline(row: Row, rule: Rule, total: int, vs: seq<Visit>) returns (j: int)
    requires Untouched(row) && row.phase == NoPhase && vs != []
    requires ActionOn(row, rule, total, vs, |vs| - 1) == Cancel
    ensures 0 <= j < |vs| - 1 && ActionOn(row, rule, total, vs, j).Request?
    ensures forall i :: j < i < |vs| ==> !ActionOn(row, rule, total, vs, i).Request?
    ensures var days := WindowDays(rule, ActionOn(row, rule, total, vs, j).phase);
            days.GetOr(0) > 0 && vs[|vs| - 1].now >= vs[j].now + days.value * 86_400_000
  {
    var init := vs[..|vs| - 1];
    CancelledExactlyWhen(RowAfter(row, rule, total, init), rule, total, vs[|vs| - 1]);
    j := RequestIsOwn(row, rule, total, init);
    forall i | 0 <= i < |init|
      ensures ActionOn(row, rule, total, init, i) == ActionOn(row, rule, total, vs, i)
    {
      assert init[..i] == vs[..i];
    }
  }

  const DIRECT := Rule([], true, true, 0, None, None, 70, Some(28), None, None, false, false, Some(30), Some(7),
                       None, true, None, false)
  const BLANK := Row(None, None, None, NoPhase, None, false)

  /** Taking matched money back (an undone payment) makes the job ask for the deposit twice:
      the condition on the money is needed. */
  lemma {:induction false} DepositAskedTwiceAfterUndo(v: Visit)
    requires v == Visit(true, Some(false), 0, 60, 1, 0, true)
    ensures var request := Request(Deposit, 30000);
            Actions(BLANK, DIRECT, 100000, [v, v.(matchedPaid := 30000), v]) == [request, request]
  {
    var paid := v.(matchedPaid := 30000);
    var vs := [v, paid, v];
    var r1 := AfterRequest(BLANK, DIRECT, Deposit, 0);
    assert vs[..2] == [v, paid] && [v, paid][..1] == [v];
    assert RowAfter(BLANK, DIRECT, 100000, []) == BLANK && [v][..0] == [];
    assert Day(BLANK, DIRECT, 100000, v) == (r1, Request(Deposit, 30000));
    assert RowAfter(BLANK, DIRECT, 100000, [v]) == r1;
    assert Day(r1, DIRECT, 100000, paid) == (AfterDeposit(r1), Nothing);
    assert RowAfter(BLANK, DIRECT, 100000, [v, paid]) == AfterDeposit(r1);
    assert Actions(BLANK, DIRECT, 100000, [v]) == [] + [Request(Deposit, 30000)];
  }
}
