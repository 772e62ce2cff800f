/** The guest payment schedule: deposit, balance, reminders and the deadline
    (guest-payment-schedule.util.ts). Instants are in milliseconds. */
module GuestSchedule {
  import opened Wrappers
  import opened PortalRules

  datatype Phase = NoPhase | Deposit | DepositPaid | Balance | Full

  datatype Schedule = Schedule(
    phase: Phase,
    amountDue: int,
    shouldRequestPayment: bool,
    shouldSendGuestReminder: bool,
    shouldCancel: bool)

  /** The payment columns of a reservation row. */
  datatype Row = Row(
    requestSentAt: Option<int>,
    reminderSentAt: Option<int>,
    deadlineAt: Option<int>,
    phase: Phase,
    autoCanceledAt: Option<int>,
    isPaid: bool)

  const MS_PER_DAY := 86_400_000
  const HALF_EURO := 50
  const DEFAULT_WINDOW_DAYS := 7

  function DepositAmount(total: int, rule: Rule): int {
    var percent := rule.depositDuePercent.GetOr(0);
    if percent <= 0 then 0 else PercentOf(total, percent)
  }

  function FullAmount(total: int, rule: Rule): int {
    PercentOf(total, rule.hostDuePercent)
  }

  function BalanceAmount(total: int, rule: Rule): int {
    var deposit := DepositAmount(total, rule);
    if deposit > 0 then Max(0, total - deposit) else FullAmount(total, rule)
  }

  function AmountOf(phase: Phase, total: int, rule: Rule): int {
    match phase
    case Deposit => DepositAmount(total, rule)
    case Balance => BalanceAmount(total, rule)
    case _ => FullAmount(total, rule)
  }

  function PaidToward(matchedPaid: int, phase: Phase, total: int, rule: Rule): int {
    match phase
    case Deposit => Min(matchedPaid, DepositAmount(total, rule))
    case Balance => Max(0, matchedPaid - DepositAmount(total, rule))
    case _ => matchedPaid
  }

  /** What a phase still lacks. */
  function Outstanding(matchedPaid: int, phase: Phase, total: int, rule: Rule): int {
    Max(0, AmountOf(phase, total, rule) - PaidToward(matchedPaid, phase, total, rule))
  }

  function NoAction(): Schedule {
    Schedule(NoPhase, 0, false, false, false)
  }

  predicate HasDeposit(rule: Rule) {
    rule.depositDuePercent.Some? && rule.depositDuePercent.value > 0 && rule.depositDueDaysAfterBooking.Some?
  }

  function Evaluate(rule: Rule, total: int, matchedPaid: int, isPaid: bool, daysUntilArrival: int,
                    daysSinceBooking: int,
                    now: int, row: Row): Schedule
  {
    if isPaid || total <= 0 then NoAction()
    else if row.requestSentAt.Some? && row.deadlineAt.Some? then
      WhileRequested(rule, total, matchedPaid, now, row, row.deadlineAt.value)
    else if HasDeposit(rule) then
      NextRequest(rule, total, matchedPaid, daysUntilArrival, daysSinceBooking, row)
    else NoAction()
  }

  /** A request is out and has a deadline: remind, cancel or wait. */
  function WhileRequested(rule: Rule, total: int, matchedPaid: int, now: int, row: Row, deadline: int): Schedule {
    var phase := if row.phase == NoPhase then Full else row.phase;
    var outstanding := Outstanding(matchedPaid, phase, total, rule);
    var reminderDays := rule.guestReminderDaysBeforeDeadline.GetOr(0);
    if outstanding <= ONE_EURO then NoAction()
    else if now >= deadline && rule.autoCancelIfUnpaid then Schedule(phase, outstanding, false, false, true)
    else if reminderDays > 0 && deadline - reminderDays * MS_PER_DAY <= now < deadline && row.reminderSentAt.None? then
      Schedule(phase, outstanding, false, true, false)
    else Schedule(phase, outstanding, false, false, false)
  }

  /** No request with a deadline is out: ask for the deposit, then for the balance. */
  function NextRequest(rule: Rule, total: int, matchedPaid: int, daysUntilArrival: int, daysSinceBooking: int,
                       row: Row): Schedule
    requires rule.depositDueDaysAfterBooking.Some?
  {
    var depositLeft := Outstanding(matchedPaid, Deposit, total, rule);
    var balanceLeft := Outstanding(matchedPaid, Balance, total, rule);
    if depositLeft > ONE_EURO && daysSinceBooking <= rule.depositDueDaysAfterBooking.value
      && row.requestSentAt.None? then
      Schedule(Deposit, depositLeft, rule.autoSendGuestPaymentLink, false, false)
    else if balanceLeft > ONE_EURO
            && rule.hostDueByDaysBeforeArrival.Some? && daysUntilArrival <= rule.hostDueByDaysBeforeArrival.value
            && matchedPaid + HALF_EURO >= DepositAmount(total, rule)
            && row.requestSentAt.None?
            && (row.phase == NoPhase || row.phase == Deposit || row.phase == DepositPaid) then
      Schedule(Balance, balanceLeft, rule.autoSendGuestPaymentLink, false, false)
    else NoAction()
  }

  /** Deposit and balance split the price, the money paid, and what is missing, without loss. */
  lemma PhasesPartition(total: int, matchedPaid: int, rule: Rule)
    requires total >= 0 && DepositAmount(total, rule) > 0
    ensures DepositAmount(total, rule) + BalanceAmount(total, rule) == total
    ensures PaidToward(matchedPaid, Deposit, total, rule) + PaidToward(matchedPaid, Balance, total, rule) == matchedPaid
    ensures Outstanding(matchedPaid, Deposit, total, rule) + Outstanding(matchedPaid, Balance, total, rule)
            == Max(0, total - matchedPaid)
  {
    PercentWithinTotal(total, rule.depositDuePercent.GetOr(0));
  }

  /** The schedule asks for one thing at most, and only for the missing part of a phase when
      that is more than a euro. */
  lemma AsksForWhatIsMissing(rule: Rule, total: int, matchedPaid: int, isPaid: bool, daysUntilArrival: int,
                             daysSinceBooking: int,
                             now: int, row: Row)
    ensures var s := Evaluate(rule, total, matchedPaid, isPaid, daysUntilArrival, daysSinceBooking, now, row);
            && (s.shouldCancel ==> !s.shouldSendGuestReminder)
            && (s.shouldRequestPayment ==> !s.shouldCancel && !s.shouldSendGuestReminder)
            && (s.shouldCancel || s.shouldSendGuestReminder || s.shouldRequestPayment ==>
                  !isPaid && s.amountDue > ONE_EURO && s.amountDue == Outstanding(matchedPaid, s.phase, total, rule))
            && (s.shouldRequestPayment ==> row.requestSentAt.None? && (s.phase == Deposit || s.phase == Balance))
            && (s.shouldCancel || s.shouldSendGuestReminder ==> row.requestSentAt.Some?)
  {
  }

  /** The deposit is short by too much for the balance and too little for another request. */
  predicate InDepositGap(rule: Rule, total: int, matchedPaid: int) {
    HALF_EURO < DepositAmount(total, rule) - matchedPaid <= ONE_EURO
  }

  /** A deposit in the gap leads to nothing on any day, whether it has been requested or not. And
      where both windows are open and no request is out, nothing is asked for only in the gap, or
      when deposit and balance are there but for a euro. */
  lemma ShortDepositStalls(rule: Rule, total: int, matchedPaid: int, isPaid: bool, daysUntilArrival: int,
                           daysSinceBooking: int,
                           now: int, row: Row)
    ensures var s := Evaluate(rule, total, matchedPaid, isPaid, daysUntilArrival, daysSinceBooking, now, row);
            InDepositGap(rule, total, matchedPaid) && (row.requestSentAt.None? || row.phase == Deposit) ==>
              s == NoAction()
    ensures var s := Evaluate(rule, total, matchedPaid, isPaid, daysUntilArrival, daysSinceBooking, now, row);
            && HasDeposit(rule) && rule.autoSendGuestPaymentLink && total > 0 && !isPaid && row.requestSentAt.None?
            && (row.phase == NoPhase || row.phase == Deposit || row.phase == DepositPaid)
            && daysSinceBooking <= rule.depositDueDaysAfterBooking.value
            && rule.hostDueByDaysBeforeArrival.Some? && daysUntilArrival <= rule.hostDueByDaysBeforeArrival.value
            ==>
            (!s.shouldRequestPayment <==>
               || InDepositGap(rule, total, matchedPaid)
               || (DepositAmount(total, rule) - matchedPaid <= HALF_EURO
                   && Outstanding(matchedPaid, Balance, total, rule) <= ONE_EURO))
  {
  }

  /** Money is owed and a request with a deadline is out. */
  predicate Awaiting(total: int, isPaid: bool, row: Row) {
    !isPaid && total > 0 && row.requestSentAt.Some? && row.deadlineAt.Some?
  }

  /** What leads to each of the four actions, and that nothing else does. */
  lemma ActsExactlyWhen(rule: Rule, total: int, matchedPaid: int, isPaid: bool, daysUntilArrival: int,
                        daysSinceBooking: int,
                        now: int, row: Row)
    ensures var s := Evaluate(rule, total, matchedPaid, isPaid, daysUntilArrival, daysSinceBooking, now, row);
            var asked := if row.phase == NoPhase then Full else row.phase;
            var left := Outstanding(matchedPaid, asked, total, rule);
            var late := row.deadlineAt.Some? && now >= row.deadlineAt.value;
            && (s.shouldCancel <==> Awaiting(total, isPaid, row) && left > ONE_EURO && late && rule.autoCancelIfUnpaid)
            && (s.shouldSendGuestReminder <==>
                  && Awaiting(total, isPaid, row) && left > ONE_EURO && !late && row.reminderSentAt.None?
                  && rule.guestReminderDaysBeforeDeadline.Some?
                  && row.deadlineAt.value - now <= rule.guestReminderDaysBeforeDeadline.value * MS_PER_DAY)
            && (s.shouldRequestPayment ==>
                  rule.autoSendGuestPaymentLink && HasDeposit(rule) && !isPaid && row.requestSentAt.None?)
            && (s.shouldCancel || s.shouldSendGuestReminder ==> s.phase == asked)
  {
  }

  /** Of a booking with a deposit rule and no request out: the deposit is asked for within its
      window, the balance once the deposit is there and arrival is near. */
  lemma RequestsExactlyWhen(rule: Rule, total: int, matchedPaid: int, daysUntilArrival: int, daysSinceBooking: int,
                            now: int, row: Row)
    requires HasDeposit(rule) && rule.autoSendGuestPaymentLink && total > 0 && row.requestSentAt.None?
    ensures var s := Evaluate(rule, total, matchedPaid, false, daysUntilArrival, daysSinceBooking, now, row);
            var short := DepositAmount(total, rule) - matchedPaid;
            && (s.shouldRequestPayment && s.phase == Deposit <==>
                  short > ONE_EURO && daysSinceBooking <= rule.depositDueDaysAfterBooking.value)
            && (s.shouldRequestPayment && s.phase == Balance <==>
                  && short <= HALF_EURO && Outstanding(matchedPaid, Balance, total, rule) > ONE_EURO
                  && rule.hostDueByDaysBeforeArrival.Some? && daysUntilArrival <= rule.hostDueByDaysBeforeArrival.value
                  && row.phase != Balance && row.phase != Full)
  {
  }

  // ----- The amounts

  /** The deposit is its percentage of the price to the nearest cent, none without a percentage;
      the full amount is the host's share; with a deposit the balance is the rest of the price. */
  lemma PhaseAmounts(total: int, rule: Rule)
    requires total >= 0
    ensures var percent := rule.depositDuePercent.GetOr(0);
            && (percent <= 0 ==> AmountOf(Deposit, total, rule) == 0)
            && (0 < percent <= 100 ==>
                  100 * AmountOf(Deposit, total, rule) - 50 <= total * percent < 100 * AmountOf(Deposit, total,
                      rule) + 50)
            && (percent > 100 ==> AmountOf(Deposit, total, rule) == total)
    ensures AmountOf(Full, total, rule) == PercentOf(total, rule.hostDuePercent)
    ensures AmountOf(Balance, total, rule) ==
            if AmountOf(Deposit, total, rule) > 0 then total - AmountOf(Deposit, total, rule)
              else AmountOf(Full, total, rule)
  {
    SharesExactly(total, rule.depositDuePercent.GetOr(0));
    PercentWithinTotal(total, rule.depositDuePercent.GetOr(0));
  }

  /** What a phase lacks: the deposit counts the money up to its amount, the balance the money
      beyond the deposit, the full amount all of it; never less than nothing. */
  lemma PhaseLacks(matchedPaid: int, total: int, rule: Rule)
    requires total >= 0
    ensures var deposit := AmountOf(Deposit, total, rule);
            && Outstanding(matchedPaid, Deposit, total, rule) == Max(0, deposit - matchedPaid)
            && Outstanding(matchedPaid, Balance, total, rule) ==
               Max(0, AmountOf(Balance, total, rule) - Max(0, matchedPaid - deposit))
            && Outstanding(matchedPaid, Full, total, rule) == Max(0, AmountOf(Full, total, rule) - matchedPaid)
  {
  }
}
