# Verified model of the booking middleware

A Dafny model of the parts of the middleware in which money, dates and nights must come out right: payment
reconciliation and its instalment ledger, the CHECK24 calendar push and booking protocol, the guest payment
job with the portal rules, and the availability search. `dafny verify dfyconfig.toml` checks all of it.

## How the project is laid out

Each stateful service is modelled twice. A specification describes each operation as a function of the tables;
theorems about single operations, pairs of operations and whole runs are proved about it. A class with the
service's fields then performs the operation step by step, loops included, and every method is proved to leave
exactly the tables the specification gives. Pure utilities are functions with lemmas.

- **Instalment ledger.** `Gregorian` is the calendar of ECMA-262 section 21.4.1 as day numbers, with a proved
  two-way correspondence between day numbers and calendar dates. `DueDates` runs the `setUTCMonth` overflow and
  the clamp on a mutable date object, and proves what one, many and undone steps come to. `PaymentPlan` is the
  ledger with its tolerances.
- **Payment reconciliation.** `PaymentBooks` (tables, one settled line), `Reconciliation` (the operations),
  `ReconciliationInvariant` (three views of the money agree), `ReconciliationRuns` (all runs),
  `ReconciliationCalls` (how often Hostaway is called, and what becomes of its answers), `ReconciliationBalances`
  (every balance is accounted for), `ReconciliationOutcomes` (what each operation comes to), `ReconciliationUndo` (what undo takes back), `ReconciliationLedger` (when undo
  and rollback bring the instalment plans back), `ReconciliationSchedule` (plans over whole runs),
  `ReconciliationBatches` (queue poll, plan deletion),
  `PaymentReconciliationService` (the imperative service).
- **CHECK24 calendar.** `RunLength` (why the greedy coding is the only shortest one), `CalendarRanges` (the range
  builders), `Reopening` (which nights a cancellation frees), `Check24Sync` (the service, up to the pushed list).
- **CHECK24 bookings.** `Check24Booking`: deliveries, imports and cancellations in both directions.
- **Guest payments.** `PortalRules`, `GuestSchedule`, `GuestPaymentRuns` (one reservation, day after day) and
  `GuestPaymentJob` (the daily loop).
- **Availability search.** `Weekends`, `Pigeonhole`, `Availability` (counting rows decides coverage), `AvailabilitySearch`
  (the batched weekend search says what the single search says) and `AvailabilityAnswers` (what the answers hold).

## What the model takes as given

- Money is in whole cents, so `roundMoney` changes nothing except where a percentage is taken; there rounding is
  half up to the cent. Percentages are whole numbers (`prisma/schema.prisma:525-541`), so `clampPercent` only clips.
- Calendar dates and YMD strings are day numbers. Clocks, Berlin day counts and configuration values are parameters.
- The matcher is an arbitrary result, or none where it throws. It ranks stored reservations and calls no payment
  of zero or less unambiguous (`src/automation/payment-matcher.service.ts:46-52`).
- Whether a listing is offline, whether an error text looks like a rejected archived listing (with or without its
  "Hostaway apply failed: " prefix), and whether an inquiry may not be paid are flags carried by the rows.
- Saved plans pass the checks of `src/automation/payment-plan.service.ts:283-297`: a positive instalment, nothing negative.
- The inbox check (`src/hostaway/payment-inbox.service.ts:100-135`) is a step that writes the row of a charge that has
  none. Reservations and plans are saved by steps that may set any value.
- Remote calls succeed or fail as an input says. A charge that fails has no effect. Hostaway never hands out a
  charge or reservation id twice. Storage writes succeed, and operations do not interleave.
- Statuses are in lower case. The plan frequency is one of its four values, so the `default` branch of the date
  switch cannot be taken.

## Where the code does less than it seems to promise

Each of these is a theorem stating the exact condition, or an input on which the promise fails.

- `skipReview` asks for no status; skipping an applied payment leaves its allocations behind
  (`ReconciliationInvariant.SkipKeepsInv`).
- A split that fails half-way takes its charges back but not its ledger entries
  (`ReconciliationLedger.FailedSplitLeavesLedgerMoved`, `ReconciliationLedger.FailuresSpareLedger`).
- Undo restores the ledger only under a condition. A payment of half the instalment is one that is not restored
  (`PaymentPlan.UndoInvertsApply`, `PaymentPlan.HalfInstalmentIsNotRestored`), and a payment to a plan that is
  switched off is reversed without ever having been recorded (`ReconciliationLedger.RecordedAndReversed`).
- Deleting a plan takes back at most 50 automatic applications (`ReconciliationBatches.PlanDeletionRestores`).
- A deposit short by more than half a euro but at most one euro blocks every further step
  (`GuestPaymentRuns.GapStallsForever`), and undoing a payment can make the job ask for the deposit again
  (`GuestPaymentRuns.DepositAskedTwiceExactlyWhen`).
- An outdated CHECK24 delivery brings an ended booking back to life, and a provider cancel may then be posted for a
  booking the guest has cancelled (`Check24Booking.CancelPostedExactlyWhen`).

## Model

| member | source | states |
|---|---|---|
| Gregorian.YearLength | src/automation/payment-plan.util.ts:29-30 | Year starts of ECMA-262 section 21.4.1.3 are 366 days apart exactly in leap years. |
| Gregorian.ReadCivil | src/automation/payment-plan.util.ts:39-42 | The year, month and day read off any day number form a valid date whose day number it is. |
| Gregorian.CivilRoundTrip | src/automation/payment-plan.util.ts:39-42 | Every valid date is the only one with its day number: reading it back gives the date. |
| Gregorian.MonthsAbut | src/automation/payment-plan.util.ts:40-44 | For every month, across year ends too, the next month starts right after its last day. |
| Gregorian.DayInMonthReadsBack | src/automation/payment-plan.util.ts:40-44 | A day that exists in a month is read back as that month and that day. |
| Gregorian.KnownDates | src/automation/payment-plan.util.ts:29-30 | Day 0 is 1970-01-01, and 29 February 2000 was day 11016, a Tuesday. |
| Gregorian.MonthTable | src/automation/payment-plan.util.ts:39-46 | The lengths of the twelve months, February by the length of the year. |
| DueDates.UtcDate.SetUTCMidnight | src/automation/payment-plan.util.ts:30 | Keeps the day and drops the time of day. |
| DueDates.UtcDate.SetUTCDate | src/automation/payment-plan.util.ts:33 | Moves to the given day counted within the current month, running over month ends in both directions. |
| DueDates.UtcDate.SetUTCMonth | src/automation/payment-plan.util.ts:40 | Keeps the day of the month and overflows into the following month when it does not exist. |
| DueDates.OverflowClamps | src/automation/payment-plan.util.ts:38-46 | For every date and any number of months, overflow, test and day 0 together land on the same day of the target month, or on its last day if it is shorter. |
| DueDates.ClampAtIndex | src/automation/payment-plan.util.ts:40-44 | The same for any month and any day from 1 to 31, overflowing only in a shorter month. |
| DueDates.AdvanceDueDate | src/automation/payment-plan.util.ts:24-59 | A fresh date at midnight, 7, 14 or the custom number of days later, or one clamped calendar month later. |
| DueDates.RewindDueDate | src/automation/payment-plan.util.ts:62-96 | A fresh date at midnight, one period earlier, clamped likewise. |
| DueDates.AdvanceMovesForward | src/automation/payment-plan.util.ts:24-59 | Every frequency strictly increases the due date; a monthly step is 28 to 31 days. |
| DueDates.RewindMovesBack | src/automation/payment-plan.util.ts:62-96 | Every frequency strictly decreases the due date. |
| DueDates.RewindUndoesAdvance | src/automation/payment-plan.util.ts:61-96 | Rewinding an advanced date gives the date back if and only if the plan is not monthly or the day exists in the next month. |
| DueDates.MonthlyRun | src/automation/payment-plan.util.ts:38-46 | n monthly advances land n calendar months later on the least of the start day and the lengths of all months passed. |
| DueDates.AdvancesAccumulate | src/automation/payment-plan.util.ts:24-59 | k advances are at least k days, and for monthly plans between 28k and 31k days. |
| DueDates.FixedIntervals | src/automation/payment-plan.util.ts:31-54 | k weekly, semi-monthly or custom advances are exactly k times 7, 14 or the custom interval, 30 days without one. |
| PaymentPlan.ApplyPaymentToPlan | src/automation/payment-plan.util.ts:103-145 | The whole ledger after a payment, in every branch, the advanced flag, and the caller's date set to midnight. |
| PaymentPlan.ReversePaymentOnPlan | src/automation/payment-plan.util.ts:148-190 | The whole ledger after an undo, in every branch. |
| PaymentPlan.CloseWithinTolerance | src/automation/payment-plan.util.ts:18-21 | Two amounts are close if and only if they differ by at most a euro or half a percent of the second, whichever is more. |
| PaymentPlan.AdvancesExactlyWhen | src/automation/payment-plan.util.ts:121-132 | A payment advances the schedule if and only if it is close to what is due or at least that less half a euro, from the due date or else from today. |
| PaymentPlan.DueAfterPayment | src/automation/payment-plan.util.ts:129-142 | What is due next is a whole instalment or what the payment left of it, nothing once half a euro or less is open, and never more than is open. |
| PaymentPlan.ReversedExactlyWhen | src/automation/payment-plan.util.ts:148-190 | An undo goes back a period if and only if the amount is recognised as an instalment; what is due then is a whole instalment or the amount more, between the amount and the balance where one is open. |
| PaymentPlan.NeverAheadOfTheMoney | src/automation/payment-plan.util.ts:103-145 | For any sequence of positive payments with k advances, money received plus what is due next less what was due first is at least k times the instalment less its tolerance; the amount due stays between 0 and the instalment, and the paid total is exact. |
| PaymentPlan.DueDateCountsAdvances | src/automation/payment-plan.util.ts:125-129 | After any sequence of payments the due date is the first one advanced once per covering payment. |
| PaymentPlan.UndoInvertsApply | src/automation/payment-plan.util.ts:147-190 | With no known balance, undo is the inverse of apply if and only if a condition on plan and payment holds that can be checked before the payment. |
| PaymentPlan.UndoInvertsApplyWithBalance | src/automation/payment-plan.util.ts:103-190 | With known balances, whether or not the payment's charge counts toward them, undo is the inverse of apply if and only if a condition on plan, payment and balances holds: a covering payment must be recognised again with a whole instalment due on a date that exists next period, a partial one must leave more than half a euro open with the amount due within the balance. |
| PaymentPlan.HalfInstalmentIsNotRestored | src/automation/payment-plan.util.ts:162-176 | Paying half a weekly instalment and undoing it loses a week. |
| PaymentBooks.SettleBooks | src/automation/payment-reconciliation.service.ts:122-237 | A settled line adds its own charge row or none, calls Hostaway at most once and never for an offline listing, with the answer on record; a refusal changes no table unless the listing looks archived. |
| PaymentBooks.PaidNothing | src/automation/payment-plan.service.ts:209-212 | A stay without a positive charge has nothing paid. |
| PaymentBooks.NothingToRecord | src/automation/payment-plan.service.ts:193-202 | An amount of zero or less, and a stay without a plan, leave the ledger alone. |
| ReconciliationInvariant.ReconcileKeepsInv | src/automation/payment-reconciliation.service.ts:84-303 | Matching, forced or not, keeps payment status, allocations and charge rows in agreement; a posted charge gets an owner. |
| ReconciliationInvariant.LinesBooks | src/automation/payment-reconciliation.service.ts:474-541 | However far a split gets, each allocation is the line's stay and amount, has its charge row under a new id, and all earlier rows are kept. |
| ReconciliationInvariant.RollbackRestoresCharges | src/automation/payment-reconciliation.service.ts:543-560 | Rolling a split back after any number of lines gives the charge rows from before it. |
| ReconciliationInvariant.ConfirmKeepsInv | src/automation/payment-reconciliation.service.ts:370-598 | A confirmation, accepted, rejected or failed half-way, keeps the three views in agreement; a failed one leaves no charge row without an owner. |
| ReconciliationInvariant.SkipKeepsInv | src/automation/payment-reconciliation.service.ts:600-614 | Skipping keeps the views in agreement if and only if the payment is not applied. |
| ReconciliationInvariant.UndoKeepsInv | src/automation/payment-reconciliation.service.ts:620-751 | Undo followed by matching for review keeps the three views in agreement; no charge row outlives its allocation. |
| ReconciliationInvariant.NoticeKeepsInv | src/hostaway/payment-inbox.service.ts:100-135 | The inbox check may write the row of any paid charge that has none, even one of ours whose remote cancel failed, without upsetting the agreement. |
| ReconciliationRuns.ReachableStatesConsistent | src/automation/payment-reconciliation.service.ts:47-751 | In every state reached by any mix of deliveries, polls, retries, confirmations, skips from review, undos and inbox checks, a payment has allocations exactly when applied, to distinct stays with positive amounts summing to the payment exactly (automatic) or within a cent (manual); each charged allocation has its row, no two payments share one, and every charge row is owned by a payment or was found by the inbox check, never both. |
| ReconciliationBalances.OneOwner | src/automation/payment-reconciliation.service.ts:153-177 | A charge row belongs to at most one allocation of one payment, and that payment is applied. |
| ReconciliationBalances.PaidIsAccounted | src/automation/payment-plan.service.ts:209-214 | The positive charge rows of a stay come to exactly what the payments have allocated and charged there plus what the inbox check found. |
| ReconciliationBalances.ReachableBalances | src/automation/payment-plan.service.ts:204-214 | In every reachable state the open balance of a stay is its total less what applied payments charged there and what was paid past the service, not below zero. |
| ReconciliationCalls.CallsAreBounded | src/automation/payment-reconciliation.service.ts:47-541 | In every run the charge call is made for a payment at most once, plus once per retry, confirmed line and undo asked for. |
| ReconciliationCalls.ChargedAtMostOnce | src/automation/payment-reconciliation.service.ts:47-303 | Without staff actions, any number and order of deliveries and polls calls Hostaway at most once for a payment; a posted charge is the one the payment is applied with, an archived refusal left it settled locally, and any other refusal left it uncharged and blocked by that very error, skipped, or settled locally once its listing was offline. |
| ReconciliationCalls.PostedOnceDespiteRetries | src/automation/payment-reconciliation.service.ts:84-303 | In every run without confirmation or undo of the payment, forced retries included, Hostaway posts at most one charge for it, and from then on it is applied with that charge. |
| ReconciliationCalls.PostedMeansApplied | src/automation/payment-reconciliation.service.ts:122-177 | In such a run every posted answer belongs to an applied payment that names it and has its charge row. |
| ReconciliationCalls.OfflineListingsAreNotCharged | src/automation/payment-apply.service.ts:54-94 | No step calls the charge API for a stay whose listing is offline at that moment. |
| ReconciliationOutcomes.AppliedExactlyWhen | src/automation/payment-reconciliation.service.ts:84-237 | An unapplied payment is applied automatically if and only if its match is unambiguous and the listing is offline, or no recorded refusal blocks it (unless forced) and Hostaway posts the charge or refuses it as for an archived listing. |
| ReconciliationOutcomes.AppliedAs | src/automation/payment-reconciliation.service.ts:135-177 | It then has one allocation, for its whole amount, to the matched stay, with the posted charge if there is one. |
| ReconciliationOutcomes.NotAppliedAs | src/automation/payment-reconciliation.service.ts:217-268 | Otherwise it is skipped exactly for bulk payments, refunds and platform payouts, else in review; only an unambiguous match binds it; a refusal is recorded, an earlier record survives until it is skipped. |
| ReconciliationOutcomes.ReconcileLeaves | src/automation/payment-reconciliation.service.ts:84-102 | Applied payments, payments whose matching throws, and all other payments are left alone; without permission nothing is applied. |
| ReconciliationOutcomes.DeliveredAs | src/automation/payment-reconciliation.service.ts:47-82 | A first delivery stores the amount and is applied under the same condition; a repeated one changes nothing. |
| ReconciliationOutcomes.ConfirmedExactlyWhen | src/automation/payment-reconciliation.service.ts:370-541 | A confirmation succeeds if and only if the payment is in review, every line sends at least a cent to another stored stay that may be paid, the sum is within a cent, and Hostaway accepts every line. |
| ReconciliationOutcomes.ConfirmedAs | src/automation/payment-reconciliation.service.ts:562-597 | The allocations are the lines in order, each with its posted charge; the payment names the first. |
| ReconciliationOutcomes.ChosenStays | src/automation/payment-reconciliation.service.ts:391-414 | The lines are those staff gave; without lines the whole payment goes to the chosen stay; a single line without a stay goes to the stay matched before. |
| ReconciliationOutcomes.ConfirmGoesWhereStaffSay | src/automation/payment-reconciliation.service.ts:391-598 | A confirmation that succeeds has allocated the money to exactly those stays. |
| ReconciliationOutcomes.RefusedConfirmationLeaves | src/automation/payment-reconciliation.service.ts:543-560 | A confirmation that does not succeed changes no payment and leaves every charge row. |
| ReconciliationOutcomes.SkippedAs | src/automation/payment-reconciliation.service.ts:600-614 | A skip changes the status of the payment and nothing else. |
| ReconciliationOutcomes.UndoneAs | src/automation/payment-reconciliation.service.ts:702-751 | An undone payment has no allocation and no charge, is skipped or in review by its new verdict, and remembers the charges Hostaway would not cancel. |
| ReconciliationOutcomes.UndoneWithoutAllocations | src/automation/payment-reconciliation.service.ts:652-700 | A payment applied before allocations were kept gives up the charge it names, and its amount is reversed at its stay. |
| ReconciliationOutcomes.NothingToUndo | src/automation/payment-reconciliation.service.ts:628-635 | Only an applied payment can be undone. |
| ReconciliationUndo.UndoRemovesOwnCharges | src/automation/payment-reconciliation.service.ts:621-751 | Undo removes exactly the payment's own charge rows even if Hostaway refuses, leaves every other payment with all its rows, and ends unapplied. |
| ReconciliationUndo.UndoRestoresConfirm | src/automation/payment-reconciliation.service.ts:620-751 | Confirming a payment, as one line or n, and undoing it gives back every charge row and every open balance. |
| ReconciliationUndo.UndoRestoresReconcile | src/automation/payment-reconciliation.service.ts:620-751 | The same for an automatic application. |
| ReconciliationLedger.LedgerStaysSane | src/automation/payment-plan.service.ts:283-297 | One payment or undo keeps what saving a plan checks: nothing about its amounts becomes negative. |
| ReconciliationSchedule.ReachablePlansSane | src/automation/payment-plan.service.ts:193-301 | In every run whose saved plans pass these checks, every plan keeps to them. |
| ReconciliationSchedule.ScheduleFollowsAllocations | src/automation/payment-plan.service.ts:193-262 | Over any run that saves no plan, learns no total, undoes no payment and fails no split at a stay with an enabled plan, the plan's paid total grows by exactly what the payments allocate to the stay, and if its due date has advanced k periods, that money plus what is due next less what was due first is at least k times the instalment less its tolerance. |
| ReconciliationLedger.RecordedAndReversed | src/automation/payment-plan.service.ts:193-262 | Recording a payment and reversing it gives a plan back if and only if an enabled plan meets the undo condition at its balances, or a disabled one is untouched by the reversal of what was never recorded. |
| ReconciliationLedger.UndoRestoresLedger | src/automation/payment-reconciliation.service.ts:620-751 | Automatic application and undo bring all instalment plans back if and only if the stay's plan meets that condition. |
| ReconciliationLedger.UndoRestoresSplitLedger | src/automation/payment-reconciliation.service.ts:620-751 | Confirmation onto any number of stays and undo bring all instalment plans back if and only if every line's plan meets that condition. |
| ReconciliationLedger.AppliedAreReached | src/automation/payment-reconciliation.service.ts:474-541 | The lines applied are those before the first whose listing is online and whose charge is refused without looking archived. |
| ReconciliationLedger.FailedSplitLeavesLedgerMoved | src/automation/payment-reconciliation.service.ts:543-560 | After a rollback the plans are as before if and only if none of these lines fell on a stay with an enabled plan. |
| ReconciliationLedger.FailuresSpareLedger | src/automation/payment-reconciliation.service.ts:474-560 | Whatever Hostaway answers, a failing split leaves the plans alone if and only if no line on an enabled plan comes before a line whose listing is online. |
| ReconciliationLedger.LinesMoveLedger | src/automation/payment-reconciliation.service.ts:474-541 | Each stay reached has its plan moved by its own line at the balance its own charge leaves; all other plans are unchanged. |
| ReconciliationBatches.BatchesAreRuns | src/automation/payment-reconciliation.service.ts:336-368 | Polling the review queue is a run of single polls (retries when forced), so what holds of every run holds of batches. |
| ReconciliationBatches.RematchTouchesOnly | src/automation/payment-reconciliation.service.ts:344-359 | A poll of the queue changes no payment outside it. |
| ReconciliationBatches.CountIsSize | src/automation/payment-reconciliation.service.ts:350-358 | A counter of the poll is the number of queued payments that now have the status. |
| ReconciliationBatches.UndosAreRuns | src/automation/payment-reconciliation.service.ts:794-806 | The undos of a plan deletion are a run of single ones, refused remote cancels included. |
| ReconciliationBatches.AnsweredMembers | src/automation/payment-reconciliation.service.ts:794-806 | A payment is listed as undone if and only if matching answered for it. |
| ReconciliationBatches.PageIsComplete | src/automation/payment-reconciliation.service.ts:781-792 | The query returns every automatic application to the stay if and only if there are at most 50 of them. |
| ReconciliationBatches.PlanDeletionRestores | src/automation/payment-reconciliation.service.ts:765-809 | Deleting a plan leaves manual applications alone and takes back every automatic one to the stay if and only if there are at most 50 of them; refused remote cancels make no difference. |
| PaymentReconciliationService.Service.RemainingBalance | src/automation/payment-plan.service.ts:204-214 | The total less all positive charges of the stay, not below zero, or nothing without a total. |
| PaymentReconciliationService.Service.RecordPaymentApplied | src/automation/payment-plan.service.ts:193-226 | The stay's enabled plan takes the payment at the balance after its charge; nothing else changes. |
| PaymentReconciliationService.Service.RecordPaymentReversed | src/automation/payment-plan.service.ts:229-262 | The stay's plan, enabled or not, takes the reversal; nothing else changes. |
| PaymentReconciliationService.Service.ApplyToReservation | src/automation/payment-apply.service.ts:28-214 | Offline: ledger only. Online: call, charge row and ledger, in that order, or an error without effect on the tables. |
| PaymentReconciliationService.Service.SettleLine | src/automation/payment-reconciliation.service.ts:503-541 | A refused archived or offline listing is recorded in the ledger instead of failing. |
| PaymentReconciliationService.Service.Reconcile | src/automation/payment-reconciliation.service.ts:84-303 | Leaves exactly the tables of the reconcile specification in every branch and reports the new status; without a verdict nothing changes. |
| PaymentReconciliationService.Service.IngestAndReconcile | src/automation/payment-reconciliation.service.ts:47-82 | The first delivery creates and reconciles the payment; a repeated one changes nothing; the status reached is reported unless matching throws on the first. |
| PaymentReconciliationService.Service.CheckLines | src/automation/payment-reconciliation.service.ts:409-472 | Accepts if and only if every line names a known payable stay with at least a cent, no stay twice, and the sum is within a cent of the payment. |
| PaymentReconciliationService.Service.ApplyEach | src/automation/payment-reconciliation.service.ts:474-541 | Lines are applied in order up to the first failure. |
| PaymentReconciliationService.Service.ConfirmReview | src/automation/payment-reconciliation.service.ts:370-598 | All lines or none: the payment becomes manually applied to the stays staff chose, or stays in review with its charge rows rolled back; it succeeds if and only if it is in review, the lines pass the checks and none fails. |
| PaymentReconciliationService.Service.SkipReview | src/automation/payment-reconciliation.service.ts:600-614 | Any known payment becomes skipped, whatever its status; nothing else changes. |
| PaymentReconciliationService.Service.UndoApplication | src/automation/payment-reconciliation.service.ts:620-751 | Charge rows go, the ledger is reversed allocation by allocation, the row returns to review and is matched again without applying; succeeds if and only if the payment was applied and matching gave a verdict. |
| PaymentReconciliationService.Service.RematchPendingReview | src/automation/payment-reconciliation.service.ts:336-368 | Reconciles the queue in order up to the first payment whose matching throws; the counters are the numbers of payments now applied and still in review. |
| PaymentReconciliationService.Service.UndoAutoAppliedForReservation | src/automation/payment-reconciliation.service.ts:769-809 | Undoes the page in order, whatever remote cancels fail, and lists exactly the payments for which matching answered. |
| RunLength.CompressLossless | src/check24/check24-calendar.util.ts:32-79 | Expanding the greedy ranges day by day gives back the coded list. |
| RunLength.CompressMinimal | src/check24/check24-calendar.util.ts:32-79 | No list of ranges with the same expansion is shorter. |
| RunLength.CompressUnique | src/check24/check24-calendar.util.ts:32-79 | A list of ranges as short as possible is the greedy one. |
| CalendarRanges.SortSorts | src/check24/check24-calendar.util.ts:38-40 | Sorting gives the same rows, as a multiset, in date order. |
| CalendarRanges.EachNight | src/check24/check24-calendar.util.ts:21-30 | The nights from arrival to the day before departure, none for an empty or backward stay. |
| CalendarRanges.BuildAvailabilityRanges | src/check24/check24-calendar.util.ts:33-79 | The ranges expand to the sorted calendar with open flag and minimum stay, no other list of ranges does so in as few, and they say of every date exactly what its day says; guests can arrive where it is open and leave anywhere. |
| CalendarRanges.BuildStandardPricingRanges | src/check24/check24-calendar.util.ts:82-119 | The ranges expand to exactly the positively priced days in order, no other list does so in as few, and they say of every date exactly its positive price. |
| CalendarRanges.RangesSayTheSame | src/check24/check24-calendar.util.ts:48-57 | Ranges with the calendar's expansion say of a date that it is open or closed with a minimum stay if and only if one of its days does. |
| CalendarRanges.RangesSayThePrices | src/check24/check24-calendar.util.ts:95-101 | Price ranges say a price of a date if and only if one of its days has that positive price. |
| CalendarRanges.CompressIsBest | src/check24/check24-calendar.util.ts:32-79 | For any dated list the greedy coding is lossless, shortest and the only shortest. |
| Reopening.OpenedTwice | src/check24/check24-sync.service.ts:501-531 | Opening two sets of nights one after the other opens their union. |
| Reopening.ToOpenTwice | src/check24/check24-sync.service.ts:501-531 | The counts of two passes add up to the nights newly opened by the union: none is counted twice. |
| Reopening.OpenedIdempotent | src/check24/check24-sync.service.ts:501-531 | A second pass over the same nights changes no row and counts zero. |
| Reopening.OpenedOpensExactly | src/check24/check24-sync.service.ts:501-531 | After opening, every row there was keeps its price and minimum stay and is open if it was or is among the opened nights; a missing night gets a row with neither; no other row is there. |
| Reopening.ReopenedIsUnion | src/check24/check24-sync.service.ts:565-587 | Reopening any list of stays gives the calendar and the count of reopening the union of their nights. |
| Reopening.ReopeningOrderIrrelevant | src/check24/check24-sync.service.ts:561-587 | Any order and repetition of the stays gives the same calendar and total. |
| Reopening.FewerExcludedFewerFree | src/check24/check24-sync.service.ts:435-489 | A night held despite some exclusions is held with fewer of them. |
| Check24Sync.OverlapLosesNoBlocker | src/check24/check24-sync.service.ts:441-489 | For every night of the range, the rows the overlap query returns hold it if and only if some reservation of the listing does. |
| Check24Sync.Check24SyncService.ExcludedIds | src/check24/check24-sync.service.ts:435-471 | Exactly the caller's positive ids and the overlapping reservations linked to an ended CHECK24 booking. |
| Check24Sync.Check24SyncService.BlockedNights | src/check24/check24-sync.service.ts:483-499 | Exactly the nights some not excluded, not cancelled, non-inquiry reservation covers. |
| Check24Sync.Check24SyncService.ForceOpenCalendarRange | src/check24/check24-sync.service.ts:424-532 | Opens precisely the nights of the range outside every blocking stay, keeps every price, minimum stay and other row, and returns the number of nights not open before. |
| Check24Sync.Check24SyncService.ApplyRecentCancelForceOpens | src/check24/check24-sync.service.ts:538-588 | Opens the union of the recent cancellations' free nights; the total is the number of nights newly opened. |
| Check24Sync.Check24SyncService.LoadDays | src/check24/check24-sync.service.ts:643-655 | The listing's rows from today on, each once, and no other row. |
| Check24Sync.Check24SyncService.SyncListingAvailability | src/check24/check24-sync.service.ts:632-670 | Reopens recent cancellations and sends ranges that say of every night from today on what the calendar says; a failed push sends nothing. |
| Check24Sync.RangesPublish | src/check24/check24-sync.service.ts:643-665 | A night is in an open or closed range with a minimum stay if and only if the calendar has it so from today on. |
| Check24Sync.HeldNotReopened | src/check24/check24-sync.service.ts:538-588 | No night held by an active, non-excluded reservation is opened by the second pass, whatever was cancelled recently. |
| Check24Sync.RecentNightsAre | src/check24/check24-sync.service.ts:538-588 | Recent cancellations give a night back if and only if the stay of one of the first hundred ended bookings of the property within the hold window covers it and no active reservation holds it. |
| Check24Sync.RecentCancelsKeepOrder | src/check24/check24-sync.service.ts:548-563 | The recent cancellations come in table order. |
| Check24Sync.EndedExclusionIsIdle | src/check24/check24-sync.service.ts:455-471 | Excluding the reservation of an ended booking changes for no night whether it is held. |
| Check24Sync.HeldDespite | src/check24/check24-sync.service.ts:565-580 | A night held despite any exclusions is held despite the exclusion of a recently cancelled booking's reservation. |
| Check24Sync.FreedNightsAreSent | src/check24/check24-sync.service.ts:632-670 | Every night opened from today on lies in an open range of the push, with its own minimum stay. |
| Check24Sync.Check24SyncService.RefreshAndPushAvailability | src/check24/check24-sync.service.ts:331-413 | After a cancel push every free night of the stay from today on is sent open with its minimum stay; nights held by another active reservation, prices, minimum stays and other listings are as Hostaway's calendar gave them; unconfigured or offline listings change nothing. |
| PortalRules.MatchPortalRule | src/automation/portal-payment-rules.util.ts:76-89 | The first enabled rule one of whose matchers occurs in the text; if there is none, the first enabled fallback; otherwise nothing. |
| PortalRules.MoreMoneyNeverWorse | src/automation/portal-payment-rules.util.ts:100-350 | More matched money never raises what is outstanding and never turns on a reminder or request. |
| PortalRules.LaterDaysNeverWithdraw | src/automation/portal-payment-rules.util.ts:100-350 | With the money unchanged, later days never turn a reminder or request off and never lower what is outstanding. |
| PortalRules.ActionsNeedMoneyOutstanding | src/automation/portal-payment-rules.util.ts:100-350 | Any action has more than a euro outstanding and no unverified money; an unverified result has nothing outstanding; outstanding plus matched money is the host's share. |
| PortalRules.ActsFromDay | src/automation/portal-payment-rules.util.ts:252-338 | Where the balance is due before arrival, a reminder and an inbox request are each on if and only if more than a euro is missing and a day fixed by the rule has been reached; money is unverified exactly before the trusted period ends. |
| PortalRules.RemindsAfterStay | src/automation/portal-payment-rules.util.ts:146-250 | Where the portal pays after the stay, the office is reminded if and only if the payout is late, more than a euro is missing, and what came in is not the price less a commission. |
| PortalRules.PercentRoundsHalfUp | src/automation/portal-payment-rules.util.ts:269-274 | A share is the cent amount nearest to the exact percentage, ties going up. |
| PortalRules.SharesExactly | src/automation/portal-payment-rules.util.ts:269-274 | A share is the cent amount nearest to its whole percentage, the whole price above 100 and nothing below 0 or without a price. |
| PortalRules.OutstandingBeforeArrival | src/automation/portal-payment-rules.util.ts:252-349 | Where the balance is due before arrival, what is outstanding is the missing part of the host's share if that is more than a euro, due or not, reminded of or not, and nothing while the portal is trusted. |
| PortalRules.OutstandingAfterStay | src/automation/portal-payment-rules.util.ts:146-250 | Where the portal pays after the stay, the same once the payout is late and does not look like the price less a commission. |
| PortalRules.NothingOutstanding | src/automation/portal-payment-rules.util.ts:120-144 | A booking that is paid or has no price is settled. |
| PortalRules.PercentWithinTotal | src/automation/portal-payment-rules.util.ts:91-93 | A rounded percentage of a price lies between zero and the price. |
| GuestSchedule.PhasesPartition | src/automation/guest-payment-schedule.util.ts:45-73 | With a positive deposit, deposit and balance add up to the price, money counted toward the two to the money paid, and the outstanding amounts to what is missing. |
| GuestSchedule.PhaseAmounts | src/automation/guest-payment-schedule.util.ts:45-59 | The deposit is its percentage to the nearest cent, the balance the rest of the price, and without a deposit the host's share. |
| GuestSchedule.PhaseLacks | src/automation/guest-payment-schedule.util.ts:61-73 | The deposit counts the money up to its amount, the balance the money beyond it, the full amount all of it. |
| GuestSchedule.AsksForWhatIsMissing | src/automation/guest-payment-schedule.util.ts:75-212 | At most one of request, reminder and cancel; each only for more than a euro, namely what the phase lacks; requests only when none is out, reminders and cancels only when one is. |
| GuestSchedule.ActsExactlyWhen | src/automation/guest-payment-schedule.util.ts:98-157 | Cancel if and only if the deadline of an outstanding request has passed and the rule cancels; remind if and only if its reminder window is open and none was sent; nothing else acts. |
| GuestSchedule.RequestsExactlyWhen | src/automation/guest-payment-schedule.util.ts:159-206 | With no request out, the deposit is asked for if and only if it is short by more than a euro within its window, the balance if and only if the deposit is there, arrival is near and more than a euro is open. |
| GuestSchedule.ShortDepositStalls | src/automation/guest-payment-schedule.util.ts:105-206 | A deposit short by more than half a euro and at most one leads to no action on any day, requested or not; and in both windows with no request out nothing is asked for only then, or when deposit and balance are there but for a euro. |
| GuestPaymentRuns.ActionsInOrder | src/automation/guest-payment-automation.service.ts:230-367 | In any run with a fixed rule and price and money never taken back, the actions come in the order deposit request, its reminder, balance request, its reminder, cancel, each at most once, and nothing follows a cancel. |
| GuestPaymentRuns.DayAdvances | src/automation/guest-payment-automation.service.ts:266-364 | Any day's action ranks strictly after all before it, from every row a run can reach. |
| GuestPaymentRuns.BalanceNeedsDeposit | src/automation/guest-payment-automation.service.ts:287-363 | No balance request before the matched money reaches the deposit less half a euro; requests and reminders ask for exactly what the phase lacks. |
| GuestPaymentRuns.RequestWrites | src/automation/guest-payment-automation.service.ts:348-361 | A request is stamped with the day's time; a deposit request gets the deposit window as its deadline, a balance request the payment deadline, none where that is not positive. |
| GuestPaymentRuns.OtherActionsWrite | src/automation/guest-payment-automation.service.ts:327-346 | A reminder and a cancel write their own time and nothing else. |
| GuestPaymentRuns.IdleDayWrites | src/automation/guest-payment-automation.service.ts:275-310 | A day without action marks a deposit that has arrived and clears its request, reminder and deadline, and otherwise only takes over Hostaway's word on isPaid. |
| GuestPaymentRuns.CancelledExactlyWhen | src/automation/guest-payment-automation.service.ts:327-335 | A day cancels if and only if the deadline of the request that is out has passed, more than a euro of it is missing, and the rule cancels. |
| GuestPaymentRuns.RemindedExactlyWhen | src/automation/guest-payment-automation.service.ts:337-346 | A day reminds if and only if the request that is out has a deadline within the reminder days ahead, was not reminded of, and more than a euro of it is missing. |
| GuestPaymentRuns.CancelWaitsForDeadline | src/automation/guest-payment-automation.service.ts:230-367 | In any run a cancel comes no earlier than the days its last request gave after that request. |
| GuestPaymentRuns.RemindersFollowRequests | src/automation/guest-payment-automation.service.ts:327-363 | From an untouched booking, a reminder comes right after the request it repeats, and a cancel after some request. |
| GuestPaymentRuns.GapStallsForever | src/automation/guest-payment-automation.service.ts:287-363 | With the deposit requested and the money in that gap, no day of any length of run does anything: no balance request, reminder or cancel. |
| GuestPaymentRuns.BalanceFollowsDeposit | src/automation/guest-payment-automation.service.ts:287-363 | With the deposit requested, a day requests the balance if and only if the deposit is there but for half a euro, more than a euro of the balance is open and arrival is near. |
| GuestPaymentRuns.DepositRequestedExactlyWhen | src/automation/guest-payment-automation.service.ts:287-363 | From any row, a day requests the deposit if and only if no request is out and it is short by more than a euro within its window. |
| GuestPaymentRuns.DepositAskedTwiceExactlyWhen | src/automation/guest-payment-automation.service.ts:230-367 | A run asks for the deposit twice if and only if on some day it counts as paid and is again short by more than a euro within its window; money that had reached it was then taken back. |
| GuestPaymentRuns.DepositAskedTwiceAfterUndo | src/automation/guest-payment-automation.service.ts:287-310 | An example: a payment taken back after the deposit was met makes the deposit requested twice. |
| GuestPaymentJob.Job.RefreshIsPaid | src/automation/guest-payment-automation.service.ts:599-617 | Paid stays paid; otherwise the remote answer is stored and returned; unreachable counts as unpaid and stores nothing. |
| GuestPaymentJob.Job.SendGuestPaymentRequest | src/automation/guest-payment-automation.service.ts:369-487 | Request time, deadline and phase are set and the reminder cleared on request, only for an enabled or forced link and a created charge. |
| GuestPaymentJob.Job.SendGuestPaymentReminder | src/automation/guest-payment-automation.service.ts:489-546 | The reminder time is set if and only if the message was posted. |
| GuestPaymentJob.Job.CancelUnpaidReservation | src/automation/guest-payment-automation.service.ts:548-597 | The cancel time is set if and only if Hostaway cancelled. |
| GuestPaymentJob.Job.Process | src/automation/guest-payment-automation.service.ts:266-364 | One reservation moves by exactly one day of the run model; all others are untouched. |
| GuestPaymentJob.Job.ProcessScheduledPayments | src/automation/guest-payment-automation.service.ts:230-367 | Every reservation moves by one day independently of the others; the counters are the numbers of requests, reminders and cancels carried out. |
| GuestPaymentJob.CountersCount | src/automation/guest-payment-automation.service.ts:262-366 | Each counter is the number of reservations with an action of its kind. |
| GuestPaymentJob.ActedMembers | src/automation/guest-payment-automation.service.ts:333-362 | Requests, reminders and cancels are counted for what they are. |
| Weekends.LengthByDayZero | src/fonio/fonio-availability.service.ts:600 | Day 0 of the following month tells the length of every month, years 0 to 99 taken as 1900 to 1999. |
| Weekends.MonthWeekends | src/fonio/fonio-availability.service.ts:599-613 | All Fridays of the month in order, each with its check-out the given nights later. |
| Weekends.YearWeekends | src/fonio/fonio-availability.service.ts:597-615 | The twelve months together give the Fridays of the whole year. |
| Weekends.EnumerateWeekends | src/fonio/fonio-availability.service.ts:591-616 | The month's Fridays, or the year's when there is no month. |
| Weekends.YearHasAllFridays | src/fonio/fonio-availability.service.ts:591-616 | The year list holds a day if and only if it is a Friday of that year, consecutive entries are 7 days apart, and there are 52 or 53. |
| Weekends.WeekendsOf | src/fonio/fonio-availability.service.ts:591-616 | The list holds exactly the stays that begin on a Friday of the month or year and end the given nights later, years 0 to 99 taken as 1900 to 1999. |
| Weekends.MonthHasFourOrFive | src/fonio/fonio-availability.service.ts:599-613 | Every month has four or five weekends. |
| Availability.CountMeansCovered | src/fonio/fonio-availability.service.ts:505-510 | A listing has as many rows as the stay has nights if and only if every night has a row, and never more. |
| Availability.RowTestIsBookable | src/fonio/fonio-availability.service.ts:580-588 | The test on counted rows holds if and only if every night has an open row and the stay reaches every row's minimum. |
| AvailabilitySearch.LoadedEnough | src/fonio/fonio-availability.service.ts:500-504 | Rows picked for a stay out of any larger load are the rows a load for the stay alone returns. |
| AvailabilitySearch.IndexCalendarDays | src/fonio/fonio-availability.service.ts:524-541 | The index has, for every listing, its rows in load order. |
| AvailabilitySearch.IsStayAvailable | src/fonio/fonio-availability.service.ts:580-588 | True if and only if there is a row per night, all open, and no row demands a longer stay. |
| AvailabilitySearch.EvaluateListings | src/fonio/fonio-availability.service.ts:484-522 | From an index over any set of dates that covers the stay, each listing is available exactly when it can be booked and unknown exactly when a night has no row. |
| AvailabilitySearch.Search | src/fonio/fonio-availability.service.ts:105-172 | The verdicts on all candidates, available ones first, or only those, and how many rest on an incomplete cache; an error for a check-out not after the check-in. |
| AvailabilityAnswers.SearchFinds | src/fonio/fonio-availability.service.ts:140-146 | With available listings only, the answer holds exactly the verdicts on the candidates that can be booked for every night. |
| AvailabilityAnswers.SearchOrders | src/fonio/fonio-availability.service.ts:140-146 | Otherwise it holds the verdicts on all candidates, each once, every available one before every other. |
| AvailabilityAnswers.FiltersKeepOrder | src/fonio/fonio-availability.service.ts:142-145 | Among available and among other listings the candidate order is kept. |
| AvailabilityAnswers.UnknownCount | src/fonio/fonio-availability.service.ts:137 | The incomplete count is the number of verdicts with a night missing from the cache. |
| AvailabilitySearch.UniqueDates | src/fonio/fonio-availability.service.ts:618-628 | The same dates, each once. |
| AvailabilitySearch.Examine | src/fonio/fonio-availability.service.ts:215-254 | One weekend of the batch has the available listings the single search gives for that stay. |
| AvailabilitySearch.SearchWeekends | src/fonio/fonio-availability.service.ts:178-298 | For every Friday of the period, in order, the slot holds what the single search gives for that stay; weekends with nothing free are dropped on request, and the counts are exact. |
| AvailabilityAnswers.SlotSays | src/fonio/fonio-availability.service.ts:241-266 | A slot counts exactly the candidates that can be booked for its weekend and lists them, or all verdicts on request. |
| AvailabilityAnswers.SlotsKept | src/fonio/fonio-availability.service.ts:247-266 | The answer has the slot of a weekend if and only if all are asked for or something can be booked. |
| AvailabilityAnswers.SlotsKeepOrder | src/fonio/fonio-availability.service.ts:216-267 | Slots come in the order of their weekends. |
| AvailabilityAnswers.WithAvailabilityCounts | src/fonio/fonio-availability.service.ts:283 | The count of weekends with availability is the number of slots with something free. |
| AvailabilityAnswers.UnknownMembers | src/fonio/fonio-availability.service.ts:224-226 | A candidate counts as incomplete if and only if its cache lacks some night of some weekend. |
| Check24Booking.ImportedAtMostOnce | src/check24/check24-booking.service.ts:72-328 | Whatever is delivered, how often and in which order, a booking creates at most one Hostaway reservation, and no reservation belongs to two bookings. |
| Check24Booking.DeliveryImportsExactlyWhen | src/check24/check24-booking.service.ts:72-328 | A delivery imports if and only if the booking is requested or booked, not linked, mapped, and created at the first attempt or, with custom fields, at the second; the row is then linked, and booked once accepted; a delivered end cancels the linked stay. |
| Check24Booking.PropagationSays | src/check24/check24-booking.service.ts:335-424 | A local cancel posts if and only if the booking is not recorded as ended, and records the end if and only if the post succeeds. |
| Check24Booking.PostedExactlyWhen | src/check24/check24-booking.service.ts:335-424 | A provider cancel is posted if and only if the reservation of a booking not recorded as ended is cancelled on our side. |
| Check24Booking.NoCancelAfterEnd | src/check24/check24-booking.service.ts:335-424 | From a recorded end on, as long as deliveries of the booking stay terminal, it stays ended and no provider cancel is posted. |
| Check24Booking.CancelPostedExactlyWhen | src/check24/check24-booking.service.ts:72-424 | Over any run from a row recorded as ended, a provider cancel is posted back if and only if the booking is cancelled on our side at a moment when its last delivery reports it as not ended; until then the row is not ended if and only if some such delivery has no later one that ends it. |
| Check24Booking.StaleDeliveryRevives | src/check24/check24-booking.service.ts:77-102 | The shortest such run: any delivery of a linked ended booking as not ended makes it active again, and the next local cancel posts a provider cancel. |
| Check24Booking.EndCancelsLocally | src/check24/check24-booking.service.ts:595-743 | A delivered end leaves the stay cancelled locally and creates and posts nothing. |
| Check24Booking.Check24BookingService.CreateReservation | src/check24/check24-booking.service.ts:171-185 | At most one reservation is created: the second attempt is made only after a refused first one with custom fields. |
| Check24Booking.Check24BookingService.ProcessBooking | src/check24/check24-booking.service.ts:72-328 | Leaves exactly the state of the delivery specification in every branch; throws if and only if a booking to import has no mapping or cannot be created. |
| Check24Booking.Check24BookingService.CancelImportedReservation | src/check24/check24-booking.service.ts:595-743 | The linked reservation is cancelled locally whether or not Hostaway agrees; booking rows are unchanged. |
| Check24Booking.Check24BookingService.PropagateHostawayCancellation | src/check24/check24-booking.service.ts:335-424 | Posts for a linked booking that has not ended and records the end only when the post succeeded; reports it processed if and only if it had ended or the post succeeded. |

## Left out

- LaterDaysNeverWithdraw: days are counted in Berlin time by the source; here both counts move by the same number of days.
- SendGuestPaymentRequest: the telephone request and the request made at import, which call it with their own amount and deadline, enter the runs only as the starting row.
- CancelUnpaidReservation: the status column it also sets is the job query's concern, and the propagation to CHECK24 it triggers is modelled in Check24Booking.
- CancelImportedReservation: the push that reopens the stay afterwards is RefreshAndPushAvailability.
- PropagateHostawayCancellation: the push that reopens the stay afterwards is RefreshAndPushAvailability.
- IndexCalendarDays: without the list of stale listings, which only live refresh uses.
- Search: without live refresh and nearby search.
- SearchWeekends: without live refresh, city filter, nearby regions and the slot's names and labels; the available listings of a slot, which the source sorts by name, keep candidate order.
- Examine: candidate order, as in SearchWeekends.
- Live refresh of stale listings: calls to Hostaway, followed by the same evaluation on the new rows.
- syncListingRates: one push of the price ranges, whose builder is modelled.
- Follow-up pushes after a cancel: the same refresh again after a delay.
- CHECK24 property mappings, accept and price calls: remote calls without a property that spans operations.
- Payment matching scores, name normalisation, booking-code patterns and match candidates: the match result is arbitrary.
- Texts: error messages, notes, reminders, alerts, audit entries and mails; an error is only known by whether it blocks a retry.
- Interleaved requests: the code takes no lock, so every operation is one step.
- Payments with fractions of a cent and IEEE rounding.
- Controllers, the admin interface, users, roles, tokens and webhook authentication.
