/** GuestPaymentAutomationService.processScheduledPayments: the loop over the candidate
    reservations, with its sub-steps and counters. */
module GuestPaymentJob {
  import opened Wrappers
  import opened PortalRules
  import opened GuestSchedule
  import opened GuestPaymentRuns

  /** A reservation with the portal rule that applies to it, if any, and its price in cents. */
  datatype Booking = Booking(rule: Option<Rule>, total: int)

  function DayOf(row: Row, b: Booking, v: Visit): (Row, Action) {
    if b.rule.None? then (row, Nothing) else Day(row, b.rule.value, b.total, v)
  }

  datatype Kind = Requests | Reminders | Cancellations

  predicate IsOf(a: Action, kind: Kind) {
    match kind
    case Requests => a.Request?
    case Reminders => a.Remind?
    case Cancellations => a.Cancel?
  }

  /** How many of the first i reservations had an action of the given kind. */
  ghost function Count(rows: seq<Row>, bookings: seq<Booking>, visits: seq<Visit>, i: nat, kind: Kind): nat
    requires |rows| == |bookings| == |visits| && i <= |rows|
  {
    if i == 0 then 0
    else Count(rows, bookings, visits, i - 1, kind) +
         if IsOf(DayOf(rows[i - 1], bookings[i - 1], visits[i - 1]).1, kind) then 1 else 0
  }

  class Job {
    var rows: seq<Row>
    const bookings: seq<Booking>

    constructor (rows: seq<Row>, bookings: seq<Booking>)
      ensures this.rows == rows && this.bookings == bookings
    {
      this.rows, this.bookings := rows, bookings;
    }

    /** Takes Hostaway's isPaid over into the row; unreachable counts as unpaid. */
    method RefreshIsPaid(i: nat, remote: Option<bool>) returns (isPaid: bool)
      requires i < |rows|
      modifies this
      ensures rows == old(rows)[i := RefreshedPaid(old(rows)[i], remote)] && isPaid == rows[i].isPaid
    {
      if rows[i].isPaid { return true; }
      if remote.None? { return false; }
      if remote.value != rows[i].isPaid {
        rows := rows[i := rows[i].(isPaid := remote.value)];
      }
      isPaid := remote.value;
    }

    method SendGuestPaymentRequest(i: nat, rule: Rule, phase: Phase, deadlineDays: int, resetReminder: bool,
                                   forceGuestLink: bool,
                                   now: int, chargeCreated: bool)
      returns (ok: bool)
      requires i < |rows|
      modifies this
      ensures ok == ((forceGuestLink || rule.autoSendGuestPaymentLink) && chargeCreated)
      ensures rows == if !ok then old(rows) else old(rows)[i := old(rows)[i].(
                requestSentAt := Some(now),
                reminderSentAt := if resetReminder then None else old(rows)[i].reminderSentAt,
                deadlineAt := if deadlineDays > 0 then Some(now + deadlineDays * MS_PER_DAY) else None,
                phase := phase)]
    {
      if !forceGuestLink && !rule.autoSendGuestPaymentLink { return false; }
      if !chargeCreated { return false; }
      var deadlineAt := None;
      if deadlineDays > 0 {
        deadlineAt := Some(now + deadlineDays * MS_PER_DAY);
      }
      var row := rows[i].(requestSentAt := Some(now), deadlineAt := deadlineAt, phase := phase);
      if resetReminder {
        row := row.(reminderSentAt := None);
      }
      rows := rows[i := row];
      ok := true;
    }

    method SendGuestPaymentReminder(i: nat, now: int, posted: bool) returns (ok: bool)
      requires i < |rows|
      modifies this
      ensures ok == posted
      ensures rows == if !ok then old(rows) else old(rows)[i := old(rows)[i].(reminderSentAt := Some(now))]
    {
      if !posted { return false; }
      rows := rows[i := rows[i].(reminderSentAt := Some(now))];
      ok := true;
    }

    method CancelUnpaidReservation(i: nat, now: int, cancelled: bool) returns (ok: bool)
      requires i < |rows|
      modifies this
      ensures ok == cancelled
      ensures rows == if !ok then old(rows) else old(rows)[i := old(rows)[i].(autoCanceledAt := Some(now))]
    {
      if !cancelled { return false; }
      rows := rows[i := rows[i].(autoCanceledAt := Some(now))];
      ok := true;
    }

    /** One reservation of the loop; the result says which counter it raises. */
    method Process(i: nat, v: Visit) returns (action: Action)
      requires i < |rows| == |bookings|
      modifies this
      ensures |rows| == |old(rows)| && forall j :: 0 <= j < |rows| && j != i ==> rows[j] == old(rows)[j]
      ensures (rows[i], action) == DayOf(old(rows)[i], bookings[i], v)
    {
      action := Nothing;
      if !v.selected || rows[i].autoCanceledAt.Some? || bookings[i].total <= 0 { return; }
      if bookings[i].rule.None? || !bookings[i].rule.value.enabled { return; }
      var rule, total := bookings[i].rule.value, bookings[i].total;
      var isPaid := RefreshIsPaid(i, v.remotePaid);
      if isPaid { return; }
      if DepositArrived(rows[i], rule, total, v.matchedPaid) {
        rows := rows[i := rows[i].(phase := DepositPaid, requestSentAt := None, reminderSentAt := None,
                                   deadlineAt := None)];
      }
      var schedule := Evaluate(rule, total, v.matchedPaid, isPaid, v.daysUntilArrival, v.daysSinceBooking, v.now,
                               rows[i]);
      if schedule.shouldCancel {
        var ok := CancelUnpaidReservation(i, v.now, v.succeeds);
        if ok { action := Cancel; }
        return;
      }
      if schedule.shouldSendGuestReminder {
        var ok := SendGuestPaymentReminder(i, v.now, v.succeeds);
        if ok { action := Remind(schedule.phase, schedule.amountDue); }
        return;
      }
      if schedule.shouldRequestPayment && rule.autoSendGuestPaymentLink {
        var deadlineDays := DeadlineDays(rule, schedule.phase);
        var ok := SendGuestPaymentRequest(i, rule, schedule.phase, deadlineDays, schedule.phase == Balance, false,
                                          v.now, v.succeeds);
        if ok { action := Request(schedule.phase, schedule.amountDue); }
      }
    }

    /** The daily job: every reservation moves by one day, independently of the others, and the
        counters are the numbers of requests, reminders and cancellations made. */
    method ProcessScheduledPayments(visits: seq<Visit>) returns (requested: nat, reminded: nat, canceled: nat)
      requires |visits| == |rows| == |bookings|
      modifies this
      ensures |rows| == |old(rows)|
      ensures forall i :: 0 <= i < |rows| ==> rows[i] == DayOf(old(rows)[i], bookings[i], visits[i]).0
      ensures requested == Count(old(rows), bookings, visits, |visits|, Requests)
      ensures reminded == Count(old(rows), bookings, visits, |visits|, Reminders)
      ensures canceled == Count(old(rows), bookings, visits, |visits|, Cancellations)
    {
      requested, reminded, canceled := 0, 0, 0;
      var i := 0;
      while i < |rows|
        invariant |rows| == |visits| == |bookings| && 0 <= i <= |rows|
        invariant forall j :: 0 <= j < i ==> rows[j] == DayOf(old(rows)[j], bookings[j], visits[j]).0
        invariant forall j :: i <= j < |rows| ==> rows[j] == old(rows)[j]
        invariant requested == Count(old(rows), bookings, visits, i, Requests)
        invariant reminded == Count(old(rows), bookings, visits, i, Reminders)
        invariant canceled == Count(old(rows), bookings, visits, i, Cancellations)
      {
        var action := Process(i, visits[i]);
        match action {
          case Request(_, _) => requested := requested + 1;
          case Remind(_, _) => reminded := reminded + 1;
          case Cancel => canceled := canceled + 1;
          case Nothing =>
        }
        i := i + 1;
      }
    }
  }

  // ----- The counters

  ghost function Acted(actions: seq<Action>, kind: Kind): set<int> {
    set j | 0 <= j < |actions| && IsOf(actions[j], kind)
  }

  /** The actions of the first i reservations. */
  ghost function ActionsOf(rows: seq<Row>, bookings: seq<Booking>, visits: seq<Visit>, i: nat): seq<Action>
    requires |rows| == |bookings| == |visits| && i <= |rows|
  {
    seq(i, j requires 0 <= j < i => DayOf(rows[j], bookings[j], visits[j]).1)
  }

  lemma {:induction false} ActedSnoc(actions: seq<Action>, a: Action, kind: Kind)
    ensures |Acted(actions + [a], kind)| == |Acted(actions, kind)| + if IsOf(a, kind) then 1 else 0
  {
    var all := actions + [a];
    assert all[|actions|] == a && forall j :: 0 <= j < |actions| ==> all[j] == actions[j];
    assert Acted(all, kind) == if IsOf(a, kind) then Acted(actions, kind) + {|actions|} else Acted(actions, kind);
  }

  /** One more reservation, whatever its action was. */
  lemma {:induction false} NextAction(rows: seq<Row>, bookings: seq<Booking>, visits: seq<Visit>, i: nat, kind: Kind)
    returns (a: Action)
    requires |rows| == |bookings| == |visits| && 0 < i <= |rows|
    ensures ActionsOf(rows, bookings, visits, i) == ActionsOf(rows, bookings, visits, i - 1) + [a]
    ensures Count(rows, bookings, visits, i, kind) ==
            Count(rows, bookings, visits, i - 1, kind) + if IsOf(a, kind) then 1 else 0
  {
    a := DayOf(rows[i - 1], bookings[i - 1], visits[i - 1]).1;
  }

  /** Each counter is the number of reservations with an action of its kind. */
  lemma {:induction false} CountersCount(rows: seq<Row>, bookings: seq<Booking>, visits: seq<Visit>, i: nat, kind: Kind)
    requires |rows| == |bookings| == |visits| && i <= |rows|
    ensures Count(rows, bookings, visits, i, kind) == |Acted(ActionsOf(rows, bookings, visits, i), kind)|
  {
    if i == 0 {
      NobodyActed(kind);
    } else {
      CountersCount(rows, bookings, visits, i - 1, kind);
      var a := NextAction(rows, bookings, visits, i, kind);
      ActedSnoc(ActionsOf(rows, bookings, visits, i - 1), a, kind);
    }
  }

  lemma {:induction false} NobodyActed(kind: Kind)
    ensures |Acted([], kind)| == 0
  {
    assert Acted([], kind) == {};
  }

  /** Requests, reminders and cancellations are counted for what they are. */
  lemma {:induction false} ActedMembers(actions: seq<Action>, j: int)
    requires 0 <= j < |actions|
    ensures j in Acted(actions, Requests) <==> actions[j].Request?
    ensures j in Acted(actions, Reminders) <==> actions[j].Remind?
    ensures j in Acted(actions, Cancellations) <==> actions[j].Cancel?
  {
  }
}
