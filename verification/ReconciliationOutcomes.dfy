/** What each operation on a payment comes to, said of the row it leaves: when it is applied, to
    which stay, with which charge, and what is kept for the next attempt. */
module ReconciliationOutcomes {
  import opened Wrappers
  import opened PaymentBooks
  import opened Reconciliation
  import opened ReconciliationInvariant
  import opened ReconciliationUndo
  import opened ReconciliationLedger

  /** No other payment and no reservation has changed. */
  ghost predicate OnlyRow(before: Db, after: Db, pid: int) {
    && after.reservations == before.reservations
    && after.payments.Keys == before.payments.Keys + {pid}
    && forall q :: q in before.payments && q != pid ==> after.payments[q] == before.payments[q]
  }

  // ----- reconcile

  /** Hostaway's answer lets the payment be applied: the listing is offline and Hostaway is not
      asked, the charge is posted, or its refusal looks like an archived listing. */
  predicate Accepted(rs: Reservations, stay: int, o: Outcome) {
    (stay in rs && rs[stay].offline) || o.Posted? || o.error.archived
  }

  /** An earlier refusal is on record, and nobody insists: the charge is not tried again. */
  predicate Blocked(p: Payment, force: bool) {
    !force && p.error.ApplyFailed? && !p.error.error.archived
  }

  /** A payment is applied automatically if and only if the match is unambiguous and its stay's
      listing is offline, or nothing on record blocks the charge and Hostaway accepts it. */
  lemma {:induction false} AppliedExactlyWhen(db: Db, pid: int, force: bool, m: Match, o: Outcome, today: int)
    requires pid in db.payments && !IsApplied(db.payments[pid].status)
    ensures var p := db.payments[pid];
            Reconcile(db, pid, true, force, Some(m), o, today).payments[pid].status == AutoApplied <==>
            && m.decision == Unambiguous && m.best.Some?
            && ((m.best.value in db.reservations && db.reservations[m.best.value].offline)
                || (!Blocked(p, force) && Accepted(db.reservations, m.best.value, o)))
  {
  }

  /** And then it has one allocation, for the whole amount, to the matched stay, with the charge
      Hostaway posted for it if it was asked. */
  lemma {:induction false} AppliedAs(db: Db, pid: int, force: bool, m: Match, o: Outcome, today: int)
    requires pid in db.payments && !IsApplied(db.payments[pid].status) && db.payments[pid].allocations == []
    requires Reconcile(db, pid, true, force, Some(m), o, today).payments[pid].status == AutoApplied
    ensures m.best.Some?
    ensures var row := Reconcile(db, pid, true, force, Some(m), o, today).payments[pid];
            var stay := m.best.value;
            var id := if (stay in db.reservations && db.reservations[stay].offline)
              || o.Refused? then None else Some(o.id);
            && row.allocations == [Allocation(stay, db.payments[pid].amount, id)]
            && row.matched == Some(stay) && row.chargeId == id && row.error == NoError
            && row.amount == db.payments[pid].amount
  {
  }

  /** A payment that is not applied is skipped exactly for bulk payments, refunds and platform
      payouts, and otherwise left in review; only an unambiguous match binds it to a stay. A
      refused charge is put on record, an earlier record stays until the payment is skipped. */
  lemma {:induction false} NotAppliedAs(db: Db, pid: int, allow: bool, force: bool, m: Match, o: Outcome, today: int)
    requires pid in db.payments && !IsApplied(db.payments[pid].status)
    requires Reconcile(db, pid, allow, force, Some(m), o, today).payments[pid].status != AutoApplied
    ensures var p, row := db.payments[pid], Reconcile(db, pid, allow, force, Some(m), o, today).payments[pid];
            var skipped := m.decision == BulkPayment || m.decision == Refund || m.decision == PlatformPayout;
            var tried := allow && m.decision == Unambiguous && m.best.Some? && !Blocked(p, force);
            && row.status == (if skipped then Skipped else PendingReview)
            && row.matched == (if m.decision == Unambiguous then m.best else None)
            && row.error == (if skipped then NoError else if tried && o.Refused? then ApplyFailed(o.error) else p.error)
            && (row.amount, row.allocations, row.chargeId) == (p.amount, p.allocations, p.chargeId)
  {
  }

  /** Without permission to apply nothing is applied; an applied payment, and one for which
      matching throws, is left as it is; nobody else's row is touched. */
  lemma {:induction false} ReconcileLeaves(db: Db, pid: int, allow: bool, force: bool, m: Option<Match>, o: Outcome,
                                           today: int)
    requires pid in db.payments
    ensures var after := Reconcile(db, pid, allow, force, m, o, today);
            && OnlyRow(db, after, pid)
            && (IsApplied(db.payments[pid].status) || m.None? ==> after == db)
            && (!allow && !IsApplied(db.payments[pid].status) ==>
                  !IsApplied(after.payments[pid].status) && after.books == db.books)
  {
  }

  /** The first delivery stores the amount and applies the payment if and only if the match is
      unambiguous and the listing is offline or Hostaway accepts; a later one changes nothing. */
  lemma {:induction false} DeliveredAs(db: Db, pid: int, amount: int, m: Option<Match>, o: Outcome, today: int)
    ensures var after := Ingest(db, pid, amount, m, o, today);
            if pid in db.payments then after == db
            else
              && pid in after.payments && after.payments[pid].amount == amount && OnlyRow(db, after, pid)
              && (after.payments[pid].status == Received <==> m.None?)
              && (m.None? ==> after.payments[pid] == Payment(amount, Received, [], None, None, NoError))
              && (after.payments[pid].status == AutoApplied <==>
                    && m.Some? && m.value.decision == Unambiguous && m.value.best.Some?
                    && Accepted(db.reservations, m.value.best.value, o))
  {
    if pid !in db.payments {
      var created := db.(payments := db.payments[pid := NewPayment(amount)]);
      ReconcileLeaves(created, pid, true, false, m, o, today);
      if m.Some? {
        AppliedExactlyWhen(created, pid, false, m.value, o, today);
        if Ingest(db, pid, amount, m, o, today).payments[pid].status != AutoApplied {
          NotAppliedAs(created, pid, true, false, m.value, o, today);
        } else {
          AppliedAs(created, pid, false, m.value, o, today);
        }
      }
    }
  }

  // ----- confirmReview

  /** A confirmation applies the payment if and only if it is in review, every line sends at
      least a cent to another stored stay that may be paid, the lines come to the payment within
      a cent, and Hostaway accepts every line. */
  lemma {:induction false} ConfirmedExactlyWhen(db: Db, pid: int, lines: seq<Line>, os: seq<Outcome>, today: int)
    requires |os| == |lines| && pid in db.payments && !IsApplied(db.payments[pid].status)
    ensures IsApplied(Confirm(db, pid, lines, os, today).payments[pid].status) <==>
            && db.payments[pid].status == PendingReview && lines != []
            && (forall i :: 0 <= i < |lines| ==> PayableLine(db.reservations, lines[i]))
            && (forall i, j :: 0 <= i < j < |lines| ==> lines[i].reservation != lines[j].reservation)
            && -1 <= LineSum(lines) - db.payments[pid].amount <= 1
            && forall i :: 0 <= i < |lines| ==> Accepted(db.reservations, StayOf(lines[i]), os[i])
  {
    if Confirmable(db, pid, lines) {
      AppliedAreReached(db.books, db.reservations, pid, lines, os, today);
      AllReached(db.reservations, lines, os);
    }
  }

  predicate PayableLine(rs: Reservations, l: Line) {
    && l.amount >= 1 && l.reservation.Some? && l.reservation.value > 0
    && l.reservation.value in rs && !rs[l.reservation.value].unpayableInquiry
  }

  lemma {:induction false} AllReached(rs: Reservations, lines: seq<Line>, os: seq<Outcome>)
    requires |os| == |lines|
    ensures Reached(rs, lines, os) == |lines| <==> forall i :: 0 <= i < |lines| ==>
            Accepted(rs, StayOf(lines[i]), os[i])
  {
    if lines != [] {
      var n := |lines| - 1;
      AllReached(rs, lines[..n], os[..n]);
      forall i | 0 <= i < n
        ensures Accepted(rs, StayOf(lines[..n][i]), os[..n][i]) <==> Accepted(rs, StayOf(lines[i]), os[i])
      {
      }
    }
  }

  /** The allocations of a confirmed payment are its lines, in order, each with the charge
      Hostaway posted for it; the payment names the first. */
  lemma {:induction false} ConfirmedAs(db: Db, pid: int, lines: seq<Line>, os: seq<Outcome>, today: int)
    requires |os| == |lines| && pid in db.payments && db.payments[pid].allocations == []
    requires !IsApplied(db.payments[pid].status)
    requires IsApplied(Confirm(db, pid, lines, os, today).payments[pid].status)
    ensures var row := Confirm(db, pid, lines, os, today).payments[pid];
            && row.status == ManuallyApplied && |row.allocations| == |lines| > 0
            && (forall i :: 0 <= i < |lines| ==> row.allocations[i] == AppliedLine(db.reservations, lines[i], os[i]))
            && row.matched == Some(row.allocations[0].reservation) && row.chargeId == row.allocations[0].chargeId
            && row.amount == db.payments[pid].amount && row.error == NoError
            && OnlyRow(db, Confirm(db, pid, lines, os, today), pid)
  {
    LinesAppliedAs(db.books, db.reservations, pid, lines, os, today);
    AppliedAreReached(db.books, db.reservations, pid, lines, os, today);
    var s := ApplyLines(db.books, db.reservations, pid, lines, os, today);
    assert db.payments[pid].allocations + s.applied == s.applied;
  }

  function AppliedLine(rs: Reservations, l: Line, o: Outcome): Allocation {
    Allocation(StayOf(l), l.amount,
               if (StayOf(l) in rs && rs[StayOf(l)].offline) || o.Refused? then None else Some(o.id))
  }

  lemma {:induction false} LinesAppliedAs(b: Books, rs: Reservations, pid: int, lines: seq<Line>, os: seq<Outcome>,
                                          today: int)
    requires |os| == |lines|
    ensures var s := ApplyLines(b, rs, pid, lines, os, today);
            |s.applied| <= |lines| && forall i :: 0 <= i < |s.applied| ==>
              s.applied[i] == AppliedLine(rs, lines[i], os[i])
  {
    if lines != [] {
      var n := |lines| - 1;
      LinesAppliedAs(b, rs, pid, lines[..n], os[..n], today);
      AppliedAreReached(b, rs, pid, lines[..n], os[..n], today);
      var before := ApplyLines(b, rs, pid, lines[..n], os[..n], today);
      SettleResult(before.books, rs, pid, StayOf(lines[n]), lines[n].amount, os[n], today);
    }
  }

  /** Where a confirmation sends the money: to the lines staff gave; without lines the whole
      payment to the stay they chose; and where a single line names no stay, to the stay matched
      before. */
  lemma {:induction false} ChosenStays(p: Payment, chosen: Option<int>, lines: seq<Line>)
    ensures var ls := ChosenLines(p, chosen, lines);
            && (lines == [] && chosen.Some? && chosen.value != 0 ==> ls == [Line(chosen, p.amount)])
            && (lines == [] && chosen.GetOr(0) == 0 ==> ls == [Line(p.matched, p.amount)])
            && (|lines| == 1 && lines[0].reservation.GetOr(0) != 0 ==> ls == lines)
            && (|lines| == 1 && lines[0].reservation.GetOr(0) == 0 ==> ls == [Line(p.matched, lines[0].amount)])
            && (|lines| > 1 ==> ls == lines)
  {
  }

  /** What a confirmation that succeeds has done, in terms of what staff entered. */
  ghost predicate ConfirmedOnto(p: Payment, chosen: Option<int>, lines: seq<Line>, allocations: seq<Allocation>) {
    if lines == [] then
      var stay := if chosen.GetOr(0) != 0 then chosen else p.matched;
      |allocations| == 1 && allocations[0].amount == p.amount && Some(allocations[0].reservation) == stay
    else
      && |allocations| == |lines|
      && forall i :: 0 <= i < |lines| ==>
           && allocations[i].amount == lines[i].amount
           && Some(allocations[i].reservation) ==
              if |lines| == 1 && lines[i].reservation.GetOr(0) == 0 then p.matched else lines[i].reservation
  }

  /** A confirmation that succeeds has allocated the money as staff entered it. */
  lemma {:induction false} ConfirmGoesWhereStaffSay(db: Db, pid: int, chosen: Option<int>, lines: seq<Line>,
                                                    os: seq<Outcome>, today: int)
    requires pid in db.payments && db.payments[pid].allocations == [] && !IsApplied(db.payments[pid].status)
    requires |os| == |ChosenLines(db.payments[pid], chosen, lines)|
    requires var ls := ChosenLines(db.payments[pid], chosen, lines);
             IsApplied(Confirm(db, pid, ls, os, today).payments[pid].status)
    ensures var ls := ChosenLines(db.payments[pid], chosen, lines);
            ConfirmedOnto(db.payments[pid], chosen, lines, Confirm(db, pid, ls, os, today).payments[pid].allocations)
  {
    var ls := ChosenLines(db.payments[pid], chosen, lines);
    ChosenStays(db.payments[pid], chosen, lines);
    ConfirmedAs(db, pid, ls, os, today);
    ConfirmedExactlyWhen(db, pid, ls, os, today);
    forall i | 0 <= i < |ls|
      ensures Some(Confirm(db, pid, ls, os, today).payments[pid].allocations[i].reservation) == ls[i].reservation
    {
      assert PayableLine(db.reservations, ls[i]);
    }
  }

  /** A confirmation that does not succeed changes no payment and leaves every charge row. */
  lemma {:induction false} RefusedConfirmationLeaves(db: Db, pid: int, lines: seq<Line>, os: seq<Outcome>, today: int)
    requires Inv(db) && |os| == |lines| && AllFresh(db.books.issued, os) && pid in db.payments
    requires !IsApplied(db.payments[pid].status)
    requires !IsApplied(Confirm(db, pid, lines, os, today).payments[pid].status)
    ensures var after := Confirm(db, pid, lines, os, today);
            after.payments == db.payments && after.books.charges == db.books.charges
  {
    if Confirmable(db, pid, lines) {
      RollbackRestoresCharges(db.books, db.reservations, pid, lines, os, today);
    }
  }

  // ----- skipReview and undoApplication

  lemma {:induction false} SkippedAs(db: Db, pid: int)
    ensures pid in db.payments ==>
              var after := Skip(db, pid);
              && OnlyRow(db, after, pid) && after.books == db.books
              && after.payments[pid] == db.payments[pid].(status := Skipped)
    ensures pid !in db.payments ==> Skip(db, pid) == db
  {
  }

  /** An undone payment has no allocation and no charge; it is skipped or in review by its new
      verdict, bound only by an unambiguous one, and remembers the charges Hostaway would not
      cancel until it is skipped. */
  lemma {:induction false} UndoneAs(db: Db, pid: int, failed: seq<int>, m: Option<Match>)
    requires pid in db.payments && IsApplied(db.payments[pid].status)
    ensures var row := Undo(db, pid, failed, m).payments[pid];
            var skipped := m.Some? && m.value.decision in {BulkPayment, Refund, PlatformPayout};
            && row.allocations == [] && row.chargeId == None && row.amount == db.payments[pid].amount
            && row.status == (if skipped then Skipped else PendingReview)
            && row.matched == (if m.Some? && m.value.decision == Unambiguous then m.value.best else None)
            && row.error == (if failed == [] || skipped then NoError else UndoIncomplete(failed))
            && OnlyRow(db, Undo(db, pid, failed, m), pid)
  {
    var p := db.payments[pid];
    var undone := db.(payments := db.payments[pid := UndoneRow(p, failed)], books := UndoneBooks(db, p));
    ReconcileLeaves(undone, pid, false, false, m, Refused(RemoteError("", false)), 0);
    if m.Some? { NotAppliedAs(undone, pid, false, false, m.value, Refused(RemoteError("", false)), 0); }
  }

  /** A payment applied before allocations were kept gives up the charge it names at its stay, and
      its amount is reversed there. */
  lemma {:induction false} UndoneWithoutAllocations(db: Db, pid: int, failed: seq<int>, m: Option<Match>)
    requires pid in db.payments && IsApplied(db.payments[pid].status) && db.payments[pid].allocations == []
    ensures var p := db.payments[pid];
            var gone := if p.matched.Some? && p.chargeId.Some? then {p.chargeId.value} else {};
            var b := db.books.(charges := Without(db.books.charges, gone));
            Undo(db, pid, failed, m).books ==
            if p.matched.Some? then RecordReversed(b, db.reservations, p.matched.value, p.amount) else b
  {
    UndoBooksOf(db, pid, failed, m);
  }

  /** Only applied payments can be undone. */
  lemma {:induction false} NothingToUndo(db: Db, pid: int, failed: seq<int>, m: Option<Match>)
    requires pid in db.payments ==> !IsApplied(db.payments[pid].status)
    ensures Undo(db, pid, failed, m) == db
  {
  }
}
