/** What undoing a payment takes back, and what it restores. */
module ReconciliationUndo {
  import opened Wrappers
  import opened PaymentBooks
  import opened Reconciliation
  import opened ReconciliationInvariant

  /** Undo of an applied payment removes exactly the charge rows its allocations name, whether
      or not Hostaway cancels the charges, touches no other payment, and leaves the payment
      unapplied. Every other payment keeps all its charge rows. */
  lemma {:induction false} UndoRemovesOwnCharges(db: Db, pid: int, failed: seq<int>, m: Option<Match>)
    requires Inv(db) && pid in db.payments && IsApplied(db.payments[pid].status)
    requires MatchOk(m, db.payments[pid].amount, db.reservations)
    ensures var after := Undo(db, pid, failed, m);
            && after.books.charges == Without(db.books.charges, ChargeIds(db.payments[pid].allocations))
            && after.payments.Keys == db.payments.Keys
            && (forall q :: q in db.payments && q != pid ==>
                  after.payments[q] == db.payments[q] && AllLinked(after.books, db.payments[q].allocations))
            && !IsApplied(after.payments[pid].status) && after.payments[pid].allocations == []
  {
    var p := db.payments[pid];
    assert RowOk(db.books, p);
    ReverseAllKeepsCharges(db.books.(charges := Without(db.books.charges, UndoTargets(p))), db.reservations,
                           p.allocations);
    UndoKeepsInv(db, pid, failed, m);
    var after := Undo(db, pid, failed, m);
    forall q | q in db.payments && q != pid
      ensures after.payments[q] == db.payments[q] && AllLinked(after.books, db.payments[q].allocations)
    {
      assert RowOk(after.books, after.payments[q]);
    }
  }

  /** No reservation's open balance is changed between the two states. */
  ghost predicate SameBalances(before: Db, after: Db) {
    forall r :: OpenBalance(before.reservations, before.books.charges, r) ==
      OpenBalance(after.reservations, after.books.charges, r)
  }

  /** Confirming a payment, as one line or as a split, and undoing it gives back every charge
      row, and with them every open balance. */
  lemma {:induction false} UndoRestoresConfirm(db: Db, pid: int, lines: seq<Line>, os: seq<Outcome>, today: int,
                                               failed: seq<int>, m: Option<Match>)
    requires Inv(db) && |os| == |lines| && AllFresh(db.books.issued, os)
    requires pid in db.payments && MatchOk(m, db.payments[pid].amount, db.reservations)
    requires !IsApplied(db.payments[pid].status) && IsApplied(Confirm(db, pid, lines, os, today).payments[pid].status)
    ensures var after := Undo(Confirm(db, pid, lines, os, today), pid, failed, m);
            after.books.charges == db.books.charges && SameBalances(db, after)
  {
    var applied := Confirm(db, pid, lines, os, today);
    ConfirmAddsItsCharges(db, pid, lines, os, today);
    ConfirmKeepsInv(db, pid, lines, os, today);
    UndoRemovesOwnCharges(applied, pid, failed, m);
    SameReservations(applied, pid, failed, m);
  }

  lemma {:induction false} SameReservations(db: Db, pid: int, failed: seq<int>, m: Option<Match>)
    ensures Undo(db, pid, failed, m).reservations == db.reservations
  {
  }

  /** A successful confirmation adds the charge rows its allocations name, and only those. */
  lemma {:induction false} ConfirmAddsItsCharges(db: Db, pid: int, lines: seq<Line>, os: seq<Outcome>, today: int)
    requires Inv(db) && |os| == |lines| && AllFresh(db.books.issued, os)
    requires pid in db.payments
    requires !IsApplied(db.payments[pid].status) && IsApplied(Confirm(db, pid, lines, os, today).payments[pid].status)
    ensures var applied := Confirm(db, pid, lines, os, today);
            && applied.reservations == db.reservations && applied.payments[pid].amount == db.payments[pid].amount
            && Without(applied.books.charges, ChargeIds(applied.payments[pid].allocations)) == db.books.charges
  {
    var p := db.payments[pid];
    assert RowOk(db.books, p);
    RollbackRestoresCharges(db.books, db.reservations, pid, lines, os, today);
    var s := ApplyLines(db.books, db.reservations, pid, lines, os, today);
    assert p.allocations + s.applied == s.applied;
  }

  /** What an automatic application leaves behind. */
  lemma {:induction false} AutoApplication(db: Db, pid: int, force: bool, m: Option<Match>, o: Outcome, today: int)
    requires pid in db.payments && !IsApplied(db.payments[pid].status)
    requires IsApplied(Reconcile(db, pid, true, force, m, o, today).payments[pid].status)
    ensures m.Some? && m.value.best.Some? && m.value.decision == Unambiguous
    ensures var p, best := db.payments[pid], m.value.best.value;
            var s := Settle(db.books, db.reservations, pid, best, p.amount, o, today);
            && s.result.Applied?
            && Reconcile(db, pid, true, force, m, o, today) ==
               db.(payments := db.payments[pid := AutoRow(p, best, s.result.chargeId)], books := s.books)
  {
  }

  /** The same for a payment the matcher applied. */
  lemma {:induction false} UndoRestoresReconcile(db: Db, pid: int, force: bool, m: Option<Match>, o: Outcome,
                                                 today: int,
                                                 failed: seq<int>, m': Option<Match>)
    requires Inv(db) && pid in db.payments && Fresh(db.books.issued, o)
    requires MatchOk(m, db.payments[pid].amount, db.reservations)
             && MatchOk(m', db.payments[pid].amount, db.reservations)
    requires !IsApplied(db.payments[pid].status)
    requires IsApplied(Reconcile(db, pid, true, force, m, o, today).payments[pid].status)
    ensures var after := Undo(Reconcile(db, pid, true, force, m, o, today), pid, failed, m');
            after.books.charges == db.books.charges && SameBalances(db, after)
  {
    var applied := Reconcile(db, pid, true, force, m, o, today);
    ReconcileKeepsInv(db, pid, true, force, m, o, today);
    AutoApplication(db, pid, force, m, o, today);
    ReconcileAddsItsCharge(db, pid, m.value.best.value, o, today);
    UndoRemovesOwnCharges(applied, pid, failed, m');
    SameReservations(applied, pid, failed, m');
  }

  lemma {:induction false} ReconcileAddsItsCharge(db: Db, pid: int, best: int, o: Outcome, today: int)
    requires Inv(db) && pid in db.payments && Fresh(db.books.issued, o) && best in db.reservations
    requires !IsApplied(db.payments[pid].status)
    requires Settle(db.books, db.reservations, pid, best, db.payments[pid].amount, o, today).result.Applied?
    ensures var p := db.payments[pid];
            var s := Settle(db.books, db.reservations, pid, best, p.amount, o, today);
            Without(s.books.charges, ChargeIds(AutoRow(p, best, s.result.chargeId).allocations)) == db.books.charges
  {
    var p := db.payments[pid];
    assert RowOk(db.books, p);
    SettleBooks(db.books, db.reservations, pid, best, p.amount, o, today);
    var s := Settle(db.books, db.reservations, pid, best, p.amount, o, today);
    OneAllocation(p, best, s.result.chargeId, db.books.charges);
  }

  lemma {:induction false} OneAllocation(p: Payment, r: int, id: Option<int>, charges: seq<Charge>)
    requires p.allocations == []
    requires id.Some? ==> forall c :: c in charges ==> c.id != id.value
    ensures var ids := ChargeIds(AutoRow(p, r, id).allocations);
            && Without(charges, ids) == charges
            && (id.Some? ==> Without(charges + [Charge(id.value, r, p.amount)], ids) == charges)
  {
    var a := Allocation(r, p.amount, id);
    ChargeIdsSnoc([], a);
    assert AutoRow(p, r, id).allocations == [a];
    assert ChargeIds([]) == {};
    assert [] + [a] == [a];
    var ids := ChargeIds([a]);
    WithoutNone(charges, ids);
    if id.Some? {
      WithoutAppend(charges, Charge(id.value, r, p.amount), ids);
      assert charges + [] == charges;
    }
  }

  lemma {:induction false} UndoBooksOf(db: Db, pid: int, failed: seq<int>, m: Option<Match>)
    requires pid in db.payments && IsApplied(db.payments[pid].status)
    ensures Undo(db, pid, failed, m).books == UndoneBooks(db, db.payments[pid])
  {
  }
}
