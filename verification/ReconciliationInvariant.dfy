/** The three views of the money agree in every reachable state: payment status, allocations
    and notified charge rows. */
module ReconciliationInvariant {
  import opened Wrappers
  import opened PaymentBooks
  import opened Reconciliation

  function AllocationSum(allocations: seq<Allocation>): int {
    if allocations == [] then 0
    else AllocationSum(allocations[..|allocations| - 1]) + allocations[|allocations| - 1].amount
  }

  ghost predicate AllPositive(allocations: seq<Allocation>) {
    forall i :: 0 <= i < |allocations| ==> allocations[i].amount > 0
  }

  ghost predicate DistinctReservations(allocations: seq<Allocation>) {
    forall i, j :: 0 <= i < j < |allocations| ==> allocations[i].reservation != allocations[j].reservation
  }

  /** Allocations exist exactly when the payment is applied; they name distinct stays, are
      positive, and come to the payment's amount: exactly when automatic, within a cent when
      manual. The row's own stay and charge are those of the first allocation. */
  ghost predicate PaymentOk(p: Payment) {
    && (p.allocations != [] <==> IsApplied(p.status))
    && AllPositive(p.allocations)
    && DistinctReservations(p.allocations)
    && (p.status == AutoApplied ==> |p.allocations| == 1 && p.allocations[0].amount == p.amount)
    && (p.status == ManuallyApplied ==> Abs(AllocationSum(p.allocations) - p.amount) <= ONE_CENT)
    && (if IsApplied(p.status)
        then p.matched == Some(p.allocations[0].reservation) && p.chargeId == p.allocations[0].chargeId
        else p.chargeId == None)
    && (p.status == Received ==> p.error == NoError)
  }

  /** A charged allocation has its charge row, for the same stay and amount. */
  ghost predicate Linked(b: Books, a: Allocation) {
    a.chargeId.Some? ==> a.chargeId.value in b.issued && Charge(a.chargeId.value, a.reservation, a.amount) in b.charges
  }

  ghost predicate AllLinked(b: Books, allocations: seq<Allocation>) {
    forall i :: 0 <= i < |allocations| ==> Linked(b, allocations[i])
  }

  /** The payment's charges have their rows, and none of them was found by the inbox check. */
  ghost predicate RowOk(b: Books, p: Payment) {
    PaymentOk(p) && AllLinked(b, p.allocations) && ChargeIds(p.allocations) !! b.noticed
  }

  ghost predicate NoSharedCharge(p: Payment, q: Payment) {
    ChargeIds(p.allocations) !! ChargeIds(q.allocations)
  }

  ghost predicate AllRowsOk(b: Books, payments: map<int, Payment>) {
    forall pid :: pid in payments ==> RowOk(b, payments[pid])
  }

  ghost predicate NoneShared(payments: map<int, Payment>) {
    forall pid, qid :: pid in payments && qid in payments && pid != qid ==> NoSharedCharge(payments[pid], payments[qid])
  }

  /** Some payment has an allocation with this charge. */
  ghost predicate Owned(payments: map<int, Payment>, id: int) {
    exists pid :: pid in payments && id in ChargeIds(payments[pid].allocations)
  }

  /** Every charge row belongs to a payment or was found by the inbox check. */
  ghost predicate NoOrphans(b: Books, payments: map<int, Payment>) {
    forall c :: c in b.charges ==> c.id in b.noticed || Owned(payments, c.id)
  }

  ghost predicate Inv(db: Db) {
    && BooksOk(db.books)
    && AllRowsOk(db.books, db.payments)
    && NoneShared(db.payments)
    && NoOrphans(db.books, db.payments)
  }

  // ----- Replacing one payment row

  lemma {:induction false} IdsIssued(b: Books, allocations: seq<Allocation>)
    requires AllLinked(b, allocations)
    ensures ChargeIds(allocations) <= b.issued
  {
  }

  lemma {:induction false} LinkedInGrown(b: Books, b': Books, p: Payment)
    requires RowOk(b, p) && Grown(b, b')
    ensures RowOk(b', p)
  {
    forall i | 0 <= i < |p.allocations| ensures Linked(b', p.allocations[i]) {
      assert Linked(b, p.allocations[i]);
    }
  }

  ghost function IdsOf(payments: map<int, Payment>, pid: int): set<int> {
    if pid in payments then ChargeIds(payments[pid].allocations) else {}
  }

  lemma {:induction false} ReplacedRowsOk(b: Books, b': Books, payments: map<int, Payment>, pid: int, row: Payment)
    requires AllRowsOk(b, payments) && Grown(b, b') && RowOk(b', row)
    ensures AllRowsOk(b', payments[pid := row])
  {
    forall q | q in payments ensures RowOk(b', payments[q]) {
      LinkedInGrown(b, b', payments[q]);
    }
  }

  lemma {:induction false} ReplacedNoneShared(b: Books, payments: map<int, Payment>, pid: int, row: Payment)
    requires AllRowsOk(b, payments) && NoneShared(payments)
    requires forall id :: id in ChargeIds(row.allocations) ==> id !in b.issued || id in IdsOf(payments, pid)
    ensures NoneShared(payments[pid := row])
  {
    forall q | q in payments && q != pid ensures NoSharedCharge(row, payments[q]) {
      assert RowOk(b, payments[q]);
      IdsIssued(b, payments[q].allocations);
      assert pid in payments ==> NoSharedCharge(payments[pid], payments[q]);
    }
  }

  lemma {:induction false} ReplacedNoOrphans(b: Books, b': Books, payments: map<int, Payment>, pid: int, row: Payment)
    requires NoOrphans(b, payments) && b'.noticed == b.noticed && IdsOf(payments, pid) <= ChargeIds(row.allocations)
    requires forall c :: c in b'.charges ==> c in b.charges || c.id in ChargeIds(row.allocations)
    ensures NoOrphans(b', payments[pid := row])
  {
    forall c | c in b'.charges && c.id !in b.noticed ensures Owned(payments[pid := row], c.id) {
      if c.id in ChargeIds(row.allocations) {
        assert payments[pid := row][pid] == row;
      } else {
        var q :| q in payments && c.id in ChargeIds(payments[q].allocations);
        assert payments[pid := row][q] == payments[q];
      }
    }
  }

  /** A row may be replaced by a consistent one that keeps its charges, takes only charges nobody
      had before, and owns every charge row that is new. */
  lemma {:induction false} ReplaceRow(db: Db, pid: int, row: Payment, b': Books)
    requires Inv(db) && BooksOk(b') && Grown(db.books, b') && RowOk(b', row)
    requires IdsOf(db.payments, pid) <= ChargeIds(row.allocations)
    requires forall id :: id in ChargeIds(row.allocations) ==> id !in db.books.issued || id in IdsOf(db.payments, pid)
    requires forall c :: c in b'.charges ==> c in db.books.charges || c.id in ChargeIds(row.allocations)
    ensures Inv(db.(payments := db.payments[pid := row], books := b'))
  {
    ReplacedRowsOk(db.books, b', db.payments, pid, row);
    ReplacedNoneShared(db.books, db.payments, pid, row);
    ReplacedNoOrphans(db.books, b', db.payments, pid, row);
  }

  /** A row that keeps its allocations may change in every other way. */
  lemma {:induction false} ReplaceSame(db: Db, pid: int, row: Payment, b': Books)
    requires Inv(db) && BooksOk(b') && Grown(db.books, b') && PaymentOk(row) && b'.charges == db.books.charges
    requires row.allocations == if pid in db.payments then db.payments[pid].allocations else []
    ensures Inv(db.(payments := db.payments[pid := row], books := b'))
  {
    if pid in db.payments {
      LinkedInGrown(db.books, b', db.payments[pid]);
    } else {
      assert ChargeIds([]) == {};
    }
    ReplaceRow(db, pid, row, b');
  }

  /** A row may give up its charges, if exactly those charge rows go with it. */
  lemma {:induction false} ReleaseRow(db: Db, pid: int, row: Payment, b': Books)
    requires Inv(db) && pid in db.payments && PaymentOk(row) && row.allocations == []
    requires b'.issued == db.books.issued && b'.noticed == db.books.noticed
    requires b'.charges == Without(db.books.charges, ChargeIds(db.payments[pid].allocations))
    ensures Inv(db.(payments := db.payments[pid := row], books := b'))
  {
    var ids := ChargeIds(db.payments[pid].allocations);
    forall c ensures c in b'.charges <==> c in db.books.charges && c.id !in ids {
      WithoutMembers(db.books.charges, ids, c);
    }
    WithoutDistinct(db.books.charges, ids);
    assert ChargeIds([]) == {};
    ReleasedRowsOk(db, pid, row, b');
    ReleasedNoOrphans(db, pid, row, b');
  }

  lemma {:induction false} ReleasedRowsOk(db: Db, pid: int, row: Payment, b': Books)
    requires AllRowsOk(db.books, db.payments) && NoneShared(db.payments) && pid in db.payments && RowOk(b', row)
    requires b'.issued == db.books.issued && b'.noticed == db.books.noticed
    requires forall c :: c in db.books.charges && c.id !in ChargeIds(db.payments[pid].allocations) ==> c in b'.charges
    ensures AllRowsOk(b', db.payments[pid := row])
  {
    forall q | q in db.payments && q != pid ensures RowOk(b', db.payments[q]) {
      assert NoSharedCharge(db.payments[pid], db.payments[q]);
      KeptLinks(db.books, b', ChargeIds(db.payments[pid].allocations), db.payments[q]);
    }
  }

  lemma {:induction false} KeptLinks(b: Books, b': Books, gone: set<int>, p: Payment)
    requires RowOk(b, p) && ChargeIds(p.allocations) !! gone
    requires b'.issued == b.issued && b'.noticed == b.noticed
    requires forall c :: c in b.charges && c.id !in gone ==> c in b'.charges
    ensures RowOk(b', p)
  {
    forall i | 0 <= i < |p.allocations| ensures Linked(b', p.allocations[i]) {
      assert Linked(b, p.allocations[i]);
      assert p.allocations[i].chargeId.Some? ==> p.allocations[i].chargeId.value in ChargeIds(p.allocations);
    }
  }

  lemma {:induction false} ReleasedNoOrphans(db: Db, pid: int, row: Payment, b': Books)
    requires NoOrphans(db.books, db.payments) && pid in db.payments && b'.noticed == db.books.noticed
    requires forall c :: c in b'.charges ==> c in db.books.charges && c.id !in ChargeIds(db.payments[pid].allocations)
    ensures NoOrphans(b', db.payments[pid := row])
  {
    forall c | c in b'.charges && c.id !in b'.noticed ensures Owned(db.payments[pid := row], c.id) {
      var q :| q in db.payments && c.id in ChargeIds(db.payments[q].allocations);
      assert db.payments[pid := row][q] == db.payments[q];
    }
  }

  /** The inbox check may write a row for any charge that has none: one made elsewhere, or one
      whose row went in an undo or rollback that Hostaway did not follow. */
  lemma {:induction false} NoticeKeepsInv(db: Db, c: Charge)
    requires Inv(db) && forall d :: d in db.books.charges ==> d.id != c.id
    ensures Inv(db.(books := db.books.(issued := db.books.issued + {c.id}, noticed := db.books.noticed + {c.id},
                                       charges := db.books.charges + [c])))
  {
    var b' := db.books.(issued := db.books.issued + {c.id}, noticed := db.books.noticed + {c.id},
                        charges := db.books.charges + [c]);
    DistinctSnoc(db.books.charges, c);
    forall q | q in db.payments ensures RowOk(b', db.payments[q]) {
      NotNoticed(db.books, b', c, db.payments[q]);
    }
    forall d | d in b'.charges && d.id !in b'.noticed ensures Owned(db.payments, d.id) {
      assert d in db.books.charges;
    }
  }

  lemma {:induction false} NotNoticed(b: Books, b': Books, c: Charge, p: Payment)
    requires RowOk(b, p) && forall d :: d in b.charges ==> d.id != c.id
    requires b' == b.(issued := b.issued + {c.id}, noticed := b.noticed + {c.id}, charges := b.charges + [c])
    ensures RowOk(b', p)
  {
    forall i | 0 <= i < |p.allocations|
      ensures Linked(b', p.allocations[i]) && p.allocations[i].chargeId != Some(c.id)
    {
      assert Linked(b, p.allocations[i]);
    }
  }

  // ----- reconcile

  /** What the matcher promises: it ranks stored reservations, and calls no payment of zero or
      less unambiguous. */
  ghost predicate MatchOk(m: Option<Match>, amount: int, rs: Reservations) {
    m.Some? ==> (m.value.best.Some? ==> m.value.best.value in rs) && (m.value.decision == Unambiguous ==> amount > 0)
  }

  lemma {:induction false} ReconcileKeepsInv(db: Db, pid: int, allow: bool, force: bool, m: Option<Match>, o: Outcome,
                                             today: int)
    requires Inv(db) && pid in db.payments && MatchOk(m, db.payments[pid].amount, db.reservations)
    requires Fresh(db.books.issued, o)
    ensures Inv(Reconcile(db, pid, allow, force, m, o, today))
  {
    var p := db.payments[pid];
    assert RowOk(db.books, p);
    if IsApplied(p.status) || m.None? {
    } else if TriesAutoApply(p, db.reservations, m.value, allow, force) {
      TriedKeepsInv(db, pid, m.value.best.value, o, today);
    } else {
      ReplaceSame(db, pid, UntriedRow(p, m.value), db.books);
    }
  }

  /** Payment row after an application was tried. */
  function TriedRow(p: Payment, best: int, r: Result): Payment {
    match r
    case Applied(id) => AutoRow(p, best, id)
    case Failed(e) => FailedRow(p, best, e)
  }

  lemma {:induction false} TriedKeepsInv(db: Db, pid: int, best: int, o: Outcome, today: int)
    requires Inv(db) && pid in db.payments && !IsApplied(db.payments[pid].status) && db.payments[pid].amount > 0
    requires best in db.reservations && Fresh(db.books.issued, o)
    ensures var s := Settle(db.books, db.reservations, pid, best, db.payments[pid].amount, o, today);
            Inv(db.(payments := db.payments[pid := TriedRow(db.payments[pid], best, s.result)], books := s.books))
  {
    var p := db.payments[pid];
    assert RowOk(db.books, p);
    SettleBooks(db.books, db.reservations, pid, best, p.amount, o, today);
    var s := Settle(db.books, db.reservations, pid, best, p.amount, o, today);
    if s.result.Applied? {
      AutoRowOk(p, best, s.result.chargeId, db.books, s.books);
      ReplaceRow(db, pid, AutoRow(p, best, s.result.chargeId), s.books);
    } else {
      ReplaceSame(db, pid, FailedRow(p, best, s.result.error), s.books);
    }
  }

  lemma {:induction false} AutoRowOk(p: Payment, reservation: int, id: Option<int>, b: Books, b': Books)
    requires PaymentOk(p) && !IsApplied(p.status) && p.amount > 0
    requires b.noticed <= b.issued && b'.noticed == b.noticed
    requires id.Some? ==>
               id.value !in b.issued && id.value in b'.issued && Charge(id.value, reservation, p.amount) in b'.charges
    ensures RowOk(b', AutoRow(p, reservation, id))
    ensures ChargeIds(AutoRow(p, reservation, id).allocations) == if id.Some? then {id.value} else {}
  {
    var a := Allocation(reservation, p.amount, id);
    assert AutoRow(p, reservation, id).allocations == [a];
    ChargeIdsSnoc([], a);
    assert [] + [a] == [a] && ChargeIds([]) == {};
  }

  // ----- confirmReview

  /** Answers to a confirmation's calls: new ids, each handed out once. */
  ghost predicate AllFresh(issued: set<int>, os: seq<Outcome>) {
    && (forall i :: 0 <= i < |os| ==> Fresh(issued, os[i]))
    && (forall i, j :: 0 <= i < j < |os| && os[i].Posted? && os[j].Posted? ==> os[i].id != os[j].id)
  }

  /** The lines applied so far, line by line, and the charges they came with. */
  ghost predicate LinesDone(b: Books, s: Split, lines: seq<Line>, os: seq<Outcome>)
    requires |os| == |lines|
  {
    && BooksOk(s.books) && Grown(b, s.books)
    && |s.applied| <= |lines| && (!s.failed ==> |s.applied| == |lines|)
    && s.books.issued == b.issued + ChargeIds(s.applied)
    && (forall i :: 0 <= i < |s.applied| ==>
          && lines[i].reservation == Some(s.applied[i].reservation) && s.applied[i].amount == lines[i].amount
          && (s.applied[i].chargeId.Some? ==> os[i] == Posted(s.applied[i].chargeId.value)))
    && AllLinked(s.books, s.applied)
  }

  lemma {:induction false} LinesBooks(b: Books, rs: Reservations, pid: int, lines: seq<Line>, os: seq<Outcome>,
                                      today: int)
    requires |os| == |lines| && BooksOk(b) && AllFresh(b.issued, os)
    requires forall i :: 0 <= i < |lines| ==> LineOk(lines[i], rs)
    ensures LinesDone(b, ApplyLines(b, rs, pid, lines, os, today), lines, os)
  {
    if lines != [] {
      var n := |lines| - 1;
      LinesBooks(b, rs, pid, lines[..n], os[..n], today);
      var before := ApplyLines(b, rs, pid, lines[..n], os[..n], today);
      if !before.failed {
        NextLine(b, rs, pid, before, lines, os, today);
      }
    }
  }

  lemma {:induction false} NextLine(b: Books, rs: Reservations, pid: int, before: Split, lines: seq<Line>,
                                    os: seq<Outcome>, today: int)
    requires |os| == |lines| > 0 && AllFresh(b.issued, os) && LineOk(lines[|lines| - 1], rs)
    requires LinesDone(b, before, lines[..|lines| - 1], os[..|lines| - 1]) && !before.failed
    ensures var n := |lines| - 1;
            var r := lines[n].reservation.value;
            var s := Settle(before.books, rs, pid, r, lines[n].amount, os[n], today);
            if s.result.Failed? then LinesDone(b, Split(s.books, before.applied, true), lines, os)
            else LinesDone(b, Split(s.books, before.applied + [Allocation(r, lines[n].amount, s.result.chargeId)],
                                    false), lines, os)
  {
    var n := |lines| - 1;
    var r := lines[n].reservation.value;
    assert Fresh(before.books.issued, os[n]) by {
      forall i | 0 <= i < n && before.applied[i].chargeId.Some?
        ensures os[n].Posted? ==> before.applied[i].chargeId.value != os[n].id
      {
        assert os[..n][i] == os[i];
      }
    }
    SettleBooks(before.books, rs, pid, r, lines[n].amount, os[n], today);
    var s := Settle(before.books, rs, pid, r, lines[n].amount, os[n], today);
    forall i | 0 <= i < |before.applied| ensures Linked(s.books, before.applied[i]) {
      assert Linked(before.books, before.applied[i]);
    }
    if s.result.Applied? {
      ChargeIdsSnoc(before.applied, Allocation(r, lines[n].amount, s.result.chargeId));
    }
  }

  lemma {:induction false} ChargeIdsSnoc(allocations: seq<Allocation>, a: Allocation)
    ensures ChargeIds(allocations + [a]) == ChargeIds(allocations) + if a.chargeId.Some? then {a.chargeId.value} else {}
  {
    var all := allocations + [a];
    assert all[|allocations|] == a;
    forall i | 0 <= i < |allocations| ensures all[i] == allocations[i] {}
  }

  lemma {:induction false} SumsAgree(applied: seq<Allocation>, lines: seq<Line>)
    requires |applied| == |lines| && forall i :: 0 <= i < |lines| ==> applied[i].amount == lines[i].amount
    ensures AllocationSum(applied) == LineSum(lines)
  {
    if lines != [] { SumsAgree(applied[..|lines| - 1], lines[..|lines| - 1]); }
  }

  lemma {:induction false} AppliedLines(b: Books, s: Split, lines: seq<Line>, os: seq<Outcome>, rs: Reservations)
    requires |os| == |lines| > 0 && LinesDone(b, s, lines, os) && !s.failed
    requires DistinctStays(lines) && forall i :: 0 <= i < |lines| ==> LineOk(lines[i], rs)
    ensures AllPositive(s.applied) && DistinctReservations(s.applied)
    ensures AllocationSum(s.applied) == LineSum(lines)
  {
    SumsAgree(s.applied, lines);
    forall i, j | 0 <= i < j < |s.applied| ensures s.applied[i].reservation != s.applied[j].reservation {
      assert lines[i].reservation != lines[j].reservation;
    }
    forall i | 0 <= i < |s.applied| ensures s.applied[i].amount > 0 {
      assert LineOk(lines[i], rs);
    }
  }

  lemma {:induction false} AppliedIdsNew(b: Books, s: Split, lines: seq<Line>, os: seq<Outcome>)
    requires |os| == |lines| && LinesDone(b, s, lines, os) && AllFresh(b.issued, os)
    ensures ChargeIds(s.applied) !! b.issued
  {
    forall i | 0 <= i < |s.applied| && s.applied[i].chargeId.Some? ensures s.applied[i].chargeId.value !in b.issued {
      assert Fresh(b.issued, os[i]);
    }
  }

  lemma {:induction false} ManualRowOk(p: Payment, b: Books, s: Split, lines: seq<Line>, os: seq<Outcome>,
                                       rs: Reservations)
    requires |os| == |lines| > 0 && LinesDone(b, s, lines, os) && !s.failed && AllFresh(b.issued, os)
    requires PaymentOk(p) && !IsApplied(p.status) && LinesOk(p, lines, rs) && b.noticed <= b.issued
    ensures RowOk(s.books, ManualRow(p, s.applied))
    ensures ManualRow(p, s.applied).allocations == s.applied && ChargeIds(s.applied) !! b.issued
  {
    AppliedLines(b, s, lines, os, rs);
    AppliedIdsNew(b, s, lines, os);
    ManualShape(p, s.applied);
  }

  lemma {:induction false} ManualShape(p: Payment, applied: seq<Allocation>)
    requires p.allocations == [] && applied != [] && AllPositive(applied) && DistinctReservations(applied)
    requires Abs(AllocationSum(applied) - p.amount) <= ONE_CENT
    ensures ManualRow(p, applied).allocations == applied && PaymentOk(ManualRow(p, applied))
  {
    var row := ManualRow(p, applied);
    assert row.allocations == applied;
    assert AllPositive(row.allocations);
    assert DistinctReservations(row.allocations);
    assert row.matched == Some(row.allocations[0].reservation);
    assert row.chargeId == row.allocations[0].chargeId;
    assert AllocationSum(row.allocations) == AllocationSum(applied);
  }

  /** A split takes back exactly the charge rows it added. */
  lemma {:induction false} RollbackRestoresCharges(b: Books, rs: Reservations, pid: int, lines: seq<Line>,
                                                   os: seq<Outcome>, today: int)
    requires |os| == |lines| && BooksOk(b) && AllFresh(b.issued, os)
    requires forall i :: 0 <= i < |lines| ==> LineOk(lines[i], rs)
    ensures RolledBack(ApplyLines(b, rs, pid, lines, os, today)).charges == b.charges
  {
    if lines == [] {
      WithoutNone(b.charges, {});
      assert ChargeIds([]) == {};
    } else {
      var n := |lines| - 1;
      var before := ApplyLines(b, rs, pid, lines[..n], os[..n], today);
      LinesBooks(b, rs, pid, lines[..n], os[..n], today);
      RollbackRestoresCharges(b, rs, pid, lines[..n], os[..n], today);
      if !before.failed {
        RollbackNext(b, rs, pid, before, lines, os, today);
      }
    }
  }

  lemma {:induction false} RollbackNext(b: Books, rs: Reservations, pid: int, before: Split, lines: seq<Line>,
                                        os: seq<Outcome>, today: int)
    requires |os| == |lines| > 0 && AllFresh(b.issued, os) && LineOk(lines[|lines| - 1], rs) && BooksOk(b)
    requires LinesDone(b, before, lines[..|lines| - 1], os[..|lines| - 1]) && !before.failed
    requires RolledBack(before).charges == b.charges
    ensures var n := |lines| - 1;
            var r := lines[n].reservation.value;
            var s := Settle(before.books, rs, pid, r, lines[n].amount, os[n], today);
            var applied := before.applied + (if s.result.Failed? then []
                                             else [Allocation(r, lines[n].amount, s.result.chargeId)]);
            Without(s.books.charges, ChargeIds(applied)) == b.charges
  {
    var n := |lines| - 1;
    var r := lines[n].reservation.value;
    var s := Settle(before.books, rs, pid, r, lines[n].amount, os[n], today);
    var ids := ChargeIds(before.applied);
    if s.result.Applied? {
      ChargeIdsSnoc(before.applied, Allocation(r, lines[n].amount, s.result.chargeId));
      if s.result.chargeId.Some? {
        assert Fresh(b.issued, os[n]);
        var id := os[n].id;
        WithoutTwice(before.books.charges, ids, {id});
        WithoutNone(b.charges, {id});
        WithoutAppend(before.books.charges, Charge(id, r, lines[n].amount), ids + {id});
        assert s.books.charges == before.books.charges + [Charge(id, r, lines[n].amount)];
        assert Without(before.books.charges, ids + {id}) + [] == b.charges;
      } else {
        assert ids + {} == ids;
      }
    } else {
      assert before.applied + [] == before.applied;
    }
  }

  lemma {:induction false} ConfirmKeepsInv(db: Db, pid: int, lines: seq<Line>, os: seq<Outcome>, today: int)
    requires Inv(db) && |os| == |lines| && AllFresh(db.books.issued, os)
    ensures Inv(Confirm(db, pid, lines, os, today))
  {
    if Confirmable(db, pid, lines) {
      var s := ApplyLines(db.books, db.reservations, pid, lines, os, today);
      if s.failed || s.applied == [] {
        RollbackKeepsInv(db, pid, lines, os, today);
      } else {
        SplitKeepsInv(db, pid, lines, os, today);
      }
    }
  }

  lemma {:induction false} RollbackKeepsInv(db: Db, pid: int, lines: seq<Line>, os: seq<Outcome>, today: int)
    requires Inv(db) && |os| == |lines| && AllFresh(db.books.issued, os) && Confirmable(db, pid, lines)
    ensures Inv(db.(books := RolledBack(ApplyLines(db.books, db.reservations, pid, lines, os, today))))
  {
    var p := db.payments[pid];
    assert RowOk(db.books, p);
    LinesBooks(db.books, db.reservations, pid, lines, os, today);
    RollbackRestoresCharges(db.books, db.reservations, pid, lines, os, today);
    ReplaceSame(db, pid, p, RolledBack(ApplyLines(db.books, db.reservations, pid, lines, os, today)));
    assert db.payments[pid := p] == db.payments;
  }

  lemma {:induction false} SplitKeepsInv(db: Db, pid: int, lines: seq<Line>, os: seq<Outcome>, today: int)
    requires Inv(db) && |os| == |lines| && AllFresh(db.books.issued, os) && Confirmable(db, pid, lines)
    requires var s := ApplyLines(db.books, db.reservations, pid, lines, os, today); !s.failed && s.applied != []
    ensures var s := ApplyLines(db.books, db.reservations, pid, lines, os, today);
            Inv(db.(payments := db.payments[pid := ManualRow(db.payments[pid], s.applied)], books := s.books))
  {
    var p := db.payments[pid];
    assert RowOk(db.books, p);
    LinesBooks(db.books, db.reservations, pid, lines, os, today);
    var s := ApplyLines(db.books, db.reservations, pid, lines, os, today);
    ManualRowOk(p, db.books, s, lines, os, db.reservations);
    assert ChargeIds(p.allocations) == {};
    ReplaceRow(db, pid, ManualRow(p, s.applied), s.books);
  }

  // ----- skipReview

  /** Skipping keeps the views in agreement exactly when the payment was not applied: nothing
      in skipReview asks for that. */
  lemma {:induction false} SkipKeepsInv(db: Db, pid: int)
    requires Inv(db)
    ensures Inv(Skip(db, pid)) <==> (pid in db.payments ==> !IsApplied(db.payments[pid].status))
  {
    if pid in db.payments {
      var p := db.payments[pid];
      assert RowOk(db.books, p);
      if IsApplied(p.status) {
        assert !PaymentOk(Skip(db, pid).payments[pid]);
      } else {
        ReplaceSame(db, pid, p.(status := Skipped), db.books);
      }
    }
  }

  // ----- undoApplication

  lemma {:induction false} ReverseAllKeepsCharges(b: Books, rs: Reservations, allocations: seq<Allocation>)
    ensures var r := ReverseAll(b, rs, allocations);
            r.charges == b.charges && r.issued == b.issued && r.noticed == b.noticed && r.attempts == b.attempts
  {
    if allocations != [] { ReverseAllKeepsCharges(b, rs, allocations[..|allocations| - 1]); }
  }

  lemma {:induction false} UndoKeepsInv(db: Db, pid: int, failed: seq<int>, m: Option<Match>)
    requires Inv(db) && (pid in db.payments ==> MatchOk(m, db.payments[pid].amount, db.reservations))
    ensures Inv(Undo(db, pid, failed, m))
  {
    if pid in db.payments && IsApplied(db.payments[pid].status) {
      var p := db.payments[pid];
      assert RowOk(db.books, p);
      var b := db.books.(charges := Without(db.books.charges, UndoTargets(p)));
      ReverseAllKeepsCharges(b, db.reservations, p.allocations);
      ReleaseRow(db, pid, UndoneRow(p, failed), UndoneBooks(db, p));
      var undone := db.(payments := db.payments[pid := UndoneRow(p, failed)], books := UndoneBooks(db, p));
      ReconcileKeepsInv(undone, pid, false, false, m, Refused(RemoteError("", false)), 0);
    }
  }
}
