/** The money shown as paid on a stay is accounted for: in every reachable state it is what the
    applied payments have charged there plus what the inbox check found paid in Hostaway. */
module ReconciliationBalances {
  import opened Wrappers
  import opened PaymentBooks
  import opened Reconciliation
  import opened ReconciliationInvariant
  import opened ReconciliationRuns

  /** What a payment has allocated to a stay; on request only what was charged in Hostaway. */
  function Allocated(allocations: seq<Allocation>, reservation: int, chargedOnly: bool): int {
    if allocations == [] then 0
    else
      var last := allocations[|allocations| - 1];
      Allocated(allocations[..|allocations| - 1], reservation, chargedOnly) +
      if last.reservation == reservation && (chargedOnly ==> last.chargeId.Some?) then last.amount else 0
  }

  ghost function Pick<T>(s: set<T>): (x: T)
    requires s != {}
    ensures x in s
  {
    var x :| x in s;
    x
  }

  /** The same for the listed payments together. */
  ghost function AllocatedTo(payments: map<int, Payment>, pids: set<int>, reservation: int, chargedOnly: bool): int
    requires pids <= payments.Keys
    decreases |pids|
  {
    if pids == {} then 0
    else
      var pid := Pick(pids);
      Allocated(payments[pid].allocations, reservation, chargedOnly)
      + AllocatedTo(payments, pids - {pid}, reservation, chargedOnly)
  }

  /** The charge rows with one of the ids. */
  function Among(charges: seq<Charge>, ids: set<int>): seq<Charge> {
    if charges == [] then []
    else
      var last := charges[|charges| - 1];
      Among(charges[..|charges| - 1], ids) + if last.id in ids then [last] else []
  }

  lemma {:induction false} WithoutLast(charges: seq<Charge>)
    requires charges != [] && DistinctIds(charges)
    ensures Without(charges, {charges[|charges| - 1].id}) == charges[..|charges| - 1]
  {
    var init, last := charges[..|charges| - 1], charges[|charges| - 1];
    forall d | d in init ensures d.id != last.id {
      var i :| 0 <= i < |init| && init[i] == d;
      assert charges[i] == d;
    }
    WithoutNone(init, {last.id});
    assert init + [] == init;
  }

  /** Taking one row away takes its amount off the balance of its stay. */
  lemma {:induction false} PaidWithoutAt(charges: seq<Charge>, k: nat, reservation: int)
    requires DistinctIds(charges) && k < |charges|
    ensures Paid(charges, reservation) ==
            Paid(Without(charges, {charges[k].id}), reservation) + Counted(charges[k], reservation)
  {
    var n := |charges| - 1;
    if k == n {
      WithoutLast(charges);
    } else {
      PaidWithoutAt(charges[..n], k, reservation);
      PaidSnoc(Without(charges[..n], {charges[k].id}), charges[n], reservation);
    }
  }

  lemma {:induction false} PaidWithoutOne(charges: seq<Charge>, c: Charge, reservation: int)
    requires DistinctIds(charges) && c in charges
    ensures Paid(charges, reservation) == Paid(Without(charges, {c.id}), reservation) + Counted(c, reservation)
  {
    var k :| 0 <= k < |charges| && charges[k] == c;
    PaidWithoutAt(charges, k, reservation);
  }

  /** Every charged allocation has its row. */
  ghost predicate RowsThere(charges: seq<Charge>, allocations: seq<Allocation>) {
    forall i :: 0 <= i < |allocations| && allocations[i].chargeId.Some? ==>
      Charge(allocations[i].chargeId.value, allocations[i].reservation, allocations[i].amount) in charges
  }

  /** Taking a payment's rows away takes off each stay what the payment charged there. */
  lemma {:induction false} PaidWithoutPayment(charges: seq<Charge>, allocations: seq<Allocation>, reservation: int)
    requires DistinctIds(charges) && RowsThere(charges, allocations)
    requires AllPositive(allocations) && DistinctReservations(allocations)
    ensures Paid(charges, reservation) ==
            Paid(Without(charges, ChargeIds(allocations)), reservation) + Allocated(allocations, reservation, true)
  {
    if allocations == [] {
      assert ChargeIds([]) == {};
      WithoutNone(charges, {});
    } else {
      var init, last := allocations[..|allocations| - 1], allocations[|allocations| - 1];
      assert allocations == init + [last];
      PaidWithoutPayment(charges, init, reservation);
      ChargeIdsSnoc(init, last);
      if last.chargeId.Some? {
        var c := Charge(last.chargeId.value, last.reservation, last.amount);
        NotYetTaken(charges, allocations);
        WithoutMembers(charges, ChargeIds(init), c);
        WithoutDistinct(charges, ChargeIds(init));
        PaidWithoutOne(Without(charges, ChargeIds(init)), c, reservation);
        WithoutTwice(charges, ChargeIds(init), {c.id});
      } else {
        assert ChargeIds(init) + {} == ChargeIds(init);
      }
    }
  }

  lemma {:induction false} NotYetTaken(charges: seq<Charge>, allocations: seq<Allocation>)
    requires DistinctIds(charges) && RowsThere(charges, allocations) && DistinctReservations(allocations)
    requires allocations != [] && allocations[|allocations| - 1].chargeId.Some?
    ensures allocations[|allocations| - 1].chargeId.value !in ChargeIds(allocations[..|allocations| - 1])
  {
    var n := |allocations| - 1;
    var id := allocations[n].chargeId.value;
    if id in ChargeIds(allocations[..n]) {
      var i :| 0 <= i < n && allocations[i].chargeId == Some(id);
      OneRowPerId(charges, Charge(id, allocations[i].reservation, allocations[i].amount),
                  Charge(id, allocations[n].reservation, allocations[n].amount));
      assert false;
    }
  }

  ghost function IdsOfAll(payments: map<int, Payment>, pids: set<int>): set<int>
    requires pids <= payments.Keys
  {
    set pid, id | pid in pids && id in ChargeIds(payments[pid].allocations) :: id
  }

  /** The rows of each listed payment are among these, and no two payments share one. */
  ghost predicate Accounted(charges: seq<Charge>, payments: map<int, Payment>, pids: set<int>)
    requires pids <= payments.Keys
  {
    && (forall pid :: pid in pids ==> PaymentOk(payments[pid]) && RowsThere(charges, payments[pid].allocations))
    && (forall pid, qid :: pid in pids && qid in pids && pid != qid ==> NoSharedCharge(payments[pid], payments[qid]))
  }

  lemma {:induction false} PaidWithoutPayments(charges: seq<Charge>, payments: map<int, Payment>, pids: set<int>,
                                               reservation: int)
    requires pids <= payments.Keys && DistinctIds(charges) && Accounted(charges, payments, pids)
    ensures Paid(charges, reservation) ==
            Paid(Without(charges, IdsOfAll(payments, pids)), reservation)
            + AllocatedTo(payments, pids, reservation, true)
    decreases |pids|
  {
    if pids == {} {
      assert IdsOfAll(payments, {}) == {};
      WithoutNone(charges, {});
    } else {
      var q := Pick(pids);
      var ids := ChargeIds(payments[q].allocations);
      PaidWithoutPayment(charges, payments[q].allocations, reservation);
      WithoutDistinct(charges, ids);
      StillAccounted(charges, payments, pids, q);
      PaidWithoutPayments(Without(charges, ids), payments, pids - {q}, reservation);
      WithoutTwice(charges, ids, IdsOfAll(payments, pids - {q}));
      assert IdsOfAll(payments, pids) == ids + IdsOfAll(payments, pids - {q});
    }
  }

  lemma {:induction false} StillAccounted(charges: seq<Charge>, payments: map<int, Payment>, pids: set<int>, q: int)
    requires pids <= payments.Keys && q in pids && Accounted(charges, payments, pids)
    ensures Accounted(Without(charges, ChargeIds(payments[q].allocations)), payments, pids - {q})
  {
    var ids := ChargeIds(payments[q].allocations);
    forall pid | pid in pids - {q} ensures RowsThere(Without(charges, ids), payments[pid].allocations) {
      var allocations := payments[pid].allocations;
      assert NoSharedCharge(payments[q], payments[pid]);
      forall i | 0 <= i < |allocations| && allocations[i].chargeId.Some?
        ensures Charge(allocations[i].chargeId.value, allocations[i].reservation, allocations[i].amount)
                in Without(charges, ids)
      {
        assert allocations[i].chargeId.value in ChargeIds(allocations);
        WithoutMembers(charges, ids, Charge(allocations[i].chargeId.value, allocations[i].reservation,
                                            allocations[i].amount));
      }
    }
  }

  lemma {:induction false} RestIsAmong(charges: seq<Charge>, gone: set<int>, kept: set<int>)
    requires forall c :: c in charges ==> (c.id in gone <==> c.id !in kept)
    ensures Without(charges, gone) == Among(charges, kept)
  {
    if charges != [] {
      assert charges == charges[..|charges| - 1] + [charges[|charges| - 1]];
      RestIsAmong(charges[..|charges| - 1], gone, kept);
    }
  }

  /** Where the views of the money agree, the positive charge rows of a stay come to what the
      payments have allocated and charged there plus what was noticed in Hostaway. */
  lemma {:induction false} PaidIsAccounted(db: Db, reservation: int)
    requires Inv(db)
    ensures Paid(db.books.charges, reservation) ==
            AllocatedTo(db.payments, db.payments.Keys, reservation, true)
            + Paid(Among(db.books.charges, db.books.noticed), reservation)
  {
    var pids := db.payments.Keys;
    forall pid | pid in pids
      ensures PaymentOk(db.payments[pid]) && RowsThere(db.books.charges, db.payments[pid].allocations)
    {
      LinkedRowsThere(db.books, db.payments[pid]);
    }
    PaidWithoutPayments(db.books.charges, db.payments, pids, reservation);
    forall c | c in db.books.charges ensures c.id in IdsOfAll(db.payments, pids) <==> c.id !in db.books.noticed {
      OwnedOrNoticed(db, c);
    }
    RestIsAmong(db.books.charges, IdsOfAll(db.payments, pids), db.books.noticed);
  }

  lemma {:induction false} LinkedRowsThere(b: Books, p: Payment)
    requires RowOk(b, p)
    ensures PaymentOk(p) && RowsThere(b.charges, p.allocations)
  {
    forall i | 0 <= i < |p.allocations| ensures Linked(b, p.allocations[i]) {}
  }

  lemma {:induction false} OwnedOrNoticed(db: Db, c: Charge)
    requires Inv(db) && c in db.books.charges
    ensures c.id in IdsOfAll(db.payments, db.payments.Keys) <==> c.id !in db.books.noticed
  {
    if c.id in db.books.noticed {
      forall pid | pid in db.payments ensures c.id !in ChargeIds(db.payments[pid].allocations) {
        assert RowOk(db.books, db.payments[pid]);
      }
    }
  }

  lemma {:induction false} OnePayment(payments: map<int, Payment>, pid: int, qid: int, id: int)
    requires NoneShared(payments) && pid in payments && qid in payments
    requires id in ChargeIds(payments[pid].allocations) && id in ChargeIds(payments[qid].allocations)
    ensures pid == qid
  {
  }

  /** Two payments, or two allocations of one, never name the same charge row. */
  lemma {:induction false} OneOwner(db: Db, c: Charge, pid: int, qid: int, i: int, j: int)
    requires Inv(db) && pid in db.payments && qid in db.payments
    requires 0 <= i < |db.payments[pid].allocations| && db.payments[pid].allocations[i].chargeId == Some(c.id)
    requires 0 <= j < |db.payments[qid].allocations| && db.payments[qid].allocations[j].chargeId == Some(c.id)
    ensures pid == qid && i == j && IsApplied(db.payments[pid].status)
  {
    assert RowOk(db.books, db.payments[pid]);
    assert c.id in ChargeIds(db.payments[pid].allocations) && c.id in ChargeIds(db.payments[qid].allocations);
    OnePayment(db.payments, pid, qid, c.id);
    var a, d := db.payments[pid].allocations[i], db.payments[pid].allocations[j];
    assert Linked(db.books, a) && Linked(db.books, d);
    OneRowPerId(db.books.charges, Charge(c.id, a.reservation, a.amount), Charge(c.id, d.reservation, d.amount));
  }

  /** What the service has charged to a stay, and what was paid past it. */
  ghost function Received(db: Db, reservation: int): int {
    AllocatedTo(db.payments, db.payments.Keys, reservation, true)
    + Paid(Among(db.books.charges, db.books.noticed), reservation)
  }

  lemma {:induction false} ReachablePaid(es: seq<Event>, db: Db, reservation: int)
    requires RunTo(es, db)
    ensures Paid(db.books.charges, reservation) == Received(db, reservation)
  {
    ReachableStatesConsistent(es, db);
    PaidIsAccounted(db, reservation);
  }

  /** In every reachable state the open balance of a stay is its total less what the applied
      payments have charged there and less what was paid past the service. */
  lemma {:induction false} ReachableBalances(es: seq<Event>, db: Db, reservation: int)
    requires RunTo(es, db)
    ensures OpenBalance(db.reservations, db.books.charges, reservation) ==
            if reservation in db.reservations && db.reservations[reservation].total.Some?
            then Some(Max(0, db.reservations[reservation].total.value - Received(db, reservation))) else None
  {
    ReachablePaid(es, db, reservation);
  }
}
