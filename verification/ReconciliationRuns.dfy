/** Whole runs of payment reconciliation: deliveries, polls, staff actions and changes made
    elsewhere, in any order. */
module ReconciliationRuns {
  import opened Wrappers
  import opened PaymentPlan
  import opened PaymentBooks
  import opened Reconciliation
  import opened ReconciliationInvariant

  datatype Event =
    | Deliver(pid: int, amount: int, match_: Option<Match>, answer: Outcome, today: int)
    | Poll(pid: int, match_: Option<Match>, answer: Outcome, today: int)
    | Retry(pid: int, match_: Option<Match>, answer: Outcome, today: int)
    | ConfirmPayment(pid: int, lines: seq<Line>, answers: seq<Outcome>, today: int)
    | SkipPayment(pid: int)
    | UndoPayment(pid: int, failed: seq<int>, match_: Option<Match>)
    | ReservationSaved(reservation: int, row: Reservation)
    | PlanSaved(reservation: int, plan: Plan)
    | PlanDeleted(reservation: int)
    | ChargeNoticed(charge: Charge)

  ghost function Step(db: Db, e: Event): Db
    requires Enabled(db, e)
  {
    match e
    case Deliver(pid, amount, m, o, today) => Ingest(db, pid, amount, m, o, today)
    case Poll(pid, m, o, today) => Reconcile(db, pid, true, false, m, o, today)
    case Retry(pid, m, o, today) => Reconcile(db, pid, true, true, m, o, today)
    case ConfirmPayment(pid, lines, os, today) => Confirm(db, pid, lines, os, today)
    case SkipPayment(pid) => Skip(db, pid)
    case UndoPayment(pid, failed, m) => Undo(db, pid, failed, m)
    case ReservationSaved(r, row) => db.(reservations := db.reservations[r := row])
    case PlanSaved(r, plan) => db.(books := db.books.(plans := db.books.plans[r := plan]))
    case PlanDeleted(r) => db.(books := db.books.(plans := db.books.plans - {r}))
    case ChargeNoticed(c) =>
      db.(books := db.books.(issued := db.books.issued + {c.id}, noticed := db.books.noticed + {c.id},
                             charges := db.books.charges + [c]))
  }

  /** What the operations may count on: the matcher's promises, Hostaway's fresh ids, polls only
      of payments in review, and a skip only of a payment that is not applied. The inbox check
      writes a row for any paid charge that has none, be it one of ours. */
  ghost predicate Enabled(db: Db, e: Event) {
    match e
    case Deliver(pid, amount, m, o, _) => MatchOk(m, amount, db.reservations) && Fresh(db.books.issued, o)
    case Poll(pid, m, o, _) =>
      pid in db.payments && db.payments[pid].status == PendingReview
      && MatchOk(m, db.payments[pid].amount, db.reservations) && Fresh(db.books.issued, o)
    case Retry(pid, m, o, _) =>
      pid in db.payments && MatchOk(m, db.payments[pid].amount, db.reservations) && Fresh(db.books.issued, o)
    case ConfirmPayment(pid, lines, os, _) => |os| == |lines| && AllFresh(db.books.issued, os)
    case SkipPayment(pid) => pid in db.payments ==> !IsApplied(db.payments[pid].status)
    case UndoPayment(pid, failed, m) => pid in db.payments ==> MatchOk(m, db.payments[pid].amount, db.reservations)
    case ReservationSaved(_, _) => true
    case PlanSaved(_, _) => true
    case PlanDeleted(_) => true
    case ChargeNoticed(c) => c.id > 0 && forall d :: d in db.books.charges ==> d.id != c.id
  }

  const EMPTY := Db(map[], Books([], map[], {}, {}, []), map[])

  /** The state after a run is db. */
  ghost predicate RunTo(es: seq<Event>, db: Db)
    decreases |es|
  {
    if es == [] then db == EMPTY
    else exists before :: StepTo(es, before, db)
  }

  ghost predicate StepTo(es: seq<Event>, before: Db, db: Db)
    requires es != []
    decreases |es|, 0
  {
    RunTo(es[..|es| - 1], before) && Enabled(before, es[|es| - 1]) && db == Step(before, es[|es| - 1])
  }

  // ----- Consistency

  lemma {:induction false} StepKeepsInv(db: Db, e: Event)
    requires Inv(db) && Enabled(db, e)
    ensures Inv(Step(db, e))
  {
    match e
    case Deliver(pid, amount, m, o, today) => IngestKeepsInv(db, pid, amount, m, o, today);
    case Poll(pid, m, o, today) => ReconcileKeepsInv(db, pid, true, false, m, o, today);
    case Retry(pid, m, o, today) => ReconcileKeepsInv(db, pid, true, true, m, o, today);
    case ConfirmPayment(pid, lines, os, today) => ConfirmKeepsInv(db, pid, lines, os, today);
    case SkipPayment(pid) => SkipKeepsInv(db, pid);
    case UndoPayment(pid, failed, m) => UndoKeepsInv(db, pid, failed, m);
    case ReservationSaved(_, _) =>
    case PlanSaved(_, _) => PlansKeepInv(db, Step(db, e).books.plans);
    case PlanDeleted(_) => PlansKeepInv(db, Step(db, e).books.plans);
    case ChargeNoticed(c) => NoticeKeepsInv(db, c);
  }

  lemma {:induction false} CreatedKeepsInv(db: Db, pid: int, amount: int)
    requires Inv(db) && pid !in db.payments
    ensures Inv(db.(payments := db.payments[pid := NewPayment(amount)]))
  {
    ReplaceSame(db, pid, NewPayment(amount), db.books);
  }

  lemma {:induction false} IngestKeepsInv(db: Db, pid: int, amount: int, m: Option<Match>, o: Outcome, today: int)
    requires Inv(db) && MatchOk(m, amount, db.reservations) && Fresh(db.books.issued, o)
    ensures Inv(Ingest(db, pid, amount, m, o, today))
  {
    if pid !in db.payments {
      CreatedKeepsInv(db, pid, amount);
      ReconcileKeepsInv(db.(payments := db.payments[pid := NewPayment(amount)]), pid, true, false, m, o, today);
    }
  }

  lemma {:induction false} PlansKeepInv(db: Db, plans: map<int, Plan>)
    requires Inv(db)
    ensures Inv(db.(books := db.books.(plans := plans)))
  {
    forall q | q in db.payments ensures RowOk(db.books.(plans := plans), db.payments[q]) {
      LinkedInGrown(db.books, db.books.(plans := plans), db.payments[q]);
    }
  }

  /** In every reachable state the payment rows, their allocations and the charge rows agree. */
  lemma {:induction false} ReachableStatesConsistent(es: seq<Event>, db: Db)
    requires RunTo(es, db)
    ensures Inv(db)
    decreases |es|
  {
    if es != [] {
      var before :| StepTo(es, before, db);
      ReachableStatesConsistent(es[..|es| - 1], before);
      StepKeepsInv(before, es[|es| - 1]);
    }
  }
}
