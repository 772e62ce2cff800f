/** Instalment plans over whole runs: their amounts stay in range, and a plan's schedule moves with
    the payments allocated to its stay, never ahead of them. */
module ReconciliationSchedule {
  import opened Wrappers
  import opened DueDates
  import opened PaymentPlan
  import opened PaymentBooks
  import opened Reconciliation
  import opened ReconciliationInvariant
  import opened ReconciliationRuns
  import opened ReconciliationBalances
  import opened ReconciliationUndo
  import opened ReconciliationLedger

  // ----- Amounts stay in range

  lemma {:induction false} AppliedStaysSane(b: Books, rs: Reservations, r: int, amount: int, today: int)
    requires PlansSane(b.plans)
    ensures PlansSane(RecordApplied(b, rs, r, amount, today).plans)
  {
    if amount > 0 && r in b.plans { LedgerStaysSane(b.plans[r], amount, OpenBalance(rs, b.charges, r), today); }
  }

  lemma {:induction false} ReversedStaysSane(b: Books, rs: Reservations, r: int, amount: int)
    requires PlansSane(b.plans)
    ensures PlansSane(RecordReversed(b, rs, r, amount).plans)
  {
    if amount > 0 && r in b.plans { LedgerStaysSane(b.plans[r], amount, OpenBalance(rs, b.charges, r), 0); }
  }

  lemma {:induction false} SettledStaysSane(b: Books, rs: Reservations, pid: int, r: int, amount: int, o: Outcome,
                                            today: int)
    requires PlansSane(b.plans)
    ensures PlansSane(Settle(b, rs, pid, r, amount, o, today).books.plans)
  {
    AppliedStaysSane(b, rs, r, amount, today);
    var called := Called(b, pid, r, o);
    AppliedStaysSane(called, rs, r, amount, today);
    if o.Posted? { AppliedStaysSane(Charged(called, rs, r, amount, o.id), rs, r, amount, today); }
  }

  lemma {:induction false} LinesStaySane(b: Books, rs: Reservations, pid: int, lines: seq<Line>, os: seq<Outcome>,
                                         today: int)
    requires |os| == |lines| && PlansSane(b.plans)
    ensures PlansSane(ApplyLines(b, rs, pid, lines, os, today).books.plans)
  {
    if lines != [] {
      var n := |lines| - 1;
      LinesStaySane(b, rs, pid, lines[..n], os[..n], today);
      var before := ApplyLines(b, rs, pid, lines[..n], os[..n], today);
      SettledStaysSane(before.books, rs, pid, lines[n].reservation.GetOr(0), lines[n].amount, os[n], today);
    }
  }

  lemma {:induction false} AllReversedStaysSane(b: Books, rs: Reservations, allocations: seq<Allocation>)
    requires PlansSane(b.plans)
    ensures PlansSane(ReverseAll(b, rs, allocations).plans)
  {
    if allocations != [] {
      var init, last := allocations[..|allocations| - 1], allocations[|allocations| - 1];
      AllReversedStaysSane(b, rs, init);
      ReversedStaysSane(ReverseAll(b, rs, init), rs, last.reservation, last.amount);
    }
  }

  lemma {:induction false} ReconcileStaysSane(db: Db, q: int, allow: bool, force: bool, m: Option<Match>, o: Outcome,
                                              today: int)
    requires q in db.payments && PlansSane(db.books.plans)
    ensures PlansSane(Reconcile(db, q, allow, force, m, o, today).books.plans)
  {
    if m.Some? && m.value.best.Some? {
      SettledStaysSane(db.books, db.reservations, q, m.value.best.value, db.payments[q].amount, o, today);
    }
  }

  lemma {:induction false} UndoStaysSane(db: Db, q: int, failed: seq<int>, m: Option<Match>)
    requires PlansSane(db.books.plans)
    ensures PlansSane(Undo(db, q, failed, m).books.plans)
  {
    if q in db.payments && IsApplied(db.payments[q].status) {
      var p := db.payments[q];
      var b := db.books.(charges := Without(db.books.charges, UndoTargets(p)));
      AllReversedStaysSane(b, db.reservations, p.allocations);
      if p.matched.Some? { ReversedStaysSane(b, db.reservations, p.matched.value, p.amount); }
      UndoBooksOf(db, q, failed, m);
    }
  }

  /** A plan that is saved has passed the checks on its amounts. */
  ghost predicate SavesSanePlan(e: Event) {
    e.PlanSaved? ==> LedgerSane(e.plan)
  }

  lemma {:induction false} StepStaysSane(db: Db, e: Event)
    requires Enabled(db, e) && PlansSane(db.books.plans) && SavesSanePlan(e)
    ensures PlansSane(Step(db, e).books.plans)
  {
    match e
    case Deliver(q, amount, m, o, today) =>
      if q !in db.payments {
        ReconcileStaysSane(db.(payments := db.payments[q := NewPayment(amount)]), q, true, false, m, o, today);
      }
    case Poll(q, m, o, today) => ReconcileStaysSane(db, q, true, false, m, o, today);
    case Retry(q, m, o, today) => ReconcileStaysSane(db, q, true, true, m, o, today);
    case ConfirmPayment(q, lines, os, today) => LinesStaySane(db.books, db.reservations, q, lines, os, today);
    case UndoPayment(q, failed, m) => UndoStaysSane(db, q, failed, m);
    case _ =>
  }

  /** In every run whose saved plans pass the checks, every plan keeps to them. */
  lemma {:induction false} ReachablePlansSane(es: seq<Event>, db: Db)
    requires RunTo(es, db) && forall i :: 0 <= i < |es| ==> SavesSanePlan(es[i])
    ensures PlansSane(db.books.plans)
    decreases |es|
  {
    if es != [] {
      var before :| StepTo(es, before, db);
      ReachablePlansSane(es[..|es| - 1], before);
      StepStaysSane(before, es[|es| - 1]);
    }
  }

  // ----- Sums of allocations

  lemma {:induction false} AllocatedWithout(payments: map<int, Payment>, pids: set<int>, q: int, r: int, c: bool)
    requires pids <= payments.Keys && q in pids
    ensures AllocatedTo(payments, pids, r, c) ==
            Allocated(payments[q].allocations, r, c) + AllocatedTo(payments, pids - {q}, r, c)
    decreases |pids|
  {
    var p := Pick(pids);
    if p != q {
      AllocatedWithout(payments, pids - {p}, q, r, c);
      AllocatedWithout(payments, pids - {q}, p, r, c);
      assert pids - {p} - {q} == pids - {q} - {p};
    }
  }

  lemma {:induction false} AllocatedSame(a: map<int, Payment>, b: map<int, Payment>, pids: set<int>, r: int, c: bool)
    requires pids <= a.Keys && pids <= b.Keys && forall q :: q in pids ==> a[q].allocations == b[q].allocations
    ensures AllocatedTo(a, pids, r, c) == AllocatedTo(b, pids, r, c)
    decreases |pids|
  {
    if pids != {} { AllocatedSame(a, b, pids - {Pick(pids)}, r, c); }
  }

  /** What all payments have allocated to a stay. */
  ghost function Sum(db: Db, r: int): int {
    AllocatedTo(db.payments, db.payments.Keys, r, false)
  }

  ghost function Share(payments: map<int, Payment>, pid: int, r: int): int {
    if pid in payments then Allocated(payments[pid].allocations, r, false) else 0
  }

  lemma {:induction false} SumAfter(db: Db, db': Db, pid: int, row: Payment, r: int)
    requires db'.payments == db.payments[pid := row]
    ensures Sum(db', r) == Sum(db, r) - Share(db.payments, pid, r) + Allocated(row.allocations, r, false)
  {
    var others := db.payments.Keys - {pid};
    AllocatedWithout(db'.payments, db'.payments.Keys, pid, r, false);
    if pid in db.payments { AllocatedWithout(db.payments, db.payments.Keys, pid, r, false); }
    assert db'.payments.Keys - {pid} == others;
    assert pid !in db.payments ==> others == db.payments.Keys;
    AllocatedSame(db.payments, db'.payments, others, r, false);
  }

  lemma {:induction false} AllocatedSnoc(allocations: seq<Allocation>, a: Allocation, r: int)
    ensures Allocated(allocations + [a], r, false) == Allocated(allocations, r, false) +
            if a.reservation == r then a.amount else 0
  {
    assert (allocations + [a])[..|allocations|] == allocations;
  }

  lemma {:induction false} NothingAllocated(allocations: seq<Allocation>, r: int)
    requires forall i :: 0 <= i < |allocations| ==> allocations[i].reservation != r
    ensures Allocated(allocations, r, false) == 0
  {
    if allocations != [] { NothingAllocated(allocations[..|allocations| - 1], r); }
  }

  lemma {:induction false} OneAllocated(allocations: seq<Allocation>, k: nat, r: int)
    requires DistinctReservations(allocations) && k < |allocations| && allocations[k].reservation == r
    ensures Allocated(allocations, r, false) == allocations[k].amount
  {
    var n := |allocations| - 1;
    if k == n {
      forall i | 0 <= i < n ensures allocations[..n][i].reservation != r { assert allocations[i].reservation != r; }
      NothingAllocated(allocations[..n], r);
    } else {
      assert allocations[n].reservation != r;
      OneAllocated(allocations[..n], k, r);
    }
  }

  // ----- One step

  predicate NoTotal(rs: Reservations, r: int) {
    r in rs ==> rs[r].total.None?
  }

  /** The stay has an enabled plan and no known total. */
  ghost predicate OnPlan(db: Db, r: int) {
    r in db.books.plans && db.books.plans[r].enabled && NoTotal(db.reservations, r)
  }

  /** The plan of the stay took one payment, or none, and so much was allocated to the stay. */
  ghost predicate Took(db: Db, db': Db, r: int, x: Option<Receipt>) {
    && r in db.books.plans && r in db'.books.plans
    && (match x
        case None => db'.books.plans[r] == db.books.plans[r] && Sum(db', r) == Sum(db, r)
        case Some(receipt) =>
          && receipt.amount > 0
          && db'.books.plans[r] == Apply(db.books.plans[r], receipt.amount, None, receipt.today)
          && Sum(db', r) == Sum(db, r) + receipt.amount)
  }

  /** Only something else about the payments changes. */
  lemma {:induction false} TookNothing(db: Db, db': Db, pid: int, row: Payment, r: int)
    requires r in db.books.plans && r in db'.books.plans && db'.books.plans[r] == db.books.plans[r]
    requires db'.payments == db.payments[pid := row]
             && Allocated(row.allocations, r, false) == Share(db.payments, pid, r)
    ensures Took(db, db', r, None)
  {
    SumAfter(db, db', pid, row, r);
  }

  lemma {:induction false} TriedReceipt(db: Db, q: int, best: int, o: Outcome, today: int, r: int)
    returns (x: Option<Receipt>)
    requires q in db.payments && db.payments[q].allocations == [] && db.payments[q].amount > 0
    requires OnPlan(db, r) && best in db.reservations
    ensures var p := db.payments[q];
            var s := Settle(db.books, db.reservations, q, best, p.amount, o, today);
            Took(db, db.(payments := db.payments[q := TriedRow(p, best, s.result)], books := s.books), r, x)
  {
    var p := db.payments[q];
    var s := Settle(db.books, db.reservations, q, best, p.amount, o, today);
    var row := TriedRow(p, best, s.result);
    var after := db.(payments := db.payments[q := row], books := s.books);
    SettlePlans(db.books, db.reservations, q, best, p.amount, o, today);
    SumAfter(db, after, q, row, r);
    if s.result.Applied? { AllocatedSnoc([], Allocation(best, p.amount, s.result.chargeId), r); }
    x := if s.result.Applied? && best == r then Some(Receipt(p.amount, today)) else None;
  }

  lemma {:induction false} ReconcileReceipt(db: Db, q: int, allow: bool, force: bool, m: Option<Match>, o: Outcome,
                                            today: int, r: int)
    returns (x: Option<Receipt>)
    requires q in db.payments && (!IsApplied(db.payments[q].status) ==> db.payments[q].allocations == [])
    requires MatchOk(m, db.payments[q].amount, db.reservations) && OnPlan(db, r)
    ensures Took(db, Reconcile(db, q, allow, force, m, o, today), r, x) && (!allow ==> x == None)
  {
    var p := db.payments[q];
    x := None;
    if IsApplied(p.status) || m.None? {
    } else if TriesAutoApply(p, db.reservations, m.value, allow, force) {
      x := TriedReceipt(db, q, m.value.best.value, o, today, r);
    } else {
      TookNothing(db, Reconcile(db, q, allow, force, m, o, today), q, UntriedRow(p, m.value), r);
    }
  }

  lemma {:induction false} Then(a: Db, b: Db, c: Db, r: int, x: Option<Receipt>)
    requires Took(a, b, r, None) && Took(b, c, r, x)
    ensures Took(a, c, r, x)
  {
  }

  lemma {:induction false} IngestReceipt(db: Db, q: int, amount: int, m: Option<Match>, o: Outcome, today: int, r: int)
    returns (x: Option<Receipt>)
    requires MatchOk(m, amount, db.reservations) && OnPlan(db, r)
    ensures Took(db, Ingest(db, q, amount, m, o, today), r, x)
  {
    x := None;
    if q !in db.payments {
      var created := db.(payments := db.payments[q := NewPayment(amount)]);
      TookNothing(db, created, q, NewPayment(amount), r);
      x := ReconcileReceipt(created, q, true, false, m, o, today, r);
      Then(db, created, Ingest(db, q, amount, m, o, today), r, x);
    }
  }

  /** The plan took one payment, or none, and so much was allocated. */
  ghost predicate PlanTook(before: Plan, after: Plan, sum: int, x: Option<Receipt>) {
    match x
    case None => after == before && sum == 0
    case Some(receipt) =>
      sum == receipt.amount > 0 && after == Apply(before, receipt.amount, None, receipt.today)
  }

  lemma {:induction false} LinesReceipt(b: Books, rs: Reservations, after: map<int, Plan>, lines: seq<Line>,
                                        os: seq<Outcome>,
                                        today: int, applied: seq<Allocation>, r: int)
    returns (x: Option<Receipt>)
    requires |os| == |lines| && LinesFit(lines, rs) && Follow(applied, lines)
    requires PlansMoved(b, rs, after, lines, os, today, |lines|)
    requires r in b.plans && b.plans[r].enabled && NoTotal(rs, r)
    ensures r in after && PlanTook(b.plans[r], after[r], Allocated(applied, r, false), x)
  {
    if NotAmong(lines, |lines|, r) {
      NothingAllocated(applied, r);
      x := None;
    } else {
      var i :| 0 <= i < |lines| && StayOf(lines[i]) == r;
      AppliedDistinct(applied, lines, rs);
      OneAllocated(applied, i, r);
      assert LineOk(lines[i], rs);
      x := Some(Receipt(lines[i].amount, today));
    }
  }

  lemma {:induction false} SplitReceipt(db: Db, q: int, lines: seq<Line>, os: seq<Outcome>, today: int, r: int)
    returns (x: Option<Receipt>)
    requires |os| == |lines| && Confirmable(db, q, lines) && db.payments[q].allocations == [] && OnPlan(db, r)
    requires var s := ApplyLines(db.books, db.reservations, q, lines, os, today); !s.failed && s.applied != []
    ensures var s := ApplyLines(db.books, db.reservations, q, lines, os, today);
            Took(db, db.(payments := db.payments[q := ManualRow(db.payments[q], s.applied)], books := s.books), r, x)
  {
    var s := ApplyLines(db.books, db.reservations, q, lines, os, today);
    AppliedAreReached(db.books, db.reservations, q, lines, os, today);
    LinesMoveLedger(db.books, db.reservations, q, lines, os, today);
    x := LinesReceipt(db.books, db.reservations, s.books.plans, lines, os, today, s.applied, r);
    SplitTook(db, q, s.applied, s.books, r, x);
  }

  lemma {:induction false} SplitTook(db: Db, q: int, applied: seq<Allocation>, b': Books, r: int, x: Option<Receipt>)
    requires q in db.payments && db.payments[q].allocations == [] && applied != []
    requires r in db.books.plans && r in b'.plans
    requires PlanTook(db.books.plans[r], b'.plans[r], Allocated(applied, r, false), x)
    ensures Took(db, db.(payments := db.payments[q := ManualRow(db.payments[q], applied)], books := b'), r, x)
  {
    var row := ManualRow(db.payments[q], applied);
    assert row.allocations == applied;
    SumAfter(db, db.(payments := db.payments[q := row], books := b'), q, row, r);
  }

  lemma {:induction false} AppliedDistinct(applied: seq<Allocation>, lines: seq<Line>, rs: Reservations)
    requires LinesFit(lines, rs) && Follow(applied, lines)
    ensures DistinctReservations(applied)
  {
    forall i, j | 0 <= i < j < |applied| ensures applied[i].reservation != applied[j].reservation {
      assert LineOk(lines[i], rs) && LineOk(lines[j], rs) && lines[i].reservation != lines[j].reservation;
    }
  }

  lemma {:induction false} ConfirmReceipt(db: Db, q: int, lines: seq<Line>, os: seq<Outcome>, today: int, r: int)
    returns (x: Option<Receipt>)
    requires |os| == |lines| && OnPlan(db, r)
    requires q in db.payments && !IsApplied(db.payments[q].status) ==> db.payments[q].allocations == []
    requires Confirmable(db, q, lines) && Reached(db.reservations, lines, os) < |lines| ==> NotAmong(lines, |lines|, r)
    ensures Took(db, Confirm(db, q, lines, os, today), r, x)
  {
    x := None;
    if Confirmable(db, q, lines) {
      AppliedAreReached(db.books, db.reservations, q, lines, os, today);
      var s := ApplyLines(db.books, db.reservations, q, lines, os, today);
      if s.failed || s.applied == [] {
        LinesMoveLedger(db.books, db.reservations, q, lines, os, today);
        assert NotAmong(lines, Reached(db.reservations, lines, os), r);
      } else {
        x := SplitReceipt(db, q, lines, os, today, r);
      }
    }
  }

  lemma {:induction false} UndoReceipt(db: Db, q: int, failed: seq<int>, m: Option<Match>, r: int)
    requires OnPlan(db, r)
    requires q in db.payments ==>
               MatchOk(m, db.payments[q].amount, db.reservations) && PaymentOk(db.payments[q])
    requires q in db.payments ==> forall i :: 0 <= i < |db.payments[q].allocations| ==>
             db.payments[q].allocations[i].reservation != r
    ensures Took(db, Undo(db, q, failed, m), r, None)
  {
    if q in db.payments && IsApplied(db.payments[q].status) {
      var p := db.payments[q];
      var b := db.books.(charges := Without(db.books.charges, UndoTargets(p)));
      ReverseAllPlans(b, db.reservations, p.allocations);
      var undone := db.(payments := db.payments[q := UndoneRow(p, failed)], books := UndoneBooks(db, p));
      NothingAllocated(p.allocations, r);
      TookNothing(db, undone, q, UndoneRow(p, failed), r);
      var x := ReconcileReceipt(undone, q, false, false, m, Refused(RemoteError("", false)), 0, r);
      Then(db, undone, Undo(db, q, failed, m), r, x);
    }
  }

  /** The step leaves the plan of the stay and its total to the payments: it saves or deletes no
      plan there, learns no total, undoes no payment there, and fails no split reaching there. */
  ghost predicate Calm(db: Db, e: Event, r: int)
    requires Enabled(db, e)
  {
    match e
    case ConfirmPayment(q, lines, os, _) =>
      Confirmable(db, q, lines) && Reached(db.reservations, lines, os) < |lines| ==> NotAmong(lines, |lines|, r)
    case UndoPayment(q, _, _) =>
      q in db.payments ==> forall i :: 0 <= i < |db.payments[q].allocations| ==>
        db.payments[q].allocations[i].reservation != r
    case ReservationSaved(q, row) => q == r ==> row.total.None?
    case PlanSaved(q, _) => q != r
    case PlanDeleted(q) => q != r
    case _ => true
  }

  lemma {:induction false} StepReceipt(db: Db, e: Event, r: int) returns (x: Option<Receipt>)
    requires Enabled(db, e) && Calm(db, e, r) && OnPlan(db, r)
    requires forall q :: q in db.payments ==> PaymentOk(db.payments[q])
    ensures Took(db, Step(db, e), r, x) && NoTotal(Step(db, e).reservations, r)
  {
    x := None;
    match e
    case Deliver(q, amount, m, o, today) => x := IngestReceipt(db, q, amount, m, o, today, r);
    case Poll(q, m, o, today) => x := ReconcileReceipt(db, q, true, false, m, o, today, r);
    case Retry(q, m, o, today) => x := ReconcileReceipt(db, q, true, true, m, o, today, r);
    case ConfirmPayment(q, lines, os, today) => x := ConfirmReceipt(db, q, lines, os, today, r);
    case UndoPayment(q, failed, m) => UndoReceipt(db, q, failed, m, r);
    case SkipPayment(q) =>
      if q in db.payments { TookNothing(db, Step(db, e), q, db.payments[q].(status := Skipped), r); }
    case _ =>
  }

  // ----- Runs

  /** A run from one state to another, calm for the stay throughout. */
  ghost predicate CalmRun(start: Db, es: seq<Event>, db: Db, r: int)
    decreases |es|
  {
    if es == [] then db == start
    else exists before :: CalmStep(start, es, before, db, r)
  }

  ghost predicate CalmStep(start: Db, es: seq<Event>, before: Db, db: Db, r: int)
    requires es != []
    decreases |es|, 0
  {
    var e := es[|es| - 1];
    CalmRun(start, es[..|es| - 1], before, r) && Enabled(before, e) && Calm(before, e, r) && db == Step(before, e)
  }

  /** The payments a plan has taken since, and the plan they make of it. */
  ghost predicate Receipts(start: Db, db: Db, r: int, rs: seq<Receipt>) {
    && OnPlan(start, r) && OnPlan(db, r)
    && (forall i :: 0 <= i < |rs| ==> rs[i].amount > 0)
    && db.books.plans[r] == AfterReceipts(start.books.plans[r], rs)
    && Sum(db, r) == Sum(start, r) + Total(rs)
  }

  lemma {:induction false} OneMoreReceipt(start: Db, before: Db, db: Db, r: int, rs: seq<Receipt>, x: Option<Receipt>)
    requires Receipts(start, before, r, rs) && Took(before, db, r, x) && NoTotal(db.reservations, r)
    ensures Receipts(start, db, r, rs + if x.Some? then [x.value] else [])
  {
    if x.Some? {
      assert (rs + [x.value])[..|rs|] == rs;
    } else {
      assert rs + [] == rs;
    }
  }

  lemma {:induction false} AllOk(db: Db)
    requires Inv(db)
    ensures forall q :: q in db.payments ==> PaymentOk(db.payments[q])
  {
    forall q | q in db.payments ensures PaymentOk(db.payments[q]) { assert RowOk(db.books, db.payments[q]); }
  }

  lemma {:induction false} RunReceipts(start: Db, es: seq<Event>, db: Db, r: int) returns (rs: seq<Receipt>)
    requires Inv(start) && OnPlan(start, r) && CalmRun(start, es, db, r)
    ensures Inv(db) && Receipts(start, db, r, rs)
    decreases |es|
  {
    rs := [];
    if es != [] {
      var before :| CalmStep(start, es, before, db, r);
      rs := RunReceipts(start, es[..|es| - 1], before, r);
      AllOk(before);
      var x := StepReceipt(before, es[|es| - 1], r);
      OneMoreReceipt(start, before, db, r, rs, x);
      StepKeepsInv(before, es[|es| - 1]);
      rs := rs + if x.Some? then [x.value] else [];
    }
  }

  /** Over any run that leaves a stay's plan to the payments, the plan has taken exactly what the
      payments have allocated to the stay since, and if its due date has advanced k times, that
      sum plus what is due next exceeds what was due first by k instalments less their tolerance. */
  lemma {:induction false} ScheduleFollowsAllocations(start: Db, es: seq<Event>, db: Db, r: int)
    requires Inv(start) && OnPlan(start, r) && CalmRun(start, es, db, r)
    requires 0 <= start.books.plans[r].nextDue <= start.books.plans[r].instalment && start.books.plans[r].dueAt.Some?
    ensures r in db.books.plans
    ensures var plan, now := start.books.plans[r], db.books.plans[r];
            var received := Sum(db, r) - Sum(start, r);
            && now == plan.(paid := plan.paid + received, nextDue := now.nextDue, dueAt := now.dueAt)
            && 0 <= now.nextDue <= plan.instalment
            && exists k: nat :: InStep(plan, now, received, k)
  {
    var plan := start.books.plans[r];
    var rs := RunReceipts(start, es, db, r);
    NeverAheadOfTheMoney(plan, rs);
    DueDateCountsAdvances(plan, rs);
    assert InStep(plan, db.books.plans[r], Total(rs), Advances(plan, rs));
  }

  /** The due date is k periods later, and the money for them has come in. */
  ghost predicate InStep(plan: Plan, now: Plan, received: int, k: nat)
    requires plan.dueAt.Some?
  {
    && now.dueAt == Some(AdvanceTimes(plan.dueAt.value, plan.frequency, plan.interval, k))
    && 200 * (received + now.nextDue - plan.nextDue) >= k * LeastPerAdvance(plan.instalment)
  }
}
