/** The reconciliation services in their own form: rows are read, remote calls answered, and
    the tables updated step by step. Every method is the operation of Reconciliation.dfy. */
module PaymentReconciliationService {
  import opened Wrappers
  import opened Pigeonhole
  import opened DueDates
  import opened PaymentPlan
  import opened PaymentBooks
  import opened Reconciliation
  import opened ReconciliationInvariant
  import opened ReconciliationBatches
  import opened ReconciliationOutcomes

  class Service {
    var payments: map<int, Payment>
    var reservations: Reservations
    var charges: seq<Charge>
    var plans: map<int, Plan>
    ghost var issued: set<int>           // charge ids Hostaway has handed out
    ghost var noticed: set<int>          // of these, those the inbox check wrote rows for
    ghost var attempts: seq<Attempt>     // charge calls made

    constructor ()
      ensures GetBooks() == Books([], map[], {}, {}, []) && payments == map[] && reservations == map[]
    {
      payments, reservations, charges, plans := map[], map[], [], map[];
      issued, noticed, attempts := {}, {}, [];
    }

    ghost function GetBooks(): Books
      reads this`charges, this`plans, this`issued, this`noticed, this`attempts
    {
      Books(charges, plans, issued, noticed, attempts)
    }

    ghost function GetDb(): Db
      reads this
    {
      Db(payments, GetBooks(), reservations)
    }

    // ----- payment-plan.service.ts

    method RemainingBalance(reservation: int) returns (remaining: Option<int>)
      ensures remaining == OpenBalance(reservations, charges, reservation)
    {
      remaining := None;
      if reservation in reservations && reservations[reservation].total.Some? {
        var paid := 0;
        var i := 0;
        while i < |charges|
          invariant 0 <= i <= |charges| && paid == Paid(charges[..i], reservation)
        {
          assert charges[..i + 1][..i] == charges[..i];
          if charges[i].reservation == reservation && charges[i].amount > 0 {
            paid := paid + charges[i].amount;
          }
          i := i + 1;
        }
        assert charges[..i] == charges;
        remaining := Some(Max(0, reservations[reservation].total.value - paid));
      }
    }

    method RecordPaymentApplied(reservation: int, amount: int, today: int)
      modifies this`plans
      ensures GetBooks() == RecordApplied(old(GetBooks()), reservations, reservation, amount, today)
    {
      if amount <= 0 { return; }
      if reservation !in plans || !plans[reservation].enabled { return; }
      var remaining := RemainingBalance(reservation);
      var now := new UtcDate.Of(today, 0);
      var next, advanced := ApplyPaymentToPlan(plans[reservation], amount, remaining, now);
      plans := plans[reservation := next];
    }

    method RecordPaymentReversed(reservation: int, amount: int)
      modifies this`plans
      ensures GetBooks() == RecordReversed(old(GetBooks()), reservations, reservation, amount)
    {
      if amount <= 0 { return; }
      if reservation !in plans { return; }
      var remaining := RemainingBalance(reservation);
      var next := ReversePaymentOnPlan(plans[reservation], amount, remaining);
      plans := plans[reservation := next];
    }

    // ----- payment-apply.service.ts

    method ApplyToReservation(payment: int, reservation: int, amount: int, answer: Outcome, today: int)
      returns (r: Result)
      modifies this`plans, this`charges, this`issued, this`attempts
      ensures Settlement(GetBooks(), r) ==
              PaymentBooks.ApplyToReservation(old(GetBooks()), reservations, payment, reservation, amount, answer,
                                              today)
    {
      if reservation in reservations && reservations[reservation].offline {
        RecordPaymentApplied(reservation, amount, today);
        return Applied(None);
      }
      attempts := attempts + [Attempt(payment, reservation, answer)];
      match answer {
        case Refused(e) =>
          r := Failed(e);
        case Posted(id) =>
          issued := issued + {id};
          if reservation in reservations {
            charges := charges + [Charge(id, reservation, amount)];
          }
          RecordPaymentApplied(reservation, amount, today);
          r := Applied(Some(id));
      }
    }

    /** One application as reconcile and confirmReview make it: a refused archived listing is
        recorded locally instead. */
    method SettleLine(payment: int, reservation: int, amount: int, answer: Outcome, today: int) returns (r: Result)
      modifies this`plans, this`charges, this`issued, this`attempts
      ensures Settlement(GetBooks(), r) ==
              Settle(old(GetBooks()), reservations, payment, reservation, amount, answer, today)
    {
      r := ApplyToReservation(payment, reservation, amount, answer, today);
      if r.Failed? && (Offline(reservations, reservation) || r.error.archived) {
        RecordPaymentApplied(reservation, amount, today);
        r := Applied(None);
      }
    }

    // ----- payment-reconciliation.service.ts

    method Reconcile(pid: int, allowAutoApply: bool, forceAutoApply: bool, match_: Option<Match>, answer: Outcome,
                     today: int)
      returns (status: Option<Status>)
      modifies this`payments, this`plans, this`charges, this`issued, this`attempts
      ensures pid !in old(payments) ==> status.None? && GetDb() == old(GetDb())
      ensures pid in old(payments) ==>
        && GetDb() == Reconciliation.Reconcile(old(GetDb()), pid, allowAutoApply, forceAutoApply, match_, answer, today)
        && (status.Some? ==> status.value == payments[pid].status)
        && (status.Some? <==> IsApplied(old(payments)[pid].status) || match_.Some?)
    {
      if pid !in payments { return None; }
      var payment := payments[pid];
      if payment.status == AutoApplied || payment.status == ManuallyApplied {
        return Some(payment.status);
      }
      if match_.None? { return None; }
      var m := match_.value;
      var priorApplyFailed := payment.error.ApplyFailed? && !payment.error.error.archived;
      var matchedListingOffline := false;
      if m.best.Some? {
        matchedListingOffline := Offline(reservations, m.best.value);
      }
      var tryAutoApply := allowAutoApply && m.decision == Unambiguous && m.best.Some?
                          && (forceAutoApply || !priorApplyFailed || matchedListingOffline);
      if tryAutoApply {
        var applied := SettleLine(pid, m.best.value, payment.amount, answer, today);
        match applied {
          case Applied(chargeId) =>
            payments := payments[pid := payment.(
              status := AutoApplied,
              matched := m.best,
              chargeId := chargeId,
              error := NoError,
              allocations := payment.allocations + [Allocation(m.best.value, payment.amount, chargeId)])];
          case Failed(error) =>
            payments := payments[pid := payment.(status := PendingReview, matched := m.best,
                                                 error := ApplyFailed(error))];
        }
        return Some(payments[pid].status);
      }
      var next := if SkipsReview(m.decision) then Skipped else PendingReview;
      var matched := if m.decision == Unambiguous then m.best else None;
      payments := payments[pid := payment.(status := next, matched := matched,
                                           error := if next == Skipped then NoError else payment.error)];
      status := Some(next);
    }

    method IngestAndReconcile(pid: int, amount: int, match_: Option<Match>, answer: Outcome, today: int)
      returns (status: Option<Status>)
      modifies this`payments, this`plans, this`charges, this`issued, this`attempts
      ensures GetDb() == Ingest(old(GetDb()), pid, amount, match_, answer, today)
      ensures status == if pid in old(payments) || match_.Some? then Some(GetDb().payments[pid].status) else None
    {
      if pid in payments {
        return Some(payments[pid].status);
      }
      payments := payments[pid := Payment(amount, Received, [], None, None, NoError)];
      status := Reconcile(pid, true, false, match_, answer, today);
    }

    method SkipReview(pid: int) returns (found: bool)
      modifies this`payments
      ensures found == (pid in old(payments)) && GetDb() == Skip(old(GetDb()), pid)
    {
      if pid !in payments { return false; }
      payments := payments[pid := payments[pid].(status := Skipped)];
      found := true;
    }

    /** The checks confirmReview makes before the first line is applied. */
    method CheckLines(payment: Payment, lines: seq<Line>) returns (ok: bool)
      ensures ok == LinesOk(payment, lines, reservations)
    {
      var sum := 0;
      var seen: set<int> := {};
      var i := 0;
      while i < |lines|
        invariant 0 <= i <= |lines| && sum == LineSum(lines[..i])
        invariant forall j :: 0 <= j < i ==> LineOk(lines[j], reservations)
        invariant forall r :: r in seen <==> exists j :: 0 <= j < i && lines[j].reservation == Some(r)
        invariant forall j, k :: 0 <= j < k < i ==> lines[j].reservation != lines[k].reservation
      {
        var line := lines[i];
        assert lines[..i + 1][..i] == lines[..i];
        if line.reservation.None? || line.reservation.value <= 0 || line.amount < ONE_CENT { return false; }
        var r := line.reservation.value;
        if r in seen {
          var j :| 0 <= j < i && lines[j].reservation == Some(r);
          assert lines[j].reservation == lines[i].reservation;
          return false;
        }
        if r !in reservations || reservations[r].unpayableInquiry { return false; }
        seen := seen + {r};
        sum := sum + line.amount;
        i := i + 1;
      }
      assert lines[..i] == lines;
      ok := Abs(sum - payment.amount) <= ONE_CENT;
    }

    /** Applies the lines in order and stops at the first that fails. */
    method ApplyEach(pid: int, lines: seq<Line>, answers: seq<Outcome>, today: int)
      returns (applied: seq<Allocation>, failed: bool)
      requires |answers| == |lines| && forall i :: 0 <= i < |lines| ==> LineOk(lines[i], reservations)
      modifies this`plans, this`charges, this`issued, this`attempts
      ensures Split(GetBooks(), applied, failed) ==
              ApplyLines(old(GetBooks()), reservations, pid, lines, answers, today)
    {
      applied, failed := [], false;
      var i := 0;
      while i < |lines| && !failed
        invariant 0 <= i <= |lines|
        invariant Split(GetBooks(), applied, failed) ==
                  ApplyLines(old(GetBooks()), reservations, pid, lines[..i], answers[..i], today)
      {
        assert lines[..i + 1][..i] == lines[..i] && answers[..i + 1][..i] == answers[..i];
        var r := lines[i].reservation.value;
        var result := SettleLine(pid, r, lines[i].amount, answers[i], today);
        match result {
          case Applied(chargeId) => applied := applied + [Allocation(r, lines[i].amount, chargeId)];
          case Failed(error) => failed := true;
        }
        i := i + 1;
      }
      FailureSticks(old(GetBooks()), reservations, pid, lines, answers, today, i);
    }

    method DeleteCharges(allocations: seq<Allocation>)
      modifies this`charges
      ensures charges == Without(old(charges), ChargeIds(allocations))
    {
      ghost var done: set<int> := {};
      WithoutNone(charges, {});
      var i := 0;
      while i < |allocations|
        invariant 0 <= i <= |allocations| && done == ChargeIds(allocations[..i])
        invariant charges == Without(old(charges), done)
      {
        assert allocations[..i + 1] == allocations[..i] + [allocations[i]];
        ChargeIdsSnoc(allocations[..i], allocations[i]);
        if allocations[i].chargeId.Some? {
          var id := allocations[i].chargeId.value;
          WithoutTwice(old(charges), done, {id});
          charges := Without(charges, {id});
          done := done + {id};
        }
        i := i + 1;
      }
      assert allocations[..i] == allocations;
    }

    /** Confirms a payment in review onto the chosen stays, all lines or none; a failed split
        rolls its charge rows back. */
    method ConfirmReview(pid: int, chosen: Option<int>, allocations: seq<Line>, answers: seq<Outcome>, today: int)
      returns (ok: bool)
      requires |answers| == if allocations == [] then 1 else |allocations|
      modifies this`payments, this`plans, this`charges, this`issued, this`attempts
      ensures pid !in old(payments) ==> !ok && GetDb() == old(GetDb())
      ensures pid in old(payments) ==>
        var lines := ChosenLines(old(payments)[pid], chosen, allocations);
        && GetDb() == Confirm(old(GetDb()), pid, lines, answers, today)
        && (ok <==> Confirmable(old(GetDb()), pid, lines)
                    && !ApplyLines(old(GetBooks()), reservations, pid, lines, answers, today).failed)
        && (ok && old(payments)[pid].allocations == [] ==>
              ConfirmedOnto(old(payments)[pid], chosen, allocations, payments[pid].allocations))
    {
      if pid !in payments { return false; }
      var payment := payments[pid];
      var lines := ChosenLines(payment, chosen, allocations);
      if payment.status != PendingReview { return false; }
      var checked := CheckLines(payment, lines);
      if !checked { return false; }
      var applied, failed := ApplyEach(pid, lines, answers, today);
      if failed || applied == [] {
        DeleteCharges(applied);
        return false;
      }
      payments := payments[pid := payment.(
        status := ManuallyApplied,
        matched := Some(applied[0].reservation),
        chargeId := applied[0].chargeId,
        error := NoError,
        allocations := payment.allocations + applied)];
      if payment.allocations == [] {
        ConfirmGoesWhereStaffSay(old(GetDb()), pid, chosen, allocations, answers, today);
      }
      ok := true;
    }

    method ReverseEach(allocations: seq<Allocation>)
      modifies this`plans
      ensures GetBooks() == ReverseAll(old(GetBooks()), reservations, allocations)
    {
      var i := 0;
      while i < |allocations|
        invariant 0 <= i <= |allocations|
        invariant GetBooks() == ReverseAll(old(GetBooks()), reservations, allocations[..i])
      {
        assert allocations[..i + 1][..i] == allocations[..i];
        RecordPaymentReversed(allocations[i].reservation, allocations[i].amount);
        i := i + 1;
      }
      assert allocations[..i] == allocations;
    }

    /** Deletes the payment's charge rows, then reverses its ledger entries. */
    method TakeBack(payment: Payment)
      modifies this`plans, this`charges
      ensures GetBooks() == UndoneBooks(old(GetDb()), payment)
    {
      WithoutNone(charges, {});
      if |payment.allocations| > 0 {
        DeleteCharges(payment.allocations);
        ReverseEach(payment.allocations);
      } else {
        if payment.chargeId.Some? && payment.matched.Some? {
          charges := Without(charges, {payment.chargeId.value});
        }
        if payment.matched.Some? {
          RecordPaymentReversed(payment.matched.value, payment.amount);
        }
      }
    }

    /** Undoes an applied payment and matches it again for review only. The result is false where
        the source throws: there is nothing to undo, or matching fails after the undo. */
    method UndoApplication(pid: int, uncancelled: seq<int>, match_: Option<Match>) returns (ok: bool)
      modifies this`payments, this`plans, this`charges, this`issued, this`attempts
      ensures GetDb() == Undo(old(GetDb()), pid, uncancelled, match_)
      ensures ok <==> pid in old(payments) && IsApplied(old(payments)[pid].status) && match_.Some?
    {
      if pid !in payments { return false; }
      var payment := payments[pid];
      if payment.status != AutoApplied && payment.status != ManuallyApplied { return false; }
      TakeBack(payment);
      payments := payments[pid := payment.(
        status := PendingReview, matched := None, chargeId := None, allocations := [],
        error := if uncancelled == [] then NoError else UndoIncomplete(uncancelled))];
      var status := Reconcile(pid, false, false, match_, Refused(RemoteError("", false)), 0);
      ok := status.Some?;
    }

    /** One payment of the queue; more is false where matching throws. */
    method RematchOne(ghost db: Db, pending: seq<int>, replies: seq<Reply>, forceAutoApply: bool,
                      checked: nat, autoApplied: nat, stillReview: nat)
      returns (more: bool, auto: nat, review: nat)
      requires checked < |pending| == |replies| && Distinct(pending) && InReview(db, pending)
      requires Rematched(db, pending, replies, forceAutoApply, checked, GetDb(), autoApplied, stillReview)
      modifies this`payments, this`plans, this`charges, this`issued, this`attempts
      ensures more <==> replies[checked].match_.Some?
      ensures Rematched(db, pending, replies, forceAutoApply, if more then checked + 1 else checked, GetDb(), auto,
                        review)
    {
      RematchedNext(db, pending, replies, forceAutoApply, checked, GetDb(), autoApplied, stillReview);
      NoVerdictNoChange(GetDb(), pending[checked], forceAutoApply, replies[checked].answer, replies[checked].today);
      auto, review := autoApplied, stillReview;
      var status := Reconcile(pending[checked], true, forceAutoApply,
                              replies[checked].match_, replies[checked].answer, replies[checked].today);
      more := status.Some?;
      if status == Some(AutoApplied) {
        auto := auto + 1;
      } else if status == Some(PendingReview) {
        review := review + 1;
      }
    }

    /** Reconciles the payments the review queue held when it was read, up to the first for which
        matching throws; the counters describe the state reached. */
    method RematchPendingReview(pending: seq<int>, replies: seq<Reply>, forceAutoApply: bool)
      returns (checked: nat, autoApplied: nat, stillReview: nat)
      requires |replies| == |pending| && Distinct(pending)
      requires forall i :: 0 <= i < |pending| ==> pending[i] in payments && payments[pending[i]].status == PendingReview
      modifies this`payments, this`plans, this`charges, this`issued, this`attempts
      ensures Rematched(old(GetDb()), pending, replies, forceAutoApply, checked, GetDb(), autoApplied, stillReview)
      ensures checked < |pending| ==> replies[checked].match_.None?
    {
      ghost var db := GetDb();
      autoApplied, stillReview, checked := 0, 0, 0;
      while checked < |pending|
        invariant checked <= |pending|
        invariant Rematched(db, pending, replies, forceAutoApply, checked, GetDb(), autoApplied, stillReview)
      {
        var more;
        more, autoApplied, stillReview :=
          RematchOne(db, pending, replies, forceAutoApply, checked, autoApplied, stillReview);
        if !more { return; }
        checked := checked + 1;
      }
    }

    /** Takes back the automatic applications the deletion query found, and lists those taken
        back and matched again. */
    method UndoAutoAppliedForReservation(page: seq<int>, replies: seq<UndoReply>) returns (paymentIds: seq<int>)
      requires |replies| == |page| && Distinct(page)
      requires forall i :: 0 <= i < |page| ==> page[i] in payments && payments[page[i]].status == AutoApplied
      modifies this`payments, this`plans, this`charges, this`issued, this`attempts
      ensures GetDb() == UndoAll(old(GetDb()), page, replies)
      ensures paymentIds == Answered(page, replies)
    {
      paymentIds := [];
      var i := 0;
      while i < |page|
        invariant 0 <= i <= |page| && paymentIds == Answered(page[..i], replies[..i])
        invariant GetDb() == UndoAll(old(GetDb()), page[..i], replies[..i])
      {
        assert page[..i + 1][..i] == page[..i] && replies[..i + 1][..i] == replies[..i];
        UndoTouchesOnly(old(GetDb()), page[..i], replies[..i], page[i]);
        var ok := UndoApplication(page[i], replies[i].failed, replies[i].match_);
        if ok { paymentIds := paymentIds + [page[i]]; }
        i := i + 1;
      }
      assert page[..i] == page && replies[..i] == replies;
    }
  }

  /** After a failure the remaining lines change nothing. */
  lemma {:induction false} FailureSticks(b: Books, rs: Reservations, pid: int, lines: seq<Line>, os: seq<Outcome>,
                                         today: int, i: nat)
    requires |os| == |lines| && i <= |lines|
    requires i == |lines| || ApplyLines(b, rs, pid, lines[..i], os[..i], today).failed
    ensures ApplyLines(b, rs, pid, lines, os, today) == ApplyLines(b, rs, pid, lines[..i], os[..i], today)
  {
    if i == |lines| {
      assert lines[..i] == lines && os[..i] == os;
    } else {
      var n := |lines| - 1;
      assert lines[..n][..i] == lines[..i] && os[..n][..i] == os[..i];
      FailureSticks(b, rs, pid, lines[..n], os[..n], today, i);
    }
  }
}
