/** How often Hostaway is asked to charge for a payment, and what becomes of its answers, over
    whole runs. */
module ReconciliationCalls {
  import opened Wrappers
  import opened PaymentBooks
  import opened Reconciliation
  import opened ReconciliationInvariant
  import opened ReconciliationRuns

  /** Hostaway's answers to the calls made for a payment, in order. */
  function Answers(attempts: seq<Attempt>, pid: int): seq<Outcome> {
    if attempts == [] then []
    else
      var last := attempts[|attempts| - 1];
      Answers(attempts[..|attempts| - 1], pid) + if last.payment == pid then [last.answer] else []
  }

  lemma {:induction false} AnswersSnoc(attempts: seq<Attempt>, a: Attempt, pid: int)
    ensures Answers(attempts + [a], pid) == Answers(attempts, pid) + if a.payment == pid then [a.answer] else []
  {
    assert (attempts + [a])[..|attempts|] == attempts;
  }

  // ----- The number of calls

  /** How often Hostaway has been asked to charge for a payment. */
  function Calls(db: Db, pid: int): nat {
    |Answers(db.books.attempts, pid)|
  }

  /** The next poll may charge: nothing has been applied, skipped, or refused for good. */
  predicate Armed(db: Db, pid: int) {
    pid !in db.payments
    || ((db.payments[pid].status == Received || db.payments[pid].status == PendingReview)
        && !PriorApplyFailed(db.payments[pid]))
  }

  /** Calls made, plus the one that may still come without anybody asking. */
  function Credit(db: Db, pid: int): nat {
    Calls(db, pid) + if Armed(db, pid) then 1 else 0
  }

  /** The calls a person may cause by one action on this payment. */
  function Asked(e: Event, pid: int): nat {
    match e
    case Retry(q, _, _, _) => if q == pid then 1 else 0
    case ConfirmPayment(q, lines, _, _) => if q == pid then |lines| else 0
    case UndoPayment(q, _, _) => if q == pid then 1 else 0
    case _ => 0
  }

  function AskedIn(es: seq<Event>, pid: int): nat {
    if es == [] then 0 else AskedIn(es[..|es| - 1], pid) + Asked(es[|es| - 1], pid)
  }

  /** What an application that is tried does to the calls. */
  lemma {:induction false} SettleAttempts(b: Books, rs: Reservations, q: int, r: int, amount: int, o: Outcome,
                                          today: int)
    ensures Settle(b, rs, q, r, amount, o, today).books.attempts ==
            if Offline(rs, r) then b.attempts else b.attempts + [Attempt(q, r, o)]
  {
  }

  lemma {:induction false} SettleAnswers(b: Books, rs: Reservations, q: int, r: int, amount: int, o: Outcome,
                                         today: int, pid: int)
    ensures Answers(Settle(b, rs, q, r, amount, o, today).books.attempts, pid) ==
            Answers(b.attempts, pid) + if q == pid && !Offline(rs, r) then [o] else []
  {
    SettleAttempts(b, rs, q, r, amount, o, today);
    AnswersSnoc(b.attempts, Attempt(q, r, o), pid);
    assert Answers(b.attempts, pid) + [] == Answers(b.attempts, pid);
  }

  /** The state after an application to best was tried: r is how it ended, b' the books then. */
  predicate Tried(db: Db, q: int, best: int, o: Outcome, b': Books, r: Result, pid: int) {
    && q in db.payments && !IsApplied(db.payments[q].status)
    && r == SettledAs(db.reservations, best, o)
    && Answers(b'.attempts, pid) ==
       Answers(db.books.attempts, pid) + if q == pid && !Offline(db.reservations, best) then [o] else []
  }

  function AfterTry(db: Db, q: int, best: int, b': Books, r: Result): Db
    requires q in db.payments
  {
    db.(payments := db.payments[q := TriedRow(db.payments[q], best, r)], books := b')
  }

  lemma {:induction false} ReconcileTries(db: Db, q: int, allow: bool, force: bool, m: Match, o: Outcome, today: int,
                                          pid: int)
    returns (b': Books, r: Result)
    requires q in db.payments && !IsApplied(db.payments[q].status)
             && TriesAutoApply(db.payments[q], db.reservations, m, allow, force)
    ensures Tried(db, q, m.best.value, o, b', r, pid)
    ensures Reconcile(db, q, allow, force, Some(m), o, today) == AfterTry(db, q, m.best.value, b', r)
  {
    var best, amount := m.best.value, db.payments[q].amount;
    SettleAnswers(db.books, db.reservations, q, best, amount, o, today, pid);
    SettleResult(db.books, db.reservations, q, best, amount, o, today);
    var s := Settle(db.books, db.reservations, q, best, amount, o, today);
    b', r := s.books, s.result;
  }

  /** A tried application uses the credit up: it is applied, or blocked by the refusal. */
  lemma {:induction false} TriedCredit(db: Db, q: int, best: int, o: Outcome, b': Books, r: Result, pid: int)
    requires Tried(db, q, best, o, b', r, pid)
    ensures Credit(AfterTry(db, q, best, b', r), pid) <=
            if q == pid then Calls(db, pid) + (if Offline(db.reservations, best) then 0 else 1) else Credit(db, pid)
  {
  }

  lemma {:induction false} UntriedCredit(db: Db, q: int, m: Match, pid: int)
    requires q in db.payments
    ensures Credit(db.(payments := db.payments[q := UntriedRow(db.payments[q], m)]), pid) <=
            if q == pid && !PriorApplyFailed(db.payments[q]) then Calls(db, pid) + 1 else Credit(db, pid)
  {
  }

  /** A reconcile of another payment costs nothing; of this one at most what was outstanding,
      or one more when it is forced. */
  lemma {:induction false} ReconcileCredit(db: Db, q: int, allow: bool, force: bool, m: Option<Match>, o: Outcome,
                                           today: int, pid: int)
    requires q in db.payments && (!force && allow ==> db.payments[q].status != Skipped)
    ensures Credit(Reconcile(db, q, allow, force, m, o, today), pid) <=
            Credit(db, pid) + if q == pid && (force || !allow) then 1 else 0
  {
    var p := db.payments[q];
    if IsApplied(p.status) || m.None? {
    } else if TriesAutoApply(p, db.reservations, m.value, allow, force) {
      var b', r := ReconcileTries(db, q, allow, force, m.value, o, today, pid);
      TriedCredit(db, q, m.value.best.value, o, b', r, pid);
    } else {
      UntriedCredit(db, q, m.value, pid);
    }
  }

  lemma {:induction false} LinesAnswers(b: Books, rs: Reservations, q: int, lines: seq<Line>, os: seq<Outcome>,
                                        today: int, pid: int)
    requires |os| == |lines|
    ensures var before := Answers(b.attempts, pid);
            var after := Answers(ApplyLines(b, rs, q, lines, os, today).books.attempts, pid);
            if q == pid then |after| <= |before| + |lines| else after == before
  {
    if lines != [] {
      var n := |lines| - 1;
      LinesAnswers(b, rs, q, lines[..n], os[..n], today, pid);
      var before := ApplyLines(b, rs, q, lines[..n], os[..n], today);
      if !before.failed {
        SettleAnswers(before.books, rs, q, lines[n].reservation.GetOr(0), lines[n].amount, os[n], today, pid);
      }
    }
  }

  lemma {:induction false} IngestCredit(db: Db, q: int, amount: int, m: Option<Match>, o: Outcome, today: int, pid: int)
    ensures Credit(Ingest(db, q, amount, m, o, today), pid) <= Credit(db, pid)
  {
    if q !in db.payments {
      var created := db.(payments := db.payments[q := NewPayment(amount)]);
      assert Credit(created, pid) == Credit(db, pid);
      ReconcileCredit(created, q, true, false, m, o, today, pid);
    }
  }

  lemma {:induction false} ConfirmCredit(db: Db, q: int, lines: seq<Line>, os: seq<Outcome>, today: int, pid: int)
    requires |os| == |lines|
    ensures Credit(Confirm(db, q, lines, os, today), pid) <= Credit(db, pid) + if q == pid then |lines| else 0
  {
    if Confirmable(db, q, lines) { LinesAnswers(db.books, db.reservations, q, lines, os, today, pid); }
  }

  /** An undo makes no call itself, but one may come again without anybody asking. */
  lemma {:induction false} UndoCredit(db: Db, q: int, failed: seq<int>, m: Option<Match>, pid: int)
    ensures Undo(db, q, failed, m).books.attempts == db.books.attempts
    ensures Credit(Undo(db, q, failed, m), pid) <= Credit(db, pid) + if q == pid then 1 else 0
  {
    if q in db.payments && IsApplied(db.payments[q].status) {
      var p := db.payments[q];
      var b := db.books.(charges := Without(db.books.charges, UndoTargets(p)));
      ReverseAllKeepsCharges(b, db.reservations, p.allocations);
    }
  }

  lemma {:induction false} StepCredit(db: Db, e: Event, pid: int)
    requires Enabled(db, e)
    ensures Credit(Step(db, e), pid) <= Credit(db, pid) + Asked(e, pid)
  {
    match e
    case Deliver(q, amount, m, o, today) => IngestCredit(db, q, amount, m, o, today, pid);
    case Poll(q, m, o, today) => ReconcileCredit(db, q, true, false, m, o, today, pid);
    case Retry(q, m, o, today) => ReconcileCredit(db, q, true, true, m, o, today, pid);
    case ConfirmPayment(q, lines, os, today) => ConfirmCredit(db, q, lines, os, today, pid);
    case UndoPayment(q, failed, m) => UndoCredit(db, q, failed, m, pid);
    case _ =>
  }

  /** In every run Hostaway is asked to charge for a payment at most once, and once more for
      each retry, confirmed line or undo staff asked for. */
  lemma {:induction false} CallsAreBounded(es: seq<Event>, db: Db, pid: int)
    requires RunTo(es, db)
    ensures Credit(db, pid) <= 1 + AskedIn(es, pid)
    decreases |es|
  {
    if es != [] {
      var before :| StepTo(es, before, db);
      CallsAreBounded(es[..|es| - 1], before, pid);
      StepCredit(before, es[|es| - 1], pid);
    }
  }

  // ----- What becomes of the answers

  /** What an answer has done to the payment: a posted charge is the one the payment is applied
      with; an archived listing has been settled locally; any other refusal is on record and
      blocks polls, until matching skips the payment or finds its listing offline and settles it
      without a charge. */
  predicate Explains(o: Outcome, p: Payment) {
    match o
    case Posted(id) => IsApplied(p.status) && p.chargeId == Some(id)
    case Refused(e) =>
      p.chargeId == None &&
      if e.archived then IsApplied(p.status)
      else (p.status == PendingReview && p.error == ApplyFailed(e)) || p.status == Skipped || IsApplied(p.status)
  }

  /** At most one call has been made, and the payment shows its answer. */
  predicate OneCall(db: Db, pid: int) {
    var answers := Answers(db.books.attempts, pid);
    |answers| <= 1 && (answers != [] ==> pid in db.payments && Explains(answers[0], db.payments[pid]))
  }

  function PostedIds(answers: seq<Outcome>): seq<int> {
    if answers == [] then []
    else
      var last := answers[|answers| - 1];
      PostedIds(answers[..|answers| - 1]) + if last.Posted? then [last.id] else []
  }

  lemma {:induction false} PostedIdsSnoc(answers: seq<Outcome>, o: Outcome)
    ensures PostedIds(answers + [o]) == PostedIds(answers) + if o.Posted? then [o.id] else []
  {
    assert (answers + [o])[..|answers|] == answers;
  }

  /** Nothing has been charged for the payment, or it is applied with the one charge there is. */
  predicate ChargedOnce(db: Db, pid: int) {
    var ids := PostedIds(Answers(db.books.attempts, pid));
    ids == [] || (pid in db.payments && IsApplied(db.payments[pid].status)
                  && db.payments[pid].chargeId.Some? && ids == [db.payments[pid].chargeId.value])
  }

  lemma {:induction false} TriedExplained(db: Db, q: int, best: int, o: Outcome, b': Books, r: Result, pid: int)
    requires Tried(db, q, best, o, b', r, pid)
    ensures OneCall(db, pid) && (q == pid ==> Calls(db, pid) == 0 || Offline(db.reservations, best))
            && PaymentOk(db.payments[q]) ==>
            OneCall(AfterTry(db, q, best, b', r), pid)
  {
  }

  lemma {:induction false} TriedChargedOnce(db: Db, q: int, best: int, o: Outcome, b': Books, r: Result, pid: int)
    requires Tried(db, q, best, o, b', r, pid)
    ensures ChargedOnce(db, pid) ==> ChargedOnce(AfterTry(db, q, best, b', r), pid)
  {
    PostedIdsSnoc(Answers(db.books.attempts, pid), o);
    assert Answers(db.books.attempts, pid) + [] == Answers(db.books.attempts, pid);
  }

  lemma {:induction false} UntriedExplained(db: Db, q: int, m: Match, pid: int)
    requires q in db.payments && !IsApplied(db.payments[q].status)
    ensures var after := db.(payments := db.payments[q := UntriedRow(db.payments[q], m)]);
            && (ChargedOnce(db, pid) ==> ChargedOnce(after, pid))
            && (OneCall(db, pid) && (q == pid ==> db.payments[q].status != Skipped) ==> OneCall(after, pid))
  {
  }

  lemma {:induction false} ReconcileExplained(db: Db, q: int, allow: bool, force: bool, m: Option<Match>, o: Outcome,
                                              today: int, pid: int)
    requires q in db.payments && PaymentOk(db.payments[q])
    ensures ChargedOnce(db, pid) ==> ChargedOnce(Reconcile(db, q, allow, force, m, o, today), pid)
    ensures OneCall(db, pid) && (q == pid ==> !force && db.payments[q].status != Skipped) ==>
            OneCall(Reconcile(db, q, allow, force, m, o, today), pid)
  {
    var p := db.payments[q];
    if IsApplied(p.status) || m.None? {
    } else if TriesAutoApply(p, db.reservations, m.value, allow, force) {
      var best := m.value.best.value;
      var b', r := ReconcileTries(db, q, allow, force, m.value, o, today, pid);
      TriedChargedOnce(db, q, best, o, b', r, pid);
      TriedExplained(db, q, best, o, b', r, pid);
      if OneCall(db, pid) && q == pid && !force && p.status != Skipped { FreeToCall(db, q, m.value, allow, force); }
    } else {
      UntriedExplained(db, q, m.value, pid);
    }
  }

  /** An unforced try comes before any call, or finds the listing offline. */
  lemma {:induction false} FreeToCall(db: Db, q: int, m: Match, allow: bool, force: bool)
    requires q in db.payments && OneCall(db, q) && !force && db.payments[q].status != Skipped
    requires !IsApplied(db.payments[q].status) && TriesAutoApply(db.payments[q], db.reservations, m, allow, force)
    ensures Calls(db, q) == 0 || Offline(db.reservations, m.best.value)
  {
  }

  lemma {:induction false} IngestExplained(db: Db, q: int, amount: int, m: Option<Match>, o: Outcome, today: int,
                                           pid: int)
    ensures ChargedOnce(db, pid) ==> ChargedOnce(Ingest(db, q, amount, m, o, today), pid)
    ensures OneCall(db, pid) ==> OneCall(Ingest(db, q, amount, m, o, today), pid)
  {
    if q !in db.payments {
      ReconcileExplained(db.(payments := db.payments[q := NewPayment(amount)]), q, true, false, m, o, today, pid);
    }
  }

  /** Nothing about the payment has changed, and no call was made for it. */
  predicate Untouched(before: Db, after: Db, pid: int) {
    && (pid in before.payments <==> pid in after.payments)
    && (pid in before.payments ==> after.payments[pid] == before.payments[pid])
    && Answers(after.books.attempts, pid) == Answers(before.books.attempts, pid)
  }

  lemma {:induction false} ConfirmElsewhere(db: Db, q: int, lines: seq<Line>, os: seq<Outcome>, today: int, pid: int)
    requires |os| == |lines| && (q == pid ==> lines == [])
    ensures Untouched(db, Confirm(db, q, lines, os, today), pid)
  {
    if Confirmable(db, q, lines) { LinesAnswers(db.books, db.reservations, q, lines, os, today, pid); }
  }

  lemma {:induction false} UndoElsewhere(db: Db, q: int, failed: seq<int>, m: Option<Match>, pid: int)
    requires q != pid
    ensures Untouched(db, Undo(db, q, failed, m), pid)
  {
    UndoCredit(db, q, failed, m, pid);
  }

  /** Staff confirm or undo this payment. */
  predicate Reassigns(e: Event, pid: int) {
    (e.ConfirmPayment? && e.pid == pid && e.lines != []) || (e.UndoPayment? && e.pid == pid)
  }

  lemma {:induction false} StepExplained(db: Db, e: Event, pid: int)
    requires Enabled(db, e) && forall q :: q in db.payments ==> PaymentOk(db.payments[q])
    ensures ChargedOnce(db, pid) && !Reassigns(e, pid) ==> ChargedOnce(Step(db, e), pid)
    ensures OneCall(db, pid) && Asked(e, pid) == 0 ==> OneCall(Step(db, e), pid)
  {
    match e
    case Deliver(q, amount, m, o, today) => IngestExplained(db, q, amount, m, o, today, pid);
    case Poll(q, m, o, today) => ReconcileExplained(db, q, true, false, m, o, today, pid);
    case Retry(q, m, o, today) => ReconcileExplained(db, q, true, true, m, o, today, pid);
    case ConfirmPayment(q, lines, os, today) =>
      if q != pid || lines == [] { ConfirmElsewhere(db, q, lines, os, today, pid); }
    case UndoPayment(q, failed, m) => if q != pid { UndoElsewhere(db, q, failed, m, pid); }
    case SkipPayment(q) => SkipExplained(db, q, pid);
    case _ =>
  }

  lemma {:induction false} PaymentsOk(es: seq<Event>, db: Db)
    requires RunTo(es, db)
    ensures Inv(db) && forall q :: q in db.payments ==> PaymentOk(db.payments[q])
  {
    ReachableStatesConsistent(es, db);
    forall q | q in db.payments ensures PaymentOk(db.payments[q]) {
      assert RowOk(db.books, db.payments[q]);
    }
  }

  lemma {:induction false} SkipExplained(db: Db, q: int, pid: int)
    requires q in db.payments ==> !IsApplied(db.payments[q].status)
    ensures ChargedOnce(db, pid) ==> ChargedOnce(Skip(db, q), pid)
    ensures OneCall(db, pid) ==> OneCall(Skip(db, q), pid)
  {
  }

  /** Without any staff action, deliveries and polls in any number and order call Hostaway at
      most once for a payment. A charge that was posted is the one the payment is applied with;
      a refusal leaves it settled locally (archived listing), or blocked by that very error,
      until matching skips it or finds the listing offline. */
  lemma {:induction false} ChargedAtMostOnce(es: seq<Event>, db: Db, pid: int)
    requires RunTo(es, db) && AskedIn(es, pid) == 0
    ensures OneCall(db, pid)
    decreases |es|
  {
    if es != [] {
      var before :| StepTo(es, before, db);
      ChargedAtMostOnce(es[..|es| - 1], before, pid);
      PaymentsOk(es[..|es| - 1], before);
      StepExplained(before, es[|es| - 1], pid);
    }
  }

  /** However often staff retry, as long as nobody confirms or undoes the payment by hand,
      Hostaway posts at most one charge for it, and as soon as one is posted the payment is and
      stays applied with it. */
  lemma {:induction false} PostedOnceDespiteRetries(es: seq<Event>, db: Db, pid: int)
    requires RunTo(es, db) && forall i :: 0 <= i < |es| ==> !Reassigns(es[i], pid)
    ensures ChargedOnce(db, pid)
    decreases |es|
  {
    if es != [] {
      var before :| StepTo(es, before, db);
      PostedOnceDespiteRetries(es[..|es| - 1], before, pid);
      PaymentsOk(es[..|es| - 1], before);
      StepExplained(before, es[|es| - 1], pid);
    }
  }

  /** In such a run a posted answer is never lost: the payment is applied with that charge, and
      the charge has its row. */
  lemma {:induction false} PostedMeansApplied(es: seq<Event>, db: Db, a: Attempt)
    requires RunTo(es, db) && forall i :: 0 <= i < |es| ==> !Reassigns(es[i], a.payment)
    requires a in db.books.attempts && a.answer.Posted?
    ensures a.payment in db.payments && IsApplied(db.payments[a.payment].status)
    ensures db.payments[a.payment].chargeId == Some(a.answer.id)
    ensures exists c :: c in db.books.charges && c.id == a.answer.id
  {
    PostedOnceDespiteRetries(es, db, a.payment);
    PaymentsOk(es, db);
    AttemptAnswered(db.books.attempts, a);
    IdPosted(Answers(db.books.attempts, a.payment), a.answer);
    ChargeRowThere(db, a.payment);
  }

  lemma {:induction false} AttemptAnswered(attempts: seq<Attempt>, a: Attempt)
    requires a in attempts
    ensures a.answer in Answers(attempts, a.payment)
  {
    var init, last := attempts[..|attempts| - 1], attempts[|attempts| - 1];
    assert attempts == init + [last];
    if a != last { AttemptAnswered(init, a); }
  }

  lemma {:induction false} IdPosted(answers: seq<Outcome>, o: Outcome)
    requires o in answers && o.Posted?
    ensures o.id in PostedIds(answers)
  {
    var init, last := answers[..|answers| - 1], answers[|answers| - 1];
    assert answers == init + [last];
    if o != last { IdPosted(init, o); }
  }

  lemma {:induction false} ChargeRowThere(db: Db, pid: int)
    requires Inv(db) && pid in db.payments && IsApplied(db.payments[pid].status) && db.payments[pid].chargeId.Some?
    ensures exists c :: c in db.books.charges && c.id == db.payments[pid].chargeId.value
  {
    var p := db.payments[pid];
    assert RowOk(db.books, p);
    assert Linked(db.books, p.allocations[0]);
  }

  // ----- Offline listings

  /** The calls added since came while their listing was online. */
  ghost predicate CallsOnline(before: seq<Attempt>, after: seq<Attempt>, rs: Reservations) {
    before <= after && forall i :: |before| <= i < |after| ==> !Offline(rs, after[i].reservation)
  }

  /** A step calls Hostaway only for stays whose listing is online at that moment. */
  lemma {:induction false} OfflineListingsAreNotCharged(db: Db, e: Event)
    requires Enabled(db, e)
    ensures CallsOnline(db.books.attempts, Step(db, e).books.attempts, db.reservations)
  {
    match e
    case Deliver(q, amount, m, o, today) =>
      if q !in db.payments {
        ReconcileOnline(db.(payments := db.payments[q := NewPayment(amount)]), q, true, false, m, o, today);
      }
    case Poll(q, m, o, today) => ReconcileOnline(db, q, true, false, m, o, today);
    case Retry(q, m, o, today) => ReconcileOnline(db, q, true, true, m, o, today);
    case ConfirmPayment(pid, lines, os, today) =>
      if Confirmable(db, pid, lines) { LinesOnline(db.books, db.reservations, pid, lines, os, today); }
    case UndoPayment(pid, failed, m) => UndoCredit(db, pid, failed, m, pid);
    case _ =>
  }

  lemma {:induction false} ReconcileOnline(db: Db, q: int, allow: bool, force: bool, m: Option<Match>, o: Outcome,
                                           today: int)
    requires q in db.payments
    ensures CallsOnline(db.books.attempts, Reconcile(db, q, allow, force, m, o, today).books.attempts, db.reservations)
  {
    if m.Some? && m.value.best.Some? {
      SettleAttempts(db.books, db.reservations, q, m.value.best.value, db.payments[q].amount, o, today);
    }
  }

  lemma {:induction false} LinesOnline(b: Books, rs: Reservations, pid: int, lines: seq<Line>, os: seq<Outcome>,
                                       today: int)
    requires |os| == |lines|
    ensures CallsOnline(b.attempts, ApplyLines(b, rs, pid, lines, os, today).books.attempts, rs)
  {
    if lines != [] {
      var n := |lines| - 1;
      LinesOnline(b, rs, pid, lines[..n], os[..n], today);
      var before := ApplyLines(b, rs, pid, lines[..n], os[..n], today);
      SettleAttempts(before.books, rs, pid, lines[n].reservation.GetOr(0), lines[n].amount, os[n], today);
    }
  }
}
