/** The two operations that go through many payments: the poll of the review queue, and the
    undo of automatic applications when an instalment plan is deleted. */
module ReconciliationBatches {
  import opened Wrappers
  import opened Pigeonhole
  import opened PaymentBooks
  import opened Reconciliation
  import opened ReconciliationInvariant
  import opened ReconciliationRuns

  const UNDO_PAGE := 50

  /** What matching (if it does not throw) and Hostaway answer for one payment of a batch. */
  datatype Reply = Reply(match_: Option<Match>, answer: Outcome, today: int)

  ghost predicate Known(db: Db, pids: seq<int>) {
    forall i :: 0 <= i < |pids| ==> pids[i] in db.payments
  }

  /** Reconciling one payment after the other. */
  ghost function RematchAll(db: Db, pids: seq<int>, replies: seq<Reply>, force: bool): (r: Db)
    requires |replies| == |pids| && Known(db, pids)
    ensures r.payments.Keys == db.payments.Keys && r.reservations == db.reservations
  {
    if pids == [] then db
    else
      var n := |pids| - 1;
      assert Known(db, pids[..n]);
      assert pids[n] in db.payments;
      Reconcile(RematchAll(db, pids[..n], replies[..n], force), pids[n], true, force,
                replies[n].match_, replies[n].answer, replies[n].today)
  }

  lemma {:induction false} RematchTouchesOnly(db: Db, pids: seq<int>, replies: seq<Reply>, force: bool, q: int)
    requires |replies| == |pids| && Known(db, pids) && q in db.payments && q !in pids
    ensures RematchAll(db, pids, replies, force).payments[q] == db.payments[q]
  {
    if pids != [] {
      var n := |pids| - 1;
      RematchTouchesOnly(db, pids[..n], replies[..n], force, q);
      assert pids[n] in pids;
    }
  }

  /** One poll of a payment; a retry when it is forced. */
  function BatchEvent(pid: int, r: Reply, force: bool): Event {
    if force then Retry(pid, r.match_, r.answer, r.today) else Poll(pid, r.match_, r.answer, r.today)
  }

  /** The steps a batch consists of. */
  function BatchEvents(pids: seq<int>, replies: seq<Reply>, force: bool): seq<Event>
    requires |replies| == |pids|
  {
    if pids == [] then []
    else
      var n := |pids| - 1;
      BatchEvents(pids[..n], replies[..n], force) + [BatchEvent(pids[n], replies[n], force)]
  }

  /** The matcher and Hostaway keep their promises at each step of the batch. */
  ghost predicate RepliesOk(db: Db, pids: seq<int>, replies: seq<Reply>, force: bool)
    requires |replies| == |pids| && Known(db, pids)
  {
    pids != [] ==>
      var n := |pids| - 1;
      assert Known(db, pids[..n]);
      assert pids[n] in db.payments;
      && RepliesOk(db, pids[..n], replies[..n], force)
      && ReplyOk(db, RematchAll(db, pids[..n], replies[..n], force), pids[n], replies[n])
  }

  ghost predicate ReplyOk(db: Db, now: Db, pid: int, r: Reply)
    requires pid in db.payments
  {
    MatchOk(r.match_, db.payments[pid].amount, db.reservations) && Fresh(now.books.issued, r.answer)
  }

  ghost predicate InReview(db: Db, pids: seq<int>) {
    forall i :: 0 <= i < |pids| ==> pids[i] in db.payments && db.payments[pids[i]].status == PendingReview
  }

  /** A batch over the review queue is a run of polls, or of retries when it is forced; what
      holds in every reachable state and of every run holds of batches too. */
  lemma {:induction false} BatchesAreRuns(es: seq<Event>, db: Db, pids: seq<int>, replies: seq<Reply>, force: bool)
    requires RunTo(es, db) && |replies| == |pids| && Known(db, pids) && Distinct(pids)
    requires InReview(db, pids) && RepliesOk(db, pids, replies, force)
    ensures RunTo(es + BatchEvents(pids, replies, force), RematchAll(db, pids, replies, force))
    decreases |pids|
  {
    if pids == [] {
      assert es + [] == es;
    } else {
      var n := |pids| - 1;
      PrefixInReview(db, pids);
      BatchesAreRuns(es, db, pids[..n], replies[..n], force);
      RematchTouchesOnly(db, pids[..n], replies[..n], force, pids[n]);
      OneMoreReply(es, BatchEvents(pids[..n], replies[..n], force), db, RematchAll(db, pids[..n], replies[..n], force),
                   pids[n], replies[n], force);
    }
  }

  lemma {:induction false} PrefixInReview(db: Db, pids: seq<int>)
    requires pids != [] && Known(db, pids) && Distinct(pids) && InReview(db, pids)
    ensures var n := |pids| - 1;
            Known(db, pids[..n]) && Distinct(pids[..n]) && InReview(db, pids[..n]) && pids[n] !in pids[..n]
            && pids[n] in db.payments && db.payments[pids[n]].status == PendingReview
  {
  }

  lemma {:induction false} OneMoreReply(es: seq<Event>, batch: seq<Event>, db: Db, now: Db, pid: int, r: Reply,
                                        force: bool)
    requires RunTo(es + batch, now) && pid in db.payments && pid in now.payments
    requires now.payments[pid] == db.payments[pid] && db.payments[pid].status == PendingReview
    requires now.reservations == db.reservations && ReplyOk(db, now, pid, r)
    ensures RunTo(es + (batch + [BatchEvent(pid, r, force)]),
                  Reconcile(now, pid, true, force, r.match_, r.answer, r.today))
  {
    OneMoreStep(es + batch, now, BatchEvent(pid, r, force));
    assert es + (batch + [BatchEvent(pid, r, force)]) == es + batch + [BatchEvent(pid, r, force)];
  }

  lemma {:induction false} OneMoreStep(es: seq<Event>, db: Db, e: Event)
    requires RunTo(es, db) && Enabled(db, e)
    ensures RunTo(es + [e], Step(db, e))
  {
    assert (es + [e])[..|es|] == es;
    assert StepTo(es + [e], db, Step(db, e));
  }

  /** How many of the listed payments have the status. */
  function CountStatus(payments: map<int, Payment>, pids: seq<int>, status: Status): nat
    requires forall i :: 0 <= i < |pids| ==> pids[i] in payments
  {
    if pids == [] then 0
    else
      CountStatus(payments, pids[..|pids| - 1], status) +
      if payments[pids[|pids| - 1]].status == status then 1 else 0
  }

  /** The positions of the listed payments that have the status. */
  ghost function WithStatus(payments: map<int, Payment>, pids: seq<int>, status: Status): set<int>
    requires forall i :: 0 <= i < |pids| ==> pids[i] in payments
  {
    set i | 0 <= i < |pids| && payments[pids[i]].status == status
  }

  lemma {:induction false} CountIsSize(payments: map<int, Payment>, pids: seq<int>, status: Status)
    requires forall i :: 0 <= i < |pids| ==> pids[i] in payments
    ensures CountStatus(payments, pids, status) == |WithStatus(payments, pids, status)|
  {
    if pids == [] {
      assert WithStatus(payments, pids, status) == {};
    } else {
      var n := |pids| - 1;
      CountIsSize(payments, pids[..n], status);
      var before := WithStatus(payments, pids[..n], status);
      assert WithStatus(payments, pids, status) == if payments[pids[n]].status == status then before + {n} else before;
    }
  }

  lemma {:induction false} CountUnaffected(a: map<int, Payment>, b: map<int, Payment>, pids: seq<int>, status: Status)
    requires forall i :: 0 <= i < |pids| ==> pids[i] in a && pids[i] in b && a[pids[i]] == b[pids[i]]
    ensures CountStatus(a, pids, status) == CountStatus(b, pids, status)
  {
    if pids != [] { CountUnaffected(a, b, pids[..|pids| - 1], status); }
  }

  /** Reconciling one more payment does not change the ones counted before. */
  lemma {:induction false} CountNext(db: Db, pids: seq<int>, replies: seq<Reply>, force: bool, i: nat, status: Status)
    requires |replies| == |pids| && Known(db, pids) && Distinct(pids) && i < |pids|
    requires Known(db, pids[..i]) && Known(db, pids[..i + 1])
    ensures var before := RematchAll(db, pids[..i], replies[..i], force);
            var after := RematchAll(db, pids[..i + 1], replies[..i + 1], force);
            && after == Reconcile(before, pids[i], true, force, replies[i].match_, replies[i].answer, replies[i].today)
            && CountStatus(after.payments, pids[..i + 1], status) ==
               CountStatus(before.payments, pids[..i], status) +
                 if after.payments[pids[i]].status == status then 1 else 0
  {
    assert pids[..i + 1][..i] == pids[..i] && replies[..i + 1][..i] == replies[..i];
    var before := RematchAll(db, pids[..i], replies[..i], force);
    var after := RematchAll(db, pids[..i + 1], replies[..i + 1], force);
    CountUnaffected(before.payments, after.payments, pids[..i], status);
  }

  /** The first i payments have been matched and reconciled, giving this state and these counts. */
  ghost predicate Rematched(db: Db, pids: seq<int>, replies: seq<Reply>, force: bool, i: nat, now: Db, auto: nat,
                            review: nat)
  {
    && |replies| == |pids| && i <= |pids| && Known(db, pids[..i])
    && (forall k :: 0 <= k < i ==> replies[k].match_.Some?)
    && now == RematchAll(db, pids[..i], replies[..i], force)
    && auto == CountStatus(now.payments, pids[..i], AutoApplied)
    && review == CountStatus(now.payments, pids[..i], PendingReview)
  }

  lemma {:induction false} RematchedNext(db: Db, pids: seq<int>, replies: seq<Reply>, force: bool, i: nat, now: Db,
                                         auto: nat, review: nat)
    requires Rematched(db, pids, replies, force, i, now, auto, review) && i < |pids| && Known(db, pids)
             && Distinct(pids)
    ensures pids[i] in now.payments && now.payments[pids[i]] == db.payments[pids[i]]
    ensures var after := Reconcile(now, pids[i], true, force, replies[i].match_, replies[i].answer, replies[i].today);
            var status := after.payments[pids[i]].status;
            replies[i].match_.Some? ==>
            Rematched(db, pids, replies, force, i + 1, after,
                      auto + (if status == AutoApplied then 1 else 0),
                        review + (if status == PendingReview then 1 else 0))
  {
    assert pids[i] in db.payments;
    RematchTouchesOnly(db, pids[..i], replies[..i], force, pids[i]);
    CountNext(db, pids, replies, force, i, AutoApplied);
    CountNext(db, pids, replies, force, i, PendingReview);
  }

  /** Where matching throws, nothing changes. */
  lemma {:induction false} NoVerdictNoChange(db: Db, pid: int, force: bool, o: Outcome, today: int)
    requires pid in db.payments
    ensures Reconcile(db, pid, true, force, None, o, today) == db
  {
  }

  // ----- Deleting a plan

  /** How the undo of one payment of a batch goes: the charges Hostaway would not cancel, and the
      matcher's new verdict. */
  datatype UndoReply = UndoReply(failed: seq<int>, match_: Option<Match>)

  /** Undoing one payment after the other. */
  ghost function UndoAll(db: Db, pids: seq<int>, replies: seq<UndoReply>): (r: Db)
    requires |replies| == |pids|
    ensures r.payments.Keys == db.payments.Keys && r.reservations == db.reservations
  {
    if pids == [] then db
    else
      var n := |pids| - 1;
      Undo(UndoAll(db, pids[..n], replies[..n]), pids[n], replies[n].failed, replies[n].match_)
  }

  lemma {:induction false} UndoTouchesOnly(db: Db, pids: seq<int>, replies: seq<UndoReply>, q: int)
    requires |replies| == |pids| && q in db.payments && q !in pids
    ensures UndoAll(db, pids, replies).payments[q] == db.payments[q]
  {
    if pids != [] {
      var n := |pids| - 1;
      UndoTouchesOnly(db, pids[..n], replies[..n], q);
      assert pids[n] in pids;
    }
  }

  /** The payments for which matching gave a verdict. */
  function Answered(pids: seq<int>, replies: seq<UndoReply>): seq<int>
    requires |replies| == |pids|
  {
    if pids == [] then []
    else
      var n := |pids| - 1;
      Answered(pids[..n], replies[..n]) + if replies[n].match_.Some? then [pids[n]] else []
  }

  lemma {:induction false} AnsweredMembers(pids: seq<int>, replies: seq<UndoReply>, pid: int)
    requires |replies| == |pids|
    ensures pid in Answered(pids, replies) <==> exists i :: 0 <= i < |pids| && pids[i] == pid && replies[i].match_.Some?
  {
    if pids != [] {
      var n := |pids| - 1;
      AnsweredMembers(pids[..n], replies[..n], pid);
      if i :| 0 <= i < n && pids[..n][i] == pid && replies[..n][i].match_.Some? {
        assert pids[i] == pid && replies[i].match_.Some?;
      }
      if i :| 0 <= i < |pids| && pids[i] == pid && replies[i].match_.Some? {
        if i < n { assert pids[..n][i] == pid && replies[..n][i].match_.Some?; }
      }
    }
  }

  /** An automatic application that the deletion of the reservation's plan should take back. */
  ghost predicate AutoAppliedTo(p: Payment, reservation: int) {
    p.status == AutoApplied
    && (p.matched == Some(reservation)
        || exists i :: 0 <= i < |p.allocations| && p.allocations[i].reservation == reservation)
  }

  /** The payments the deletion query finds, at most UNDO_PAGE of them. */
  ghost predicate IsUndoPage(db: Db, reservation: int, page: seq<int>) {
    && Known(db, page) && Distinct(page) && |page| <= UNDO_PAGE
    && (forall i :: 0 <= i < |page| ==> AutoAppliedTo(db.payments[page[i]], reservation))
    && (|page| < UNDO_PAGE ==> forall q :: q in db.payments && AutoAppliedTo(db.payments[q], reservation) ==> q in page)
  }

  /** The listed payments are unapplied, all others as they were. */
  ghost predicate UnappliedExactly(before: map<int, Payment>, after: map<int, Payment>, pids: seq<int>) {
    && after.Keys == before.Keys
    && (forall q :: q in before ==> after[q].amount == before[q].amount)
    && (forall q :: q in before && q !in pids ==> after[q] == before[q])
    && (forall q :: q in before && q in pids ==> !IsApplied(after[q].status))
  }

  lemma {:induction false} UnappliedNext(before: map<int, Payment>, mid: map<int, Payment>, after: map<int, Payment>,
                                         pids: seq<int>, pid: int)
    requires pid in before && UnappliedExactly(before, mid, pids) && UnappliedExactly(mid, after, [pid])
    ensures UnappliedExactly(before, after, pids + [pid])
  {
    forall q | q in before && q in pids + [pid] ensures !IsApplied(after[q].status) {
      assert q in pids || q == pid;
    }
  }

  lemma {:induction false} UndoOthers(db: Db, pid: int, failed: seq<int>, m: Option<Match>)
    requires pid in db.payments
    ensures UnappliedExactly(db.payments, Undo(db, pid, failed, m).payments, [pid])
  {
  }

  lemma {:induction false} UndoAllUnapplies(db: Db, pids: seq<int>, replies: seq<UndoReply>)
    requires |replies| == |pids| && Known(db, pids)
    ensures UnappliedExactly(db.payments, UndoAll(db, pids, replies).payments, pids)
  {
    if pids != [] {
      var n := |pids| - 1;
      assert Known(db, pids[..n]);
      UndoAllUnapplies(db, pids[..n], replies[..n]);
      var mid := UndoAll(db, pids[..n], replies[..n]);
      assert pids[n] in db.payments && pids == pids[..n] + [pids[n]];
      UndoOthers(mid, pids[n], replies[n].failed, replies[n].match_);
      UnappliedNext(db.payments, mid.payments, UndoAll(db, pids, replies).payments, pids[..n], pids[n]);
    }
  }

  /** The matcher keeps its promises for the whole batch. */
  ghost predicate UndosOk(db: Db, pids: seq<int>, replies: seq<UndoReply>)
    requires |replies| == |pids| && Known(db, pids)
  {
    forall i :: 0 <= i < |pids| ==> MatchOk(replies[i].match_, db.payments[pids[i]].amount, db.reservations)
  }

  function UndoEvents(pids: seq<int>, replies: seq<UndoReply>): seq<Event>
    requires |replies| == |pids|
  {
    if pids == [] then []
    else
      var n := |pids| - 1;
      UndoEvents(pids[..n], replies[..n]) + [UndoPayment(pids[n], replies[n].failed, replies[n].match_)]
  }

  lemma {:induction false} PrefixOk(db: Db, pids: seq<int>, replies: seq<UndoReply>)
    requires |replies| == |pids| > 0 && Known(db, pids) && UndosOk(db, pids, replies)
    ensures var n := |pids| - 1;
            Known(db, pids[..n]) && UndosOk(db, pids[..n], replies[..n]) && pids[n] in db.payments
            && MatchOk(replies[n].match_, db.payments[pids[n]].amount, db.reservations)
  {
  }

  lemma {:induction false} UndoAllKeepsInv(db: Db, pids: seq<int>, replies: seq<UndoReply>)
    requires |replies| == |pids| && Known(db, pids) && UndosOk(db, pids, replies) && Inv(db)
    ensures Inv(UndoAll(db, pids, replies))
  {
    if pids != [] {
      var n := |pids| - 1;
      PrefixOk(db, pids, replies);
      UndoAllKeepsInv(db, pids[..n], replies[..n]);
      UndoAllUnapplies(db, pids[..n], replies[..n]);
      UndoKeepsInv(UndoAll(db, pids[..n], replies[..n]), pids[n], replies[n].failed, replies[n].match_);
    }
  }

  /** A batch of undos is a run of single ones. */
  lemma {:induction false} UndosAreRuns(es: seq<Event>, db: Db, pids: seq<int>, replies: seq<UndoReply>)
    requires RunTo(es, db) && |replies| == |pids| && Known(db, pids) && UndosOk(db, pids, replies)
    ensures RunTo(es + UndoEvents(pids, replies), UndoAll(db, pids, replies))
    decreases |pids|
  {
    if pids == [] {
      assert es + [] == es;
    } else {
      var n := |pids| - 1;
      PrefixOk(db, pids, replies);
      UndosAreRuns(es, db, pids[..n], replies[..n]);
      UndoAllUnapplies(db, pids[..n], replies[..n]);
      OneMoreUndo(es, UndoEvents(pids[..n], replies[..n]), UndoAll(db, pids[..n], replies[..n]), pids[n], replies[n]);
    }
  }

  lemma {:induction false} OneMoreUndo(es: seq<Event>, batch: seq<Event>, now: Db, pid: int, r: UndoReply)
    requires RunTo(es + batch, now) && pid in now.payments
             && MatchOk(r.match_, now.payments[pid].amount, now.reservations)
    ensures RunTo(es + (batch + [UndoPayment(pid, r.failed, r.match_)]), Undo(now, pid, r.failed, r.match_))
  {
    OneMoreStep(es + batch, now, UndoPayment(pid, r.failed, r.match_));
    assert es + (batch + [UndoPayment(pid, r.failed, r.match_)]) == es + batch + [UndoPayment(pid, r.failed, r.match_)];
  }

  /** The automatic applications to the reservation. */
  ghost function AutoApplications(payments: map<int, Payment>, reservation: int): set<int> {
    set q | q in payments && AutoAppliedTo(payments[q], reservation)
  }

  /** The query returns them all exactly when there are no more than a page of them. */
  lemma {:induction false} PageIsComplete(db: Db, reservation: int, page: seq<int>)
    requires IsUndoPage(db, reservation, page)
    ensures AutoApplications(db.payments, reservation) <= Elements(page) <==>
            |AutoApplications(db.payments, reservation)| <= UNDO_PAGE
  {
    var all := AutoApplications(db.payments, reservation);
    DistinctCount(page);
    assert Elements(page) <= all;
    if all <= Elements(page) { SubsetSize(all, Elements(page)); }
    if |all| <= UNDO_PAGE {
      if |page| == UNDO_PAGE {
        SubsetOfSameSize(Elements(page), all);
      } else {
        ShortPageIsComplete(db, reservation, page);
      }
    }
  }

  lemma {:induction false} ShortPageIsComplete(db: Db, reservation: int, page: seq<int>)
    requires IsUndoPage(db, reservation, page) && |page| < UNDO_PAGE
    ensures AutoApplications(db.payments, reservation) <= Elements(page)
  {
    forall q | q in AutoApplications(db.payments, reservation) ensures q in Elements(page) {
      assert AutoAppliedTo(db.payments[q], reservation);
    }
  }

  /** Deleting a plan leaves every manually applied payment alone, and takes back every automatic
      application to the reservation if and only if there are at most UNDO_PAGE of them. Refused
      remote cancels make no difference. */
  lemma {:induction false} PlanDeletionRestores(db: Db, reservation: int, page: seq<int>, replies: seq<UndoReply>)
    requires |replies| == |page| && IsUndoPage(db, reservation, page)
    ensures var after := UndoAll(db, page, replies);
            && (forall q :: q in db.payments && db.payments[q].status == ManuallyApplied ==>
                after.payments[q] == db.payments[q])
            && (AutoApplications(after.payments, reservation) == {} <==>
                |AutoApplications(db.payments, reservation)| <= UNDO_PAGE)
            && (|page| < UNDO_PAGE ==> AutoApplications(after.payments, reservation) == {})
    ensures Inv(db) && UndosOk(db, page, replies) ==> Inv(UndoAll(db, page, replies))
  {
    if Inv(db) && UndosOk(db, page, replies) { UndoAllKeepsInv(db, page, replies); }
    UndoAllUnapplies(db, page, replies);
    PageIsComplete(db, reservation, page);
    LeftApplied(db, reservation, page, UndoAll(db, page, replies).payments);
    if |page| < UNDO_PAGE { ShortPageIsComplete(db, reservation, page); }
    NothingLeft(AutoApplications(db.payments, reservation), Elements(page));
    forall q | q in db.payments && db.payments[q].status == ManuallyApplied ensures q !in page {}
  }

  /** What is still applied automatically is what the page did not hold. */
  lemma {:induction false} LeftApplied(db: Db, reservation: int, page: seq<int>, after: map<int, Payment>)
    requires UnappliedExactly(db.payments, after, page)
    ensures AutoApplications(after, reservation) == AutoApplications(db.payments, reservation) - Elements(page)
  {
    forall q | q in db.payments
      ensures q in AutoApplications(after, reservation) <==> AutoAppliedTo(db.payments[q], reservation) && q !in page
    {
      if q !in page { assert after[q] == db.payments[q]; }
    }
  }
}
