/** What payments, their undo and failed splits do to the instalment plans of the stays they
    touch, and exactly when the plans come back. */
module ReconciliationLedger {
  import opened Wrappers
  import opened DueDates
  import opened PaymentPlan
  import opened PaymentBooks
  import opened Reconciliation
  import opened ReconciliationInvariant
  import opened ReconciliationUndo

  // ----- One plan

  /** What saving a plan checks. */
  ghost predicate LedgerSane(plan: Plan) {
    plan.paid >= 0 && plan.instalment > 0 && plan.nextDue >= 0
  }

  /** Payments and their undo keep to it. */
  lemma {:induction false} LedgerStaysSane(plan: Plan, amount: int, balance: Option<int>, today: int)
    requires LedgerSane(plan) && amount > 0 && (balance.Some? ==> balance.value >= 0)
    ensures LedgerSane(Apply(plan, amount, balance, today)) && LedgerSane(Reverse(plan, amount, balance))
  {
  }

  /** A plan that is switched off takes no payment. */
  ghost function Recorded(plan: Plan, amount: int, left: Option<int>, today: int): Plan {
    if plan.enabled then Apply(plan, amount, left, today) else plan
  }

  /** A payment to a plan that is switched off is not recorded, but its undo is: what a plan must
      look like to survive that. */
  ghost predicate SurvivesReversal(plan: Plan, amount: int, balance: Option<int>) {
    && plan.paid == 0
    && if LooksLikeInstalment(plan, amount) then
         && plan.dueAt.None?
         && plan.nextDue == if balance.Some? then WholeInstalment(plan, amount, balance.value) else plan.instalment
       else
         balance.Some? && plan.nextDue == balance.value > 0
  }

  /** What can be checked of a plan before a payment is recorded and undone, given the balance
      without the payment and the one left when it is recorded. */
  ghost predicate PlanWillBeRestored(plan: Plan, amount: int, left: Option<int>, balance: Option<int>) {
    if !plan.enabled then SurvivesReversal(plan, amount, balance)
    else if left.Some? && balance.Some? then UndoWillRestoreAt(plan, amount, left.value, balance.value)
    else UndoWillRestore(plan, amount)
  }

  /** The two balances are known together and differ by no more than the payment. */
  ghost predicate BalancesFit(left: Option<int>, balance: Option<int>, amount: int) {
    && (left.Some? <==> balance.Some?)
    && (left.Some? ==> 0 <= left.value <= balance.value <= left.value + amount)
  }

  lemma {:induction false} RecordedAndReversed(plan: Plan, amount: int, left: Option<int>, balance: Option<int>,
                                               today: int)
    requires LedgerSane(plan) && amount > 0 && BalancesFit(left, balance, amount)
    ensures Reverse(Recorded(plan, amount, left, today), amount, balance) == plan <==>
            PlanWillBeRestored(plan, amount, left, balance)
  {
    if !plan.enabled {
      if plan.dueAt.Some? { RewindMovesBack(plan.dueAt.value, plan.frequency, plan.interval); }
    } else if left.Some? {
      UndoInvertsApplyWithBalance(plan, amount, left.value, balance.value, today);
    } else {
      UndoInvertsApply(plan, amount, today);
    }
  }

  // ----- One line

  /** The balance when a line is recorded: its charge counts if it was posted. */
  function Left(rs: Reservations, charges: seq<Charge>, r: int, amount: int, charged: bool): Option<int> {
    if r in rs && rs[r].total.Some?
    then Some(Max(0, rs[r].total.value - Paid(charges, r) - if charged then amount else 0))
    else None
  }

  /** The plan of a stay after a line was settled there. */
  ghost function PlanAfter(plan: Plan, rs: Reservations, charges: seq<Charge>, r: int, amount: int, o: Outcome,
                           today: int): Plan
  {
    Recorded(plan, amount, Left(rs, charges, r, amount, ChargedOnline(rs, r, o)), today)
  }

  lemma {:induction false} SettlePlans(b: Books, rs: Reservations, pid: int, r: int, amount: int, o: Outcome,
                                       today: int)
    requires amount > 0 && r in rs
    ensures var s := Settle(b, rs, pid, r, amount, o, today);
            s.books.plans == if s.result.Applied? && r in b.plans
                             then b.plans[r := PlanAfter(b.plans[r], rs, b.charges, r, amount, o, today)] else b.plans
  {
    if ChargedOnline(rs, r, o) { PaidSnoc(b.charges, Charge(o.id, r, amount), r); }
    assert r in b.plans ==> b.plans[r := b.plans[r]] == b.plans;
  }

  lemma {:induction false} SettlePaidElsewhere(b: Books, rs: Reservations, pid: int, r: int, amount: int, o: Outcome,
                                               today: int, q: int)
    requires q != r && r in rs
    ensures Paid(Settle(b, rs, pid, r, amount, o, today).books.charges, q) == Paid(b.charges, q)
  {
    if ChargedOnline(rs, r, o) { PaidSnoc(b.charges, Charge(o.id, r, amount), q); }
  }

  // ----- Several lines

  function StayOf(l: Line): int { l.reservation.GetOr(0) }

  /** How many lines are settled: all before the first whose listing is online and whose charge
      Hostaway refuses, unless the refusal looks like an archived listing. */
  function Reached(rs: Reservations, lines: seq<Line>, os: seq<Outcome>): (k: nat)
    requires |os| == |lines|
    ensures k <= |lines|
  {
    if lines == [] then 0
    else
      var n := |lines| - 1;
      var k := Reached(rs, lines[..n], os[..n]);
      if k == n && SettledAs(rs, StayOf(lines[n]), os[n]).Applied? then n + 1 else k
  }

  lemma {:induction false} AppliedAreReached(b: Books, rs: Reservations, pid: int, lines: seq<Line>, os: seq<Outcome>,
                                             today: int)
    requires |os| == |lines|
    ensures var s := ApplyLines(b, rs, pid, lines, os, today);
            && |s.applied| == Reached(rs, lines, os) && (s.failed <==> Reached(rs, lines, os) < |lines|)
            && forall i :: 0 <= i < |s.applied| ==>
                 s.applied[i].reservation == StayOf(lines[i]) && s.applied[i].amount == lines[i].amount
  {
    if lines != [] {
      var n := |lines| - 1;
      AppliedAreReached(b, rs, pid, lines[..n], os[..n], today);
      var before := ApplyLines(b, rs, pid, lines[..n], os[..n], today);
      if !before.failed {
        SettleResult(before.books, rs, pid, StayOf(lines[n]), lines[n].amount, os[n], today);
      }
    }
  }

  /** The first n lines do not concern the stay. */
  ghost predicate NotAmong(lines: seq<Line>, n: int, r: int) {
    forall i :: 0 <= i < n && i < |lines| ==> StayOf(lines[i]) != r
  }

  /** The plans after the first n lines: each stay's plan has taken its own line at the balance
      its own line left, and no other plan has changed. */
  ghost predicate PlansMoved(b: Books, rs: Reservations, after: map<int, Plan>, lines: seq<Line>, os: seq<Outcome>,
                             today: int, n: int)
    requires |os| == |lines|
  {
    && after.Keys == b.plans.Keys
    && (forall i :: 0 <= i < n && i < |lines| && StayOf(lines[i]) in b.plans ==>
          after[StayOf(lines[i])] == PlanAfter(b.plans[StayOf(lines[i])], rs, b.charges, StayOf(lines[i]),
                                               lines[i].amount, os[i], today))
    && (forall r :: r in b.plans && NotAmong(lines, n, r) ==> after[r] == b.plans[r])
  }

  ghost predicate LinesFit(lines: seq<Line>, rs: Reservations) {
    DistinctStays(lines) && forall i :: 0 <= i < |lines| ==> LineOk(lines[i], rs)
  }

  lemma {:induction false} LinesPaidElsewhere(b: Books, rs: Reservations, pid: int, lines: seq<Line>, os: seq<Outcome>,
                                              today: int, r: int)
    requires |os| == |lines| && LinesFit(lines, rs) && NotAmong(lines, |lines|, r)
    ensures Paid(ApplyLines(b, rs, pid, lines, os, today).books.charges, r) == Paid(b.charges, r)
  {
    if lines != [] {
      var n := |lines| - 1;
      LinesPaidElsewhere(b, rs, pid, lines[..n], os[..n], today, r);
      var before := ApplyLines(b, rs, pid, lines[..n], os[..n], today);
      assert LineOk(lines[n], rs);
      SettlePaidElsewhere(before.books, rs, pid, StayOf(lines[n]), lines[n].amount, os[n], today, r);
    }
  }

  /** Settling lines moves exactly the plans of the stays reached, each by its own line. */
  lemma {:induction false} LinesMoveLedger(b: Books, rs: Reservations, pid: int, lines: seq<Line>, os: seq<Outcome>,
                                           today: int)
    requires |os| == |lines| && LinesFit(lines, rs)
    ensures PlansMoved(b, rs, ApplyLines(b, rs, pid, lines, os, today).books.plans, lines, os, today,
                       Reached(rs, lines, os))
  {
    if lines != [] {
      var n := |lines| - 1;
      LinesMoveLedger(b, rs, pid, lines[..n], os[..n], today);
      AppliedAreReached(b, rs, pid, lines[..n], os[..n], today);
      var before := ApplyLines(b, rs, pid, lines[..n], os[..n], today);
      LastIsElsewhere(lines, rs);
      if before.failed {
        SameMoves(b, rs, before.books.plans, lines, os, today, Reached(rs, lines, os));
      } else {
        LinesPaidElsewhere(b, rs, pid, lines[..n], os[..n], today, StayOf(lines[n]));
        OneMoreLine(b, rs, pid, before.books, lines, os, today);
      }
    }
  }

  lemma {:induction false} LastIsElsewhere(lines: seq<Line>, rs: Reservations)
    requires lines != [] && LinesFit(lines, rs)
    ensures var n := |lines| - 1;
            && LinesFit(lines[..n], rs) && LineOk(lines[n], rs)
            && NotAmong(lines, n, StayOf(lines[n])) && NotAmong(lines[..n], n, StayOf(lines[n]))
  {
    var n := |lines| - 1;
    forall i | 0 <= i < n ensures StayOf(lines[i]) != StayOf(lines[n]) {
      assert LineOk(lines[i], rs) && LineOk(lines[n], rs);
    }
  }

  lemma {:induction false} OneMoreLine(b: Books, rs: Reservations, pid: int, before: Books, lines: seq<Line>,
                                       os: seq<Outcome>, today: int)
    requires |os| == |lines| > 0
    requires var l := lines[|lines| - 1];
             LineOk(l, rs) && NotAmong(lines, |lines| - 1, StayOf(l))
               && Paid(before.charges, StayOf(l)) == Paid(b.charges, StayOf(l))
    requires PlansMoved(b, rs, before.plans, lines[..|lines| - 1], os[..|lines| - 1], today, |lines| - 1)
    ensures var n := |lines| - 1;
            var s := Settle(before, rs, pid, StayOf(lines[n]), lines[n].amount, os[n], today);
            PlansMoved(b, rs, s.books.plans, lines, os, today,
                       if SettledAs(rs, StayOf(lines[n]), os[n]).Applied? then n + 1 else n)
  {
    var n := |lines| - 1;
    SettlePlans(before, rs, pid, StayOf(lines[n]), lines[n].amount, os[n], today);
    SettleResult(before, rs, pid, StayOf(lines[n]), lines[n].amount, os[n], today);
    NextMove(b, rs, before.plans, lines, os, today);
  }

  /** Lines that are not reached do not matter. */
  lemma {:induction false} SameMoves(b: Books, rs: Reservations, after: map<int, Plan>, lines: seq<Line>,
                                     os: seq<Outcome>, today: int, k: nat)
    requires |os| == |lines| > 0 && k < |lines|
    requires PlansMoved(b, rs, after, lines[..|lines| - 1], os[..|lines| - 1], today, k)
    ensures PlansMoved(b, rs, after, lines, os, today, k)
  {
    var n := |lines| - 1;
    forall i | 0 <= i < k ensures lines[..n][i] == lines[i] && os[..n][i] == os[i] {}
    forall r | r in b.plans && NotAmong(lines, k, r) ensures after[r] == b.plans[r] {
      assert NotAmong(lines[..n], k, r);
    }
  }

  lemma {:induction false} NextMove(b: Books, rs: Reservations, before: map<int, Plan>, lines: seq<Line>,
                                    os: seq<Outcome>, today: int)
    requires |os| == |lines| > 0 && NotAmong(lines, |lines| - 1, StayOf(lines[|lines| - 1]))
    requires PlansMoved(b, rs, before, lines[..|lines| - 1], os[..|lines| - 1], today, |lines| - 1)
    ensures PlansMoved(b, rs, before, lines, os, today, |lines| - 1)
    ensures var n := |lines| - 1;
            var r := StayOf(lines[n]);
            PlansMoved(b, rs,
                       if r in before
                       then before[r := PlanAfter(before[r], rs, b.charges, r, lines[n].amount, os[n], today)]
                       else before,
                       lines, os, today, |lines|)
  {
    var n := |lines| - 1;
    var r := StayOf(lines[n]);
    SameMoves(b, rs, before, lines, os, today, n);
    assert r in b.plans ==> before[r] == b.plans[r];
    forall q | q in b.plans && NotAmong(lines, |lines|, q) ensures q != r && NotAmong(lines, n, q) {}
  }

  // ----- Failed splits

  ghost predicate HasEnabledPlan(plans: map<int, Plan>, r: int) {
    r in plans && plans[r].enabled
  }

  /** A failed split takes its charges back but not its ledger entries: the instalment plans are
      as before exactly when no line settled before the failure fell on a stay with an enabled
      plan. */
  lemma {:induction false} FailedSplitLeavesLedgerMoved(b: Books, rs: Reservations, pid: int, lines: seq<Line>,
                                                        os: seq<Outcome>, today: int)
    requires |os| == |lines| && LinesFit(lines, rs)
    ensures RolledBack(ApplyLines(b, rs, pid, lines, os, today)).plans == b.plans <==>
            forall i :: 0 <= i < Reached(rs, lines, os) ==> !HasEnabledPlan(b.plans, StayOf(lines[i]))
  {
    LinesMoveLedger(b, rs, pid, lines, os, today);
    MovedOrNot(b, rs, ApplyLines(b, rs, pid, lines, os, today).books.plans, lines, os, today, Reached(rs, lines, os));
  }

  lemma {:induction false} MovedOrNot(b: Books, rs: Reservations, after: map<int, Plan>, lines: seq<Line>,
                                      os: seq<Outcome>, today: int, n: nat)
    requires |os| == |lines| && LinesFit(lines, rs) && n <= |lines| && PlansMoved(b, rs, after, lines, os, today, n)
    ensures after == b.plans <==> forall i :: 0 <= i < n ==> !HasEnabledPlan(b.plans, StayOf(lines[i]))
  {
    forall i | 0 <= i < n && HasEnabledPlan(b.plans, StayOf(lines[i]))
      ensures after[StayOf(lines[i])] != b.plans[StayOf(lines[i])]
    {
      assert LineOk(lines[i], rs);
      assert after[StayOf(lines[i])].paid == b.plans[StayOf(lines[i])].paid + lines[i].amount;
    }
    if forall i :: 0 <= i < n ==> !HasEnabledPlan(b.plans, StayOf(lines[i])) {
      forall r | r in b.plans ensures after[r] == b.plans[r] {
        if !NotAmong(lines, n, r) {
          var i :| 0 <= i < n && StayOf(lines[i]) == r;
          assert !HasEnabledPlan(b.plans, StayOf(lines[i]));
        }
      }
    }
  }

  /** No line on an enabled plan comes before a line whose listing is online. */
  ghost predicate SafeOrder(plans: map<int, Plan>, rs: Reservations, lines: seq<Line>) {
    forall i, j :: 0 <= i < j < |lines| && !Offline(rs, StayOf(lines[j])) ==> !HasEnabledPlan(plans, StayOf(lines[i]))
  }

  ghost predicate Spares(b: Books, rs: Reservations, pid: int, lines: seq<Line>, os: seq<Outcome>, today: int)
    requires |os| == |lines|
  {
    var s := ApplyLines(b, rs, pid, lines, os, today);
    s.failed ==> RolledBack(s).plans == b.plans
  }

  /** What can be checked before a split: whatever Hostaway answers, a failure leaves the plans
      alone if and only if no enabled plan comes before an online listing. */
  lemma {:induction false} FailuresSpareLedger(b: Books, rs: Reservations, pid: int, lines: seq<Line>, today: int)
    requires LinesFit(lines, rs)
    ensures (forall os: seq<Outcome> :: |os| == |lines| && AllFresh(b.issued, os) ==>
             Spares(b, rs, pid, lines, os, today))
            <==> SafeOrder(b.plans, rs, lines)
  {
    if SafeOrder(b.plans, rs, lines) {
      forall os: seq<Outcome> | |os| == |lines| ensures Spares(b, rs, pid, lines, os, today) {
        AppliedAreReached(b, rs, pid, lines, os, today);
        FailedSplitLeavesLedgerMoved(b, rs, pid, lines, os, today);
        StopsOnline(rs, lines, os);
      }
    } else {
      var i, j :| 0 <= i < j < |lines| && !Offline(rs, StayOf(lines[j])) && HasEnabledPlan(b.plans, StayOf(lines[i]));
      var os := RefusedAt(|lines|, j);
      ReachesRefusal(rs, lines, j);
      AppliedAreReached(b, rs, pid, lines, os, today);
      FailedSplitLeavesLedgerMoved(b, rs, pid, lines, os, today);
      assert AllFresh(b.issued, os) && !Spares(b, rs, pid, lines, os, today);
    }
  }

  lemma {:induction false} StopsOnline(rs: Reservations, lines: seq<Line>, os: seq<Outcome>)
    requires |os| == |lines|
    ensures var k := Reached(rs, lines, os); k < |lines| ==> !Offline(rs, StayOf(lines[k]))
  {
    if lines != [] {
      var n := |lines| - 1;
      StopsOnline(rs, lines[..n], os[..n]);
    }
  }

  /** Hostaway refuses line j, and takes every other listing for archived. */
  function RefusedAt(n: nat, j: int): seq<Outcome> {
    seq(n, k => Refused(RemoteError("", k != j)))
  }

  lemma {:induction false} ReachesRefusal(rs: Reservations, lines: seq<Line>, j: int)
    requires 0 <= j < |lines| && !Offline(rs, StayOf(lines[j]))
    ensures Reached(rs, lines, RefusedAt(|lines|, j)) == j
  {
    var n := |lines| - 1;
    assert RefusedAt(|lines|, j)[..n] == RefusedAt(n, j);
    if j < n {
      ReachesRefusal(rs, lines[..n], j);
    } else {
      NoneRefused(rs, lines[..n], j);
    }
  }

  lemma {:induction false} NoneRefused(rs: Reservations, lines: seq<Line>, j: int)
    requires |lines| <= j
    ensures Reached(rs, lines, RefusedAt(|lines|, j)) == |lines|
  {
    if lines != [] {
      var n := |lines| - 1;
      assert RefusedAt(|lines|, j)[..n] == RefusedAt(n, j);
      NoneRefused(rs, lines[..n], j);
    }
  }

  // ----- Undo

  /** Each allocation has been reversed on its own stay's plan; no other plan has changed. */
  ghost predicate PlansReversed(rs: Reservations, charges: seq<Charge>, before: map<int, Plan>, after: map<int, Plan>,
                                allocations: seq<Allocation>)
  {
    && after.Keys == before.Keys
    && (forall i :: 0 <= i < |allocations| && allocations[i].reservation in before ==>
          after[allocations[i].reservation] ==
          Reverse(before[allocations[i].reservation], allocations[i].amount,
                  OpenBalance(rs, charges, allocations[i].reservation)))
    && (forall r :: r in before && (forall i :: 0 <= i < |allocations| ==> allocations[i].reservation != r) ==>
        after[r] == before[r])
  }

  lemma {:induction false} ReverseAllPlans(b: Books, rs: Reservations, allocations: seq<Allocation>)
    requires AllPositive(allocations) && DistinctReservations(allocations)
    ensures PlansReversed(rs, b.charges, b.plans, ReverseAll(b, rs, allocations).plans, allocations)
  {
    if allocations != [] {
      var init, last := allocations[..|allocations| - 1], allocations[|allocations| - 1];
      ReverseAllPlans(b, rs, init);
      ReverseAllKeepsCharges(b, rs, init);
      assert allocations == init + [last];
      NextReversal(rs, b.charges, b.plans, ReverseAll(b, rs, init).plans, init, last);
    }
  }

  lemma {:induction false} NextReversal(rs: Reservations, charges: seq<Charge>, before: map<int, Plan>,
                                        mid: map<int, Plan>,
                                        init: seq<Allocation>, a: Allocation)
    requires PlansReversed(rs, charges, before, mid, init) && forall i :: 0 <= i < |init| ==>
             init[i].reservation != a.reservation
    ensures PlansReversed(rs, charges, before,
                          if a.reservation in mid
                          then mid[a.reservation := Reverse(mid[a.reservation], a.amount,
                                                            OpenBalance(rs, charges, a.reservation))] else mid,
                          init + [a])
  {
    var all := init + [a];
    assert all[|init|] == a;
    forall i | 0 <= i < |init| ensures all[i] == init[i] {}
    forall r | r in before && forall i :: 0 <= i < |all| ==> all[i].reservation != r
      ensures r != a.reservation && forall i :: 0 <= i < |init| ==> init[i].reservation != r
    {
      forall i | 0 <= i < |init| ensures init[i].reservation != r { assert all[i].reservation != r; }
    }
  }

  /** What can be checked of a line before it is confirmed and undone. */
  ghost predicate LineWillBeRestored(b: Books, rs: Reservations, l: Line, o: Outcome) {
    var r := StayOf(l);
    r in b.plans ==> PlanWillBeRestored(b.plans[r], l.amount, Left(rs, b.charges, r, l.amount, ChargedOnline(rs, r, o)),
                                        OpenBalance(rs, b.charges, r))
  }

  ghost predicate PlansSane(plans: map<int, Plan>) {
    forall r :: r in plans ==> LedgerSane(plans[r])
  }

  lemma {:induction false} LineRestored(b: Books, rs: Reservations, l: Line, o: Outcome, today: int)
    requires l.amount > 0 && StayOf(l) in b.plans && LedgerSane(b.plans[StayOf(l)])
    ensures var r := StayOf(l);
            Reverse(PlanAfter(b.plans[r], rs, b.charges, r, l.amount, o, today), l.amount,
                    OpenBalance(rs, b.charges, r)) == b.plans[r]
            <==> LineWillBeRestored(b, rs, l, o)
  {
    var r := StayOf(l);
    RecordedAndReversed(b.plans[r], l.amount, Left(rs, b.charges, r, l.amount, ChargedOnline(rs, r, o)),
                        OpenBalance(rs, b.charges, r), today);
  }

  /** Allocations follow lines one to one. */
  ghost predicate Follow(allocations: seq<Allocation>, lines: seq<Line>) {
    |allocations| == |lines|
    && forall i :: 0 <= i < |lines| ==>
         allocations[i].reservation == StayOf(lines[i]) && allocations[i].amount == lines[i].amount
  }

  lemma {:induction false} MovedAndReversed(b: Books, rs: Reservations, mid: map<int, Plan>, after: map<int, Plan>,
                                            lines: seq<Line>, os: seq<Outcome>, allocations: seq<Allocation>,
                                              today: int)
    requires |os| == |lines| && LinesFit(lines, rs) && PlansSane(b.plans) && Follow(allocations, lines)
    requires PlansMoved(b, rs, mid, lines, os, today, |lines|) && PlansReversed(rs, b.charges, mid, after, allocations)
    ensures after == b.plans <==> forall i :: 0 <= i < |lines| ==> LineWillBeRestored(b, rs, lines[i], os[i])
  {
    forall i | 0 <= i < |lines| && StayOf(lines[i]) in b.plans
      ensures after[StayOf(lines[i])] == b.plans[StayOf(lines[i])] <==> LineWillBeRestored(b, rs, lines[i], os[i])
    {
      assert LineOk(lines[i], rs);
      assert allocations[i].reservation in mid;
      LineRestored(b, rs, lines[i], os[i], today);
    }
    forall r | r in b.plans && NotAmong(lines, |lines|, r) ensures after[r] == b.plans[r] {
      forall i | 0 <= i < |allocations| ensures allocations[i].reservation != r {}
    }
    if forall i :: 0 <= i < |lines| ==> LineWillBeRestored(b, rs, lines[i], os[i]) {
      forall r | r in b.plans ensures after[r] == b.plans[r] {
        if !NotAmong(lines, |lines|, r) {
          var i :| 0 <= i < |lines| && StayOf(lines[i]) == r;
        }
      }
    }
  }

  /** Confirming a payment onto any number of stays and undoing it brings the instalment plans
      back if and only if every line's plan allows it. */
  lemma {:induction false} UndoRestoresSplitLedger(db: Db, pid: int, lines: seq<Line>, os: seq<Outcome>, today: int,
                                                   failed: seq<int>, m: Option<Match>)
    requires Inv(db) && |os| == |lines| && AllFresh(db.books.issued, os) && PlansSane(db.books.plans)
    requires pid in db.payments && !IsApplied(db.payments[pid].status)
    requires IsApplied(Confirm(db, pid, lines, os, today).payments[pid].status)
    ensures Undo(Confirm(db, pid, lines, os, today), pid, failed, m).books.plans == db.books.plans <==>
            forall i :: 0 <= i < |lines| ==> LineWillBeRestored(db.books, db.reservations, lines[i], os[i])
  {
    var applied := Confirm(db, pid, lines, os, today);
    UndoBooksOf(applied, pid, failed, m);
    ConfirmedPlans(db, pid, lines, os, today);
    var mid := applied.books.(charges := Without(applied.books.charges, ChargeIds(applied.payments[pid].allocations)));
    MovedAndReversed(db.books, db.reservations, mid.plans, UndoneBooks(applied, applied.payments[pid]).plans, lines, os,
                     applied.payments[pid].allocations, today);
  }

  lemma {:induction false} ConfirmedPlans(db: Db, pid: int, lines: seq<Line>, os: seq<Outcome>, today: int)
    requires Inv(db) && |os| == |lines| && AllFresh(db.books.issued, os)
    requires pid in db.payments && !IsApplied(db.payments[pid].status)
    requires IsApplied(Confirm(db, pid, lines, os, today).payments[pid].status)
    ensures var applied := Confirm(db, pid, lines, os, today);
            var p := applied.payments[pid];
            && LinesFit(lines, db.reservations) && Follow(p.allocations, lines)
            && PlansMoved(db.books, db.reservations, applied.books.plans, lines, os, today, |lines|)
            && PlansReversed(db.reservations, db.books.charges, applied.books.plans, UndoneBooks(applied, p).plans,
                             p.allocations)
  {
    var applied := Confirm(db, pid, lines, os, today);
    var p := applied.payments[pid];
    AppliedAreReached(db.books, db.reservations, pid, lines, os, today);
    LinesMoveLedger(db.books, db.reservations, pid, lines, os, today);
    ConfirmAddsItsCharges(db, pid, lines, os, today);
    ConfirmKeepsInv(db, pid, lines, os, today);
    assert RowOk(applied.books, p) && RowOk(db.books, db.payments[pid]);
    ReverseAllPlans(applied.books.(charges := db.books.charges), db.reservations, p.allocations);
  }

  /** The same for a payment the matcher applied. */
  lemma {:induction false} UndoRestoresLedger(db: Db, pid: int, force: bool, m: Option<Match>, o: Outcome, today: int,
                                              failed: seq<int>, m': Option<Match>)
    requires Inv(db) && pid in db.payments && Fresh(db.books.issued, o) && PlansSane(db.books.plans)
    requires MatchOk(m, db.payments[pid].amount, db.reservations) && !IsApplied(db.payments[pid].status)
    requires IsApplied(Reconcile(db, pid, true, force, m, o, today).payments[pid].status)
    ensures m.Some? && m.value.best.Some?
    ensures Undo(Reconcile(db, pid, true, force, m, o, today), pid, failed, m').books.plans == db.books.plans <==>
            LineWillBeRestored(db.books, db.reservations, Line(m.value.best, db.payments[pid].amount), o)
  {
    AutoApplication(db, pid, force, m, o, today);
    ReconcileAddsItsCharge(db, pid, m.value.best.value, o, today);
    UndoBooksOf(Reconcile(db, pid, true, force, m, o, today), pid, failed, m');
    LedgerAfterUndo(db, pid, m.value.best.value, o, today);
  }

  lemma {:induction false} LedgerAfterUndo(db: Db, pid: int, best: int, o: Outcome, today: int)
    requires Inv(db) && pid in db.payments && !IsApplied(db.payments[pid].status) && db.payments[pid].amount > 0
    requires best in db.reservations && PlansSane(db.books.plans) && Fresh(db.books.issued, o)
    requires Settle(db.books, db.reservations, pid, best, db.payments[pid].amount, o, today).result.Applied?
    ensures var p := db.payments[pid];
            var s := Settle(db.books, db.reservations, pid, best, p.amount, o, today);
            var row := AutoRow(p, best, s.result.chargeId);
            UndoneBooks(db.(payments := db.payments[pid := row], books := s.books), row).plans == db.books.plans
            <==> LineWillBeRestored(db.books, db.reservations, Line(Some(best), p.amount), o)
  {
    var p := db.payments[pid];
    assert RowOk(db.books, p);
    var s := Settle(db.books, db.reservations, pid, best, p.amount, o, today);
    var row := AutoRow(p, best, s.result.chargeId);
    assert row.allocations == [Allocation(best, p.amount, s.result.chargeId)];
    ReconcileAddsItsCharge(db, pid, best, o, today);
    SettlePlans(db.books, db.reservations, pid, best, p.amount, o, today);
    var b := s.books.(charges := db.books.charges);
    ReverseOne(b, db.reservations, row.allocations[0]);
    OnePlanRestored(db.books, db.reservations, s.books.plans, RecordReversed(b, db.reservations, best, p.amount).plans,
                    best, p.amount, o, today);
  }

  lemma {:induction false} ReverseOne(b: Books, rs: Reservations, a: Allocation)
    ensures ReverseAll(b, rs, [a]) == RecordReversed(b, rs, a.reservation, a.amount)
  {
    assert [a][..0] == [];
  }

  lemma {:induction false} OnePlanRestored(b: Books, rs: Reservations, mid: map<int, Plan>, after: map<int, Plan>,
                                           r: int, amount: int, o: Outcome, today: int)
    requires amount > 0 && PlansSane(b.plans)
    requires mid == if r in b.plans then b.plans[r := PlanAfter(b.plans[r], rs, b.charges, r, amount, o, today)]
             else b.plans
    requires after == if r in mid then mid[r := Reverse(mid[r], amount, OpenBalance(rs, b.charges, r))] else mid
    ensures after == b.plans <==> LineWillBeRestored(b, rs, Line(Some(r), amount), o)
  {
    if r in b.plans {
      LineRestored(b, rs, Line(Some(r), amount), o, today);
      assert forall q :: q in b.plans && q != r ==> after[q] == b.plans[q];
    }
  }
}
