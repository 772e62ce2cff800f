/** The instalment ledger of payment-plan.util.ts, in integer cents: how a payment moves the
    amount and date due next, and how an undo moves them back. */
module PaymentPlan {
  import opened Wrappers
  import opened DueDates

  /** One reservationPaymentPlan row; dueAt is a day number. */
  datatype Plan = Plan(
    enabled: bool,
    instalment: int,
    frequency: Frequency,
    interval: Option<int>,
    nextDue: int,
    dueAt: Option<int>,
    paid: int)

  const HALF_EURO := 50
  const ONE_EURO := 100

  /** |a - b| is at most one euro or half a percent of b. */
  predicate AmountsClose(a: int, b: int) {
    Abs(a - b) <= ONE_EURO || 200 * Abs(a - b) <= Abs(b)
  }

  predicate Covers(amount: int, due: int) {
    AmountsClose(amount, due) || amount + HALF_EURO >= due
  }

  predicate LooksLikeInstalment(plan: Plan, amount: int) {
    AmountsClose(amount, plan.instalment) || AmountsClose(amount, plan.nextDue)
    || amount + HALF_EURO >= plan.instalment
  }

  /** The ledger after a payment, given the booking's open balance when its total is known. */
  ghost function Apply(plan: Plan, amount: int, remaining: Option<int>, today: int): Plan {
    var due := if Covers(amount, plan.nextDue) then plan.instalment
               else if 0 < amount < plan.nextDue then plan.nextDue - amount
               else plan.nextDue;
    var dueAt := if Covers(amount, plan.nextDue)
                 then Some(Advance(plan.dueAt.GetOr(today), plan.frequency, plan.interval))
                 else plan.dueAt;
    var capped := if remaining.None? then due
                  else if remaining.value <= HALF_EURO then 0
                  else Min(due, remaining.value);
    plan.(paid := plan.paid + amount, nextDue := capped, dueAt := dueAt)
  }

  /** The ledger after a payment is undone. */
  ghost function Reverse(plan: Plan, amount: int, remaining: Option<int>): Plan {
    var full := LooksLikeInstalment(plan, amount);
    var due := if full then plan.instalment else if amount > 0 then plan.nextDue + amount else plan.nextDue;
    var dueAt := if full && plan.dueAt.Some?
                 then Some(Rewind(plan.dueAt.value, plan.frequency, plan.interval))
                 else plan.dueAt;
    var capped := if remaining.Some? && remaining.value > 0
                  then Min(Max(due, amount), remaining.value) else due;
    plan.(paid := Max(0, plan.paid - amount), nextDue := capped, dueAt := dueAt)
  }

  method ApplyPaymentToPlan(plan: Plan, amount: int, remainingBalance: Option<int>, today: UtcDate)
    returns (next: Plan, advanced: bool)
    modifies today
    ensures next == Apply(plan, amount, remainingBalance, old(today.day))
    ensures advanced <==> Covers(amount, plan.nextDue)
    ensures today.day == old(today.day) && today.ms == 0
  {
    today.SetUTCMidnight();
    var nextDueAmount := plan.nextDue;
    var nextDueAt := plan.dueAt;
    advanced := false;
    if AmountsClose(amount, plan.nextDue) || amount + HALF_EURO >= plan.nextDue {
      advanced := true;
      var base := today;
      if plan.dueAt.Some? {
        base := new UtcDate.Of(plan.dueAt.value, 0);
      }
      var date := AdvanceDueDate(base, plan.frequency, plan.interval);
      nextDueAt := Some(date.day);
      nextDueAmount := plan.instalment;
    } else if amount > 0 && amount < plan.nextDue {
      nextDueAmount := Max(0, plan.nextDue - amount);
    }
    if remainingBalance.Some? {
      var remaining := Max(0, remainingBalance.value);
      if remaining <= HALF_EURO {
        nextDueAmount := 0;
      } else {
        nextDueAmount := Min(nextDueAmount, remaining);
      }
    }
    next := plan.(paid := plan.paid + amount, nextDue := nextDueAmount, dueAt := nextDueAt);
  }

  method ReversePaymentOnPlan(plan: Plan, amount: int, remainingBalance: Option<int>) returns (next: Plan)
    ensures next == Reverse(plan, amount, remainingBalance)
  {
    var nextDueAmount := plan.nextDue;
    var nextDueAt := plan.dueAt;
    if AmountsClose(amount, plan.instalment) || AmountsClose(amount, plan.nextDue)
       || amount + HALF_EURO >= plan.instalment {
      if plan.dueAt.Some? {
        var from := new UtcDate.Of(plan.dueAt.value, 0);
        var date := RewindDueDate(from, plan.frequency, plan.interval);
        nextDueAt := Some(date.day);
      }
      nextDueAmount := plan.instalment;
    } else if amount > 0 {
      nextDueAmount := plan.nextDue + amount;
    }
    if remainingBalance.Some? {
      var remaining := Max(0, remainingBalance.value);
      if remaining > 0 {
        nextDueAmount := Min(Max(nextDueAmount, amount), remaining);
      }
    }
    next := plan.(paid := Max(0, plan.paid - amount), nextDue := nextDueAmount, dueAt := nextDueAt);
  }

  // ----- The schedule never runs ahead of the money

  /** A payment toward a plan whose booking total is unknown, and the day it is recorded. */
  datatype Receipt = Receipt(amount: int, today: int)

  ghost function AfterReceipts(plan: Plan, rs: seq<Receipt>): Plan {
    if rs == [] then plan
    else Apply(AfterReceipts(plan, rs[..|rs| - 1]), rs[|rs| - 1].amount, None, rs[|rs| - 1].today)
  }

  ghost function Advances(plan: Plan, rs: seq<Receipt>): nat {
    if rs == [] then 0
    else Advances(plan, rs[..|rs| - 1]) +
         if Covers(rs[|rs| - 1].amount, AfterReceipts(plan, rs[..|rs| - 1]).nextDue) then 1 else 0
  }

  function Total(rs: seq<Receipt>): int {
    if rs == [] then 0 else Total(rs[..|rs| - 1]) + rs[|rs| - 1].amount
  }

  /** 200 times the instalment less the tolerance max(1 euro, 0.5 %). */
  function LeastPerAdvance(instalment: int): int {
    200 * instalment - Max(200 * ONE_EURO, instalment)
  }

  /** For every sequence of positive payments with k advances of the schedule, the money
      received plus the amount now due exceeds the amount first due by at least k times the
      instalment less its tolerance. Equalities for the rest of the ledger come with it. */
  lemma {:induction false} NeverAheadOfTheMoney(plan: Plan, rs: seq<Receipt>)
    requires 0 <= plan.nextDue <= plan.instalment
    requires forall i :: 0 <= i < |rs| ==> rs[i].amount > 0
    ensures var p := AfterReceipts(plan, rs);
            && p == plan.(paid := p.paid, nextDue := p.nextDue, dueAt := p.dueAt)
            && 0 <= p.nextDue <= plan.instalment
            && p.paid == plan.paid + Total(rs)
            && 200 * (Total(rs) + p.nextDue - plan.nextDue) >= Advances(plan, rs) * LeastPerAdvance(plan.instalment)
  {
    if rs != [] {
      var init := rs[..|rs| - 1];
      NeverAheadOfTheMoney(plan, init);
      var before := AfterReceipts(plan, init);
      OneReceipt(before, rs[|rs| - 1]);
      var k, least := Advances(plan, init), LeastPerAdvance(plan.instalment);
      OneMore(k, least);
      assert Advances(plan, rs) == if Covers(rs[|rs| - 1].amount, before.nextDue) then k + 1 else k;
    }
  }

  lemma OneMore(k: int, x: int)
    ensures (k + 1) * x == k * x + x
  {
  }

  lemma OneReceipt(plan: Plan, r: Receipt)
    requires 0 <= plan.nextDue <= plan.instalment && r.amount > 0
    ensures var p := Apply(plan, r.amount, None, r.today);
            && 0 <= p.nextDue <= plan.instalment
            && 200 * (r.amount + p.nextDue - plan.nextDue) >=
               (if Covers(r.amount, plan.nextDue) then LeastPerAdvance(plan.instalment) else 0)
  {
  }

  /** The date due next is the first due date advanced once per covered instalment. */
  lemma {:induction false} DueDateCountsAdvances(plan: Plan, rs: seq<Receipt>)
    requires plan.dueAt.Some?
    ensures var p := AfterReceipts(plan, rs);
            p.frequency == plan.frequency && p.interval == plan.interval
            && p.dueAt == Some(AdvanceTimes(plan.dueAt.value, plan.frequency, plan.interval, Advances(plan, rs)))
  {
    if rs != [] {
      DueDateCountsAdvances(plan, rs[..|rs| - 1]);
      OneDueDate(AfterReceipts(plan, rs[..|rs| - 1]), rs[|rs| - 1]);
    }
  }

  lemma OneDueDate(plan: Plan, r: Receipt)
    requires plan.dueAt.Some?
    ensures var p := Apply(plan, r.amount, None, r.today);
            && p.frequency == plan.frequency && p.interval == plan.interval && p.dueAt.Some?
            && p.dueAt.value == if Covers(r.amount, plan.nextDue)
                                then Advance(plan.dueAt.value, plan.frequency, plan.interval)
                                else plan.dueAt.value
  {
  }

  // ----- Undo

  /** What a caller can check before applying a payment: an undo will restore the plan. A
      covering payment must find a whole instalment due on a known date that also exists in
      the next period; a partial one must not be mistaken for an instalment when it is undone. */
  ghost predicate UndoWillRestore(plan: Plan, amount: int) {
    if Covers(amount, plan.nextDue) then
      plan.nextDue == plan.instalment && plan.dueAt.Some? && FitsNextPeriod(plan.dueAt.value, plan.frequency)
    else if LooksLikeInstalment(plan.(nextDue := plan.nextDue - amount), amount) then
      plan.nextDue == plan.instalment && plan.dueAt.None?
    else true
  }

  /** Exactly when undo is the inverse of apply, for every plan and every positive payment. */
  lemma UndoInvertsApply(plan: Plan, amount: int, today: int)
    requires amount > 0 && plan.paid >= 0 && plan.instalment > 0 && plan.nextDue >= 0
    ensures Reverse(Apply(plan, amount, None, today), amount, None) == plan <==> UndoWillRestore(plan, amount)
  {
    if Covers(amount, plan.nextDue) {
      UndoOfCovering(plan, amount, today);
    } else if plan.dueAt.Some? {
      RewindMovesBack(plan.dueAt.value, plan.frequency, plan.interval);
    }
  }

  lemma UndoOfCovering(plan: Plan, amount: int, today: int)
    requires amount > 0 && plan.paid >= 0 && plan.instalment > 0 && plan.nextDue >= 0
    requires Covers(amount, plan.nextDue)
    ensures Reverse(Apply(plan, amount, None, today), amount, None) == plan <==> UndoWillRestore(plan, amount)
  {
    var after := Apply(plan, amount, None, today);
    if plan.dueAt.Some? {
      RewindUndoesAdvance(plan.dueAt.value, plan.frequency, plan.interval);
    }
    assert after.nextDue == plan.instalment && after.dueAt.Some?;
    assert plan.nextDue == plan.instalment ==> LooksLikeInstalment(after, amount);
  }

  /** A whole instalment, as an undo of the amount cuts it to the open balance. */
  function WholeInstalment(plan: Plan, amount: int, balance: int): int {
    if balance > 0 then Min(Max(plan.instalment, amount), balance) else plan.instalment
  }

  /** The amount due after the payment, cut to what is then left of the balance. */
  function Residue(plan: Plan, amount: int, left: int): int {
    if left <= HALF_EURO then 0
    else Min(if Covers(amount, plan.nextDue) then plan.instalment else plan.nextDue - amount, left)
  }

  /** The same with known balances: left when the payment is recorded, balance when it is undone.
      The undo must recognise a covering payment, whole instalments count as cut to the balance,
      and after a partial payment more than half a euro must stay open. */
  ghost predicate UndoWillRestoreAt(plan: Plan, amount: int, left: int, balance: int) {
    var recognised := LooksLikeInstalment(plan.(nextDue := Residue(plan, amount, left)), amount);
    if Covers(amount, plan.nextDue) then
      recognised && plan.nextDue == WholeInstalment(plan, amount, balance)
      && plan.dueAt.Some? && FitsNextPeriod(plan.dueAt.value, plan.frequency)
    else if recognised then
      plan.nextDue == WholeInstalment(plan, amount, balance) && plan.dueAt.None?
    else
      left > HALF_EURO && plan.nextDue <= balance
  }

  /** With known balances undo is the inverse of apply under exactly that condition. The balance
      when it is undone is at most the payment above what was left, as it is whether or not the
      payment's charge counts toward it. */
  lemma UndoInvertsApplyWithBalance(plan: Plan, amount: int, left: int, balance: int, today: int)
    requires amount > 0 && plan.paid >= 0 && plan.instalment > 0 && plan.nextDue >= 0
    requires 0 <= left <= balance <= left + amount
    ensures Reverse(Apply(plan, amount, Some(left), today), amount, Some(balance)) == plan <==>
            UndoWillRestoreAt(plan, amount, left, balance)
  {
    var after := Apply(plan, amount, Some(left), today);
    if plan.dueAt.Some? {
      RewindUndoesAdvance(plan.dueAt.value, plan.frequency, plan.interval);
      RewindMovesBack(plan.dueAt.value, plan.frequency, plan.interval);
      AdvanceMovesForward(plan.dueAt.value, plan.frequency, plan.interval);
    }
    assert Covers(amount, plan.nextDue) || amount < plan.nextDue;
    assert after.nextDue == Residue(plan, amount, left);
  }

  /** Half an instalment paid and undone loses a period: the residue looks like the payment. */
  lemma HalfInstalmentIsNotRestored()
    ensures var plan := Plan(true, 55000, Weekly, None, 55000, Some(20000), 0);
            Reverse(Apply(plan, 27500, None, 0), 27500, None) == plan.(dueAt := Some(19993))
  {
  }

  // ----- Tolerances

  /** Two amounts are close if they differ by at most a euro or half a percent of the second,
      whichever is more. */
  lemma CloseWithinTolerance(a: int, b: int)
    ensures var tolerance := if Abs(b) as real * 0.005 > 100.0 then Abs(b) as real * 0.005 else 100.0;
            AmountsClose(a, b) <==> -tolerance <= (a - b) as real <= tolerance
  {
  }

  /** A payment advances the schedule if and only if it is close to what is due, or at least what
      is due less half a euro; the due date then moves by one period from its own day, or from
      today if there was none. Any other payment leaves the date. */
  lemma AdvancesExactlyWhen(plan: Plan, amount: int, remaining: Option<int>, today: int)
    ensures var p := Apply(plan, amount, remaining, today);
            var base := if plan.dueAt.Some? then plan.dueAt.value else today;
            && (AmountsClose(amount, plan.nextDue) || amount >= plan.nextDue - 50 ==>
                  p.dueAt == Some(Advance(base, plan.frequency, plan.interval)))
            && (!AmountsClose(amount, plan.nextDue) && amount < plan.nextDue - 50 ==> p.dueAt == plan.dueAt)
            && p.paid == plan.paid + amount
  {
  }

  /** What is due after a payment: a whole instalment or what the payment left of it, but nothing
      once no more than half a euro is open, and never more than is open. */
  lemma DueAfterPayment(plan: Plan, amount: int, remaining: Option<int>, today: int)
    requires amount > 0 && plan.nextDue >= 0
    ensures var p := Apply(plan, amount, remaining, today);
            var whole := if AmountsClose(amount, plan.nextDue) || amount >= plan.nextDue - 50
                         then plan.instalment else plan.nextDue - amount;
            && (remaining.None? ==> p.nextDue == whole)
            && (remaining.Some? && remaining.value <= 50 ==> p.nextDue == 0)
            && (remaining.Some? && remaining.value > 50 ==>
                  p.nextDue <= whole && p.nextDue <= remaining.value
                    && (p.nextDue == whole || p.nextDue == remaining.value))
  {
  }

  /** An undo moves the date back by a period if and only if the amount is close to the instalment
      or to what is due, or at least the instalment less half a euro. What is due then is a whole
      instalment, otherwise the amount is added to it; with a balance open it is at least the
      amount and at most the balance. The paid total never falls below zero. */
  lemma ReversedExactlyWhen(plan: Plan, amount: int, remaining: Option<int>)
    requires amount > 0
    ensures var p := Reverse(plan, amount, remaining);
            var whole := AmountsClose(amount, plan.instalment) || AmountsClose(amount, plan.nextDue)
                         || amount >= plan.instalment - 50;
            var due := if whole then plan.instalment else plan.nextDue + amount;
            && (whole && plan.dueAt.Some? ==> p.dueAt == Some(Rewind(plan.dueAt.value, plan.frequency, plan.interval)))
            && (!whole || plan.dueAt.None? ==> p.dueAt == plan.dueAt)
            && (remaining.GetOr(0) <= 0 ==> p.nextDue == due)
            && (remaining.GetOr(0) > 0 ==>
                  && p.nextDue <= remaining.value && (p.nextDue < amount ==> p.nextDue == remaining.value)
                  && (p.nextDue == due || p.nextDue == remaining.value || (p.nextDue == amount && due < amount))
                  && (p.nextDue == remaining.value ==> due >= remaining.value || amount >= remaining.value))
            && (if plan.paid >= amount then p.paid == plan.paid - amount else p.paid == 0)
  {
  }
}
