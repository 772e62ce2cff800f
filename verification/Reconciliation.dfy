/** PaymentReconciliationService as a state machine: what each operation does to the payment
    rows and the books (payment-reconciliation.service.ts). Remote answers, match results and
    dates are inputs of the operations. */
module Reconciliation {
  import opened Wrappers
  import opened PaymentBooks

  datatype Status = Received | PendingReview | AutoApplied | ManuallyApplied | Skipped

  datatype Decision = Unambiguous | Ambiguous | NoMatch | BulkPayment | Refund | PartialUnclear | PlatformPayout

  /** The matcher's verdict; best is the reservation it ranks first. */
  datatype Match = Match(decision: Decision, best: Option<int>)

  /** The payment's error column: "Hostaway apply failed: ..." or "Undo incomplete ...". */
  datatype ErrorNote = NoError | ApplyFailed(error: RemoteError) | UndoIncomplete(charges: seq<int>)

  datatype Allocation = Allocation(reservation: int, amount: int, chargeId: Option<int>)

  /** An externalPayment row with its allocations. */
  datatype Payment = Payment(
    amount: int,
    status: Status,
    allocations: seq<Allocation>,
    matched: Option<int>,
    chargeId: Option<int>,
    error: ErrorNote)

  /** Payments are keyed by (source, externalId), which is unique. */
  datatype Db = Db(payments: map<int, Payment>, books: Books, reservations: Reservations)

  const ONE_CENT := 1

  predicate IsApplied(s: Status) {
    s == AutoApplied || s == ManuallyApplied
  }

  predicate SkipsReview(d: Decision) {
    d == BulkPayment || d == Refund || d == PlatformPayout
  }

  /** A recorded Hostaway failure that keeps unforced matching from trying again. */
  predicate PriorApplyFailed(p: Payment) {
    p.error.ApplyFailed? && !p.error.error.archived
  }

  predicate MatchedOffline(rs: Reservations, m: Match) {
    m.best.Some? && Offline(rs, m.best.value)
  }

  predicate TriesAutoApply(p: Payment, rs: Reservations, m: Match, allow: bool, force: bool) {
    allow && m.decision == Unambiguous && m.best.Some?
    && (force || !PriorApplyFailed(p) || MatchedOffline(rs, m))
  }

  function Bound(m: Match): Option<int> {
    if m.decision == Unambiguous then m.best else None
  }

  // ----- reconcile

  /** Payment row after an automatic application. */
  function AutoRow(p: Payment, reservation: int, chargeId: Option<int>): Payment {
    p.(status := AutoApplied, matched := Some(reservation), chargeId := chargeId, error := NoError,
       allocations := p.allocations + [Allocation(reservation, p.amount, chargeId)])
  }

  function FailedRow(p: Payment, reservation: int, e: RemoteError): Payment {
    p.(status := PendingReview, matched := Some(reservation), error := ApplyFailed(e))
  }

  /** Payment row when no application is tried. */
  function UntriedRow(p: Payment, m: Match): Payment {
    if SkipsReview(m.decision)
    then p.(status := Skipped, matched := Bound(m), error := NoError)
    else p.(status := PendingReview, matched := Bound(m))
  }

  /** One reconcile of a known payment; no match result means the matcher threw. */
  ghost function Reconcile(db: Db, pid: int, allow: bool, force: bool, m: Option<Match>, o: Outcome, today: int): Db
    requires pid in db.payments
  {
    var p := db.payments[pid];
    if IsApplied(p.status) || m.None? then db
    else if TriesAutoApply(p, db.reservations, m.value, allow, force) then
      var best := m.value.best.value;
      var s := Settle(db.books, db.reservations, pid, best, p.amount, o, today);
      var row := match s.result
                 case Applied(id) => AutoRow(p, best, id)
                 case Failed(e) => FailedRow(p, best, e);
      db.(payments := db.payments[pid := row], books := s.books)
    else
      db.(payments := db.payments[pid := UntriedRow(p, m.value)])
  }

  function NewPayment(amount: int): Payment {
    Payment(amount, Received, [], None, None, NoError)
  }

  /** A delivery of a payment: the first one creates it and reconciles, later ones do nothing. */
  ghost function Ingest(db: Db, pid: int, amount: int, m: Option<Match>, o: Outcome, today: int): Db {
    if pid in db.payments then db
    else Reconcile(db.(payments := db.payments[pid := NewPayment(amount)]), pid, true, false, m, o, today)
  }

  // ----- confirmReview

  /** A line of a confirmation: where staff send how much. */
  datatype Line = Line(reservation: Option<int>, amount: int)

  function HasReservation(l: Line): bool {
    l.reservation.Some? && l.reservation.value != 0
  }

  /** The lines to apply: those chosen by staff, or the whole payment on the chosen or matched stay. */
  function ChosenLines(p: Payment, chosen: Option<int>, lines: seq<Line>): seq<Line> {
    var ls := if lines != [] then lines else [Line(chosen, p.amount)];
    if |ls| == 1 && !HasReservation(ls[0]) then [ls[0].(reservation := p.matched)] else ls
  }

  function LineSum(lines: seq<Line>): int {
    if lines == [] then 0 else LineSum(lines[..|lines| - 1]) + lines[|lines| - 1].amount
  }

  ghost predicate LineOk(l: Line, rs: Reservations) {
    l.reservation.Some? && l.reservation.value > 0 && l.amount >= ONE_CENT
    && l.reservation.value in rs && !rs[l.reservation.value].unpayableInquiry
  }

  ghost predicate DistinctStays(lines: seq<Line>) {
    forall i, j :: 0 <= i < j < |lines| ==> lines[i].reservation != lines[j].reservation
  }

  /** Everything confirmReview checks before it applies the first line. */
  ghost predicate LinesOk(p: Payment, lines: seq<Line>, rs: Reservations) {
    && (forall i :: 0 <= i < |lines| ==> LineOk(lines[i], rs))
    && DistinctStays(lines)
    && Abs(LineSum(lines) - p.amount) <= ONE_CENT
  }

  /** Books and allocations after applying lines in order, up to the first failure. */
  datatype Split = Split(books: Books, applied: seq<Allocation>, failed: bool)

  ghost function ApplyLines(b: Books, rs: Reservations, pid: int, lines: seq<Line>, os: seq<Outcome>, today: int): Split
    requires |os| == |lines|
  {
    if lines == [] then Split(b, [], false)
    else
      var n := |lines| - 1;
      var before := ApplyLines(b, rs, pid, lines[..n], os[..n], today);
      if before.failed then before
      else
        var r := lines[n].reservation.GetOr(0);
        var s := Settle(before.books, rs, pid, r, lines[n].amount, os[n], today);
        if s.result.Failed? then Split(s.books, before.applied, true)
        else Split(s.books, before.applied + [Allocation(r, lines[n].amount, s.result.chargeId)], false)
  }

  ghost function ChargeIds(allocations: seq<Allocation>): set<int> {
    set i | 0 <= i < |allocations| && allocations[i].chargeId.Some? :: allocations[i].chargeId.value
  }

  /** Rollback of a failed split: its charge rows go, its ledger entries stay. */
  ghost function RolledBack(s: Split): Books {
    s.books.(charges := Without(s.books.charges, ChargeIds(s.applied)))
  }

  function ManualRow(p: Payment, applied: seq<Allocation>): Payment
    requires applied != []
  {
    p.(status := ManuallyApplied, matched := Some(applied[0].reservation), chargeId := applied[0].chargeId,
       error := NoError, allocations := p.allocations + applied)
  }

  /** Whether a confirmation gets as far as applying its lines. */
  ghost predicate Confirmable(db: Db, pid: int, lines: seq<Line>) {
    pid in db.payments && db.payments[pid].status == PendingReview && LinesOk(db.payments[pid], lines, db.reservations)
    && lines != []
  }

  ghost function Confirm(db: Db, pid: int, lines: seq<Line>, os: seq<Outcome>, today: int): Db
    requires |os| == |lines|
  {
    if !Confirmable(db, pid, lines) then db
    else
      var s := ApplyLines(db.books, db.reservations, pid, lines, os, today);
      if s.failed || s.applied == [] then db.(books := RolledBack(s))
      else db.(payments := db.payments[pid := ManualRow(db.payments[pid], s.applied)], books := s.books)
  }

  // ----- skipReview

  /** As the code has it: any payment can be skipped, applied or not. */
  function Skip(db: Db, pid: int): Db {
    if pid !in db.payments then db
    else db.(payments := db.payments[pid := db.payments[pid].(status := Skipped)])
  }

  // ----- undoApplication

  /** The charges an undo tries to cancel. */
  ghost function UndoTargets(p: Payment): set<int> {
    if p.allocations != [] then ChargeIds(p.allocations)
    else if p.chargeId.Some? && p.matched.Some? then {p.chargeId.value} else {}
  }

  /** Ledger entries reversed one by one, after the charge rows are gone. */
  ghost function ReverseAll(b: Books, rs: Reservations, allocations: seq<Allocation>): Books {
    if allocations == [] then b
    else
      var last := allocations[|allocations| - 1];
      RecordReversed(ReverseAll(b, rs, allocations[..|allocations| - 1]), rs, last.reservation, last.amount)
  }

  ghost function UndoneBooks(db: Db, p: Payment): Books {
    var b := db.books.(charges := Without(db.books.charges, UndoTargets(p)));
    if p.allocations != [] then ReverseAll(b, db.reservations, p.allocations)
    else if p.matched.Some? then RecordReversed(b, db.reservations, p.matched.value, p.amount) else b
  }

  function UndoneRow(p: Payment, failed: seq<int>): Payment {
    p.(status := PendingReview, matched := None, chargeId := None, allocations := [],
       error := if failed == [] then NoError else UndoIncomplete(failed))
  }

  /** Undo of an applied payment; failed are the charges Hostaway would not cancel. */
  ghost function Undo(db: Db, pid: int, failed: seq<int>, m: Option<Match>): Db {
    if pid !in db.payments || !IsApplied(db.payments[pid].status) then db
    else
      var p := db.payments[pid];
      var undone := db.(payments := db.payments[pid := UndoneRow(p, failed)], books := UndoneBooks(db, p));
      Reconcile(undone, pid, false, false, m, Refused(RemoteError("", false)), 0)
  }
}
