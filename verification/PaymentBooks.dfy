/** The tables money is recorded in and what one line of a payment does to them:
    payment-apply.service.ts and payment-plan.service.ts as functions of the tables. */
module PaymentBooks {
  import opened Wrappers
  import opened PaymentPlan

  /** A reservation row, as far as payments look at it; amounts are in cents. */
  datatype Reservation = Reservation(offline: bool, total: Option<int>, unpayableInquiry: bool)

  type Reservations = map<int, Reservation>

  /** A notifiedGuestCharge row. */
  datatype Charge = Charge(id: int, reservation: int, amount: int)

  /** An API error; archived tells whether its text looks like a rejected archived listing. */
  datatype RemoteError = RemoteError(text: string, archived: bool)

  /** What Hostaway answers to a charge, if it is called. */
  datatype Outcome = Posted(id: int) | Refused(error: RemoteError)

  /** One call of the Hostaway charge API on behalf of a payment, and the answer to it. */
  datatype Attempt = Attempt(payment: int, reservation: int, answer: Outcome)

  /** The tables, the charge ids Hostaway has handed out, those whose row was written because the
      inbox check found them paid in Hostaway, and the calls made so far. */
  datatype Books = Books(charges: seq<Charge>, plans: map<int, Plan>, issued: set<int>, noticed: set<int>,
                         attempts: seq<Attempt>)

  datatype Result = Applied(chargeId: Option<int>) | Failed(error: RemoteError)

  /** The positive amounts charged to a reservation. */
  function Paid(charges: seq<Charge>, reservation: int): int {
    if charges == [] then 0
    else
      var last := charges[|charges| - 1];
      Paid(charges[..|charges| - 1], reservation) +
      if last.reservation == reservation && last.amount > 0 then last.amount else 0
  }

  function Counted(c: Charge, reservation: int): int {
    if c.reservation == reservation && c.amount > 0 then c.amount else 0
  }

  lemma {:induction false} PaidSnoc(charges: seq<Charge>, c: Charge, reservation: int)
    ensures Paid(charges + [c], reservation) == Paid(charges, reservation) + Counted(c, reservation)
  {
    assert (charges + [c])[..|charges|] == charges;
  }

  /** Without a positive charge to the stay nothing is paid. */
  lemma {:induction false} PaidNothing(charges: seq<Charge>, reservation: int)
    requires forall c :: c in charges ==> Counted(c, reservation) == 0
    ensures Paid(charges, reservation) == 0
  {
    if charges != [] {
      var init, last := charges[..|charges| - 1], charges[|charges| - 1];
      assert last in charges && Counted(last, reservation) == 0;
      PaidNothing(init, reservation);
      PaidSnoc(init, last, reservation);
      assert charges == init + [last];
    }
  }

  /** What is still open on a reservation, when its total is known. */
  function OpenBalance(rs: Reservations, charges: seq<Charge>, reservation: int): Option<int> {
    if reservation in rs && rs[reservation].total.Some?
    then Some(Max(0, rs[reservation].total.value - Paid(charges, reservation)))
    else None
  }

  predicate Offline(rs: Reservations, reservation: int) {
    reservation in rs && rs[reservation].offline
  }

  ghost function RecordApplied(b: Books, rs: Reservations, reservation: int, amount: int, today: int): Books {
    if amount <= 0 || reservation !in b.plans || !b.plans[reservation].enabled then b
    else
      var next := Apply(b.plans[reservation], amount, OpenBalance(rs, b.charges, reservation), today);
      b.(plans := b.plans[reservation := next])
  }

  /** Unlike RecordApplied this does not ask whether the plan is enabled. */
  ghost function RecordReversed(b: Books, rs: Reservations, reservation: int, amount: int): Books {
    if amount <= 0 || reservation !in b.plans then b
    else
      var next := Reverse(b.plans[reservation], amount, OpenBalance(rs, b.charges, reservation));
      b.(plans := b.plans[reservation := next])
  }

  /** Amounts of zero or less, and stays without a plan, leave the ledger alone. */
  lemma {:induction false} NothingToRecord(b: Books, rs: Reservations, reservation: int, amount: int, today: int)
    requires amount <= 0 || reservation !in b.plans
    ensures RecordApplied(b, rs, reservation, amount, today) == b && RecordReversed(b, rs, reservation, amount) == b
  {
  }

  datatype Settlement = Settlement(books: Books, result: Result)

  function Called(b: Books, payment: int, reservation: int, o: Outcome): Books {
    b.(attempts := b.attempts + [Attempt(payment, reservation, o)])
  }

  /** The row for a charge is only written when the reservation is known locally. */
  function Charged(b: Books, rs: Reservations, reservation: int, amount: int, id: int): Books {
    b.(issued := b.issued + {id},
       charges := if reservation in rs then b.charges + [Charge(id, reservation, amount)] else b.charges)
  }

  /** applyToReservation: an offline listing is settled locally, any other is charged. */
  ghost function ApplyToReservation(b: Books, rs: Reservations, payment: int, reservation: int, amount: int,
                                    o: Outcome, today: int)
    : Settlement
  {
    if Offline(rs, reservation) then
      Settlement(RecordApplied(b, rs, reservation, amount, today), Applied(None))
    else
      var called := Called(b, payment, reservation, o);
      match o
      case Posted(id) =>
        Settlement(RecordApplied(Charged(called, rs, reservation, amount, id), rs, reservation, amount, today),
                   Applied(Some(id)))
      case Refused(e) =>
        Settlement(called, Failed(e))
  }

  /** As its callers use it: a refusal that looks like an archived listing is recorded locally. */
  ghost function Settle(b: Books, rs: Reservations, payment: int, reservation: int, amount: int, o: Outcome, today: int)
    : Settlement
  {
    var s := ApplyToReservation(b, rs, payment, reservation, amount, o, today);
    if s.result.Failed? && (Offline(rs, reservation) || s.result.error.archived)
    then Settlement(RecordApplied(s.books, rs, reservation, amount, today), Applied(None))
    else s
  }

  /** Hostaway never hands out an id twice. */
  predicate Fresh(issued: set<int>, o: Outcome) {
    o.Posted? ==> o.id > 0 && o.id !in issued
  }

  // ----- Removing charge rows

  function Without(charges: seq<Charge>, ids: set<int>): seq<Charge> {
    if charges == [] then []
    else
      var last := charges[|charges| - 1];
      Without(charges[..|charges| - 1], ids) + if last.id in ids then [] else [last]
  }

  lemma {:induction false} WithoutMembers(charges: seq<Charge>, ids: set<int>, c: Charge)
    ensures c in Without(charges, ids) <==> c in charges && c.id !in ids
  {
    if charges != [] {
      WithoutMembers(charges[..|charges| - 1], ids, c);
      assert charges == charges[..|charges| - 1] + [charges[|charges| - 1]];
    }
  }

  lemma {:induction false} WithoutNone(charges: seq<Charge>, ids: set<int>)
    requires forall c :: c in charges ==> c.id !in ids
    ensures Without(charges, ids) == charges
  {
    if charges != [] {
      var init, last := charges[..|charges| - 1], charges[|charges| - 1];
      assert charges == init + [last];
      assert last in charges;
      WithoutNone(init, ids);
    }
  }

  lemma {:induction false} WithoutTwice(charges: seq<Charge>, s: set<int>, t: set<int>)
    ensures Without(Without(charges, s), t) == Without(charges, s + t)
  {
    if charges != [] {
      var init, last := charges[..|charges| - 1], charges[|charges| - 1];
      WithoutTwice(init, s, t);
      WithoutAppend(Without(init, s), last, t);
      assert Without(init, s) + [] == Without(init, s);
    }
  }

  lemma {:induction false} WithoutAppend(charges: seq<Charge>, c: Charge, ids: set<int>)
    ensures Without(charges + [c], ids) == Without(charges, ids) + if c.id in ids then [] else [c]
  {
    assert (charges + [c])[..|charges|] == charges;
  }

  // ----- Consistency of the books

  /** No two charge rows have the same id: the column is unique. */
  ghost predicate DistinctIds(charges: seq<Charge>) {
    forall i, j :: 0 <= i < j < |charges| ==> charges[i].id != charges[j].id
  }

  /** Every charge row has an id Hostaway handed out, and no two rows share one. */
  ghost predicate BooksOk(b: Books) {
    && (forall c :: c in b.charges ==> c.id in b.issued)
    && b.noticed <= b.issued
    && DistinctIds(b.charges)
  }

  lemma {:induction false} OneRowPerId(charges: seq<Charge>, c: Charge, d: Charge)
    requires DistinctIds(charges) && c in charges && d in charges && c.id == d.id
    ensures c == d
  {
    var i :| 0 <= i < |charges| && charges[i] == c;
    var j :| 0 <= j < |charges| && charges[j] == d;
  }

  lemma {:induction false} DistinctSnoc(charges: seq<Charge>, c: Charge)
    requires DistinctIds(charges) && forall d :: d in charges ==> d.id != c.id
    ensures DistinctIds(charges + [c])
  {
  }

  lemma {:induction false} WithoutDistinct(charges: seq<Charge>, ids: set<int>)
    requires DistinctIds(charges)
    ensures DistinctIds(Without(charges, ids))
  {
    if charges != [] {
      var init, last := charges[..|charges| - 1], charges[|charges| - 1];
      WithoutDistinct(init, ids);
      if last.id !in ids {
        forall d | d in Without(init, ids) ensures d.id != last.id {
          WithoutMembers(init, ids, d);
        }
        DistinctSnoc(Without(init, ids), last);
      } else {
        assert Without(init, ids) + [] == Without(init, ids);
      }
    }
  }

  /** Only new charges have been added, under ids not handed out before. */
  ghost predicate Grown(b: Books, b': Books) {
    && b.issued <= b'.issued && b'.noticed == b.noticed
    && (forall c :: c in b.charges ==> c in b'.charges)
    && (forall c :: c in b'.charges ==> c in b.charges || c.id !in b.issued)
  }

  /** The line was charged in Hostaway, so its row counts toward the stay's balance. */
  predicate ChargedOnline(rs: Reservations, reservation: int, o: Outcome) {
    !Offline(rs, reservation) && o.Posted?
  }

  /** Hostaway's refusal changes no table; a settled line adds its own charge or none. */
  lemma {:induction false} SettleBooks(b: Books, rs: Reservations, payment: int, reservation: int, amount: int,
                                       o: Outcome, today: int)
    requires BooksOk(b) && Fresh(b.issued, o) && reservation in rs
    ensures var s := Settle(b, rs, payment, reservation, amount, o, today);
            && BooksOk(s.books) && Grown(b, s.books)
            && (s.result.Failed? ==> s.books == Called(b, payment, reservation, o) && o == Refused(s.result.error)
                                     && !s.result.error.archived)
            && (s.result == Applied(None) ==> s.books.charges == b.charges && s.books.issued == b.issued)
            && (s.result.Applied? && s.result.chargeId.Some? ==>
                  && o == Posted(s.result.chargeId.value)
                  && s.books.charges == b.charges + [Charge(s.result.chargeId.value, reservation, amount)]
                  && s.books.issued == b.issued + {s.result.chargeId.value})
            && s.books.attempts == b.attempts +
              if Offline(rs, reservation) then [] else [Attempt(payment, reservation, o)]
  {
    if ChargedOnline(rs, reservation, o) {
      DistinctSnoc(b.charges, Charge(o.id, reservation, amount));
    }
  }

  /** How a settled line ends: the listing and Hostaway's answer alone decide. */
  function SettledAs(rs: Reservations, reservation: int, o: Outcome): Result {
    if Offline(rs, reservation) then Applied(None)
    else match o
      case Posted(id) => Applied(Some(id))
      case Refused(e) => if e.archived then Applied(None) else Failed(e)
  }

  lemma {:induction false} SettleResult(b: Books, rs: Reservations, payment: int, reservation: int, amount: int,
                                        o: Outcome, today: int)
    ensures Settle(b, rs, payment, reservation, amount, o, today).result == SettledAs(rs, reservation, o)
  {
  }
}
