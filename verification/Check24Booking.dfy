/** The CHECK24 booking protocol: deliveries by webhook and poll, imports into Hostaway, and
    cancellations in both directions (check24-booking.service.ts). */
module Check24Booking {
  import opened Wrappers

  /** Requested and booked bookings are imported; an ended one is cancelled, declined or failed. */
  datatype Status = Requested | Booked | Ended | Other

  /** A check24Booking row. */
  datatype Row = Row(status: Status, hostawayId: Option<int>)

  datatype Creation = Creation(booking: int, hostawayId: int)

  /** The booking rows, the Hostaway reservations that are locally cancelled, and what has been
      asked of the two remote systems: reservations created, provider cancels posted. */
  datatype State = State(
    rows: map<int, Row>,
    cancelled: set<int>,
    created: seq<Creation>,
    posts: seq<int>)

  datatype CreateAnswer = Created(id: int) | CreateFailed

  /** One delivery: the booking as CHECK24 gives it, and how the remote calls it may cause end.
      withLabels says whether the first create carries custom fields and may be repeated. */
  datatype Delivery = Delivery(
    booking: int,
    status: Status,
    mapped: bool,
    withLabels: bool,
    first: CreateAnswer,
    second: CreateAnswer,
    autoAccept: bool,
    acceptOk: bool)

  function Recorded(s: State, d: Delivery): Row {
    Row(d.status, if d.booking in s.rows then s.rows[d.booking].hostawayId else None)
  }

  function Answer(d: Delivery): CreateAnswer {
    if d.first.CreateFailed? && d.withLabels then d.second else d.first
  }

  function ImportedStatus(d: Delivery): Status {
    if d.status == Requested && d.autoAccept && d.acceptOk then Booked else d.status
  }

  /** processBooking. */
  function Deliver(s: State, d: Delivery): State {
    var row := Recorded(s, d);
    var seen := s.(rows := s.rows[d.booking := row]);
    if d.status == Ended then
      if row.hostawayId.None? then seen else seen.(cancelled := seen.cancelled + {row.hostawayId.value})
    else if row.hostawayId.Some? || d.status == Other || !d.mapped then seen
    else
      match Answer(d)
      case CreateFailed => seen
      case Created(id) =>
        seen.(created := seen.created + [Creation(d.booking, id)],
              rows := seen.rows[d.booking := Row(ImportedStatus(d), Some(id))])
  }

  ghost predicate IsLinked(s: State, booking: int, hostawayId: int) {
    booking in s.rows && s.rows[booking].hostawayId == Some(hostawayId)
  }

  /** propagateHostawayCancellation for a reservation linked to the booking. */
  function Propagate(s: State, booking: int, configured: bool, postOk: bool): State
    requires booking in s.rows
  {
    if !configured || s.rows[booking].status == Ended then s
    else
      var posted := s.(posts := s.posts + [booking]);
      if postOk then posted.(rows := posted.rows[booking := posted.rows[booking].(status := Ended)]) else posted
  }

  // ----- Runs

  datatype Event =
    | Delivered(d: Delivery)
    | HostawayCancelled(hostawayId: int, booking: Option<int>, configured: bool, postOk: bool)
    | ReservationSynced(hostawayId: int, isCancelled: bool)

  ghost predicate FreshId(created: seq<Creation>, a: CreateAnswer) {
    a.Created? ==> forall c :: c in created ==> c.hostawayId != a.id
  }

  /** Hostaway gives every reservation a new id; a cancellation is propagated to the booking
      linked to the reservation, if there is one. */
  ghost predicate Enabled(s: State, e: Event) {
    match e
    case Delivered(d) => FreshId(s.created, d.first) && FreshId(s.created, d.second)
    case HostawayCancelled(id, None, _, _) => forall b :: !IsLinked(s, b, id)
    case HostawayCancelled(id, Some(b), _, _) => IsLinked(s, b, id)
    case ReservationSynced(_, _) => true
  }

  ghost function Step(s: State, e: Event): State
    requires Enabled(s, e)
  {
    match e
    case Delivered(d) => Deliver(s, d)
    case HostawayCancelled(id, None, _, _) => s.(cancelled := s.cancelled + {id})
    case HostawayCancelled(id, Some(b), configured, ok) => Propagate(s.(cancelled := s.cancelled + {id}), b,
                                                                     configured, ok)
    case ReservationSynced(id, yes) => s.(cancelled := if yes then s.cancelled + {id} else s.cancelled - {id})
  }

  const EMPTY := State(map[], {}, [], [])

  ghost predicate RunFrom(start: State, es: seq<Event>, s: State)
    decreases |es|
  {
    if es == [] then s == start
    else exists before :: StepFrom(start, es, before, s)
  }

  ghost predicate StepFrom(start: State, es: seq<Event>, before: State, s: State)
    requires es != []
    decreases |es|, 0
  {
    RunFrom(start, es[..|es| - 1], before) && Enabled(before, es[|es| - 1]) && s == Step(before, es[|es| - 1])
  }

  // ----- At most one reservation per booking

  function Creations(created: seq<Creation>, booking: int): nat {
    if created == [] then 0
    else Creations(created[..|created| - 1], booking) + if created[|created| - 1].booking == booking then 1 else 0
  }

  function Posts(posts: seq<int>, booking: int): nat {
    if posts == [] then 0
    else Posts(posts[..|posts| - 1], booking) + if posts[|posts| - 1] == booking then 1 else 0
  }

  /** The Hostaway reservation a booking is linked to. */
  function Link(s: State, booking: int): Option<int> {
    if booking in s.rows then s.rows[booking].hostawayId else None
  }

  /** A booking has one creation if it is linked and none otherwise. */
  ghost predicate CreatedAsLinked(s: State) {
    forall b :: Creations(s.created, b) == if Link(s, b).Some? then 1 else 0
  }

  /** Links point at what was created for the booking. */
  ghost predicate LinksCreated(s: State) {
    forall b :: Link(s, b).Some? ==> Creation(b, Link(s, b).value) in s.created
  }

  /** No reservation was created twice. */
  ghost predicate CreatedOnce(created: seq<Creation>) {
    forall c, d :: c in created && d in created && c.hostawayId == d.hostawayId ==> c == d
  }

  ghost predicate Inv(s: State) {
    CreatedAsLinked(s) && LinksCreated(s) && CreatedOnce(s.created)
  }

  lemma {:induction false} CreationsSnoc(created: seq<Creation>, c: Creation, booking: int)
    ensures Creations(created + [c], booking) == Creations(created, booking) + if c.booking == booking then 1 else 0
  {
    assert (created + [c])[..|created|] == created;
  }

  /** The booking is linked to what has just been created for it, and nothing else has changed. */
  ghost predicate Imports(s: State, s': State, booking: int, id: int) {
    && Link(s, booking).None?
    && s'.created == s.created + [Creation(booking, id)]
    && forall b :: Link(s', b) == if b == booking then Some(id) else Link(s, b)
  }

  lemma {:induction false} ImportCounts(s: State, s': State, booking: int, id: int)
    requires CreatedAsLinked(s) && Imports(s, s', booking, id)
    ensures CreatedAsLinked(s')
  {
    forall b ensures Creations(s'.created, b) == if Link(s', b).Some? then 1 else 0 {
      CreationsSnoc(s.created, Creation(booking, id), b);
      assert Creations(s.created, b) == if Link(s, b).Some? then 1 else 0;
    }
  }

  lemma {:induction false} ImportLinks(s: State, s': State, booking: int, id: int)
    requires LinksCreated(s) && Imports(s, s', booking, id)
    ensures LinksCreated(s')
  {
    forall b | Link(s', b).Some? ensures Creation(b, Link(s', b).value) in s'.created {
      if b != booking { assert Creation(b, Link(s, b).value) in s.created; }
    }
  }

  lemma {:induction false} ImportIsNew(created: seq<Creation>, c: Creation)
    requires CreatedOnce(created) && FreshId(created, Created(c.hostawayId))
    ensures CreatedOnce(created + [c])
  {
  }

  lemma {:induction false} ImportKeepsInv(s: State, s': State, booking: int, id: int)
    requires Inv(s) && FreshId(s.created, Created(id)) && Imports(s, s', booking, id)
    ensures Inv(s')
  {
    ImportCounts(s, s', booking, id);
    ImportLinks(s, s', booking, id);
    ImportIsNew(s.created, Creation(booking, id));
  }

  lemma {:induction false} SameLinksKeepInv(s: State, s': State)
    requires Inv(s) && s'.created == s.created && forall b :: Link(s', b) == Link(s, b)
    ensures Inv(s')
  {
  }

  lemma {:induction false} StepKeepsInv(s: State, e: Event)
    requires Inv(s) && Enabled(s, e)
    ensures Inv(Step(s, e))
  {
    var after := Step(s, e);
    if after.created == s.created {
      SameLinksKeepInv(s, after);
    } else {
      ImportKeepsInv(s, after, e.d.booking, Answer(e.d).id);
    }
  }

  lemma {:induction false} OneBookingPerReservation(s: State, b: int, c: int, id: int)
    requires Inv(s) && IsLinked(s, b, id) && IsLinked(s, c, id)
    ensures b == c
  {
    assert Link(s, b).Some? && Link(s, c).Some?;
    assert Creation(b, id) in s.created && Creation(c, id) in s.created;
  }

  /** Whatever is delivered, how often and in which order, no booking is imported twice, and no
      reservation belongs to two bookings. */
  lemma {:induction false} ImportedAtMostOnce(es: seq<Event>, s: State, booking: int)
    requires RunFrom(EMPTY, es, s)
    ensures Inv(s)
    ensures Creations(s.created, booking) <= 1
    ensures forall b, id :: IsLinked(s, booking, id) && IsLinked(s, b, id) ==> b == booking
    decreases |es|
  {
    if es != [] {
      var before :| StepFrom(EMPTY, es, before, s);
      ImportedAtMostOnce(es[..|es| - 1], before, booking);
      StepKeepsInv(before, es[|es| - 1]);
    }
    forall b, id | IsLinked(s, booking, id) && IsLinked(s, b, id) ensures b == booking {
      OneBookingPerReservation(s, booking, b, id);
    }
  }

  // ----- Cancellations

  /** Of the deliveries of a booking, all report it ended. */
  ghost predicate StaysEnded(es: seq<Event>, booking: int) {
    forall i :: 0 <= i < |es| && es[i].Delivered? && es[i].d.booking == booking ==> es[i].d.status == Ended
  }

  lemma {:induction false} PostsSnoc(posts: seq<int>, p: int, booking: int)
    ensures Posts(posts + [p], booking) == Posts(posts, booking) + if p == booking then 1 else 0
  {
    assert (posts + [p])[..|posts|] == posts;
  }

  /** A provider cancel goes out exactly when a linked booking not recorded as ended is
      cancelled on our side. */
  lemma {:induction false} PostedExactlyWhen(s: State, e: Event, booking: int)
    requires Enabled(s, e)
    ensures Posts(Step(s, e).posts, booking) == Posts(s.posts, booking) +
            if e.HostawayCancelled? && e.booking == Some(booking) && e.configured
              && s.rows[booking].status != Ended then 1 else 0
  {
    if e.HostawayCancelled? && e.booking.Some? {
      PostsSnoc(s.posts, e.booking.value, booking);
    }
  }

  /** Once a booking is recorded as ended, and as long as it is delivered as ended, it stays so
      and no provider cancel is ever posted back. */
  lemma {:induction false} NoCancelAfterEnd(start: State, es: seq<Event>, s: State, booking: int)
    requires booking in start.rows && start.rows[booking].status == Ended
    requires RunFrom(start, es, s) && StaysEnded(es, booking)
    ensures booking in s.rows && s.rows[booking].status == Ended
    ensures Posts(s.posts, booking) == Posts(start.posts, booking)
    decreases |es|
  {
    if es != [] {
      var before :| StepFrom(start, es, before, s);
      NoCancelAfterEnd(start, es[..|es| - 1], before, booking);
      PostedExactlyWhen(before, es[|es| - 1], booking);
    }
  }

  /** A delivery that reports the booking as not ended. */
  predicate Revives(e: Event, booking: int) {
    e.Delivered? && e.d.booking == booking && e.d.status != Ended
  }

  predicate Ends(e: Event, booking: int) {
    e.Delivered? && e.d.booking == booking && e.d.status == Ended
  }

  predicate CancelsLocally(e: Event, booking: int) {
    e.HostawayCancelled? && e.booking == Some(booking) && e.configured
  }

  /** Of the first k events, the last delivery of the booking reports it as not ended. */
  ghost predicate RevivedBy(es: seq<Event>, booking: int, k: int)
    requires 0 <= k <= |es|
  {
    exists i :: 0 <= i < k && Revives(es[i], booking) && forall j :: i < j < k ==> !Ends(es[j], booking)
  }

  /** The booking is cancelled on our side while its last delivery reports it as not ended. */
  ghost predicate CancelledWhileRevived(es: seq<Event>, booking: int) {
    exists k :: 0 <= k < |es| && CancelsLocally(es[k], booking) && RevivedBy(es, booking, k)
  }

  lemma {:induction false} RevivedPrefix(es: seq<Event>, booking: int, k: int)
    requires es != [] && 0 <= k < |es|
    ensures RevivedBy(es, booking, k) <==> RevivedBy(es[..|es| - 1], booking, k)
  {
    var init := es[..|es| - 1];
    forall i | 0 <= i < |init| ensures init[i] == es[i] {}
    if RevivedBy(es, booking, k) {
      var i :| 0 <= i < k && Revives(es[i], booking) && forall j :: i < j < k ==> !Ends(es[j], booking);
      assert Revives(init[i], booking);
    }
    if RevivedBy(init, booking, k) {
      var i :| 0 <= i < k && Revives(init[i], booking) && forall j :: i < j < k ==> !Ends(init[j], booking);
      assert Revives(es[i], booking);
    }
  }

  lemma {:induction false} RevivedNext(es: seq<Event>, booking: int)
    requires es != []
    ensures var n := |es| - 1;
            RevivedBy(es, booking, |es|) <==>
            Revives(es[n], booking) || (RevivedBy(es, booking, n) && !Ends(es[n], booking))
  {
    var n := |es| - 1;
    if RevivedBy(es, booking, |es|) {
      var i :| 0 <= i < |es| && Revives(es[i], booking) && forall j :: i < j < |es| ==> !Ends(es[j], booking);
    }
    if RevivedBy(es, booking, n) && !Ends(es[n], booking) {
      var i :| 0 <= i < n && Revives(es[i], booking) && forall j :: i < j < n ==> !Ends(es[j], booking);
      assert forall j :: i < j < |es| ==> !Ends(es[j], booking);
    }
  }

  lemma {:induction false} CancelledNext(es: seq<Event>, booking: int)
    requires es != []
    ensures var init, last := es[..|es| - 1], es[|es| - 1];
            CancelledWhileRevived(es, booking) <==>
            CancelledWhileRevived(init, booking) || (CancelsLocally(last, booking) && RevivedBy(init, booking, |init|))
  {
    var init := es[..|es| - 1];
    forall k | 0 <= k < |es| ensures RevivedBy(es, booking, k) <==> RevivedBy(init, booking, k) {
      RevivedPrefix(es, booking, k);
    }
    forall k | 0 <= k < |init| ensures init[k] == es[k] {}
  }

  /** Exactly when an ended booking comes back to life: over any run from a row recorded as ended,
      a provider cancel is posted back if and only if the booking is cancelled on our side while
      its last delivery reports it as not ended. Until that happens, the row is not ended if and
      only if some such delivery has no later one that ends it. */
  lemma {:induction false} CancelPostedExactlyWhen(start: State, es: seq<Event>, s: State, booking: int)
    requires booking in start.rows && start.rows[booking].status == Ended && RunFrom(start, es, s)
    ensures booking in s.rows && Posts(s.posts, booking) >= Posts(start.posts, booking)
    ensures Posts(s.posts, booking) > Posts(start.posts, booking) <==> CancelledWhileRevived(es, booking)
    ensures !CancelledWhileRevived(es, booking) ==> (s.rows[booking].status != Ended <==> RevivedBy(es, booking, |es|))
    decreases |es|
  {
    if es != [] {
      var init, last := es[..|es| - 1], es[|es| - 1];
      var before :| StepFrom(start, es, before, s);
      CancelPostedExactlyWhen(start, init, before, booking);
      PostedExactlyWhen(before, last, booking);
      CancelledNext(es, booking);
      RevivedNext(es, booking);
      RevivedPrefix(es, booking, |init|);
      StatusAfter(before, last, booking);
    }
  }

  /** What a step does to the recorded status. */
  lemma {:induction false} StatusAfter(s: State, e: Event, booking: int)
    requires Enabled(s, e) && booking in s.rows
    ensures var after := Step(s, e);
            && booking in after.rows
            && (Revives(e, booking) ==> after.rows[booking].status != Ended)
            && (Ends(e, booking) ==> after.rows[booking].status == Ended)
            && (!Revives(e, booking) && !Ends(e, booking)
                && !(CancelsLocally(e, booking) && s.rows[booking].status != Ended) ==>
                  after.rows[booking].status == s.rows[booking].status)
  {
  }

  /** The shortest such run: an outdated delivery brings an ended booking back, and the next
      cancellation on our side posts a provider cancel for a booking the guest had cancelled. */
  lemma {:induction false} StaleDeliveryRevives(s: State, booking: int, id: int, stale: Delivery)
    requires IsLinked(s, booking, id) && s.rows[booking].status == Ended
    requires stale.booking == booking && stale.status != Ended
    ensures var revived := Deliver(s, stale);
            && revived.rows[booking] == Row(stale.status, Some(id))
            && Posts(Propagate(revived, booking, true, true).posts, booking) == Posts(s.posts, booking) + 1
  {
    PostsSnoc(s.posts, booking, booking);
  }

  /** After a delivered end the stay is cancelled locally, whether or not Hostaway agreed. */
  lemma {:induction false} EndCancelsLocally(s: State, d: Delivery)
    requires d.status == Ended
    ensures var after := Deliver(s, d);
            && after.rows[d.booking].status == Ended && after.created == s.created && after.posts == s.posts
            && forall id :: IsLinked(s, d.booking, id) ==> id in after.cancelled && IsLinked(after, d.booking, id)
  {
  }

  // ----- What an event comes to

  /** No other booking's row has changed. */
  ghost predicate OnlyRow(before: State, after: State, booking: int) {
    && after.rows.Keys == before.rows.Keys + {booking}
    && forall b :: b in before.rows && b != booking ==> after.rows[b] == before.rows[b]
  }

  /** A delivery imports the booking if and only if it is requested or booked, not linked yet, its
      property is mapped, and Hostaway creates it, at the first attempt or, if that carried custom
      fields, at the second. The row is then linked, and booked once CHECK24 has accepted it. */
  lemma {:induction false} DeliveryImportsExactlyWhen(s: State, d: Delivery)
    ensures var after := Deliver(s, d);
            var imports := && (d.status == Requested || d.status == Booked) && Link(s, d.booking).None? && d.mapped
                           && (d.first.Created? || (d.withLabels && d.second.Created?));
            && (imports ==>
                  var id := if d.first.Created? then d.first.id else d.second.id;
                  var accepted := d.status == Booked || (d.autoAccept && d.acceptOk);
                  && after.created == s.created + [Creation(d.booking, id)]
                  && after.rows[d.booking] == Row(if accepted then Booked else Requested, Some(id)))
            && (!imports ==>
                  after.created == s.created && after.rows[d.booking] == Row(d.status, Link(s, d.booking)))
            && after.cancelled == s.cancelled + (if d.status == Ended && Link(s, d.booking).Some?
                                                 then {Link(s, d.booking).value} else {})
            && after.posts == s.posts && OnlyRow(s, after, d.booking)
  {
  }

  /** A cancellation on our side posts a provider cancel if and only if the booking is not recorded
      as ended, and records the end if and only if the post succeeds. */
  lemma {:induction false} PropagationSays(s: State, booking: int, configured: bool, postOk: bool)
    requires booking in s.rows
    ensures var after := Propagate(s, booking, configured, postOk);
            var posts := configured && s.rows[booking].status != Ended;
            && after.posts == s.posts + (if posts then [booking] else [])
            && after.rows[booking] == Row(if posts && postOk then Ended else s.rows[booking].status,
                                          s.rows[booking].hostawayId)
            && after.created == s.created && after.cancelled == s.cancelled && OnlyRow(s, after, booking)
  {
  }

  // ----- The service

  class Check24BookingService {
    var rows: map<int, Row>
    var cancelled: set<int>
    ghost var created: seq<Creation>
    ghost var posts: seq<int>

    ghost function GetState(): State
      reads this
    {
      State(rows, cancelled, created, posts)
    }

    constructor ()
      ensures GetState() == EMPTY
    {
      rows, cancelled, created, posts := map[], {}, [], [];
    }

    /** Creates the reservation, a second time without custom fields if those were refused. */
    method CreateReservation(d: Delivery) returns (id: Option<int>)
      modifies this`created
      ensures id == if Answer(d).Created? then Some(Answer(d).id) else None
      ensures created == if id.Some? then old(created) + [Creation(d.booking, id.value)] else old(created)
    {
      var answer := d.first;
      if answer.CreateFailed? {
        if !d.withLabels { return None; }
        answer := d.second;
        if answer.CreateFailed? { return None; }
      }
      created := created + [Creation(d.booking, answer.id)];
      id := Some(answer.id);
    }

    /** The result is false where the source throws. */
    method ProcessBooking(d: Delivery, hostawayCancels: bool) returns (ok: bool)
      modifies this
      ensures GetState() == Deliver(old(GetState()), d)
      ensures ok <==> d.status == Ended || d.status == Other || Recorded(old(GetState()), d).hostawayId.Some?
                      || (d.mapped && Answer(d).Created?)
    {
      var existing := if d.booking in rows then rows[d.booking].hostawayId else None;
      rows := rows[d.booking := Row(d.status, existing)];
      if d.status == Ended {
        CancelImportedReservation(d, existing, hostawayCancels);
        return true;
      }
      if existing.Some? { return true; }
      if d.status != Requested && d.status != Booked { return true; }
      if !d.mapped { return false; }
      var id := CreateReservation(d);
      if id.None? { return false; }
      rows := rows[d.booking := Row(d.status, id)];
      if d.status == Requested && d.autoAccept && d.acceptOk {
        rows := rows[d.booking := Row(Booked, id)];
      }
      ok := true;
    }

    method CancelImportedReservation(d: Delivery, hostawayId: Option<int>, hostawayCancels: bool)
      requires d.booking in rows && rows[d.booking] == Row(d.status, hostawayId)
      modifies this`rows, this`cancelled
      ensures rows == old(rows)
      ensures cancelled == if hostawayId.Some? then old(cancelled) + {hostawayId.value} else old(cancelled)
    {
      if hostawayId.None? { return; }
      if hostawayId.value in cancelled {
        return;
      }
      if hostawayCancels {
        cancelled := cancelled + {hostawayId.value};
      } else {
        cancelled := cancelled + {hostawayId.value};
        rows := rows[d.booking := rows[d.booking].(status := d.status)];
      }
    }

    method PropagateHostawayCancellation(booking: Option<int>, configured: bool, postOk: bool) returns (ok: bool)
      requires booking.Some? ==> booking.value in rows
      modifies this`rows, this`posts
      ensures GetState() == if booking.None? then old(GetState())
                            else Propagate(old(GetState()), booking.value, configured, postOk)
      ensures ok <==> configured && booking.Some? && (old(rows)[booking.value].status == Ended || postOk)
    {
      if !configured { return false; }
      if booking.None? { return false; }
      var linked := rows[booking.value];
      if linked.status == Ended { return true; }
      posts := posts + [booking.value];
      if !postOk { return false; }
      rows := rows[booking.value := linked.(status := Ended)];
      ok := true;
    }
  }
}
