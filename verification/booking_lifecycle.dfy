/** Properties of the booking state machine of `Bookings`: terminal states,
    the store invariant, and what sequences of service calls can and cannot
    do to a booking's status. */
module BookingLifecycle {
  import opened Wrappers
  import opened Bookings

  predicate Terminal(status: string) {
    status == Accepted || status == Declined
  }

  /** Every status in the table is one the service itself writes. */
  predicate KnownStatuses(store: Store) {
    forall k :: k in store ==> store[k].status in {Pending, Accepted, Declined}
  }

  /** After a successful accept, neither a second accept nor a decline of the
      same id succeeds, and neither changes the table. */
  lemma AcceptIsFinal(store: Store, id: nat)
    requires AcceptBooking(store, id).Ok()
    ensures var s := AcceptBooking(store, id).store;
      && s[id].status == Accepted
      && AcceptBooking(s, id) == Effect(s, Some(CannotAccept))
      && DeclineBooking(s, id) == Effect(s, Some(CannotDecline))
  {
  }

  /** After a successful decline, neither an accept nor a second decline of
      the same id succeeds, and neither changes the table. */
  lemma DeclineIsFinal(store: Store, id: nat)
    requires DeclineBooking(store, id).Ok()
    ensures var s := DeclineBooking(store, id).store;
      && s[id].status == Declined
      && AcceptBooking(s, id) == Effect(s, Some(CannotAccept))
      && DeclineBooking(s, id) == Effect(s, Some(CannotDecline))
  {
  }

  /** The raw update bypasses the state machine: an accepted booking can be
      written back as "Pending", after which it can be declined. */
  lemma UpdateReopens(store: Store, id: nat, nextID: nat)
    requires nextID > 0 && WellKeyed(store)
    requires id in store && store[id].status == Accepted
    ensures var s := UpdateBooking(store, store[id].(status := Pending), nextID).store;
      && s[id].status == Pending
      && DeclineBooking(s, id).Ok()
  {
  }

  /** A booking read back after a successful create is the request,
      "Pending", under the id it was given. */
  lemma CreateThenGet(store: Store, b: Booking, nextID: nat)
    requires nextID > 0 && CreateBooking(store, b, nextID).0.Ok()
    ensures var id := if b.id == 0 then nextID else b.id;
      GetBookingByID(CreateBooking(store, b, nextID).0.store, id) == Success(b.(status := Pending, id := id))
  {
  }

  /** A booking read back after a successful accept is the booking as it
      was, now "Accepted". */
  lemma AcceptThenGet(store: Store, id: nat)
    requires AcceptBooking(store, id).Ok()
    ensures GetBookingByID(AcceptBooking(store, id).store, id) == Success(store[id].(status := Accepted))
  {
  }

  /** A booking read back after a successful decline is the booking as it
      was, now "Declined". */
  lemma DeclineThenGet(store: Store, id: nat)
    requires DeclineBooking(store, id).Ok()
    ensures GetBookingByID(DeclineBooking(store, id).store, id) == Success(store[id].(status := Declined))
  {
  }

  /** One call of the booking service. */
  datatype Request =
    | Create(booking: Booking, nextID: nat)
    | Accept(id: nat)
    | Decline(id: nat)
    | Update(booking: Booking, nextID: nat)
    | Delete(id: nat)

  /** Database sequences never hand out zero. */
  predicate Issuable(req: Request) {
    (req.Create? || req.Update?) ==> req.nextID > 0
  }

  /** The table after one call (a failed call leaves it as it was). */
  function Apply(store: Store, req: Request): Store
    requires Issuable(req)
  {
    match req
    case Create(b, n) => CreateBooking(store, b, n).0.store
    case Accept(id) => AcceptBooking(store, id).store
    case Decline(id) => DeclineBooking(store, id).store
    case Update(b, n) => UpdateBooking(store, b, n).store
    case Delete(id) => DeleteBooking(store, id).store
  }

  function Run(store: Store, reqs: seq<Request>): Store
    requires forall i :: 0 <= i < |reqs| ==> Issuable(reqs[i])
    decreases |reqs|
  {
    if |reqs| == 0 then store else Run(Apply(store, reqs[0]), reqs[1..])
  }

  /** Every call keeps each row under its own non-zero id. */
  lemma ApplyKeepsWellKeyed(store: Store, req: Request)
    requires WellKeyed(store) && Issuable(req)
    ensures WellKeyed(Apply(store, req))
  {
  }

  lemma {:induction false} RunKeepsWellKeyed(store: Store, reqs: seq<Request>)
    requires WellKeyed(store)
    requires forall i :: 0 <= i < |reqs| ==> Issuable(reqs[i])
    ensures WellKeyed(Run(store, reqs))
    decreases |reqs|
  {
    if |reqs| > 0 {
      ApplyKeepsWellKeyed(store, reqs[0]);
      RunKeepsWellKeyed(Apply(store, reqs[0]), reqs[1..]);
    }
  }

  /** The calls that go through the state machine. */
  predicate Gated(req: Request) {
    req.Create? || req.Accept? || req.Decline?
  }

  /** Create, accept and decline never write a status outside the three. */
  lemma {:induction false} GatedRunKeepsKnownStatuses(store: Store, reqs: seq<Request>)
    requires KnownStatuses(store)
    requires forall i :: 0 <= i < |reqs| ==> Issuable(reqs[i]) && Gated(reqs[i])
    ensures KnownStatuses(Run(store, reqs))
    decreases |reqs|
  {
    if |reqs| > 0 {
      var s := Apply(store, reqs[0]);
      assert KnownStatuses(s);
      GatedRunKeepsKnownStatuses(s, reqs[1..]);
    }
  }

  /** Through the state machine, a booking leaves "Pending" at most once:
      once accepted or declined, it stays in the table with that status,
      whatever sequence of creates, accepts and declines follows. */
  lemma {:induction false} TerminalStatusPersists(store: Store, reqs: seq<Request>, id: nat)
    requires forall i :: 0 <= i < |reqs| ==> Issuable(reqs[i]) && Gated(reqs[i])
    requires id in store && Terminal(store[id].status)
    ensures id in Run(store, reqs) && Run(store, reqs)[id].status == store[id].status
    decreases |reqs|
  {
    if |reqs| > 0 {
      var s := Apply(store, reqs[0]);
      assert id in s && s[id].status == store[id].status;
      TerminalStatusPersists(s, reqs[1..], id);
    }
  }

  /** The persistence above needs the gate: one raw update is enough to turn
      a terminal booking back into a pending one. */
  lemma UngatedRunCanReopen(store: Store, id: nat)
    requires WellKeyed(store) && id in store && Terminal(store[id].status)
    ensures var reqs := [Update(store[id].(status := Pending), 1)];
      id in Run(store, reqs) && Run(store, reqs)[id].status == Pending
  {
    var reqs := [Update(store[id].(status := Pending), 1)];
    assert Run(store, reqs) == Run(Apply(store, reqs[0]), []);
  }
}
