/** The booking lifecycle: the `Booking` record, the booking service's state
    machine (a booking is created "Pending" and may be accepted or declined
    only while it is "Pending") and the raw pass-through operations, over an
    abstract booking table keyed by id.

    The table follows the database semantics the repository relies on:
    `Create` keeps a non-zero id supplied in the record and otherwise takes
    the next value of the id sequence, and fails on a taken id; `Save`
    overwrites the row with the record's id (and creates one when that id is
    zero); `Delete` of an absent id is not an error. */
module Bookings {
  import opened Wrappers
  import opened Database

  const Pending := "Pending"
  const Accepted := "Accepted"
  const Declined := "Declined"

  const NotFound := "booking not found"
  const CannotAccept := "booking cannot be accepted because it is not in 'Pending' status"
  const CannotDecline := "booking cannot be declined because it is not in 'Pending' status"

  /** A booking row. Times are Unix seconds; `totalAmount` stands for the
      float amount, which is only ever stored and returned. `status` is a free
      string: the service writes the three constants above, but a raw update
      can store anything. */
  datatype Booking = Booking(
    id: nat,
    userID: nat,
    carID: nat,
    startDate: int,
    endDate: int,
    totalAmount: real,
    status: string,
    paymentMethod: string)

  type Store = map<nat, Booking>

  /** Every row sits under its own non-zero id. */
  predicate WellKeyed(store: Store) {
    forall k :: k in store ==> k != 0 && store[k].id == k
  }

  // ------------------------------------------------ database primitives

  /** `db.Create`: the id the row gets, and the table after the insert. */
  function Insert(store: Store, b: Booking, nextID: nat): (r: (Effect<Store>, Booking))
    requires nextID > 0
    ensures r.1 == b.(id := if b.id == 0 then nextID else b.id)
    ensures r.0.Ok() <==> r.1.id !in store
    ensures r.0.Ok() ==> r.0.store == store[r.1.id := r.1]
    ensures !r.0.Ok() ==> r.0 == Effect(store, Some(DuplicateEntry(BookingsTable, r.1.id)))
  {
    var row := b.(id := if b.id == 0 then nextID else b.id);
    if row.id in store then (Effect(store, Some(DuplicateEntry(BookingsTable, row.id))), row)
    else (Effect(store[row.id := row], None), row)
  }

  /** `db.Save`: overwrite the row with the record's id, or insert the record
      when its id is zero. */
  function Save(store: Store, b: Booking, nextID: nat): (r: Effect<Store>)
    requires nextID > 0
    ensures b.id != 0 ==> r == Effect(store[b.id := b], None)
  {
    if b.id == 0 then Insert(store, b, nextID).0 else Effect(store[b.id := b], None)
  }

  // ---------------------------------------------------- the booking service

  /** `CreateBooking`: the status is forced to "Pending" whatever the request
      carried, then the record is inserted. Returns the table and the record
      as the caller sees it afterwards (with its id filled in). */
  function CreateBooking(store: Store, b: Booking, nextID: nat): (r: (Effect<Store>, Booking))
    requires nextID > 0
    ensures r.1.status == Pending
    ensures r.1 == b.(status := Pending, id := r.1.id)
    ensures r.1.id == (if b.id == 0 then nextID else b.id)
    ensures r.0.Ok() <==> r.1.id !in store
    ensures r.0.Ok() ==> r.0.store == store[r.1.id := r.1]
    ensures !r.0.Ok() ==> r.0 == Effect(store, Some(DuplicateEntry(BookingsTable, r.1.id)))
  {
    Insert(store, b.(status := Pending), nextID)
  }

  /** The common shape of `AcceptBooking` and `DeclineBooking`: load, check
      the status is exactly "Pending", write the new status back. */
  function Transition(store: Store, id: nat, target: string, refusal: string): Effect<Store> {
    if id !in store then Effect(store, Some(NotFound))
    else if store[id].status != Pending then Effect(store, Some(refusal))
    else Effect(store[id := store[id].(status := target)], None)
  }

  /** `AcceptBooking`. */
  function AcceptBooking(store: Store, id: nat): (r: Effect<Store>)
    ensures id !in store ==> r == Effect(store, Some(NotFound))
    ensures id in store && store[id].status != Pending ==> r == Effect(store, Some(CannotAccept))
    ensures r.Ok() <==> id in store && store[id].status == Pending
    ensures r.Ok() ==> r.store.Keys == store.Keys
    ensures r.Ok() ==> r.store[id] == store[id].(status := Accepted)
    ensures r.Ok() ==> forall k :: k in store && k != id ==> r.store[k] == store[k]
  {
    Transition(store, id, Accepted, CannotAccept)
  }

  /** `DeclineBooking`. */
  function DeclineBooking(store: Store, id: nat): (r: Effect<Store>)
    ensures id !in store ==> r == Effect(store, Some(NotFound))
    ensures id in store && store[id].status != Pending ==> r == Effect(store, Some(CannotDecline))
    ensures r.Ok() <==> id in store && store[id].status == Pending
    ensures r.Ok() ==> r.store.Keys == store.Keys
    ensures r.Ok() ==> r.store[id] == store[id].(status := Declined)
    ensures r.Ok() ==> forall k :: k in store && k != id ==> r.store[k] == store[k]
  {
    Transition(store, id, Declined, CannotDecline)
  }

  /** `GetBookingByID`: a pass-through lookup. */
  function GetBookingByID(store: Store, id: nat): (r: Result<Booking, string>)
    ensures r.Success? <==> id in store
    ensures r.Success? ==> r.value == store[id]
    ensures r.Failure? ==> r.error == RecordNotFound
  {
    if id in store then Success(store[id]) else Failure(RecordNotFound)
  }

  /** `UpdateBooking`: a raw `Save` of the caller's record, with no check of
      the state machine. */
  function UpdateBooking(store: Store, b: Booking, nextID: nat): (r: Effect<Store>)
    requires nextID > 0
    ensures b.id != 0 ==> r.Ok() && r.store == store[b.id := b]
    ensures b.id == 0 ==> (r.Ok() <==> nextID !in store)
    ensures b.id == 0 && r.Ok() ==> r.store == store[nextID := b.(id := nextID)]
    ensures !r.Ok() ==> r == Effect(store, Some(DuplicateEntry(BookingsTable, nextID)))
  {
    Save(store, b, nextID)
  }

  /** `DeleteBooking`: removes the row if there is one; never an error. */
  function DeleteBooking(store: Store, id: nat): (r: Effect<Store>)
    ensures r.Ok()
    ensures id !in r.store
    ensures r.store.Keys == store.Keys - {id}
    ensures forall k :: k in r.store ==> r.store[k] == store[k]
  {
    Effect(store - {id}, None)
  }

  /** The ids among `ids` of the bookings of one user. */
  function OwnedAmong(store: Store, userID: nat, ids: set<nat>): set<nat> {
    set k | k in ids && k in store && store[k].userID == userID
  }

  /** The ids of the bookings of one user. */
  function OwnedIds(store: Store, userID: nat): set<nat> {
    OwnedAmong(store, userID, store.Keys)
  }

  /** The ids among `ids` whose row is `b`, a booking of the user. */
  function RowsAmong(store: Store, userID: nat, ids: set<nat>, b: Booking): set<nat> {
    set k | k in ids && k in store && store[k] == b && b.userID == userID
  }

  /** Adding one id to the ids visited so far. */
  lemma VisitOne(store: Store, userID: nat, ids: set<nat>, k: nat)
    requires k in store && k !in ids
    ensures store[k].userID == userID ==> OwnedAmong(store, userID, ids + {k}) == OwnedAmong(store, userID, ids) + {k}
    ensures store[k].userID != userID ==> OwnedAmong(store, userID, ids + {k}) == OwnedAmong(store, userID, ids)
    ensures k !in OwnedAmong(store, userID, ids)
    ensures forall b :: |RowsAmong(store, userID, ids + {k}, b)| == |RowsAmong(store, userID, ids, b)| + Hit(store, userID, k, b)
  {
    forall b
      ensures |RowsAmong(store, userID, ids + {k}, b)| == |RowsAmong(store, userID, ids, b)| + Hit(store, userID, k, b)
    {
      if b == store[k] && b.userID == userID {
        assert RowsAmong(store, userID, ids + {k}, b) == RowsAmong(store, userID, ids, b) + {k};
      } else {
        assert RowsAmong(store, userID, ids + {k}, b) == RowsAmong(store, userID, ids, b);
      }
    }
  }

  /** 1 when the row under `k` is `b` and belongs to the user, else 0. */
  function Hit(store: Store, userID: nat, k: nat, b: Booking): nat
    requires k in store
  {
    if b == store[k] && b.userID == userID then 1 else 0
  }

  /** A sequence that holds each booking as often as rows hold it contains
      exactly the user's bookings. */
  lemma CountedRows(store: Store, userID: nat, r: seq<Booking>)
    requires forall b :: multiset(r)[b] == |RowsAmong(store, userID, store.Keys, b)|
    ensures forall b :: b in r <==> b in store.Values && b.userID == userID
  {
    forall b
      ensures b in r <==> b in store.Values && b.userID == userID
    {
      assert b in r <==> multiset(r)[b] > 0;
      if b in store.Values && b.userID == userID {
        var k :| k in store && store[k] == b;
        assert k in RowsAmong(store, userID, store.Keys, b);
      }
    }
  }

  /** `GetBookingsByUserID`: every booking whose `userID` matches, each row
      once, in an unspecified order (the query has no ORDER BY): a booking
      occurs in the result as many times as there are rows holding it. */
  method GetBookingsByUserID(store: Store, userID: nat) returns (r: seq<Booking>)
    ensures forall b :: multiset(r)[b] == |RowsAmong(store, userID, store.Keys, b)|
    ensures forall b :: b in r <==> b in store.Values && b.userID == userID
    ensures |r| == |OwnedIds(store, userID)|
  {
    r := [];
    var todo := store.Keys;
    ghost var done: set<nat> := {};
    while todo != {}
      invariant todo !! done && todo + done == store.Keys
      invariant forall b :: multiset(r)[b] == |RowsAmong(store, userID, done, b)|
      invariant |r| == |OwnedAmong(store, userID, done)|
      decreases |todo|
    {
      var k :| k in todo;
      VisitOne(store, userID, done, k);
      ghost var before := r;
      if store[k].userID == userID {
        r := r + [store[k]];
      }
      assert forall b :: multiset(r)[b] == multiset(before)[b] + Hit(store, userID, k, b);
      todo := todo - {k};
      done := done + {k};
    }
    CountedRows(store, userID, r);
  }
}
