/**
 * The in-memory reservation table and its seat index: `eventId:seatId`
 * maps to the id of the reservation saved last for that seat.
 */
module ReservationRepository {

  import opened Wrappers
  import opened Domain

  /** The two maps the repository updates together. */
  datatype Tables = Tables(store: map<string, Reservation>, index: map<string, string>)

  /** `save` on the maps: store by id and point the seat's index entry at that id. */
  function Saved(t: Tables, r: Reservation): (u: Tables)
    ensures u.store.Keys == t.store.Keys + {r.reservationId} && u.store[r.reservationId] == r
    ensures u.index.Keys == t.index.Keys + {r.SeatKey()} && u.index[r.SeatKey()] == r.reservationId
    ensures forall id | id in t.store && id != r.reservationId :: u.store[id] == t.store[id]
    ensures forall k | k in t.index && k != r.SeatKey() :: u.index[k] == t.index[k]
  {
    Tables(t.store[r.reservationId := r], t.index[r.SeatKey() := r.reservationId])
  }

  /** `deleteById` on the maps: an unknown id changes nothing; otherwise the reservation and its seat's entry go. */
  function Deleted(t: Tables, id: string): (u: Tables)
    ensures id !in t.store ==> u == t
    ensures id in t.store ==> u.store == t.store - {id} && u.index == t.index - {t.store[id].SeatKey()}
  {
    if id in t.store then Tables(t.store - {id}, t.index - {t.store[id].SeatKey()}) else t
  }

  /** Every id the index holds is a stored reservation. */
  ghost predicate IndexIdsStored(t: Tables)
  {
    forall k | k in t.index :: t.index[k] in t.store
  }

  /**
   * The invariant the repository keeps: reservations are stored under their
   * own ids, and each index entry names a stored reservation of that seat.
   */
  ghost predicate Consistent(t: Tables)
  {
    (forall id | id in t.store :: t.store[id].reservationId == id) &&
    (forall k | k in t.index :: t.index[k] in t.store && t.store[t.index[k]].SeatKey() == k)
  }

  lemma ConsistentIndexIdsStored(t: Tables)
    requires Consistent(t)
    ensures IndexIdsStored(t)
  {
  }

  /** `save` keeps the invariant unless it moves an existing reservation id to another seat. */
  lemma SavedConsistent(t: Tables, r: Reservation)
    requires Consistent(t)
    requires r.reservationId !in t.store || t.store[r.reservationId].SeatKey() == r.SeatKey()
    ensures Consistent(Saved(t, r))
  {
    var u := Saved(t, r);
    forall k | k in u.index
      ensures u.index[k] in u.store && u.store[u.index[k]].SeatKey() == k
    {
      if k != r.SeatKey() {
        var id := t.index[k];
        assert t.store[id].SeatKey() == k;
      }
    }
  }

  lemma DeletedConsistent(t: Tables, id: string)
    requires Consistent(t)
    ensures Consistent(Deleted(t, id))
  {
    if id in t.store {
      var u := Deleted(t, id);
      forall k | k in u.index
        ensures u.index[k] in u.store && u.store[u.index[k]].SeatKey() == k
      {
        assert k != t.store[id].SeatKey();
        assert t.store[t.index[k]].SeatKey() == k;
      }
    }
  }

  /**
   * Saving one reservation id under a second seat and then deleting it
   * leaves the first seat's index entry pointing at no reservation: that
   * seat still counts as taken while `findBySeat` finds nothing.
   */
  lemma ResaveThenDeleteLeavesDanglingEntry(t: Tables, first: Reservation, second: Reservation)
    requires first.reservationId == second.reservationId && first.SeatKey() != second.SeatKey()
    ensures var u := Deleted(Saved(Saved(t, first), second), first.reservationId);
      first.SeatKey() in u.index && u.index[first.SeatKey()] !in u.store && !IndexIdsStored(u)
  {
    var u := Deleted(Saved(Saved(t, first), second), first.reservationId);
    assert u.index[first.SeatKey()] == first.reservationId;
  }

  class ReservationMemoryRepository {
    var store: map<string, Reservation>
    /** `seatReservationIndex`. */
    var seatIndex: map<string, string>

    function State(): Tables
      reads this
    {
      Tables(store, seatIndex)
    }

    ghost predicate Valid()
      reads this
    {
      Consistent(State())
    }

    constructor ()
      ensures Valid() && store == map[] && seatIndex == map[]
    {
      store := map[];
      seatIndex := map[];
    }

    /** The reservation id is new, or already stored for the seat with that key. */
    predicate KeepsSeatKey(reservationId: string, seatKey: string)
      reads this
    {
      reservationId !in store || store[reservationId].SeatKey() == seatKey
    }

    /** `save`. */
    method Save(reservation: Reservation) returns (saved: Reservation)
      modifies this
      ensures saved == reservation
      ensures State() == Saved(old(State()), reservation)
      ensures FindBySeat(reservation.eventId, reservation.seatId) == Some(reservation)
      ensures old(Valid()) && old(KeepsSeatKey(reservation.reservationId, reservation.SeatKey())) ==> Valid()
    {
      if Valid() && KeepsSeatKey(reservation.reservationId, reservation.SeatKey()) {
        SavedConsistent(State(), reservation);
      }
      store := store[reservation.reservationId := reservation];
      seatIndex := seatIndex[reservation.SeatKey() := reservation.reservationId];
      saved := reservation;
    }

    /** `findById`. */
    function FindById(reservationId: string): (found: Option<Reservation>)
      reads this
      ensures found.Some? <==> reservationId in store
      ensures found.Some? ==> found.value == store[reservationId]
    {
      if reservationId in store then Some(store[reservationId]) else None
    }

    /**
     * `findBySeat`: the reservation the index names for the seat. While the
     * invariant holds it is found exactly when the seat is taken, and it is
     * a reservation of that seat.
     */
    function FindBySeat(eventId: string, seatId: string): (found: Option<Reservation>)
      reads this
      ensures found.Some? ==> ExistsBySeat(eventId, seatId) && found == FindById(seatIndex[CompositeKey(eventId, seatId)])
      ensures Valid() ==> (found.Some? <==> ExistsBySeat(eventId, seatId))
      ensures Valid() && found.Some? ==> found.value.SeatKey() == CompositeKey(eventId, seatId)
    {
      var key := CompositeKey(eventId, seatId);
      if key in seatIndex then FindById(seatIndex[key]) else None
    }

    /** `existsBySeat`: the index alone decides, whatever the reservation's status. */
    predicate ExistsBySeat(eventId: string, seatId: string)
      reads this
    {
      CompositeKey(eventId, seatId) in seatIndex
    }

    /** An indexed seat always has a stored reservation for it. */
    lemma ExistsBySeatMeans(eventId: string, seatId: string)
      requires Valid() && ExistsBySeat(eventId, seatId)
      ensures exists r | r in store.Values :: r.SeatKey() == CompositeKey(eventId, seatId)
    {
      var r := FindBySeat(eventId, seatId).value;
      assert r in store.Values;
    }

    /** `findByUserId`: exactly the stored reservations of the user. */
    function FindByUserId(userId: string): (found: set<Reservation>)
      reads this
      ensures forall r | r in found :: r in store.Values && r.userId == userId
      ensures forall id | id in store && store[id].userId == userId :: store[id] in found
    {
      set id | id in store && store[id].userId == userId :: store[id]
    }

    /** `findByEventId`: exactly the stored reservations of the event. */
    function FindByEventId(eventId: string): (found: set<Reservation>)
      reads this
      ensures forall r | r in found :: r in store.Values && r.eventId == eventId
      ensures forall id | id in store && store[id].eventId == eventId :: store[id] in found
    {
      set id | id in store && store[id].eventId == eventId :: store[id]
    }

    function FindAll(): (found: set<Reservation>)
      reads this
      ensures forall id | id in store :: store[id] in found
      ensures forall r | r in found :: r in store.Values
    {
      store.Values
    }

    /** `deleteById`. */
    method DeleteById(reservationId: string)
      modifies this
      ensures State() == Deleted(old(State()), reservationId)
      ensures old(Valid()) ==> Valid()
      ensures FindById(reservationId).None?
      ensures old(reservationId in store) ==>
        !ExistsBySeat(old(store)[reservationId].eventId, old(store)[reservationId].seatId)
    {
      if Valid() {
        DeletedConsistent(State(), reservationId);
      }
      if reservationId in store {
        var reservation := store[reservationId];
        store := store - {reservationId};
        seatIndex := seatIndex - {reservation.SeatKey()};
      }
    }

    method DeleteAll()
      modifies this
      ensures Valid() && store == map[] && seatIndex == map[] && Count() == 0
    {
      store := map[];
      seatIndex := map[];
    }

    /** `count`: the number of stored ids. */
    function Count(): (n: nat)
      reads this
      ensures n == |store.Keys|
    {
      |store|
    }
  }
}
