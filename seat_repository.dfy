/** The in-memory seat map, keyed by `eventId:seatId`. */
module SeatRepository {

  import opened Wrappers
  import opened Domain
  import Sets

  class SeatMemoryRepository {
    var store: map<string, Seat>

    /** Each seat is stored under its own composite key. */
    ghost predicate Valid()
      reads this
    {
      forall k | k in store :: store[k].Key() == k
    }

    constructor ()
      ensures Valid() && store == map[]
    {
      store := map[];
    }

    /** `save`: keys the seat by `eventId:seatId`, replacing any seat with that key. */
    method Save(seat: Seat) returns (saved: Seat)
      requires Valid()
      modifies this
      ensures Valid()
      ensures saved == seat
      ensures store == old(store)[seat.Key() := seat]
      ensures FindById(seat.eventId, seat.seatId) == Some(seat)
    {
      store := store[seat.Key() := seat];
      saved := seat;
    }

    /** `findById`: the last seat saved under the key. */
    function FindById(eventId: string, seatId: string): (found: Option<Seat>)
      reads this
      ensures found.Some? <==> ExistsById(eventId, seatId)
      ensures found.Some? ==> found.value == store[CompositeKey(eventId, seatId)]
    {
      var key := CompositeKey(eventId, seatId);
      if key in store then Some(store[key]) else None
    }

    /** `existsById`. */
    predicate ExistsById(eventId: string, seatId: string)
      reads this
    {
      CompositeKey(eventId, seatId) in store
    }

    /** A seat exists exactly when some stored seat has that composite key. */
    lemma ExistsByIdMeans(eventId: string, seatId: string)
      requires Valid()
      ensures ExistsById(eventId, seatId) <==> exists s | s in store.Values :: s.Key() == CompositeKey(eventId, seatId)
    {
      var key := CompositeKey(eventId, seatId);
      if key in store {
        assert store[key] in store.Values;
      }
    }

    /** `findByEventId`: exactly the stored seats of the event. */
    function FindByEventId(eventId: string): (seats: set<Seat>)
      reads this
      ensures forall s | s in seats :: s in store.Values && s.eventId == eventId
      ensures forall k | k in store && store[k].eventId == eventId :: store[k] in seats
    {
      set k | k in store && store[k].eventId == eventId :: store[k]
    }

    /** `findByEventIdAndStatus`: the event's seats whose current status is `status`. */
    function FindByEventIdAndStatus(eventId: string, status: SeatStatus): (seats: set<Seat>)
      reads this, store.Values
      ensures forall s | s in seats :: s in store.Values && s.eventId == eventId && s.status == status
      ensures forall k | k in store && store[k].eventId == eventId && store[k].status == status :: store[k] in seats
    {
      set k | k in store && store[k].eventId == eventId && store[k].status == status :: store[k]
    }

    /** `findByEventIdAndSection`. */
    function FindByEventIdAndSection(eventId: string, section: string): (seats: set<Seat>)
      reads this
      ensures forall s | s in seats :: s in store.Values && s.eventId == eventId && s.section == section
      ensures forall k | k in store && store[k].eventId == eventId && store[k].section == section :: store[k] in seats
    {
      set k | k in store && store[k].eventId == eventId && store[k].section == section :: store[k]
    }

    function FindAll(): set<Seat>
      reads this
    {
      store.Values
    }

    method DeleteById(eventId: string, seatId: string)
      requires Valid()
      modifies this
      ensures Valid()
      ensures store == old(store) - {CompositeKey(eventId, seatId)}
    {
      store := store - {CompositeKey(eventId, seatId)};
    }

    /** `deleteByEventId`: removes exactly the event's seats and keeps every other one. */
    method DeleteByEventId(eventId: string)
      requires Valid()
      modifies this
      ensures Valid()
      ensures forall k :: k in store <==> k in old(store) && old(store)[k].eventId != eventId
      ensures forall k | k in store :: store[k] == old(store)[k]
      ensures FindByEventId(eventId) == {}
    {
      store := map k | k in store && store[k].eventId != eventId :: store[k];
    }

    method DeleteAll()
      modifies this
      ensures Valid() && store == map[]
    {
      store := map[];
    }

    /** `count`: the number of keys. */
    function Count(): (n: nat)
      reads this
      ensures n == |store.Keys|
    {
      |store|
    }

    /** The keys whose seat belongs to the event: what the stream in `countByEventId` counts. */
    function EventKeys(eventId: string): set<string>
      reads this
    {
      set k | k in store && store[k].eventId == eventId
    }

    /** `countByEventId`: one per stored seat of the event, so it is the size of `findByEventId`. */
    function CountByEventId(eventId: string): (n: nat)
      requires Valid()
      reads this
      ensures n == |FindByEventId(eventId)|
      ensures n <= Count()
    {
      var keys := EventKeys(eventId);
      assert forall k, k' | k in keys && k' in keys && store[k] == store[k'] :: k == store[k].Key() == k';
      Sets.InjectiveImageCard(store, keys);
      assert FindByEventId(eventId) == Sets.Image(store, keys);
      Sets.SubsetCard(keys, store.Keys);
      |keys|
    }
  }
}
