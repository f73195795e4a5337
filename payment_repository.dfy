/** The in-memory payment table, keyed by payment id. */
module PaymentRepository {

  import opened Wrappers
  import opened Domain

  /**
   * How `findByReservationId` can end: with a payment, with none, or with
   * the NullPointerException raised by calling `equals` on a null
   * reservation id.
   */
  datatype Lookup = Found(payment: Payment) | NotFound | NullReservationId

  function LookupOf(o: Option<Payment>): Lookup
  {
    match o
    case Some(p) => Found(p)
    case None => NotFound
  }

  predicate Matches(p: Payment, reservationId: string)
  {
    p.reservationId == Some(reservationId)
  }

  /**
   * The stream of `findByReservationId` as written, over the payments in
   * encounter order: each stored id's `equals` is called, so the first
   * null id met before a match ends the search with an exception.
   */
  function FindFirstAsWritten(ps: seq<Payment>, reservationId: string): (r: Lookup)
    ensures r.Found? ==> r.payment in ps && Matches(r.payment, reservationId)
    ensures r.NotFound? <==> forall p | p in ps :: p.reservationId.Some? && !Matches(p, reservationId)
    ensures r.NullReservationId? ==> exists p | p in ps :: p.reservationId.None?
  {
    if ps == [] then NotFound
    else if ps[0].reservationId.None? then NullReservationId
    else if Matches(ps[0], reservationId) then Found(ps[0])
    else FindFirstAsWritten(ps[1..], reservationId)
  }

  /** The intended search: the first payment whose reservation id is the given one, skipping null ids. */
  function FindFirst(ps: seq<Payment>, reservationId: string): (r: Option<Payment>)
    ensures r.Some? ==> r.value in ps && Matches(r.value, reservationId)
    ensures r.None? <==> forall p | p in ps :: !Matches(p, reservationId)
  {
    if ps == [] then None
    else if Matches(ps[0], reservationId) then Some(ps[0])
    else FindFirst(ps[1..], reservationId)
  }

  /** While no stored reservation id is null, the search as written finds what the intended one finds. */
  lemma {:induction false} AsWrittenAgreesWithoutNulls(ps: seq<Payment>, reservationId: string)
    requires forall p | p in ps :: p.reservationId.Some?
    ensures FindFirstAsWritten(ps, reservationId) == LookupOf(FindFirst(ps, reservationId))
  {
    if ps != [] && !Matches(ps[0], reservationId) {
      AsWrittenAgreesWithoutNulls(ps[1..], reservationId);
    }
  }

  /**
   * With only a failed payment stored (its reservation id is null), the
   * lookup of "RSV-1" throws as written, where the corrected lookup finds
   * nothing.
   */
  lemma FailedPaymentBreaksLookup()
    ensures var failed := Payment("PAY-1", "user-1", None, 100_000, FAILED, None);
      FindFirstAsWritten([failed], "RSV-1") == NullReservationId &&
      FindFirst([failed], "RSV-1") == None
  {
  }

  /** A prefix of non-null, non-matching payments does not change the search as written. */
  lemma {:induction false} SkipUnmatched(visited: seq<Payment>, rest: seq<Payment>, reservationId: string)
    requires forall p | p in visited :: p.reservationId.Some? && !Matches(p, reservationId)
    ensures FindFirstAsWritten(visited + rest, reservationId) == FindFirstAsWritten(rest, reservationId)
  {
    if visited != [] {
      assert (visited + rest)[1..] == visited[1..] + rest;
      SkipUnmatched(visited[1..], rest, reservationId);
    } else {
      assert visited + rest == rest;
    }
  }

  /** Some encounter order of a set of payments. */
  ghost function Enumerate(s: set<Payment>): (r: seq<Payment>)
    ensures forall p :: p in r <==> p in s
    decreases |s|
  {
    if s == {} then []
    else
      var p :| p in s;
      [p] + Enumerate(s - {p})
  }

  class PaymentMemoryRepository {
    var store: map<string, Payment>

    /** Each payment is stored under its own id. */
    ghost predicate Valid()
      reads this
    {
      forall id | id in store :: store[id].paymentId == id
    }

    constructor ()
      ensures Valid() && store == map[]
    {
      store := map[];
    }

    /** `save`: keyed by payment id, replacing any payment with that id. */
    method Save(payment: Payment) returns (saved: Payment)
      requires Valid()
      modifies this
      ensures Valid()
      ensures saved == payment
      ensures store == old(store)[payment.paymentId := payment]
      ensures FindById(payment.paymentId) == Some(payment)
      ensures Count() == old(Count()) + (if old(ExistsById(payment.paymentId)) then 0 else 1)
    {
      store := store[payment.paymentId := payment];
      saved := payment;
    }

    /** `findById`. */
    function FindById(paymentId: string): (found: Option<Payment>)
      reads this
      ensures found.Some? <==> ExistsById(paymentId)
      ensures found.Some? ==> found.value == store[paymentId]
    {
      if paymentId in store then Some(store[paymentId]) else None
    }

    /**
     * `findByReservationId` as written: the stored payments are met in some
     * order (`order`), and the result is that of the stream over it.
     */
    method FindByReservationIdAsWritten(reservationId: string) returns (result: Lookup, ghost order: seq<Payment>)
      ensures forall p :: p in order <==> p in store.Values
      ensures result == FindFirstAsWritten(order, reservationId)
      ensures result.Found? ==> result.payment in store.Values && Matches(result.payment, reservationId)
      ensures result.NotFound? <==> forall p | p in store.Values :: p.reservationId.Some? && !Matches(p, reservationId)
      ensures result.NullReservationId? ==> exists p | p in store.Values :: p.reservationId.None?
    {
      var remaining := store.Values;
      ghost var visited: seq<Payment> := [];
      while remaining != {}
        invariant remaining <= store.Values
        invariant forall p :: p in visited <==> p in store.Values && p !in remaining
        invariant forall p | p in visited :: p.reservationId.Some? && !Matches(p, reservationId)
        decreases |remaining|
      {
        var p :| p in remaining;
        if p.reservationId.None? || Matches(p, reservationId) {
          result := if p.reservationId.None? then NullReservationId else Found(p);
          order := visited + ([p] + Enumerate(remaining - {p}));
          SkipUnmatched(visited, [p] + Enumerate(remaining - {p}), reservationId);
          return;
        }
        visited := visited + [p];
        remaining := remaining - {p};
      }
      result := NotFound;
      order := visited;
    }

    /** `findByReservationId` with null reservation ids skipped. */
    method FindByReservationId(reservationId: string) returns (found: Option<Payment>, ghost order: seq<Payment>)
      ensures forall p :: p in order <==> p in store.Values
      ensures found == FindFirst(order, reservationId)
      ensures found.Some? ==> found.value in store.Values && Matches(found.value, reservationId)
      ensures found.None? <==> forall p | p in store.Values :: !Matches(p, reservationId)
    {
      var remaining := store.Values;
      ghost var visited: seq<Payment> := [];
      while remaining != {}
        invariant remaining <= store.Values
        invariant forall p :: p in visited <==> p in store.Values && p !in remaining
        invariant forall p | p in visited :: !Matches(p, reservationId)
        decreases |remaining|
      {
        var p :| p in remaining;
        if Matches(p, reservationId) {
          found := Some(p);
          order := visited + ([p] + Enumerate(remaining - {p}));
          SkipMatched(visited, [p] + Enumerate(remaining - {p}), reservationId);
          return;
        }
        visited := visited + [p];
        remaining := remaining - {p};
      }
      found := None;
      order := visited;
    }

    /** `findByUserId`: exactly the stored payments of the user. */
    function FindByUserId(userId: string): (found: set<Payment>)
      reads this
      ensures forall p | p in found :: p in store.Values && p.userId == userId
      ensures forall id | id in store && store[id].userId == userId :: store[id] in found
    {
      set id | id in store && store[id].userId == userId :: store[id]
    }

    function FindAll(): (found: set<Payment>)
      reads this
      ensures forall id | id in store :: store[id] in found
      ensures forall p | p in found :: p in store.Values
    {
      store.Values
    }

    /** `existsById`. */
    predicate ExistsById(paymentId: string)
      reads this
    {
      paymentId in store
    }

    /** An id exists exactly when some stored payment carries it. */
    lemma ExistsByIdMeans(paymentId: string)
      requires Valid()
      ensures ExistsById(paymentId) <==> exists p | p in store.Values :: p.paymentId == paymentId
    {
      if paymentId in store {
        assert store[paymentId] in store.Values;
      }
    }

    /** `deleteById`: removes that id and nothing else. */
    method DeleteById(paymentId: string)
      requires Valid()
      modifies this
      ensures Valid()
      ensures store == old(store) - {paymentId}
      ensures !ExistsById(paymentId)
      ensures forall id :: id != paymentId ==> FindById(id) == old(FindById(id))
    {
      store := store - {paymentId};
    }

    method DeleteAll()
      modifies this
      ensures Valid() && store == map[] && Count() == 0
    {
      store := map[];
    }

    /** `count`: the number of stored ids. */
    function Count(): (n: nat)
      reads this
      ensures n == |store.Keys|
    {
      |store|
    }
  }

  /** A prefix of non-matching payments does not change the intended search. */
  lemma {:induction false} SkipMatched(visited: seq<Payment>, rest: seq<Payment>, reservationId: string)
    requires forall p | p in visited :: !Matches(p, reservationId)
    ensures FindFirst(visited + rest, reservationId) == FindFirst(rest, reservationId)
  {
    if visited != [] {
      assert (visited + rest)[1..] == visited[1..] + rest;
      SkipMatched(visited[1..], rest, reservationId);
    } else {
      assert visited + rest == rest;
    }
  }
}
