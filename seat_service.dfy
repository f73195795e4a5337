/**
 * Seat browsing and the seat-lock protocol. A seat's effective status
 * combines its stored status with the lock store: RESERVED beats LOCKED
 * beats AVAILABLE.
 */
module SeatService {

  import opened Wrappers
  import opened Domain
  import opened Errors
  import opened Responses
  import EventService
  import SeatRepository
  import ReservationRepository
  import SeatLockStore

  class SeatService {
    const eventService: EventService.EventService
    const seatRepository: SeatRepository.SeatMemoryRepository
    const seatLockRepository: SeatLockStore.SeatLockRedisRepository
    const reservationRepository: ReservationRepository.ReservationMemoryRepository

    constructor (eventService: EventService.EventService,
                 seatRepository: SeatRepository.SeatMemoryRepository,
                 seatLockRepository: SeatLockStore.SeatLockRedisRepository,
                 reservationRepository: ReservationRepository.ReservationMemoryRepository)
      ensures this.eventService == eventService && this.seatRepository == seatRepository
      ensures this.seatLockRepository == seatLockRepository && this.reservationRepository == reservationRepository
    {
      this.eventService := eventService;
      this.seatRepository := seatRepository;
      this.seatLockRepository := seatLockRepository;
      this.reservationRepository := reservationRepository;
    }

    /** `getEffectiveStatus`. */
    function EffectiveStatus(seat: Seat, now: int): (status: SeatStatus)
      reads seat, seatLockRepository
      ensures status == RESERVED <==> seat.IsReserved()
      ensures status == LOCKED <==> !seat.IsReserved() && seatLockRepository.IsLocked(seat.eventId, seat.seatId, now)
      ensures status == AVAILABLE <==> !seat.IsReserved() && !seatLockRepository.IsLocked(seat.eventId, seat.seatId, now)
    {
      if seat.IsReserved() then RESERVED
      else if seatLockRepository.IsLocked(seat.eventId, seat.seatId, now) then LOCKED
      else AVAILABLE
    }

    /** A seat as the seat list reports it. */
    function View(seat: Seat, now: int): (r: SeatResponse)
      reads seat, seatLockRepository
      ensures r.seatId == seat.seatId && r.eventId == seat.eventId && r.status == EffectiveStatus(seat, now)
    {
      SeatResponseWithStatus(seat, EffectiveStatus(seat, now))
    }

    /** `getSeats`: the event must be open; then every seat of the event with its effective status. */
    function GetSeats(eventId: string, now: int): (r: Result<set<SeatResponse>, TurnstileException>)
      reads eventService.eventRepository, seatRepository, seatRepository.store.Values, seatLockRepository
      ensures r.Ok? <==> eventService.ValidateEventOpen(eventId).Ok?
      ensures r.Err? ==> r == Err(eventService.ValidateEventOpen(eventId).error)
      ensures r.Ok? ==> forall k | k in seatRepository.store && seatRepository.store[k].eventId == eventId ::
                          View(seatRepository.store[k], now) in r.value
      ensures r.Ok? ==> forall v | v in r.value :: v.eventId == eventId &&
                          exists s | s in seatRepository.FindByEventId(eventId) :: View(s, now) == v
    {
      match eventService.ValidateEventOpen(eventId)
      case Err(e) => Err(e)
      case Ok(_) =>
        Ok(set s | s in seatRepository.FindByEventId(eventId) :: View(s, now))
    }

    /** `getSeatsBySection`: as `getSeats`, restricted to one section. */
    function GetSeatsBySection(eventId: string, section: string, now: int): (r: Result<set<SeatResponse>, TurnstileException>)
      reads eventService.eventRepository, seatRepository, seatRepository.store.Values, seatLockRepository
      ensures r.Ok? <==> eventService.ValidateEventOpen(eventId).Ok?
      ensures r.Err? ==> r == Err(eventService.ValidateEventOpen(eventId).error)
      ensures r.Ok? ==> forall k | k in seatRepository.store && seatRepository.store[k].eventId == eventId &&
                                  seatRepository.store[k].section == section :: View(seatRepository.store[k], now) in r.value
      ensures r.Ok? ==> forall v | v in r.value :: v.eventId == eventId && v.section == section &&
                          exists s | s in seatRepository.FindByEventIdAndSection(eventId, section) :: View(s, now) == v
    {
      match eventService.ValidateEventOpen(eventId)
      case Err(e) => Err(e)
      case Ok(_) =>
        Ok(set s | s in seatRepository.FindByEventIdAndSection(eventId, section) :: View(s, now))
    }

    /** `findSeatOrThrow`: the stored seat, or SEAT_NOT_FOUND naming the seat id. */
    function FindSeatOrThrow(eventId: string, seatId: string): (r: Result<Seat, TurnstileException>)
      reads seatRepository
      ensures r.Ok? <==> seatRepository.ExistsById(eventId, seatId)
      ensures r.Ok? ==> r.value == seatRepository.store[CompositeKey(eventId, seatId)]
      ensures r.Err? ==> r.error == RaiseWith(SEAT_NOT_FOUND, seatId)
    {
      match seatRepository.FindById(eventId, seatId)
      case Some(seat) => Ok(seat)
      case None => Err(RaiseWith(SEAT_NOT_FOUND, seatId))
    }

    /** `getSeat`: a known seat with its effective status. */
    function GetSeat(eventId: string, seatId: string, now: int): (r: Result<SeatResponse, TurnstileException>)
      reads seatRepository, seatRepository.store.Values, seatLockRepository
      ensures r.Ok? <==> seatRepository.ExistsById(eventId, seatId)
      ensures r.Ok? ==> r.value == View(seatRepository.store[CompositeKey(eventId, seatId)], now)
      ensures r.Err? ==> r.error.errorCode == SEAT_NOT_FOUND
    {
      match FindSeatOrThrow(eventId, seatId)
      case Ok(seat) => Ok(View(seat, now))
      case Err(e) => Err(e)
    }

    /**
     * The checks `lockSeat` makes before touching the lock store, in order:
     * the event is open, the seat exists, and it is neither marked reserved
     * nor recorded in the reservation index.
     */
    function LockableSeat(eventId: string, seatId: string): (r: Result<Seat, TurnstileException>)
      reads eventService.eventRepository, seatRepository, seatRepository.store.Values, reservationRepository
      ensures r.Ok? <==> eventService.ValidateEventOpen(eventId).Ok? && seatRepository.ExistsById(eventId, seatId) &&
                         !seatRepository.store[CompositeKey(eventId, seatId)].IsReserved() &&
                         !reservationRepository.ExistsBySeat(eventId, seatId)
      ensures r.Ok? ==> r.value == seatRepository.store[CompositeKey(eventId, seatId)]
      ensures eventService.ValidateEventOpen(eventId).Err? ==> r == Err(eventService.ValidateEventOpen(eventId).error)
      ensures eventService.ValidateEventOpen(eventId).Ok? && !seatRepository.ExistsById(eventId, seatId) ==>
        r == Err(RaiseWith(SEAT_NOT_FOUND, seatId))
      ensures eventService.ValidateEventOpen(eventId).Ok? && seatRepository.ExistsById(eventId, seatId) &&
              (seatRepository.store[CompositeKey(eventId, seatId)].IsReserved() || reservationRepository.ExistsBySeat(eventId, seatId))
        ==> r == Err(RaiseWith(SEAT_ALREADY_RESERVED, seatId))
    {
      match eventService.ValidateEventOpen(eventId)
      case Err(e) => Err(e)
      case Ok(_) =>
        match FindSeatOrThrow(eventId, seatId)
        case Err(e) => Err(e)
        case Ok(seat) =>
          if seat.IsReserved() || reservationRepository.ExistsBySeat(eventId, seatId) then Err(RaiseWith(SEAT_ALREADY_RESERVED, seatId))
          else Ok(seat)
    }

    /**
     * `lockSeat`: after the checks, one atomic lock attempt. Taking a free
     * lock or holding it already succeeds; a lock held by someone else is
     * SEAT_ALREADY_LOCKED. The lock store changes only on SUCCESS.
     */
    method LockSeat(eventId: string, seatId: string, userId: string, now: int) returns (r: Result<SeatLockResponse, TurnstileException>)
      modifies seatLockRepository
      ensures old(LockableSeat(eventId, seatId)).Err? ==>
        r == Err(old(LockableSeat(eventId, seatId)).error) && seatLockRepository.store == old(seatLockRepository.store)
      ensures old(LockableSeat(eventId, seatId)).Ok? ==>
        (match old(SeatLockStore.TryLockStep(seatLockRepository.store, SeatLockStore.LockKey(eventId, seatId), userId, now))
         case (SUCCESS, s) => seatLockRepository.store == s && r == Ok(LockSucceeded(eventId, seatId, userId, 300))
         case (ALREADY_OWNED, s) => seatLockRepository.store == s &&
           r == Ok(LockAlreadyOwned(eventId, seatId, userId, seatLockRepository.GetRemainingTtl(eventId, seatId, now)))
         case (LOCKED, s) => seatLockRepository.store == s && r == Err(RaiseWith(SEAT_ALREADY_LOCKED, seatId)))
      ensures r.Ok? <==> old(LockableSeat(eventId, seatId)).Ok? && seatLockRepository.IsLockedBy(eventId, seatId, userId, now)
    {
      var checked := LockableSeat(eventId, seatId);
      if checked.Err? {
        return Err(checked.error);
      }
      var result := seatLockRepository.TryLock(eventId, seatId, userId, now);
      match result {
        case SUCCESS =>
          r := Ok(LockSucceeded(eventId, seatId, userId, seatLockRepository.GetLockTtlSeconds()));
        case ALREADY_OWNED =>
          var remainingSeconds := seatLockRepository.GetRemainingTtl(eventId, seatId, now);
          r := Ok(LockAlreadyOwned(eventId, seatId, userId, remainingSeconds));
        case LOCKED =>
          r := Err(RaiseWith(SEAT_ALREADY_LOCKED, seatId));
      }
    }

    /** `unlockSeat`: the seat must exist, and only its holder releases the lock. */
    method UnlockSeat(eventId: string, seatId: string, userId: string, now: int) returns (r: Result<Unit, TurnstileException>)
      modifies seatLockRepository
      ensures !seatRepository.ExistsById(eventId, seatId) ==>
        r == Err(RaiseWith(SEAT_NOT_FOUND, seatId)) && seatLockRepository.store == old(seatLockRepository.store)
      ensures seatRepository.ExistsById(eventId, seatId) ==>
        (seatLockRepository.store, r.Ok?) == SeatLockStore.UnlockStep(old(seatLockRepository.store), SeatLockStore.LockKey(eventId, seatId), userId, now)
      ensures r.Ok? <==> seatRepository.ExistsById(eventId, seatId) && old(seatLockRepository.IsLockedBy(eventId, seatId, userId, now))
      ensures seatRepository.ExistsById(eventId, seatId) && r.Err? ==> r == Err(RaiseWith(SEAT_NOT_LOCKED_BY_USER, seatId))
    {
      var found := FindSeatOrThrow(eventId, seatId);
      if found.Err? {
        return Err(found.error);
      }
      var unlocked := seatLockRepository.Unlock(eventId, seatId, userId, now);
      if !unlocked {
        return Err(RaiseWith(SEAT_NOT_LOCKED_BY_USER, seatId));
      }
      r := Ok(Unit);
    }

    /**
     * `validateSeatLock`: passes only for the lock holder; someone else's
     * lock is SEAT_NOT_LOCKED_BY_USER and no lock is SEAT_LOCK_EXPIRED.
     */
    function ValidateSeatLock(eventId: string, seatId: string, userId: string, now: int): (r: Result<Unit, TurnstileException>)
      reads seatLockRepository
      ensures r.Ok? <==> seatLockRepository.IsLockedBy(eventId, seatId, userId, now)
      ensures !seatLockRepository.IsLocked(eventId, seatId, now) ==> r == Err(RaiseWith(SEAT_LOCK_EXPIRED, seatId))
      ensures seatLockRepository.IsLocked(eventId, seatId, now) && !seatLockRepository.IsLockedBy(eventId, seatId, userId, now) ==>
        r == Err(RaiseWith(SEAT_NOT_LOCKED_BY_USER, seatId))
    {
      if !seatLockRepository.IsLockedBy(eventId, seatId, userId, now) then
        if seatLockRepository.IsLocked(eventId, seatId, now) then Err(RaiseWith(SEAT_NOT_LOCKED_BY_USER, seatId))
        else Err(RaiseWith(SEAT_LOCK_EXPIRED, seatId))
      else Ok(Unit)
    }

    /** `reserveSeat`: marks the stored seat RESERVED, saves it back, and deletes its lock whoever holds it. */
    method ReserveSeat(eventId: string, seatId: string, now: int) returns (r: Result<Unit, TurnstileException>)
      requires seatRepository.Valid()
      modifies seatRepository, seatRepository.store.Values, seatLockRepository
      ensures seatRepository.Valid() && seatRepository.store == old(seatRepository.store)
      ensures r.Ok? <==> seatRepository.ExistsById(eventId, seatId)
      ensures r.Err? ==> r.error == RaiseWith(SEAT_NOT_FOUND, seatId) && seatLockRepository.store == old(seatLockRepository.store)
      ensures r.Err? ==> forall s | s in seatRepository.store.Values :: s.status == old(s.status)
      ensures r.Ok? ==> var seat := seatRepository.store[CompositeKey(eventId, seatId)];
        seat.IsReserved() && EffectiveStatus(seat, now) == RESERVED &&
        (forall s | s in seatRepository.store.Values && s != seat :: s.status == old(s.status)) &&
        seatLockRepository.store == old(seatLockRepository.store) - {SeatLockStore.LockKey(eventId, seatId)} &&
        !seatLockRepository.IsLocked(eventId, seatId, now)
    {
      var found := FindSeatOrThrow(eventId, seatId);
      if found.Err? {
        return Err(found.error);
      }
      var seat := found.value;
      seat.Reserve();
      var _ := seatRepository.Save(seat);
      seatLockRepository.ForceUnlock(eventId, seatId, now);
      r := Ok(Unit);
    }
  }
}
