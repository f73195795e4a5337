/**
 * The mock purchase: a user holding a seat's lock pays, and on success the
 * seat becomes a confirmed reservation. The random draw that decides the
 * outcome, the generated ids and the clock are parameters.
 */
module PaymentService {

  import opened Wrappers
  import opened Domain
  import opened Errors
  import opened Responses
  import PaymentRepository
  import ReservationRepository
  import SeatLockStore
  import TokenStore
  import RedisValues
  import SeatService
  import TokenService

  class PaymentService {
    const seatService: SeatService.SeatService
    const tokenService: TokenService.TokenService
    const paymentRepository: PaymentRepository.PaymentMemoryRepository
    const reservationRepository: ReservationRepository.ReservationMemoryRepository

    constructor (seatService: SeatService.SeatService, tokenService: TokenService.TokenService,
                 paymentRepository: PaymentRepository.PaymentMemoryRepository,
                 reservationRepository: ReservationRepository.ReservationMemoryRepository)
      ensures this.seatService == seatService && this.tokenService == tokenService
      ensures this.paymentRepository == paymentRepository && this.reservationRepository == reservationRepository
    {
      this.seatService := seatService;
      this.tokenService := tokenService;
      this.paymentRepository := paymentRepository;
      this.reservationRepository := reservationRepository;
    }

    /** Everything `processPayment` can change, except the seats' statuses. */
    function Stores(): (map<string, Payment>, ReservationRepository.Tables, RedisValues.Store, RedisValues.Store, map<string, Seat>)
      reads paymentRepository, reservationRepository, seatService.seatLockRepository, tokenService.tokenRepository, seatService.seatRepository
    {
      (paymentRepository.store, reservationRepository.State(), seatService.seatLockRepository.store,
       tokenService.tokenRepository.store, seatService.seatRepository.store)
    }

    /** The checks that let a payment go ahead: own lock, known seat, no reservation for it yet. */
    predicate Accepts(eventId: string, seatId: string, userId: string, now: int)
      reads seatService.seatLockRepository, seatService.seatRepository, reservationRepository
    {
      seatService.ValidateSeatLock(eventId, seatId, userId, now).Ok? &&
      seatService.seatRepository.ExistsById(eventId, seatId) &&
      !reservationRepository.ExistsBySeat(eventId, seatId)
    }

    /**
     * `processPayment`. A rejected request records nothing. An accepted one
     * charges the seat's price: on success it stores a SUCCESS payment and a
     * CONFIRMED reservation sharing the payment and reservation ids, marks
     * the seat RESERVED, releases its lock and deletes the user's token; on
     * failure it stores a FAILED payment without reservation id, keeps the
     * lock and the token, and reports PAYMENT_FAILED.
     */
    method ProcessPayment(eventId: string, seatId: string, userId: string,
                          paymentId: string, reservationId: string, paymentSucceeds: bool,
                          now: int, clock: DateTime)
      returns (r: Result<PaymentResponse, TurnstileException>)
      requires paymentRepository.Valid() && seatService.seatRepository.Valid()
      modifies paymentRepository, reservationRepository, seatService.seatRepository,
               seatService.seatRepository.store.Values, seatService.seatLockRepository, tokenService.tokenRepository
      ensures paymentRepository.Valid() && seatService.seatRepository.Valid()
      ensures seatService.seatRepository.store == old(seatService.seatRepository.store)
      ensures old(seatService.ValidateSeatLock(eventId, seatId, userId, now)).Err? ==>
        r == Err(old(seatService.ValidateSeatLock(eventId, seatId, userId, now)).error)
      ensures old(seatService.ValidateSeatLock(eventId, seatId, userId, now)).Ok? &&
              !seatService.seatRepository.ExistsById(eventId, seatId) ==>
        r == Err(RaiseWith(SEAT_NOT_FOUND, seatId))
      ensures old(seatService.ValidateSeatLock(eventId, seatId, userId, now)).Ok? &&
              seatService.seatRepository.ExistsById(eventId, seatId) &&
              old(reservationRepository.ExistsBySeat(eventId, seatId)) ==>
        r == Err(RaiseWith(SEAT_ALREADY_RESERVED, seatId))
      ensures !old(Accepts(eventId, seatId, userId, now)) ==>
        Stores() == old(Stores()) && forall s | s in seatService.seatRepository.store.Values :: s.status == old(s.status)
      ensures old(Accepts(eventId, seatId, userId, now)) && paymentSucceeds ==>
        var seat := seatService.seatRepository.store[CompositeKey(eventId, seatId)];
        var payment := Payment(paymentId, userId, Some(reservationId), seat.price, SUCCESS, Some(clock));
        r == Ok(PaymentResponseOf(payment)) &&
        paymentRepository.store == old(paymentRepository.store)[paymentId := payment] &&
        reservationRepository.FindBySeat(eventId, seatId).Some? &&
        var reservation := reservationRepository.FindBySeat(eventId, seatId).value;
        reservation.reservationId == reservationId && reservation.paymentId == paymentId &&
        reservation.userId == userId && reservation.amount == seat.price && reservation.IsConfirmed() &&
        reservationRepository.State() == ReservationRepository.Saved(old(reservationRepository.State()), reservation) &&
        seat.IsReserved() && !seatService.seatLockRepository.IsLocked(eventId, seatId, now) &&
        (forall s | s in seatService.seatRepository.store.Values && s != seat :: s.status == old(s.status)) &&
        seatService.seatLockRepository.store == old(seatService.seatLockRepository.store) - {SeatLockStore.LockKey(eventId, seatId)} &&
        !tokenService.HasValidToken(eventId, userId, now) &&
        tokenService.tokenRepository.store ==
          RedisValues.Del(old(tokenService.tokenRepository.store), TokenStore.TokenKey(eventId, userId), now).0
      ensures old(Accepts(eventId, seatId, userId, now)) && !paymentSucceeds ==>
        var seat := seatService.seatRepository.store[CompositeKey(eventId, seatId)];
        r == Err(RaiseWith(PAYMENT_FAILED, paymentId)) &&
        paymentRepository.store == old(paymentRepository.store)[paymentId := Payment(paymentId, userId, None, seat.price, FAILED, None)] &&
        reservationRepository.State() == old(reservationRepository.State()) &&
        seatService.seatLockRepository.store == old(seatService.seatLockRepository.store) &&
        tokenService.tokenRepository.store == old(tokenService.tokenRepository.store) &&
        forall s | s in seatService.seatRepository.store.Values :: s.status == old(s.status)
      ensures r.Ok? ==> reservationRepository.ExistsBySeat(eventId, seatId)
      ensures old(reservationRepository.Valid()) && old(reservationRepository.KeepsSeatKey(reservationId, CompositeKey(eventId, seatId))) ==>
        reservationRepository.Valid()
    {
      var lockCheck := seatService.ValidateSeatLock(eventId, seatId, userId, now);
      if lockCheck.Err? {
        return Err(lockCheck.error);
      }
      var found := seatService.FindSeatOrThrow(eventId, seatId);
      if found.Err? {
        return Err(found.error);
      }
      var seat := found.value;
      if reservationRepository.ExistsBySeat(eventId, seatId) {
        return Err(RaiseWith(SEAT_ALREADY_RESERVED, seatId));
      }
      if paymentSucceeds {
        r := RecordSuccess(eventId, seatId, userId, paymentId, reservationId, seat, now, clock);
      } else {
        r := RecordFailure(userId, paymentId, seat);
      }
    }

    /** The success branch of `processPayment`, once the checks have passed. */
    method RecordSuccess(eventId: string, seatId: string, userId: string, paymentId: string, reservationId: string,
                         seat: Seat, now: int, clock: DateTime)
      returns (r: Result<PaymentResponse, TurnstileException>)
      requires paymentRepository.Valid() && seatService.seatRepository.Valid()
      requires seatService.seatRepository.ExistsById(eventId, seatId)
      requires seat == seatService.seatRepository.store[CompositeKey(eventId, seatId)]
      modifies paymentRepository, reservationRepository, seatService.seatRepository,
               seatService.seatRepository.store.Values, seatService.seatLockRepository, tokenService.tokenRepository
      ensures paymentRepository.Valid() && seatService.seatRepository.Valid()
      ensures seatService.seatRepository.store == old(seatService.seatRepository.store)
      ensures var payment := Payment(paymentId, userId, Some(reservationId), seat.price, SUCCESS, Some(clock));
        r == Ok(PaymentResponseOf(payment)) &&
        paymentRepository.store == old(paymentRepository.store)[paymentId := payment]
      ensures reservationRepository.FindBySeat(eventId, seatId).Some?
      ensures var reservation := reservationRepository.FindBySeat(eventId, seatId).value;
        reservation.reservationId == reservationId && reservation.paymentId == paymentId &&
        reservation.userId == userId && reservation.amount == seat.price && reservation.IsConfirmed()
      ensures reservationRepository.State() ==
        ReservationRepository.Saved(old(reservationRepository.State()), reservationRepository.FindBySeat(eventId, seatId).value)
      ensures seat.IsReserved() && !seatService.seatLockRepository.IsLocked(eventId, seatId, now)
      ensures forall s | s in seatService.seatRepository.store.Values && s != seat :: s.status == old(s.status)
      ensures seatService.seatLockRepository.store == old(seatService.seatLockRepository.store) - {SeatLockStore.LockKey(eventId, seatId)}
      ensures !tokenService.HasValidToken(eventId, userId, now)
      ensures tokenService.tokenRepository.store ==
        RedisValues.Del(old(tokenService.tokenRepository.store), TokenStore.TokenKey(eventId, userId), now).0
      ensures old(reservationRepository.Valid()) && old(reservationRepository.KeepsSeatKey(reservationId, CompositeKey(eventId, seatId))) ==>
        reservationRepository.Valid()
    {
      var payment := SaveConfirmed(eventId, seatId, userId, paymentId, reservationId, seat.price, clock);
      ghost var sold := reservationRepository.FindBySeat(eventId, seatId);
      var reserved := seatService.ReserveSeat(eventId, seatId, now);
      assert reserved.Ok? && seat.IsReserved();
      tokenService.DeleteToken(eventId, userId, now);
      assert reservationRepository.FindBySeat(eventId, seatId) == sold;
      r := Ok(PaymentResponseOf(payment));
    }

    /** The records of a successful payment: a SUCCESS payment and the CONFIRMED reservation it pays for. */
    method SaveConfirmed(eventId: string, seatId: string, userId: string, paymentId: string, reservationId: string,
                         amount: int, clock: DateTime)
      returns (payment: Payment)
      requires paymentRepository.Valid()
      modifies paymentRepository, reservationRepository
      ensures paymentRepository.Valid()
      ensures payment == Payment(paymentId, userId, Some(reservationId), amount, SUCCESS, Some(clock))
      ensures paymentRepository.store == old(paymentRepository.store)[paymentId := payment]
      ensures reservationRepository.FindBySeat(eventId, seatId).Some?
      ensures var reservation := reservationRepository.FindBySeat(eventId, seatId).value;
        reservation.reservationId == reservationId && reservation.paymentId == paymentId &&
        reservation.userId == userId && reservation.amount == amount && reservation.IsConfirmed()
      ensures reservationRepository.State() ==
        ReservationRepository.Saved(old(reservationRepository.State()), reservationRepository.FindBySeat(eventId, seatId).value)
      ensures old(reservationRepository.Valid()) && old(reservationRepository.KeepsSeatKey(reservationId, CompositeKey(eventId, seatId))) ==>
        reservationRepository.Valid()
    {
      payment := Payment(paymentId, userId, Some(reservationId), amount, SUCCESS, Some(clock));
      var _ := paymentRepository.Save(payment);
      var reservation := new Reservation(reservationId, eventId, seatId, userId, paymentId, amount, CONFIRMED, clock);
      var _ := reservationRepository.Save(reservation);
      assert reservationRepository.FindBySeat(eventId, seatId) == Some(reservation);
    }

    /** The failure branch of `processPayment`: only a FAILED payment is stored. */
    method RecordFailure(userId: string, paymentId: string, seat: Seat)
      returns (r: Result<PaymentResponse, TurnstileException>)
      requires paymentRepository.Valid()
      modifies paymentRepository
      ensures paymentRepository.Valid()
      ensures r == Err(RaiseWith(PAYMENT_FAILED, paymentId))
      ensures paymentRepository.store == old(paymentRepository.store)[paymentId := Payment(paymentId, userId, None, seat.price, FAILED, None)]
    {
      var payment := Payment(paymentId, userId, None, seat.price, FAILED, None);
      var _ := paymentRepository.Save(payment);
      r := Err(RaiseWith(PAYMENT_FAILED, paymentId));
    }

    /** `getPayment`: the stored payment, or PAYMENT_NOT_FOUND. */
    function GetPayment(paymentId: string): (r: Result<PaymentResponse, TurnstileException>)
      reads paymentRepository
      ensures r.Ok? <==> paymentRepository.ExistsById(paymentId)
      ensures r.Ok? ==> r.value == PaymentResponseOf(paymentRepository.store[paymentId])
      ensures r.Err? ==> r.error == RaiseWith(PAYMENT_NOT_FOUND, paymentId)
    {
      match paymentRepository.FindById(paymentId)
      case Some(p) => Ok(PaymentResponseOf(p))
      case None => Err(RaiseWith(PAYMENT_NOT_FOUND, paymentId))
    }

    /** `getUserReservations`: one response per stored reservation of the user. */
    function GetUserReservations(userId: string): (responses: set<ReservationResponse>)
      reads reservationRepository, reservationRepository.store.Values
      ensures forall id | id in reservationRepository.store && reservationRepository.store[id].userId == userId ::
                ReservationResponseOf(reservationRepository.store[id]) in responses
      ensures forall v | v in responses :: v.userId == userId
    {
      set res | res in reservationRepository.FindByUserId(userId) :: ReservationResponseOf(res)
    }

    /** `getReservation`: the stored reservation, or RESERVATION_NOT_FOUND. */
    function GetReservation(reservationId: string): (r: Result<ReservationResponse, TurnstileException>)
      reads reservationRepository, reservationRepository.store.Values
      ensures r.Ok? <==> reservationId in reservationRepository.store
      ensures r.Ok? ==> r.value == ReservationResponseOf(reservationRepository.store[reservationId])
      ensures r.Err? ==> r.error == RaiseWith(RESERVATION_NOT_FOUND, reservationId)
    {
      match reservationRepository.FindById(reservationId)
      case Some(res) => Ok(ReservationResponseOf(res))
      case None => Err(RaiseWith(RESERVATION_NOT_FOUND, reservationId))
    }
  }
}
