/**
 * Seat locks: `seat:lock:{eventId}:{seatId}` holds the user who holds the
 * seat, for five minutes. Locking and owner-only unlocking each run as one
 * atomic script, so each is one step here.
 */
module SeatLockStore {

  import opened Wrappers
  import opened RedisValues
  import Domain

  const LOCK_KEY_PREFIX: string := "seat:lock:"
  const LOCK_TTL_SECONDS: nat := 300

  datatype LockResult = SUCCESS | ALREADY_OWNED | LOCKED

  function LockKey(eventId: string, seatId: string): string
  {
    LOCK_KEY_PREFIX + Domain.CompositeKey(eventId, seatId)
  }

  /** The lock script: report the current holder, or take the free lock for five minutes. */
  function TryLockStep(s: Store, key: string, userId: string, now: int): (r: (LockResult, Store))
    ensures Get(s, key, now).None? ==> r.0 == SUCCESS
    ensures Get(s, key, now) == Some(userId) ==> r.0 == ALREADY_OWNED
    ensures Get(s, key, now).Some? && Get(s, key, now) != Some(userId) ==> r.0 == LOCKED
    ensures r.0 == SUCCESS ==> r.1 == SetEx(s, key, userId, LOCK_TTL_SECONDS, now)
    ensures r.0 != SUCCESS ==> r.1 == s
    ensures r.0 != LOCKED <==> Get(r.1, key, now) == Some(userId)
  {
    match Get(s, key, now)
    case Some(current) => (if current == userId then ALREADY_OWNED else LOCKED, s)
    case None => (SUCCESS, SetEx(s, key, userId, LOCK_TTL_SECONDS, now))
  }

  /** The unlock script: delete the key only when `userId` holds it. */
  function UnlockStep(s: Store, key: string, userId: string, now: int): (r: (Store, bool))
    ensures r.1 <==> Get(s, key, now) == Some(userId)
    ensures r.1 ==> r.0 == s - {key} && Get(r.0, key, now).None?
    ensures !r.1 ==> r.0 == s
  {
    if Get(s, key, now) == Some(userId) then (s - {key}, true) else (s, false)
  }

  /**
   * Mutual exclusion: once a user has taken a lock, every other user is
   * refused until its five minutes are over.
   */
  lemma LockExcludesOthers(s: Store, key: string, holder: string, other: string, lockedAt: int, later: int)
    requires TryLockStep(s, key, holder, lockedAt).0 == SUCCESS
    requires other != holder && lockedAt <= later < lockedAt + LOCK_TTL_SECONDS
    ensures TryLockStep(TryLockStep(s, key, holder, lockedAt).1, key, other, later).0 == LOCKED
    ensures UnlockStep(TryLockStep(s, key, holder, lockedAt).1, key, other, later).1 == false
  {
    var s1 := TryLockStep(s, key, holder, lockedAt).1;
    SetExLiveUntil(s, key, holder, LOCK_TTL_SECONDS, lockedAt, later);
    assert Get(s1, key, later) == Some(holder);
  }

  /** After five minutes an untouched lock is free again: the next user takes it. */
  lemma LockLapses(s: Store, key: string, holder: string, other: string, lockedAt: int, later: int)
    requires TryLockStep(s, key, holder, lockedAt).0 == SUCCESS
    requires lockedAt + LOCK_TTL_SECONDS <= later
    ensures TryLockStep(TryLockStep(s, key, holder, lockedAt).1, key, other, later).0 == SUCCESS
  {
    SetExLiveUntil(s, key, holder, LOCK_TTL_SECONDS, lockedAt, later);
  }

  /** Lock, unlock by the holder, and the seat can be taken by someone else at once. */
  lemma UnlockThenRelock(s: Store, key: string, holder: string, other: string, now: int)
    requires TryLockStep(s, key, holder, now).0 == SUCCESS
    ensures UnlockStep(TryLockStep(s, key, holder, now).1, key, holder, now).1
    ensures TryLockStep(UnlockStep(TryLockStep(s, key, holder, now).1, key, holder, now).0, key, other, now).0 == SUCCESS
  {
  }

  /** Locking twice is idempotent for the holder: the second attempt changes nothing. */
  lemma RelockIsIdempotent(s: Store, key: string, userId: string, now: int)
    ensures TryLockStep(TryLockStep(s, key, userId, now).1, key, userId, now).0 != LOCKED ==>
      TryLockStep(TryLockStep(s, key, userId, now).1, key, userId, now).1 == TryLockStep(s, key, userId, now).1
    ensures TryLockStep(s, key, userId, now).0 != LOCKED ==>
      TryLockStep(TryLockStep(s, key, userId, now).1, key, userId, now).0 == ALREADY_OWNED
  {
  }

  class SeatLockRedisRepository {
    var store: Store

    constructor ()
      ensures store == map[]
    {
      store := map[];
    }

    /** `tryLock`. */
    method TryLock(eventId: string, seatId: string, userId: string, now: int) returns (result: LockResult)
      modifies this
      ensures (result, store) == TryLockStep(old(store), LockKey(eventId, seatId), userId, now)
      ensures result != LOCKED <==> IsLockedBy(eventId, seatId, userId, now)
      ensures result == SUCCESS ==> GetRemainingTtl(eventId, seatId, now) == LOCK_TTL_SECONDS
      ensures IsLocked(eventId, seatId, now)
    {
      var r := TryLockStep(store, LockKey(eventId, seatId), userId, now);
      result, store := r.0, r.1;
    }

    /** `unlock`: only the holder's lock is deleted. */
    method Unlock(eventId: string, seatId: string, userId: string, now: int) returns (unlocked: bool)
      modifies this
      ensures (store, unlocked) == UnlockStep(old(store), LockKey(eventId, seatId), userId, now)
      ensures unlocked == old(IsLockedBy(eventId, seatId, userId, now))
      ensures unlocked ==> !IsLocked(eventId, seatId, now)
      ensures !unlocked ==> store == old(store)
    {
      var r := UnlockStep(store, LockKey(eventId, seatId), userId, now);
      store, unlocked := r.0, r.1;
    }

    /** `getLockedBy`. */
    function GetLockedBy(eventId: string, seatId: string, now: int): (holder: Option<string>)
      reads this
      ensures holder.Some? <==> IsLocked(eventId, seatId, now)
    {
      Get(store, LockKey(eventId, seatId), now)
    }

    /** `isLocked`: EXISTS. */
    predicate IsLocked(eventId: string, seatId: string, now: int)
      reads this
      ensures IsLocked(eventId, seatId, now) <==> Get(store, LockKey(eventId, seatId), now).Some?
    {
      IsLive(store, LockKey(eventId, seatId), now)
    }

    /** `isLockedBy`. */
    function IsLockedBy(eventId: string, seatId: string, userId: string, now: int): (held: bool)
      reads this
      ensures held <==> GetLockedBy(eventId, seatId, now) == Some(userId)
      ensures held ==> IsLocked(eventId, seatId, now)
    {
      var holder := GetLockedBy(eventId, seatId, now);
      holder.Some? && holder.value == userId
    }

    /** `getRemainingTtl`: the lock's remaining seconds, 0 when the seat is not locked. */
    function GetRemainingTtl(eventId: string, seatId: string, now: int): (seconds: nat)
      reads this
      ensures seconds > 0 <==> IsLocked(eventId, seatId, now)
    {
      RemainingSeconds(store, LockKey(eventId, seatId), now)
    }

    /** `forceUnlock`: deletes the lock whoever holds it. */
    method ForceUnlock(eventId: string, seatId: string, now: int)
      modifies this
      ensures store == old(store) - {LockKey(eventId, seatId)}
      ensures !IsLocked(eventId, seatId, now)
    {
      store := Del(store, LockKey(eventId, seatId), now).0;
    }

    /** `getLockTtlSeconds`. */
    function GetLockTtlSeconds(): (seconds: nat)
      ensures seconds == LOCK_TTL_SECONDS == 300
    {
      LOCK_TTL_SECONDS
    }
  }
}
