/**
 * Redis string keys with a time to live, as the token and seat-lock stores
 * use them. Time is whole seconds supplied by the caller; a key whose
 * expiry instant has been reached reads as absent, as Redis makes it.
 */
module RedisValues {

  import opened Wrappers
  import JavaText

  /** A string value and the instant (in seconds) at which it expires. */
  datatype Expiring = Expiring(value: string, expiresAt: int)

  type Store = map<string, Expiring>

  predicate IsLive(s: Store, key: string, now: int)
  {
    key in s && now < s[key].expiresAt
  }

  /** GET: the value of a live key, nil otherwise. */
  function Get(s: Store, key: string, now: int): (r: Option<string>)
    ensures r.Some? <==> IsLive(s, key, now)
    ensures r.Some? ==> r.value == s[key].value
  {
    if IsLive(s, key, now) then Some(s[key].value) else None
  }

  /** TTL in seconds: -2 for a missing key, else the (positive) remaining lifetime. */
  function Ttl(s: Store, key: string, now: int): (t: int)
    ensures t == -2 <==> !IsLive(s, key, now)
    ensures IsLive(s, key, now) ==> t >= 1 && now + t == s[key].expiresAt
  {
    if IsLive(s, key, now) then s[key].expiresAt - now else -2
  }

  /** `ttl != null && ttl > 0 ? ttl : 0`: the remaining lifetime the repositories report. */
  function RemainingSeconds(s: Store, key: string, now: int): (t: nat)
    ensures t > 0 <==> IsLive(s, key, now)
    ensures IsLive(s, key, now) ==> now + t == s[key].expiresAt
  {
    var ttl := Ttl(s, key, now);
    if ttl > 0 then ttl else 0
  }

  /** SET key value EX ttl. */
  function SetEx(s: Store, key: string, value: string, ttl: nat, now: int): (r: Store)
    ensures Get(r, key, now) == (if ttl > 0 then Some(value) else None)
    ensures forall k :: k != key ==> Get(r, k, now) == Get(s, k, now)
  {
    s[key := Expiring(value, now + ttl)]
  }

  /** A value set with a lifetime of `ttl` seconds is readable exactly until that lifetime has passed. */
  lemma SetExLiveUntil(s: Store, key: string, value: string, ttl: nat, now: int, later: int)
    requires now <= later
    ensures Get(SetEx(s, key, value, ttl, now), key, later) == (if later < now + ttl then Some(value) else None)
  {
  }

  /** DEL: removes the key; true iff it was live. */
  function Del(s: Store, key: string, now: int): (r: (Store, bool))
    ensures r.1 == IsLive(s, key, now)
    ensures !IsLive(r.0, key, now) && Ttl(r.0, key, now) == -2
    ensures forall k :: k != key ==> Get(r.0, k, now) == Get(s, k, now)
  {
    (s - {key}, IsLive(s, key, now))
  }

  /**
   * EXPIRE key ttl: false for a missing key; otherwise true, and the key
   * gets the new lifetime, or is deleted when that lifetime is not positive.
   */
  function Expire(s: Store, key: string, ttl: int, now: int): (r: (Store, bool))
    ensures r.1 == IsLive(s, key, now)
    ensures !r.1 ==> r.0 == s
    ensures r.1 && ttl > 0 ==> Get(r.0, key, now) == Get(s, key, now) && Ttl(r.0, key, now) == ttl
    ensures r.1 && ttl <= 0 ==> !IsLive(r.0, key, now)
    ensures forall k :: k != key ==> Get(r.0, k, now) == Get(s, k, now)
  {
    if !IsLive(s, key, now) then (s, false)
    else if ttl <= 0 then (s - {key}, true)
    else (s[key := Expiring(s[key].value, now + ttl)], true)
  }

  /**
   * The live keys that begin with `prefix`. A SCAN with the glob `prefix*`
   * visits exactly these only while `prefix` holds none of the glob
   * metacharacters `*`, `?`, `[` and `\`; the prefixes scanned here are
   * taken to hold none.
   */
  function LiveKeysWithPrefix(s: Store, prefix: string, now: int): (keys: set<string>)
    ensures forall k :: k in keys <==> IsLive(s, k, now) && JavaText.StartsWith(k, prefix)
  {
    set k | k in s && now < s[k].expiresAt && JavaText.StartsWith(k, prefix)
  }
}
