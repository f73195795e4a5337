/**
 * The in-memory idempotency cache: a stored response per idempotency key,
 * with an expiry in epoch seconds. The clock reading is a parameter.
 */
module IdempotencyStore {

  import opened Wrappers

  /** `CachedResponse`: status, content type and body bytes. */
  datatype CachedResponse = CachedResponse(status: int, contentType: Option<string>, body: seq<bv8>)

  datatype Entry = Entry(response: CachedResponse, expiresAtEpochSeconds: int)

  /** An entry is served while its expiry is not before `now`. */
  predicate Live(e: Entry, now: int)
  {
    e.expiresAtEpochSeconds >= now
  }

  class InMemoryIdempotencyStore {
    var cache: map<string, Entry>

    constructor ()
      ensures cache == map[]
    {
      cache := map[];
    }

    /**
     * `get`: the cached response of a live entry. An expired entry is purged
     * on the way; no other key is touched.
     */
    method Get(key: string, now: int) returns (r: Option<CachedResponse>)
      modifies this
      ensures key !in old(cache) ==> r.None? && cache == old(cache)
      ensures key in old(cache) && !Live(old(cache)[key], now) ==> r.None? && cache == old(cache) - {key}
      ensures key in old(cache) && Live(old(cache)[key], now) ==> r == Some(old(cache)[key].response) && cache == old(cache)
      ensures r.Some? <==> key in old(cache) && Live(old(cache)[key], now)
      ensures forall k | k != key :: (k in cache <==> k in old(cache)) && (k in cache ==> cache[k] == old(cache)[k])
    {
      if key !in cache {
        return None;
      }
      var entry := cache[key];
      if entry.expiresAtEpochSeconds < now {
        cache := cache - {key};
        return None;
      }
      return Some(entry.response);
    }

    /**
     * `putIfAbsent`: stores the response with expiry now + ttl exactly when
     * the key has no entry, expired or not, and reports whether it did.
     */
    method PutIfAbsent(key: string, response: CachedResponse, ttlSeconds: int, now: int) returns (stored: bool)
      modifies this
      ensures stored <==> key !in old(cache)
      ensures stored ==> cache == old(cache)[key := Entry(response, now + ttlSeconds)]
      ensures !stored ==> cache == old(cache)
    {
      var expiresAt := now + ttlSeconds;
      var entry := Entry(response, expiresAt);
      stored := key !in cache;
      if stored {
        cache := cache[key := entry];
      }
    }
  }

  /**
   * A stored response is served back while it is live: after a successful
   * `putIfAbsent` with a non-negative ttl, a `get` at any time up to
   * now + ttl returns it.
   */
  method PutThenGet(store: InMemoryIdempotencyStore, key: string, response: CachedResponse, ttlSeconds: int, now: int, later: int)
    returns (stored: bool, r: Option<CachedResponse>)
    requires now <= later <= now + ttlSeconds
    modifies store
    ensures stored <==> key !in old(store.cache)
    ensures stored ==> r == Some(response)
    ensures !stored ==> r == (if Live(old(store.cache)[key], later) then Some(old(store.cache)[key].response) else None)
  {
    stored := store.PutIfAbsent(key, response, ttlSeconds, now);
    r := store.Get(key, later);
  }
}
