/**
 * Entry tokens: `token:{eventId}:{userId}` holds the token a user was
 * admitted with, for ten minutes.
 */
module TokenStore {

  import opened Wrappers
  import opened RedisValues
  import Domain
  import JavaText
  import Sets

  const TOKEN_KEY_PREFIX: string := "token:"
  const TOKEN_TTL_SECONDS: nat := 600

  function TokenKey(eventId: string, userId: string): string
  {
    TOKEN_KEY_PREFIX + Domain.CompositeKey(eventId, userId)
  }

  /** The SCAN pattern of `countByEventId`, without its trailing `*`. */
  function EventPrefix(eventId: string): string
  {
    TOKEN_KEY_PREFIX + eventId + ":"
  }

  /** Different (event, user) pairs have different keys when event ids contain no ':'. */
  lemma TokenKeyInjective(e1: string, u1: string, e2: string, u2: string)
    requires ':' !in e1 && ':' !in e2 && (e1, u1) != (e2, u2)
    ensures TokenKey(e1, u1) != TokenKey(e2, u2)
  {
    if TokenKey(e1, u1) == TokenKey(e2, u2) {
      var k1, k2 := Domain.CompositeKey(e1, u1), Domain.CompositeKey(e2, u2);
      assert k1 == TokenKey(e1, u1)[|TOKEN_KEY_PREFIX|..] == k2;
      Domain.CompositeKeyInjective(e1, u1, e2, u2);
    }
  }

  /** Within one event, different users have different keys. */
  lemma TokenKeyPerUser(eventId: string, u1: string, u2: string)
    requires u1 != u2
    ensures TokenKey(eventId, u1) != TokenKey(eventId, u2)
  {
    var n := |EventPrefix(eventId)|;
    assert TokenKey(eventId, u1) == EventPrefix(eventId) + u1 && TokenKey(eventId, u2) == EventPrefix(eventId) + u2;
    assert TokenKey(eventId, u1)[n..] == u1 && TokenKey(eventId, u2)[n..] == u2;
  }

  /** Issuing one token adds at most that token's key to the keys an event's scan counts. */
  lemma HoldersAfterIssue(s: Store, eventId: string, userId: string, token: string, now: int)
    ensures LiveKeysWithPrefix(SetEx(s, TokenKey(eventId, userId), token, TOKEN_TTL_SECONDS, now), EventPrefix(eventId), now)
         <= LiveKeysWithPrefix(s, EventPrefix(eventId), now) + {TokenKey(eventId, userId)}
  {
    var key := TokenKey(eventId, userId);
    var s' := SetEx(s, key, token, TOKEN_TTL_SECONDS, now);
    forall k | k in LiveKeysWithPrefix(s', EventPrefix(eventId), now) && k != key
      ensures k in LiveKeysWithPrefix(s, EventPrefix(eventId), now)
    {
      assert Get(s', k, now) == Get(s, k, now);
    }
  }

  /**
   * Issuing tokens to distinct users one after another, the i-th getting
   * `tokens(i)`: one more issue keeps every earlier user's token.
   */
  lemma IssueKeepsEarlierTokens(s: Store, eventId: string, users: seq<string>, tokens: nat -> string, i: nat, now: int)
    requires i < |users|
    requires forall j, k | 0 <= j < k < |users| :: users[j] != users[k]
    requires forall j | 0 <= j < i :: Get(s, TokenKey(eventId, users[j]), now) == Some(tokens(j))
    ensures var s' := SetEx(s, TokenKey(eventId, users[i]), tokens(i), TOKEN_TTL_SECONDS, now);
      forall j | 0 <= j <= i :: Get(s', TokenKey(eventId, users[j]), now) == Some(tokens(j))
  {
    forall j | 0 <= j < i
      ensures TokenKey(eventId, users[j]) != TokenKey(eventId, users[i])
    {
      TokenKeyPerUser(eventId, users[j], users[i]);
    }
  }

  /** Every token key of an event starts with that event's scan prefix. */
  lemma TokenKeyHasEventPrefix(eventId: string, userId: string)
    ensures JavaText.StartsWith(TokenKey(eventId, userId), EventPrefix(eventId))
  {
    assert TokenKey(eventId, userId) == EventPrefix(eventId) + userId;
  }

  /** No key matches the scan patterns of two different event ids that contain no ':'. */
  lemma PatternsApart(e1: string, e2: string, k: string)
    requires ':' !in e1 && ':' !in e2 && e1 != e2
    requires JavaText.StartsWith(k, EventPrefix(e1))
    ensures !JavaText.StartsWith(k, EventPrefix(e2))
  {
    var p1, p2 := EventPrefix(e1), EventPrefix(e2);
    var n := |TOKEN_KEY_PREFIX|;
    assert forall j | 0 <= j < |e1| :: k[n + j] == p1[n + j] == e1[j];
    assert k[n + |e1|] == p1[n + |e1|] == ':';
    if |p2| <= |k| {
      if |e1| < |e2| {
        assert p2[n + |e1|] == e2[|e1|] != ':';
      } else if |e2| < |e1| {
        assert p2[n + |e2|] == ':' != e1[|e2|] == k[n + |e2|];
      } else {
        var j :| 0 <= j < |e1| && e1[j] != e2[j];
        assert p2[n + j] == e2[j] != k[n + j];
      }
    }
  }

  /** The store after `issueToken` for each of `users` in turn, the i-th receiving `tokens(i)`. */
  function IssuedAll(s: Store, eventId: string, users: seq<string>, tokens: nat -> string, now: int): Store
    decreases |users|
  {
    if users == [] then s
    else
      var n := |users| - 1;
      SetEx(IssuedAll(s, eventId, users[..n], tokens, now), TokenKey(eventId, users[n]), tokens(n), TOKEN_TTL_SECONDS, now)
  }

  /** After issuing to distinct users in turn, each holds the token issued to them. */
  lemma {:induction false} IssuedAllTokens(s: Store, eventId: string, users: seq<string>, tokens: nat -> string, now: int)
    requires forall j, k | 0 <= j < k < |users| :: users[j] != users[k]
    ensures forall j | 0 <= j < |users| :: Get(IssuedAll(s, eventId, users, tokens, now), TokenKey(eventId, users[j]), now) == Some(tokens(j))
    decreases |users|
  {
    if users != [] {
      var n := |users| - 1;
      IssuedAllTokens(s, eventId, users[..n], tokens, now);
      assert forall j | 0 <= j < n :: users[..n][j] == users[j];
      IssueKeepsEarlierTokens(IssuedAll(s, eventId, users[..n], tokens, now), eventId, users, tokens, n, now);
    }
  }

  /** Issuing to `users` adds at most one key per user to the keys the event's scan counts. */
  lemma {:induction false} IssuedAllHolders(s: Store, eventId: string, users: seq<string>, tokens: nat -> string, now: int)
    ensures |LiveKeysWithPrefix(IssuedAll(s, eventId, users, tokens, now), EventPrefix(eventId), now)|
         <= |LiveKeysWithPrefix(s, EventPrefix(eventId), now)| + |users|
    decreases |users|
  {
    if users != [] {
      var n := |users| - 1;
      var s' := IssuedAll(s, eventId, users[..n], tokens, now);
      IssuedAllHolders(s, eventId, users[..n], tokens, now);
      HoldersAfterIssue(s', eventId, users[n], tokens(n), now);
      var before := LiveKeysWithPrefix(s', EventPrefix(eventId), now);
      Sets.SubsetCard(LiveKeysWithPrefix(IssuedAll(s, eventId, users, tokens, now), EventPrefix(eventId), now),
                      before + {TokenKey(eventId, users[n])});
    }
  }

  /** Issuing tokens for one event leaves every key outside its scan pattern as it was. */
  lemma {:induction false} IssuedAllElsewhere(s: Store, eventId: string, users: seq<string>, tokens: nat -> string, now: int, k: string)
    requires !JavaText.StartsWith(k, EventPrefix(eventId))
    ensures k in IssuedAll(s, eventId, users, tokens, now) <==> k in s
    ensures k in s ==> IssuedAll(s, eventId, users, tokens, now)[k] == s[k]
    decreases |users|
  {
    if users != [] {
      var n := |users| - 1;
      IssuedAllElsewhere(s, eventId, users[..n], tokens, now, k);
      TokenKeyHasEventPrefix(eventId, users[n]);
    }
  }

  /**
   * Issuing tokens for one event changes neither the tokens nor the holder
   * count of another, when neither event id contains ':'.
   */
  lemma IssuedAllOtherEvent(s: Store, eventId: string, users: seq<string>, tokens: nat -> string, now: int, other: string)
    requires ':' !in eventId && ':' !in other && eventId != other
    ensures forall u :: Get(IssuedAll(s, eventId, users, tokens, now), TokenKey(other, u), now) == Get(s, TokenKey(other, u), now)
    ensures LiveKeysWithPrefix(IssuedAll(s, eventId, users, tokens, now), EventPrefix(other), now)
         == LiveKeysWithPrefix(s, EventPrefix(other), now)
  {
    var s' := IssuedAll(s, eventId, users, tokens, now);
    forall k | JavaText.StartsWith(k, EventPrefix(other))
      ensures (k in s' <==> k in s) && (k in s ==> s'[k] == s[k])
    {
      PatternsApart(other, eventId, k);
      IssuedAllElsewhere(s, eventId, users, tokens, now, k);
    }
    forall u ensures Get(s', TokenKey(other, u), now) == Get(s, TokenKey(other, u), now) {
      TokenKeyHasEventPrefix(other, u);
    }
  }

  class TokenRedisRepository {
    var store: Store

    constructor ()
      ensures store == map[]
    {
      store := map[];
    }

    /**
     * `issueToken`: stores a fresh token for ten minutes and returns it. The
     * random UUID is the `token` parameter.
     */
    method IssueToken(eventId: string, userId: string, token: string, now: int) returns (issued: string)
      modifies this
      ensures issued == token
      ensures store == SetEx(old(store), TokenKey(eventId, userId), token, TOKEN_TTL_SECONDS, now)
      ensures GetToken(eventId, userId, now) == Some(token) && IsValidToken(eventId, userId, token, now)
      ensures GetRemainingTtl(eventId, userId, now) == TOKEN_TTL_SECONDS
    {
      store := SetEx(store, TokenKey(eventId, userId), token, TOKEN_TTL_SECONDS, now);
      issued := token;
    }

    /** `getToken`. */
    function GetToken(eventId: string, userId: string, now: int): (token: Option<string>)
      reads this
      ensures token.Some? <==> HasToken(eventId, userId, now)
    {
      Get(store, TokenKey(eventId, userId), now)
    }

    /** `isValidToken`: a token is valid iff it is the one stored for the user. */
    function IsValidToken(eventId: string, userId: string, token: string, now: int): (valid: bool)
      reads this
      ensures valid <==> GetToken(eventId, userId, now) == Some(token)
      ensures valid ==> HasToken(eventId, userId, now)
    {
      var stored := GetToken(eventId, userId, now);
      stored.Some? && stored.value == token
    }

    /** `hasToken`: EXISTS. */
    predicate HasToken(eventId: string, userId: string, now: int)
      reads this
      ensures HasToken(eventId, userId, now) <==> Get(store, TokenKey(eventId, userId), now).Some?
    {
      IsLive(store, TokenKey(eventId, userId), now)
    }

    /** `getRemainingTtl`: the token's remaining seconds, 0 when there is none. */
    function GetRemainingTtl(eventId: string, userId: string, now: int): (seconds: nat)
      reads this
      ensures seconds > 0 <==> HasToken(eventId, userId, now)
    {
      RemainingSeconds(store, TokenKey(eventId, userId), now)
    }

    /** `deleteToken`: true iff a token was removed. */
    method DeleteToken(eventId: string, userId: string, now: int) returns (deleted: bool)
      modifies this
      ensures deleted == old(HasToken(eventId, userId, now))
      ensures (store, deleted) == Del(old(store), TokenKey(eventId, userId), now)
      ensures !HasToken(eventId, userId, now) && GetRemainingTtl(eventId, userId, now) == 0
    {
      var r := Del(store, TokenKey(eventId, userId), now);
      store, deleted := r.0, r.1;
    }

    /**
     * `extendToken`: false when there is no token; otherwise EXPIRE with the
     * remaining lifetime plus `additionalSeconds` (a non-positive total
     * deletes the token, as EXPIRE does).
     */
    method ExtendToken(eventId: string, userId: string, additionalSeconds: int, now: int) returns (extended: bool)
      modifies this
      ensures extended == old(HasToken(eventId, userId, now))
      ensures !extended ==> store == old(store)
      ensures extended ==> store == Expire(old(store), TokenKey(eventId, userId), old(GetRemainingTtl(eventId, userId, now)) + additionalSeconds, now).0
      ensures extended && old(GetRemainingTtl(eventId, userId, now)) + additionalSeconds > 0 ==>
        GetToken(eventId, userId, now) == old(GetToken(eventId, userId, now)) &&
        GetRemainingTtl(eventId, userId, now) == old(GetRemainingTtl(eventId, userId, now)) + additionalSeconds
      ensures extended && old(GetRemainingTtl(eventId, userId, now)) + additionalSeconds <= 0 ==> !HasToken(eventId, userId, now)
    {
      var key := TokenKey(eventId, userId);
      var currentTtl := Ttl(store, key, now);
      if currentTtl <= 0 {
        return false;
      }
      var r := Expire(store, key, currentTtl + additionalSeconds, now);
      store, extended := r.0, r.1;
    }

    /**
     * The live token keys the scan pattern `token:{eventId}:*` matches, read
     * as a plain prefix match: the event id is taken to hold no glob
     * metacharacter.
     */
    function TokenHolders(eventId: string, now: int): (keys: set<string>)
      reads this
      ensures forall u :: HasToken(eventId, u, now) ==> TokenKey(eventId, u) in keys
    {
      forall u ensures HasToken(eventId, u, now) ==> TokenKey(eventId, u) in LiveKeysWithPrefix(store, EventPrefix(eventId), now) {
        TokenKeyHasEventPrefix(eventId, u);
      }
      LiveKeysWithPrefix(store, EventPrefix(eventId), now)
    }

    /**
     * `countByEventId`: walks a SCAN cursor over the keys matching
     * `token:{eventId}:*` and counts them (a prefix match, as in
     * `TokenHolders`).
     */
    method CountByEventId(eventId: string, now: int) returns (count: nat)
      ensures count == |TokenHolders(eventId, now)|
    {
      var remaining := TokenHolders(eventId, now);
      count := 0;
      while remaining != {}
        invariant count + |remaining| == |TokenHolders(eventId, now)|
        decreases |remaining|
      {
        var key :| key in remaining;
        remaining := remaining - {key};
        count := count + 1;
      }
    }
  }

  /** A token is accepted exactly until ten minutes after it was issued. */
  lemma TokenValidForTenMinutes(s: Store, eventId: string, userId: string, token: string, issuedAt: int, later: int)
    requires issuedAt <= later
    ensures Get(SetEx(s, TokenKey(eventId, userId), token, TOKEN_TTL_SECONDS, issuedAt), TokenKey(eventId, userId), later)
      == if later < issuedAt + 600 then Some(token) else None
  {
    SetExLiveUntil(s, TokenKey(eventId, userId), token, TOKEN_TTL_SECONDS, issuedAt, later);
  }
}
