/**
 * The Redis key serializer and the endpoint description logged at start-up.
 * The object template (`RedisTemplate<String, Object>`) writes each key
 * through a serializer that puts the "turnstile:" prefix in front of it, and
 * takes the prefix off a key it reads back. The string template that the
 * queue, token and seat-lock stores use has no such serializer: their keys
 * are stored as they are. Keys are strings here; their UTF-8 encoding is
 * not modelled.
 */
module RedisConfig {

  import opened Wrappers
  import opened JavaText

  /** The prefix the key serializer is built with. */
  const KEY_PREFIX: string := "turnstile:"

  /** `PrefixStringRedisSerializer`: a string serializer that namespaces keys under `prefix`. */
  datatype PrefixStringRedisSerializer = PrefixStringRedisSerializer(prefix: string)
  {
    /**
     * `serialize`: a null key is handed to the plain string serializer as
     * null; any other key is stored with the prefix in front, unless it
     * already starts with the prefix.
     */
    function Serialize(key: Option<string>): (r: Option<string>)
      ensures key.None? <==> r.None?
      ensures r.Some? ==> StartsWith(r.value, prefix)
      ensures key.Some? && StartsWith(key.value, prefix) ==> r == key
      ensures key.Some? && !StartsWith(key.value, prefix) ==> r == Some(prefix + key.value)
    {
      match key
      case None => None
      case Some(k) => Some(if StartsWith(k, prefix) then k else prefix + k)
    }

    /**
     * `deserialize`: a key read back that starts with the prefix loses one
     * copy of it; any other key, and null, comes back as it is.
     */
    function Deserialize(stored: Option<string>): (r: Option<string>)
      ensures stored.None? <==> r.None?
      ensures stored.Some? && StartsWith(stored.value, prefix) ==> prefix + r.value == stored.value
      ensures stored.Some? && !StartsWith(stored.value, prefix) ==> r == stored
    {
      match stored
      case None => None
      case Some(k) => Some(if StartsWith(k, prefix) then k[|prefix|..] else k)
    }
  }

  /** The serializer the Redis template uses for its keys. */
  const KEY_SERIALIZER: PrefixStringRedisSerializer := PrefixStringRedisSerializer(KEY_PREFIX)

  /** Serializing an already serialized key changes nothing. */
  lemma SerializeIdempotent(s: PrefixStringRedisSerializer, key: Option<string>)
    ensures s.Serialize(s.Serialize(key)) == s.Serialize(key)
  {
  }

  /** A key that does not start with the prefix comes back from the store unchanged. */
  lemma DeserializeSerialize(s: PrefixStringRedisSerializer, key: Option<string>)
    requires key.Some? ==> !StartsWith(key.value, s.prefix)
    ensures s.Deserialize(s.Serialize(key)) == key
  {
    if key.Some? {
      var stored := s.prefix + key.value;
      assert StartsWith(stored, s.prefix);
      assert stored[|s.prefix|..] == key.value;
    }
  }

  /**
   * A key that already starts with a non-empty prefix is stored as it is
   * and comes back without that prefix, so it does not survive the round
   * trip.
   */
  lemma PrefixedKeyLosesPrefix(s: PrefixStringRedisSerializer, key: string)
    requires s.prefix != [] && StartsWith(key, s.prefix)
    ensures s.Deserialize(s.Serialize(Some(key))) == Some(key[|s.prefix|..])
    ensures s.Deserialize(s.Serialize(Some(key))) != Some(key)
  {
  }

  /** A stored key comes back and is stored again under the same name when its remainder is not itself prefixed. */
  lemma SerializeDeserialize(s: PrefixStringRedisSerializer, stored: string)
    requires StartsWith(stored, s.prefix) && !StartsWith(stored[|s.prefix|..], s.prefix)
    ensures s.Serialize(s.Deserialize(Some(stored))) == Some(stored)
  {
    assert s.prefix + stored[|s.prefix|..] == stored;
  }

  /** With the configured prefix, the serializer turns "queue:EVT001" into "turnstile:queue:EVT001" and reads it back as it was. */
  lemma QueueKeyRoundTrip()
    ensures KEY_SERIALIZER.Serialize(Some("queue:EVT001")) == Some("turnstile:queue:EVT001")
    ensures KEY_SERIALIZER.Deserialize(Some("turnstile:queue:EVT001")) == Some("queue:EVT001")
  {
    assert !StartsWith("queue:EVT001", KEY_PREFIX) by {
      assert "queue:EVT001"[0] != KEY_PREFIX[0];
    }
    assert StartsWith("turnstile:queue:EVT001", KEY_PREFIX) by {
      assert "turnstile:queue:EVT001"[..|KEY_PREFIX|] == KEY_PREFIX;
    }
    assert "turnstile:queue:EVT001"[|KEY_PREFIX|..] == "queue:EVT001";
    assert KEY_PREFIX + "queue:EVT001" == "turnstile:queue:EVT001";
  }

  /**
   * `resolveEndpoint`: the masked URL when a URL is configured, otherwise
   * host:port when a host is configured, otherwise "unknown". The URL
   * masking goes through `java.net.URI`, which is not part of this model,
   * so it is the parameter `maskRedisUrl`.
   */
  function ResolveEndpoint(url: Option<string>, host: Option<string>, port: int, maskRedisUrl: string -> string): (r: string)
    ensures HasText(url) ==> r == maskRedisUrl(url.value)
    ensures !HasText(url) && HasText(host) ==> r == host.value + ":" + IntToString(port)
    ensures !HasText(url) && !HasText(host) ==> r == "unknown"
  {
    if HasText(url) then maskRedisUrl(url.value)
    else if HasText(host) then host.value + ":" + IntToString(port)
    else "unknown"
  }

  /** Without a URL, the host and port are recoverable from the endpoint text when the host has no ':'. */
  lemma EndpointNamesHostAndPort(host: string, port: int, maskRedisUrl: string -> string)
    requires !IsBlank(host) && ':' !in host
    ensures var r := ResolveEndpoint(None, Some(host), port, maskRedisUrl);
            IndexOfChar(r, ':') == |host| && r[..|host|] == host && r[|host| + 1..] == IntToString(port)
  {
    var r := ResolveEndpoint(None, Some(host), port, maskRedisUrl);
    assert r == host + ":" + IntToString(port);
    assert r[..|host|] == host;
    assert r[|host|] == ':';
    assert r[|host| + 1..] == IntToString(port);
  }
}
