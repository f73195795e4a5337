/**
 * The fluent builder of declarative HTTP clients: it collects a base URL,
 * two timeouts, a list of request interceptors and default headers given
 * as key/value pairs. Building the client itself (the HTTP library) is not
 * part of this model; durations are milliseconds and interceptors opaque
 * handles.
 */
module RestClientBuilder {

  import opened Wrappers

  /** Five seconds, the default of both timeouts. */
  const DEFAULT_TIMEOUT_MS: int := 5000

  type Interceptor = nat

  datatype IllegalArgumentException = IllegalArgumentException(message: string)

  /**
   * The header map after putting the pairs `(pairs[0], pairs[1])`,
   * `(pairs[2], pairs[3])`, … into `m` in order; a last unpaired key is
   * ignored.
   */
  function PutPairs(m: map<string, string>, pairs: seq<string>): map<string, string>
    decreases |pairs|
  {
    if |pairs| < 2 then m
    else
      var n := |pairs| - |pairs| % 2;
      var prev := PutPairs(m, pairs[..n - 2]);
      prev[pairs[n - 2] := pairs[n - 1]]
  }

  /** The keys of the pairs: the elements at even positions. */
  ghost predicate IsPairKey(pairs: seq<string>, k: string)
  {
    exists j :: 0 <= j < |pairs| - 1 && j % 2 == 0 && pairs[j] == k
  }

  /** Putting the pairs adds exactly their keys; no other key is added, removed or changed. */
  lemma {:induction false} PutPairsKeys(m: map<string, string>, pairs: seq<string>, k: string)
    requires |pairs| % 2 == 0
    ensures k in PutPairs(m, pairs) <==> k in m || IsPairKey(pairs, k)
    ensures !IsPairKey(pairs, k) && k in m ==> PutPairs(m, pairs)[k] == m[k]
    decreases |pairs|
  {
    if |pairs| >= 2 {
      var n := |pairs|;
      var front := pairs[..n - 2];
      PutPairsKeys(m, front, k);
      assert IsPairKey(pairs, k) <==> IsPairKey(front, k) || pairs[n - 2] == k by {
        if IsPairKey(pairs, k) {
          var j :| 0 <= j < n - 1 && j % 2 == 0 && pairs[j] == k;
          if j < n - 2 {
            assert front[j] == k;
          }
        }
        if IsPairKey(front, k) {
          var j :| 0 <= j < |front| - 1 && j % 2 == 0 && front[j] == k;
          assert pairs[j] == k;
        }
      }
    }
  }

  /**
   * A later pair overwrites an earlier one: the value a key ends with is the
   * one of the last pair naming it.
   */
  lemma {:induction false} LastPairWins(m: map<string, string>, pairs: seq<string>, j: int)
    requires |pairs| % 2 == 0 && 0 <= j < |pairs| - 1 && j % 2 == 0
    requires forall j' :: j < j' < |pairs| - 1 && j' % 2 == 0 ==> pairs[j'] != pairs[j]
    ensures pairs[j] in PutPairs(m, pairs) && PutPairs(m, pairs)[pairs[j]] == pairs[j + 1]
    decreases |pairs|
  {
    var n := |pairs|;
    if j < n - 2 {
      var front := pairs[..n - 2];
      LastPairWins(m, front, j);
      assert pairs[n - 2] != pairs[j];
    }
  }

  class RestClientBuilder {
    var baseUrl: Option<string>
    var connectionTimeoutMs: Option<int>
    var readTimeoutMs: Option<int>
    var interceptors: seq<Interceptor>
    var headers: map<string, string>

    /** A new builder: no URL, five-second timeouts, no interceptors and no headers. */
    constructor ()
      ensures baseUrl.None? && connectionTimeoutMs == Some(DEFAULT_TIMEOUT_MS) && readTimeoutMs == Some(DEFAULT_TIMEOUT_MS)
      ensures interceptors == [] && headers == map[]
    {
      baseUrl := None;
      connectionTimeoutMs := Some(DEFAULT_TIMEOUT_MS);
      readTimeoutMs := Some(DEFAULT_TIMEOUT_MS);
      interceptors := [];
      headers := map[];
    }

    /** `url`: sets the base URL and returns this builder. */
    method Url(url: Option<string>) returns (b: RestClientBuilder)
      modifies this
      ensures b == this && baseUrl == url
      ensures connectionTimeoutMs == old(connectionTimeoutMs) && readTimeoutMs == old(readTimeoutMs)
      ensures interceptors == old(interceptors) && headers == old(headers)
    {
      baseUrl := url;
      b := this;
    }

    /** `connectionTimeout`: sets the connection timeout and returns this builder. */
    method ConnectionTimeout(durationMs: Option<int>) returns (b: RestClientBuilder)
      modifies this
      ensures b == this && connectionTimeoutMs == durationMs
      ensures baseUrl == old(baseUrl) && readTimeoutMs == old(readTimeoutMs)
      ensures interceptors == old(interceptors) && headers == old(headers)
    {
      connectionTimeoutMs := durationMs;
      b := this;
    }

    /** `readTimeout`: sets the read timeout and returns this builder. */
    method ReadTimeout(durationMs: Option<int>) returns (b: RestClientBuilder)
      modifies this
      ensures b == this && readTimeoutMs == durationMs
      ensures baseUrl == old(baseUrl) && connectionTimeoutMs == old(connectionTimeoutMs)
      ensures interceptors == old(interceptors) && headers == old(headers)
    {
      readTimeoutMs := durationMs;
      b := this;
    }

    /** `requestInterceptors`: replaces the whole list, not appending to it, and returns this builder. */
    method RequestInterceptors(list: seq<Interceptor>) returns (b: RestClientBuilder)
      modifies this
      ensures b == this && interceptors == list
      ensures baseUrl == old(baseUrl) && connectionTimeoutMs == old(connectionTimeoutMs) && readTimeoutMs == old(readTimeoutMs)
      ensures headers == old(headers)
    {
      interceptors := list;
      b := this;
    }

    /**
     * `headers`: an odd number of arguments is refused before anything is
     * put; otherwise each key/value pair is put in order, so a later pair
     * overwrites an earlier one with the same key.
     */
    method Headers(keyValuePairs: seq<string>) returns (r: Result<RestClientBuilder, IllegalArgumentException>)
      modifies this
      ensures |keyValuePairs| % 2 != 0 ==>
                r == Err(IllegalArgumentException("Headers must be key-value pairs")) && headers == old(headers)
      ensures |keyValuePairs| % 2 == 0 ==> r == Ok(this) && headers == PutPairs(old(headers), keyValuePairs)
      ensures baseUrl == old(baseUrl) && connectionTimeoutMs == old(connectionTimeoutMs) && readTimeoutMs == old(readTimeoutMs)
      ensures interceptors == old(interceptors)
    {
      if |keyValuePairs| % 2 != 0 {
        return Err(IllegalArgumentException("Headers must be key-value pairs"));
      }
      var i := 0;
      while i < |keyValuePairs|
        invariant 0 <= i <= |keyValuePairs| && i % 2 == 0
        invariant headers == PutPairs(old(headers), keyValuePairs[..i])
        invariant baseUrl == old(baseUrl) && connectionTimeoutMs == old(connectionTimeoutMs) && readTimeoutMs == old(readTimeoutMs)
        invariant interceptors == old(interceptors)
      {
        assert keyValuePairs[..i + 2][..i] == keyValuePairs[..i];
        headers := headers[keyValuePairs[i] := keyValuePairs[i + 1]];
        i := i + 2;
      }
      assert keyValuePairs[..i] == keyValuePairs;
      r := Ok(this);
    }
  }
}
