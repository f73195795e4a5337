/**
 * The access-log filter: requests under a few infrastructure prefixes are
 * not logged; every other request gets the next sequence id and one of
 * three logging strategies: multipart and download requests are logged
 * without bodies, stream requests with the request body only, and all
 * others with both bodies. Logged bodies are normalised to one line and
 * cut at 2000 characters. The regular expressions that recognise download
 * and stream URIs are parameters; what is logged is returned as a value.
 */
module AccessLogFilter {

  import opened Wrappers
  import opened JavaText
  import opened StringUtil
  import NetworkUtil

  const MAX_BODY_LOG_LENGTH: int := 2000
  const TRUNCATION_MARK: string := "... (truncated)"

  /** The range of a Java `long`, the type of the sequence counter. */
  const LONG_MIN: int := -0x8000_0000_0000_0000
  const LONG_MAX: int := 0x7FFF_FFFF_FFFF_FFFF

  /** The URI prefixes whose requests are not logged. */
  const PASS_URI_PREFIXES: seq<string> := ["/actuator", "/swagger-ui", "/v3/api-docs", "/.well-known", "/favicon.ico"]

  /** `anyMatch(uri::startsWith)` over a list of prefixes. */
  predicate StartsWithAny(uri: string, prefixes: seq<string>)
  {
    prefixes != [] && (StartsWith(uri, prefixes[0]) || StartsWithAny(uri, prefixes[1..]))
  }

  /** The search succeeds exactly when some listed prefix starts the URI. */
  lemma {:induction false} StartsWithAnyExists(uri: string, prefixes: seq<string>)
    ensures StartsWithAny(uri, prefixes) <==> exists i :: 0 <= i < |prefixes| && StartsWith(uri, prefixes[i])
    decreases |prefixes|
  {
    if prefixes != [] {
      StartsWithAnyExists(uri, prefixes[1..]);
      assert forall i :: 1 <= i < |prefixes| ==> prefixes[i] == prefixes[1..][i - 1];
      if exists i :: 0 <= i < |prefixes| && StartsWith(uri, prefixes[i]) {
        var i :| 0 <= i < |prefixes| && StartsWith(uri, prefixes[i]);
        if i > 0 {
          assert StartsWith(uri, prefixes[1..][i - 1]);
        }
      }
    }
  }

  /** `shouldNotFilter`: the URI starts with one of the pass prefixes. */
  predicate ShouldNotFilter(uri: string)
    ensures ShouldNotFilter(uri) <==> exists i :: 0 <= i < |PASS_URI_PREFIXES| && StartsWith(uri, PASS_URI_PREFIXES[i])
  {
    StartsWithAnyExists(uri, PASS_URI_PREFIXES);
    StartsWithAny(uri, PASS_URI_PREFIXES)
  }

  /**
   * The test is on prefixes, not path segments: anything that starts with a
   * pass prefix is skipped, "/actuator-report" as much as "/actuator/health".
   */
  lemma PassPrefixSkipsAnyContinuation(i: int, rest: string)
    requires 0 <= i < |PASS_URI_PREFIXES|
    ensures ShouldNotFilter(PASS_URI_PREFIXES[i] + rest)
  {
    var uri := PASS_URI_PREFIXES[i] + rest;
    assert StartsWith(uri, PASS_URI_PREFIXES[i]) by {
      assert uri[..|PASS_URI_PREFIXES[i]|] == PASS_URI_PREFIXES[i];
    }
  }

  /** Requests under "/api" are always logged: no pass prefix starts them. */
  lemma ApiRequestsAreLogged(rest: string)
    ensures !ShouldNotFilter("/api" + rest)
  {
    var uri := "/api" + rest;
    assert uri[1] == 'a' && uri[2] == 'p';
    forall i | 0 <= i < |PASS_URI_PREFIXES| ensures !StartsWith(uri, PASS_URI_PREFIXES[i]) {
      var p := PASS_URI_PREFIXES[i];
      assert |p| >= 3 && (p[1] != 'a' || p[2] != 'p');
    }
  }

  /** `buildUriWithQuery`: "?" and the query string are appended only when the query is not blank. */
  function BuildUriWithQuery(uri: string, queryString: Option<string>): (r: string)
    ensures HasText(queryString) ==> r == uri + "?" + queryString.value
    ensures !HasText(queryString) ==> r == uri
  {
    if HasText(queryString) then uri + "?" + queryString.value else uri
  }

  /**
   * For a URI without '?', the logged form splits back at its first '?'
   * into the URI and the query string.
   */
  lemma BuildUriWithQuerySplitsBack(uri: string, queryString: Option<string>)
    requires '?' !in uri && HasText(queryString)
    ensures var r := BuildUriWithQuery(uri, queryString);
            IndexOfChar(r, '?') == |uri| && r[..|uri|] == uri && r[|uri| + 1..] == queryString.value
  {
    var r := BuildUriWithQuery(uri, queryString);
    assert r[|uri|] == '?' && r[..|uri|] == uri;
    IndexOfCharAt(r, '?', |uri|);
  }

  /**
   * `sanitizeAndTruncateBody`: null becomes the empty string; anything else
   * is normalised by `stripNewlinesAndTabs` and, when longer than 2000
   * characters, cut to its first 2000 and marked as truncated.
   */
  function SanitizeAndTruncateBody(body: Option<string>): (r: string)
    ensures body.None? ==> r == ""
    ensures body.Some? ==>
              var s := StripNewlinesAndTabs(body).value;
              (|s| <= MAX_BODY_LOG_LENGTH ==> r == s) &&
              (|s| > MAX_BODY_LOG_LENGTH ==> r == s[..MAX_BODY_LOG_LENGTH] + TRUNCATION_MARK)
    ensures NoLineBreaksOrTabs(r)
    ensures |r| <= MAX_BODY_LOG_LENGTH + |TRUNCATION_MARK|
  {
    if body.None? then ""
    else
      var s := StripNewlinesAndTabs(body).value;
      if |s| > MAX_BODY_LOG_LENGTH then
        assert NoLineBreaksOrTabs(s[..MAX_BODY_LOG_LENGTH] + TRUNCATION_MARK) by {
          CleanPrefixAndMark(s, MAX_BODY_LOG_LENGTH);
        }
        s[..MAX_BODY_LOG_LENGTH] + TRUNCATION_MARK
      else s
  }

  /** A leading part of a clean string followed by the truncation mark is clean. */
  lemma CleanPrefixAndMark(s: string, n: nat)
    requires NoLineBreaksOrTabs(s) && n <= |s|
    ensures NoLineBreaksOrTabs(s[..n] + TRUNCATION_MARK)
  {
    var r := s[..n] + TRUNCATION_MARK;
    forall i | 0 <= i < |r| ensures !IsLineBreakOrTab(r[i]) {
      if i < n {
        assert r[i] == s[i];
      } else {
        assert r[i] == TRUNCATION_MARK[i - n];
      }
    }
  }

  /** A body that is already one trimmed line with single spaces and at most 2000 characters is logged as it is. */
  lemma SanitizeKeepsCleanShortBody(s: string)
    requires NoLineBreaksOrTabs(s) && NoDoubleSpace(s) && Trimmed(s) && |s| <= MAX_BODY_LOG_LENGTH
    ensures SanitizeAndTruncateBody(Some(s)) == s
  {
    if s != [] {
      ReplaceLineBreaksAndTabsOfClean(s);
      CollapseSpacesOfCollapsed(s);
      TrimOfTrimmed(s);
    }
  }

  /** Sanitising a logged body again changes it only by truncating it once more: a short result is a fixed point. */
  lemma SanitizeIdempotentWhenShort(body: Option<string>)
    requires |SanitizeAndTruncateBody(body)| <= MAX_BODY_LOG_LENGTH
    ensures SanitizeAndTruncateBody(Some(SanitizeAndTruncateBody(body))) == SanitizeAndTruncateBody(body)
  {
    if body.Some? {
      SanitizeKeepsCleanShortBody(StripNewlinesAndTabs(body).value);
    }
  }

  /**
   * `isMultipartRequest`: the content type, lower-cased, starts with
   * "multipart/"; a missing content type is not multipart.
   */
  predicate IsMultipartRequest(contentType: Option<string>)
    ensures IsMultipartRequest(contentType) ==> contentType.Some? && |contentType.value| >= |"multipart/"|
  {
    contentType.Some? && StartsWith(ToLower(contentType.value), "multipart/")
  }

  /** Lower-casing a concatenation lower-cases each part. */
  lemma {:induction false} ToLowerAppend(a: string, b: string)
    ensures ToLower(a + b) == ToLower(a) + ToLower(b)
  {
    assert forall i :: 0 <= i < |a| ==> (a + b)[i] == a[i];
    assert forall i :: |a| <= i < |a + b| ==> (a + b)[i] == b[i - |a|];
  }

  /** "multipart/" in any mix of letter cases, followed by anything, is multipart. */
  lemma MultipartInAnyCase(head: string, rest: string)
    requires |head| == |"multipart/"| && forall i :: 0 <= i < |head| ==> LowerChar(head[i]) == "multipart/"[i]
    ensures IsMultipartRequest(Some(head + rest))
  {
    ToLowerAppend(head, rest);
    assert ToLower(head) == "multipart/";
    assert ToLower(head + rest)[..|"multipart/"|] == ToLower(head);
  }

  /** A content type whose first letter is not an 'm' in either case, such as "application/json", is not multipart. */
  lemma NotMultipartUnlessM(contentType: string)
    requires contentType != [] && LowerChar(contentType[0]) != 'm'
    ensures !IsMultipartRequest(Some(contentType))
  {
    assert ToLower(contentType)[0] != "multipart/"[0];
  }

  /** The three logging strategies. */
  datatype Branch = BasicOnly | RequestBodyOnly | BothBodies

  /**
   * The branch of `doFilterInternal`: multipart or download first, then
   * stream, then the general case.
   */
  function ChooseBranch(isMultipart: bool, isDownload: bool, isStream: bool): (b: Branch)
    ensures b == BasicOnly <==> isMultipart || isDownload
    ensures b == RequestBodyOnly <==> !isMultipart && !isDownload && isStream
    ensures b == BothBodies <==> !isMultipart && !isDownload && !isStream
  {
    if isMultipart || isDownload then BasicOnly
    else if isStream then RequestBodyOnly
    else BothBodies
  }

  /** The parts of a request the filter reads. */
  datatype HttpRequest = HttpRequest(httpMethod: string, uri: string, queryString: Option<string>,
                                     contentType: Option<string>, body: string, client: NetworkUtil.Request)

  /** The request line the filter logs: its sequence id, URI with query, method, body if logged, and client address. */
  datatype RequestLog = RequestLog(seqId: int, uri: string, httpMethod: string, body: Option<string>, ip: Option<string>)

  /** What `logResponseWithBody` does with the response body. */
  datatype ResponseBodyLog = NoResponseLine | OctetStreamSkipped | ResponseBody(text: string)

  /**
   * `logResponseWithBody`: nothing for "/whoami" in any case, a skip note
   * for an octet-stream content type, and otherwise the sanitised body.
   */
  function ResponseBodyLogOf(mdcUri: Option<string>, contentType: Option<string>, body: string): (r: ResponseBodyLog)
    ensures r == NoResponseLine <==> mdcUri.Some? && EqualsIgnoreCase("/whoami", mdcUri.value)
    ensures r == OctetStreamSkipped <==>
              !(mdcUri.Some? && EqualsIgnoreCase("/whoami", mdcUri.value)) && contentType.Some? && Contains(contentType.value, "octet-stream")
    ensures r.ResponseBody? ==> NoLineBreaksOrTabs(r.text) && |r.text| <= MAX_BODY_LOG_LENGTH + |TRUNCATION_MARK|
  {
    if mdcUri.Some? && EqualsIgnoreCase("/whoami", mdcUri.value) then NoResponseLine
    else if contentType.Some? && Contains(contentType.value, "octet-stream") then OctetStreamSkipped
    else ResponseBody(SanitizeAndTruncateBody(Some(body)))
  }

  /** `AtomicLong.incrementAndGet`: one more, wrapping from the largest `long` to the smallest. */
  function NextSequence(n: int): (r: int)
    requires LONG_MIN <= n <= LONG_MAX
    ensures LONG_MIN <= r <= LONG_MAX
    ensures n < LONG_MAX ==> r == n + 1
    ensures n == LONG_MAX ==> r == LONG_MIN
  {
    if n == LONG_MAX then LONG_MIN else n + 1
  }

  class AccessLogFilter {
    /** The last request sequence id handed out. */
    var sequence: int

    ghost predicate Valid()
      reads this
    {
      LONG_MIN <= sequence <= LONG_MAX
    }

    constructor ()
      ensures Valid() && sequence == 0
    {
      sequence := 0;
    }

    /** The sequence-id part of `initializeMDC`: the counter advances by one and its new value is the id. */
    method NextRequestId() returns (reqSeqId: int)
      requires Valid()
      modifies this
      ensures Valid()
      ensures reqSeqId == sequence == NextSequence(old(sequence))
      ensures old(sequence) < LONG_MAX ==> reqSeqId > old(sequence)
    {
      sequence := NextSequence(sequence);
      reqSeqId := sequence;
    }

    /**
     * One request through the filter. A request under a pass prefix is not
     * logged and takes no sequence id. Any other takes the next id and is
     * logged by the strategy `ChooseBranch` picks; `isDownload` and
     * `isStream` are the verdicts of the download and stream URI patterns.
     */
    method Filter(request: HttpRequest, isDownload: bool, isStream: bool) returns (branch: Option<Branch>, entry: Option<RequestLog>)
      requires Valid()
      modifies this
      ensures Valid()
      ensures ShouldNotFilter(request.uri) ==> branch.None? && entry.None? && sequence == old(sequence)
      ensures !ShouldNotFilter(request.uri) ==>
                branch == Some(ChooseBranch(IsMultipartRequest(request.contentType), isDownload, isStream)) &&
                sequence == NextSequence(old(sequence)) &&
                entry == Some(RequestLog(sequence, BuildUriWithQuery(request.uri, request.queryString), request.httpMethod,
                                         if branch.value == BasicOnly then None else Some(SanitizeAndTruncateBody(Some(request.body))),
                                         NetworkUtil.GetClientIp(Some(request.client))))
    {
      if ShouldNotFilter(request.uri) {
        return None, None;
      }
      var isMultipart := IsMultipartRequest(request.contentType);
      var reqSeqId: int;
      var body: Option<string>;
      if isMultipart || isDownload {
        branch := Some(BasicOnly);
        reqSeqId := NextRequestId();
        body := None;
      } else if isStream {
        branch := Some(RequestBodyOnly);
        reqSeqId := NextRequestId();
        body := Some(SanitizeAndTruncateBody(Some(request.body)));
      } else {
        branch := Some(BothBodies);
        reqSeqId := NextRequestId();
        body := Some(SanitizeAndTruncateBody(Some(request.body)));
      }
      var uri := BuildUriWithQuery(request.uri, request.queryString);
      entry := Some(RequestLog(reqSeqId, uri, request.httpMethod, body, NetworkUtil.GetClientIp(Some(request.client))));
    }
  }

  /** The ids `k` successive logged requests receive when the counter stands at `start`. */
  ghost function IdsAfter(start: int, k: nat): seq<int>
    requires LONG_MIN <= start <= LONG_MAX
    decreases k
  {
    if k == 0 then [] else var n := NextSequence(start); [n] + IdsAfter(n, k - 1)
  }

  /** Short of the wrap-around, successive requests get consecutive ids: each greater than the one before. */
  lemma {:induction false} IdsIncrease(start: int, k: nat)
    requires LONG_MIN <= start && start + k <= LONG_MAX
    ensures |IdsAfter(start, k)| == k
    ensures forall i :: 0 <= i < k ==> IdsAfter(start, k)[i] == start + i + 1
    decreases k
  {
    if k > 0 {
      IdsIncrease(start + 1, k - 1);
      var ids := IdsAfter(start, k);
      assert ids == [start + 1] + IdsAfter(start + 1, k - 1);
      assert forall i :: 1 <= i < k ==> ids[i] == IdsAfter(start + 1, k - 1)[i - 1];
    }
  }
}
