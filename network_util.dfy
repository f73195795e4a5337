/**
 * The client address of a request that may have passed through proxies,
 * load balancers or a web server: the first usable proxy header wins, the
 * peer address is the fallback, and of a comma-separated list of addresses
 * the first is the client's.
 */
module NetworkUtil {

  import opened Wrappers
  import opened JavaText

  const UNKNOWN: string := "unknown"

  /** The parts of an HTTP request read here: its headers by name and the peer address, either possibly absent. */
  datatype Request = Request(headers: map<string, string>, remoteAddr: Option<string>)

  /** The proxy headers consulted, in the order they are tried. */
  const CLIENT_IP_HEADERS: seq<string> :=
    ["X-Forwarded-For", "Proxy-Client-IP", "WL-Proxy-Client-IP", "HTTP_CLIENT_IP", "HTTP_X_FORWARDED_FOR"]

  /** `getHeader`: null when the request does not carry the header. */
  function Header(request: Request, name: string): Option<string>
  {
    if name in request.headers then Some(request.headers[name]) else None
  }

  /** `isValidIp`: present, not blank, and not "unknown" in any letter case. */
  predicate IsValidIp(ip: Option<string>)
  {
    HasText(ip) && !EqualsIgnoreCase(UNKNOWN, ip.value)
  }

  /** Every spelling of "unknown", whatever the case of its letters, is refused. */
  lemma UnknownInAnyCaseIsInvalid(s: string)
    requires |s| == |UNKNOWN| && forall i :: 0 <= i < |s| ==> LowerChar(s[i]) == UNKNOWN[i]
    ensures !IsValidIp(Some(s))
  {
    assert ToLower(UNKNOWN) == UNKNOWN by {
      forall i | 0 <= i < |UNKNOWN| ensures ToLower(UNKNOWN)[i] == UNKNOWN[i] {
        assert !('A' <= UNKNOWN[i] <= 'Z');
      }
    }
    assert ToLower(s) == UNKNOWN;
  }

  /** A non-blank value that differs from "unknown" in length is a usable address. */
  lemma OtherTextIsValid(s: string)
    requires !IsBlank(s) && |s| != |UNKNOWN|
    ensures IsValidIp(Some(s))
  {
    assert |ToLower(s)| != |ToLower(UNKNOWN)|;
  }

  /**
   * The value of `ip` once the fallback chain has run: each header in turn
   * replaces a value that is not usable, and the peer address replaces the
   * last one if that is still not usable.
   */
  function ChosenIp(request: Request): Option<string>
  {
    var forwardedFor := Header(request, "X-Forwarded-For");
    var proxyClient := if !IsValidIp(forwardedFor) then Header(request, "Proxy-Client-IP") else forwardedFor;
    var wlProxyClient := if !IsValidIp(proxyClient) then Header(request, "WL-Proxy-Client-IP") else proxyClient;
    var httpClient := if !IsValidIp(wlProxyClient) then Header(request, "HTTP_CLIENT_IP") else wlProxyClient;
    var httpForwardedFor := if !IsValidIp(httpClient) then Header(request, "HTTP_X_FORWARDED_FOR") else httpClient;
    if !IsValidIp(httpForwardedFor) then request.remoteAddr else httpForwardedFor
  }

  /** The value of the first header among `names` that is a usable address, if any. */
  function FirstValidHeader(request: Request, names: seq<string>): (r: Option<string>)
    ensures r.Some? ==> IsValidIp(r)
  {
    if names == [] then None
    else if IsValidIp(Header(request, names[0])) then Header(request, names[0])
    else FirstValidHeader(request, names[1..])
  }

  /** The header that wins is the first usable one: every header before it is unusable. */
  lemma {:induction false} FirstValidHeaderAt(request: Request, names: seq<string>, i: int)
    requires 0 <= i < |names| && IsValidIp(Header(request, names[i]))
    requires forall j :: 0 <= j < i ==> !IsValidIp(Header(request, names[j]))
    ensures FirstValidHeader(request, names) == Header(request, names[i])
    decreases i
  {
    if i > 0 {
      FirstValidHeaderAt(request, names[1..], i - 1);
    }
  }

  /** No header wins exactly when none of them is usable. */
  lemma {:induction false} FirstValidHeaderNone(request: Request, names: seq<string>)
    ensures FirstValidHeader(request, names).None? <==> forall j :: 0 <= j < |names| ==> !IsValidIp(Header(request, names[j]))
    decreases |names|
  {
    if names != [] {
      FirstValidHeaderNone(request, names[1..]);
      assert forall j :: 1 <= j < |names| ==> names[j] == names[1..][j - 1];
    }
  }

  /**
   * The fallback chain picks the first usable header in the listed order;
   * when there is none it takes the peer address as it is, usable or not.
   */
  lemma ChosenIpIsFirstValid(request: Request)
    ensures ChosenIp(request) == if FirstValidHeader(request, CLIENT_IP_HEADERS).Some? then FirstValidHeader(request, CLIENT_IP_HEADERS) else request.remoteAddr
  {
    var t4 := ["HTTP_X_FORWARDED_FOR"];
    var t3 := ["HTTP_CLIENT_IP"] + t4;
    var t2 := ["WL-Proxy-Client-IP"] + t3;
    var t1 := ["Proxy-Client-IP"] + t2;
    assert CLIENT_IP_HEADERS == ["X-Forwarded-For"] + t1;
    FirstValidHeaderCons(request, "X-Forwarded-For", t1);
    FirstValidHeaderCons(request, "Proxy-Client-IP", t2);
    FirstValidHeaderCons(request, "WL-Proxy-Client-IP", t3);
    FirstValidHeaderCons(request, "HTTP_CLIENT_IP", t4);
    FirstValidHeaderCons(request, "HTTP_X_FORWARDED_FOR", []);
    assert t4 == ["HTTP_X_FORWARDED_FOR"] + [];
  }

  /** One step of the search: the first name wins if its header is usable, otherwise the rest are searched. */
  lemma FirstValidHeaderCons(request: Request, name: string, rest: seq<string>)
    ensures FirstValidHeader(request, [name] + rest) ==
            if IsValidIp(Header(request, name)) then Header(request, name) else FirstValidHeader(request, rest)
  {
    assert ([name] + rest)[1..] == rest;
  }

  /**
   * `getClientIp` with the first element of a comma-separated list read as
   * the text before the first comma, trimmed. A null request gives
   * "unknown"; a chosen value without text or without a comma is returned
   * as it is.
   */
  function GetClientIp(request: Option<Request>): (r: Option<string>)
    ensures request.None? ==> r == Some(UNKNOWN)
    ensures request.Some? ==>
              var ip := ChosenIp(request.value);
              (HasText(ip) && ',' in ip.value ==> r == Some(Trim(ip.value[..IndexOfChar(ip.value, ',')]))) &&
              (!(HasText(ip) && ',' in ip.value) ==> r == ip)
  {
    if request.None? then Some(UNKNOWN)
    else
      var ip := ChosenIp(request.value);
      if HasText(ip) && ',' in ip.value then
        SplitAllCons(ip.value, ',');
        Some(Trim(SplitAll(ip.value, ',')[0]))
      else ip
  }

  /** The client address of a list is trimmed and holds no comma. */
  lemma ListedAddressIsClean(request: Request)
    requires HasText(ChosenIp(request)) && ',' in ChosenIp(request).value
    ensures GetClientIp(Some(request)).Some?
    ensures var r := GetClientIp(Some(request)).value; Trimmed(r) && ',' !in r && Contains(ChosenIp(request).value, r)
  {
    var ip := ChosenIp(request).value;
    var first := SplitAll(ip, ',')[0];
    SplitAllCons(ip, ',');
    TrimKeepsAbsent(first, ',');
    assert Contains(ip, Trim(first)) by {
      TrimOccurs(first);
      assert OccursAt(ip, first, 0);
      ContainsTrans(ip, first, Trim(first));
    }
  }

  /** What `getClientIp` as written ends in: a value, or the exception of indexing an empty array. */
  datatype Outcome = Returned(ip: Option<string>) | ArrayIndexOutOfBounds

  /**
   * `getClientIp` as written: a chosen value with text and a comma is
   * `split(",")`, which drops trailing empty pieces, and element 0 of the
   * result is trimmed. A value of commas alone splits into no pieces at all.
   */
  function GetClientIpAsWritten(request: Option<Request>): (r: Outcome)
    ensures r.ArrayIndexOutOfBounds? <==>
              request.Some? && HasText(ChosenIp(request.value)) && JavaSplit(ChosenIp(request.value).value, ',') == []
  {
    if request.None? then Returned(Some(UNKNOWN))
    else
      var ip := ChosenIp(request.value);
      if HasText(ip) && ',' in ip.value then
        var parts := JavaSplit(ip.value, ',');
        if |parts| == 0 then ArrayIndexOutOfBounds else Returned(Some(Trim(parts[0])))
      else Returned(ip)
  }

  /** Wherever the code as written returns, it returns what `GetClientIp` does. */
  lemma AsWrittenAgreesWhenItReturns(request: Option<Request>)
    requires GetClientIpAsWritten(request).Returned?
    ensures GetClientIpAsWritten(request).ip == GetClientIp(request)
  {
    if request.Some? {
      var ip := ChosenIp(request.value);
      if HasText(ip) && ',' in ip.value {
        var split := SplitAll(ip.value, ',');
        var parts := JavaSplit(ip.value, ',');
        assert parts == DropTrailingEmpty(split);
        assert parts[0] == split[..|parts|][0] == split[0];
      }
    }
  }

  predicate AllEmpty(pieces: seq<string>)
  {
    forall i :: 0 <= i < |pieces| ==> pieces[i] == []
  }

  predicate AllChar(s: string, c: char)
  {
    forall k :: 0 <= k < |s| ==> s[k] == c
  }

  lemma AllEmptyCons(p: string, t: seq<string>)
    ensures AllEmpty([p] + t) <==> p == [] && AllEmpty(t)
  {
    assert ([p] + t)[0] == p;
    assert forall j :: 0 <= j < |t| ==> t[j] == ([p] + t)[j + 1];
  }

  lemma AllCharCons(s: string, c: char)
    requires s != []
    ensures AllChar(s, c) <==> s[0] == c && AllChar(s[1..], c)
  {
    assert forall k :: 1 <= k < |s| ==> s[k] == s[1..][k - 1];
  }

  /** Splitting yields only empty pieces exactly when the text holds nothing but the delimiter. */
  lemma {:induction false} SplitAllEmptyPieces(s: string, c: char)
    ensures AllEmpty(SplitAll(s, c)) <==> AllChar(s, c)
    decreases |s|
  {
    var i := IndexOfChar(s, c);
    if i < 0 {
      assert SplitAll(s, c) == [s];
      if s != [] {
        assert !AllChar(s, c) by { assert s[0] != c; }
        assert !AllEmpty([s]) by { assert [s][0] == s; }
      }
    } else {
      var rest := s[i + 1..];
      assert SplitAll(s, c) == [s[..i]] + SplitAll(rest, c) by { SplitAllCons(s, c); }
      AllEmptyCons(s[..i], SplitAll(rest, c));
      AllCharCons(s, c);
      if i > 0 {
        assert s[0] == s[..i][0] != c;
      } else {
        assert s[1..] == rest;
        SplitAllEmptyPieces(rest, c);
      }
    }
  }

  /** Dropping trailing empty pieces leaves nothing exactly when every piece is empty. */
  lemma DropTrailingEmptyNone(pieces: seq<string>)
    ensures DropTrailingEmpty(pieces) == [] <==> forall i :: 0 <= i < |pieces| ==> pieces[i] == []
  {
  }

  /** The code as written throws exactly for a chosen value made of commas alone, such as ",". */
  lemma AsWrittenThrowsOnCommasOnly(request: Request)
    requires HasText(ChosenIp(request))
    ensures GetClientIpAsWritten(Some(request)).ArrayIndexOutOfBounds? <==>
              forall k :: 0 <= k < |ChosenIp(request).value| ==> ChosenIp(request).value[k] == ','
  {
    var ip := ChosenIp(request).value;
    SplitAllEmptyPieces(ip, ',');
    DropTrailingEmptyNone(SplitAll(ip, ','));
    if forall k :: 0 <= k < |ip| ==> ip[k] == ',' {
      assert ip != [];
      assert ip[0] == ',';
    }
  }

  /** An "X-Forwarded-For: ," header makes the code as written throw; with the fix it gives the empty first element. */
  lemma CommaHeaderThrows()
    ensures var request := Request(map["X-Forwarded-For" := ","], None);
            GetClientIpAsWritten(Some(request)) == ArrayIndexOutOfBounds && GetClientIp(Some(request)) == Some("")
  {
    var request := Request(map["X-Forwarded-For" := ","], None);
    assert ChosenIp(request) == Some(",") by {
      assert !IsBlank(",") by { assert !IsWhitespace(","[0]); }
      OtherTextIsValid(",");
      assert Header(request, "X-Forwarded-For") == Some(",");
    }
    assert GetClientIpAsWritten(Some(request)) == ArrayIndexOutOfBounds by {
      AsWrittenThrowsOnCommasOnly(request);
    }
    assert GetClientIp(Some(request)) == Some("") by {
      assert IndexOfChar(",", ',') == 0;
    }
  }
}
