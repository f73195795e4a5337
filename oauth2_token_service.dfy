/**
 * Token issuance for the client-credentials grant (section 4.4 of RFC
 * 6749): the request's grant type, client, enabled flag and secret are
 * checked in that order, then the requested scopes are checked against the
 * client's and the granted scopes go into a signed token. Scopes are
 * space-separated lists (section 3.3 of RFC 6749). The client repository
 * is a map from client id to client; secret matching, token signing and
 * the clock are parameters.
 */
module OAuth2TokenService {

  import opened Wrappers
  import opened JavaText
  import ResultCode
  import OAuth2Client
  import RateLimiter

  /** The four request parameters; each may be missing. */
  datatype OAuth2TokenRequest = OAuth2TokenRequest(grantType: Option<string>, clientId: Option<string>,
                                                   clientSecret: Option<string>, scope: Option<string>)

  datatype OAuth2TokenResponse = OAuth2TokenResponse(accessToken: string, tokenType: string, expiresIn: int,
                                                     scope: string, issuedAt: int)

  /** `OAuth2Exception`: a result code and, for the scope check, a message of its own. */
  datatype OAuth2Exception = OAuth2Exception(code: ResultCode.Error, message: Option<string>)

  const GRANT_TYPE_CLIENT_CREDENTIALS: string := "client_credentials"
  const TOKEN_TYPE_BEARER: string := "Bearer"

  /** The set of scopes a space-separated list names: split on single spaces, trimmed, empties dropped. */
  function ScopeSet(s: string): (r: set<string>)
    ensures forall x :: x in r ==> x != [] && Trimmed(x) && ' ' !in x
  {
    set x | x in TrimmedPieces(s, ' ')
  }

  /**
   * `validateAndGrantScope` on sets: a null or blank request is granted the
   * client's whole set; otherwise a request naming a scope outside the
   * client's set is refused with those scopes, and any other request is
   * granted exactly what it names.
   */
  function GrantedScopes(clientScopes: string, requestedScope: Option<string>): (r: Result<set<string>, set<string>>)
    ensures r.Ok? ==> r.value <= ScopeSet(clientScopes)
    ensures !HasText(requestedScope) ==> r == Ok(ScopeSet(clientScopes))
    ensures HasText(requestedScope) ==>
              (r.Ok? <==> ScopeSet(requestedScope.value) <= ScopeSet(clientScopes)) &&
              (r.Ok? ==> r.value == ScopeSet(requestedScope.value)) &&
              (r.Err? ==> r.error != {} && r.error == ScopeSet(requestedScope.value) - ScopeSet(clientScopes))
  {
    if requestedScope.None? || IsBlank(requestedScope.value) then Ok(ScopeSet(clientScopes))
    else
      var requested, held := ScopeSet(requestedScope.value), ScopeSet(clientScopes);
      if requested <= held then Ok(requested)
      else
        var x :| x in requested && x !in held;
        assert x in requested - held;
        Err(requested - held)
  }

  /**
   * `String.join` over a `HashSet`: the elements in some iteration order
   * with `sep` between neighbours. The order is not specified, so it is
   * returned alongside the text.
   */
  method JoinSet(s: set<string>, sep: string) returns (r: string, ghost order: seq<string>)
    ensures forall x :: x in order <==> x in s
    ensures forall i :: 0 <= i < |order| ==> order[i] in s
    ensures forall i, j :: 0 <= i < j < |order| ==> order[i] != order[j]
    ensures r == Join(order, sep)
  {
    var rest := s;
    order := [];
    r := "";
    var first := true;
    while rest != {}
      invariant rest <= s
      invariant first <==> order == []
      invariant forall x :: x in order <==> x in s && x !in rest
      invariant forall i, j :: 0 <= i < j < |order| ==> order[i] != order[j]
      invariant r == Join(order, sep)
      decreases rest
    {
      var x :| x in rest;
      JoinSnoc(order, x, sep);
      r := if first then x else r + sep + x;
      first := false;
      order := order + [x];
      rest := rest - {x};
    }
  }

  /** Joining one more piece appends the separator and that piece. */
  lemma {:induction false} JoinSnoc(pieces: seq<string>, x: string, sep: string)
    ensures Join(pieces + [x], sep) == if pieces == [] then x else Join(pieces, sep) + sep + x
    decreases |pieces|
  {
    if |pieces| >= 2 {
      assert (pieces + [x])[1..] == pieces[1..] + [x];
      JoinSnoc(pieces[1..], x, sep);
    } else if |pieces| == 1 {
      assert (pieces + [x])[1..] == [x];
    }
  }

  /** A granted scope string read back as a list names exactly the granted set. */
  lemma ScopeSetOfJoin(order: seq<string>, granted: set<string>)
    requires forall x :: x in granted ==> x != [] && Trimmed(x) && ' ' !in x
    requires forall x :: x in order <==> x in granted
    ensures ScopeSet(Join(order, " ")) == granted
  {
    var j := Join(order, " ");
    assert TrimmedPieces(j, ' ') == order by {
      assert " " == [' '];
      assert forall i :: 0 <= i < |order| ==> order[i] in granted;
      TrimmedPiecesOfJoin(order, ' ');
    }
  }

  /**
   * `validateAndGrantScope`: the client's scopes and the requested scopes
   * become sets; the invalid ones are the requested minus the client's
   * (`removeAll`), and the granted ones the requested kept within the
   * client's (`retainAll`). The granted string, read back as a scope list,
   * names exactly the granted set.
   */
  method ValidateAndGrantScope(client: OAuth2Client.OAuth2Client, requestedScope: Option<string>)
    returns (r: Result<string, OAuth2Exception>)
    requires client.scopes.Some?
    ensures var g := GrantedScopes(client.scopes.value, requestedScope);
            (r.Ok? <==> g.Ok?) &&
            (r.Ok? ==> ScopeSet(r.value) == g.value) &&
            (r.Err? ==> r.error.code == ResultCode.Error.OAUTH_INVALID_SCOPE && r.error.message.Some? &&
                        StartsWith(r.error.message.value, "Invalid scope: "))
  {
    var clientScopes := ScopeSet(client.scopes.value);
    if requestedScope.None? || IsBlank(requestedScope.value) {
      var all, order := JoinSet(clientScopes, " ");
      ScopeSetOfJoin(order, clientScopes);
      return Ok(all);
    }
    var requestedScopes := ScopeSet(requestedScope.value);
    var invalidScopes := requestedScopes;
    invalidScopes := invalidScopes - clientScopes;
    if invalidScopes != {} {
      assert !(requestedScopes <= clientScopes);
      var listed, _ := JoinSet(invalidScopes, ", ");
      var message := "Invalid scope: " + listed;
      assert StartsWith(message, "Invalid scope: ") by {
        assert message[..|"Invalid scope: "|] == "Invalid scope: ";
      }
      return Err(OAuth2Exception(ResultCode.Error.OAUTH_INVALID_SCOPE, Some(message)));
    }
    assert requestedScopes <= clientScopes by {
      forall x | x in requestedScopes ensures x in clientScopes {
        assert x !in invalidScopes;
      }
    }
    requestedScopes := requestedScopes * clientScopes;
    var granted, order := JoinSet(requestedScopes, " ");
    ScopeSetOfJoin(order, requestedScopes);
    return Ok(granted);
  }

  /**
   * Every scope the service grants is one the client's `hasScope` reports,
   * provided the client's scopes are not blank.
   */
  lemma ClientHoldsGrantedScopes(client: OAuth2Client.OAuth2Client, requestedScope: Option<string>)
    requires client.scopes.Some? && !IsBlank(client.scopes.value)
    requires GrantedScopes(client.scopes.value, requestedScope).Ok?
    ensures forall g :: g in GrantedScopes(client.scopes.value, requestedScope).value ==> client.HasScope(g)
  {
    TrimmedPiecesOccur(client.scopes.value, ' ');
  }

  /** Asking for no scope, or for exactly the client's scope list, grants the client's whole set. */
  lemma RequestingOwnScopesGrantsAll(clientScopes: string, requestedScope: Option<string>)
    requires !HasText(requestedScope) || requestedScope == Some(clientScopes)
    ensures GrantedScopes(clientScopes, requestedScope) == Ok(ScopeSet(clientScopes))
  {
  }

  /**
   * `issueToken`. `clients` is the repository, `secretMatches` the password
   * encoder's `matches(raw, encoded)`, `generateToken(clientId, scope,
   * validityMs)` the signer and `nowMs` the clock. The checks run in order
   * and the first that fails decides the error.
   */
  method IssueToken(request: OAuth2TokenRequest, clients: map<string, OAuth2Client.OAuth2Client>,
                    secretMatches: (Option<string>, string) -> bool,
                    generateToken: (string, string, int) -> string, nowMs: int)
    returns (r: Result<OAuth2TokenResponse, OAuth2Exception>)
    requires forall id | id in clients :: clients[id].scopes.Some?
    ensures request.grantType != Some(GRANT_TYPE_CLIENT_CREDENTIALS) ==>
              r == Err(OAuth2Exception(ResultCode.Error.OAUTH_UNSUPPORTED_GRANT_TYPE, None))
    ensures request.grantType == Some(GRANT_TYPE_CLIENT_CREDENTIALS) && (request.clientId.None? || request.clientId.value !in clients) ==>
              r == Err(OAuth2Exception(ResultCode.Error.OAUTH_INVALID_CLIENT, None))
    ensures request.grantType == Some(GRANT_TYPE_CLIENT_CREDENTIALS) && request.clientId.Some? && request.clientId.value in clients ==>
              var client := clients[request.clientId.value];
              (!client.enabled ==> r == Err(OAuth2Exception(ResultCode.Error.OAUTH_CLIENT_DISABLED, None))) &&
              (client.enabled && !secretMatches(request.clientSecret, client.clientSecret) ==>
                 r == Err(OAuth2Exception(ResultCode.Error.OAUTH_INVALID_CLIENT, None))) &&
              (client.enabled && secretMatches(request.clientSecret, client.clientSecret) ==>
                 var g := GrantedScopes(client.scopes.value, request.scope);
                 (r.Ok? <==> g.Ok?) &&
                 (r.Err? ==> r.error.code == ResultCode.Error.OAUTH_INVALID_SCOPE) &&
                 (r.Ok? ==> ScopeSet(r.value.scope) == g.value &&
                            r.value.accessToken == generateToken(client.clientId, r.value.scope, client.accessTokenValiditySeconds * 1000) &&
                            r.value.tokenType == TOKEN_TYPE_BEARER &&
                            r.value.expiresIn == client.accessTokenValiditySeconds &&
                            r.value.issuedAt == RateLimiter.TruncDiv(nowMs, 1000)))
  {
    if request.grantType != Some(GRANT_TYPE_CLIENT_CREDENTIALS) {
      return Err(OAuth2Exception(ResultCode.Error.OAUTH_UNSUPPORTED_GRANT_TYPE, None));
    }
    if request.clientId.None? || request.clientId.value !in clients {
      return Err(OAuth2Exception(ResultCode.Error.OAUTH_INVALID_CLIENT, None));
    }
    var client := clients[request.clientId.value];
    if !client.enabled {
      return Err(OAuth2Exception(ResultCode.Error.OAUTH_CLIENT_DISABLED, None));
    }
    if !secretMatches(request.clientSecret, client.clientSecret) {
      return Err(OAuth2Exception(ResultCode.Error.OAUTH_INVALID_CLIENT, None));
    }
    var grantedScope := ValidateAndGrantScope(client, request.scope);
    if grantedScope.Err? {
      return Err(grantedScope.error);
    }
    var validityInMs := client.accessTokenValiditySeconds * 1000;
    var accessToken := generateToken(client.clientId, grantedScope.value, validityInMs);
    return Ok(OAuth2TokenResponse(accessToken, TOKEN_TYPE_BEARER, client.accessTokenValiditySeconds,
                                  grantedScope.value, RateLimiter.TruncDiv(nowMs, 1000)));
  }
}
