/**
 * The JWT authentication filter: a request without a bearer token passes
 * through unauthenticated, a request with an invalid token is answered with
 * 401 and goes no further, and a request with a valid token passes through
 * with a principal built from the token's claims set in the security
 * context. Token validation and claim extraction (the jjwt library) are
 * parameters.
 */
module JwtAuthenticationFilter {

  import opened Wrappers
  import opened JavaText
  import ResultCode
  import BaseResponse
  import JwtTokenProvider

  /**
   * The claims read from a valid token. The provider returns null for a
   * claim the token does not carry.
   */
  datatype TokenClaims = TokenClaims(username: Option<string>, authorities: Option<string>, scope: Option<string>)

  /** The authenticated principal: its user name and its granted authorities, in order. */
  datatype Principal = Principal(username: string, authorities: seq<string>)

  /** What the filter wrote when it stopped the request. */
  datatype Rejection = Rejection(httpStatus: int, body: BaseResponse.BaseResponse<Unit>)

  /** The delimiter of an authorities claim: a comma when it holds one, a single space otherwise. */
  function AuthorityDelimiter(s: string): (c: char)
    ensures c == ',' <==> ',' in s
    ensures c != ',' ==> c == ' '
  {
    if ',' in s then ',' else ' '
  }

  /**
   * The split / trim / non-empty pipeline of `parseAuthorities`: a null or
   * blank string gives no pieces; any other is split on its delimiter, each
   * piece trimmed and empty pieces dropped, in their original order.
   */
  function AuthorityPieces(s: Option<string>): (r: seq<string>)
    ensures s.None? || IsBlank(s.value) ==> r == []
    ensures s.Some? && !IsBlank(s.value) ==> r == TrimmedPieces(s.value, AuthorityDelimiter(s.value))
    ensures s.Some? && !IsBlank(s.value) ==> forall i :: 0 <= i < |r| ==> r[i] != [] && Trimmed(r[i]) && AuthorityDelimiter(s.value) !in r[i]
  {
    if s.None? || IsBlank(s.value) then []
    else TrimmedPieces(s.value, AuthorityDelimiter(s.value))
  }

  /** Every piece has text: none consists of whitespace alone. */
  predicate PiecesHaveText(pieces: seq<string>)
  {
    forall i :: 0 <= i < |pieces| ==> !IsBlank(pieces[i])
  }

  /**
   * `parseAuthorities`: each piece becomes a `SimpleGrantedAuthority`, whose
   * constructor refuses a piece without text. `trim` removes only characters
   * up to U+0020, so a piece made of wider Unicode spaces (U+3000, say)
   * survives the pipeline and then throws; that is `None`.
   */
  function ParseAuthorities(s: Option<string>): (r: Option<seq<string>>)
    ensures r.Some? <==> PiecesHaveText(AuthorityPieces(s))
    ensures r.Some? ==> r.value == AuthorityPieces(s)
  {
    var pieces := AuthorityPieces(s);
    if PiecesHaveText(pieces) then Some(pieces) else None
  }

  /** A non-empty trimmed piece of an ASCII claim starts with a visible character, so it has text. */
  lemma AsciiPieceHasText(s: string, p: string)
    requires forall i :: 0 <= i < |s| ==> s[i] < '\U{80}'
    requires Contains(s, p) && p != [] && Trimmed(p)
    ensures !IsBlank(p)
  {
    var k :| 0 <= k <= |s| - |p| && OccursAt(s, p, k);
    assert p[0] == s[k..k + |p|][0] == s[k];
  }

  /** A claim of ASCII text never holds a piece without text, so it always parses. */
  lemma AsciiClaimParses(s: string)
    requires forall i :: 0 <= i < |s| ==> s[i] < '\U{80}'
    ensures ParseAuthorities(Some(s)).Some?
  {
    var pieces := AuthorityPieces(Some(s));
    if !IsBlank(s) {
      TrimmedPiecesOccur(s, AuthorityDelimiter(s));
      forall i | 0 <= i < |pieces| ensures !IsBlank(pieces[i]) {
        assert pieces[i] in TrimmedPieces(s, AuthorityDelimiter(s));
        AsciiPieceHasText(s, pieces[i]);
      }
    }
    assert PiecesHaveText(pieces);
  }

  /** A non-blank first piece keeps the joined claim from being blank. */
  lemma JoinedNotBlank(tokens: seq<string>, sep: string)
    requires tokens != [] && !IsBlank(tokens[0])
    ensures !IsBlank(Join(tokens, sep))
  {
    JoinStartsWithFirst(tokens, sep);
    var j := Join(tokens, sep);
    var k :| 0 <= k < |tokens[0]| && !IsWhitespace(tokens[0][k]);
    assert j[k] == j[..|tokens[0]|][k];
  }

  /**
   * A comma-separated authorities claim ("ROLE_USER,ROLE_ADMIN") of at
   * least two trimmed, non-empty authorities splits back to exactly those
   * authorities, and parses to them exactly when each has text.
   */
  lemma ParseCommaSeparated(tokens: seq<string>)
    requires |tokens| >= 2 && !IsBlank(tokens[0])
    requires forall i :: 0 <= i < |tokens| ==> tokens[i] != [] && Trimmed(tokens[i]) && ',' !in tokens[i]
    ensures AuthorityPieces(Some(Join(tokens, ","))) == tokens
    ensures PiecesHaveText(tokens) ==> ParseAuthorities(Some(Join(tokens, ","))) == Some(tokens)
    ensures !PiecesHaveText(tokens) ==> ParseAuthorities(Some(Join(tokens, ","))).None?
  {
    assert "," == [','];
    var j := Join(tokens, ",");
    assert !IsBlank(j) && AuthorityDelimiter(j) == ',' by {
      JoinedNotBlank(tokens, ",");
      assert j == tokens[0] + "," + Join(tokens[1..], ",");
      assert j[|tokens[0]|] == ',';
    }
    assert TrimmedPieces(j, ',') == tokens by {
      TrimmedPiecesOfJoin(tokens, ',');
    }
  }

  /**
   * A space-separated scope claim ("read write admin") of trimmed,
   * non-empty scopes without commas or spaces splits back to exactly those
   * scopes, and parses to them exactly when each has text.
   */
  lemma ParseSpaceSeparated(tokens: seq<string>)
    requires tokens != [] && !IsBlank(tokens[0])
    requires forall i :: 0 <= i < |tokens| ==> tokens[i] != [] && Trimmed(tokens[i]) && ',' !in tokens[i] && ' ' !in tokens[i]
    ensures AuthorityPieces(Some(Join(tokens, " "))) == tokens
    ensures PiecesHaveText(tokens) ==> ParseAuthorities(Some(Join(tokens, " "))) == Some(tokens)
    ensures !PiecesHaveText(tokens) ==> ParseAuthorities(Some(Join(tokens, " "))).None?
  {
    assert " " == [' '];
    var j := Join(tokens, " ");
    assert !IsBlank(j) && AuthorityDelimiter(j) == ' ' by {
      JoinedNotBlank(tokens, " ");
      JoinKeepsAbsent(tokens, " ", ',');
    }
    assert TrimmedPieces(j, ' ') == tokens by {
      TrimmedPiecesOfJoin(tokens, ' ');
    }
  }

  /**
   * An authority followed by a piece of wider Unicode spaces: the piece
   * survives `trim` and the emptiness filter, so parsing throws.
   */
  lemma BlankPieceRefused(authority: string, blank: string)
    requires authority != [] && Trimmed(authority) && ',' !in authority && !IsBlank(authority)
    requires blank != [] && Trimmed(blank) && ',' !in blank && IsBlank(blank)
    ensures AuthorityPieces(Some(authority + "," + blank)) == [authority, blank]
    ensures ParseAuthorities(Some(authority + "," + blank)).None?
  {
    var tokens := [authority, blank];
    assert Join(tokens, ",") == authority + "," + blank by {
      assert tokens[1..] == [blank];
    }
    ParseCommaSeparated(tokens);
    assert !PiecesHaveText(tokens) by { assert IsBlank(tokens[1]); }
  }

  /** The authorities claim `ROLE_A,` + U+3000 throws while parsing. */
  lemma IdeographicSpacePieceRefused()
    ensures ParseAuthorities(Some("ROLE_A" + "," + "\U{3000}")).None?
  {
    var authority, blank := "ROLE_A", "\U{3000}";
    assert !IsWhitespace(authority[0]);
    BlankPieceRefused(authority, blank);
  }

  /**
   * The authorities a valid token grants: its authorities claim, or, when
   * that is null or blank (a client-credentials token), its scope claim;
   * `None` where parsing the chosen claim throws.
   */
  function GrantedAuthorities(claims: TokenClaims): (r: Option<seq<string>>)
    ensures HasText(claims.authorities) ==> r == ParseAuthorities(claims.authorities)
    ensures !HasText(claims.authorities) ==> r == ParseAuthorities(claims.scope)
  {
    var authoritiesString := if claims.authorities.None? || IsBlank(claims.authorities.value) then claims.scope else claims.authorities;
    ParseAuthorities(authoritiesString)
  }

  /**
   * The principal built from the claims. Parsing the authorities throws on
   * a piece without text, and Spring Security's `User` refuses a null or
   * empty user name; `setAuthenticationToSecurityContext` turns either
   * into a 401, and both cases are `None`.
   */
  function PrincipalOf(claims: TokenClaims): (r: Option<Principal>)
    ensures r.Some? <==> GrantedAuthorities(claims).Some? && claims.username.Some? && claims.username.value != []
    ensures r.Some? ==> r.value == Principal(claims.username.value, GrantedAuthorities(claims).value)
    ensures r.Some? ==> PiecesHaveText(r.value.authorities)
  {
    var authorities := GrantedAuthorities(claims);
    if authorities.None? then None
    else if claims.username.None? || claims.username.value == [] then None
    else Some(Principal(claims.username.value, authorities.value))
  }

  /** A valid user whose authorities claim is `ROLE_A,` + U+3000 gets no principal. */
  lemma BlankAuthorityPieceRejected(username: string, authorities: string)
    requires username != []
    requires authorities == "ROLE_A" + "," + "\U{3000}"
    ensures PrincipalOf(TokenClaims(Some(username), Some(authorities), None)).None?
  {
    IdeographicSpacePieceRefused();
    assert authorities[0] == 'R';
    assert HasText(Some(authorities));
  }

  /** The security context of the current request. */
  class SecurityContext {
    var authentication: Option<Principal>

    constructor ()
      ensures authentication.None?
    {
      authentication := None;
    }
  }

  /** The 401 answer of `sendUnauthorizedResponse` with AUTH_TOKEN_INVALID. */
  function InvalidTokenRejection(): (r: Rejection)
    ensures r.httpStatus == 401 && !r.body.status && r.body.code == "AUTH-003" && r.body.data.None?
  {
    Rejection(401, BaseResponse.CreateError(ResultCode.Error.AUTH_TOKEN_INVALID))
  }

  /**
   * `doFilterInternal`. `header` is the configured header's value,
   * `validateToken` the provider's verdict on a token and `readClaims` its
   * claim extraction, `None` where it throws. The chain runs exactly when no
   * rejection was written; the context is set only for a valid token whose
   * claims yield a principal.
   */
  method DoFilterInternal(context: SecurityContext, header: Option<string>, prefix: string,
                          validateToken: string -> bool, readClaims: string -> Option<TokenClaims>)
    returns (chainInvoked: bool, rejection: Option<Rejection>)
    modifies context
    ensures chainInvoked <==> rejection.None?
    ensures rejection.Some? ==> rejection.value == InvalidTokenRejection()
    ensures JwtTokenProvider.ResolveToken(header, prefix).None? ==> chainInvoked && context.authentication == old(context.authentication)
    ensures var token := JwtTokenProvider.ResolveToken(header, prefix);
            token.Some? && !validateToken(token.value) ==> !chainInvoked && context.authentication == old(context.authentication)
    ensures var token := JwtTokenProvider.ResolveToken(header, prefix);
            token.Some? && validateToken(token.value) ==>
              var principal := if readClaims(token.value).Some? then PrincipalOf(readClaims(token.value).value) else None;
              (chainInvoked <==> principal.Some?) &&
              (principal.Some? ==> context.authentication == principal) &&
              (principal.None? ==> context.authentication == old(context.authentication))
  {
    var token := JwtTokenProvider.ResolveToken(header, prefix);
    if token.None? {
      return true, None;
    }
    if !validateToken(token.value) {
      return false, Some(InvalidTokenRejection());
    }
    var claims := readClaims(token.value);
    if claims.None? {
      return false, Some(InvalidTokenRejection());
    }
    var principal := PrincipalOf(claims.value);
    if principal.None? {
      return false, Some(InvalidTokenRejection());
    }
    context.authentication := principal;
    return true, None;
  }
}
