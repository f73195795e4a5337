/**
 * The bearer-token extraction of the JWT provider: the part of an
 * Authorization header after the configured scheme prefix and one space,
 * in the header form of section 2.1 of RFC 6750. Signing, parsing and
 * validating tokens is not part of this model.
 */
module JwtTokenProvider {

  import opened Wrappers
  import opened JavaText

  /**
   * `resolveToken`: a header that starts with `prefix` + " " (compared
   * case-sensitively) yields the rest of the header; a missing header or
   * any other value yields null.
   */
  function ResolveToken(bearerToken: Option<string>, prefix: string): (r: Option<string>)
    ensures r.Some? <==> bearerToken.Some? && StartsWith(bearerToken.value, prefix + " ")
    ensures r.Some? ==> bearerToken.value == prefix + " " + r.value
  {
    if bearerToken.Some? && StartsWith(bearerToken.value, prefix + " ") then
      var h := bearerToken.value;
      assert h == h[..|prefix| + 1] + h[|prefix| + 1..];
      Some(h[|prefix| + 1..])
    else None
  }

  /** Every token put behind the scheme and one space is extracted exactly. */
  lemma ResolveTokenOfHeader(prefix: string, token: string)
    ensures ResolveToken(Some(prefix + " " + token), prefix) == Some(token)
  {
    var h := prefix + " " + token;
    assert h[..|prefix| + 1] == prefix + " ";
  }

  /** The scheme is compared case-sensitively: "bearer abc" is not a "Bearer" header. */
  lemma SchemeIsCaseSensitive()
    ensures ResolveToken(Some("bearer abc"), "Bearer") == None
  {
    assert "bearer abc"[0] != ("Bearer" + " ")[0];
  }

  /** The scheme alone, without its separating space, is not a header either. */
  lemma SchemeWithoutSpace(prefix: string)
    ensures ResolveToken(Some(prefix), prefix) == None
  {
  }
}
