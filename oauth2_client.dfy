/**
 * A registered OAuth 2.0 client of the client-credentials grant: its
 * identifier, its encoded secret, the space-separated scopes it may be
 * granted, its token lifetime in seconds and whether it is enabled. Only
 * the enabled flag changes after construction.
 */
module OAuth2Client {

  import opened Wrappers
  import opened JavaText

  /** The token lifetime a client gets when none is given: one hour. */
  const DEFAULT_ACCESS_TOKEN_VALIDITY_SECONDS: int := 3600

  class OAuth2Client {
    const clientId: string
    const clientSecret: string
    const clientName: string
    /** The granted scopes, separated by spaces; null when the builder was given none. */
    const scopes: Option<string>
    const accessTokenValiditySeconds: int
    var enabled: bool
    const description: Option<string>

    /** The builder constructor: a missing lifetime becomes one hour and a missing flag becomes enabled. */
    constructor (clientId: string, clientSecret: string, clientName: string, scopes: Option<string>,
                 accessTokenValiditySeconds: Option<int>, enabled: Option<bool>, description: Option<string>)
      ensures this.clientId == clientId && this.clientSecret == clientSecret && this.clientName == clientName
      ensures this.scopes == scopes && this.description == description
      ensures accessTokenValiditySeconds.None? ==> this.accessTokenValiditySeconds == DEFAULT_ACCESS_TOKEN_VALIDITY_SECONDS
      ensures accessTokenValiditySeconds.Some? ==> this.accessTokenValiditySeconds == accessTokenValiditySeconds.value
      ensures enabled.None? ==> this.enabled
      ensures enabled.Some? ==> this.enabled == enabled.value
    {
      this.clientId := clientId;
      this.clientSecret := clientSecret;
      this.clientName := clientName;
      this.scopes := scopes;
      this.accessTokenValiditySeconds := if accessTokenValiditySeconds.Some? then accessTokenValiditySeconds.value else 3600;
      this.enabled := if enabled.Some? then enabled.value else true;
      this.description := description;
    }

    /**
     * `hasScope`: false for null or blank scopes; otherwise plain substring
     * containment in the scopes text, not a match against whole scopes.
     */
    predicate HasScope(scope: string)
      ensures HasScope(scope) ==> HasText(scopes)
      ensures HasScope(scope) <==> HasText(scopes) && Contains(scopes.value, scope)
    {
      if scopes.None? || IsBlank(scopes.value) then false else Contains(scopes.value, scope)
    }

    /** `disable`: only the enabled flag changes. */
    method Disable()
      modifies this
      ensures !enabled
    {
      enabled := false;
    }

    /** `enable`: only the enabled flag changes. */
    method Enable()
      modifies this
      ensures enabled
    {
      enabled := true;
    }
  }

  /**
   * Because `hasScope` tests substrings, any leading part of a held scope is
   * itself reported as held: a client with "read:users" has "read".
   */
  lemma PrefixOfHeldScopeIsHeld(c: OAuth2Client, scope: string, rest: string)
    requires c.HasScope(scope + rest)
    ensures c.HasScope(scope)
  {
    var s := c.scopes.value;
    var i :| 0 <= i <= |s| - |scope + rest| && OccursAt(s, scope + rest, i);
    assert s[i..i + |scope|] == (scope + rest)[..|scope|] == scope;
    assert OccursAt(s, scope, i);
  }

  /** A client whose scopes are "read:users write:users" holds "read" though it was never given that scope. */
  lemma ReadMatchesReadUsers(c: OAuth2Client)
    requires c.scopes == Some("read:users write:users")
    ensures c.HasScope("read")
  {
    var s := c.scopes.value;
    assert !IsWhitespace(s[0]);
    assert s[0..4] == "read";
    assert OccursAt(s, "read", 0);
  }
}
