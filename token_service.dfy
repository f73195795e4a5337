/** Entry-token checks made before a user may pick and pay for seats. */
module TokenService {

  import opened Wrappers
  import opened Errors
  import JavaText
  import TokenStore
  import RedisValues

  class TokenService {
    const tokenRepository: TokenStore.TokenRedisRepository

    constructor (tokenRepository: TokenStore.TokenRedisRepository)
      ensures this.tokenRepository == tokenRepository
    {
      this.tokenRepository := tokenRepository;
    }

    /**
     * `validateToken`: a missing or blank token is TOKEN_NOT_FOUND, no stored
     * token is TOKEN_EXPIRED, a different one is TOKEN_INVALID, in that
     * order. It passes exactly when the presented token is the stored one.
     */
    function ValidateToken(eventId: string, userId: string, token: Option<string>, now: int): (r: Result<Unit, TurnstileException>)
      reads tokenRepository
      ensures r.Ok? <==> token.Some? && !JavaText.IsBlank(token.value) &&
                         tokenRepository.GetToken(eventId, userId, now) == token
      ensures token.None? || JavaText.IsBlank(token.value) ==> r == Err(Raise(TOKEN_NOT_FOUND))
      ensures token.Some? && !JavaText.IsBlank(token.value) && !tokenRepository.HasToken(eventId, userId, now) ==>
        r == Err(Raise(TOKEN_EXPIRED))
      ensures (token.Some? && !JavaText.IsBlank(token.value) && tokenRepository.HasToken(eventId, userId, now) &&
               tokenRepository.GetToken(eventId, userId, now) != token) ==> r == Err(Raise(TOKEN_INVALID))
      ensures r.Err? ==> r.error.errorCode.HttpStatus() == 401
    {
      if token.None? || JavaText.IsBlank(token.value) then Err(Raise(TOKEN_NOT_FOUND))
      else if !tokenRepository.HasToken(eventId, userId, now) then Err(Raise(TOKEN_EXPIRED))
      else if !tokenRepository.IsValidToken(eventId, userId, token.value, now) then Err(Raise(TOKEN_INVALID))
      else Ok(Unit)
    }

    /** `hasValidToken`: a token is stored, whatever its value; it has time left exactly then. */
    function HasValidToken(eventId: string, userId: string, now: int): (has: bool)
      reads tokenRepository
      ensures has <==> tokenRepository.GetToken(eventId, userId, now).Some?
      ensures has <==> GetRemainingTtl(eventId, userId, now) > 0
    {
      tokenRepository.HasToken(eventId, userId, now)
    }

    /** `deleteToken`. */
    method DeleteToken(eventId: string, userId: string, now: int)
      modifies tokenRepository
      ensures tokenRepository.store == RedisValues.Del(old(tokenRepository.store), TokenStore.TokenKey(eventId, userId), now).0
      ensures !HasValidToken(eventId, userId, now)
    {
      var _ := tokenRepository.DeleteToken(eventId, userId, now);
    }

    function GetRemainingTtl(eventId: string, userId: string, now: int): (seconds: nat)
      reads tokenRepository
      ensures seconds <= 0 <==> !tokenRepository.HasToken(eventId, userId, now)
    {
      tokenRepository.GetRemainingTtl(eventId, userId, now)
    }
  }
}
