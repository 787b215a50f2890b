/**
 * The identity token the API issues on register and login, and the bearer
 * validation that protected endpoints apply to it. The token is modelled by
 * its claims; the HMAC-SHA256 signature is modelled by the key it was signed
 * with, so a token verifies under a key exactly when it was signed with it.
 * Times are whole seconds.
 */
module Jwt {
  import opened Base
  import opened Models

  /** `DateTime.UtcNow.AddHours(1)`: one hour of validity. */
  const TokenLifetime: int := 3600

  /** The default `ClockSkew` of the bearer validation parameters: five minutes. */
  const ClockSkew: int := 300

  /** The `Jwt:Key`, `Jwt:Issuer` and `Jwt:Audience` configuration values. */
  datatype JwtSettings = JwtSettings(key: string, issuer: string, audience: string)

  /**
   * A signed token: the NameIdentifier claim `sub` (the user id), the Email
   * claim, issuer, audience, expiry, and the key that signed it.
   */
  datatype Token = Token(sub: int, email: string, iss: string, aud: string, exp: int, signedWith: string)

  /**
   * `GenerateToken(user)`: claims NameIdentifier = the user's id and Email =
   * the user's e-mail, the configured issuer and audience, expiry one hour
   * after `now`, signed with the configured key.
   */
  function GenerateToken(settings: JwtSettings, user: User, now: int): (t: Token)
    ensures t.sub == user.id && t.email == user.email
    ensures t.iss == settings.issuer && t.aud == settings.audience
    ensures t.exp == now + TokenLifetime
    ensures t.signedWith == settings.key
  {
    Token(user.id, user.email, settings.issuer, settings.audience, now + TokenLifetime, settings.key)
  }

  /**
   * The bearer check of every `[Authorize]` endpoint: signature, issuer,
   * audience and lifetime (with the clock skew) are validated; on success the
   * acting identity is the token's subject.
   */
  function ValidateToken(settings: JwtSettings, t: Token, now: int): (r: Option<int>)
    ensures r.Some? <==> t.signedWith == settings.key && t.iss == settings.issuer
                          && t.aud == settings.audience && now <= t.exp + ClockSkew
    ensures r.Some? ==> r.value == t.sub
  {
    if t.signedWith == settings.key && t.iss == settings.issuer && t.aud == settings.audience
       && now <= t.exp + ClockSkew
    then Some(t.sub)
    else None
  }

  /**
   * A token issued at `issuedAt` is accepted up to one hour plus the clock
   * skew later, and then identifies exactly the user it was issued for.
   */
  lemma IssuedTokenIdentifiesUser(settings: JwtSettings, user: User, issuedAt: int, now: int)
    ensures ValidateToken(settings, GenerateToken(settings, user, issuedAt), now)
            == if now <= issuedAt + TokenLifetime + ClockSkew then Some(user.id) else None
  {
  }

  /** A token signed under other settings' key is never accepted. */
  lemma ForeignKeyRejected(settings: JwtSettings, other: JwtSettings, user: User, issuedAt: int, now: int)
    requires other.key != settings.key
    ensures ValidateToken(settings, GenerateToken(other, user, issuedAt), now).None?
  {
  }
}
