/** The OAuth token record held by the gateway, the expiry stamp applied when
    a token response is saved, and the bearer header derived from it. */
module Tokens {
  import opened Wrappers
  import opened Json

  /** The token JSON document: whatever the token endpoint returned, plus the
      `expires_at` stamp (milliseconds) the gateway adds. */
  datatype TokenSet = TokenSet(
    accessToken: Option<string>,
    refreshToken: Option<string>,
    expiresIn: Option<int>,
    expiresAt: Option<int>)

  /** Lifetime assumed when the response has no truthy `expires_in`. */
  const DefaultLifetimeSeconds: int := 3600

  /** Tokens are treated as expired this long before the provider says. */
  const SafetyMarginMs: int := 60000

  const BearerPrefix: string := "Bearer "

  /** The lifetime in seconds used for the stamp: `expires_in || 3600`. */
  function LifetimeSeconds(expiresIn: Option<int>): int {
    if TruthyNum(expiresIn) then expiresIn.value else DefaultLifetimeSeconds
  }

  /** The response as stored: every field kept, `expires_at` set from the
      clock reading `now` (milliseconds). */
  function Stamp(response: TokenSet, now: int): (t: TokenSet)
    ensures t.accessToken == response.accessToken
    ensures t.refreshToken == response.refreshToken
    ensures t.expiresIn == response.expiresIn
    ensures t.expiresAt.Some?
    ensures t.expiresAt.value + SafetyMarginMs - now == LifetimeSeconds(response.expiresIn) * 1000
  {
    response.(expiresAt := Some(now + LifetimeSeconds(response.expiresIn) * 1000 - SafetyMarginMs))
  }

  /** The interceptor's refresh condition: tokens held, `expires_at` truthy
      and already reached. */
  function Expired(tokens: Option<TokenSet>, now: int): (expired: bool)
    ensures expired ==> tokens.Some? && tokens.value.expiresAt.Some? && tokens.value.expiresAt.value <= now
    ensures tokens.Some? && tokens.value.expiresAt == Some(0) ==> !expired
  {
    tokens.Some? && TruthyNum(tokens.value.expiresAt) && now >= tokens.value.expiresAt.value
  }

  /** Once expired, tokens stay expired as the clock advances. */
  lemma ExpiryIsMonotone(tokens: Option<TokenSet>, now: int, later: int)
    requires Expired(tokens, now) && now <= later
    ensures Expired(tokens, later)
  {
  }

  /** The Authorization header the interceptor attaches, if any. */
  function AuthHeader(tokens: Option<TokenSet>): (h: Option<string>)
    ensures h.Some? <==> tokens.Some? && TruthyStr(tokens.value.accessToken)
    ensures h.Some? ==> BearerToken(h.value) == tokens.value.accessToken
  {
    if tokens.Some? && TruthyStr(tokens.value.accessToken) then
      var h := BearerPrefix + tokens.value.accessToken.value;
      assert h[..|BearerPrefix|] == BearerPrefix;
      assert h[|BearerPrefix|..] == tokens.value.accessToken.value;
      Some(h)
    else None
  }

  /** Reads the token back out of a bearer header (the server's view). */
  function BearerToken(header: string): Option<string> {
    if |BearerPrefix| <= |header| && header[..|BearerPrefix|] == BearerPrefix then
      Some(header[|BearerPrefix|..])
    else None
  }

  /** A stamped token is refreshed exactly from 60 seconds before the
      provider's lifetime runs out, whenever the stamp is non-zero. */
  lemma StampedTokenExpiry(response: TokenSet, now: int, t: int)
    requires Stamp(response, now).expiresAt != Some(0)
    ensures Expired(Some(Stamp(response, now)), t)
        <==> t >= now + LifetimeSeconds(response.expiresIn) * 1000 - SafetyMarginMs
  {
  }

  /** `expires_in` of 0 or absent both mean one hour: the token is used for
      3,540,000 ms. */
  lemma FalsyLifetimeMeansOneHour(response: TokenSet, now: int)
    requires !TruthyNum(response.expiresIn)
    ensures Stamp(response, now).expiresAt == Some(now + 3540000)
  {
  }
}
