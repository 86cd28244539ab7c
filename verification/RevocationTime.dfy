/** The expiry arithmetic shared by every layer of token revocation.

    Instants and durations are whole microseconds, the resolution of Python's
    `datetime` and `timedelta`.
  */
module RevocationTime {

  type Time = int

  const SECOND: int := 1_000_000

  /** `FALLBACK_RAW_TOKEN_TTL`: 30 days */
  const RAW_TOKEN_TTL: int := 30 * 24 * 3600 * SECOND

  function Min(x: int, y: int): int {
    if x <= y then x else y
  }

  function Max(x: int, y: int): int {
    if x >= y then x else y
  }

  /** `int(delta.total_seconds())`: Python truncates toward zero. */
  function WholeSeconds(delta: int): int {
    if delta >= 0 then delta / SECOND else -((-delta) / SECOND)
  }

  /** How long an answer may be served by the in-process layer: a positive one
      until the token expires, a negative one for at most `negativeTtl`. */
  function CacheUntil(revoked: bool, now: Time, expiresAt: Time, negativeTtl: nat): Time {
    if revoked then expiresAt else Min(expiresAt, now + negativeTtl)
  }

  /** The lifetime given to a Redis entry: whole seconds, and never less than one. */
  function RedisLifetime(revoked: bool, now: Time, expiresAt: Time, negativeTtl: nat): (d: int)
    ensures d >= SECOND
  {
    Max(WholeSeconds(CacheUntil(revoked, now, expiresAt, negativeTtl) - now), 1) * SECOND
  }

  /** The longest lifetime a negative Redis entry can get. */
  function NegativeRedisLifetime(negativeTtl: nat): (d: int)
    ensures d >= SECOND
  {
    Max(negativeTtl / SECOND, 1) * SECOND
  }

  lemma NegativeLifetimeBound(now: Time, expiresAt: Time, negativeTtl: nat)
    ensures RedisLifetime(false, now, expiresAt, negativeTtl) <= NegativeRedisLifetime(negativeTtl)
    ensures now + negativeTtl <= expiresAt ==>
              RedisLifetime(false, now, expiresAt, negativeTtl) == NegativeRedisLifetime(negativeTtl)
  {
  }
}
