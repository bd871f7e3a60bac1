/**
 * Issuing tokens: the access token, signed under `JWT_SECRET` for fifteen
 * minutes and returned to the caller, and the refresh token, signed under
 * `JWT_REFRESH` and handed to the client only as an httpOnly cookie that
 * lasts thirty days.
 */
module TokenManager {
  import opened Wrappers
  import Jwt
  import Http

  /** The access token's `expiresIn`: fifteen minutes, in seconds. */
  const AccessLifetime: nat := 60 * 15

  /** Thirty days in milliseconds: the refresh cookie's lifetime. */
  const RefreshLifetimeMs: nat := (60 * 60 * 24 * 30) * 1000

  /** Thirty days in seconds, the unit jsonwebtoken reads a numeric `expiresIn` in. */
  const RefreshLifetime: nat := RefreshLifetimeMs / 1000

  /**
   * When the refresh cookie set at `nowMs` expires: `new Date(Date.now() +
   * expiresIn)` written into the cookie's `Expires` attribute, which keeps
   * whole seconds only, so the milliseconds are dropped.
   */
  function CookieExpiry(nowMs: nat): (r: nat)
    ensures r == (Jwt.Seconds(nowMs) + RefreshLifetime) * 1000
    ensures r <= nowMs + RefreshLifetimeMs < r + 1000
  {
    ((nowMs + RefreshLifetimeMs) / 1000) * 1000
  }

  /** Name of the cookie carrying the refresh token. */
  const RefreshCookieName: string := "refreshToken"

  /** `{ token, expiresIn }` as `generateToken` returns it. */
  datatype Grant = Grant(token: string, expiresIn: nat)

  /**
   * `generateToken(uid)`: an access token for `uid` under `JWT_SECRET`, or
   * nothing (`undefined`) when signing throws because the secret is unset.
   */
  function GenerateToken(env: Http.Env, uid: Jwt.Uid, nowMs: nat): (r: Option<Grant>)
    ensures r.Some? <==> env.jwtSecret.Some?
    ensures r.Some? ==> r.value.expiresIn == 900
  {
    match Jwt.Sign(env.jwtSecret, uid, AccessLifetime, nowMs)
    case Success(token) => Some(Grant(token, AccessLifetime))
    case Failure(_) => None
  }

  /**
   * Round trip: an access token verifies under `JWT_SECRET` to the uid it was
   * issued for until 900 seconds after the second it was issued in, and is
   * reported expired from then on.
   */
  lemma AccessTokenRoundTrip(env: Http.Env, uid: Jwt.Uid, issuedMs: nat, nowMs: nat)
    requires env.jwtSecret.Some?
    ensures GenerateToken(env, uid, issuedMs).Some?
    ensures Jwt.Verify(env.jwtSecret, Some(GenerateToken(env, uid, issuedMs).value.token), nowMs)
         == if Jwt.Seconds(nowMs) < Jwt.Seconds(issuedMs) + 900 then Success(uid) else Failure(Jwt.Expired)
  {
    Jwt.SignThenVerify(env.jwtSecret.value, uid, AccessLifetime, issuedMs, nowMs);
  }

  /** An access token is refused by the refresh secret whenever the two secrets differ. */
  lemma AccessTokenNotARefreshToken(env: Http.Env, uid: Jwt.Uid, issuedMs: nat, nowMs: nat)
    requires env.jwtSecret.Some? && env.jwtRefresh.Some? && env.jwtSecret != env.jwtRefresh
    ensures GenerateToken(env, uid, issuedMs).Some?
    ensures Jwt.Verify(env.jwtRefresh, Some(GenerateToken(env, uid, issuedMs).value.token), nowMs)
         == Failure(Jwt.BadSignature)
  {
    Jwt.OtherSecretRejects(env.jwtSecret.value, env.jwtRefresh.value, uid, AccessLifetime, issuedMs, nowMs);
  }

  /**
   * The cookie `generateRefreshToken` sets when `jwt.sign` is given
   * `expiresIn` = `lifetime` (seconds, as jsonwebtoken reads a number): the
   * token under `JWT_REFRESH`, httpOnly, expiring thirty days after `nowMs`
   * to the second; no cookie when signing throws.
   */
  function RefreshCookieFor(env: Http.Env, uid: Jwt.Uid, nowMs: nat, lifetime: nat): (r: Option<Http.Cookie>)
    ensures r.Some? <==> env.jwtRefresh.Some?
    ensures r.Some? ==> r.value.httpOnly && r.value.expiresMs == CookieExpiry(nowMs)
  {
    match Jwt.Sign(env.jwtRefresh, uid, lifetime, nowMs)
    case Success(token) => Some(Http.Cookie(token, true, CookieExpiry(nowMs)))
    case Failure(_) => None
  }

  /**
   * The cookie `generateRefreshToken` sets, as written: the millisecond
   * constant is also passed to `jwt.sign` as `expiresIn`, which the library
   * reads as seconds.
   */
  function RefreshCookieAsWritten(env: Http.Env, uid: Jwt.Uid, nowMs: nat): (r: Option<Http.Cookie>)
    ensures r.Some? <==> env.jwtRefresh.Some?
    ensures r.Some? ==> r.value.httpOnly && r.value.expiresMs == CookieExpiry(nowMs)
  {
    RefreshCookieFor(env, uid, nowMs, RefreshLifetimeMs)
  }

  /**
   * As written, the refresh token outlives its cookie: at the instant the
   * cookie expires the token in it still verifies.
   */
  lemma RefreshTokenOutlivesCookieAsWritten(env: Http.Env, uid: Jwt.Uid, issuedMs: nat)
    requires env.jwtRefresh.Some?
    ensures RefreshCookieAsWritten(env, uid, issuedMs).Some?
    ensures var c := RefreshCookieAsWritten(env, uid, issuedMs).value;
      Jwt.Verify(env.jwtRefresh, Some(c.value), c.expiresMs) == Success(uid)
  {
    var c := RefreshCookieAsWritten(env, uid, issuedMs).value;
    Jwt.SignThenVerify(env.jwtRefresh.value, uid, RefreshLifetimeMs, issuedMs, c.expiresMs);
  }

  /**
   * The refresh cookie with the token's lifetime given in seconds, so that
   * token and cookie both last thirty days; on a signing error there is no
   * cookie.
   */
  function RefreshCookie(env: Http.Env, uid: Jwt.Uid, nowMs: nat): (r: Option<Http.Cookie>)
    ensures r.Some? <==> env.jwtRefresh.Some?
    ensures r.Some? ==> r.value.httpOnly && r.value.expiresMs == CookieExpiry(nowMs)
  {
    RefreshCookieFor(env, uid, nowMs, RefreshLifetime)
  }

  /**
   * The refresh token in the cookie verifies under `JWT_REFRESH` to its uid
   * exactly as long as the cookie lives, and is expired from the moment the
   * cookie expires: both end at the same whole second.
   */
  lemma RefreshTokenLivesWithCookie(env: Http.Env, uid: Jwt.Uid, issuedMs: nat, nowMs: nat)
    requires env.jwtRefresh.Some?
    ensures RefreshCookie(env, uid, issuedMs).Some?
    ensures var c := RefreshCookie(env, uid, issuedMs).value;
      Jwt.Verify(env.jwtRefresh, Some(c.value), nowMs) == if nowMs < c.expiresMs then Success(uid) else Failure(Jwt.Expired)
  {
    Jwt.SignThenVerify(env.jwtRefresh.value, uid, RefreshLifetime, issuedMs, nowMs);
  }

  /**
   * While the cookie lives, the refresh token in it verifies to its uid for
   * any token lifetime of at least thirty days: for the cookie as written
   * and for the corrected one alike.
   */
  lemma RefreshTokenLivesWhileCookieLives(env: Http.Env, uid: Jwt.Uid, issuedMs: nat, nowMs: nat, lifetime: nat)
    requires env.jwtRefresh.Some? && lifetime >= RefreshLifetime
    ensures RefreshCookieFor(env, uid, issuedMs, lifetime).Some?
    ensures var c := RefreshCookieFor(env, uid, issuedMs, lifetime).value;
      nowMs < c.expiresMs ==> Jwt.Verify(env.jwtRefresh, Some(c.value), nowMs) == Success(uid)
  {
    Jwt.SignThenVerify(env.jwtRefresh.value, uid, lifetime, issuedMs, nowMs);
  }

  /**
   * A refresh token, whatever its lifetime (so both as written and
   * corrected), is refused by the access secret whenever the two secrets differ.
   */
  lemma RefreshTokenNotAnAccessToken(env: Http.Env, uid: Jwt.Uid, issuedMs: nat, nowMs: nat, lifetime: nat)
    requires env.jwtSecret.Some? && env.jwtRefresh.Some? && env.jwtSecret != env.jwtRefresh
    ensures RefreshCookieFor(env, uid, issuedMs, lifetime).Some?
    ensures Jwt.Verify(env.jwtSecret, Some(RefreshCookieFor(env, uid, issuedMs, lifetime).value.value), nowMs)
         == Failure(Jwt.BadSignature)
  {
    Jwt.OtherSecretRejects(env.jwtRefresh.value, env.jwtSecret.value, uid, lifetime, issuedMs, nowMs);
  }

  /** `generateRefreshToken(uid, res)`: sets the refresh cookie, or nothing when signing throws. */
  method GenerateRefreshToken(env: Http.Env, uid: Jwt.Uid, nowMs: nat, res: Http.Response)
    modifies res`cookies
    ensures res.cookies == match RefreshCookie(env, uid, nowMs)
      case Some(c) => old(res.cookies)[RefreshCookieName := c]
      case None => old(res.cookies)
  {
    var signed := Jwt.Sign(env.jwtRefresh, uid, RefreshLifetime, nowMs);
    if signed.Success? {
      res.SetCookie(RefreshCookieName, Http.Cookie(signed.value, true, CookieExpiry(nowMs)));
    }
  }
}
