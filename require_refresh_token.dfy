/**
 * The `requireRefreshToken` middleware: the `refreshToken` cookie must be
 * present and verify under `JWT_REFRESH`; then `uid` is set and the request
 * goes on, otherwise the answer is 401 with the caught error object.
 */
module RequireRefreshToken {
  import opened Wrappers
  import Jwt
  import Http
  import TokenManager

  /** Message of the error thrown when the cookie is missing or empty. */
  const NoRefreshToken: string := "No existe el Refresh Token."

  /** The middleware: `Next` with the refresh token's uid, or the 401 it answers. */
  function Guard(env: Http.Env, req: Http.Request, nowMs: nat): (r: Http.Step)
    ensures r.Next? ==> r.req == req.(uid := r.req.uid) && r.req.uid.Some?
    ensures r.Halt? ==> r.reply.Json? && r.reply.status == 401
  {
    if Http.Falsy(req.refreshCookie) then Http.Halt(Http.Json(401, Http.Thrown(Http.PlainError(NoRefreshToken))))
    else match Jwt.Verify(env.jwtRefresh, req.refreshCookie, nowMs)
      case Success(uid) => Http.Next(req.(uid := Some(uid)))
      case Failure(e) => Http.Halt(Http.Json(401, Http.Thrown(Http.JwtFault(e))))
  }

  /** The request passes exactly when its cookie verifies under `JWT_REFRESH`, and then carries its uid. */
  lemma GuardPassesIff(env: Http.Env, req: Http.Request, nowMs: nat)
    ensures Guard(env, req, nowMs).Next? <==> Jwt.Verify(env.jwtRefresh, req.refreshCookie, nowMs).Success?
    ensures Guard(env, req, nowMs).Next? ==>
      Guard(env, req, nowMs).req.uid == Some(Jwt.Verify(env.jwtRefresh, req.refreshCookie, nowMs).value)
  {
  }

  /** Without the cookie there is a 401 and no `next()`. */
  lemma MissingCookieRejected(env: Http.Env, req: Http.Request, nowMs: nat)
    requires Http.Falsy(req.refreshCookie)
    ensures Guard(env, req, nowMs) == Http.Halt(Http.Json(401, Http.Thrown(Http.PlainError(NoRefreshToken))))
  {
  }

  /**
   * Round trip: a browser that received the refresh cookie at `issuedMs`
   * sends it back and passes, with `uid` set, for as long as the cookie
   * lives; once the cookie has expired it sends nothing and gets a 401. This
   * holds for any token lifetime of at least thirty days, so for the cookie
   * as written and for the corrected one alike.
   */
  lemma IssuedCookieAccepted(env: Http.Env, req: Http.Request, uid: Jwt.Uid, issuedMs: nat, nowMs: nat, lifetime: nat)
    requires env.jwtRefresh.Some? && lifetime >= TokenManager.RefreshLifetime
    requires TokenManager.RefreshCookieFor(env, uid, issuedMs, lifetime).Some?
    requires req.refreshCookie ==
      Http.CookieSent(map[TokenManager.RefreshCookieName := TokenManager.RefreshCookieFor(env, uid, issuedMs, lifetime).value],
                      TokenManager.RefreshCookieName, nowMs)
    ensures nowMs < TokenManager.CookieExpiry(issuedMs) ==> Guard(env, req, nowMs) == Http.Next(req.(uid := Some(uid)))
    ensures nowMs >= TokenManager.CookieExpiry(issuedMs) ==> Guard(env, req, nowMs).Halt?
  {
    TokenManager.RefreshTokenLivesWhileCookieLives(env, uid, issuedMs, nowMs, lifetime);
    Jwt.SignedHasNoSpace(env.jwtRefresh.value, uid, lifetime, issuedMs);
  }

  /** An access token put in the cookie is refused with a 401 when the secrets differ. */
  lemma AccessTokenRejected(env: Http.Env, req: Http.Request, uid: Jwt.Uid, issuedMs: nat, nowMs: nat)
    requires env.jwtSecret.Some? && env.jwtRefresh.Some? && env.jwtSecret != env.jwtRefresh
    requires TokenManager.GenerateToken(env, uid, issuedMs).Some?
    requires req.refreshCookie == Some(TokenManager.GenerateToken(env, uid, issuedMs).value.token)
    ensures Guard(env, req, nowMs) == Http.Halt(Http.Json(401, Http.Thrown(Http.JwtFault(Jwt.BadSignature))))
  {
    TokenManager.AccessTokenNotARefreshToken(env, uid, issuedMs, nowMs);
    Jwt.SignedHasNoSpace(env.jwtSecret.value, uid, TokenManager.AccessLifetime, issuedMs);
  }
}
