/**
 * The `requireToken` middleware: take the access token from the
 * `Authorization` header, verify it under `JWT_SECRET`, and either pass the
 * request on with `uid` set or answer 401 with the error's message.
 */
module RequireToken {
  import opened Wrappers
  import Text
  import Jwt
  import Http
  import TokenManager

  /** Message of the error thrown when the header is missing or empty. */
  const NoBearer: string := "No Bearer"

  /**
   * `header.split(" ")[1]`: the second space-separated segment, present
   * exactly when the header holds a space. The first word is not checked.
   */
  function BearerToken(header: string): (r: Option<string>)
    ensures r.Some? <==> ' ' in header
  {
    Text.SplitMany(header, ' ');
    var parts := Text.Split(header, ' ');
    if |parts| >= 2 then Some(parts[1]) else None
  }

  /** Whatever the first word, the segment after the first space is the token. */
  lemma BearerTokenOf(scheme: string, token: string)
    requires ' ' !in scheme && ' ' !in token
    ensures BearerToken(scheme + " " + token) == Some(token)
  {
    var parts := [scheme, token];
    assert Text.Join(parts, ' ') == scheme + " " + token by {
      assert Text.Join(parts[1..], ' ') == token;
    }
    Text.SplitJoin(parts, ' ');
  }

  /** The middleware: `Next` with the token's uid, or the 401 it answers. */
  function Guard(env: Http.Env, req: Http.Request, nowMs: nat): (r: Http.Step)
    ensures r.Next? ==> r.req == req.(uid := r.req.uid) && r.req.uid.Some?
    ensures r.Halt? ==> r.reply.Json? && r.reply.status == 401
  {
    if Http.Falsy(req.authorization) then Http.Halt(Http.Json(401, Http.Message(NoBearer)))
    else match Jwt.Verify(env.jwtSecret, BearerToken(req.authorization.value), nowMs)
      case Success(uid) => Http.Next(req.(uid := Some(uid)))
      case Failure(e) => Http.Halt(Http.Json(401, Http.Message(Jwt.Message(e))))
  }

  /** The request passes exactly when the header's token verifies under `JWT_SECRET`, and then carries its uid. */
  lemma GuardPassesIff(env: Http.Env, req: Http.Request, nowMs: nat)
    ensures Guard(env, req, nowMs).Next? <==>
      !Http.Falsy(req.authorization) && Jwt.Verify(env.jwtSecret, BearerToken(req.authorization.value), nowMs).Success?
    ensures Guard(env, req, nowMs).Next? ==>
      Guard(env, req, nowMs).req.uid == Some(Jwt.Verify(env.jwtSecret, BearerToken(req.authorization.value), nowMs).value)
  {
  }

  /** Without a header there is a 401 "No Bearer" and no `next()`. */
  lemma MissingHeaderRejected(env: Http.Env, req: Http.Request, nowMs: nat)
    requires Http.Falsy(req.authorization)
    ensures Guard(env, req, nowMs) == Http.Halt(Http.Json(401, Http.Message(NoBearer)))
  {
  }

  /** A header without a space carries no token: 401 "jwt must be provided". */
  lemma OneWordHeaderRejected(env: Http.Env, req: Http.Request, nowMs: nat)
    requires req.authorization.Some? && req.authorization.value != [] && ' ' !in req.authorization.value
    ensures Guard(env, req, nowMs) == Http.Halt(Http.Json(401, Http.Message("jwt must be provided")))
  {
  }

  /**
   * Round trip: a header made of any space-free word, a space and an issued
   * access token passes, with `uid` set to the token's user, until the token
   * expires, and is answered 401 "jwt expired" afterwards.
   */
  lemma IssuedTokenAccepted(env: Http.Env, req: Http.Request, scheme: string, uid: Jwt.Uid, issuedMs: nat, nowMs: nat)
    requires env.jwtSecret.Some? && ' ' !in scheme
    requires TokenManager.GenerateToken(env, uid, issuedMs).Some?
    requires req.authorization == Some(scheme + " " + TokenManager.GenerateToken(env, uid, issuedMs).value.token)
    ensures Jwt.Seconds(nowMs) < Jwt.Seconds(issuedMs) + 900 ==> Guard(env, req, nowMs) == Http.Next(req.(uid := Some(uid)))
    ensures Jwt.Seconds(nowMs) >= Jwt.Seconds(issuedMs) + 900 ==>
      Guard(env, req, nowMs) == Http.Halt(Http.Json(401, Http.Message("jwt expired")))
  {
    var token := TokenManager.GenerateToken(env, uid, issuedMs).value.token;
    Jwt.SignedHasNoSpace(env.jwtSecret.value, uid, TokenManager.AccessLifetime, issuedMs);
    BearerTokenOf(scheme, token);
    TokenManager.AccessTokenRoundTrip(env, uid, issuedMs, nowMs);
  }

  /**
   * A refresh token in the header, whatever its lifetime (as written or
   * corrected), is refused with 401 "invalid signature" when the secrets differ.
   */
  lemma RefreshTokenRejected(env: Http.Env, req: Http.Request, scheme: string, uid: Jwt.Uid, issuedMs: nat, nowMs: nat, lifetime: nat)
    requires env.jwtSecret.Some? && env.jwtRefresh.Some? && env.jwtSecret != env.jwtRefresh && ' ' !in scheme
    requires TokenManager.RefreshCookieFor(env, uid, issuedMs, lifetime).Some?
    requires req.authorization == Some(scheme + " " + TokenManager.RefreshCookieFor(env, uid, issuedMs, lifetime).value.value)
    ensures Guard(env, req, nowMs) == Http.Halt(Http.Json(401, Http.Message("invalid signature")))
  {
    var token := TokenManager.RefreshCookieFor(env, uid, issuedMs, lifetime).value.value;
    Jwt.SignedHasNoSpace(env.jwtRefresh.value, uid, lifetime, issuedMs);
    BearerTokenOf(scheme, token);
    TokenManager.RefreshTokenNotAnAccessToken(env, uid, issuedMs, nowMs, lifetime);
  }
}
