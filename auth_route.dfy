/**
 * The router mounted at `/api/v1/auth`: register and login behind their
 * validators, the profile behind `requireToken`, a new access token behind
 * `requireRefreshToken`, and logout with no guard.
 */
module AuthRoute {
  import opened Wrappers
  import Text
  import Jwt
  import Bcrypt
  import Http
  import TokenManager
  import RequireToken
  import RequireRefreshToken
  import ValidatorManager
  import opened UserModel
  import AuthController
  import opened Chain

  /** The five routes, named by the controller each one ends in. */
  datatype Handler = RegisterHandler | LoginHandler | InfoUserHandler | RefreshTokenHandler | LogoutHandler

  function VerbOf(h: Handler): Verb {
    if h == RegisterHandler || h == LoginHandler then Post else Get
  }

  function PathOf(h: Handler): string {
    match h
    case RegisterHandler => "/register"
    case LoginHandler => "/login"
    case InfoUserHandler => "/protected"
    case RefreshTokenHandler => "/refresh"
    case LogoutHandler => "/logout"
  }

  /** The middlewares each route runs before its controller. */
  function GuardsOf(h: Handler): seq<Guard> {
    match h
    case RegisterHandler => [RegisterRules]
    case LoginHandler => [LoginRules]
    case InfoUserHandler => [TokenGuard]
    case RefreshTokenHandler => [RefreshGuard]
    case LogoutHandler => []
  }

  /** The routes in declaration order. */
  const Routes: seq<Handler> := [RegisterHandler, LoginHandler, InfoUserHandler, RefreshTokenHandler, LogoutHandler]

  /**
   * The path as Express's default router compares it with a route's path:
   * the router is not case-sensitive, so letters are lower-cased (every route
   * path here is written in lower case), and it is not strict, so one
   * trailing `/` is dropped.
   */
  function RouteKey(path: string): (r: string)
    ensures |r| == |path| || (|r| == |path| - 1 && path[|r|] == '/')
    ensures forall i :: 0 <= i < |r| ==> r[i] == Text.LowerChar(path[i])
  {
    var n := if path != [] && path[|path| - 1] == '/' then |path| - 1 else |path|;
    seq(n, i requires 0 <= i < n => Text.LowerChar(path[i]))
  }

  /** Whether a request path reaches a route with path `route`. */
  predicate PathMatches(route: string, path: string) {
    RouteKey(path) == route
  }

  function FirstMatch(routes: seq<Handler>, verb: Verb, path: string): (r: Option<Handler>)
    ensures r.Some? ==> r.value in routes && VerbOf(r.value) == verb && PathMatches(PathOf(r.value), path)
    ensures r.Some? ==>
      (exists i :: 0 <= i < |routes| && routes[i] == r.value &&
         (forall j :: 0 <= j < i ==> !(VerbOf(routes[j]) == verb && PathMatches(PathOf(routes[j]), path))))
    ensures r.None? ==> forall i :: 0 <= i < |routes| ==> !(VerbOf(routes[i]) == verb && PathMatches(PathOf(routes[i]), path))
    decreases |routes|
  {
    if routes == [] then None
    else if VerbOf(routes[0]) == verb && PathMatches(PathOf(routes[0]), path) then Some(routes[0])
    else FirstMatch(routes[1..], verb, path)
  }

  function Resolve(verb: Verb, path: string): Option<Handler> {
    FirstMatch(Routes, verb, path)
  }

  /** Each route is reached by its own method and path: no two routes share both. */
  lemma ResolveRoute(h: Handler)
    ensures Resolve(VerbOf(h), PathOf(h)) == Some(h)
  {
    PathMatchesItself(h);
    ResolveLoosely(h, PathOf(h));
  }

  /** A route's own path, written in lower case without a trailing `/`, reaches it. */
  lemma PathMatchesItself(h: Handler)
    ensures PathMatches(PathOf(h), PathOf(h))
  {
    assert RouteKey(PathOf(h)) == PathOf(h);
  }

  /**
   * A route is reached by any spelling of its path that differs only in the
   * case of its letters or in one trailing `/`, so `POST /Login` and
   * `POST /login/` both run `login`.
   */
  lemma ResolveLoosely(h: Handler, path: string)
    requires PathMatches(PathOf(h), path)
    ensures Resolve(VerbOf(h), path) == Some(h)
  {
  }

  /** The two spellings of the login path that an exact comparison would miss. */
  lemma LoginSpellings()
    ensures Resolve(Post, "/Login") == Some(LoginHandler)
    ensures Resolve(Post, "/login/") == Some(LoginHandler)
  {
    ResolveLoosely(LoginHandler, "/Login");
    ResolveLoosely(LoginHandler, "/login/");
  }

  /** Serving one request: the users collection afterwards, the reply if any, and the refresh cookie set if any. */
  datatype Served = Served(users: UserTable, reply: Option<Http.Reply>, cookie: Option<Http.Cookie>)

  /**
   * Serving one request: a matching route runs its chain, and its handler
   * only if the chain passed the request on. `salt` is what `bcrypt.genSalt`
   * returns if a user is saved.
   */
  function ServeOutcome(t: UserTable, ctx: Context, db: Http.Database, verb: Verb, path: string, req: Http.Request, salt: Option<Bcrypt.Salt>): (r: Served)
    requires Invariant(t)
    ensures Invariant(r.users)
  {
    match Resolve(verb, path)
    case None => Served(t, None, None)
    case Some(h) =>
      match RunGuards(ctx, GuardsOf(h), req)
      case Halt(reply) => Served(t, Some(reply), None)
      case Next(req') =>
        assert h == InfoUserHandler || h == RefreshTokenHandler ==> req'.uid.Some? by {
          if h == InfoUserHandler || h == RefreshTokenHandler {
            SingleGuard(ctx, GuardsOf(h)[0], req);
          }
        }
        Handle(t, ctx, db, h, req', salt)
  }

  /** The controller behind each route, on the request its chain passed on. */
  function Handle(t: UserTable, ctx: Context, db: Http.Database, h: Handler, req: Http.Request, salt: Option<Bcrypt.Salt>): (r: Served)
    requires Invariant(t)
    requires h == InfoUserHandler || h == RefreshTokenHandler ==> req.uid.Some?
    ensures Invariant(r.users)
  {
    match h
    case RegisterHandler =>
      var o := AuthController.RegisterOutcome(t, db, ctx.env, ctx.nowMs, req.body.email, req.body.password, salt);
      Served(o.users, Some(o.reply), o.cookie)
    case LoginHandler =>
      var a := AuthController.LoginOutcome(t, db, ctx.env, ctx.nowMs, req.body.email, req.body.password);
      Served(t, Some(a.reply), a.cookie)
    case InfoUserHandler =>
      Served(t, Some(AuthController.InfoUserOutcome(t, db, req.uid.value)), None)
    case RefreshTokenHandler =>
      Served(t, AuthController.RefreshTokenOutcome(ctx.env, ctx.nowMs, req.uid.value), None)
    case LogoutHandler =>
      Served(t, Some(Http.Json(200, Http.Done)), Some(AuthController.ClearedCookie))
  }

  /** A request reaching route `h` gets the answer of the first guard that refuses it, or else `h`'s controller. */
  lemma ServeRoute(t: UserTable, ctx: Context, db: Http.Database, h: Handler, path: string, req: Http.Request, salt: Option<Bcrypt.Salt>)
    requires Invariant(t) && PathMatches(PathOf(h), path)
    requires RunGuards(ctx, GuardsOf(h), req).Next? && (h == InfoUserHandler || h == RefreshTokenHandler) ==>
      RunGuards(ctx, GuardsOf(h), req).req.uid.Some?
    ensures var s := RunGuards(ctx, GuardsOf(h), req);
      && (s.Halt? ==> ServeOutcome(t, ctx, db, VerbOf(h), path, req, salt) == Served(t, Some(s.reply), None))
      && (s.Next? ==> ServeOutcome(t, ctx, db, VerbOf(h), path, req, salt) == Handle(t, ctx, db, h, s.req, salt))
  {
    ResolveLoosely(h, path);
  }

  /** The email and password `POST /register` and `POST /login` hand to the controller once their body passed validation. */
  function Sanitized(ctx: Context, body: Http.Body): (string, string) {
    (ctx.oracles.normalizeEmail(Text.Trim(body.email)), Text.Trim(body.password))
  }

  /**
   * `POST /login`, under any spelling of the path the router accepts: the
   * login validator, then `login` on the sanitized email and password.
   */
  lemma LoginRoute(t: UserTable, ctx: Context, db: Http.Database, path: string, req: Http.Request, salt: Option<Bcrypt.Salt>)
    requires Invariant(t) && PathMatches(PathOf(LoginHandler), path)
    ensures var r := ServeOutcome(t, ctx, db, Post, path, req, salt);
      var v := ValidatorManager.BodyLogin(ctx.oracles, req);
      var a := AuthController.LoginOutcome(t, db, ctx.env, ctx.nowMs, Sanitized(ctx, req.body).0, Sanitized(ctx, req.body).1);
      && (v.Halt? ==> r == Served(t, Some(v.reply), None))
      && (v.Next? ==> r == Served(t, Some(a.reply), a.cookie))
  {
    SingleGuard(ctx, LoginRules, req);
    ServeRoute(t, ctx, db, LoginHandler, path, req, salt);
    if ValidatorManager.BodyLogin(ctx.oracles, req).Next? {
      LoginAccepted(t, ctx, db, req, salt);
    }
  }

  lemma LoginAccepted(t: UserTable, ctx: Context, db: Http.Database, req: Http.Request, salt: Option<Bcrypt.Salt>)
    requires Invariant(t) && ValidatorManager.BodyLogin(ctx.oracles, req).Next?
    ensures var a := AuthController.LoginOutcome(t, db, ctx.env, ctx.nowMs, Sanitized(ctx, req.body).0, Sanitized(ctx, req.body).1);
      Handle(t, ctx, db, LoginHandler, ValidatorManager.BodyLogin(ctx.oracles, req).req, salt) == Served(t, Some(a.reply), a.cookie)
  {
    ValidatorManager.LoginPassesIff(ctx.oracles, req);
    var v := ValidatorManager.BodyLogin(ctx.oracles, req);
    assert v.req.body.email == Sanitized(ctx, req.body).0 && v.req.body.password == Sanitized(ctx, req.body).1;
  }

  /** `GET /protected`, under any spelling the router accepts: `requireToken`, then `infoUser` on the uid it set. */
  lemma ProtectedRoute(t: UserTable, ctx: Context, db: Http.Database, path: string, req: Http.Request, salt: Option<Bcrypt.Salt>)
    requires Invariant(t) && PathMatches(PathOf(InfoUserHandler), path)
    ensures var r := ServeOutcome(t, ctx, db, Get, path, req, salt);
      var g := RequireToken.Guard(ctx.env, req, ctx.nowMs);
      && (g.Halt? ==> r == Served(t, Some(g.reply), None))
      && (g.Next? ==> r == Served(t, Some(AuthController.InfoUserOutcome(t, db, g.req.uid.value)), None))
  {
    SingleGuard(ctx, TokenGuard, req);
    ServeRoute(t, ctx, db, InfoUserHandler, path, req, salt);
  }

  /** `GET /refresh`, under any spelling the router accepts: `requireRefreshToken`, then `refreshToken` on the uid it set. */
  lemma RefreshRoute(t: UserTable, ctx: Context, db: Http.Database, path: string, req: Http.Request, salt: Option<Bcrypt.Salt>)
    requires Invariant(t) && PathMatches(PathOf(RefreshTokenHandler), path)
    ensures var r := ServeOutcome(t, ctx, db, Get, path, req, salt);
      var g := RequireRefreshToken.Guard(ctx.env, req, ctx.nowMs);
      && (g.Halt? ==> r == Served(t, Some(g.reply), None))
      && (g.Next? ==> r == Served(t, AuthController.RefreshTokenOutcome(ctx.env, ctx.nowMs, g.req.uid.value), None))
  {
    SingleGuard(ctx, RefreshGuard, req);
    ServeRoute(t, ctx, db, RefreshTokenHandler, path, req, salt);
  }

  /**
   * A user is created only through a body that passed validation: an email,
   * a trimmed password of 6 to 12 characters equal to `repassword`; the
   * stored user holds the normalised email and the hash of the trimmed
   * password.
   */
  lemma RegisterOnlyValidBodies(t: UserTable, ctx: Context, db: Http.Database, path: string, req: Http.Request, salt: Option<Bcrypt.Salt>)
    requires Invariant(t) && PathMatches(PathOf(RegisterHandler), path)
    ensures var r := ServeOutcome(t, ctx, db, Post, path, req, salt);
      r.users != t ==>
        && ctx.oracles.isEmail(Text.Trim(req.body.email))
        && ValidatorManager.LengthOk(Text.Trim(req.body.password))
        && req.body.repassword == Some(Text.Trim(req.body.password))
        && salt.Some?
        && r.users.users == t.users[t.nextId := User(NormalizeEmail(Sanitized(ctx, req.body).0), Bcrypt.Hash(Text.Trim(req.body.password), salt.value))]
  {
    ResolveLoosely(RegisterHandler, path);
    SingleGuard(ctx, RegisterRules, req);
    ValidatorManager.RegisterPassesIff(ctx.oracles, req);
    var v := ValidatorManager.BodyRegister(ctx.oracles, req);
    if v.Next? {
      assert v.req.body.email == Sanitized(ctx, req.body).0 && v.req.body.password == Sanitized(ctx, req.body).1;
      assert ServeOutcome(t, ctx, db, Post, path, req, salt) == Handle(t, ctx, db, RegisterHandler, v.req, salt);
    }
  }

  /** What a successful login returned: the user's access token, and the refresh cookie for the same user. */
  lemma LoginGranted(t: UserTable, ctx: Context, req: Http.Request, token: string)
    requires Invariant(t)
    requires ServeOutcome(t, ctx, Http.Healthy, Post, "/login", req, None).reply == Some(Http.Json(200, Http.Grant(token, 900)))
    ensures ByEmail(t, Sanitized(ctx, req.body).0).Some?
    ensures var id := ByEmail(t, Sanitized(ctx, req.body).0).value.0;
      && TokenManager.GenerateToken(ctx.env, id, ctx.nowMs) == Some(TokenManager.Grant(token, 900))
      && ServeOutcome(t, ctx, Http.Healthy, Post, "/login", req, None).cookie == TokenManager.RefreshCookie(ctx.env, id, ctx.nowMs)
  {
    PathMatchesItself(LoginHandler);
    LoginRoute(t, ctx, Http.Healthy, "/login", req, None);
    var a := AuthController.LoginOutcome(t, Http.Healthy, ctx.env, ctx.nowMs, Sanitized(ctx, req.body).0, Sanitized(ctx, req.body).1);
    assert a.reply.status == 200;
  }

  /** An access token issued to `id`, sent after any one-word scheme, opens `/protected` for fifteen minutes and shows that user. */
  lemma TokenOpensProtected(t: UserTable, ctx: Context, id: Id, issuedMs: nat, scheme: string, req: Http.Request)
    requires Invariant(t) && id in t.users && ' ' !in scheme
    requires TokenManager.GenerateToken(ctx.env, id, issuedMs).Some?
    requires req.authorization == Some(scheme + " " + TokenManager.GenerateToken(ctx.env, id, issuedMs).value.token)
    requires Jwt.Seconds(ctx.nowMs) < Jwt.Seconds(issuedMs) + 900
    ensures ServeOutcome(t, ctx, Http.Healthy, Get, "/protected", req, None).reply == Some(Http.Json(200, Http.Profile(id, t.users[id].email)))
  {
    RequireToken.IssuedTokenAccepted(ctx.env, req, scheme, id, issuedMs, ctx.nowMs);
    PathMatchesItself(InfoUserHandler);
    ProtectedRoute(t, ctx, Http.Healthy, "/protected", req, None);
  }

  /** The header a client builds, `Bearer <token>`, is the scheme word, one space, and the token. */
  lemma BearerHeader(token: string)
    ensures ' ' !in "Bearer"
    ensures "Bearer " + token == "Bearer" + " " + token
  {
    assert "Bearer" + " " == "Bearer ";
  }

  /**
   * Log in, then use the access token: a `Bearer` header carrying the token
   * a successful login returned opens `/protected` for fifteen minutes and
   * shows the logged-in user, without the password.
   */
  lemma LoginThenProtected(t: UserTable, ctx: Context, later: Context, req: Http.Request, token: string, req2: Http.Request)
    requires Invariant(t) && later.env == ctx.env
    requires ServeOutcome(t, ctx, Http.Healthy, Post, "/login", req, None).reply == Some(Http.Json(200, Http.Grant(token, 900)))
    requires req2.authorization == Some("Bearer " + token)
    requires Jwt.Seconds(later.nowMs) < Jwt.Seconds(ctx.nowMs) + 900
    ensures ByEmail(t, Sanitized(ctx, req.body).0).Some?
    ensures var found := ByEmail(t, Sanitized(ctx, req.body).0).value;
      ServeOutcome(t, later, Http.Healthy, Get, "/protected", req2, None).reply == Some(Http.Json(200, Http.Profile(found.0, found.1.email)))
  {
    LoginGranted(t, ctx, req, token);
    var found := ByEmail(t, Sanitized(ctx, req.body).0).value;
    BearerHeader(token);
    TokenOpensProtected(t, later, found.0, ctx.nowMs, "Bearer", req2);
  }

  /**
   * A refresh cookie issued to `id`, sent back while it lives,
   * gets a new access token for that user from `/refresh`; for any token
   * lifetime of at least thirty days, so as written and corrected alike.
   */
  lemma CookieOpensRefresh(t: UserTable, ctx: Context, id: Id, issuedMs: nat, req: Http.Request, lifetime: nat)
    requires Invariant(t) && ctx.env.jwtRefresh.Some? && ctx.env.jwtSecret.Some?
    requires lifetime >= TokenManager.RefreshLifetime
    requires TokenManager.RefreshCookieFor(ctx.env, id, issuedMs, lifetime).Some?
    requires req.refreshCookie == Http.CookieSent(
      map[TokenManager.RefreshCookieName := TokenManager.RefreshCookieFor(ctx.env, id, issuedMs, lifetime).value],
      TokenManager.RefreshCookieName, ctx.nowMs)
    requires ctx.nowMs < TokenManager.CookieExpiry(issuedMs)
    ensures var reply := ServeOutcome(t, ctx, Http.Healthy, Get, "/refresh", req, None).reply;
      && reply.Some? && reply.value.Json? && reply.value.status == 200 && reply.value.payload.Grant?
      && Jwt.Verify(ctx.env.jwtSecret, Some(reply.value.payload.token), ctx.nowMs) == Success(id)
  {
    RequireRefreshToken.IssuedCookieAccepted(ctx.env, req, id, issuedMs, ctx.nowMs, lifetime);
    PathMatchesItself(RefreshTokenHandler);
    RefreshRoute(t, ctx, Http.Healthy, "/refresh", req, None);
  }

  /**
   * Log in, then refresh: the browser sends back the cookie a successful
   * login set, and `/refresh` answers with a new access token for the same
   * user for as long as the cookie lives.
   */
  lemma LoginThenRefresh(t: UserTable, ctx: Context, later: Context, req: Http.Request, token: string, req2: Http.Request)
    requires Invariant(t) && later.env == ctx.env && ctx.env.jwtRefresh.Some?
    requires ServeOutcome(t, ctx, Http.Healthy, Post, "/login", req, None).reply == Some(Http.Json(200, Http.Grant(token, 900)))
    requires ServeOutcome(t, ctx, Http.Healthy, Post, "/login", req, None).cookie.Some?
    requires req2.refreshCookie == Http.CookieSent(
      map[TokenManager.RefreshCookieName := ServeOutcome(t, ctx, Http.Healthy, Post, "/login", req, None).cookie.value],
      TokenManager.RefreshCookieName, later.nowMs)
    requires later.nowMs < TokenManager.CookieExpiry(ctx.nowMs)
    ensures ByEmail(t, Sanitized(ctx, req.body).0).Some?
    ensures var reply := ServeOutcome(t, later, Http.Healthy, Get, "/refresh", req2, None).reply;
      && reply.Some? && reply.value.Json? && reply.value.status == 200 && reply.value.payload.Grant?
      && Jwt.Verify(ctx.env.jwtSecret, Some(reply.value.payload.token), later.nowMs) == Success(ByEmail(t, Sanitized(ctx, req.body).0).value.0)
  {
    LoginGranted(t, ctx, req, token);
    var id := ByEmail(t, Sanitized(ctx, req.body).0).value.0;
    CookieOpensRefresh(t, later, id, ctx.nowMs, req2, TokenManager.RefreshLifetime);
  }

  /**
   * Log out, then refresh: once `/logout` has cleared the cookie, whatever
   * the browser held, `/refresh` is refused with 401 and issues nothing.
   */
  lemma LogoutThenRefresh(t: UserTable, ctx: Context, later: Context, db: Http.Database, out: string, back: string, req: Http.Request, req2: Http.Request, jar: map<string, Http.Cookie>)
    requires Invariant(t) && PathMatches(PathOf(LogoutHandler), out) && PathMatches(PathOf(RefreshTokenHandler), back)
    requires req2.refreshCookie == Http.CookieSent(
      jar[TokenManager.RefreshCookieName := ServeOutcome(t, ctx, db, Get, out, req, None).cookie.value],
      TokenManager.RefreshCookieName, later.nowMs)
    ensures ServeOutcome(t, later, db, Get, back, req2, None) ==
      Served(t, Some(Http.Json(401, Http.Thrown(Http.PlainError(RequireRefreshToken.NoRefreshToken)))), None)
  {
    LogoutAlwaysAnswers(t, ctx, db, out, req);
    AuthController.LogoutClearsRefreshToken(jar, later.nowMs);
    RequireRefreshToken.MissingCookieRejected(later.env, req2, later.nowMs);
    RefreshRoute(t, later, db, back, req2, None);
  }

  /** `/logout` has no guard: any request clears the cookie, gets `{ ok: true }` and changes no user. */
  lemma LogoutAlwaysAnswers(t: UserTable, ctx: Context, db: Http.Database, path: string, req: Http.Request)
    requires Invariant(t) && PathMatches(PathOf(LogoutHandler), path)
    ensures ServeOutcome(t, ctx, db, Get, path, req, None) == Served(t, Some(Http.Json(200, Http.Done)), Some(AuthController.ClearedCookie))
  {
    ResolveLoosely(LogoutHandler, path);
  }

  /** Serving a request through the matching chain and controller, on the users store and the response. */
  method Serve(users: UserStore, ctx: Context, db: Http.Database, verb: Verb, path: string, req: Http.Request, salt: Option<Bcrypt.Salt>, res: Http.Response)
    requires users.Valid() && res.reply.None?
    modifies users, res
    ensures users.Valid()
    ensures var o := ServeOutcome(old(users.Table()), ctx, db, verb, path, req, salt);
      && users.Table() == o.users && res.reply == o.reply
      && res.cookies == if o.cookie.Some? then old(res.cookies)[TokenManager.RefreshCookieName := o.cookie.value] else old(res.cookies)
  {
    var route := Resolve(verb, path);
    if route.None? {
      return;
    }
    var step := RunGuards(ctx, GuardsOf(route.value), req);
    if step.Halt? {
      res.Send(step.reply);
      return;
    }
    if route.value == InfoUserHandler || route.value == RefreshTokenHandler {
      SingleGuard(ctx, GuardsOf(route.value)[0], req);
    }
    Dispatch(users, ctx, db, route.value, step.req, salt, res);
  }

  /** Running a route's controller on the request its chain passed on. */
  method Dispatch(users: UserStore, ctx: Context, db: Http.Database, h: Handler, req: Http.Request, salt: Option<Bcrypt.Salt>, res: Http.Response)
    requires users.Valid() && res.reply.None?
    requires h == InfoUserHandler || h == RefreshTokenHandler ==> req.uid.Some?
    modifies users, res
    ensures users.Valid()
    ensures var o := Handle(old(users.Table()), ctx, db, h, req, salt);
      && users.Table() == o.users && res.reply == o.reply
      && res.cookies == if o.cookie.Some? then old(res.cookies)[TokenManager.RefreshCookieName := o.cookie.value] else old(res.cookies)
  {
    match h {
      case RegisterHandler =>
        AuthController.Register(users, db, ctx.env, ctx.nowMs, req, salt, res);
      case LoginHandler =>
        AuthController.Login(users, db, ctx.env, ctx.nowMs, req, res);
      case InfoUserHandler =>
        AuthController.InfoUser(users, db, req, res);
      case RefreshTokenHandler =>
        AuthController.RefreshToken(ctx.env, ctx.nowMs, req, res);
      case LogoutHandler =>
        AuthController.Logout(res);
    }
  }
}
