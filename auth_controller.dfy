/**
 * The authentication controllers: register, login, the protected profile,
 * issuing a new access token from a refresh token, and logout. Register and
 * login are specified by outcome functions (new users collection, reply,
 * refresh cookie) and implemented as methods on a `UserStore` and an Express
 * response; the methods are proved to follow their outcome functions.
 */
module AuthController {
  import opened Wrappers
  import Jwt
  import Bcrypt
  import Http
  import TokenManager
  import opened UserModel

  const ServerError: string := "Error del servidor."
  const DuplicateEmail: string := "Ya existe este email en la base de datos."
  const DuplicateKeyCode: nat := 11000
  const UnknownEmail: string := "No existe ese email (usuario)."
  const WrongPassword: string := "Password incorrecta."

  /** What `register` leaves behind: the users collection, the first reply sent, the refresh cookie set. */
  datatype Outcome = Outcome(users: UserTable, reply: Http.Reply, cookie: Option<Http.Cookie>)

  /** What `login` sends: its reply and the refresh cookie set, if any. */
  datatype Answer = Answer(reply: Http.Reply, cookie: Option<Http.Cookie>)

  /** Whether some stored user has the email `email` normalises to. */
  ghost predicate Registered(t: UserTable, email: string) {
    exists id :: id in t.users && t.users[id].email == NormalizeEmail(email)
  }

  /**
   * `register`, with `salt` the result of `bcrypt.genSalt` (`None` when it
   * fails). A taken email is answered 400 with code 11000 and changes
   * nothing; the 500 sent after it is dropped. Any other failure before the
   * save is answered 500 and changes nothing. A successful save adds exactly
   * one user under a fresh id, with the hashed password; the answer is then
   * 201 with an access token for that id, and the refresh cookie is set. If
   * the access token cannot be signed the user stays and the answer is 500
   * without a cookie.
   */
  function RegisterOutcome(t: UserTable, db: Http.Database, env: Http.Env, nowMs: nat, email: string, password: string, salt: Option<Bcrypt.Salt>): (r: Outcome)
    requires Invariant(t)
    ensures Invariant(r.users)
    ensures r.reply.Json? && r.reply.status in {201, 400, 500}
    ensures r.reply.status != 201 ==> r.cookie.None?
    ensures r.reply.status == 500 ==> r.reply.payload == Http.Message(ServerError)
    ensures db.Faulty? ==> r == Outcome(t, Http.Json(500, Http.Message(ServerError)), None)
    ensures db.Healthy? && Registered(t, email) ==>
      r == Outcome(t, Http.Json(400, Http.Duplicate(DuplicateEmail, DuplicateKeyCode)), None)
    ensures r.users != t <==>
      db.Healthy? && !Registered(t, email) && NormalizeEmail(email) != [] && password != [] && salt.Some?
    ensures r.users != t ==>
      && t.nextId !in t.users
      && r.users.users == t.users[t.nextId := User(NormalizeEmail(email), Bcrypt.Hash(password, salt.value))]
    ensures r.reply.status == 201 <==> r.users != t && env.jwtSecret.Some?
    ensures r.reply.status == 201 ==>
      && r.reply.payload == Http.Grant(TokenManager.GenerateToken(env, t.nextId, nowMs).value.token, 900)
      && r.cookie == TokenManager.RefreshCookie(env, t.nextId, nowMs)
  {
    var key := NormalizeEmail(email);
    NormalizeEmailIdempotent(email);
    if db.Faulty? then Outcome(t, Http.Json(500, Http.Message(ServerError)), None)
    else if ByEmail(t, email).Some? then Outcome(t, Http.Json(400, Http.Duplicate(DuplicateEmail, DuplicateKeyCode)), None)
    else SaveOutcome(t, env, nowMs, key, password, salt)
  }

  /** The part of `register` after the lookup: save the new user, then issue its tokens. */
  function SaveOutcome(t: UserTable, env: Http.Env, nowMs: nat, key: string, password: string, salt: Option<Bcrypt.Salt>): (r: Outcome)
    requires Invariant(t) && IsNormalized(key)
    ensures Invariant(r.users)
  {
    match Insert(t, key, password, salt)
    case Failure(_) => Outcome(t, Http.Json(500, Http.Message(ServerError)), None)
    case Success(saved) =>
      match TokenManager.GenerateToken(env, saved.1, nowMs)
      case None => Outcome(saved.0, Http.Json(500, Http.Message(ServerError)), None)
      case Some(g) => Outcome(saved.0, Http.Json(201, Http.Grant(g.token, g.expiresIn)), TokenManager.RefreshCookie(env, saved.1, nowMs))
  }

  /**
   * `login`: 403 with one message for an unknown email and another for a
   * wrong password; on a match the refresh cookie is set first, then the
   * answer is 200 with an access token for the user's id, or 500 (with the
   * cookie already set) when the access token cannot be signed.
   */
  function LoginOutcome(t: UserTable, db: Http.Database, env: Http.Env, nowMs: nat, email: string, password: string): (r: Answer)
    requires Invariant(t)
    ensures r.reply.Json? && r.reply.status in {200, 403, 500}
    ensures r.reply.status == 500 ==> r.reply.payload == Http.Message(ServerError)
    ensures db.Faulty? ==> r == Answer(Http.Json(500, Http.Message(ServerError)), None)
    ensures db.Healthy? && !Registered(t, email) ==> r == Answer(Http.Json(403, Http.Message(UnknownEmail)), None)
    ensures db.Healthy? && ByEmail(t, email).Some? && !ComparePassword(ByEmail(t, email).value.1, password) ==>
      r == Answer(Http.Json(403, Http.Message(WrongPassword)), None)
    ensures r.reply.status == 200 <==>
      db.Healthy? && ByEmail(t, email).Some? && ComparePassword(ByEmail(t, email).value.1, password) && env.jwtSecret.Some?
    ensures r.reply.status == 200 ==>
      var id := ByEmail(t, email).value.0;
      && r.reply.payload == Http.Grant(TokenManager.GenerateToken(env, id, nowMs).value.token, 900)
      && r.cookie == TokenManager.RefreshCookie(env, id, nowMs)
    ensures db.Healthy? && ByEmail(t, email).Some? && ComparePassword(ByEmail(t, email).value.1, password) && env.jwtSecret.None? ==>
      r == Answer(Http.Json(500, Http.Message(ServerError)), TokenManager.RefreshCookie(env, ByEmail(t, email).value.0, nowMs))
  {
    if db.Faulty? then Answer(Http.Json(500, Http.Message(ServerError)), None)
    else match ByEmail(t, email)
      case None => Answer(Http.Json(403, Http.Message(UnknownEmail)), None)
      case Some(found) =>
        if !ComparePassword(found.1, password) then Answer(Http.Json(403, Http.Message(WrongPassword)), None)
        else
          var cookie := TokenManager.RefreshCookie(env, found.0, nowMs);
          match TokenManager.GenerateToken(env, found.0, nowMs)
          case None => Answer(Http.Json(500, Http.Message(ServerError)), cookie)
          case Some(g) => Answer(Http.Json(200, Http.Grant(g.token, g.expiresIn)), cookie)
  }

  /**
   * `infoUser`: the caller's stored user without its password; a missing
   * user makes `delete user.password` throw, answered 500 like a database
   * error.
   */
  function InfoUserOutcome(t: UserTable, db: Http.Database, uid: Jwt.Uid): (r: Http.Reply)
    ensures r.Json? && (r.status == 200 <==> db.Healthy? && uid in t.users)
    ensures r.Json? && r.status == 200 ==> r.payload == Http.Profile(uid, t.users[uid].email)
    ensures r.Json? && r.status != 200 ==> r.status == 500 && r.payload.Thrown?
  {
    if db.Faulty? then Http.Json(500, Http.Thrown(Http.DatabaseFault(db.messageFormat)))
    else match ById(t, uid)
      case None => Http.Json(500, Http.Thrown(Http.NullRead))
      case Some(u) => Http.Json(200, Http.Profile(uid, u.email))
  }

  /**
   * `refreshToken`: a new access token for the uid the refresh guard set.
   * When signing fails the catch only logs, so no reply is sent at all.
   */
  function RefreshTokenOutcome(env: Http.Env, nowMs: nat, uid: Jwt.Uid): (r: Option<Http.Reply>)
    ensures r.Some? <==> env.jwtSecret.Some?
    ensures r.Some? ==> r.value.Json? && r.value.status == 200 && r.value.payload.Grant? && r.value.payload.expiresIn == 900
    ensures r.Some? ==> Jwt.Verify(env.jwtSecret, Some(r.value.payload.token), nowMs) == Success(uid)
  {
    match TokenManager.GenerateToken(env, uid, nowMs)
    case None => None
    case Some(g) =>
      TokenManager.AccessTokenRoundTrip(env, uid, nowMs, nowMs);
      Some(Http.Json(200, Http.Grant(g.token, g.expiresIn)))
  }

  /**
   * What `res.clearCookie('refreshToken')` sets: an empty value expiring at
   * `new Date(1)`, which the `Expires` attribute writes as the epoch itself.
   */
  const ClearedCookie: Http.Cookie := Http.Cookie("", false, 0)

  /** A user who registered can log in with the same password and any spelling of the email that normalises alike. */
  lemma RegisterThenLogin(t: UserTable, env: Http.Env, nowMs: nat, laterMs: nat, email: string, email2: string, password: string, salt: Bcrypt.Salt)
    requires Invariant(t) && env.jwtSecret.Some?
    requires RegisterOutcome(t, Http.Healthy, env, nowMs, email, password, Some(salt)).reply.status == 201
    requires NormalizeEmail(email2) == NormalizeEmail(email)
    ensures var t' := RegisterOutcome(t, Http.Healthy, env, nowMs, email, password, Some(salt)).users;
      && ByEmail(t', email2).Some? && ByEmail(t', email2).value.0 == t.nextId
      && LoginOutcome(t', Http.Healthy, env, laterMs, email2, password).reply.status == 200
  {
    var t' := RegisterOutcome(t, Http.Healthy, env, nowMs, email, password, Some(salt)).users;
    var key := NormalizeEmail(email);
    NormalizeEmailIdempotent(email);
    assert t'.users[t.nextId] == User(key, Bcrypt.Hash(password, salt));
    var found := ByEmail(t', email2).value;
    InvariantEmailsUnique(t', found.0, t.nextId);
    Bcrypt.CompareHash(password, password, salt);
  }

  /** Registering twice under emails that normalise alike: the second attempt is refused with code 11000 and changes nothing. */
  lemma RegisterTwiceRefused(t: UserTable, env: Http.Env, nowMs: nat, laterMs: nat, email: string, email2: string, password: string, password2: string, salt: Option<Bcrypt.Salt>, salt2: Option<Bcrypt.Salt>)
    requires Invariant(t)
    requires RegisterOutcome(t, Http.Healthy, env, nowMs, email, password, salt).users != t
    requires NormalizeEmail(email2) == NormalizeEmail(email)
    ensures var t' := RegisterOutcome(t, Http.Healthy, env, nowMs, email, password, salt).users;
      RegisterOutcome(t', Http.Healthy, env, laterMs, email2, password2, salt2)
        == Outcome(t', Http.Json(400, Http.Duplicate(DuplicateEmail, DuplicateKeyCode)), None)
  {
    var t' := RegisterOutcome(t, Http.Healthy, env, nowMs, email, password, salt).users;
    assert t'.users[t.nextId].email == NormalizeEmail(email2);
  }

  /** A wrong password never logs in, whatever the environment. */
  lemma WrongPasswordRefused(t: UserTable, db: Http.Database, env: Http.Env, nowMs: nat, email: string, plain: string, salt: Bcrypt.Salt, candidate: string)
    requires Invariant(t) && db.Healthy?
    requires ByEmail(t, email).Some? && ByEmail(t, email).value.1.password == Bcrypt.Hash(plain, salt)
    requires candidate != plain
    ensures LoginOutcome(t, db, env, nowMs, email, candidate) == Answer(Http.Json(403, Http.Message(WrongPassword)), None)
  {
    Bcrypt.CompareHash(candidate, plain, salt);
  }

  /** `register`: looks the email up, saves a new document, issues the tokens, and sends its reply. */
  method Register(users: UserStore, db: Http.Database, env: Http.Env, nowMs: nat, req: Http.Request, salt: Option<Bcrypt.Salt>, res: Http.Response)
    requires users.Valid() && res.reply.None?
    modifies users, res
    ensures users.Valid()
    ensures var o := RegisterOutcome(old(users.Table()), db, env, nowMs, req.body.email, req.body.password, salt);
      && users.Table() == o.users && res.reply == Some(o.reply)
      && res.cookies == if o.cookie.Some? then old(res.cookies)[TokenManager.RefreshCookieName := o.cookie.value] else old(res.cookies)
  {
    ghost var o := RegisterOutcome(users.Table(), db, env, nowMs, req.body.email, req.body.password, salt);
    if db.Faulty? {
      assert o == Outcome(users.Table(), Http.Json(500, Http.Message(ServerError)), None);
      res.Send(Http.Json(500, Http.Message(ServerError)));
      return;
    }
    var existing := users.FindByEmail(req.body.email);
    if existing.Some? {
      assert o == Outcome(users.Table(), Http.Json(400, Http.Duplicate(DuplicateEmail, DuplicateKeyCode)), None);
      res.Send(Http.Json(400, Http.Duplicate(DuplicateEmail, DuplicateKeyCode)));
      res.Send(Http.Json(500, Http.Message(ServerError)));
      return;
    }
    NormalizeEmailIdempotent(req.body.email);
    assert o == SaveOutcome(users.Table(), env, nowMs, NormalizeEmail(req.body.email), req.body.password, salt);
    SaveNew(users, env, nowMs, req, salt, res);
  }

  /** `register` once the email is known to be free: save a new document and issue the tokens. */
  method SaveNew(users: UserStore, env: Http.Env, nowMs: nat, req: Http.Request, salt: Option<Bcrypt.Salt>, res: Http.Response)
    requires users.Valid() && res.reply.None?
    modifies users, res
    ensures users.Valid()
    ensures var o := SaveOutcome(old(users.Table()), env, nowMs, NormalizeEmail(req.body.email), req.body.password, salt);
      && users.Table() == o.users && res.reply == Some(o.reply)
      && res.cookies == if o.cookie.Some? then old(res.cookies)[TokenManager.RefreshCookieName := o.cookie.value] else old(res.cookies)
  {
    ghost var t := users.Table();
    NormalizeEmailIdempotent(req.body.email);
    var doc := new UserDocument(req.body.email, req.body.password);
    var saved := users.Save(doc, salt);
    ghost var inserted := Insert(t, NormalizeEmail(req.body.email), req.body.password, salt);
    if saved.Failure? {
      res.Send(Http.Json(500, Http.Message(ServerError)));
      return;
    }
    assert saved.value == inserted.value.1 && users.Table() == inserted.value.0;
    IssueTokens(env, nowMs, saved.value, res);
  }

  /** The end of `register` once the user is saved: sign the access token, set the refresh cookie, answer 201. */
  method IssueTokens(env: Http.Env, nowMs: nat, id: Id, res: Http.Response)
    requires res.reply.None?
    modifies res
    ensures var g := TokenManager.GenerateToken(env, id, nowMs);
      && res.reply == Some(if g.Some? then Http.Json(201, Http.Grant(g.value.token, g.value.expiresIn)) else Http.Json(500, Http.Message(ServerError)))
      && res.cookies == if g.Some? && TokenManager.RefreshCookie(env, id, nowMs).Some?
                        then old(res.cookies)[TokenManager.RefreshCookieName := TokenManager.RefreshCookie(env, id, nowMs).value]
                        else old(res.cookies)
  {
    var grant := TokenManager.GenerateToken(env, id, nowMs);
    if grant.None? {
      res.Send(Http.Json(500, Http.Message(ServerError)));
      return;
    }
    TokenManager.GenerateRefreshToken(env, id, nowMs, res);
    res.Send(Http.Json(201, Http.Grant(grant.value.token, grant.value.expiresIn)));
  }

  /** `login`: looks the user up, compares the password, sets the refresh cookie, and sends its reply. */
  method Login(users: UserStore, db: Http.Database, env: Http.Env, nowMs: nat, req: Http.Request, res: Http.Response)
    requires users.Valid() && res.reply.None?
    modifies res
    ensures var a := LoginOutcome(users.Table(), db, env, nowMs, req.body.email, req.body.password);
      && res.reply == Some(a.reply)
      && res.cookies == if a.cookie.Some? then old(res.cookies)[TokenManager.RefreshCookieName := a.cookie.value] else old(res.cookies)
  {
    if db.Faulty? {
      res.Send(Http.Json(500, Http.Message(ServerError)));
      return;
    }
    var found := users.FindByEmail(req.body.email);
    if found.None? {
      res.Send(Http.Json(403, Http.Message(UnknownEmail)));
      return;
    }
    var (id, user) := found.value;
    if !ComparePassword(user, req.body.password) {
      res.Send(Http.Json(403, Http.Message(WrongPassword)));
      return;
    }
    TokenManager.GenerateRefreshToken(env, id, nowMs, res);
    var grant := TokenManager.GenerateToken(env, id, nowMs);
    if grant.None? {
      res.Send(Http.Json(500, Http.Message(ServerError)));
      return;
    }
    res.Send(Http.Json(200, Http.Grant(grant.value.token, grant.value.expiresIn)));
  }

  /** `infoUser`, sending its reply. */
  method InfoUser(users: UserStore, db: Http.Database, req: Http.Request, res: Http.Response)
    requires req.uid.Some? && res.reply.None?
    modifies res`reply
    ensures res.reply == Some(InfoUserOutcome(users.Table(), db, req.uid.value))
  {
    if db.Faulty? {
      res.Send(Http.Json(500, Http.Thrown(Http.DatabaseFault(db.messageFormat))));
      return;
    }
    var user := users.FindById(req.uid.value);
    if user.None? {
      res.Send(Http.Json(500, Http.Thrown(Http.NullRead)));
      return;
    }
    res.Send(Http.Json(200, Http.Profile(req.uid.value, user.value.email)));
  }

  /** `refreshToken`: replies with a new access token, or not at all; the cookies are left alone. */
  method RefreshToken(env: Http.Env, nowMs: nat, req: Http.Request, res: Http.Response)
    requires req.uid.Some? && res.reply.None?
    modifies res`reply
    ensures res.reply == RefreshTokenOutcome(env, nowMs, req.uid.value)
  {
    var grant := TokenManager.GenerateToken(env, req.uid.value, nowMs);
    if grant.Some? {
      res.Send(Http.Json(200, Http.Grant(grant.value.token, grant.value.expiresIn)));
    }
  }

  /** The cookies a response holds once `logout` has cleared the refresh cookie in `jar`. */
  function LoggedOut(jar: map<string, Http.Cookie>): (r: map<string, Http.Cookie>)
    ensures TokenManager.RefreshCookieName in r && r[TokenManager.RefreshCookieName] == ClearedCookie
    ensures forall name :: name != TokenManager.RefreshCookieName ==> (name in r <==> name in jar)
    ensures forall name :: name in jar && name != TokenManager.RefreshCookieName ==> r[name] == jar[name]
  {
    jar[TokenManager.RefreshCookieName := ClearedCookie]
  }

  /** `logout`: clears the refresh cookie and answers `{ ok: true }`, whatever the request. */
  method Logout(res: Http.Response)
    requires res.reply.None?
    modifies res
    ensures res.cookies == LoggedOut(old(res.cookies))
    ensures res.reply == Some(Http.Json(200, Http.Done))
  {
    res.SetCookie(TokenManager.RefreshCookieName, ClearedCookie);
    res.Send(Http.Json(200, Http.Done));
  }

  /**
   * After logout the browser holds no usable refresh token: whatever it held
   * before, at any later instant it sends either nothing or the empty value.
   */
  lemma LogoutClearsRefreshToken(jar: map<string, Http.Cookie>, nowMs: nat)
    ensures Http.Falsy(Http.CookieSent(LoggedOut(jar), TokenManager.RefreshCookieName, nowMs))
  {
  }

  /**
   * Logging out is idempotent: a second `Logout` on the cookies the first
   * left (the browser's jar, sent back with the next request) leaves them
   * as they are, so the refresh cookie stays cleared and every other cookie
   * is kept.
   */
  lemma LogoutIdempotent(jar: map<string, Http.Cookie>)
    ensures LoggedOut(LoggedOut(jar)) == LoggedOut(jar)
  {
  }
}
