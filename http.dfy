/**
 * The request and response shapes the middlewares and controllers exchange,
 * and the environment they run in: the two signing secrets, the state of the
 * database connection and the library calls the validators delegate to.
 */
module Http {
  import opened Wrappers
  import Jwt
  import LinkModel
  import UserModel

  /** `process.env.JWT_SECRET` and `process.env.JWT_REFRESH`; `None` when unset. */
  datatype Env = Env(jwtSecret: Option<Jwt.Key>, jwtRefresh: Option<Jwt.Key>)

  /**
   * The database as the controllers see it: either every query answers, or
   * the first query made throws an error, with or without a `messageFormat`
   * field.
   */
  datatype Database = Healthy | Faulty(messageFormat: bool)

  /**
   * Library and network code the validators call: validator.js's `isEmail`
   * and `normalizeEmail`, and whether an `axios.get` of the link succeeds.
   */
  datatype Oracles = Oracles(isEmail: string -> bool, normalizeEmail: string -> string, reachable: string -> bool)

  /** A cookie as `res.cookie(name, value, options)` sets it. */
  datatype Cookie = Cookie(value: string, httpOnly: bool, expiresMs: nat)

  /** One entry of express-validator's `errors.array()`. */
  datatype FieldError = FieldError(value: string, msg: string, param: string, location: string)

  /** An error object a catch block sends back as `{ error }`. */
  datatype Fault =
    | JwtFault(jwtError: Jwt.JwtError)         // thrown by jsonwebtoken
    | PlainError(message: string)               // `new Error(message)`
    | DatabaseFault(messageFormat: bool)        // thrown by the database driver
    | NullRead                                  // TypeError: reading a property of `null`
    | LinkSaveFault(saveError: LinkModel.SaveError)// rejected by `link.save()`

  /** Response bodies, by the JSON object each handler builds. */
  datatype Payload =
    | Links(links: map<LinkModel.Id, LinkModel.Link>)         // { links }
    | LongLink(longLink: string)                               // { longLink }
    | OneLink(id: LinkModel.Id, link: LinkModel.Link)          // { link }
    | NewLink(id: LinkModel.Id, link: LinkModel.Link)          // { newLink }
    | Grant(token: string, expiresIn: nat)                     // { token, expiresIn }
    | Profile(id: UserModel.Id, email: string)                 // a lean user without its password
    | Done                                                     // { ok: true }
    | Message(error: string)                                   // { error: "..." }
    | Duplicate(error: string, errorCode: nat)                 // { error, error_code }
    | Invalid(errors: seq<FieldError>)                         // { errors }
    | Thrown(fault: Fault)                                     // { error } with a caught error object

  /** What is sent back: a JSON body with a status, or `res.redirect(location)` (302). */
  datatype Reply = Json(status: nat, payload: Payload) | Redirect(location: string)

  /**
   * The request body fields the handlers read. An absent string field is the
   * empty string, as express-validator's sanitizers see it; `repassword` is
   * read raw by a custom check, so its absence (`undefined`) is `None`.
   */
  datatype Body = Body(email: string, password: string, repassword: Option<string>, longLink: string)

  /**
   * A request: its `Authorization` header, its `refreshToken` cookie, its route
   * parameter (`:id` or `:nanoLink`), its body, and the `uid` a token guard adds.
   */
  datatype Request = Request(
    authorization: Option<string>,
    refreshCookie: Option<string>,
    param: string,
    body: Body,
    uid: Option<Jwt.Uid>)

  /** What a middleware does with a request: pass it on with `next()`, or answer it. */
  datatype Step = Next(req: Request) | Halt(reply: Reply)

  /**
   * The value of cookie `name` that a browser holding `jar` attaches to a
   * request at `nowMs`: none once the cookie has expired.
   */
  function CookieSent(jar: map<string, Cookie>, name: string, nowMs: nat): (r: Option<string>)
    ensures r.Some? <==> name in jar && nowMs < jar[name].expiresMs
  {
    if name in jar && nowMs < jar[name].expiresMs then Some(jar[name].value) else None
  }

  /** `!value` for a string: JavaScript treats a missing and an empty string alike. */
  predicate Falsy(s: Option<string>) {
    s.None? || s.value == []
  }

  /** Express's response object: the first reply sent sticks, cookies accumulate. */
  class Response {
    var reply: Option<Reply>
    var cookies: map<string, Cookie>

    constructor ()
      ensures reply == None && cookies == map[]
    {
      reply := None;
      cookies := map[];
    }

    /** `res.status(s).json(p)` or `res.redirect(l)`; once headers are sent a later reply is dropped. */
    method Send(r: Reply)
      modifies this`reply
      ensures reply == if old(reply).None? then Some(r) else old(reply)
    {
      if reply.None? {
        reply := Some(r);
      }
    }

    /** `res.cookie(name, value, options)`. */
    method SetCookie(name: string, c: Cookie)
      modifies this`cookies
      ensures cookies == old(cookies)[name := c]
    {
      cookies := cookies[name := c];
    }
  }
}
