/**
 * The router mounted at `/api/v1/links`: five routes, each an ordered
 * middleware chain ending in a link controller. A request is served by the
 * first route, in declaration order, whose method and path shape match.
 */
module LinkRoute {
  import opened Wrappers
  import Jwt
  import Http
  import opened LinkModel
  import LinkController
  import RequireToken
  import opened Chain

  datatype Handler = GetLinkHandler | GetLinksHandler | CreateLinkHandler | UpdateLinkHandler | DeleteLinkHandler

  /** A route: its method, whether its path is `/:param` rather than `/`, its guards and its handler. */
  datatype Route = Route(verb: Verb, hasParam: bool, guards: seq<Guard>, handler: Handler)

  /** The routes in declaration order; the authenticated `GET /:id` route is commented out and absent. */
  const Routes: seq<Route> := [
    Route(Get, true, [], GetLinkHandler),
    Route(Get, false, [TokenGuard], GetLinksHandler),
    Route(Post, false, [TokenGuard, LinkRules], CreateLinkHandler),
    Route(Patch, true, [TokenGuard, ParamRules, LinkRules], UpdateLinkHandler),
    Route(Delete, true, [TokenGuard, ParamRules], DeleteLinkHandler)]

  function FirstMatch(routes: seq<Route>, verb: Verb, hasParam: bool): (r: Option<Route>)
    ensures r.Some? ==> r.value in routes && r.value.verb == verb && r.value.hasParam == hasParam
    ensures r.Some? ==>
      (exists i :: 0 <= i < |routes| && routes[i] == r.value &&
         (forall j :: 0 <= j < i ==> !(routes[j].verb == verb && routes[j].hasParam == hasParam)))
    ensures r.None? ==> forall i :: 0 <= i < |routes| ==> !(routes[i].verb == verb && routes[i].hasParam == hasParam)
    decreases |routes|
  {
    if routes == [] then None
    else if routes[0].verb == verb && routes[0].hasParam == hasParam then Some(routes[0])
    else FirstMatch(routes[1..], verb, hasParam)
  }

  /** The route serving `verb` on `/` (an empty segment) or on `/segment`. */
  function Resolve(verb: Verb, segment: string): Option<Route> {
    FirstMatch(Routes, verb, segment != [])
  }

  /** Every route but the public alias lookup starts with `requireToken`, followed by validators only. */
  lemma ProtectedChains(r: Route)
    requires r in Routes && r.handler != GetLinkHandler
    ensures |r.guards| >= 1 && r.guards == [TokenGuard] + r.guards[1..]
    ensures forall i :: 0 <= i < |r.guards[1..]| ==> IsValidator(r.guards[1..][i])
  {
  }

  /** The request a controller acts on, given the uid the token guard set. */
  function ToOp(h: Handler, uid: Jwt.Uid, req: Http.Request, alias: string): LinkController.Op {
    match h
    case GetLinkHandler => LinkController.GetLinkOp(req.param)
    case GetLinksHandler => LinkController.GetLinksOp(uid)
    case CreateLinkHandler => LinkController.CreateLinkOp(uid, req.body.longLink, alias)
    case UpdateLinkHandler => LinkController.UpdateLinkOp(uid, req.param, req.body.longLink)
    case DeleteLinkHandler => LinkController.DeleteLinkOp(uid, req.param)
  }

  /**
   * Serving one request: the collection afterwards and the reply, if this
   * router answers (`None` when no route matches and the request goes on to
   * the next router). `alias` is what `nanoid(6)` returns if a link is created.
   */
  function ServeOutcome(t: LinkTable, ctx: Context, db: Http.Database, verb: Verb, segment: string, req: Http.Request, alias: string): (r: (LinkTable, Option<Http.Reply>))
    requires Invariant(t)
    ensures Invariant(r.0)
  {
    match Resolve(verb, segment)
    case None => (t, None)
    case Some(route) =>
      var req0 := req.(param := segment);
      match RunGuards(ctx, route.guards, req0)
      case Halt(reply) => (t, Some(reply))
      case Next(req') =>
        if route.handler == GetLinkHandler then (t, Some(LinkController.GetLinkOutcome(t, db, req'.param)))
        else
          ProtectedChains(route);
          TokenChainUid(ctx, route.guards[1..], req0);
          var o := LinkController.Apply(t, db, ToOp(route.handler, req'.uid.value, req', alias));
          (o.0, Some(o.1))
  }

  /** `GET /<segment>` is the public alias lookup, whatever the headers: no token is asked for. */
  lemma PublicLookup(t: LinkTable, ctx: Context, db: Http.Database, segment: string, req: Http.Request, alias: string)
    requires Invariant(t) && segment != []
    ensures ServeOutcome(t, ctx, db, Get, segment, req, alias) == (t, Some(LinkController.GetLinkOutcome(t, db, segment)))
  {
  }

  /** The token of a request, as `requireToken` would verify it. */
  function TokenUid(ctx: Context, req: Http.Request): Result<Jwt.Uid, Jwt.JwtError> {
    if Http.Falsy(req.authorization) then Failure(Jwt.NotProvided)
    else Jwt.Verify(ctx.env.jwtSecret, RequireToken.BearerToken(req.authorization.value), ctx.nowMs)
  }

  /**
   * Every other route checks the token first: without a valid access token
   * the answer is 401, whatever the body or parameter, and nothing changes.
   */
  lemma ProtectedNeedsToken(t: LinkTable, ctx: Context, db: Http.Database, verb: Verb, segment: string, req: Http.Request, alias: string)
    requires Invariant(t)
    requires Resolve(verb, segment).Some? && Resolve(verb, segment).value.handler != GetLinkHandler
    requires TokenUid(ctx, req).Failure?
    ensures ServeOutcome(t, ctx, db, verb, segment, req, alias).0 == t
    ensures ServeOutcome(t, ctx, db, verb, segment, req, alias).1 == Some(RequireToken.Guard(ctx.env, req.(param := segment), ctx.nowMs).reply)
    ensures ServeOutcome(t, ctx, db, verb, segment, req, alias).1.value.Json?
    ensures ServeOutcome(t, ctx, db, verb, segment, req, alias).1.value.status == 401
  {
    var route := Resolve(verb, segment).value;
    ProtectedChains(route);
    var req0 := req.(param := segment);
    RequireToken.GuardPassesIff(ctx.env, req0, ctx.nowMs);
    FirstRefusalAnswers(ctx, TokenGuard, route.guards[1..], req0);
  }

  /**
   * Only the owner changes the collection: whatever request reaches this
   * router, a link is changed or removed only if its owner is the user whose
   * access token the request carried, and owners and aliases never change.
   */
  lemma OnlyTokenHolderMutates(t: LinkTable, ctx: Context, db: Http.Database, verb: Verb, segment: string, req: Http.Request, alias: string)
    requires Invariant(t)
    ensures TokenUid(ctx, req).Success? ==> LinkController.Frame(t, ServeOutcome(t, ctx, db, verb, segment, req, alias).0, {TokenUid(ctx, req).value})
    ensures TokenUid(ctx, req).Failure? ==> ServeOutcome(t, ctx, db, verb, segment, req, alias).0 == t
  {
    var r := ServeOutcome(t, ctx, db, verb, segment, req, alias);
    if r.0 == t {
      if TokenUid(ctx, req).Success? {
        LinkController.FrameUnchanged(t, {TokenUid(ctx, req).value});
      }
    } else {
      var route := Resolve(verb, segment).value;
      var req0 := req.(param := segment);
      assert TokenUid(ctx, req0) == TokenUid(ctx, req);
      ProtectedHandlerFrame(t, ctx, db, route, req0, alias);
    }
  }

  /** A protected route whose chain let the request through acts for the token holder alone. */
  lemma ProtectedHandlerFrame(t: LinkTable, ctx: Context, db: Http.Database, route: Route, req: Http.Request, alias: string)
    requires Invariant(t) && route in Routes && route.handler != GetLinkHandler
    requires RunGuards(ctx, route.guards, req).Next?
    ensures TokenUid(ctx, req).Success?
    ensures var req' := RunGuards(ctx, route.guards, req).req;
      && req'.uid == Some(TokenUid(ctx, req).value)
      && LinkController.Frame(t, LinkController.Apply(t, db, ToOp(route.handler, req'.uid.value, req', alias)).0, {TokenUid(ctx, req).value})
  {
    ProtectedChains(route);
    TokenChainUid(ctx, route.guards[1..], req);
    var req' := RunGuards(ctx, route.guards, req).req;
    LinkController.ApplyFrame(t, db, ToOp(route.handler, req'.uid.value, req', alias));
  }

  /** Serving a request through the matching chain and controller, on the store and the response. */
  method Serve(store: LinkStore, ctx: Context, db: Http.Database, verb: Verb, segment: string, req: Http.Request, alias: string, res: Http.Response)
    requires store.Valid() && res.reply.None?
    modifies store, res`reply
    ensures store.Valid()
    ensures (store.Table(), res.reply) == ServeOutcome(old(store.Table()), ctx, db, verb, segment, req, alias)
  {
    var route := Resolve(verb, segment);
    if route.None? {
      return;
    }
    var req0 := req.(param := segment);
    var step := RunGuards(ctx, route.value.guards, req0);
    if step.Halt? {
      res.Send(step.reply);
      return;
    }
    if route.value.handler == GetLinkHandler {
      LinkController.GetLink(store, db, step.req, res);
      return;
    }
    ProtectedChains(route.value);
    TokenChainUid(ctx, route.value.guards[1..], req0);
    Dispatch(store, db, route.value.handler, step.req, alias, res);
  }

  /** Running a protected route's controller on the request its chain passed on. */
  method Dispatch(store: LinkStore, db: Http.Database, h: Handler, req: Http.Request, alias: string, res: Http.Response)
    requires store.Valid() && res.reply.None? && req.uid.Some? && h != GetLinkHandler
    modifies store, res`reply
    ensures store.Valid()
    ensures var o := LinkController.Apply(old(store.Table()), db, ToOp(h, req.uid.value, req, alias));
      store.Table() == o.0 && res.reply == Some(o.1)
  {
    ghost var t := store.Table();
    ghost var o := LinkController.Apply(t, db, ToOp(h, req.uid.value, req, alias));
    match h {
      case GetLinksHandler =>
        assert o == (t, LinkController.GetLinksOutcome(t, db, req.uid.value));
        LinkController.GetLinks(store, db, req, res);
      case CreateLinkHandler =>
        assert o == LinkController.CreateLinkOutcome(t, db, req.uid.value, req.body.longLink, alias);
        LinkController.CreateLink(store, db, req, alias, res);
      case UpdateLinkHandler =>
        assert o == LinkController.UpdateLinkOutcome(t, db, req.uid.value, req.param, req.body.longLink);
        LinkController.UpdateLink(store, db, req, res);
      case DeleteLinkHandler =>
        assert o == LinkController.DeleteLinkOutcome(t, db, req.uid.value, req.param);
        LinkController.DeleteLink(store, db, req, res);
    }
  }
}
