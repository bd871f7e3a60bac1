/**
 * A route's middleware chain: an ordered list of guards, each of which
 * either answers the request or passes it on, possibly rewritten. The
 * handler at the end of a route runs only if every guard before it passed.
 */
module Chain {
  import opened Wrappers
  import Jwt
  import Http
  import RequireToken
  import RequireRefreshToken
  import ValidatorManager

  /** The HTTP methods the routers answer. */
  datatype Verb = Get | Post | Patch | Delete

  /** The middlewares the route files put in front of a handler. */
  datatype Guard =
    | TokenGuard      // requireToken
    | RefreshGuard    // requireRefreshToken
    | RegisterRules   // bodyRegisterValidator
    | LoginRules      // bodyLoginValidator
    | LinkRules       // bodyLinkValidator
    | ParamRules      // paramLinkValidator

  /** What the middlewares read besides the request: secrets, library answers, the clock. */
  datatype Context = Context(env: Http.Env, oracles: Http.Oracles, nowMs: nat)

  function ApplyGuard(ctx: Context, g: Guard, req: Http.Request): Http.Step {
    match g
    case TokenGuard => RequireToken.Guard(ctx.env, req, ctx.nowMs)
    case RefreshGuard => RequireRefreshToken.Guard(ctx.env, req, ctx.nowMs)
    case RegisterRules => ValidatorManager.BodyRegister(ctx.oracles, req)
    case LoginRules => ValidatorManager.BodyLogin(ctx.oracles, req)
    case LinkRules => ValidatorManager.BodyLink(ctx.oracles, req)
    case ParamRules => ValidatorManager.ParamLink(req)
  }

  /** A validator chain, as opposed to a token check. */
  predicate IsValidator(g: Guard) {
    g != TokenGuard && g != RefreshGuard
  }

  /** A chain of one middleware is that middleware. */
  lemma SingleGuard(ctx: Context, g: Guard, req: Http.Request)
    ensures RunGuards(ctx, [g], req) == ApplyGuard(ctx, g, req)
  {
    assert [g][1..] == [];
  }

  /** Validators leave the caller's identity alone. */
  lemma ValidatorKeepsUid(ctx: Context, g: Guard, req: Http.Request)
    requires IsValidator(g) && ApplyGuard(ctx, g, req).Next?
    ensures ApplyGuard(ctx, g, req).req.uid == req.uid
  {
  }

  /** Running a chain: the first guard that answers ends it; otherwise the rewritten request comes out. */
  function RunGuards(ctx: Context, gs: seq<Guard>, req: Http.Request): (r: Http.Step)
    decreases |gs|
  {
    if gs == [] then Http.Next(req)
    else match ApplyGuard(ctx, gs[0], req)
      case Halt(reply) => Http.Halt(reply)
      case Next(req') => RunGuards(ctx, gs[1..], req')
  }

  /** Chains compose: running `a + b` is running `a`, then `b` on what `a` passed on. */
  lemma {:induction false} RunGuardsAppend(ctx: Context, a: seq<Guard>, b: seq<Guard>, req: Http.Request)
    ensures RunGuards(ctx, a + b, req) ==
      match RunGuards(ctx, a, req)
      case Halt(reply) => Http.Halt(reply)
      case Next(req') => RunGuards(ctx, b, req')
    decreases |a|
  {
    if a == [] {
      assert a + b == b;
    } else {
      assert (a + b)[0] == a[0] && (a + b)[1..] == a[1..] + b;
      match ApplyGuard(ctx, a[0], req)
      case Halt(_) =>
      case Next(req') => RunGuardsAppend(ctx, a[1..], b, req');
    }
  }

  /** A chain of validators only passes requests on with the caller's identity unchanged. */
  lemma {:induction false} ValidatorsKeepUid(ctx: Context, gs: seq<Guard>, req: Http.Request)
    requires forall i :: 0 <= i < |gs| ==> IsValidator(gs[i])
    requires RunGuards(ctx, gs, req).Next?
    ensures RunGuards(ctx, gs, req).req.uid == req.uid
    decreases |gs|
  {
    if gs != [] {
      ValidatorKeepsUid(ctx, gs[0], req);
      ValidatorsKeepUid(ctx, gs[1..], ApplyGuard(ctx, gs[0], req).req);
    }
  }

  /**
   * A chain that starts with `requireToken` and continues with validators
   * hands on a request only if its header held a token that verifies under
   * `JWT_SECRET`, and the handler then sees that token's uid.
   */
  lemma TokenChainUid(ctx: Context, rest: seq<Guard>, req: Http.Request)
    requires forall i :: 0 <= i < |rest| ==> IsValidator(rest[i])
    requires RunGuards(ctx, [TokenGuard] + rest, req).Next?
    ensures !Http.Falsy(req.authorization)
    ensures Jwt.Verify(ctx.env.jwtSecret, RequireToken.BearerToken(req.authorization.value), ctx.nowMs).Success?
    ensures RunGuards(ctx, [TokenGuard] + rest, req).req.uid ==
      Some(Jwt.Verify(ctx.env.jwtSecret, RequireToken.BearerToken(req.authorization.value), ctx.nowMs).value)
  {
    RunGuardsAppend(ctx, [TokenGuard], rest, req);
    assert RunGuards(ctx, [TokenGuard], req) == ApplyGuard(ctx, TokenGuard, req) by {
      assert [TokenGuard][1..] == [];
    }
    RequireToken.GuardPassesIff(ctx.env, req, ctx.nowMs);
    ValidatorsKeepUid(ctx, rest, ApplyGuard(ctx, TokenGuard, req).req);
  }

  /** When the first guard answers, the rest of the chain and the handler never run. */
  lemma FirstRefusalAnswers(ctx: Context, g: Guard, rest: seq<Guard>, req: Http.Request)
    requires ApplyGuard(ctx, g, req).Halt?
    ensures RunGuards(ctx, [g] + rest, req) == ApplyGuard(ctx, g, req)
  {
    assert ([g] + rest)[0] == g;
  }
}
