/**
 * Server-side redirection: the alias in the path is looked up and the
 * client is sent to the link's target. The handler only reads the
 * collection; its method sends the reply `RedirectLinkOutcome` describes.
 */
module RedirectController {
  import opened Wrappers
  import Text
  import Jwt
  import Http
  import opened LinkModel
  import LinkController

  /**
   * `redirectLink`: a redirect to the target of the link with alias
   * `nanoLink`; an absent alias makes the handler read a property of `null`,
   * answered 404; a database error with a `messageFormat` is answered 500.
   */
  function RedirectLinkOutcome(t: LinkTable, db: Http.Database, nanoLink: string): (r: Http.Reply)
    requires Invariant(t)
    ensures db.Faulty? ==> r == LinkController.DatabaseReply(db)
    ensures db.Healthy? && ByAlias(t, nanoLink).Some? ==> r == Http.Redirect(ByAlias(t, nanoLink).value.1.longLink)
    ensures r.Redirect? <==> db.Healthy? && exists id :: id in t.links && t.links[id].nanoLink == Text.Trim(nanoLink)
    ensures db.Healthy? && r.Json? ==> r == Http.Json(404, Http.Message(LinkController.NotFound))
  {
    if db.Faulty? then LinkController.DatabaseReply(db)
    else match ByAlias(t, nanoLink)
      case Some(found) => Http.Redirect(found.1.longLink)
      case None => LinkController.CatchReply(Http.NullRead, false)
  }

  /** `redirectLink`, sending its reply. */
  method RedirectLink(store: LinkStore, db: Http.Database, req: Http.Request, res: Http.Response)
    requires store.Valid() && res.reply.None?
    modifies res`reply
    ensures res.reply == Some(RedirectLinkOutcome(store.Table(), db, req.param))
  {
    if db.Faulty? {
      res.Send(LinkController.DatabaseReply(db));
      return;
    }
    var link := store.FindByAlias(req.param);
    if link.None? {
      res.Send(LinkController.CatchReply(Http.NullRead, false));
      return;
    }
    res.Send(Http.Redirect(link.value.1.longLink));
  }

  /**
   * Server-side and client-side redirection agree: the redirect goes exactly
   * where `getLink` says, and both fail with the same answer.
   */
  lemma AgreesWithGetLink(t: LinkTable, db: Http.Database, nanoLink: string)
    requires Invariant(t)
    ensures RedirectLinkOutcome(t, db, nanoLink).Redirect? <==> LinkController.GetLinkOutcome(t, db, nanoLink).status == 200
    ensures RedirectLinkOutcome(t, db, nanoLink).Redirect? ==>
      LinkController.GetLinkOutcome(t, db, nanoLink).payload == Http.LongLink(RedirectLinkOutcome(t, db, nanoLink).location)
    ensures RedirectLinkOutcome(t, db, nanoLink).Json? ==> RedirectLinkOutcome(t, db, nanoLink) == LinkController.GetLinkOutcome(t, db, nanoLink)
  {
  }

  /** A link just created under a fresh alias redirects to its trimmed target. */
  lemma CreateThenRedirect(t: LinkTable, uid: Jwt.Uid, longLink: string, alias: string)
    requires Invariant(t) && IsAlias(alias)
    requires LinkController.CreateLinkOutcome(t, Http.Healthy, uid, longLink, alias).1.status == 201
    ensures RedirectLinkOutcome(LinkController.CreateLinkOutcome(t, Http.Healthy, uid, longLink, alias).0, Http.Healthy, alias)
         == Http.Redirect(Text.Trim(longLink))
  {
    var r := LinkController.CreateLinkOutcome(t, Http.Healthy, uid, longLink, alias);
    AliasIsTrimmed(alias);
    var id := r.1.payload.id;
    assert r.0.links[id].nanoLink == alias;
    InvariantAliasesUnique(r.0);
    var found := ByAlias(r.0, alias).value;
    assert found.0 == id;
  }
}
