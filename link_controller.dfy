/**
 * The link controllers: list the caller's links, resolve an alias, create,
 * update and delete a link. Each is specified by an outcome function on the
 * collection value (new collection and reply), and implemented as a method
 * on the `LinkStore` that sends one reply; the methods are proved to follow
 * their outcome functions.
 */
module LinkController {
  import opened Wrappers
  import Text
  import Jwt
  import Http
  import opened LinkModel

  const NotFound: string := "No existe el documento"
  const NotFoundOld: string := "No existe el documento link con este ID."
  const NotOwner: string := "Este documento con este ID no es de este usuario."

  /**
   * The answer of a catch block that tests `error.messageFormat`: 404 when
   * the caught error has none, 500 with the error otherwise.
   */
  function CatchReply(fault: Http.Fault, messageFormat: bool): (r: Http.Reply)
    ensures r.Json? && (r.status == 404 <==> !messageFormat) && (r.status == 500 <==> messageFormat)
  {
    if messageFormat then Http.Json(500, Http.Thrown(fault)) else Http.Json(404, Http.Message(NotFound))
  }

  /** The reply when the first database call throws. */
  function DatabaseReply(db: Http.Database): Http.Reply
    requires db.Faulty?
  {
    CatchReply(Http.DatabaseFault(db.messageFormat), db.messageFormat)
  }

  /**
   * `Link.findById(req.params.id)`: the route parameter read as a document
   * id. A parameter that is not an id finds nothing (a failed cast of an
   * ObjectId is answered alike).
   */
  function FindParam(t: LinkTable, param: string): (r: Option<(Id, Link)>)
    ensures r.Some? ==> r.value.0 in t.links && t.links[r.value.0] == r.value.1
    ensures r.Some? <==> Text.ParseNat(param).Some? && Text.ParseNat(param).value in t.links
  {
    match Text.ParseNat(param)
    case None => None
    case Some(id) => if id in t.links then Some((id, t.links[id])) else None
  }

  /** `getLinks`: exactly the caller's links, or 500 with the database error. */
  function GetLinksOutcome(t: LinkTable, db: Http.Database, uid: Jwt.Uid): (r: Http.Reply)
    ensures db.Faulty? ==> r == Http.Json(500, Http.Thrown(Http.DatabaseFault(db.messageFormat)))
    ensures db.Healthy? ==> r.Json? && r.status == 200 && r.payload.Links?
    ensures db.Healthy? ==> forall id :: id in r.payload.links <==> id in t.links && t.links[id].uid == uid
    ensures db.Healthy? ==> forall id :: id in r.payload.links ==> r.payload.links[id] == t.links[id]
  {
    if db.Faulty? then Http.Json(500, Http.Thrown(Http.DatabaseFault(db.messageFormat)))
    else Http.Json(200, Http.Links(ByOwner(t, uid)))
  }

  /**
   * `getLink`: the target of the link with alias `nanoLink`; an absent alias
   * makes the handler read a property of `null`, which is answered 404.
   */
  function GetLinkOutcome(t: LinkTable, db: Http.Database, nanoLink: string): (r: Http.Reply)
    requires Invariant(t)
    ensures db.Faulty? ==> r == DatabaseReply(db)
    ensures db.Healthy? && ByAlias(t, nanoLink).Some? ==> r == Http.Json(200, Http.LongLink(ByAlias(t, nanoLink).value.1.longLink))
    ensures db.Healthy? ==> ((forall id :: id in t.links ==> t.links[id].nanoLink != Text.Trim(nanoLink)) <==> r == Http.Json(404, Http.Message(NotFound)))
  {
    if db.Faulty? then DatabaseReply(db)
    else match ByAlias(t, nanoLink)
      case Some(found) => Http.Json(200, Http.LongLink(found.1.longLink))
      case None => CatchReply(Http.NullRead, false)
  }

  /** `GET /%20abc123` finds the link stored under `abc123`: the query value is trimmed first. */
  lemma GetLinkIgnoresPadding(t: LinkTable, db: Http.Database, nanoLink: string, left: string, right: string)
    requires Invariant(t) && Text.AllSpace(left) && Text.AllSpace(right)
    ensures GetLinkOutcome(t, db, left + nanoLink + right) == GetLinkOutcome(t, db, nanoLink)
  {
    ByAliasIgnoresPadding(t, nanoLink, left, right);
  }

  /** `getLink_OLD`: 404 when absent, 401 when not the caller's, the link otherwise; any error is 500. */
  function GetLinkOldOutcome(t: LinkTable, db: Http.Database, uid: Jwt.Uid, param: string): (r: Http.Reply)
    ensures db.Faulty? ==> r == Http.Json(500, Http.Thrown(Http.DatabaseFault(db.messageFormat)))
    ensures db.Healthy? && FindParam(t, param).None? ==> r == Http.Json(404, Http.Message(NotFoundOld))
    ensures db.Healthy? && FindParam(t, param).Some? && FindParam(t, param).value.1.uid != uid ==>
      r == Http.Json(401, Http.Message(NotOwner))
    ensures r.Json? && r.status == 200 <==> db.Healthy? && FindParam(t, param).Some? && FindParam(t, param).value.1.uid == uid
    ensures r.Json? && r.status == 200 ==> r.payload == Http.OneLink(FindParam(t, param).value.0, FindParam(t, param).value.1)
  {
    if db.Faulty? then Http.Json(500, Http.Thrown(Http.DatabaseFault(db.messageFormat)))
    else match FindParam(t, param)
      case None => Http.Json(404, Http.Message(NotFoundOld))
      case Some(found) =>
        if found.1.uid != uid then Http.Json(401, Http.Message(NotOwner))
        else Http.Json(200, Http.OneLink(found.0, found.1))
  }

  /**
   * `createLink` with the alias `nanoid(6)` drew: one new link with the
   * trimmed body link, that alias and the caller as owner, answered 201; any
   * failure of `save` (an empty link, a taken alias, a database error) is
   * answered 500, nothing is retried and nothing is stored.
   */
  function CreateLinkOutcome(t: LinkTable, db: Http.Database, uid: Jwt.Uid, longLink: string, alias: string): (r: (LinkTable, Http.Reply))
    requires Invariant(t)
    ensures Invariant(r.0)
    ensures r.1.Json? && (r.1.status == 201 || r.1.status == 500)
    ensures r.1.status == 201 <==>
      db.Healthy? && Text.Trim(longLink) != [] && Text.Trim(alias) != [] && forall id :: id in t.links ==> t.links[id].nanoLink != Text.Trim(alias)
    ensures r.1.status == 201 ==>
      && r.1.payload.NewLink? && r.1.payload.id !in t.links
      && r.0.links == t.links[r.1.payload.id := Link(Text.Trim(longLink), Text.Trim(alias), uid)]
      && r.1.payload.link == Link(Text.Trim(longLink), Text.Trim(alias), uid)
    ensures r.1.status == 500 ==> r.0 == t
  {
    if db.Faulty? then (t, Http.Json(500, Http.Thrown(Http.DatabaseFault(db.messageFormat))))
    else match Cast(longLink, alias, uid)
      case Failure(e) => (t, Http.Json(500, Http.Thrown(Http.LinkSaveFault(e))))
      case Success(l) =>
        match Insert(t, l)
        case Failure(e) => (t, Http.Json(500, Http.Thrown(Http.LinkSaveFault(e))))
        case Success(saved) => (saved.0, Http.Json(201, Http.NewLink(saved.1, l)))
  }

  /** With a fresh nanoid alias, the stored link has exactly that alias. */
  lemma CreateLinkKeepsAlias(t: LinkTable, uid: Jwt.Uid, longLink: string, alias: string)
    requires Invariant(t) && IsAlias(alias)
    requires CreateLinkOutcome(t, Http.Healthy, uid, longLink, alias).1.status == 201
    ensures CreateLinkOutcome(t, Http.Healthy, uid, longLink, alias).1.payload.link.nanoLink == alias
  {
    AliasIsTrimmed(alias);
  }

  /**
   * `updateLink`: 404 when absent, 401 when not the caller's; otherwise the
   * link's target becomes the trimmed body link and only that changes (200).
   * An empty target fails validation, whose error has no `messageFormat`:
   * 404. Every answer other than 200 leaves the collection as it was.
   */
  function UpdateLinkOutcome(t: LinkTable, db: Http.Database, uid: Jwt.Uid, param: string, longLink: string): (r: (LinkTable, Http.Reply))
    requires Invariant(t)
    ensures Invariant(r.0)
    ensures r.1.Json? && r.1.status in {200, 401, 404, 500}
    ensures r.1.status != 200 ==> r.0 == t
    ensures db.Healthy? && FindParam(t, param).None? ==> r.1 == Http.Json(404, Http.Message(NotFound))
    ensures db.Healthy? && FindParam(t, param).Some? && FindParam(t, param).value.1.uid != uid ==>
      r.1 == Http.Json(401, Http.Message(NotOwner))
    ensures r.1.status == 200 <==>
      db.Healthy? && FindParam(t, param).Some? && FindParam(t, param).value.1.uid == uid && Text.Trim(longLink) != []
    ensures r.1.status == 200 ==>
      var id := FindParam(t, param).value.0;
      && r.0.links == t.links[id := t.links[id].(longLink := Text.Trim(longLink))]
      && r.1.payload == Http.OneLink(id, r.0.links[id])
  {
    if db.Faulty? then (t, DatabaseReply(db))
    else match FindParam(t, param)
      case None => (t, CatchReply(Http.NullRead, false))
      case Some(found) =>
        if found.1.uid != uid then (t, Http.Json(401, Http.Message(NotOwner)))
        else
          var target := Text.Trim(longLink);
          if target == [] then (t, CatchReply(Http.LinkSaveFault(Required("longLink")), false))
          else
            Text.TrimIdempotent(longLink);
            var t' := Replace(t, found.0, target);
            (t', Http.Json(200, Http.OneLink(found.0, t'.links[found.0])))
  }

  /**
   * `deleteLink`: 404 when absent, 401 when not the caller's; otherwise that
   * one link is removed and returned (200), and every other link stays.
   */
  function DeleteLinkOutcome(t: LinkTable, db: Http.Database, uid: Jwt.Uid, param: string): (r: (LinkTable, Http.Reply))
    requires Invariant(t)
    ensures Invariant(r.0)
    ensures r.1.Json? && r.1.status in {200, 401, 404, 500}
    ensures r.1.status != 200 ==> r.0 == t
    ensures db.Healthy? && FindParam(t, param).None? ==> r.1 == Http.Json(404, Http.Message(NotFound))
    ensures db.Healthy? && FindParam(t, param).Some? && FindParam(t, param).value.1.uid != uid ==>
      r.1 == Http.Json(401, Http.Message(NotOwner))
    ensures r.1.status == 200 <==> db.Healthy? && FindParam(t, param).Some? && FindParam(t, param).value.1.uid == uid
    ensures r.1.status == 200 ==>
      var found := FindParam(t, param).value;
      && r.0.links == t.links - {found.0}
      && r.1.payload == Http.OneLink(found.0, found.1)
  {
    if db.Faulty? then (t, DatabaseReply(db))
    else match FindParam(t, param)
      case None => (t, CatchReply(Http.NullRead, false))
      case Some(found) =>
        if found.1.uid != uid then (t, Http.Json(401, Http.Message(NotOwner)))
        else (Remove(t, found.0), Http.Json(200, Http.OneLink(found.0, found.1)))
  }

  /** The link requests, as the controllers receive them. */
  datatype Op =
    | GetLinksOp(uid: Jwt.Uid)
    | GetLinkOp(nanoLink: string)
    | GetLinkOldOp(uid: Jwt.Uid, param: string)
    | CreateLinkOp(uid: Jwt.Uid, longLink: string, alias: string)
    | UpdateLinkOp(uid: Jwt.Uid, param: string, longLink: string)
    | DeleteLinkOp(uid: Jwt.Uid, param: string)

  /** One request's effect on the collection and its reply. */
  function Apply(t: LinkTable, db: Http.Database, op: Op): (r: (LinkTable, Http.Reply))
    requires Invariant(t)
    ensures Invariant(r.0)
  {
    match op
    case GetLinksOp(uid) => (t, GetLinksOutcome(t, db, uid))
    case GetLinkOp(nanoLink) => (t, GetLinkOutcome(t, db, nanoLink))
    case GetLinkOldOp(uid, param) => (t, GetLinkOldOutcome(t, db, uid, param))
    case CreateLinkOp(uid, longLink, alias) => CreateLinkOutcome(t, db, uid, longLink, alias)
    case UpdateLinkOp(uid, param, longLink) => UpdateLinkOutcome(t, db, uid, param, longLink)
    case DeleteLinkOp(uid, param) => DeleteLinkOutcome(t, db, uid, param)
  }

  /** The collection after a sequence of requests, each with the database state it met. */
  function Run(t: LinkTable, ops: seq<(Http.Database, Op)>): (r: LinkTable)
    requires Invariant(t)
    ensures Invariant(r)
    decreases |ops|
  {
    if ops == [] then t else Run(Apply(t, ops[0].0, ops[0].1).0, ops[1..])
  }

  /** The users on whose behalf a request acts: none for alias resolution. */
  function Caller(op: Op): set<Jwt.Uid> {
    if op.GetLinkOp? then {} else {op.uid}
  }

  /** Everyone a sequence of requests acts for. */
  function Callers(ops: seq<(Http.Database, Op)>): set<Jwt.Uid>
    decreases |ops|
  {
    if ops == [] then {} else Caller(ops[0].1) + Callers(ops[1..])
  }

  /**
   * What requests acting for `callers` may do to a collection: ids only
   * grow, a link that stays keeps its alias and owner, a removed id never
   * comes back, and a link is changed or removed only if its owner is among
   * the callers.
   */
  ghost predicate Frame(t: LinkTable, t': LinkTable, callers: set<Jwt.Uid>) {
    && t'.nextId >= t.nextId
    && (forall id :: id in t.links && id in t'.links ==> t'.links[id].uid == t.links[id].uid && t'.links[id].nanoLink == t.links[id].nanoLink)
    && (forall id :: id in t'.links && id < t.nextId ==> id in t.links)
    && (forall id :: id in t.links && (id !in t'.links || t'.links[id] != t.links[id]) ==> t.links[id].uid in callers)
  }

  lemma FrameCompose(t1: LinkTable, t2: LinkTable, t3: LinkTable, c1: set<Jwt.Uid>, c2: set<Jwt.Uid>)
    requires Invariant(t1) && Frame(t1, t2, c1) && Frame(t2, t3, c2)
    ensures Frame(t1, t3, c1 + c2)
  {
    forall id | id in t1.links && id in t3.links
      ensures id in t2.links
    {
      assert id < t1.nextId <= t2.nextId;
    }
    forall id | id in t1.links && (id !in t3.links || t3.links[id] != t1.links[id])
      ensures t1.links[id].uid in c1 + c2
    {
      if id in t2.links && t2.links[id] == t1.links[id] {
        assert t2.links[id].uid in c2;
      }
    }
  }

  lemma FrameUnchanged(t: LinkTable, c: set<Jwt.Uid>)
    ensures Frame(t, t, c)
  {
  }

  lemma InsertFrame(t: LinkTable, l: Link)
    requires Invariant(t) && WellFormed(l) && Insert(t, l).Success?
    ensures Frame(t, Insert(t, l).value.0, {l.uid})
  {
    var t' := Insert(t, l).value.0;
    assert t'.links == t.links[t.nextId := l] && t'.nextId == t.nextId + 1;
    forall id | id in t.links
      ensures id in t'.links && t'.links[id] == t.links[id]
    {
      assert id < t.nextId;
    }
  }

  lemma ReplaceFrame(t: LinkTable, id: Id, longLink: string)
    requires Invariant(t) && id in t.links && StoredString(longLink)
    ensures Frame(t, Replace(t, id, longLink), {t.links[id].uid})
  {
    var r := Replace(t, id, longLink);
    assert r.nextId == t.nextId;
    forall k | k in t.links && (k !in r.links || r.links[k] != t.links[k])
      ensures t.links[k].uid in {t.links[id].uid}
    {
      assert k == id;
    }
  }

  lemma RemoveFrame(t: LinkTable, id: Id)
    requires Invariant(t) && id in t.links
    ensures Frame(t, Remove(t, id), {t.links[id].uid})
  {
  }

  lemma CreateFrame(t: LinkTable, db: Http.Database, uid: Jwt.Uid, longLink: string, alias: string)
    requires Invariant(t)
    ensures Frame(t, CreateLinkOutcome(t, db, uid, longLink, alias).0, {uid})
  {
    if db.Healthy? && Cast(longLink, alias, uid).Success? && Insert(t, Cast(longLink, alias, uid).value).Success? {
      InsertFrame(t, Cast(longLink, alias, uid).value);
    } else {
      FrameUnchanged(t, {uid});
    }
  }

  lemma UpdateFrame(t: LinkTable, db: Http.Database, uid: Jwt.Uid, param: string, longLink: string)
    requires Invariant(t)
    ensures Frame(t, UpdateLinkOutcome(t, db, uid, param, longLink).0, {uid})
  {
    var found := FindParam(t, param);
    if db.Healthy? && found.Some? && found.value.1.uid == uid && Text.Trim(longLink) != [] {
      Text.TrimIdempotent(longLink);
      ReplaceFrame(t, found.value.0, Text.Trim(longLink));
    } else {
      FrameUnchanged(t, {uid});
    }
  }

  lemma DeleteFrame(t: LinkTable, db: Http.Database, uid: Jwt.Uid, param: string)
    requires Invariant(t)
    ensures Frame(t, DeleteLinkOutcome(t, db, uid, param).0, {uid})
  {
    var found := FindParam(t, param);
    if db.Healthy? && found.Some? && found.value.1.uid == uid {
      RemoveFrame(t, found.value.0);
    } else {
      FrameUnchanged(t, {uid});
    }
  }

  /** Every request stays within the frame of the user it acts for. */
  lemma ApplyFrame(t: LinkTable, db: Http.Database, op: Op)
    requires Invariant(t)
    ensures Frame(t, Apply(t, db, op).0, Caller(op))
  {
    match op
    case CreateLinkOp(uid, longLink, alias) => CreateFrame(t, db, uid, longLink, alias);
    case UpdateLinkOp(uid, param, longLink) => UpdateFrame(t, db, uid, param, longLink);
    case DeleteLinkOp(uid, param) => DeleteFrame(t, db, uid, param);
    case _ =>
  }

  /**
   * Over any sequence of requests, a link present at the start and at the
   * end has kept its owner and its alias, and if it was changed or removed
   * along the way, its owner is one of the users the requests acted for.
   */
  lemma {:induction false} OwnersNeverChange(t: LinkTable, ops: seq<(Http.Database, Op)>)
    requires Invariant(t)
    ensures Frame(t, Run(t, ops), Callers(ops))
    decreases |ops|
  {
    if ops != [] {
      var t1 := Apply(t, ops[0].0, ops[0].1).0;
      ApplyFrame(t, ops[0].0, ops[0].1);
      OwnersNeverChange(t1, ops[1..]);
      FrameCompose(t, t1, Run(t1, ops[1..]), Caller(ops[0].1), Callers(ops[1..]));
    }
  }

  /** Requests none of which acts for a link's owner leave that link as it was. */
  lemma OthersCannotTouch(t: LinkTable, ops: seq<(Http.Database, Op)>, id: Id)
    requires Invariant(t) && id in t.links
    requires t.links[id].uid !in Callers(ops)
    ensures id in Run(t, ops).links && Run(t, ops).links[id] == t.links[id]
  {
    OwnersNeverChange(t, ops);
  }

  /** `getLinks`, sending its reply. */
  method GetLinks(store: LinkStore, db: Http.Database, req: Http.Request, res: Http.Response)
    requires req.uid.Some? && res.reply.None?
    modifies res`reply
    ensures res.reply == Some(GetLinksOutcome(store.Table(), db, req.uid.value))
  {
    if db.Faulty? {
      res.Send(Http.Json(500, Http.Thrown(Http.DatabaseFault(db.messageFormat))));
      return;
    }
    var links := store.Find(req.uid.value);
    res.Send(Http.Json(200, Http.Links(links)));
  }

  /** `getLink`, sending its reply. */
  method GetLink(store: LinkStore, db: Http.Database, req: Http.Request, res: Http.Response)
    requires store.Valid() && res.reply.None?
    modifies res`reply
    ensures res.reply == Some(GetLinkOutcome(store.Table(), db, req.param))
  {
    if db.Faulty? {
      res.Send(DatabaseReply(db));
      return;
    }
    var link := store.FindByAlias(req.param);
    if link.None? {
      res.Send(CatchReply(Http.NullRead, false));
      return;
    }
    res.Send(Http.Json(200, Http.LongLink(link.value.1.longLink)));
  }

  /** Looks the route parameter up as a document id. */
  method FindByParam(store: LinkStore, param: string) returns (r: Option<(Id, Link)>)
    ensures r == FindParam(store.Table(), param)
  {
    var id := Text.ParseNat(param);
    if id.None? {
      return None;
    }
    var link := store.FindById(id.value);
    r := if link.Some? then Some((id.value, link.value)) else None;
  }

  /** `getLink_OLD`, sending its reply. */
  method GetLinkOld(store: LinkStore, db: Http.Database, req: Http.Request, res: Http.Response)
    requires req.uid.Some? && res.reply.None?
    modifies res`reply
    ensures res.reply == Some(GetLinkOldOutcome(store.Table(), db, req.uid.value, req.param))
  {
    if db.Faulty? {
      res.Send(Http.Json(500, Http.Thrown(Http.DatabaseFault(db.messageFormat))));
      return;
    }
    var found := FindByParam(store, req.param);
    if found.None? {
      res.Send(Http.Json(404, Http.Message(NotFoundOld)));
      return;
    }
    if found.value.1.uid != req.uid.value {
      res.Send(Http.Json(401, Http.Message(NotOwner)));
      return;
    }
    res.Send(Http.Json(200, Http.OneLink(found.value.0, found.value.1)));
  }

  /** `createLink` with the alias `nanoid(6)` drew, saving at most one link and sending its reply. */
  method CreateLink(store: LinkStore, db: Http.Database, req: Http.Request, alias: string, res: Http.Response)
    requires store.Valid() && req.uid.Some? && res.reply.None?
    modifies store, res`reply
    ensures store.Valid()
    ensures var o := CreateLinkOutcome(old(store.Table()), db, req.uid.value, req.body.longLink, alias);
      store.Table() == o.0 && res.reply == Some(o.1)
  {
    if db.Faulty? {
      res.Send(Http.Json(500, Http.Thrown(Http.DatabaseFault(db.messageFormat))));
      return;
    }
    var link := Cast(req.body.longLink, alias, req.uid.value);
    if link.Failure? {
      res.Send(Http.Json(500, Http.Thrown(Http.LinkSaveFault(link.error))));
      return;
    }
    var saved := store.Save(link.value);
    if saved.Failure? {
      res.Send(Http.Json(500, Http.Thrown(Http.LinkSaveFault(saved.error))));
      return;
    }
    res.Send(Http.Json(201, Http.NewLink(saved.value, link.value)));
  }

  /** `updateLink`: the ownership check comes before the only write. */
  method UpdateLink(store: LinkStore, db: Http.Database, req: Http.Request, res: Http.Response)
    requires store.Valid() && req.uid.Some? && res.reply.None?
    modifies store, res`reply
    ensures store.Valid()
    ensures var o := UpdateLinkOutcome(old(store.Table()), db, req.uid.value, req.param, req.body.longLink);
      store.Table() == o.0 && res.reply == Some(o.1)
  {
    if db.Faulty? {
      res.Send(DatabaseReply(db));
      return;
    }
    var found := FindByParam(store, req.param);
    if found.None? {
      res.Send(CatchReply(Http.NullRead, false));
      return;
    }
    var (id, link) := found.value;
    if link.uid != req.uid.value {
      res.Send(Http.Json(401, Http.Message(NotOwner)));
      return;
    }
    var target := Text.Trim(req.body.longLink);
    if target == [] {
      res.Send(CatchReply(Http.LinkSaveFault(Required("longLink")), false));
      return;
    }
    Text.TrimIdempotent(req.body.longLink);
    store.SaveLongLink(id, target);
    res.Send(Http.Json(200, Http.OneLink(id, link.(longLink := target))));
  }

  /** `deleteLink`: the ownership check comes before the only write. */
  method DeleteLink(store: LinkStore, db: Http.Database, req: Http.Request, res: Http.Response)
    requires store.Valid() && req.uid.Some? && res.reply.None?
    modifies store, res`reply
    ensures store.Valid()
    ensures var o := DeleteLinkOutcome(old(store.Table()), db, req.uid.value, req.param);
      store.Table() == o.0 && res.reply == Some(o.1)
  {
    if db.Faulty? {
      res.Send(DatabaseReply(db));
      return;
    }
    var found := FindByParam(store, req.param);
    if found.None? {
      res.Send(CatchReply(Http.NullRead, false));
      return;
    }
    var (id, link) := found.value;
    if link.uid != req.uid.value {
      res.Send(Http.Json(401, Http.Message(NotOwner)));
      return;
    }
    store.RemoveById(id);
    res.Send(Http.Json(200, Http.OneLink(id, link)));
  }
}
