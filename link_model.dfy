/**
 * The links collection: the `Link` schema (three required paths, the two
 * strings trimmed, `nanoLink` under a unique index) and the collection as a
 * store keyed by `_id` together with that unique index.
 */
module LinkModel {
  import opened Wrappers
  import Text

  /** A document `_id` (the model's stand-in for a MongoDB ObjectId). */
  type Id = nat

  /** A link document: exactly the schema's `longLink`, `nanoLink` and owner `uid`. */
  datatype Link = Link(longLink: string, nanoLink: string, uid: Id)

  /** Why Mongoose refuses to save a link document. */
  datatype SaveError =
    | Required(path: string)  // a required path is empty
    | DuplicateKey            // E11000 on the unique `nanoLink` index

  /** A stored string path: non-empty, with no whitespace left at either end. */
  predicate StoredString(s: string) {
    s != [] && !Text.IsSpace(s[0]) && !Text.IsSpace(s[|s| - 1])
  }

  /** A stored string is exactly a non-empty string the `trim` setter leaves as it is. */
  lemma StoredStringIsTrimmed(s: string)
    ensures StoredString(s) <==> s != [] && Text.Trim(s) == s
  {
    if StoredString(s) {
      assert Text.TrimStart(s) == s;
      assert Text.TrimEnd(s) == s;
    }
  }

  /** What the schema lets into the collection. */
  predicate WellFormed(l: Link) {
    StoredString(l.longLink) && StoredString(l.nanoLink)
  }

  /**
   * Building and validating a document: the `trim` setters run on the two
   * strings, then the `required` validators reject an empty one.
   */
  function Cast(longLink: string, nanoLink: string, uid: Id): (r: Result<Link, SaveError>)
    ensures r.Success? <==> Text.Trim(longLink) != [] && Text.Trim(nanoLink) != []
    ensures r.Success? ==> WellFormed(r.value) && r.value.uid == uid
    ensures r.Success? ==> r.value.longLink == Text.Trim(longLink) && r.value.nanoLink == Text.Trim(nanoLink)
  {
    Text.TrimIdempotent(longLink);
    Text.TrimIdempotent(nanoLink);
    if Text.Trim(longLink) == [] then Failure(Required("longLink"))
    else if Text.Trim(nanoLink) == [] then Failure(Required("nanoLink"))
    else Success(Link(Text.Trim(longLink), Text.Trim(nanoLink), uid))
  }

  /** A character of nanoid's URL-safe alphabet `A-Za-z0-9_-`. */
  predicate IsAliasChar(c: char) {
    ('A' <= c <= 'Z') || ('a' <= c <= 'z') || ('0' <= c <= '9') || c == '_' || c == '-'
  }

  /** What `nanoid(6)` can return: six characters of its alphabet. */
  predicate IsAlias(s: string) {
    |s| == 6 && forall i :: 0 <= i < |s| ==> IsAliasChar(s[i])
  }

  /** The `trim` setter leaves a nanoid alias as it is. */
  lemma AliasIsTrimmed(a: string)
    requires IsAlias(a)
    ensures Text.Trim(a) == a && a != []
  {
    assert !Text.IsSpace(a[0]) && !Text.IsSpace(a[|a| - 1]);
    assert Text.TrimStart(a) == a;
    assert Text.TrimEnd(a) == a;
  }

  /**
   * The collection: documents by `_id`, the unique index from `nanoLink` to
   * `_id`, and the next fresh `_id`.
   */
  datatype LinkTable = LinkTable(links: map<Id, Link>, byAlias: map<string, Id>, nextId: Id)

  /** The collection invariant: the index is exactly the inverse of `nanoLink`, ids are below `nextId`. */
  ghost predicate Invariant(t: LinkTable) {
    && (forall id :: id in t.links ==> id < t.nextId && WellFormed(t.links[id]))
    && (forall id :: id in t.links ==> t.links[id].nanoLink in t.byAlias && t.byAlias[t.links[id].nanoLink] == id)
    && (forall a :: a in t.byAlias ==> t.byAlias[a] in t.links && t.links[t.byAlias[a]].nanoLink == a)
  }

  /** No two stored links share an alias. */
  ghost predicate AliasesUnique(links: map<Id, Link>) {
    forall i, j :: i in links && j in links && links[i].nanoLink == links[j].nanoLink ==> i == j
  }

  /** The unique index makes aliases unique across the collection. */
  lemma InvariantAliasesUnique(t: LinkTable)
    requires Invariant(t)
    ensures AliasesUnique(t.links)
  {
    forall i, j | i in t.links && j in t.links && t.links[i].nanoLink == t.links[j].nanoLink
      ensures i == j
    {
      assert t.byAlias[t.links[i].nanoLink] == i;
    }
  }

  const Empty: LinkTable := LinkTable(map[], map[], 0)

  lemma EmptyInvariant()
    ensures Invariant(Empty)
  {
  }

  /** `Link.findById(id)`. */
  function ById(t: LinkTable, id: Id): Option<Link> {
    if id in t.links then Some(t.links[id]) else None
  }

  /**
   * `Link.findOne({ nanoLink })`: the one document with that alias, if any.
   * Mongoose casts a query value through the path's setters, so the `trim`
   * setter of `nanoLink` runs on `alias` before the lookup.
   */
  function ByAlias(t: LinkTable, alias: string): (r: Option<(Id, Link)>)
    requires Invariant(t)
    ensures r.Some? <==> exists id :: id in t.links && t.links[id].nanoLink == Text.Trim(alias)
    ensures r.Some? ==> r.value.0 in t.links && t.links[r.value.0] == r.value.1 && r.value.1.nanoLink == Text.Trim(alias)
  {
    var key := Text.Trim(alias);
    if key in t.byAlias then Some((t.byAlias[key], t.links[t.byAlias[key]])) else None
  }

  /** Surrounding whitespace in the queried alias makes no difference to the lookup. */
  lemma ByAliasIgnoresPadding(t: LinkTable, alias: string, left: string, right: string)
    requires Invariant(t) && Text.AllSpace(left) && Text.AllSpace(right)
    ensures ByAlias(t, left + alias + right) == ByAlias(t, alias)
  {
    Text.TrimPadded(alias, left, right);
  }

  /** `Link.find({ uid })`: exactly the links owned by `uid`. */
  function ByOwner(t: LinkTable, uid: Id): (r: map<Id, Link>)
    ensures forall id :: id in r <==> id in t.links && t.links[id].uid == uid
    ensures forall id :: id in r ==> r[id] == t.links[id]
  {
    map id | id in t.links && t.links[id].uid == uid :: t.links[id]
  }

  /** Saving a new document: refused on a duplicate alias, otherwise stored under a fresh id. */
  function Insert(t: LinkTable, l: Link): (r: Result<(LinkTable, Id), SaveError>)
    requires Invariant(t) && WellFormed(l)
    ensures r.Failure? <==> exists id :: id in t.links && t.links[id].nanoLink == l.nanoLink
    ensures r.Failure? ==> r.error == DuplicateKey
    ensures r.Success? ==> Invariant(r.value.0) && r.value.1 !in t.links
    ensures r.Success? ==> r.value.0.links == t.links[r.value.1 := l]
  {
    if l.nanoLink in t.byAlias then Failure(DuplicateKey)
    else Success((LinkTable(t.links[t.nextId := l], t.byAlias[l.nanoLink := t.nextId], t.nextId + 1), t.nextId))
  }

  /** Saving a stored document whose `longLink` was reassigned; alias and owner stay. */
  function Replace(t: LinkTable, id: Id, longLink: string): (r: LinkTable)
    requires Invariant(t) && id in t.links && StoredString(longLink)
    ensures Invariant(r)
    ensures r.links == t.links[id := t.links[id].(longLink := longLink)]
  {
    LinkTable(t.links[id := t.links[id].(longLink := longLink)], t.byAlias, t.nextId)
  }

  /** `link.remove()`: the document and its index entry go, nothing else changes. */
  function Remove(t: LinkTable, id: Id): (r: LinkTable)
    requires Invariant(t) && id in t.links
    ensures Invariant(r)
    ensures r.links == t.links - {id}
  {
    LinkTable(t.links - {id}, t.byAlias - {t.links[id].nanoLink}, t.nextId)
  }

  /** The collection as mutable state, with the Mongoose operations the controllers call. */
  class LinkStore {
    var links: map<Id, Link>
    var byAlias: map<string, Id>
    var nextId: Id

    function Table(): LinkTable
      reads this
    {
      LinkTable(links, byAlias, nextId)
    }

    ghost predicate Valid()
      reads this
    {
      Invariant(Table())
    }

    constructor ()
      ensures Valid() && Table() == Empty
    {
      links, byAlias, nextId := map[], map[], 0;
    }

    method FindById(id: Id) returns (r: Option<Link>)
      ensures r == ById(Table(), id)
    {
      r := if id in links then Some(links[id]) else None;
    }

    method FindByAlias(alias: string) returns (r: Option<(Id, Link)>)
      requires Valid()
      ensures r == ByAlias(Table(), alias)
    {
      var key := Text.Trim(alias);
      r := if key in byAlias then Some((byAlias[key], links[byAlias[key]])) else None;
    }

    method Find(uid: Id) returns (r: map<Id, Link>)
      ensures r == ByOwner(Table(), uid)
    {
      r := map id | id in links && links[id].uid == uid :: links[id];
    }

    /** `new Link(...).save()`: stores the document unless its alias is taken. */
    method Save(l: Link) returns (r: Result<Id, SaveError>)
      requires Valid() && WellFormed(l)
      modifies this
      ensures Valid()
      ensures Insert(old(Table()), l).Success? ==> r == Success(Insert(old(Table()), l).value.1) && Table() == Insert(old(Table()), l).value.0
      ensures Insert(old(Table()), l).Failure? ==> r == Failure(DuplicateKey) && Table() == old(Table())
    {
      if l.nanoLink in byAlias {
        r := Failure(DuplicateKey);
      } else {
        r := Success(nextId);
        links := links[nextId := l];
        byAlias := byAlias[l.nanoLink := nextId];
        nextId := nextId + 1;
      }
    }

    /** `link.longLink = longLink; link.save()` once validation has passed. */
    method SaveLongLink(id: Id, longLink: string)
      requires Valid() && id in links && StoredString(longLink)
      modifies this
      ensures Valid() && Table() == Replace(old(Table()), id, longLink)
    {
      links := links[id := links[id].(longLink := longLink)];
    }

    /** `link.remove()`. */
    method RemoveById(id: Id)
      requires Valid() && id in links
      modifies this
      ensures Valid() && Table() == Remove(old(Table()), id)
    {
      byAlias := byAlias - {links[id].nanoLink};
      links := links - {id};
    }
  }
}
