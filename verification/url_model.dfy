/** The short-link record, its defaults and the constraints the collection
    enforces (backend/src/models/url.model.js). */
module UrlModel {
  import opened Common

  /** One short-link record; its `_id` is the key it is stored under. */
  datatype Link = Link(
    originalUrl: string,
    shortId: string,
    customAlias: Option<string>,
    owner: Option<UserId>,
    isActive: bool,
    isPrivate: bool,
    password: Option<string>,
    expiryDate: Option<Time>,
    clickCount: nat,
    createdAt: Time)

  /** The `Url` collection, keyed by `_id`. */
  type Links = map<LinkId, Link>

  /** A record together with its `_id`, as a query returns it. */
  datatype Doc = Doc(id: LinkId, link: Link)

  /** The fields a caller supplies to create a record; absent ones take their defaults. */
  datatype LinkFields = LinkFields(
    originalUrl: string,
    shortId: string,
    customAlias: Option<string>,
    owner: Option<UserId>,
    isPrivate: Option<bool>,
    password: Option<string>,
    expiryDate: Option<Time>)

  /** A new record: the schema defaults fill what the caller left out. */
  function NewLink(f: LinkFields, now: Time): (l: Link)
    ensures l.isActive && l.clickCount == 0 && l.createdAt == now
    ensures f.isPrivate.None? ==> !l.isPrivate
    ensures f.password.None? ==> l.password.None?
    ensures f.expiryDate.None? ==> l.expiryDate.None?
    ensures l.originalUrl == f.originalUrl && l.shortId == f.shortId
    ensures l.customAlias == f.customAlias && l.owner == f.owner
    ensures f.isPrivate.Some? ==> l.isPrivate == f.isPrivate.value
    ensures f.password.Some? ==> l.password == f.password
    ensures f.expiryDate.Some? ==> l.expiryDate == f.expiryDate
  {
    Link(f.originalUrl, f.shortId, f.customAlias, f.owner,
         true, f.isPrivate.GetOr(false), f.password, f.expiryDate, 0, now)
  }

  /** The unique index on `shortId`: no two records share one. */
  ghost predicate ShortIdsUnique(links: Links) {
    forall a, b :: a in links && b in links && a != b ==> links[a].shortId != links[b].shortId
  }

  /** Why the collection refuses an insert. */
  datatype InsertError = RequiredMissing(path: string) | DuplicateKey(index: string)

  /** `Url.create`: the `required` validators run first (a required string
      must be non-empty), then the unique indexes on `_id` and `shortId`. */
  function Insert(links: Links, id: LinkId, l: Link): (r: Result<Links, InsertError>)
    ensures r.Ok? <==>
      l.originalUrl != "" && l.shortId != "" && id !in links
      && (forall other :: other in links ==> links[other].shortId != l.shortId)
    ensures r.Ok? ==> r.value == links[id := l]
    ensures r.Ok? && ShortIdsUnique(links) ==> ShortIdsUnique(r.value)
    ensures r.Err? ==> (r.error.RequiredMissing? <==> l.originalUrl == "" || l.shortId == "")
  {
    if l.originalUrl == "" then Err(RequiredMissing("originalUrl"))
    else if l.shortId == "" then Err(RequiredMissing("shortId"))
    else if id in links then Err(DuplicateKey("_id_"))
    else if exists other :: other in links && links[other].shortId == l.shortId then
      Err(DuplicateKey("shortId_1"))
    else Ok(links[id := l])
  }

  /** A record answers to `token` through its `shortId` or its `customAlias`. */
  predicate Matches(l: Link, token: string) {
    l.shortId == token || l.customAlias == Some(token)
  }

  /** `findOne({$or: [{shortId: token}, {customAlias: token}]})` may return
      any matching record, and returns nothing only when none matches. */
  ghost predicate IsLookup(links: Links, token: string, found: Option<LinkId>) {
    match found
    case None => forall id :: id in links ==> !Matches(links[id], token)
    case Some(id) => id in links && Matches(links[id], token)
  }

  /** At most one record answers to `token`. */
  ghost predicate SingleMatch(links: Links, token: string) {
    forall a, b :: a in links && b in links && Matches(links[a], token) && Matches(links[b], token) ==> a == b
  }

  /** `findOne({customAlias: alias})` finds a record. */
  predicate AliasTaken(links: Links, alias: string) {
    exists id :: id in links && links[id].customAlias == Some(alias)
  }

  /** `findOne({_id: id, user: user})` finds a record. */
  predicate Owned(links: Links, id: LinkId, user: UserId) {
    id in links && links[id].owner == Some(user)
  }

  /** Only a non-empty stored hash protects a record (`if (urlDoc.password)`). */
  predicate HasPassword(l: Link) {
    Present(l.password)
  }

  /** When two records answer to a token, whichever the lookup returns is a
      legal answer, so the collection cannot say which one a visitor reaches. */
  lemma {:induction false} AmbiguousLookup(links: Links, token: string, a: LinkId, b: LinkId)
    requires a in links && b in links && a != b
    requires Matches(links[a], token) && Matches(links[b], token)
    ensures IsLookup(links, token, Some(a)) && IsLookup(links, token, Some(b))
    ensures !SingleMatch(links, token)
  {
  }

  /** With a single match the lookup's answer is determined. */
  lemma {:induction false} SingleMatchDeterminesLookup(links: Links, token: string, f1: Option<LinkId>, f2: Option<LinkId>)
    requires SingleMatch(links, token)
    requires IsLookup(links, token, f1) && IsLookup(links, token, f2)
    ensures f1 == f2
  {
  }
}
