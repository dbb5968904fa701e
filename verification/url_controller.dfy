/** The owner-scoped management endpoints
    (backend/src/controllers/url.controller.js). Every one of them is a
    guarded update of the `Url` collection; none touches analytics events. */
module UrlController {
  import opened Common
  import opened UrlModel
  import opened UrlExpiry
  import opened Response

  /** The JSON body of `POST /api/url/create`. */
  datatype CreateBody = CreateBody(
    originalUrl: Option<string>,
    customAlias: Option<string>,
    expiryDate: Option<Time>,
    isPrivate: Option<bool>,
    password: Option<string>)

  /** The `data` of a management reply. */
  datatype UrlData = Created(shortUrl: string, doc: Doc) | One(doc: Doc) | Many(docs: seq<Doc>) | Nothing

  /** A reply together with the collection after the request. */
  datatype Step = Step(reply: Envelope<UrlData>, links: Links)

  /** What the request gets from outside: a fresh `_id`, the `nanoid(8)`
      identifier and a bcrypt salt. */
  datatype Generated = Generated(id: LinkId, shortId: string, salt: nat)

  const ShortIdLength := 8
  const AliasMinLength := 3
  const AliasMaxLength := 20
  const PasswordMinLength := 6

  predicate IsAlphanumericChar(c: char) {
    ('a' <= c <= 'z') || ('A' <= c <= 'Z') || ('0' <= c <= '9')
  }

  /** Joi's `alphanum()`: only ASCII letters and digits. */
  predicate IsAlphanumeric(s: string) {
    forall i :: 0 <= i < |s| ==> IsAlphanumericChar(s[i])
  }

  /** What `nanoid(8)` produces: eight characters of `A-Za-z0-9_-`. */
  predicate IsNanoId(s: string) {
    |s| == ShortIdLength && forall i :: 0 <= i < |s| ==> IsAlphanumericChar(s[i]) || s[i] == '_' || s[i] == '-'
  }

  predicate ValidUrl(u: Option<string>, isUri: string -> bool) {
    u.Some? && u.value != "" && isUri(u.value)
  }

  predicate ValidAlias(a: Option<string>) {
    a.Some? ==> AliasMinLength <= Utf16Length(a.value) <= AliasMaxLength && IsAlphanumeric(a.value)
  }

  predicate ValidPassword(p: Option<string>) {
    p.Some? ==> Utf16Length(p.value) >= PasswordMinLength
  }

  /** `createSchema.validate(body)`: the name of the first key that fails, in
      the schema's key order, or `None` when the body is valid. Joi's URI rule
      is the uninterpreted `isUri`; the date and boolean keys arrive typed. */
  function CreateSchema(body: CreateBody, isUri: string -> bool): (invalid: Option<string>)
    ensures invalid.None? <==>
      ValidUrl(body.originalUrl, isUri) && ValidAlias(body.customAlias) && ValidPassword(body.password)
    ensures invalid.Some? ==> invalid.value in {"originalUrl", "customAlias", "password"}
  {
    if !ValidUrl(body.originalUrl, isUri) then Some("originalUrl")
    else if !ValidAlias(body.customAlias) then Some("customAlias")
    else if !ValidPassword(body.password) then Some("password")
    else None
  }

  /** The database driver's text for a refused insert. */
  function InsertMessage(e: InsertError): string {
    match e
    case RequiredMissing(path) => "Url validation failed: " + path + ": Path `" + path + "` is required."
    case DuplicateKey(index) => "E11000 duplicate key error index: " + index
  }

  /** The record `createShortUrl` stores for a valid body. */
  function CreatedLink(user: UserId, body: CreateBody, gen: Generated, bcrypt: Bcrypt, now: Time): (l: Link)
    requires body.originalUrl.Some?
    ensures l.owner == Some(user) && l.originalUrl == body.originalUrl.value && l.shortId == gen.shortId
    ensures l.customAlias == body.customAlias && l.expiryDate == body.expiryDate
    ensures l.isPrivate <==> body.isPrivate == Some(true)
    ensures l.password.Some? <==> Present(body.password)
    ensures Present(body.password) ==> l.password == Some(bcrypt.hash(body.password.value, gen.salt))
    ensures l.isActive && l.clickCount == 0 && l.createdAt == now
  {
    var hashed := if Present(body.password) then Some(bcrypt.hash(body.password.value, gen.salt)) else None;
    NewLink(LinkFields(body.originalUrl.value, gen.shortId, body.customAlias, Some(user),
                       Some(body.isPrivate.GetOr(false)), hashed, body.expiryDate), now)
  }

  /** `createShortUrl`: validate, refuse an alias some record already holds
      (aliases only; short identifiers are not consulted), then insert. */
  function CreateShortUrl(links: Links, user: UserId, body: CreateBody, isUri: string -> bool,
                          gen: Generated, bcrypt: Bcrypt, baseUrl: string, now: Time): (r: Step)
    requires IsNanoId(gen.shortId)
    ensures r.reply.status in {200, 400, 409, 500}
    ensures r.reply.status == 200 <==>
      CreateSchema(body, isUri).None? && !(body.customAlias.Some? && AliasTaken(links, body.customAlias.value))
      && gen.id !in links && !(exists other :: other in links && links[other].shortId == gen.shortId)
    ensures r.reply.status == 400 <==> CreateSchema(body, isUri).Some?
    ensures r.reply.status == 409 <==>
      CreateSchema(body, isUri).None? && body.customAlias.Some? && AliasTaken(links, body.customAlias.value)
    ensures r.reply.status == 500 <==>
      CreateSchema(body, isUri).None? && !(body.customAlias.Some? && AliasTaken(links, body.customAlias.value))
      && (gen.id in links || exists other :: other in links && links[other].shortId == gen.shortId)
    ensures r.reply.status != 200 ==> r.links == links && !r.reply.success
    ensures r.reply.status == 200 ==>
      && r.links.Keys == links.Keys + {gen.id} && gen.id !in links
      && (forall id :: id in links ==> r.links[id] == links[id])
      && r.reply.data == Some(Created(baseUrl + "/" + gen.shortId, Doc(gen.id, r.links[gen.id])))
    ensures r.reply.status == 200 ==>
      var l := r.links[gen.id];
      && l.owner == Some(user) && l.originalUrl == body.originalUrl.value
      && l.customAlias == body.customAlias && l.expiryDate == body.expiryDate
      && l.isPrivate == (body.isPrivate == Some(true))
      && (body.password.None? ==> l.password.None?)
      && (body.password.Some? ==> l.password == Some(bcrypt.hash(body.password.value, gen.salt)))
      && |l.shortId| == ShortIdLength && l.isActive && l.clickCount == 0 && l.createdAt == now
    ensures ShortIdsUnique(links) ==> ShortIdsUnique(r.links)
  {
    var invalid := CreateSchema(body, isUri);
    if invalid.Some? then Step(Fail("\"" + invalid.value + "\" is invalid", 400), links)
    else if body.customAlias.Some? && AliasTaken(links, body.customAlias.value) then
      Step(Fail("Custom alias already taken", 409), links)
    else
      var l := CreatedLink(user, body, gen, bcrypt, now);
      match Insert(links, gen.id, l)
      case Err(e) => Step(Fail(InsertMessage(e), 500), links)
      case Ok(links') =>
        Step(Success(Created(baseUrl + "/" + gen.shortId, Doc(gen.id, l)), Some("Short URL created")), links')
  }

  /** The ids of the records `user` owns. */
  function OwnedIds(links: Links, user: UserId): (ids: set<LinkId>)
    ensures forall id :: id in ids <==> Owned(links, id, user)
  {
    set id | id in links && links[id].owner == Some(user)
  }

  /** Newest first by creation time (`sort({createdAt: -1})`). */
  ghost predicate NewestFirst(docs: seq<Doc>) {
    forall i, j :: 0 <= i < j < |docs| ==> docs[i].link.createdAt >= docs[j].link.createdAt
  }

  /** Insert `d` into a newest-first list, keeping it newest first. */
  function InsertNewestFirst(docs: seq<Doc>, d: Doc): (r: seq<Doc>)
    requires NewestFirst(docs)
    ensures NewestFirst(r)
    ensures |r| == |docs| + 1
    ensures forall x :: x in r <==> x in docs || x == d
    ensures multiset(r) == multiset(docs) + multiset{d}
  {
    if |docs| == 0 then [d]
    else if d.link.createdAt >= docs[0].link.createdAt then [d] + docs
    else
      var rest := InsertNewestFirst(docs[1..], d);
      assert forall j :: 0 <= j < |rest| ==> rest[j].link.createdAt <= docs[0].link.createdAt by {
        forall j | 0 <= j < |rest| ensures rest[j].link.createdAt <= docs[0].link.createdAt {
          assert rest[j] in rest;
          if rest[j] != d {
            var k :| 0 <= k < |docs[1..]| && docs[1..][k] == rest[j];
            assert docs[k + 1] == rest[j];
          }
        }
      }
      ConsNewestFirst(docs[0], rest);
      assert docs == [docs[0]] + docs[1..];
      assert multiset([docs[0]] + rest) == multiset([docs[0]]) + multiset(rest);
      assert multiset(docs) == multiset([docs[0]]) + multiset(docs[1..]);
      [docs[0]] + rest
  }

  /** A record no newer than `h` goes behind it in a newest-first list. */
  lemma ConsNewestFirst(h: Doc, rest: seq<Doc>)
    requires NewestFirst(rest)
    requires forall j :: 0 <= j < |rest| ==> rest[j].link.createdAt <= h.link.createdAt
    ensures NewestFirst([h] + rest)
  {
    var r := [h] + rest;
    forall i, j | 0 <= i < j < |r| ensures r[i].link.createdAt >= r[j].link.createdAt {
      assert r[j] == rest[j - 1];
      if i > 0 {
        assert r[i] == rest[i - 1];
      }
    }
  }

  /** One step of `getMyUrls`: moving `id` from the pending ids into the
      listing keeps every listed record owned and stored, and every id no
      longer pending listed. */
  lemma InsertKeepsListing(links: Links, owned: set<LinkId>, pending: set<LinkId>, docs: seq<Doc>,
                           id: LinkId, docs': seq<Doc>)
    requires id in pending && pending <= owned && owned <= links.Keys
    requires forall i :: 0 <= i < |docs| ==>
      docs[i].id in owned && docs[i].id !in pending && docs[i].link == links[docs[i].id]
    requires forall x :: x in owned && x !in pending ==> exists i :: 0 <= i < |docs| && docs[i].id == x
    requires forall x :: x in docs' <==> x in docs || x == Doc(id, links[id])
    ensures forall i :: 0 <= i < |docs'| ==>
      docs'[i].id in owned && docs'[i].id !in pending - {id} && docs'[i].link == links[docs'[i].id]
    ensures forall x :: x in owned && x !in pending - {id} ==> exists i :: 0 <= i < |docs'| && docs'[i].id == x
  {
    var d := Doc(id, links[id]);
    forall x | x in owned && x !in pending - {id}
      ensures exists i :: 0 <= i < |docs'| && docs'[i].id == x
    {
      if x == id {
        assert d in docs';
      } else {
        var i :| 0 <= i < |docs| && docs[i].id == x;
        assert docs[i] in docs';
      }
    }
    forall i | 0 <= i < |docs'|
      ensures docs'[i].id in owned && docs'[i].id !in pending - {id} && docs'[i].link == links[docs'[i].id]
    {
      assert docs'[i] in docs';
      if docs'[i] != d {
        var j :| 0 <= j < |docs| && docs[j] == docs'[i];
      }
    }
  }

  /** `getMyUrls`: exactly the records `user` owns, each once, newest first
      (records created at the same instant come in no promised order). */
  method GetMyUrls(links: Links, user: UserId) returns (r: Envelope<UrlData>)
    ensures r.data.Some? && r.data.value.Many? && r == Success(r.data.value, Some("My URLs fetched"))
    ensures var docs := r.data.value.docs;
      && NewestFirst(docs)
      && |docs| == |OwnedIds(links, user)|
      && (forall i :: 0 <= i < |docs| ==> Owned(links, docs[i].id, user) && docs[i].link == links[docs[i].id])
      && (forall id :: Owned(links, id, user) ==> exists i :: 0 <= i < |docs| && docs[i].id == id)
  {
    var owned := OwnedIds(links, user);
    var pending := owned;
    var docs: seq<Doc> := [];
    while pending != {}
      invariant pending <= owned
      invariant NewestFirst(docs)
      invariant |docs| + |pending| == |owned|
      invariant forall i :: 0 <= i < |docs| ==>
        docs[i].id in owned && docs[i].id !in pending && docs[i].link == links[docs[i].id]
      invariant forall id :: id in owned && id !in pending ==> exists i :: 0 <= i < |docs| && docs[i].id == id
      decreases |pending|
    {
      var id :| id in pending;
      var d := Doc(id, links[id]);
      var docs' := InsertNewestFirst(docs, d);
      InsertKeepsListing(links, owned, pending, docs, id, docs');
      docs := docs';
      pending := pending - {id};
    }
    r := Success(Many(docs), Some("My URLs fetched"));
  }

  /** `getUrlDetails`: the record when `user` owns it, else 404. */
  function GetUrlDetails(links: Links, id: LinkId, user: UserId): (r: Envelope<UrlData>)
    ensures r.status == 200 <==> Owned(links, id, user)
    ensures r.status == 200 ==> r.data == Some(One(Doc(id, links[id]))) && r.message == "OK"
    ensures r.status != 200 ==> r.status == 404 && r.data.None?
  {
    if !Owned(links, id, user) then Fail("URL not found", 404)
    else Success(One(Doc(id, links[id])), None)
  }

  /** `deleteUrl`: remove the record only when `user` owns it. */
  function DeleteUrl(links: Links, id: LinkId, user: UserId): (r: Step)
    ensures r.reply.status == 200 <==> Owned(links, id, user)
    ensures r.reply.status == 200 ==> r.links.Keys == links.Keys - {id} && r.reply.data == Some(Nothing)
    ensures r.reply.status != 200 ==> r.reply.status == 404 && r.links == links
    ensures forall other :: other in r.links ==> other in links && r.links[other] == links[other]
  {
    if !Owned(links, id, user) then Step(Fail("URL not found", 404), links)
    else Step(Success(Nothing, Some("Deleted")), links - {id})
  }

  /** `toggleUrlStatus`: flip `isActive`, unless the record is expired. */
  function ToggleUrlStatus(links: Links, id: LinkId, user: UserId, now: Time): (r: Step)
    ensures r.reply.status in {200, 400, 404}
    ensures r.reply.status == 200 <==> Owned(links, id, user) && !IsExpired(links[id], now)
    ensures r.reply.status == 404 <==> !Owned(links, id, user)
    ensures r.reply.status == 400 <==> Owned(links, id, user) && IsExpired(links[id], now)
    ensures r.reply.status != 200 ==> r.links == links
    ensures r.reply.status == 200 ==>
      r.links == links[id := links[id].(isActive := !links[id].isActive)]
      && r.reply.message == (if r.links[id].isActive then "URL is now active" else "URL is now inactive")
    ensures ShortIdsUnique(links) ==> ShortIdsUnique(r.links)
  {
    if !Owned(links, id, user) then Step(Fail("URL not found", 404), links)
    else if IsExpired(links[id], now) then Step(Fail("Cannot toggle. URL expired.", 400), links)
    else
      var l := links[id].(isActive := !links[id].isActive);
      Step(Success(One(Doc(id, l)), Some(if l.isActive then "URL is now active" else "URL is now inactive")),
           links[id := l])
  }

  /** Toggling twice at the same instant restores the collection. */
  lemma {:induction false} ToggleTwiceRestores(links: Links, id: LinkId, user: UserId, now: Time)
    requires Owned(links, id, user) && !IsExpired(links[id], now)
    ensures var once := ToggleUrlStatus(links, id, user, now).links;
      ToggleUrlStatus(once, id, user, now).reply.status == 200
      && ToggleUrlStatus(once, id, user, now).links == links
  {
    var once := ToggleUrlStatus(links, id, user, now).links;
    assert once[id].expiryDate == links[id].expiryDate;
    assert once[id := once[id].(isActive := !once[id].isActive)] == links;
  }

  /** `updateAlias`: the checks run in this order: alias given, alias free
      (held by no record at all, this one included), record owned, record
      not expired. No format check is made on the new alias. */
  function UpdateAlias(links: Links, id: LinkId, user: UserId, alias: Option<string>, now: Time): (r: Step)
    ensures r.reply.status in {200, 400, 404, 409}
    ensures r.reply.status == 200 <==>
      Present(alias) && !AliasTaken(links, alias.value) && Owned(links, id, user) && !IsExpired(links[id], now)
    ensures r.reply.status == 400 && r.reply.message == "Alias required" <==> !Present(alias)
    ensures r.reply.status == 409 <==> Present(alias) && AliasTaken(links, alias.value)
    ensures r.reply.status == 404 <==> Present(alias) && !AliasTaken(links, alias.value) && !Owned(links, id, user)
    ensures r.reply.status == 400 && r.reply.message != "Alias required" <==>
      Present(alias) && !AliasTaken(links, alias.value) && Owned(links, id, user) && IsExpired(links[id], now)
    ensures r.reply.status != 200 ==> r.links == links
    ensures r.reply.status == 200 ==> r.links == links[id := links[id].(customAlias := alias)]
    ensures ShortIdsUnique(links) ==> ShortIdsUnique(r.links)
  {
    if !Present(alias) then Step(Fail("Alias required", 400), links)
    else if AliasTaken(links, alias.value) then Step(Fail("Alias already taken", 409), links)
    else if !Owned(links, id, user) then Step(Fail("URL not found", 404), links)
    else if IsExpired(links[id], now) then Step(Fail("Cannot update alias. URL expired.", 400), links)
    else
      var l := links[id].(customAlias := alias);
      Step(Success(One(Doc(id, l)), Some("Alias updated")), links[id := l])
  }

  /** A record cannot be given the alias it already has: it holds it, so 409. */
  lemma SameAliasConflicts(links: Links, id: LinkId, user: UserId, alias: string, now: Time)
    requires alias != "" && id in links && links[id].customAlias == Some(alias)
    ensures UpdateAlias(links, id, user, Some(alias), now).reply.status == 409
  {
  }

  /** The alias rules of creation do not apply to updates: a one-character
      alias that `createSchema` refuses is accepted by `updateAlias`. */
  lemma {:induction false} UpdateAliasSkipsFormat(links: Links, id: LinkId, user: UserId, now: Time)
    requires Owned(links, id, user) && !IsExpired(links[id], now) && !AliasTaken(links, "x")
    ensures !ValidAlias(Some("x"))
    ensures UpdateAlias(links, id, user, Some("x"), now).reply.status == 200
  {
    assert Utf16Length("x") == 1 by { assert "x"[..0] == ""; }
  }

  const PrivateMessage := "Privacy updated \U{2013} now PRIVATE"
  const PublicMessage := "Privacy updated \U{2013} now PUBLIC"

  /** `updatePrivacy`: set `isPrivate` to `Boolean(isPrivate)`; replace the
      stored hash only when making the record private with a password.
      Making it public leaves any password in place. */
  function UpdatePrivacy(links: Links, id: LinkId, user: UserId, isPrivate: Option<Json>, password: Option<string>,
                         bcrypt: Bcrypt, salt: nat): (r: Step)
    ensures r.reply.status == 200 <==> Owned(links, id, user)
    ensures r.reply.status != 200 ==> r.reply.status == 404 && r.links == links
    ensures r.reply.status == 200 ==>
      && r.links.Keys == links.Keys
      && (forall other :: other in links && other != id ==> r.links[other] == links[other])
      && r.links[id].isPrivate == Truthy(isPrivate)
      && (Truthy(isPrivate) && Present(password) ==> r.links[id].password == Some(bcrypt.hash(password.value, salt)))
      && (!(Truthy(isPrivate) && Present(password)) ==> r.links[id].password == links[id].password)
      && r.links[id] == links[id].(isPrivate := r.links[id].isPrivate, password := r.links[id].password)
      && r.reply.message == (if Truthy(isPrivate) then PrivateMessage else PublicMessage)
    ensures ShortIdsUnique(links) ==> ShortIdsUnique(r.links)
  {
    if !Owned(links, id, user) then Step(Fail("URL not found", 404), links)
    else
      var priv := Truthy(isPrivate);
      var l := links[id].(isPrivate := priv);
      var l' := if priv && Present(password) then l.(password := Some(bcrypt.hash(password.value, salt))) else l;
      Step(Success(One(Doc(id, l')), Some(if priv then PrivateMessage else PublicMessage)), links[id := l'])
  }

  /** `Boolean("false")` is true: the string "false" makes a record private. */
  lemma StringFalseMakesPrivate(links: Links, id: LinkId, user: UserId, bcrypt: Bcrypt, salt: nat)
    requires Owned(links, id, user)
    ensures UpdatePrivacy(links, id, user, Some(JStr("false")), None, bcrypt, salt).links[id].isPrivate
  {
  }

  /** `updateExpiry`: store the new expiry date (absent clears it), with no
      check of expiry or activity; nothing else changes. */
  function UpdateExpiry(links: Links, id: LinkId, user: UserId, expiryDate: Option<Time>): (r: Step)
    ensures r.reply.status == 200 <==> Owned(links, id, user)
    ensures r.reply.status != 200 ==> r.reply.status == 404 && r.links == links
    ensures r.reply.status == 200 ==> r.links == links[id := links[id].(expiryDate := expiryDate)]
    ensures ShortIdsUnique(links) ==> ShortIdsUnique(r.links)
  {
    if !Owned(links, id, user) then Step(Fail("URL not found", 404), links)
    else
      var l := links[id].(expiryDate := expiryDate);
      Step(Success(One(Doc(id, l)), Some("Expiry updated")), links[id := l])
  }

  /** Expiry deactivation is not permanent: an owner can push the expiry date
      past `now` and then toggle the record back on. */
  lemma {:induction false} ExtendThenToggleReactivates(links: Links, id: LinkId, user: UserId, later: Time, now: Time)
    requires Owned(links, id, user) && !links[id].isActive && later >= now
    ensures var extended := UpdateExpiry(links, id, user, Some(later)).links;
      var toggled := ToggleUrlStatus(extended, id, user, now);
      toggled.reply.status == 200 && toggled.links[id].isActive
  {
    var extended := UpdateExpiry(links, id, user, Some(later)).links;
    assert extended[id].expiryDate == Some(later);
    assert !IsExpired(extended[id], now);
  }
}
