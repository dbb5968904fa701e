/** Properties of request sequences that cross handlers: what one endpoint
    writes and what a later one reads. */
module Scenarios {
  import opened Common
  import opened UrlModel
  import opened UrlExpiry
  import opened AnalyticsModel
  import opened AnalyticsService
  import opened Response
  import opened Resolver
  import opened Unlock
  import opened UrlController
  import opened AuthController
  import opened AuthMiddleware

  /** A link created without a password, under a short identifier no
      existing alias spells, is the only record that identifier reaches: every
      legal answer of the redirect lookup is the new record, and it redirects
      to the submitted URL until its expiry passes, counting one click. */
  lemma {:induction false} CreateThenRedirect(links: Links, user: UserId, body: CreateBody, isUri: string -> bool,
                                              gen: Generated, bcrypt: Bcrypt, baseUrl: string, now: Time,
                                              events: seq<Event>, found: Option<LinkId>, req: Request, probes: Probes,
                                              later: Time, stored: bool)
    requires IsNanoId(gen.shortId) && !AliasTaken(links, gen.shortId)
    requires body.password.None?
    requires body.expiryDate.None? || later <= body.expiryDate.value
    requires CreateShortUrl(links, user, body, isUri, gen, bcrypt, baseUrl, now).reply.status == 200
    ensures var links' := CreateShortUrl(links, user, body, isUri, gen, bcrypt, baseUrl, now).links;
      && IsLookup(links', gen.shortId, Some(gen.id))
      && (IsLookup(links', gen.shortId, found) ==>
            && found == Some(gen.id)
            && var r := Resolve(Db(links', events), gen.shortId, found, req, probes, later, stored);
            && r.outcome == Redirect(body.originalUrl.value)
            && r.db.links[gen.id].clickCount == 1)
  {
  }

  /** Alias uniqueness is checked against aliases only: an owner can give a
      record an alias equal to another record's short identifier, after which
      either record is a legal answer for that token. */
  lemma {:induction false} AliasCanShadowShortId(links: Links, a: LinkId, b: LinkId, user: UserId, now: Time)
    requires a in links && b in links && a != b
    requires Owned(links, a, user) && !IsExpired(links[a], now)
    requires links[b].shortId != "" && !AliasTaken(links, links[b].shortId)
    ensures var step := UpdateAlias(links, a, user, Some(links[b].shortId), now);
      && step.reply.status == 200
      && IsLookup(step.links, links[b].shortId, Some(a))
      && IsLookup(step.links, links[b].shortId, Some(b))
  {
    var step := UpdateAlias(links, a, user, Some(links[b].shortId), now);
    assert step.links[b] == links[b];
  }

  /** Making a protected link public keeps its password: visitors are still
      challenged. */
  lemma {:induction false} PublicLinkStaysLocked(links: Links, events: seq<Event>, token: string, id: LinkId, user: UserId,
                                                 bcrypt: Bcrypt, salt: nat, req: Request, probes: Probes, now: Time, stored: bool)
    requires IsLookup(links, token, Some(id)) && Owned(links, id, user)
    requires links[id].isActive && !IsExpired(links[id], now) && HasPassword(links[id])
    ensures var links' := UpdatePrivacy(links, id, user, Some(JBool(false)), None, bcrypt, salt).links;
      && !links'[id].isPrivate
      && IsLookup(links', token, Some(id))
      && Resolve(Db(links', events), token, Some(id), req, probes, now, stored).outcome == PasswordRequired
  {
    var links' := UpdatePrivacy(links, id, user, Some(JBool(false)), None, bcrypt, salt).links;
    assert links'[id].password == links[id].password;
  }

  /** A visitor challenged by the redirect unlocks the same target with a
      password bcrypt accepts, and nothing is counted or logged on the way. */
  lemma {:induction false} ChallengeThenUnlock(db: Db, token: string, id: LinkId, password: string, bcrypt: Bcrypt,
                                               req: Request, probes: Probes, now: Time, stored: bool)
    requires IsLookup(db.links, token, Some(id))
    requires Resolve(db, token, Some(id), req, probes, now, stored).outcome == PasswordRequired
    requires bcrypt.compare(password, db.links[id].password.value)
    ensures Resolve(db, token, Some(id), req, probes, now, stored).db == db
    ensures UnlockUrl(db.links, token, Some(id), Some(password), bcrypt)
         == Success(Unlocked(db.links[id].originalUrl), Some("Unlocked"))
  {
  }

  /** With a sound bcrypt, the password an owner sets while making a link
      private is the one that unlocks it. */
  lemma {:induction false} ProtectThenUnlock(links: Links, token: string, id: LinkId, user: UserId, password: string,
                                             bcrypt: Bcrypt, salt: nat)
    requires Sound(bcrypt)
    requires IsLookup(links, token, Some(id)) && Owned(links, id, user) && links[id].isActive
    requires password != "" && bcrypt.hash(password, salt) != ""
    ensures var links' := UpdatePrivacy(links, id, user, Some(JBool(true)), Some(password), bcrypt, salt).links;
      && IsLookup(links', token, Some(id))
      && UnlockUrl(links', token, Some(id), Some(password), bcrypt).status == 200
  {
    var links' := UpdatePrivacy(links, id, user, Some(JBool(true)), Some(password), bcrypt, salt).links;
    assert links'[id].password == Some(bcrypt.hash(password, salt));
    assert bcrypt.compare(password, bcrypt.hash(password, salt));
  }

  /** The token a signup issues, sent back as a bearer header, passes the
      gate as the new account. */
  lemma {:induction false} SignupThenAuthenticate(users: Users, body: SignupBody, isEmail: string -> bool, newId: UserId,
                                                  salt: nat, bcrypt: Bcrypt, jwt: Jwt)
    requires Faithful(jwt)
    requires Signup(users, body, isEmail, newId, salt, bcrypt, jwt).reply.status == 200
    requires ' ' !in jwt.sign(Claims(newId, body.email.value))
    ensures var token := Signup(users, body, isEmail, newId, salt, bcrypt, jwt).reply.data.value.token;
      Authenticate(Some(BearerPrefix + token), jwt) == Next(Claims(newId, body.email.value))
  {
    IssuedTokenPasses(jwt, Claims(newId, body.email.value));
  }
}
