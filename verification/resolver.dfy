/** The `GET /:shortId` handler (backend/src/app.js): find the record, refuse
    it when inactive, disable it when first found expired, challenge it when
    it holds a password, otherwise count the click, log it and redirect. */
module Resolver {
  import opened Common
  import opened UrlModel
  import opened UrlExpiry
  import opened AnalyticsModel
  import opened AnalyticsService

  /** Both collections the handler touches. */
  datatype Db = Db(links: Links, events: seq<Event>)

  /** The four answers the handler can give. */
  datatype Outcome = NotFound | Gone | PasswordRequired | Redirect(target: string)

  /** The outcome together with the collections after the request. */
  datatype Resolution = Resolution(outcome: Outcome, db: Db)

  /** The HTTP status of each outcome. */
  function Status(o: Outcome): int {
    match o
    case NotFound => 404
    case Gone => 410
    case PasswordRequired => 401
    case Redirect(_) => 302
  }

  /** The JSON message of each refusal (a redirect has no body). */
  function Message(o: Outcome): string {
    match o
    case NotFound => "URL not found or inactive"
    case Gone => "URL expired and disabled"
    case PasswordRequired => "Password required"
    case Redirect(_) => ""
  }

  /** Only the 401 reply carries `protected: true`. */
  predicate Protected(o: Outcome) {
    o.PasswordRequired?
  }

  /** Resolve `token` at instant `now`. `found` is the record the
      `$or` lookup returned; `stored` says whether the fire-and-forget
      analytics write went through. */
  function Resolve(db: Db, token: string, found: Option<LinkId>, req: Request, probes: Probes, now: Time, stored: bool)
    : (r: Resolution)
    requires IsLookup(db.links, token, found)
    // the order of the checks: missing or inactive, then expired, then password
    ensures r.outcome.NotFound? <==> found.None? || !db.links[found.value].isActive
    ensures r.outcome.Gone? <==>
      found.Some? && db.links[found.value].isActive && IsExpired(db.links[found.value], now)
    ensures r.outcome.PasswordRequired? <==>
      found.Some? && db.links[found.value].isActive && !IsExpired(db.links[found.value], now)
      && HasPassword(db.links[found.value])
    ensures r.outcome.Redirect? ==> found.Some? && r.outcome.target == db.links[found.value].originalUrl
    // what each outcome writes
    ensures r.outcome.NotFound? || r.outcome.PasswordRequired? ==> r.db == db
    ensures r.outcome.Gone? ==>
      r.db.events == db.events
      && r.db.links == db.links[found.value := db.links[found.value].(isActive := false)]
    ensures r.outcome.Redirect? ==>
      var l := db.links[found.value];
      && r.db.links == db.links[found.value := l.(clickCount := l.clickCount + 1)]
      && r.db.events == LogAnalytics(db.events, found.value, req, probes, now, stored)
  {
    match found
    case None => Resolution(NotFound, db)
    case Some(id) =>
      var l := db.links[id];
      if !l.isActive then Resolution(NotFound, db)
      else if IsExpired(l, now) then
        Resolution(Gone, db.(links := db.links[id := l.(isActive := false)]))
      else if HasPassword(l) then Resolution(PasswordRequired, db)
      else
        var links' := db.links[id := l.(clickCount := l.clickCount + 1)];
        Resolution(Redirect(l.originalUrl), Db(links', LogAnalytics(db.events, id, req, probes, now, stored)))
  }

  /** No record is created or deleted, no record other than the one found
      changes, no click count goes down, and only a redirect raises one, by one. */
  lemma ResolveFrame(db: Db, token: string, found: Option<LinkId>, req: Request, probes: Probes, now: Time, stored: bool)
    requires IsLookup(db.links, token, found)
    ensures var r := Resolve(db, token, found, req, probes, now, stored);
      && r.db.links.Keys == db.links.Keys
      && (forall id :: id in db.links && found != Some(id) ==> r.db.links[id] == db.links[id])
      && (forall id :: id in db.links ==> r.db.links[id].clickCount >= db.links[id].clickCount)
      && (forall id :: id in db.links && r.db.links[id].clickCount != db.links[id].clickCount ==>
            r.outcome.Redirect? && found == Some(id) && r.db.links[id].clickCount == db.links[id].clickCount + 1)
  {
  }

  /** Only a redirect writes analytics: it appends at most one event, for the
      record found, and exactly one when the write goes through. */
  lemma {:induction false} AnalyticsOnlyOnRedirect(db: Db, token: string, found: Option<LinkId>, req: Request, probes: Probes, now: Time, stored: bool)
    requires IsLookup(db.links, token, found)
    ensures var r := Resolve(db, token, found, req, probes, now, stored);
      && r.db.events[..|db.events|] == db.events
      && (!r.outcome.Redirect? ==> r.db.events == db.events)
      && (r.outcome.Redirect? && stored ==>
            |r.db.events| == |db.events| + 1 && r.db.events[|db.events|].url == found.value)
      && (r.outcome.Redirect? && !stored ==> r.db.events == db.events)
  {
  }

  /** An expired record answers 410 even when it is password-protected:
      expiry is checked before the password. */
  lemma ExpiredBeatsPassword(db: Db, token: string, id: LinkId, req: Request, probes: Probes, now: Time, stored: bool)
    requires IsLookup(db.links, token, Some(id))
    requires db.links[id].isActive && IsExpired(db.links[id], now) && HasPassword(db.links[id])
    ensures Resolve(db, token, Some(id), req, probes, now, stored).outcome == Gone
  {
  }

  /** An inactive record answers 404 even when it has expired: inactivity is
      checked first, so nothing is written. */
  lemma InactiveBeatsExpired(db: Db, token: string, id: LinkId, req: Request, probes: Probes, now: Time, stored: bool)
    requires IsLookup(db.links, token, Some(id))
    requires !db.links[id].isActive && IsExpired(db.links[id], now)
    ensures Resolve(db, token, Some(id), req, probes, now, stored) == Resolution(NotFound, db)
  {
  }

  /** The privacy flag never changes the outcome: only a password gates the redirect. */
  lemma PrivacyDoesNotGate(db: Db, token: string, id: LinkId, priv: bool, req: Request, probes: Probes, now: Time, stored: bool)
    requires IsLookup(db.links, token, Some(id))
    ensures var db' := db.(links := db.links[id := db.links[id].(isPrivate := priv)]);
      IsLookup(db'.links, token, Some(id))
      && Resolve(db', token, Some(id), req, probes, now, stored).outcome
         == Resolve(db, token, Some(id), req, probes, now, stored).outcome
  {
  }

  /** Whether the analytics write succeeds never affects the answer or the records. */
  lemma LoggingIsInvisible(db: Db, token: string, found: Option<LinkId>, req: Request, probes: Probes, now: Time)
    requires IsLookup(db.links, token, found)
    ensures Resolve(db, token, found, req, probes, now, true).outcome
         == Resolve(db, token, found, req, probes, now, false).outcome
    ensures Resolve(db, token, found, req, probes, now, true).db.links
         == Resolve(db, token, found, req, probes, now, false).db.links
  {
  }

  /** The deactivation happens once: after a 410, resolving the same token
      again (with a single record answering to it) gives 404 and writes nothing. */
  lemma {:induction false} GoneThenNotFound(db: Db, token: string, found: Option<LinkId>, found2: Option<LinkId>,
                                            req: Request, probes: Probes, now: Time, now2: Time, stored: bool)
    requires IsLookup(db.links, token, found) && SingleMatch(db.links, token)
    requires Resolve(db, token, found, req, probes, now, stored).outcome == Gone
    requires IsLookup(Resolve(db, token, found, req, probes, now, stored).db.links, token, found2)
    ensures var db1 := Resolve(db, token, found, req, probes, now, stored).db;
      Resolve(db1, token, found2, req, probes, now2, stored) == Resolution(NotFound, db1)
  {
    var db1 := Resolve(db, token, found, req, probes, now, stored).db;
    var id := found.value;
    assert db1.links[id].isActive == false;
  }

  /** Every event of a record stands for one counted click. */
  ghost predicate ClicksCoverEvents(db: Db) {
    forall id :: id in db.links ==> |LinkEvents(db.events, id)| <= db.links[id].clickCount
  }

  /** Each record's click count equals the number of its events. */
  ghost predicate ClicksMatchEvents(db: Db) {
    forall id :: id in db.links ==> |LinkEvents(db.events, id)| == db.links[id].clickCount
  }

  /** Resolving never records an event without counting its click, and when
      every analytics write goes through, counts and events stay in step. */
  lemma {:induction false} ResolveKeepsClickLedger(db: Db, token: string, found: Option<LinkId>, req: Request, probes: Probes, now: Time, stored: bool)
    requires IsLookup(db.links, token, found)
    ensures var r := Resolve(db, token, found, req, probes, now, stored);
      && (ClicksCoverEvents(db) ==> ClicksCoverEvents(r.db))
      && (ClicksMatchEvents(db) && stored ==> ClicksMatchEvents(r.db))
  {
    var r := Resolve(db, token, found, req, probes, now, stored);
    if r.outcome.Redirect? && stored {
      var e := r.db.events[|db.events|];
      assert r.db.events == db.events + [e];
      forall id | id in db.links
        ensures |LinkEvents(r.db.events, id)| == |LinkEvents(db.events, id)| + (if found == Some(id) then 1 else 0)
      {
        LinkEventsAppend(db.events, e, id);
      }
    }
  }
}
