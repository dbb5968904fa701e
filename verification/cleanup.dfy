/** The periodic purge (backend/src/services/cleanup.service.js): delete every
    record whose expiry instant has been reached. */
module Cleanup {
  import opened Common
  import opened UrlModel
  import opened UrlExpiry
  import opened AnalyticsModel
  import opened Resolver

  /** The deletion filter `{expiryDate: {$lte: now}}`: a record without an
      expiry date never matches it. */
  predicate DueForCleanup(l: Link, now: Time) {
    l.expiryDate.Some? && l.expiryDate.value <= now
  }

  /** The collections after the purge and the `deletedCount` it logs. */
  datatype Purge = Purge(db: Db, deletedCount: nat)

  /** `cleanupExpiredUrls` at instant `now`; `ok` says whether `deleteMany`
      went through. A failure is only logged, so it leaves everything as it was. */
  function CleanupExpiredUrls(db: Db, now: Time, ok: bool): (r: Purge)
    ensures r.db.events == db.events
    ensures forall id :: id in r.db.links ==> id in db.links && r.db.links[id] == db.links[id]
    ensures ok ==> forall id :: id in db.links ==> (id in r.db.links <==> !DueForCleanup(db.links[id], now))
    ensures !ok ==> r.db == db
    ensures r.deletedCount == |db.links.Keys - r.db.links.Keys|
  {
    if !ok then Purge(db, 0)
    else
      var kept := map id | id in db.links && !DueForCleanup(db.links[id], now) :: db.links[id];
      Purge(db.(links := kept), |db.links.Keys - kept.Keys|)
  }

  /** The purge uses `<=` where `isExpired` uses `>`: a record is due exactly
      when it is expired or its expiry is this very instant. */
  lemma DueIffExpiredOrAtDeadline(l: Link, now: Time)
    ensures DueForCleanup(l, now) <==> IsExpired(l, now) || l.expiryDate == Some(now)
  {
  }

  /** A successful purge removes every expired record, and also the records
      expiring at `now`, which `isExpired` does not yet report expired. */
  lemma {:induction false} PurgeRemovesExpired(db: Db, now: Time, id: LinkId)
    requires id in db.links
    requires IsExpired(db.links[id], now) || db.links[id].expiryDate == Some(now)
    ensures id !in CleanupExpiredUrls(db, now, true).db.links
    ensures db.links[id].expiryDate == Some(now) ==> !IsExpired(db.links[id], now)
  {
    DueIffExpiredOrAtDeadline(db.links[id], now);
  }

  /** Records with no expiry, or one still in the future, survive unchanged. */
  lemma PurgeKeepsLiveRecords(db: Db, now: Time, ok: bool, id: LinkId)
    requires id in db.links
    requires db.links[id].expiryDate.None? || db.links[id].expiryDate.value > now
    ensures id in CleanupExpiredUrls(db, now, ok).db.links
    ensures CleanupExpiredUrls(db, now, ok).db.links[id] == db.links[id]
  {
  }

  /** Purging twice at the same instant deletes nothing the second time. */
  lemma {:induction false} PurgeIdempotent(db: Db, now: Time, ok: bool)
    ensures var once := CleanupExpiredUrls(db, now, true).db;
      CleanupExpiredUrls(once, now, ok).db == once
      && CleanupExpiredUrls(once, now, ok).deletedCount == 0
  {
    var once := CleanupExpiredUrls(db, now, true).db;
    var twice := CleanupExpiredUrls(once, now, ok).db;
    assert twice.links.Keys == once.links.Keys;
    assert once.links.Keys - twice.links.Keys == {};
  }

  /** The events of a purged record stay behind: deletion does not cascade. */
  lemma PurgeKeepsEvents(db: Db, now: Time, ok: bool, id: LinkId)
    ensures LinkEvents(CleanupExpiredUrls(db, now, ok).db.events, id) == LinkEvents(db.events, id)
  {
  }
}
