/** One click event and the queries over the event collection
    (backend/src/models/analytics.model.js). */
module AnalyticsModel {
  import opened Common
  import opened Tally

  /** What is recorded about the visitor; every field is an optional string. */
  datatype Visitor = Visitor(
    ip: Option<string>,
    userAgent: Option<string>,
    referrer: Option<string>,
    country: Option<string>,
    device: Option<string>,
    os: Option<string>,
    browser: Option<string>)

  /** One analytics event: the link it belongs to, when it happened, who visited,
      and the `createdAt`/`updatedAt` stamps the schema adds. */
  datatype Event = Event(url: LinkId, timestamp: Time, visitor: Visitor, createdAt: Time, updatedAt: Time)

  /** `Analytics.create({url, ...visitor})` at instant `now`: `timestamp`
      defaults to the insertion time, as do both schema timestamps. */
  function NewEvent(url: LinkId, visitor: Visitor, now: Time): (e: Event)
    ensures e.url == url && e.visitor == visitor
    ensures e.timestamp == now && e.createdAt == now && e.updatedAt == now
  {
    Event(url, now, visitor, now, now)
  }

  /** The events of one link, in insertion order (`find({url: id})`). */
  function LinkEvents(events: seq<Event>, id: LinkId): (r: seq<Event>)
    ensures |r| <= |events|
    ensures forall i :: 0 <= i < |r| ==> r[i].url == id && r[i] in events
    decreases |events|
  {
    if |events| == 0 then []
    else
      var init := LinkEvents(events[..|events| - 1], id);
      if events[|events| - 1].url == id then init + [events[|events| - 1]] else init
  }

  /** Appending one event adds it to its own link's events and to no other's. */
  lemma {:induction false} LinkEventsAppend(events: seq<Event>, e: Event, id: LinkId)
    ensures LinkEvents(events + [e], id) == LinkEvents(events, id) + (if e.url == id then [e] else [])
  {
    assert (events + [e])[..|events|] == events;
  }

  /** The per-link query keeps every event of `id` as often as the collection
      holds it, and no event of another link. */
  lemma {:induction false} LinkEventsComplete(events: seq<Event>, id: LinkId, e: Event)
    ensures multiset(LinkEvents(events, id))[e] == if e.url == id then multiset(events)[e] else 0
    decreases |events|
  {
    if |events| > 0 {
      var init := events[..|events| - 1];
      var last := events[|events| - 1];
      LinkEventsComplete(init, id, e);
      assert events == init + [last];
      assert multiset(events) == multiset(init) + multiset{last};
    }
  }

  /** The link each event belongs to, in order. */
  function Urls(events: seq<Event>): (us: seq<LinkId>)
    ensures |us| == |events|
    ensures forall i :: 0 <= i < |events| ==> us[i] == events[i].url
  {
    seq(|events|, i requires 0 <= i < |events| => events[i].url)
  }

  /** `countDocuments({url: id})`: the query returns as many events as there
      are events stored for `id`. */
  lemma {:induction false} LinkEventsCount(events: seq<Event>, id: LinkId)
    ensures |LinkEvents(events, id)| == Occ(Urls(events), id)
    decreases |events|
  {
    if |events| > 0 {
      var init := events[..|events| - 1];
      LinkEventsCount(init, id);
      assert Urls(events)[..|events| - 1] == Urls(init);
    }
  }
}
