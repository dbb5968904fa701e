/** The owner-only analytics reports (backend/src/controllers/analytics.controller.js):
    a summary, a per-day series and per-field breakdowns of one link's
    events. Each is a read of the collections and returns only a reply. */
module AnalyticsController {
  import opened Common
  import opened UrlModel
  import opened AnalyticsModel
  import opened Response
  import opened Tally

  const NotOwnedMessage := "URL not found or unauthorized"

  /** `validateUrlOwnership`: the link exists and belongs to the requester. */
  predicate ValidateUrlOwnership(links: Links, id: LinkId, user: UserId) {
    Owned(links, id, user)
  }

  // ---------------------------------------------------------------- summary

  datatype Summary = Summary(totalClicks: nat, uniqueUsers: nat)

  /** `distinct("ip", ...)`: the addresses recorded among `evs`; an event
      stored without an address contributes nothing. */
  function DistinctIps(evs: seq<Event>): set<string>
    decreases |evs|
  {
    if |evs| == 0 then {}
    else
      var last := evs[|evs| - 1].visitor.ip;
      DistinctIps(evs[..|evs| - 1]) + (if last.Some? then {last.value} else {})
  }

  /** The distinct addresses are exactly those some event recorded. */
  lemma {:induction false} DistinctIpsMembers(evs: seq<Event>, x: string)
    ensures x in DistinctIps(evs) <==> exists i :: 0 <= i < |evs| && evs[i].visitor.ip == Some(x)
    decreases |evs|
  {
    if |evs| > 0 {
      var init := evs[..|evs| - 1];
      DistinctIpsMembers(init, x);
      if exists i :: 0 <= i < |init| && init[i].visitor.ip == Some(x) {
        var i :| 0 <= i < |init| && init[i].visitor.ip == Some(x);
        assert evs[i] == init[i];
      }
      if exists i :: 0 <= i < |evs| && evs[i].visitor.ip == Some(x) {
        var i :| 0 <= i < |evs| && evs[i].visitor.ip == Some(x);
        if i < |init| {
          assert init[i] == evs[i];
        }
      }
    }
  }

  /** There are never more distinct addresses than events. */
  lemma {:induction false} DistinctIpsBound(evs: seq<Event>)
    ensures |DistinctIps(evs)| <= |evs|
    decreases |evs|
  {
    if |evs| > 0 {
      DistinctIpsBound(evs[..|evs| - 1]);
    }
  }

  /** `getSummary`: 404 unless owned; otherwise the link's event count and
      the number of distinct addresses among its events. */
  function GetSummary(links: Links, events: seq<Event>, id: LinkId, user: UserId): (r: Envelope<Summary>)
    ensures !ValidateUrlOwnership(links, id, user) ==> r == Fail(NotOwnedMessage, 404)
    ensures ValidateUrlOwnership(links, id, user) ==>
      r.status == 200 && r.data.Some?
      && r.data.value.totalClicks == |LinkEvents(events, id)| == Occ(Urls(events), id)
      && r.data.value.uniqueUsers == |DistinctIps(LinkEvents(events, id))|
      && r.data.value.uniqueUsers <= r.data.value.totalClicks
  {
    if !ValidateUrlOwnership(links, id, user) then Fail(NotOwnedMessage, 404)
    else
      var evs := LinkEvents(events, id);
      DistinctIpsBound(evs);
      LinkEventsCount(events, id);
      Success(Summary(|evs|, |DistinctIps(evs)|), None)
  }

  // ------------------------------------------------------------ daily chart

  const MsPerDay := 86_400_000

  /** The UTC calendar day of an instant, counted from 1970-01-01: the day
      whose 86 400 000 milliseconds contain it, before the epoch too. The
      `%Y-%m-%d` string of that day sorts the same way for four-digit years. */
  function UtcDay(t: Time): (d: int)
    ensures MsPerDay * d <= t < MsPerDay * (d + 1)
  {
    t / MsPerDay
  }

  /** The day of each event, in order. */
  function EventDays(evs: seq<Event>): (days: seq<int>)
    ensures |days| == |evs|
  {
    seq(|evs|, i requires 0 <= i < |evs| => UtcDay(evs[i].timestamp))
  }

  /** `getDailyChart`: 404 unless owned; otherwise one point per day that has
      events, in ascending day order, with that day's event count. */
  function GetDailyChart(links: Links, events: seq<Event>, id: LinkId, user: UserId)
    : (r: Envelope<seq<Bucket<int>>>)
    ensures !ValidateUrlOwnership(links, id, user) ==> r == Fail(NotOwnedMessage, 404)
    ensures ValidateUrlOwnership(links, id, user) ==>
      r.status == 200 && r.data.Some?
      && Ascending(r.data.value) && Positive(r.data.value)
      && Sum(r.data.value) == |LinkEvents(events, id)|
      && forall d :: CountOf(r.data.value, d) == Occ(EventDays(LinkEvents(events, id)), d)
  {
    if !ValidateUrlOwnership(links, id, user) then Fail(NotOwnedMessage, 404)
    else Success(GroupCountSorted(EventDays(LinkEvents(events, id))), None)
  }

  /** The chart lists a day exactly when some event of the link falls on it,
      and its point counts exactly the events of that day. */
  lemma {:induction false} ChartListsExactlyTheBusyDays(links: Links, events: seq<Event>, id: LinkId, user: UserId, d: int)
    requires ValidateUrlOwnership(links, id, user)
    ensures var chart := GetDailyChart(links, events, id, user).data.value;
      && (d in Keys(chart) <==> exists i :: 0 <= i < |LinkEvents(events, id)| && UtcDay(LinkEvents(events, id)[i].timestamp) == d)
      && (forall i :: 0 <= i < |chart| ==> chart[i].count == Occ(EventDays(LinkEvents(events, id)), chart[i].key))
  {
    var evs := LinkEvents(events, id);
    var chart := GetDailyChart(links, events, id, user).data.value;
    var days := EventDays(evs);
    assert d in days <==> exists i :: 0 <= i < |evs| && UtcDay(evs[i].timestamp) == d by {
      if d in days {
        var i :| 0 <= i < |days| && days[i] == d;
        assert UtcDay(evs[i].timestamp) == d;
      }
      if exists i :: 0 <= i < |evs| && UtcDay(evs[i].timestamp) == d {
        var i :| 0 <= i < |evs| && UtcDay(evs[i].timestamp) == d;
        assert days[i] == d;
      }
    }
    forall i | 0 <= i < |chart| ensures chart[i].count == Occ(days, chart[i].key) {
      CountOfBucket(chart, i);
    }
    assert chart == GroupCountSorted(days);
    assert d in Keys(chart) <==> d in days;
    assert evs == LinkEvents(events, id);
    assert d in Keys(chart) <==> exists i :: 0 <= i < |evs| && UtcDay(evs[i].timestamp) == d;
  }

  /** Three events around a UTC midnight (2024-01-01T23:59Z, 2024-01-02T00:01Z
      and 2024-01-02T12:00Z) fall into two days, counted 1 and 2. */
  lemma MidnightSplitsDays()
    ensures GroupCountSorted([UtcDay(1_704_153_540_000), UtcDay(1_704_153_660_000), UtcDay(1_704_196_800_000)])
         == [Bucket(19723, 1), Bucket(19724, 2)]
  {
    assert UtcDay(1_704_153_540_000) == 19723;
    assert UtcDay(1_704_153_660_000) == 19724;
    assert UtcDay(1_704_196_800_000) == 19724;
    var ks := [19723, 19724, 19724];
    assert ks[..2] == [19723, 19724];
    assert [19723, 19724][..1] == [19723];
    assert [19723][..0] == [];
    assert GroupCountSorted([19723]) == [Bucket(19723, 1)];
    assert GroupCountSorted([19723, 19724]) == BumpSorted([Bucket(19723, 1)], 19724) == [Bucket(19723, 1), Bucket(19724, 1)];
    assert GroupCountSorted(ks) == BumpSorted([Bucket(19723, 1), Bucket(19724, 1)], 19724);
  }

  // -------------------------------------------------------------- breakdown

  /** One row of a breakdown: `{name, value}`. */
  datatype Row = Row(name: string, value: nat)

  datatype Breakdown = Breakdown(byDevice: seq<Row>, byCountry: seq<Row>, byBrowser: seq<Row>)

  const Unknown := "Unknown"

  /** `item._id || 'Unknown'`: a missing, null or empty group key shows as "Unknown". */
  function DisplayName(k: Option<string>): (name: string)
    ensures Present(k) ==> name == k.value
    ensures name == Unknown <==> !Present(k) || k.value == Unknown
  {
    if Present(k) then k.value else Unknown
  }

  /** The key class of the groups shown under `name`. */
  function ShownAs(name: string): Option<string> -> bool {
    k => DisplayName(k) == name
  }

  /** `formatData`: one row per group, in the same order, nothing dropped. */
  function FormatData(t: seq<Bucket<Option<string>>>): (rows: seq<Row>)
    ensures |rows| == |t|
    ensures forall i :: 0 <= i < |t| ==> rows[i].value == t[i].count
    ensures forall i :: 0 <= i < |t| && !Present(t[i].key) ==> rows[i].name == Unknown
    ensures forall i :: 0 <= i < |t| && Present(t[i].key) ==> rows[i].name == t[i].key.value
  {
    seq(|t|, i requires 0 <= i < |t| => Row(DisplayName(t[i].key), t[i].count))
  }

  /** The sum of all row values. */
  function RowSum(rows: seq<Row>): nat {
    if |rows| == 0 then 0 else rows[0].value + RowSum(rows[1..])
  }

  /** The sum of the values of the rows shown under `name`. */
  function NamedSum(rows: seq<Row>, name: string): nat {
    if |rows| == 0 then 0 else (if rows[0].name == name then rows[0].value else 0) + NamedSum(rows[1..], name)
  }

  /** Formatting keeps the total, and each name totals the groups shown under it. */
  lemma {:induction false} FormatKeepsCounts(t: seq<Bucket<Option<string>>>, name: string)
    ensures RowSum(FormatData(t)) == Sum(t)
    ensures NamedSum(FormatData(t), name) == SumWhere(t, ShownAs(name))
  {
    if |t| > 0 {
      FormatKeepsCounts(t[1..], name);
      assert FormatData(t)[1..] == FormatData(t[1..]);
    }
  }

  /** One field of each event. */
  function Devices(evs: seq<Event>): seq<Option<string>> {
    seq(|evs|, i requires 0 <= i < |evs| => evs[i].visitor.device)
  }

  function Countries(evs: seq<Event>): seq<Option<string>> {
    seq(|evs|, i requires 0 <= i < |evs| => evs[i].visitor.country)
  }

  function Browsers(evs: seq<Event>): seq<Option<string>> {
    seq(|evs|, i requires 0 <= i < |evs| => evs[i].visitor.browser)
  }

  /** Group one field's values and format them. */
  function BreakdownOf(values: seq<Option<string>>): (rows: seq<Row>)
    ensures RowSum(rows) == |values|
    ensures forall name :: NamedSum(rows, name) == OccWhere(values, ShownAs(name))
  {
    var t := GroupCount(values);
    FormatKeepsCounts(t, Unknown);
    forall name ensures NamedSum(FormatData(t), name) == OccWhere(values, ShownAs(name)) {
      FormatKeepsCounts(t, name);
      GroupCountSumWhere(values, ShownAs(name));
    }
    FormatData(t)
  }

  /** `getBreakdown`: 404 unless owned; otherwise the link's events grouped by
      device, by country and by browser. Every breakdown totals the link's
      event count, and each name totals the events shown under it, so events
      without the field are counted under "Unknown". */
  function GetBreakdown(links: Links, events: seq<Event>, id: LinkId, user: UserId): (r: Envelope<Breakdown>)
    ensures !ValidateUrlOwnership(links, id, user) ==> r == Fail(NotOwnedMessage, 404)
    ensures ValidateUrlOwnership(links, id, user) ==>
      var evs := LinkEvents(events, id);
      && r.status == 200 && r.data.Some?
      && RowSum(r.data.value.byDevice) == |evs|
      && RowSum(r.data.value.byCountry) == |evs|
      && RowSum(r.data.value.byBrowser) == |evs|
      && (forall name :: NamedSum(r.data.value.byDevice, name) == OccWhere(Devices(evs), ShownAs(name)))
      && (forall name :: NamedSum(r.data.value.byCountry, name) == OccWhere(Countries(evs), ShownAs(name)))
      && (forall name :: NamedSum(r.data.value.byBrowser, name) == OccWhere(Browsers(evs), ShownAs(name)))
  {
    if !ValidateUrlOwnership(links, id, user) then Fail(NotOwnedMessage, 404)
    else
      var evs := LinkEvents(events, id);
      Success(Breakdown(BreakdownOf(Devices(evs)), BreakdownOf(Countries(evs)), BreakdownOf(Browsers(evs))), None)
  }

  /** A null key and an empty-string key are separate groups, and both are
      shown as "Unknown": the same name can appear on two rows. */
  lemma TwoUnknownRows()
    ensures FormatData(GroupCount([None, Some("")])) == [Row(Unknown, 1), Row(Unknown, 1)]
  {
    var ks: seq<Option<string>> := [None, Some("")];
    var one: seq<Option<string>> := [None];
    assert ks[..1] == one;
    assert one[..0] == [];
    assert GroupCount(one) == [Bucket(None, 1)];
    assert GroupCount(ks) == Bump([Bucket(None, 1)], Some("")) == [Bucket(None, 1), Bucket(Some(""), 1)];
  }

  /** All three reports refuse a link the requester does not own, with the
      same reply, before looking at any event. */
  lemma NotOwnedIsRefused(links: Links, events: seq<Event>, id: LinkId, user: UserId)
    requires !ValidateUrlOwnership(links, id, user)
    ensures GetSummary(links, events, id, user).status == 404
    ensures GetDailyChart(links, events, id, user).status == 404
    ensures GetBreakdown(links, events, id, user).status == 404
    ensures GetSummary(links, events, id, user).message == NotOwnedMessage
    ensures GetSummary(links, [], id, user) == GetSummary(links, events, id, user)
  {
  }
}
