/** Building and storing one analytics event for a redirect
    (backend/src/services/analytics.service.js). */
module AnalyticsService {
  import opened Common
  import opened AnalyticsModel

  /** The parts of the incoming request the recorder reads. */
  datatype Request = Request(
    forwardedFor: Option<string>,
    remoteAddress: Option<string>,
    userAgent: Option<string>,
    referer: Option<string>)

  /** What the user-agent parser reports; each part may be missing. */
  datatype UaInfo = UaInfo(deviceType: Option<string>, osName: Option<string>, browserName: Option<string>)

  /** The geo-IP lookup (the `country` of its answer) and the user-agent parser,
      both left uninterpreted. */
  datatype Probes = Probes(geoCountry: Option<string> -> Option<string>, parseUa: Option<string> -> UaInfo)

  const DefaultDevice := "desktop"

  /** The client address: the raw `x-forwarded-for` header when it is
      non-empty, otherwise the socket's address; never split or normalised. */
  function ClientIp(req: Request): (ip: Option<string>)
    ensures Present(req.forwardedFor) ==> ip == req.forwardedFor
    ensures !Present(req.forwardedFor) ==> ip == req.remoteAddress
  {
    Or(req.forwardedFor, req.remoteAddress)
  }

  /** The visitor fields derived from the request. */
  function VisitorOf(req: Request, probes: Probes): (v: Visitor)
    ensures v.ip == ClientIp(req) && v.userAgent == req.userAgent
    ensures !Present(req.referer) ==> v.referrer.None?
    ensures Present(req.referer) ==> v.referrer == req.referer
    ensures !Present(probes.geoCountry(v.ip)) ==> v.country.None?
    ensures Present(probes.geoCountry(v.ip)) ==> v.country == probes.geoCountry(v.ip)
    ensures var ua := probes.parseUa(req.userAgent);
      && (!Present(ua.deviceType) ==> v.device == Some(DefaultDevice))
      && (Present(ua.deviceType) ==> v.device == ua.deviceType)
      && v.os == ua.osName && v.browser == ua.browserName
  {
    var ua := probes.parseUa(req.userAgent);
    var ip := ClientIp(req);
    Visitor(
      ip,
      req.userAgent,
      Or(req.referer, None),
      Or(probes.geoCountry(ip), None),
      Or(ua.deviceType, Some(DefaultDevice)),
      ua.osName,
      ua.browserName)
  }

  /** `logAnalytics(req, urlDoc)` at instant `now`. `stored` says whether
      parsing, lookup and insert went through; a failure is swallowed and
      leaves the events as they were. */
  function LogAnalytics(events: seq<Event>, url: LinkId, req: Request, probes: Probes, now: Time, stored: bool)
    : (r: seq<Event>)
    ensures stored ==> |r| == |events| + 1
    ensures !stored ==> r == events
    ensures r[..|events|] == events
    ensures stored ==> r[|events|].url == url && r[|events|].timestamp == now
    ensures stored ==> r[|events|].visitor == VisitorOf(req, probes)
  {
    if stored then events + [NewEvent(url, VisitorOf(req, probes), now)] else events
  }

  /** The forwarding header is stored verbatim, a whole chain included. */
  lemma ForwardingChainKept(req: Request)
    requires req.forwardedFor == Some("203.0.113.7, 10.0.0.1")
    ensures ClientIp(req) == Some("203.0.113.7, 10.0.0.1")
  {
  }
}
