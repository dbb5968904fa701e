/** `GET /api/qr/:id` (backend/src/controllers/qr.controller.js): a QR image
    of the short URL of a record the requester owns. Read-only. */
module QrController {
  import opened Common
  import opened UrlModel
  import opened Response

  const NotOwnedMessage := "URL not found or unauthorized"

  /** The `data` of a successful reply: the image data URL and what it encodes. */
  datatype QrData = QrData(qr: string, shortUrl: string)

  /** `customAlias || shortId`: the path a record is shared under. */
  function SharePath(l: Link): (p: string)
    ensures Matches(l, p)
    ensures Present(l.customAlias) ==> p == l.customAlias.value
    ensures !Present(l.customAlias) ==> p == l.shortId
  {
    if Present(l.customAlias) then l.customAlias.value else l.shortId
  }

  /** `getQrCode`; `toDataUrl` is the QR encoder, left uninterpreted. */
  function GetQrCode(links: Links, id: LinkId, user: UserId, baseUrl: string, toDataUrl: string -> string)
    : (r: Envelope<QrData>)
    ensures !Owned(links, id, user) ==> r == Fail(NotOwnedMessage, 404)
    ensures Owned(links, id, user) ==>
      && r.status == 200 && r.message == "QR generated" && r.data.Some?
      && r.data.value.shortUrl == baseUrl + "/" + SharePath(links[id])
      && r.data.value.qr == toDataUrl(r.data.value.shortUrl)
  {
    if !Owned(links, id, user) then Fail(NotOwnedMessage, 404)
    else
      var shortUrl := baseUrl + "/" + SharePath(links[id]);
      Success(QrData(toDataUrl(shortUrl), shortUrl), Some("QR generated"))
  }

  /** The path in the encoded URL answers to the record, so when no other
      record answers to it, the redirect lookup returns this record. */
  lemma {:induction false} QrPathReachesRecord(links: Links, id: LinkId, user: UserId, baseUrl: string, toDataUrl: string -> string,
                                               found: Option<LinkId>)
    requires Owned(links, id, user)
    ensures var u := GetQrCode(links, id, user, baseUrl, toDataUrl).data.value.shortUrl;
      && |baseUrl| < |u|
      && Matches(links[id], u[|baseUrl| + 1..])
      && (SingleMatch(links, u[|baseUrl| + 1..]) && IsLookup(links, u[|baseUrl| + 1..], found) ==> found == Some(id))
  {
    var u := GetQrCode(links, id, user, baseUrl, toDataUrl).data.value.shortUrl;
    var p := SharePath(links[id]);
    assert u[|baseUrl| + 1..] == p;
  }
}
