/** `POST /api/unlock/:shortId` (backend/src/controllers/unlock.controller.js):
    release the target of a password-protected record. It is read-only: it
    returns a reply and no collection. */
module Unlock {
  import opened Common
  import opened UrlModel
  import opened UrlExpiry
  import opened Response

  /** The `data` of a successful unlock. */
  datatype Unlocked = Unlocked(originalUrl: string)

  /** `bcrypt.compare(undefined, hash)` throws this, answered with 500. */
  const MissingPasswordMessage := "Illegal arguments: undefined, string"

  /** Unlock `token` with the password from the body (absent when the body has none). */
  function UnlockUrl(links: Links, token: string, found: Option<LinkId>, password: Option<string>, bcrypt: Bcrypt)
    : (r: Envelope<Unlocked>)
    requires IsLookup(links, token, found)
    ensures r.status == 404 <==> found.None? || !links[found.value].isActive
    ensures r.status == 400 <==> found.Some? && links[found.value].isActive && !HasPassword(links[found.value])
    ensures r.status == 500 <==>
      found.Some? && links[found.value].isActive && HasPassword(links[found.value]) && password.None?
    ensures r.status == 403 <==>
      found.Some? && links[found.value].isActive && HasPassword(links[found.value]) && password.Some?
      && !bcrypt.compare(password.value, links[found.value].password.value)
    ensures r.status == 200 <==>
      found.Some? && links[found.value].isActive && HasPassword(links[found.value]) && password.Some?
      && bcrypt.compare(password.value, links[found.value].password.value)
    ensures r.success <==> r.status == 200
    ensures r.status == 200 ==> r.data == Some(Unlocked(links[found.value].originalUrl))
    ensures r.status != 200 ==> r.data.None?
  {
    if found.None? || !links[found.value].isActive then Fail("URL not found or inactive", 404)
    else
      var url := links[found.value];
      if !HasPassword(url) then Fail("This URL is not password protected", 400)
      else if password.None? then Fail(MissingPasswordMessage, 500)
      else if !bcrypt.compare(password.value, url.password.value) then Fail("Wrong password", 403)
      else Success(Unlocked(url.originalUrl), Some("Unlocked"))
  }

  /** Expiry is never consulted: an active, expired, protected record still
      unlocks with the right password. */
  lemma ExpiredStillUnlocks(links: Links, token: string, id: LinkId, password: string, bcrypt: Bcrypt, now: Time)
    requires IsLookup(links, token, Some(id))
    requires links[id].isActive && HasPassword(links[id]) && IsExpired(links[id], now)
    requires bcrypt.compare(password, links[id].password.value)
    ensures UnlockUrl(links, token, Some(id), Some(password), bcrypt).status == 200
  {
  }

  /** With a sound bcrypt, the password a record was protected with unlocks it. */
  lemma {:induction false} HashedPasswordUnlocks(links: Links, token: string, id: LinkId, password: string, salt: nat, bcrypt: Bcrypt)
    requires Sound(bcrypt)
    requires IsLookup(links, token, Some(id)) && links[id].isActive
    requires links[id].password == Some(bcrypt.hash(password, salt)) && bcrypt.hash(password, salt) != ""
    ensures UnlockUrl(links, token, Some(id), Some(password), bcrypt)
         == Success(Unlocked(links[id].originalUrl), Some("Unlocked"))
  {
    assert bcrypt.compare(password, bcrypt.hash(password, salt));
  }
}
