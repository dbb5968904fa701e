/** The expiry predicate (backend/src/utils/urlExpiry.js), with the clock as
    an explicit parameter. */
module UrlExpiry {
  import opened Common
  import opened UrlModel

  /** A record is expired when it has an expiry date and `now` is strictly after it. */
  predicate IsExpired(l: Link, now: Time) {
    l.expiryDate.Some? && now > l.expiryDate.value
  }

  /** Without an expiry date a record never expires. */
  lemma NoExpiryNeverExpires(l: Link, now: Time)
    requires l.expiryDate.None?
    ensures !IsExpired(l, now)
  {
  }

  /** With an expiry date, a record is expired exactly when `now` is past it;
      at the expiry instant itself it is still live. */
  lemma ExpiredIffPast(l: Link, now: Time)
    requires l.expiryDate.Some?
    ensures IsExpired(l, now) <==> now > l.expiryDate.value
    ensures now == l.expiryDate.value ==> !IsExpired(l, now)
  {
  }

  /** Once expired, a record stays expired at every later instant. */
  lemma ExpiryMonotone(l: Link, t: Time, t': Time)
    requires IsExpired(l, t) && t <= t'
    ensures IsExpired(l, t')
  {
  }

  /** Expiry reads only the expiry date: records that agree on it agree on expiry. */
  lemma ExpiryDependsOnlyOnDate(l: Link, l': Link, now: Time)
    requires l.expiryDate == l'.expiryDate
    ensures IsExpired(l, now) == IsExpired(l', now)
  {
  }
}
