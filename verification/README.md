# Shortify backend, modelled in Dafny

Shortify is a URL shortener with an Express/MongoDB backend. Signed-in users
create short links to long URLs. A link can carry a custom alias, a password,
an expiry date and a privacy flag. Visitors reach the target through
`GET /:shortId`, which counts the click and records an analytics event.
Owners list, edit, deactivate and delete their links and read per-link
reports.

This project models that backend as pure functions over immutable
collections:

- the `Url` collection is a map from `_id` to `Link`;
- the analytics collection is a sequence of `Event`s in insertion order;
- the accounts are a map from email to `User`.

Every handler takes the collections and the request, and returns the reply
together with the collections afterwards. Read-only handlers return only the
reply.

The environment enters as parameters:

- The clock is an explicit `now` in milliseconds.
- A MongoDB `findOne` that may match several records is an oracle argument `found`. The ghost predicate `IsLookup` constrains it: any matching record may be returned, and nothing is returned only when nothing matches.
- bcrypt, jsonwebtoken, geoip-lite, ua-parser-js, QRCode and nanoid become function-valued parameters (`Bcrypt`, `Jwt`, `Probes`, `toDataUrl`) or fresh values (`Generated`).
- The fire-and-forget analytics write is a synchronous append. A `stored` flag says whether it went through.
- JavaScript truthiness is written out. `Present` stands for a truthy optional string, `Or` for `||`, and `Truthy` for `Boolean(v)` on a JSON scalar.

Modules, one per source file:

| module | file | source |
|---|---|---|
| `Common` | common.dfy | shared vocabulary: options, truthiness, library oracles |
| `Response` | response.dfy | backend/src/utils/response.js |
| `UrlModel` | url_model.dfy | backend/src/models/url.model.js |
| `UrlExpiry` | url_expiry.dfy | backend/src/utils/urlExpiry.js |
| `AnalyticsModel` | analytics_model.dfy | backend/src/models/analytics.model.js |
| `AnalyticsService` | analytics_service.dfy | backend/src/services/analytics.service.js |
| `Resolver` | resolver.dfy | backend/src/app.js (the redirect handler) |
| `Unlock` | unlock.dfy | backend/src/controllers/unlock.controller.js |
| `UrlController` | url_controller.dfy | backend/src/controllers/url.controller.js |
| `Tally` | tally.dfy | the `$group`/`$sum` aggregation stages |
| `AnalyticsController` | analytics_controller.dfy | backend/src/controllers/analytics.controller.js |
| `Cleanup` | cleanup.dfy | backend/src/services/cleanup.service.js |
| `QrController` | qr_controller.dfy | backend/src/controllers/qr.controller.js |
| `AuthMiddleware` | auth_middleware.dfy | backend/src/middlewares/auth.middleware.js |
| `AuthController` | auth_controller.dfy | backend/src/controllers/auth.controller.js |
| `Scenarios` | scenarios.dfy | properties of request sequences across handlers |

Some consequences of the code that a reader might not expect, each stated as
a lemma:

- Only a non-empty password gates the redirect. The privacy flag is stored and echoed in replies, but no access decision consults it (`Resolver.PrivacyDoesNotGate`, `Scenarios.PublicLinkStaysLocked`).
- Alias uniqueness is checked against other aliases only, never against short identifiers. `updateAlias` also skips the creation-time format rules (`Scenarios.AliasCanShadowShortId`, `UrlController.UpdateAliasSkipsFormat`). A token can therefore match two records (`UrlModel.AmbiguousLookup`).
- The client address is the raw `x-forwarded-for` header, a whole chain included. It is neither split nor normalised (`AnalyticsService.ForwardingChainKept`).
- Deleting or purging a link leaves its analytics events in place (`Cleanup.PurgeKeepsEvents`).
- Deactivation on expiry is not one-way: extending the expiry and toggling revives the link (`UrlController.ExtendThenToggleReactivates`).
- The purge deletes at `expiryDate <= now`, while `isExpired` needs `now > expiryDate` (`Cleanup.DueIffExpiredOrAtDeadline`).

## Model

| member | source | states |
|---|---|---|
| Response.Success | backend/src/utils/response.js:1-3 | status 200 with `success` true and the data attached; an omitted message becomes "OK" |
| Response.Error | backend/src/utils/response.js:5-7 | no data, `success` false; an omitted code becomes 400 and an omitted message "Something went wrong" |
| Response.EnvelopesConsistent | backend/src/utils/response.js:1-7 | every success reply, and every error reply whose code is not 200, reports success exactly when its status is 200 |
| UrlModel.NewLink | backend/src/models/url.model.js:3-24 | a new record is active, has 0 clicks and is stamped `now`; privacy defaults to false and password and expiry to null; supplied fields are kept |
| UrlModel.Insert | backend/src/models/url.model.js:4-13 | an insert succeeds exactly when `originalUrl` and `shortId` are non-empty and both `_id` and `shortId` are unused; it adds only that record and keeps short identifiers unique |
| UrlModel.Matches | backend/src/app.js:22-24 | a record answers to a token through its short identifier or its custom alias |
| UrlModel.IsLookup | backend/src/app.js:22-24 | the legal answers of `findOne` with `$or`: any record that answers to the token, and nothing only when no record does |
| UrlModel.AliasTaken | backend/src/controllers/url.controller.js:26 | `findOne({customAlias})` finds a record: some record holds the alias (also line 111) |
| UrlModel.Owned | backend/src/controllers/url.controller.js:67 | `findOne({_id: id, user})` finds a record: the id is stored and the caller owns it (also lines 79, 92, 114, 133, 156) |
| UrlModel.HasPassword | backend/src/app.js:37 | only a non-empty stored hash protects a record |
| UrlModel.AmbiguousLookup | backend/src/app.js:22-24 | when two records answer to one token, either is a legal result of the `$or` lookup |
| UrlModel.SingleMatchDeterminesLookup | backend/src/app.js:22-24 | with at most one matching record, the lookup result is unique |
| UrlExpiry.IsExpired | backend/src/utils/urlExpiry.js:1-4 | a record is expired when it has an expiry date and `now` is strictly after it |
| UrlExpiry.NoExpiryNeverExpires | backend/src/utils/urlExpiry.js:2 | a record without an expiry date is never expired |
| UrlExpiry.ExpiredIffPast | backend/src/utils/urlExpiry.js:3 | with an expiry date, expired exactly when `now` is strictly after it; at the instant itself the record is live |
| UrlExpiry.ExpiryMonotone | backend/src/utils/urlExpiry.js:1-4 | an expired record stays expired at every later instant |
| UrlExpiry.ExpiryDependsOnlyOnDate | backend/src/utils/urlExpiry.js:1-4 | records with the same expiry date agree on expiry |
| AnalyticsModel.NewEvent | backend/src/models/analytics.model.js:3-16 | a new event keeps its link and visitor fields; `timestamp`, `createdAt` and `updatedAt` are the insertion instant |
| AnalyticsModel.LinkEvents | backend/src/controllers/analytics.controller.js:17 | the per-link query returns only events of that link, drawn from the collection |
| AnalyticsModel.LinkEventsComplete | backend/src/controllers/analytics.controller.js:17 | as multisets, the per-link query holds every event of the link exactly as often as the collection does, and no event of another link |
| AnalyticsModel.LinkEventsCount | backend/src/controllers/analytics.controller.js:17 | the query returns as many events as the link's id occurs among the events' links (`Tally.Occ`) |
| AnalyticsService.ClientIp | backend/src/services/analytics.service.js:8 | the address is the forwarding header when it is non-empty, otherwise the socket address |
| AnalyticsService.VisitorOf | backend/src/services/analytics.service.js:7-20 | an empty referer or country becomes null; an unknown device becomes "desktop"; OS and browser come from the parser; the user agent is kept verbatim |
| AnalyticsService.LogAnalytics | backend/src/services/analytics.service.js:5-24 | a stored write appends exactly one event for the link, stamped `now`, with the derived visitor; a failed write changes nothing; earlier events never change |
| AnalyticsService.ForwardingChainKept | backend/src/services/analytics.service.js:8 | a comma-separated forwarding chain is recorded whole |
| Resolver.Status | backend/src/app.js:27-42 | the status of each outcome: 404, 410, 401, or the 302 redirect |
| Resolver.Message | backend/src/app.js:27-42 | the JSON message of each refusal; a redirect has none |
| Resolver.Protected | backend/src/app.js:38-42 | only the 401 reply carries `protected: true` |
| Resolver.Resolve | backend/src/app.js:17-55 | checks run in order (missing or inactive → 404, expired → 410, password → 401, else 302), each as an if-and-only-if; 410 deactivates the record; 302 adds one click and logs one event; 404 and 401 write nothing |
| Resolver.ResolveFrame | backend/src/app.js:26-51 | no record is added or removed; no other record changes; click counts never fall and rise only on a redirect, by one |
| Resolver.AnalyticsOnlyOnRedirect | backend/src/app.js:45-49 | existing events are kept; only a redirect appends, one event for the found record when the write is stored |
| Resolver.ExpiredBeatsPassword | backend/src/app.js:31-43 | an active, expired, protected record gets 410, not 401 |
| Resolver.InactiveBeatsExpired | backend/src/app.js:26-36 | an inactive record gets 404 with nothing written, even when expired |
| Resolver.PrivacyDoesNotGate | backend/src/app.js:26-51 | changing the privacy flag never changes the outcome |
| Resolver.LoggingIsInvisible | backend/src/app.js:49 | whether the analytics write succeeds changes neither the outcome nor the links |
| Resolver.GoneThenNotFound | backend/src/app.js:26-35 | after a 410, resolving the same unambiguous token again gives 404 and writes nothing |
| Resolver.ResolveKeepsClickLedger | backend/src/app.js:45-49 | resolving keeps "no more events than counted clicks"; with the write stored it keeps "events equal clicks" |
| Unlock.UnlockUrl | backend/src/controllers/unlock.controller.js:5-24 | each reply as an if-and-only-if: missing or inactive → 404; unprotected → 400; absent password → 500 (bcrypt throws); mismatch → 403; match → 200 with the target |
| Unlock.ExpiredStillUnlocks | backend/src/controllers/unlock.controller.js:14-20 | expiry is not checked: an expired, active, protected record unlocks with the right password |
| Unlock.HashedPasswordUnlocks | backend/src/controllers/unlock.controller.js:17-20 | with a sound bcrypt, the password whose hash is stored unlocks the record |
| Common.Utf16Length | backend/src/controllers/url.controller.js:12 | JavaScript's string length counts at least one and at most two code units per character |
| Common.Utf16LengthOfBmp | backend/src/controllers/url.controller.js:12 | on text of the Basic Multilingual Plane, the code-unit length is the character count |
| Common.Utf16LengthConcat | backend/src/controllers/url.controller.js:12 | code-unit lengths add up over concatenation |
| Common.ThreeEmojiAreSixUnits | backend/src/controllers/url.controller.js:12 | three characters outside the Basic Multilingual Plane are six code units, so such a password meets the 6-unit minimum |
| UrlController.ValidAlias | backend/src/controllers/url.controller.js:9 | an absent alias is valid; a present one is alphanumeric and 3 to 20 units long |
| UrlController.ValidPassword | backend/src/controllers/url.controller.js:12 | an absent password is valid; a present one is at least 6 UTF-16 units long |
| UrlController.CreateSchema | backend/src/controllers/url.controller.js:7-13 | a body is valid exactly when the URL is a non-empty URI, any alias is alphanumeric and 3 to 20 units long, and any password is at least 6 UTF-16 units long |
| UrlController.CreatedLink | backend/src/controllers/url.controller.js:31-43 | the stored record is owned by the caller and carries the submitted URL, alias and expiry, the generated short identifier, privacy only for an explicit `true`, and a hash exactly when a non-empty password was sent; it starts active with 0 clicks |
| UrlController.CreateShortUrl | backend/src/controllers/url.controller.js:16-51 | the reply is one of 200, 400, 409 and 500: 400 exactly on invalid input; 409 exactly when the alias is held; 500 exactly when the insert is refused; 200 exactly when the body is valid, the alias is free and the insert is accepted, with one new record owned by the caller, with an 8-character id, the hashed password and the given fields; nothing changes on failure; short identifiers stay unique |
| UrlController.OwnedIds | backend/src/controllers/url.controller.js:57 | the ids returned are exactly those of records the user owns |
| UrlController.InsertNewestFirst | backend/src/controllers/url.controller.js:57 | inserting keeps the list sorted newest first, and the result is the old list plus the one element, as multisets |
| UrlController.GetMyUrls | backend/src/controllers/url.controller.js:55-62 | every owned record exactly once, with its stored contents, sorted by `createdAt` descending |
| UrlController.GetUrlDetails | backend/src/controllers/url.controller.js:64-73 | 200 with the record exactly when owned, otherwise 404 with no data |
| UrlController.DeleteUrl | backend/src/controllers/url.controller.js:76-85 | only an owned record is removed; nothing else changes; otherwise 404 |
| UrlController.ToggleUrlStatus | backend/src/controllers/url.controller.js:89-101 | the reply is one of 200, 400 and 404: 404 exactly when not owned; 400 exactly when expired; 200 exactly when owned and not expired, and then only `isActive` is flipped, with the matching message |
| UrlController.ToggleTwiceRestores | backend/src/controllers/url.controller.js:92-97 | on an owned, unexpired record, toggling twice at one instant answers 200 both times and restores the collection |
| UrlController.UpdateAlias | backend/src/controllers/url.controller.js:105-126 | each reply as an if-and-only-if, in the code's order: alias missing → 400, alias held by any record → 409, not owned → 404, expired → 400; the reply is one of 200, 400, 404 and 409, 200 exactly when all four checks pass, and then only the alias changes |
| UrlController.SameAliasConflicts | backend/src/controllers/url.controller.js:111-113 | re-submitting a record's own alias gives 409 |
| UrlController.UpdateAliasSkipsFormat | backend/src/controllers/url.controller.js:110-123 | a one-character alias that creation refuses is accepted by the update |
| UrlController.UpdatePrivacy | backend/src/controllers/url.controller.js:128-149 | 200 exactly when owned; the flag becomes `Boolean(isPrivate)`; the hash is replaced only when going private with a password; no other field or record changes |
| UrlController.StringFalseMakesPrivate | backend/src/controllers/url.controller.js:136 | the string "false" makes a link private |
| UrlController.UpdateExpiry | backend/src/controllers/url.controller.js:151-166 | 200 exactly when owned, with no expiry check; only the expiry date changes |
| UrlController.ExtendThenToggleReactivates | backend/src/controllers/url.controller.js:159 | a deactivated record whose expiry is moved to the future can be toggled back on |
| Tally.GroupCount | backend/src/controllers/analytics.controller.js:65-68 | one bucket per distinct key, counts positive, each count equal to the key's occurrences, the counts summing to the input length |
| Tally.GroupCountSumWhere | backend/src/controllers/analytics.controller.js:65-68 | the buckets whose key satisfies a predicate total the inputs that satisfy it |
| Tally.GroupCountSorted | backend/src/controllers/analytics.controller.js:35-45 | buckets in strictly ascending key order, counts positive, each count equal to the key's occurrences, the counts summing to the input length |
| AnalyticsController.DistinctIps | backend/src/controllers/analytics.controller.js:19 | the set of addresses recorded among the events; events without one add nothing |
| AnalyticsController.DistinctIpsMembers | backend/src/controllers/analytics.controller.js:19 | an address is among the distinct ones exactly when some event recorded it |
| AnalyticsController.DistinctIpsBound | backend/src/controllers/analytics.controller.js:19-20 | there are never more distinct addresses than events |
| AnalyticsController.ValidateUrlOwnership | backend/src/controllers/analytics.controller.js:6-8 | the ownership lookup finds the link exactly when it is stored and belongs to the requester (`UrlModel.Owned`) |
| AnalyticsController.GetSummary | backend/src/controllers/analytics.controller.js:11-26 | 404 unless owned; otherwise `totalClicks` is the link's event count, equal to the occurrences of its id among the events' links, and `uniqueUsers` the number of distinct addresses, never more than `totalClicks` |
| AnalyticsController.UtcDay | backend/src/controllers/analytics.controller.js:39 | an instant's day is the UTC day whose 86 400 000 milliseconds contain it |
| AnalyticsController.GetDailyChart | backend/src/controllers/analytics.controller.js:29-51 | 404 unless owned; otherwise days ascending, counts positive, each day's count equal to that day's events, totalling the link's events |
| AnalyticsController.ChartListsExactlyTheBusyDays | backend/src/controllers/analytics.controller.js:35-45 | a day is listed exactly when some event of the link falls on it, and each point counts that day's events |
| AnalyticsController.MidnightSplitsDays | backend/src/controllers/analytics.controller.js:39 | events at 23:59 and 00:01 UTC around a midnight fall on different days |
| AnalyticsController.DisplayName | backend/src/controllers/analytics.controller.js:63 | a present key is shown as itself; "Unknown" is shown exactly for a missing or empty key or the literal key "Unknown" |
| AnalyticsController.FormatData | backend/src/controllers/analytics.controller.js:63 | one row per group in order; the value is the count; a missing or empty key is named "Unknown" |
| AnalyticsController.FormatKeepsCounts | backend/src/controllers/analytics.controller.js:63 | formatting keeps the grand total, and each name totals the groups shown under it |
| AnalyticsController.BreakdownOf | backend/src/controllers/analytics.controller.js:63-81 | the rows total the number of events, and the rows under each name total the events whose field shows as that name |
| AnalyticsController.GetBreakdown | backend/src/controllers/analytics.controller.js:55-87 | 404 unless owned; otherwise the device, country and browser breakdowns each total the link's event count, and every name totals the events shown under it |
| AnalyticsController.TwoUnknownRows | backend/src/controllers/analytics.controller.js:63 | a null key and an empty key form two separate rows, both named "Unknown" |
| AnalyticsController.NotOwnedIsRefused | backend/src/controllers/analytics.controller.js:6-8 | all three reports give 404 for a link not owned by the requester, whatever the events |
| Cleanup.DueForCleanup | backend/src/services/cleanup.service.js:6 | a record is due when it has an expiry date and that date is at or before `now` |
| Cleanup.CleanupExpiredUrls | backend/src/services/cleanup.service.js:3-12 | a successful purge keeps exactly the records not due, unchanged; a failed one changes nothing; events are untouched; the count is the number removed |
| Cleanup.DueIffExpiredOrAtDeadline | backend/src/services/cleanup.service.js:6 | a record is due exactly when it is expired or its expiry is this very instant |
| Cleanup.PurgeRemovesExpired | backend/src/services/cleanup.service.js:5-7 | expired records, and records expiring at `now` that `isExpired` still treats as live, are deleted |
| Cleanup.PurgeKeepsLiveRecords | backend/src/services/cleanup.service.js:6 | records with no expiry or a future one survive unchanged |
| Cleanup.PurgeIdempotent | backend/src/services/cleanup.service.js:5-7 | a second purge at the same instant deletes nothing |
| Cleanup.PurgeKeepsEvents | backend/src/services/cleanup.service.js:5-7 | a purged link's events remain |
| QrController.SharePath | backend/src/controllers/qr.controller.js:12 | the alias when it is non-empty, else the short identifier; either way a token the record answers to |
| QrController.GetQrCode | backend/src/controllers/qr.controller.js:5-20 | 404 unless owned; otherwise `shortUrl` is the base URL, "/" and the share path, and the QR encodes exactly that URL |
| QrController.QrPathReachesRecord | backend/src/controllers/qr.controller.js:12 | the encoded path answers to the record; with no other record answering to it, the redirect lookup returns this record |
| AuthMiddleware.Split | backend/src/middlewares/auth.middleware.js:10 | the pieces are space-free; the first piece runs up to the first space, and the rest split what follows it |
| AuthMiddleware.SplitThenJoin | backend/src/middlewares/auth.middleware.js:10 | joining the pieces with single spaces gives back the header |
| AuthMiddleware.JoinThenSplit | backend/src/middlewares/auth.middleware.js:10 | splitting space-free pieces joined by spaces gives back the pieces |
| AuthMiddleware.BearerToken | backend/src/middlewares/auth.middleware.js:10 | the token is space-free, starts right after the prefix, and ends at the next space or at the end of the header |
| AuthMiddleware.BearerTokenIsFirstWord | backend/src/middlewares/auth.middleware.js:10 | the token is the first space-separated word after "Bearer " |
| AuthMiddleware.BearerTokenRoundTrip | backend/src/middlewares/auth.middleware.js:10 | a space-free token sent after "Bearer " is extracted unchanged |
| AuthMiddleware.DoubleSpaceGivesEmptyToken | backend/src/middlewares/auth.middleware.js:10-17 | a second space after "Bearer" yields the empty token, which a faithful token library refuses, so the reply is 401 "Invalid or expired token" |
| AuthMiddleware.Authenticate | backend/src/middlewares/auth.middleware.js:4-19 | a missing, empty or unprefixed header gives 401 "Unauthorized"; a token that fails verification gives 401 "Invalid or expired token"; otherwise the request passes with the decoded payload |
| AuthMiddleware.PassesIffTokenVerifies | backend/src/middlewares/auth.middleware.js:6-15 | a request passes exactly when the header is prefixed and its first word after the prefix verifies, and it then carries that payload |
| AuthMiddleware.IssuedTokenPasses | backend/src/middlewares/auth.middleware.js:10-15 | a token the library issued, sent as a bearer header, passes with the payload it was issued for |
| AuthController.SignupSchema | backend/src/controllers/auth.controller.js:7-11 | a body is valid exactly when the email is a non-empty valid address, the password is at least 6 UTF-16 units long and any username is non-empty |
| AuthController.SessionFor | backend/src/controllers/auth.controller.js:32-38 | the token signs exactly `{id, email}` of the account, and the reply's user is that payload |
| AuthController.Signup | backend/src/controllers/auth.controller.js:13-42 | 400 exactly on invalid input; 409 exactly when the email is registered; otherwise one account is added holding the bcrypt hash, not the password, and a token for `{id, email}` is issued; nothing changes on failure |
| AuthController.Login | backend/src/controllers/auth.controller.js:45-67 | 400 exactly when email or password is missing or empty; 401 "Invalid credentials" exactly when the email is unknown or the password does not match; otherwise a token for that account's `{id, email}` |
| AuthController.NoAccountProbe | backend/src/controllers/auth.controller.js:51-55 | an unknown email and a wrong password get the identical reply |
| AuthController.SignupThenLogin | backend/src/controllers/auth.controller.js:24-30 | with a sound bcrypt, logging in with the credentials just signed up with succeeds for the new account |
| AuthController.SignupTwiceConflicts | backend/src/controllers/auth.controller.js:21-22 | a second signup with the same email gives 409 and changes nothing |
| AuthController.EmptyUsernameRejected | backend/src/controllers/auth.controller.js:10 | an empty username is refused with 400, while an absent one is accepted |
| Scenarios.CreateThenRedirect | backend/src/app.js:22-51 | when no existing alias equals the new short identifier, every legal answer of the lookup is the new record, and the link redirects to the submitted URL until expiry, counting one click |
| Scenarios.AliasCanShadowShortId | backend/src/controllers/url.controller.js:110-111 | an owner can set an alias equal to another record's short identifier, after which both records answer to that token |
| Scenarios.PublicLinkStaysLocked | backend/src/controllers/url.controller.js:136-141 | making a protected link public keeps its password, so visitors still get 401 |
| Scenarios.ChallengeThenUnlock | backend/src/controllers/unlock.controller.js:9-20 | a visitor challenged with 401 unlocks the same target with an accepted password, and the challenge writes nothing |
| Scenarios.ProtectThenUnlock | backend/src/controllers/url.controller.js:138-140 | with a sound bcrypt, the password set while making a link private unlocks it |
| Scenarios.SignupThenAuthenticate | backend/src/middlewares/auth.middleware.js:10-13 | the token a signup issues, sent back as a bearer header, passes the gate as the new account |

## Left out

- Express wiring (backend/src/index.js, the route files, CORS and logging) is not modelled. Every management, analytics and QR handler is modelled as running behind the bearer gate. The API routes without it are unlock, signup, login and `GET /api/status`.
- The catch-all 500 replies for database or library failures are not modelled, except where the failure follows from the request: a refused insert in `createShortUrl`, and bcrypt throwing on an absent password in `unlockUrl`. The request-caused 500s that are not represented are listed below: malformed ids, non-date expiry dates and non-string passwords.
- Concurrency is not modelled. The click increment is a read-modify-write in the source, and the model runs requests one at a time.
- bcrypt, jsonwebtoken, geoip-lite, ua-parser-js, QRCode and nanoid are uninterpreted parameters. Their algorithms, the JWT secret and the token lifetime are not modelled.
- UrlController.CreateSchema: body keys arrive typed (`expiryDate` as a date, `isPrivate` as a boolean, the rest as strings). Joi's 400 for a non-date `expiryDate`, a non-boolean `isPrivate` such as "yes", or a non-string value is not represented.
- AuthController.SignupSchema: body keys arrive as strings. Joi's 400 for a non-string email, password or username is not represented.
- Unlock.UnlockUrl, AuthController.Login and UrlController.UpdatePrivacy: the password arrives as a string or absent. The 500 "Illegal arguments" that bcrypt throws for a non-string password, such as a JSON number, is not represented.
- Ids are modelled as well-formed ObjectIds. A malformed `:id` such as "abc" makes Mongoose throw a CastError, which the handler answers with 500. The model answers 404 for an id it does not hold. This affects UrlController.GetUrlDetails, DeleteUrl, ToggleUrlStatus, UpdateAlias, UpdatePrivacy and UpdateExpiry, the three AnalyticsController reports, and QrController.GetQrCode.
- Cleanup.CleanupExpiredUrls: a failed `deleteMany` is modelled as all-or-nothing, leaving the collection as it was. The real call is not atomic, so a failure can leave a partial purge.
- UrlController.UpdateExpiry: the date arrives typed. A non-date string such as "soon" is assigned, fails Mongoose's Date cast on save, and gives 500. That reply is not represented.
- UrlController.UpdateAlias: the alias arrives as a string. A JSON object such as `{"$ne": null}` is truthy, so it passes the presence check. It then becomes a query operator in `findOne({customAlias})`, and the reply is 409 whenever any record has an alias. That case is not represented.
- AuthController.Login: the email arrives as a string. A JSON object such as `{"$ne": ""}` passes the presence check, and `findOne({email})` then picks an arbitrary account. That case is not represented.
- Joi error messages are not reproduced. A validation failure names the first failing key. Joi's refusal of unknown body keys is not modelled, because bodies carry only the schema's keys. The URI and email rules are the oracles `isUri` and `isEmail`.
- The `%Y-%m-%d` string of `$dateToString` is modelled as the UTC day number. Both order the same way for four-digit years.
- MongoDB's `$group` does not promise an output order. `Tally.GroupCount` fixes one: first occurrence.
- Mongoose's `updatedAt` on links is not modelled. No handler reads it.
- backend/src/models/user.model.js is not part of this model. Accounts are keyed by email, the key both auth handlers look up by.
- AuthController.Signup: assumes the database accepts the new account once the email check passes. Index or validation failures of the user model are not modelled.
- UrlController.GetMyUrls: the order among records created at the same instant is not promised, as in the source's sort.
- The frontend and the demo seeding script (backend/src/utils/autoSeed.js) are not part of the backend core.
- The console logging of the cleanup service is not modelled. The model returns the deleted count instead.
