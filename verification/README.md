# Qalam verification

A Dafny model of the parts of Qalam whose correctness is an argument over whole runs or whole texts,
with proofs of what they keep. Run `dafny verify dfyconfig.toml` to check it.

## What is modelled

**Sliding-window rate limiter** (`RateLimitLog`, `RateLimitGuard`). The guard is a class over Redis sorted
sets that are evicted, added to, counted, re-armed and dropped on expiry. Beside it runs a ghost log that forgets
nothing. `Valid()` says that every key's set is the log's times less only those that have left the window; every method
keeps it, and every verdict is proved to be the log's. `RateLimitLog` then proves what such a log implies: the rate
bound at every instant for every tier and scope at once, and what `Retry-After` does and does not promise. Between
any two awaits of one request, other requests' charges run (`Turn.others`).

**Single-flight refresh** (`RefreshProtocol`, `ReaderClient`, `AdminClient`). Any number of concurrent calls share
one refresh flight against a server that rotates single-use refresh tokens and revokes the family on reuse. The
protocol is a step relation; each client is a finer step relation, cut at the code's awaits, and is proved to refine the
protocol (the admin client with steps that are none, one or two protocol steps). The clients' mutable variables are
classes (`ApiClient`) whose methods are the code between two awaits. `Valid()` says that some run has led to the object's
state; every method keeps it, so all that is proved of runs holds of the object, and says what the protocol knows afterwards.

**Incremental event-stream reader** (`SseReader`, `SseStandard`, on `Utf8`). The nested loop over chunks with a carried buffer, from
bytes, through a streaming UTF-8 decoder with byte order mark handling, against a parser of the whole text.

**Codecs and matchers.** The cursor codec (`CursorCodec`, on `Json`, `JsonGrammar`, `Utf16`, `Utf8`, `Base64`) with a full JSON
parser proved to accept exactly the grammar of RFC 8259, JSON string escaping and Node's lenient base64url reader; the browser's JWT reader (`JwtSegment`); the wildcard
permission matcher (`Permissions`); slugs (`Slug`); document word counts (`WordCount`); the encryption key list (`KeyList`).

**Metering** (`Metering`) over exact reals, and the **domain event bus** (`EventBus`) with subscriptions made while an
emit is running.

## Where the code and what is said of it differ

- *Event bus.* `emit` is described as isolating any handler that throws. It does unless the `catch` throws in its
  turn: it reads `err.message`, puts it in a template string and reads `err.stack`, which fails on `null` and `undefined`,
  on a message that is a symbol or an object without a string form, and on a getter that throws. `EventBus.Isolation`:
  the emit rejects if and only if a handler threw such a value; `EventBus.OneThrow` says it of every thrown value.
- *Slugs.* Slugging a slug does not always return it: lower case comes before NFKD, and NFKD can produce capitals.
  U+2121 becomes `TEL`, whose slug is `tel` (`Slug.NotIdempotent`). `Slug.IdempotentExact` says exactly when it does.
- *`appendSuffix`.* The result fits the limit if and only if the limit is at least two more than the suffix's length in
  code points, because at least one character of the slug is kept; on an empty slug it starts with a hyphen.
- *Plain text.* The comment promises a space between block nodes; the code puts one between any two text nodes, so a word
  split over two text nodes (half of it bold, say), each with a letter or digit of it, counts as two (`WordCount.SplitWordCountsTwice`).
  `WordCount.SplitNodeExact` says exactly when two nodes of a block are counted differently from their text run
  together, and `DocumentSeams` counts the difference for every document.
- *Rotation safety.* The server sees a used refresh token if and only if two refreshes reached it and none from the first
  up to the second was answered with a rotation (`RefreshProtocol.ReuseRunExact`, and `ReuseExact` for both clients).
  That takes a refresh that the client gave up (a timeout, a lost connection) and the server rotated all the same;
  `CutCausesReuse` shows either client doing it with any two calls outside `/auth/`. While every refresh is answered or
  never reaches the server, there is no reuse (`RotationSafety`).
- *`Retry-After`.* Every request up to a second short of it is refused, but waiting it out is not always enough, because
  refused requests are counted too (`RateLimitLog.RetryAfterNotSufficient`). `WaitingExact` says exactly when waiting
  helps, and `RetryAfterExact` when waiting out the reported time does: for a limit of one, only if it was the whole window.
- *Malformed 401.* A 401 outside `/auth/` ends a reader call without the unauthorized handler if and only if it is not
  JSON and the call is a `doRequest`, or it answers the first send with a failure envelope that has no `error`, on which
  both functions crash reading its code (`ReaderClient.SilentUnauthorizedExact`). On a replay that envelope fires the
  handler and crashes then (`ReplayCrashes`). The admin client fires its handler all the same, but `parseEnvelope`
  crashes on JSON null and on a value with neither a `success` nor an `error` (`AdminClient.CallLifecycle`).
- *Event streams.* On text without a lone CR whose events hold one `data` line each and are closed by a blank line the reader
  yields what the standard's interpretation does (`SseStandard.StandardAgrees`). An event of two `data` lines is one text
  to the standard and two to the reader (`TwoDataLines`).
- *Scopes.* Clients share a scope exactly when their tier counts them as one, unless an address itself ends in `:email` or
  holds `:email:`, which no IP address does (`RateLimitLog.ScopeExact`, `MarkedShare`). No email counts as the email `anon`.
- *Failed refresh.* The API document says that a failed refresh clears the access token. The reader client leaves the token to the
  handler; the admin client clears it (`AdminClient.AlarmClearsToken`).
- *Which 401s refresh.* The same document lists `AUTH_TOKEN_EXPIRED` alone. The reader follows it; the admin client refreshes on
  every code but three, and only with a token in memory.

## Assumptions

- Redis runs a MULTI block atomically and `exec` succeeds, the `zrange` read belongs to the same block, set members
  are distinct, and the clock is one for all and never goes back. Times are at least 0.
- Tier names have no colon and windows are at least a second, as in the tier table. Every other number of the table is a parameter.
- The server answers a refresh with an access token only if it rotated the token presented, and does so in one step.
- An unmarked request has not been charged yet, and the logger that a failing event handler is reported to does not throw.
- An access token set from outside (a login, a logout, the unauthorized handler) does not come from a refresh flight.
- Text outside the cursor is a sequence of Unicode code points without lone surrogates; strings in the cursor are any UTF-16 code units.

## Model

| member | source | states |
|---|---|---|
| `RateLimitLog.KeyInjective` | backend/src/common/guards/rate-limit.guard.ts:117 | no two tiers, and no two scopes of one tier, share a Redis key |
| `RateLimitLog.ScopeExact` | backend/src/common/guards/rate-limit.guard.ts:149-166 | two clients share a scope of a tier if and only if it counts them as one: same user, or same address where neither has one, or same address and lower-case email; for addresses in which no `:email:` begins |
| `RateLimitLog.MarkedShare` | backend/src/common/guards/rate-limit.guard.ts:160-164 | an address that ends in `:email` can share a scope with a shorter address under another email |
| `RateLimitLog.ScopeForms` | backend/src/common/guards/rate-limit.guard.ts:149-166 | the scope is `ip:` or `user:` and the address or user, or `ip:`, the address, `:email:` and the lower-case email or `anon`; the address is the request's, else the socket's, else `unknown` |
| `RateLimitLog.WindowExact` | backend/src/common/guards/rate-limit.guard.ts:122-133 | a charge's window counts it and every charge of its key less than the window's length ago, refused ones included, and its first time is the earliest of them |
| `RateLimitLog.AssessExact` | backend/src/common/guards/rate-limit.guard.ts:130-147 | a charge is over the limit if and only if its window holds more than `max`; remaining is `max` less the count, reset is the first second by which the window is over, and the wait is the fewest seconds, at least one, after which the oldest charge has left |
| `RateLimitLog.PassedBound` | backend/src/common/guards/rate-limit.guard.ts:122-131 | in a log judged by the guard no interval (t - W, t] holds more than `max` charges of a key that were let through, for any instant |
| `RateLimitLog.RateBound` | backend/src/common/guards/rate-limit.guard.ts:86-109 | for every tier and scope at the same time, no interval (t - W, t] contains more than `max` admitted requests, admitted meaning no tier breached |
| `RateLimitLog.RetryAfterRange` | backend/src/common/guards/rate-limit.guard.ts:133-138 | a refusal reports at least one second and at most the window |
| `RateLimitLog.RetryAfterLowerBound` | backend/src/common/guards/rate-limit.guard.ts:133-138 | whatever else happens, every later charge of the key up to one second short of the reported wait is refused |
| `RateLimitLog.WaitingExact` | backend/src/common/guards/rate-limit.guard.ts:122-138 | after a refusal, with no other charge of the key in between, the next charge is let through if and only if the limit is at least one and the `max`-th last time the refused charge saw, its own included, has left the window |
| `RateLimitLog.RetryAfterExact` | backend/src/common/guards/rate-limit.guard.ts:133-138 | waiting out exactly the reported time is enough if and only if that time is no later than the oldest by more than the rounding to seconds; for a limit of one, if and only if the whole window was reported |
| `RateLimitLog.RetryAfterNotSufficient` | backend/src/common/guards/rate-limit.guard.ts:122-138 | an instance, for any tier name and scope: a run in which waiting the reported time is answered by another refusal |
| `RateLimitLog.IdleClears` | backend/src/common/guards/rate-limit.guard.ts:122-131 | a key silent for a window is let through if and only if its tier allows at least one request |
| `RateLimitGuard.RemoveIsRecent` | backend/src/common/guards/rate-limit.guard.ts:124 | evicting scores 0 to now - W leaves exactly the charges inside the window |
| `RateLimitGuard.EvictedIsWindow` | backend/src/common/guards/rate-limit.guard.ts:122-128 | after any earlier evictions and expiry of the whole key, evict and add leave exactly the window of the unbounded log |
| `RateLimitGuard.ConsumeStep` | backend/src/common/guards/rate-limit.guard.ts:122-131 | one charge keeps every key, its own and all others, faithful to the unbounded log |
| `RateLimitGuard.ExpireFaithful` | backend/src/common/guards/rate-limit.guard.ts:127 | dropping an expired key loses nothing a later decision needs |
| `RateLimitGuard.RateLimitGuard.Expire` | backend/src/common/guards/rate-limit.guard.ts:127 | expiry of a key at any moment keeps the guard faithful to the log |
| `RateLimitGuard.RateLimitGuard.Transact` | backend/src/common/guards/rate-limit.guard.ts:122-137 | the count and the oldest score Redis reports are those of the unbounded log's window, and the charge is logged whether or not it is over the limit |
| `RateLimitGuard.RateLimitGuard.Consume` | backend/src/common/guards/rate-limit.guard.ts:112-147 | limit, remaining, reset, wait and breach are the verdict of the unbounded log for the scope of this client |
| `RateLimitGuard.RateLimitGuard.TakeTurn` | backend/src/common/guards/rate-limit.guard.ts:86-88 | after any charges by others, one turn of the loop makes exactly one further charge of this request, with the log's result |
| `RateLimitGuard.RateLimitGuard.ChargeTiers` | backend/src/common/guards/rate-limit.guard.ts:83-95 | every declared tier is charged exactly once and in order, none skipped after a breach; the first tightest result and the last breach are kept |
| `RateLimitGuard.RateLimitGuard.CanActivate` | backend/src/common/guards/rate-limit.guard.ts:57-110 | a request passes uncharged if and only if the limiter is off, it is not HTTP, it is marked, or its path is `/health` or begins with `/health/` or `/metrics`; any other request is marked, charged exactly once for each declared tier in order, or once for `apiDefault` when none is declared, let through if and only if the whole log holds no breached charge of it, and told the tightest tier's headers and the last breach's wait |
| `RateLimitGuard.AdmittedIsUnbreached` | backend/src/common/guards/rate-limit.guard.ts:104-109 | a counted request is let through if and only if the log holds no breached charge of it since it began |
| `RefreshProtocol.InvStep` | frontend/src/lib/api-client.ts:96-107 | every step keeps the protocol's invariant: one open flight, calls' counters, token age, the server's used tokens, the cookie's place |
| `RefreshProtocol.SingleFlight` | docs/32_APIIntegration.md:115-118 | in every interleaving at most one refresh is outstanding, and a call that needs one meanwhile joins it and starts none |
| `RefreshProtocol.JoinersFareAlike` | docs/32_APIIntegration.md:109-118 | all calls that joined one flight are replayed, or none is, by that flight's outcome; replays carry its token or a newer one |
| `RefreshProtocol.ReplayAfterInstall` | docs/32_APIIntegration.md:109-110 | a call is replayed only after its flight's token was installed, and no older flight's token can be in memory then |
| `RefreshProtocol.SendsBounded` | docs/32_APIIntegration.md:119-120 | a call is sent at most twice, asks for a refresh at most once, and is sent twice only after asking |
| `RefreshProtocol.SameTokenShown` | backend/src/modules/auth/services/token.service.ts:109-142 | two flights present the same refresh token if and only if no rotation was answered in between |
| `RefreshProtocol.ReuseExactly` | backend/src/modules/auth/services/token.service.ts:127-132 | serving a flight is a reuse if and only if another flight has rotated the token it presents |
| `RefreshProtocol.ReuseNeedsCut` | backend/src/modules/auth/services/token.service.ts:127-142 | a reuse needs an earlier flight that the client gave up while the server still worked on it |
| `RefreshProtocol.RotationSafety` | e2e/fixtures/auth.ts:4-9 | from a valid cookie, while no refresh is given up half-way, no run ever presents a used refresh token |
| `RefreshProtocol.ReuseRunExact` | e2e/fixtures/auth.ts:4-9 | from a valid cookie a run has shown the server a used token if and only if two flights were served and none from the first up to the second was answered with a rotation |
| `RefreshProtocol.CutCausesReuse` | backend/src/modules/auth/services/token.service.ts:127-142 | the protocol itself allows a reuse after a refresh cut once the server has rotated |
| `RefreshProtocol.EveryCallEnds` | docs/32_APIIntegration.md:115-120 | any run of n calls takes at most 7n protocol steps, and while a call is unfinished some step can be taken: no call waits for itself |
| `ReaderClient.RefreshNeverAsks` | frontend/src/lib/api-client.ts:171-190 | the refresh request itself never refreshes nor fires the handler |
| `ReaderClient.ResolvesExact` | frontend/src/lib/api-client.ts:149-159 | a response gives the caller its data, and fires no handler, if and only if its status is from 200 to 299 and it is handed over as a stream, is a 204, or is a success envelope |
| `ReaderClient.AsksExact` | frontend/src/lib/api-client.ts:170-176 | a response asks for a refresh if and only if it is the 401 of a first send outside `/auth/` with the code `AUTH_TOKEN_EXPIRED` |
| `ReaderClient.AlarmsExact` | frontend/src/lib/api-client.ts:170-192 | the handler fires if and only if a 401 outside `/auth/`, JSON or on a stream, answers a replay, or a first send with neither that code nor a missing error |
| `ReaderClient.FailuresExact` | frontend/src/lib/api-client.ts:131-192 | every other end is the error thrown for what `fetch` came to: abort, timeout, network, malformed, the envelope's own code, or the unexpected one |
| `ReaderClient.RefreshSucceedsExact` | frontend/src/lib/api-client.ts:99-102 | a refresh brings a token if and only if it is answered by a success envelope of a status from 200 to 299 other than 204 |
| `ReaderClient.ExpiredIsRenewed` | frontend/src/lib/api-client.ts:97-192 | any call outside `/auth/` that gets the expired 401, and whose refresh is served and answered with success, is sent again with the new token and, answered with success, ends with its data and no handler |
| `ReaderClient.ReachableStep` | frontend/src/lib/api-client.ts:97-193 | a step from a reachable state leads to a reachable state, so what is proved of runs holds of the client's variables at every await |
| `ReaderClient.ApiClient.RefreshSession` | frontend/src/lib/api-client.ts:97-107 | joins the flight there is, otherwise sets out exactly one new flight with the current cookie; either way it is the one unfinished flight |
| `ReaderClient.ApiClient.OnAnswer` | frontend/src/lib/api-client.ts:131-192 | keeps `Valid()`; the call has joined the one unfinished flight, or has ended with no flight touched and the handler fired exactly if it ended as a 401 error outside `/auth/` or crashed on the 401 of its replay |
| `ReaderClient.ApiClient.OnRefreshAnswer` | frontend/src/lib/api-client.ts:99-102 | keeps `Valid()`; the flight is still the shared and only unfinished one, every call that joined it still waits, and a token it brought is the newest any flight has installed |
| `ReaderClient.ApiClient.OnFinally` | frontend/src/lib/api-client.ts:103-105 | keeps `Valid()`; no flight is unfinished or shared, and every waiting call can resume |
| `ReaderClient.ApiClient.OnResume` | frontend/src/lib/api-client.ts:177-184 | keeps `Valid()`; the call is on its second send, after its flight succeeded and with a token no older flight brought, or its flight failed and it has ended after one send as `AUTH_TOKEN_EXPIRED` with the handler fired once |
| `ReaderClient.StepRefines` | frontend/src/lib/api-client.ts:97-193 | every step of the reader client is the corresponding step of the protocol |
| `ReaderClient.RunRefines` | frontend/src/lib/api-client.ts:97-193 | every run of the reader client is a run of the protocol with the same final state |
| `ReaderClient.ReaderIsProtocol` | frontend/src/lib/api-client.ts:97-193 | every reachable state of the reader client is one of the protocol, so all its properties hold for `doRequest` and `openStream` |
| `ReaderClient.CallLifecycle` | frontend/src/lib/api-client.ts:159-192 | each call is sent at most twice and refreshes at most once, `/auth/` calls never refresh, and the handler fires exactly once if a call outside `/auth/` ends as a 401 error or crashes on the 401 of its replay, and never otherwise |
| `ReaderClient.ReuseExact` | frontend/src/lib/api-client.ts:96-107 | a run of the reader client has shown the server a used token if and only if two refreshes were served with no answered rotation from the first up to the second |
| `ReaderClient.CutCausesReuse` | frontend/src/lib/api-client.ts:96-107 | any two calls outside `/auth/`, of either kind, can do it when the first one's refresh times out after the server rotated |
| `ReaderClient.SilentUnauthorizedExact` | frontend/src/lib/api-client.ts:151-192 | a 401 outside `/auth/` ends a call without the handler if and only if it is not JSON and the call is a `doRequest`, or it is the first answer and a failure envelope without an error |
| `ReaderClient.ReplayCrashes` | frontend/src/lib/api-client.ts:163-192 | a failure envelope without an error crashes a first 401 silently, and a replayed one after the handler has fired |
| `ReaderClient.MalformedUnauthorizedIsSilent` | frontend/src/lib/api-client.ts:151-159 | a 401 that is not JSON ends `doRequest` without the handler, while `openStream` fires it |
| `ReaderClient.EveryCallEnds` | frontend/src/lib/api-client.ts:109-193 | any run of n reader calls has at most 7n steps, and while one is unfinished a step can be taken |
| `AdminClient.ReachableStep` | admin/src/lib/api-client.ts:162-229 | a step from a reachable state leads to a reachable state, so what is proved of runs holds of the client's variables at every await |
| `AdminClient.ParseExact` | admin/src/lib/api-client.ts:116-137 | a response comes to data if and only if it is a 204 or of a status from 200 to 299 with a truthy `success`; to a TypeError if and only if it is null or has neither a success nor an error; and otherwise to an `ApiError` with the code of what it is |
| `AdminClient.RefreshSucceedsExact` | admin/src/lib/api-client.ts:163-176 | a refresh brings a token if and only if it is answered by a success with data of a status from 200 to 299 other than 204 |
| `AdminClient.PeekExact` | admin/src/lib/api-client.ts:192-225 | a peeked 401 ends its call if it carries one of the three terminal codes, and sends it to wait for a refresh if it does not |
| `AdminClient.LostIsRenewed` | admin/src/lib/api-client.ts:198-229 | any call outside `/auth/` whose first answer is a 401 without a terminal code while a token is held, and whose refresh is served and answered with data, is sent again with the new token and ends, from any answer but a 401, with no handler and the token kept |
| `AdminClient.ApiClient.OnFirstAnswer` | admin/src/lib/api-client.ts:203-206 | keeps `Valid()`; the call has been sent once, has asked for nothing and has not fired the handler, and it goes on exactly if the answer is a 401 outside `/auth/` that finds a token in memory |
| `AdminClient.ApiClient.OnPeek` | admin/src/lib/api-client.ts:192-225 | keeps `Valid()`; the call has ended, the token gone and the handler fired once, if and only if its 401 carries `AUTH_TOKEN_INVALID`, `AUTH_SESSION_REVOKED` or `AUTH_REFRESH_REUSED`; with any other 401, readable or not, it has joined the one unfinished flight |
| `AdminClient.ApiClient.RefreshSession` | admin/src/lib/api-client.ts:162-184 | joins the flight there is, otherwise sets out exactly one new flight with the current cookie; either way it is the one unfinished flight |
| `AdminClient.ApiClient.OnRefreshAnswer` | admin/src/lib/api-client.ts:163-182 | keeps `Valid()`; no flight is unfinished or shared, every waiting call can resume, and a token the flight brought is the newest any flight has installed |
| `AdminClient.ApiClient.OnResume` | admin/src/lib/api-client.ts:216-225 | keeps `Valid()`; the call is on its second send, after its flight succeeded and with a token no older flight brought, or its flight failed and it has ended after one send from its first 401, the token gone and the handler fired once |
| `AdminClient.ApiClient.OnLastAnswer` | admin/src/lib/api-client.ts:217-228 | keeps `Valid()`; the call has ended after two sends and one successful refresh, and exactly on another 401 the token is gone and the handler has fired, once |
| `AdminClient.StepRefines` | admin/src/lib/api-client.ts:162-229 | every step of the admin client is a run of none, one or two steps of the protocol |
| `AdminClient.RunRefines` | admin/src/lib/api-client.ts:162-229 | every run of the admin client is a run of the protocol with the same final state |
| `AdminClient.AdminIsProtocol` | admin/src/lib/api-client.ts:162-229 | every reachable state of the admin client is one of the protocol, so all its properties hold for `request` |
| `AdminClient.CallLifecycle` | admin/src/lib/api-client.ts:198-229 | each call is sent at most twice and refreshes at most once, the handler fires exactly once if the call ends from a 401 after a 401 that found a token in memory, and never otherwise; a final 401 is thrown as an `ApiError` exactly unless its body is null or has neither a success nor an error |
| `AdminClient.ReuseExact` | admin/src/lib/api-client.ts:161-184 | a run of the admin client has shown the server a used token if and only if two refreshes were served with no answered rotation from the first up to the second |
| `AdminClient.CutCausesReuse` | admin/src/lib/api-client.ts:161-184 | any two calls outside `/auth/` can do it while a token is held, when the first one's refresh breaks off after the server rotated |
| `AdminClient.AlarmClearsToken` | admin/src/lib/api-client.ts:216-225 | the step that fires the handler leaves no token in memory and ends the call |
| `AdminClient.NoTokenNoRefresh` | admin/src/lib/api-client.ts:205-206 | without a token in memory a 401 changes nothing but the end of its call |
| `AdminClient.EveryCallEnds` | admin/src/lib/api-client.ts:198-229 | any run of n admin calls has at most 8n steps, and while one is unfinished a step can be taken |
| `Utf8.DecodeConcat` | frontend/src/lib/api-client.ts:327 | decoding in two pieces, cut anywhere, yields the text and the state of decoding in one |
| `Utf8.DecodeEncode` | backend/src/common/pagination/cursor.util.ts:37 | UTF-8 decoding undoes encoding for every text and leaves nothing pending |
| `Utf8.DecodeExact` | backend/src/common/pagination/cursor.util.ts:37 | bytes decode to a text without U+FFFD if and only if they are its encoding: overlong forms, surrogates and cut characters never do |
| `Utf8.CutCharacter` | frontend/src/lib/api-client.ts:327 | a character cut short anywhere becomes one U+FFFD, and the text around it is read as it is |
| `Utf8.StrayByte` | frontend/src/lib/api-client.ts:327 | so does a byte that begins no character |
| `SseReader.DecodeChunkAppends` | frontend/src/lib/api-client.ts:327 | what a chunk adds to the buffer is what it adds to the text of all bytes so far, byte order mark included |
| `SseReader.EventsAppend` | frontend/src/lib/api-client.ts:328-343 | text already read can be replaced by its part after the last newline without changing what follows |
| `SseReader.Stream` | frontend/src/lib/api-client.ts:323-345 | for every cut of the bytes into chunks the nested loop yields exactly what parsing the terminated lines of the whole text yields, and its inner loop ends |
| `SseReader.UnterminatedTailDropped` | frontend/src/lib/api-client.ts:328-343 | a last line without a newline contributes nothing |
| `SseReader.EventsOfPrinted` | frontend/src/lib/api-client.ts:331-343 | reading printed events returns exactly their values in order, with LF or CRLF ends, blank separators and any other lines |
| `SseReader.StreamRoundTrip` | frontend/src/lib/api-client.ts:323-345 | events printed, encoded and cut into chunks anywhere are read back as exactly their values, unless a byte order mark in front of the first line hides a `data` field |
| `SseStandard.StandardAgrees` | frontend/src/lib/api-client.ts:323-345 | on text without a lone CR whose events hold one `data` line each and are closed, the reader yields what section 9.2.6 of the HTML Standard dispatches |
| `SseStandard.TwoDataLines` | frontend/src/lib/api-client.ts:331-343 | an event of two `data` lines yields two values here and one joined text in the standard |
| `Json.ParsePrintedObject` | backend/src/common/pagination/cursor.util.ts:38 | `JSON.parse` undoes `JSON.stringify` on objects of any strings, escapes and lone surrogates included |
| `Json.PrintObjectWellFormed` | backend/src/common/pagination/cursor.util.ts:27 | printed JSON never holds a lone surrogate, so UTF-8 loses nothing |
| `Json.LookupExact` | backend/src/common/pagination/cursor.util.ts:40-48 | a parsed object holds under a name the value of its last member of that name, and nothing if it has none |
| `JsonGrammar.ParseExact` | backend/src/common/pagination/cursor.util.ts:38 | `JSON.parse` accepts a text if and only if the grammar of RFC 8259 derives it, and returns the value derived |
| `Base64.BytesOfSextets` | backend/src/common/pagination/cursor.util.ts:27 | six-bit groups give the bytes back for all three length residues |
| `Base64.DecodeLenientEncodeUrl` | backend/src/common/pagination/cursor.util.ts:37 | Node's lenient base64url reader undoes the unpadded writer |
| `Base64.LenientSkips` | backend/src/common/pagination/cursor.util.ts:37 | a character that is a digit of neither alphabet, nor `=`, changes nothing wherever it stands |
| `Base64.LenientStops` | backend/src/common/pagination/cursor.util.ts:37 | nothing after a `=` is read |
| `Base64.EitherAlphabet` | backend/src/common/pagination/cursor.util.ts:37 | digits of the standard and of the URL-safe alphabet read alike |
| `Base64.AtobExact` | frontend/src/lib/jwt.ts:27 | `atob` accepts a text if and only if, white space aside, it is standard digits filled up with padding to a multiple of four, or unpadded with no lone digit, and returns the whole bytes of their groups |
| `CursorCodec.DecodeEncode` | backend/src/common/pagination/cursor.util.ts:26-57 | every cursor decodes to the position it was made from, for all strings and either order of its properties |
| `CursorCodec.DecodeExact` | backend/src/common/pagination/cursor.util.ts:31-57 | no cursor, or an empty one, is no position; any other is the position `p` if and only if its text is a JSON object whose last `k` and last `id` are the strings of `p`, and none if there is no such `p` |
| `CursorCodec.EncodeInjective` | backend/src/common/pagination/cursor.util.ts:26-28 | different positions never share a cursor |
| `CursorCodec.EncodeUrlSafe` | backend/src/common/pagination/cursor.util.ts:26-28 | a cursor uses only the URL-safe alphabet |
| `JwtSegment.PercentDetourExact` | frontend/src/lib/jwt.ts:26-31 | percent escapes through `decodeURIComponent` give a text if and only if the bytes are its UTF-8 encoding |
| `JwtSegment.PadLength` | frontend/src/lib/jwt.ts:25 | re-padding always reaches a multiple of four with at most three signs |
| `JwtSegment.SegmentTextExact` | frontend/src/lib/jwt.ts:22-32 | a segment of any bytes reads as a text if and only if the bytes are its UTF-8 encoding, for all three length residues |
| `JwtSegment.SegmentBytes` | frontend/src/lib/jwt.ts:24-27 | any segment of digits of either alphabet gives the bytes of their groups after re-padding, unless one digit is left over |
| `JwtSegment.SegmentExact` | frontend/src/lib/jwt.ts:22-36 | any segment reads as a value if and only if its bytes are the UTF-8 encoding of a JSON text of that value |
| `JwtSegment.ClaimsExact` | frontend/src/lib/jwt.ts:48-65 | a payload has the claims `d` if and only if it is an object whose last `sub` is the string `d.sub`, with the last `role` where that is a known role and the least privileged one otherwise, and the last `sv` and `exp` where they are numbers and 0 and none otherwise |
| `JwtSegment.DecodeExact` | frontend/src/lib/jwt.ts:39-66 | a token decodes to claims if and only if it is exactly three parts joined by dots whose non-empty middle is a segment of a payload with those claims; no token and an empty one decode to none |
| `JwtSegment.IssuedToken` | frontend/src/lib/jwt.ts:39-66 | claims that an issuer prints as JSON, numbers included and in any spelling of the strings, are read back from the token |
| `JwtSegment.DecodeSignedToken` | frontend/src/lib/jwt.ts:39-66 | whatever header and signature surround it, a token's claims are those of the JSON text it was made from |
| `Permissions.PermissionSatisfies` | packages/shared/src/permissions.ts:375-386 | the loop accepts a code if and only if `*`, the code, or the part before one of its dots followed by `.*` is granted |
| `Permissions.WildcardMeaning` | packages/shared/src/permissions.ts:370-374 | `p.*` alone covers exactly the codes that begin with `p.` |
| `Permissions.Monotone` | packages/shared/src/permissions.ts:375-386 | more grants never satisfy less |
| `Permissions.ByOneCode` | packages/shared/src/permissions.ts:375-386 | a set satisfies a code if and only if one of its members alone does |
| `Permissions.Transitive` | packages/shared/src/permissions.ts:375-386 | grants that satisfy every held code, wildcards included, satisfy all that the held codes do |
| `WordCount.TextList.Push` | packages/utils/src/tiptap-text.ts:20 | appends to the shared array and changes nothing before it |
| `WordCount.Walk` | packages/utils/src/tiptap-text.ts:14-27 | appends the text nodes of the tree in document order and nothing else |
| `WordCount.ExtractPlainText` | packages/utils/src/tiptap-text.ts:8-12 | the plain text is the text nodes joined, collapsed and trimmed |
| `WordCount.PlainTextSingleSpaced` | packages/utils/src/tiptap-text.ts:11 | whatever the document, its plain text has only single plain spaces and none at an edge |
| `JsText.SpaceExact` | packages/utils/src/tiptap-text.ts:11 | the blanks are exactly the 25 characters that `\s` and `trim` know |
| `WordCount.CountWordsByScan` | packages/utils/src/reading-time.ts:25-35 | counting by mask, split and filter equals one pass over the characters |
| `WordCount.CjkCountsOne` | packages/utils/src/reading-time.ts:18-34 | every Hiragana, Katakana, CJK or Hangul character of the five blocks counts one and ends the words beside it |
| `WordCount.TokenCount` | packages/utils/src/reading-time.ts:30-34 | a text without blanks and such characters counts one if it holds a letter or digit, and none if it does not |
| `WordCount.WordsSeparator` | packages/utils/src/reading-time.ts:25-35 | a blank neither fuses nor splits words: the counts of its two sides add up |
| `WordCount.DocumentWords` | packages/utils/src/tiptap-text.ts:8-12 | the word count of a document is the sum of the word counts of its text nodes |
| `WordCount.SeamExact` | packages/utils/src/reading-time.ts:25-35 | running two texts together loses one word exactly when the token that ends the first and the one that begins the second each hold a word character, and none otherwise |
| `WordCount.DocumentSeams` | packages/utils/src/tiptap-text.ts:11 | the spaces put between text nodes raise the count of a document by exactly the number of such seams between its nodes |
| `WordCount.SplitNodeExact` | packages/utils/src/tiptap-text.ts:1-12 | the space between two text nodes of one block changes the count exactly when they meet inside a word |
| `WordCount.SplitWordCountsTwice` | packages/utils/src/tiptap-text.ts:1-12 | a word split over two text nodes of one block, each with a letter or digit of it, counts as two |
| `Slug.FullSlugIsWords` | packages/utils/src/slugify.ts:34-39 | before truncation a slug is the maximal runs of allowed characters joined by hyphens |
| `Slug.SlugifyCanonical` | packages/utils/src/slugify.ts:31-45 | every slug has allowed characters, single inner hyphens, no edge hyphen, fits the limit, and is the longest such prefix that does |
| `Slug.SlugifyNegative` | packages/utils/src/slugify.ts:42-45 | a negative limit takes that many characters off the end, and a hyphen that is then left there |
| `Slug.SlugifyFixed` | packages/utils/src/slugify.ts:31-45 | a canonical text that fits and that folding leaves alone is its own slug |
| `Slug.IdempotentExact` | packages/utils/src/slugify.ts:31-45 | slugging a slug returns it if and only if folding leaves its words alone, or makes it too long and its words are the folded words cut short at the limit, or one short of it after whole words |
| `Slug.JoinPrefix` | packages/utils/src/slugify.ts:42-45 | one slug begins another exactly when its words are the other's, the last of them perhaps cut short |
| `Slug.NotIdempotent` | packages/utils/src/slugify.ts:34-37 | a concrete input whose slug is not its own slug |
| `Slug.AppendSuffixShape` | packages/utils/src/slugify.ts:57-65 | the result is the longest canonical prefix of the slug that leaves room for a hyphen and the suffix in UTF-16 units, one character at least, then the hyphen and the suffix |
| `Slug.AppendSuffixFits` | packages/utils/src/slugify.ts:57-65 | a suffixed slug is canonical again, and within the limit if and only if the limit leaves room for a character, a hyphen and the suffix |
| `Slug.AppendToEmpty` | packages/utils/src/slugify.ts:62-64 | on an empty slug the result begins with a hyphen and is not canonical |
| `Slug.AppendSuffixInjective` | packages/utils/src/slugify.ts:62-64 | results with different suffixes of one length never collide, whatever the slugs |
| `KeyList.ParseList` | backend/src/config/security.config.ts:15-39 | parsing a printed list, with any blanks around entries and any dropped entries between, returns its keys in order, and the default active id is the last key's |
| `KeyList.RoundTripExact` | backend/src/config/security.config.ts:15-27 | a list survives printing and parsing if and only if each key has non-empty comma-free parts, no colon in the id and no edge blank |
| `KeyList.ActiveExact` | backend/src/config/security.config.ts:35-39 | a configured id is active whatever the list; without one, or with an empty one, the last listed key is, and none of an empty list |
| `Metering.TotalCostError` | packages/shared/src/ai.ts:321-330 | the rounded costs of n calls are within n half-steps of the sixth decimal of the exact cost |
| `Metering.CostExact` | packages/shared/src/ai.ts:325-327 | a million times the exact cost is input tokens at the input rate plus output tokens at the output rate |
| `Metering.RoundExact` | packages/shared/src/ai.ts:328-329 | the stored cost is the nearest whole number of millionths, a half rounded up |
| `Metering.CreditsExact` | packages/shared/src/monetization.ts:436-439 | a charge is the fewest whole credits that cover a positive cost at a positive rate, and none otherwise |
| `Metering.CreditsBounds` | packages/shared/src/monetization.ts:436-439 | a charge covers the cost, is less than a credit above it, and is at least one if and only if the cost is positive |
| `Metering.TotalCreditsBounds` | packages/shared/src/monetization.ts:436-439 | the credits of n calls fall short of the exact cost by at most its rounding, and exceed the stored costs by less than one a call |
| `Metering.ChargingTogether` | packages/shared/src/monetization.ts:436-439 | charging a sum at once never costs more credits than charging its parts |
| `EventBus.DomainEventBus.On` | backend/src/common/events/domain-event-bus.ts:32-36 | a handler is added last to its event and to no other |
| `EventBus.DomainEventBus.Emit` | backend/src/common/events/domain-event-bus.ts:39-53 | an emit takes exactly the handlers subscribed to that event now, each queued once |
| `EventBus.EmitWhileSubscribing` | backend/src/common/events/domain-event-bus.ts:39-54 | handlers subscribed during an emit are not called by it and wait, in order, for the next |
| `EventBus.Isolation` | backend/src/common/events/domain-event-bus.ts:44-53 | in every order of calls and endings no handler runs twice; the emit resolves if and only if each has ended once and no throw escaped its `catch`, and rejects if and only if some handler threw a value on which the `catch` itself throws |
| `EventBus.OneThrow` | backend/src/common/events/domain-event-bus.ts:48-51 | for every thrown value, a single failing handler is swallowed or rejects the emit by whether the `catch` can read and print that value |
| `EventBus.ThrowSamples` | backend/src/common/events/domain-event-bus.ts:48-51 | an ordinary error is swallowed; `null` or `undefined`, and an object whose message is a symbol, are not |
| `EventBus.EmitEnds` | backend/src/common/events/domain-event-bus.ts:44-53 | an emit is over after two steps a handler and until then a step can be taken: it ends whenever its handlers do |

## Left out

- RateLimitLog.RateBound: is about tiers with `max` of at least 0, which is what the tier table holds.
- Metering.TotalCreditsBounds: the upper bound is for token counts and rates that are not negative; the lower bound is for all.
- RefreshProtocol.RotationSafety: does not hold when a refresh is given up half-way; `ReuseRunExact` says exactly when it fails.
- The refresh requests that the reader and admin apps send at start-up, beside `refreshSession`, and several tabs that share a cookie.
- A 2xx refresh envelope whose data has no access token: a refresh that succeeds is taken to bring one.
- Races inside the server's rotation between its reads and writes: it is one step here.
- What the unauthorized handler does, other than change the token from outside, and the `API_OFFLINE` variant of the network error code.
- Timeouts, abort signals and transport: they appear only as the environment's answers.
- A consumer that stops the stream early, a reader that fails, and `releaseLock`.
- Lone surrogates in slugs, documents, key lists and event payloads; only the cursor is modelled over raw UTF-16.
- JSON numbers are kept as their text, so conversion to doubles is not modelled.
- Unicode tables (letters, marks, digits, case, NFKD) are parameters, and costs are exact reals instead of IEEE doubles.
- Header values and exception bodies of a refused request beyond limit, remaining, reset and wait.
- `readingTime`, `clampAiParam`, coupons, entitlements, plan tables, the policy engine and caches: one-line functions, finite tables or code that is not part of this model.
