# Session and health endpoints of the HA demo web app, in Dafny

This project models the request-handling logic of a small Next.js demo
application: the `/api/session` route, which keeps a per-visitor JSON
document in Redis under an id carried in a `sessionId` cookie; the
`/api/health` route, which pings Redis and MySQL and reports `healthy` or
`degraded`; and the two pure pieces of the Redis client configuration
(connection URL and reconnect back-off).

Every handler is a pure function from its inputs to its response. Redis is a
map from keys to `Entry(text, expiresAt)` on a logical clock in seconds, with
a `reachable` flag that makes every command fail at once. The JSON payload is
a type parameter `J` with an abstract codec (`stringify`, `parse`, `{}`).
The clock, the random text, the ISO time stamp and `APP_NAME` are fields of a
per-request `Context`.

Modules, one per concern:

- `Options` (options.dfy): `Option`, for JavaScript's `undefined`.
- `Text` (text.dfy): substring search and `split`/`join` with their
  round trip, and decimal rendering of the millisecond clock.
- `RedisConfig` (redis_config.dfy): `webapp/src/lib/redis.ts`, lines 4 and 6.
- `SessionCookie` (session_cookie.dfy): id extraction from the `Cookie`
  header, id generation, the Set-Cookie text and the cookie round trip.
- `SessionApi` (session_api.dfy): the Redis model and the GET/POST/other
  dispatch of `/api/session`.
- `Health` (health.dfy): `/api/health`, as written and with the connection
  release corrected.

Where the handlers' evident intent and their code differ, the model follows the code:

- Cookie parsing is a plain substring split on `sessionId=`, not a cookie-name
  match. So `xsessionId=abc` yields `abc`. The value also stops at a second
  `sessionId=`, not only at `;`.
- A stored value that `JSON.parse` rejects makes GET answer 500, like an
  unreachable server. A stored empty string reads as `{}`.
- The MySQL connection is not released when its ping fails, although a
  pooled connection has to be returned on every path or the pool runs dry
  (see Findings).

## Model

| member | source | states |
|---|---|---|
| Text.Split | 2025/resources/ha-webapp-infrastructure/webapp/src/pages/api/session.ts:5 | `split` gives at least one piece, no piece contains the separator, the pieces joined with the separator are the input again, and the first piece is a prefix of the input |
| Text.SplitCutsAtLeftmost | 2025/resources/ha-webapp-infrastructure/webapp/src/pages/api/session.ts:5 | `split` yields exactly one piece when the separator does not occur, and otherwise its first piece ends at the leftmost occurrence, as JavaScript's left-to-right scan does |
| SessionCookie.ExtractSessionId | 2025/resources/ha-webapp-infrastructure/webapp/src/pages/api/session.ts:5 | an extracted id is non-empty and contains neither `;` nor `sessionId=`; no header gives no id |
| SessionCookie.CutAtFirstStop | 2025/resources/ha-webapp-infrastructure/webapp/src/pages/api/session.ts:5 | the two chained `split(...)[i]` calls cut the text after the marker at the first `;`, the next `sessionId=` or the end, whichever comes first |
| SessionCookie.ExtractAfterFirstMarker | 2025/resources/ha-webapp-infrastructure/webapp/src/pages/api/session.ts:5 | with a first occurrence of `sessionId=`, the id is the text after it up to the first `;`, the next marker or the end; an empty cut counts as no id |
| SessionCookie.ExtractWithoutMarker | 2025/resources/ha-webapp-infrastructure/webapp/src/pages/api/session.ts:5 | a header without `sessionId=` yields no id |
| SessionCookie.ExtractMatchesInsideLongerName | 2025/resources/ha-webapp-infrastructure/webapp/src/pages/api/session.ts:5 | the match is on the substring: `xsessionId=abc` yields `abc` |
| SessionCookie.GeneratedId | 2025/resources/ha-webapp-infrastructure/webapp/src/pages/api/session.ts:6 | a generated id starts with `session_` and is longer than that prefix |
| Text.Decimal | 2025/resources/ha-webapp-infrastructure/webapp/src/pages/api/session.ts:6 | the `${Date.now()}` text is a non-empty string of decimal digits that starts with `0` only when it is exactly `0` (no leading zero) |
| Text.DecimalRoundTrip | 2025/resources/ha-webapp-infrastructure/webapp/src/pages/api/session.ts:6 | reading the decimal text back gives the clock reading |
| SessionCookie.GeneratedIdCarriesClock | 2025/resources/ha-webapp-infrastructure/webapp/src/pages/api/session.ts:6 | after the `session_` prefix a generated id carries the decimal text of `Date.now()`, which reads back as the clock reading, followed by `_` and then the `Math.random().toString(36)` text |
| SessionCookie.ResolveSessionId | 2025/resources/ha-webapp-infrastructure/webapp/src/pages/api/session.ts:5-6 | the id is the extracted one when there is a non-empty one, otherwise the generated one |
| SessionCookie.GeneratedIdIsCookieSafe | 2025/resources/ha-webapp-infrastructure/webapp/src/pages/api/session.ts:6 | when the random text is base-36 output, the generated id is non-empty and has no `;` and no `sessionId=` |
| SessionCookie.ResolvedIdIsCookieSafe | 2025/resources/ha-webapp-infrastructure/webapp/src/pages/api/session.ts:5-6 | under the same condition, every id the handler works with can travel in the cookie |
| SessionCookie.CookieEchoRoundTrip | 2025/resources/ha-webapp-infrastructure/webapp/src/pages/api/session.ts:5 | a header with marker-free cookies, then `sessionId=<id>`, then nothing or `;...` yields exactly `id` |
| SessionCookie.SetCookieRoundTrip | 2025/resources/ha-webapp-infrastructure/webapp/src/pages/api/session.ts:13 | `SetCookieHeader`, the Set-Cookie text `sessionId=<id>; Path=/; HttpOnly; SameSite=Lax` of lines 13 and 28, read back as a `Cookie` header, yields `id` for every cookie-safe id |
| SessionCookie.EchoedCookieKeepsId | 2025/resources/ha-webapp-infrastructure/webapp/src/pages/api/session.ts:5-6 | a later request sending back `sessionId=<id>` resolves to the same id, whatever its own clock and random text |
| SessionApi.Get | 2025/resources/ha-webapp-infrastructure/webapp/src/pages/api/session.ts:10 | `get` fails exactly when Redis is unreachable, and returns the stored text exactly when the entry is present and unexpired |
| SessionApi.SetEx | 2025/resources/ha-webapp-infrastructure/webapp/src/pages/api/session.ts:26 | `setEx` fails exactly when Redis is unreachable, is refused exactly when the time-to-live is not positive, and otherwise stores the text under the key with expiry `ttl` seconds after the current clock, so that `get` of the key returns the text while `get` of every other key is unchanged |
| SessionApi.GetSession | 2025/resources/ha-webapp-infrastructure/webapp/src/pages/api/session.ts:9-22 | GET answers 500 with the fixed message and no cookie exactly when Redis fails or the stored text does not parse; otherwise 200 with the cookie, the same id, and the parsed data or `{}` when nothing is stored |
| SessionApi.PostSession | 2025/resources/ha-webapp-infrastructure/webapp/src/pages/api/session.ts:24-36 | POST succeeds exactly when the body serialises and Redis is reachable; it then stores the text under the id with expiry clock+3600 and sets the cookie; on failure it answers 500 and leaves Redis as it was; no other key changes |
| SessionApi.Handle | 2025/resources/ha-webapp-infrastructure/webapp/src/pages/api/session.ts:4-40 | 405 exactly for methods other than GET and POST; only POST changes Redis, and only under the resolved id; a cookie is set exactly on 200, carrying the id used as key; 500 leaves Redis unchanged |
| SessionApi.WriteThenReadSameId | 2025/resources/ha-webapp-infrastructure/webapp/src/pages/api/session.ts:10-26 | after a successful POST under an id, a GET of that id within the hour returns 200 with the posted document, given a JSON codec that round-trips |
| SessionApi.WriteThenReadAfterExpiry | 2025/resources/ha-webapp-infrastructure/webapp/src/pages/api/session.ts:10-26 | an hour or more after a successful POST, a GET of that id returns 200 with `{}` |
| SessionApi.PostThenGetRoundTrip | 2025/resources/ha-webapp-infrastructure/webapp/src/pages/api/session.ts:10-28 | a successful POST, then a GET within the hour that carries the cookie set, returns 200 with the same id and the posted document |
| SessionApi.ExpiredSessionReadsEmpty | 2025/resources/ha-webapp-infrastructure/webapp/src/pages/api/session.ts:10-26 | a GET an hour or more after the POST returns 200 with `{}`, not an error |
| SessionApi.PostsToDistinctSessionsCommute | 2025/resources/ha-webapp-infrastructure/webapp/src/pages/api/session.ts:24-26 | POSTs under two different ids leave Redis in the same state in either order |
| SessionApi.AnonymousVisitorIsPinned | 2025/resources/ha-webapp-infrastructure/webapp/src/pages/api/session.ts:5-15 | a GET without a cookie answers with the generated `session_` id, and a later request sending it back keeps it |
| RedisConfig.EffectiveHost | 2025/resources/ha-webapp-infrastructure/webapp/src/lib/redis.ts:4 | the host is `REDIS_HOST` when set and non-empty, `localhost` otherwise, and never empty |
| RedisConfig.RedisUrl | 2025/resources/ha-webapp-infrastructure/webapp/src/lib/redis.ts:4 | the URL starts with `redis://`, ends with `:6379` and has a non-empty host between |
| RedisConfig.UrlNamesEffectiveHost | 2025/resources/ha-webapp-infrastructure/webapp/src/lib/redis.ts:4 | the host read back out of the URL is the effective host |
| RedisConfig.ReconnectDelay | 2025/resources/ha-webapp-infrastructure/webapp/src/lib/redis.ts:6 | the delay is the smaller of 50·retries and 2000: never above 2000, 50·retries for 0..40, 2000 from 40 on, non-negative for non-negative retries, 0 at 0 |
| RedisConfig.ReconnectDelayMonotone | 2025/resources/ha-webapp-infrastructure/webapp/src/lib/redis.ts:6 | a later attempt never waits less |
| Health.Handle | ha-webapp-infrastructure/webapp/src/pages/api/health.ts:6-35 | the redis flag is the Redis ping outcome; the mysql flag holds exactly when both acquire and ping succeed; status is `healthy` exactly when both flags hold, else `degraded`; code 200 exactly when healthy, else 503; the connection is released exactly when acquired and pinged |
| Health.ChecksAreIndependent | ha-webapp-infrastructure/webapp/src/pages/api/health.ts:16-32 | the Redis and MySQL blocks commute: a Redis failure does not affect the MySQL check |
| Health.PingFailureLeaksConnection | ha-webapp-infrastructure/webapp/src/pages/api/health.ts:24-28 | as written, an acquired connection whose ping fails is not released |
| Health.HandleReleasing | ha-webapp-infrastructure/webapp/src/pages/api/health.ts:24-32 | with release in a `finally`, a connection is released exactly when acquired, and the status is `healthy` exactly when all three calls succeed |
| Health.ReleasingAgreesOnResponse | ha-webapp-infrastructure/webapp/src/pages/api/health.ts:24-35 | the corrected handler sends the same code and the same body as the original |

## Left out

- The Redis client object, its `error` and `connect` handlers and the
  start-up `connect()` (redis.ts lines 10-20): I/O and logging only.
- The MySQL pool (`lib/db`) is not part of this model. Its calls appear
  only as the three boolean outcomes of `Health.Probes`.
- `connection.release()` is assumed not to throw.
- The React page (`index.tsx`) and `next.config.js`: presentation and
  build configuration.
- Real time. Expiry uses a logical clock in whole seconds. An entry written
  at clock `t` is live while the clock is below `t + 3600`; Redis's exact
  boundary instant and its lazy deletion of expired keys are not modelled.
- `JSON.stringify` and `JSON.parse` are an abstract codec. The round-trip
  lemmas assume it round-trips (`SessionApi.RoundTrips`). `stringify`
  answering `None` stands for it returning `undefined` or throwing; either
  way the write does not happen and the handler answers 500.
- `Date.now()`, `Math.random().toString(36)`, `toISOString()` and
  `process.env.APP_NAME` are opaque `Context` fields. Uniqueness of
  generated ids is not modelled.
- `console` logging.
- Concurrency: each request is one atomic step on the Redis model.
  Interleaving inside a request is not modelled.
- `req.method` is a string. An absent method behaves like any other string
  that is not `GET` or `POST`.
- Text.Split: requires a non-empty separator. JavaScript's split on `""`
  is not modelled because the handler only splits on constants.
- RedisConfig.ReconnectDelay: works on unbounded integers, not on
  JavaScript doubles. The two agree for every retry count below 2^53.

## Findings

| source | as written | input that shows it | evidently intended | confidence | as-written member | corrected member |
|---|---|---|---|---|---|---|
| ha-webapp-infrastructure/webapp/src/pages/api/health.ts:25-27 | `connection.release()` is the statement after `await connection.ping()` in the same `try`, so a rejected ping skips it | `getConnection` resolves and `connection.ping()` rejects | release the connection on every path after it is acquired (in a `finally`), since a leaked handle exhausts the pool | high; not executed | Health.PingFailureLeaksConnection | Health.HandleReleasing |
