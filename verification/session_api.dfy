/** The /api/session handler (webapp/src/pages/api/session.ts, lines
    8-39): GET reads the visitor's JSON document from Redis, POST stores
    the request body under the session id for an hour, anything else is
    refused. Redis is a map from keys to entries with an expiry time on a
    logical clock, plus a flag saying whether the server can be reached. */
module SessionApi {
  import opened Options
  import opened Text
  import opened SessionCookie

  /** Time-to-live given to `setEx` on every write, in seconds. */
  const SessionTtl: int := 3600

  const RetrieveFailed: string := "Failed to retrieve session"
  const SaveFailed: string := "Failed to save session"
  const MethodNotAllowed: string := "Method not allowed"
  const SavedMessage: string := "Session saved"

  /** A stored string and the clock value (seconds) at which it expires. */
  datatype Entry = Entry(text: string, expiresAt: int)

  /** The Redis server as the handler sees it. */
  datatype Cache = Cache(entries: map<string, Entry>, clock: int, reachable: bool)

  /** A Redis command fails because the server cannot be reached, is
      refused by the server (an invalid argument), or answers. */
  datatype Reply<T> = Unavailable | Refused | Ok(value: T)

  /** The entry under `key` is present and not yet expired. */
  ghost predicate Live(cache: Cache, key: string) {
    key in cache.entries && cache.clock < cache.entries[key].expiresAt
  }

  /** `GET key`: the stored string, `None` (null) for a missing or expired
      key. */
  function Get(cache: Cache, key: string): (r: Reply<Option<string>>)
    ensures r.Unavailable? <==> !cache.reachable
    ensures r.Ok? ==> (r.value.Some? <==> Live(cache, key))
    ensures r.Ok? && r.value.Some? ==> r.value.value == cache.entries[key].text
  {
    if !cache.reachable then Unavailable
    else if key in cache.entries && cache.clock < cache.entries[key].expiresAt
    then Ok(Some(cache.entries[key].text))
    else Ok(None)
  }

  /** `SETEX key ttl text`: the updated server. The server refuses a
      time-to-live that is not positive ("invalid expire time"). */
  function SetEx(cache: Cache, key: string, ttl: int, text: string): (r: Reply<Cache>)
    ensures r.Unavailable? <==> !cache.reachable
    ensures r.Refused? <==> cache.reachable && ttl <= 0
    ensures r.Ok? ==> r.value.clock == cache.clock && r.value.reachable
    ensures r.Ok? ==> key in r.value.entries && r.value.entries[key] == Entry(text, cache.clock + ttl)
    ensures r.Ok? ==> Get(r.value, key) == Ok(Some(text))
    ensures r.Ok? ==> forall k :: k != key ==> Get(r.value, k) == Get(cache, k)
    ensures r.Ok? ==> r.value.entries - {key} == cache.entries - {key}
  {
    if !cache.reachable then Unavailable
    else if ttl <= 0 then Refused
    else Ok(cache.(entries := cache.entries[key := Entry(text, cache.clock + ttl)]))
  }

  /** The server `elapsed` seconds later. */
  function Advance(cache: Cache, elapsed: nat): Cache {
    cache.(clock := cache.clock + elapsed)
  }

  /** `JSON.stringify` and `JSON.parse` over the application's documents
      `J`, and the empty object `{}`. `stringify` answers `None` where
      JavaScript returns `undefined` or throws; `parse` answers `None`
      where it throws. */
  datatype JsonCodec<!J> = JsonCodec(
    stringify: J -> Option<string>,
    parse: string -> Option<J>,
    emptyObject: J)

  /** Every serialisable document reads back as itself, from a non-empty
      text. */
  ghost predicate RoundTrips<J(!new)>(codec: JsonCodec<J>) {
    forall v :: codec.stringify(v).Some? ==>
      codec.stringify(v).value != "" && codec.parse(codec.stringify(v).value) == Some(v)
  }

  datatype Request<J> = Request(httpMethod: string, cookie: Option<string>, body: J)

  /** The JSON bodies the handler sends. */
  datatype Payload<J> =
    | SessionView(sessionId: string, data: J, server: string, timestamp: string)
    | Saved(message: string, sessionId: string, server: string)
    | Failure(error: string)

  /** Status code, the Set-Cookie header if one was set, and the body. */
  datatype Response<J> = Response(status: int, setCookie: Option<string>, payload: Payload<J>)

  datatype Outcome<J> = Outcome(response: Response<J>, cache: Cache)

  /** The GET branch (lines 9-22). A missing value, and the empty string,
      read as `{}`; a value that does not parse is a failure like an
      unreachable server. */
  function GetSession<J>(codec: JsonCodec<J>, id: string, cache: Cache, ctx: Context)
    : (r: Response<J>)
    ensures r.status == 200 || r.status == 500
    ensures r.status == 500 <==>
      (|| !cache.reachable
       || (Live(cache, id) && cache.entries[id].text != ""
           && codec.parse(cache.entries[id].text).None?))
    ensures r.status == 500 ==> r == Response(500, None, Failure(RetrieveFailed))
    ensures r.status == 200 ==>
      && r.setCookie == Some(SetCookieHeader(id))
      && r.payload.SessionView?
      && r.payload.sessionId == id
      && r.payload.server == ctx.server
      && r.payload.timestamp == ctx.isoTime
    ensures r.status == 200 && (!Live(cache, id) || cache.entries[id].text == "") ==>
      r.payload.data == codec.emptyObject
    ensures r.status == 200 && Live(cache, id) && cache.entries[id].text != "" ==>
      Some(r.payload.data) == codec.parse(cache.entries[id].text)
  {
    match Get(cache, id)
    case Unavailable | Refused => Response(500, None, Failure(RetrieveFailed))
    case Ok(stored) =>
      var parsed :=
        if stored.None? || stored.value == "" then Some(codec.emptyObject)
        else codec.parse(stored.value);
      match parsed
      case None => Response(500, None, Failure(RetrieveFailed))
      case Some(data) =>
        Response(200, Some(SetCookieHeader(id)), SessionView(id, data, ctx.server, ctx.isoTime))
  }

  /** The POST branch (lines 24-36). Serialisation and the write both
      happen inside the `try`, so either failing gives a 500 and leaves
      the server as it was. */
  function PostSession<J>(codec: JsonCodec<J>, id: string, body: J, cache: Cache, ctx: Context)
    : (o: Outcome<J>)
    ensures o.response.status == 200 || o.response.status == 500
    ensures o.response.status == 200 <==> cache.reachable && codec.stringify(body).Some?
    ensures o.response.status == 500 ==>
      o == Outcome(Response(500, None, Failure(SaveFailed)), cache)
    ensures o.response.status == 200 ==>
      && o.response == Response(200, Some(SetCookieHeader(id)), Saved(SavedMessage, id, ctx.server))
      && id in o.cache.entries
      && o.cache.entries[id] == Entry(codec.stringify(body).value, cache.clock + SessionTtl)
    ensures o.cache.entries - {id} == cache.entries - {id}
    ensures o.cache.clock == cache.clock && o.cache.reachable == cache.reachable
  {
    var failed := Outcome(Response(500, None, Failure(SaveFailed)), cache);
    match codec.stringify(body)
    case None => failed
    case Some(text) =>
      match SetEx(cache, id, SessionTtl, text)
      case Unavailable | Refused => failed
      case Ok(cache') =>
        Outcome(Response(200, Some(SetCookieHeader(id)), Saved(SavedMessage, id, ctx.server)), cache')
  }

  /** The whole handler: resolve the id, then dispatch on the method. */
  function Handle<J>(codec: JsonCodec<J>, req: Request<J>, cache: Cache, ctx: Context)
    : (o: Outcome<J>)
    ensures o.response.status == 405 <==> req.httpMethod != "GET" && req.httpMethod != "POST"
    ensures o.response.status == 405 ==> o.response == Response(405, None, Failure(MethodNotAllowed))
    ensures req.httpMethod != "POST" ==> o.cache == cache
    ensures o.response.status == 500 ==> o.cache == cache && o.response.setCookie.None?
    ensures o.response.setCookie.Some? <==> o.response.status == 200
    ensures o.response.status == 200 ==>
      var id := ResolveSessionId(req.cookie, ctx);
      && o.response.setCookie == Some(SetCookieHeader(id))
      && !o.response.payload.Failure?
      && o.response.payload.sessionId == id
    ensures o.cache.entries - {ResolveSessionId(req.cookie, ctx)} == cache.entries - {ResolveSessionId(req.cookie, ctx)}
  {
    var id := ResolveSessionId(req.cookie, ctx);
    if req.httpMethod == "GET" then Outcome(GetSession(codec, id, cache, ctx), cache)
    else if req.httpMethod == "POST" then PostSession(codec, id, req.body, cache, ctx)
    else Outcome(Response(405, None, Failure(MethodNotAllowed)), cache)
  }

  /** Read-after-write on one id: a successful POST, then within the hour a
      GET of the same id, returns the posted document. */
  lemma {:induction false} WriteThenReadSameId<J(!new)>(codec: JsonCodec<J>, id: string, body: J,
                                                        cache: Cache, ctx: Context,
                                                        elapsed: nat, ctx': Context)
    requires RoundTrips(codec)
    requires PostSession(codec, id, body, cache, ctx).response.status == 200
    requires elapsed < SessionTtl
    ensures GetSession(codec, id, Advance(PostSession(codec, id, body, cache, ctx).cache, elapsed), ctx') ==
      Response(200, Some(SetCookieHeader(id)), SessionView(id, body, ctx'.server, ctx'.isoTime))
  {
    var later := Advance(PostSession(codec, id, body, cache, ctx).cache, elapsed);
    var text := codec.stringify(body).value;
    assert Get(later, id) == Ok(Some(text));
    assert codec.parse(text) == Some(body);
  }

  /** An hour or more after a successful POST, a GET of the same id reads
      `{}`. */
  lemma {:induction false} WriteThenReadAfterExpiry<J>(codec: JsonCodec<J>, id: string, body: J,
                                                       cache: Cache, ctx: Context,
                                                       elapsed: nat, ctx': Context)
    requires PostSession(codec, id, body, cache, ctx).response.status == 200
    requires elapsed >= SessionTtl
    ensures GetSession(codec, id, Advance(PostSession(codec, id, body, cache, ctx).cache, elapsed), ctx') ==
      Response(200, Some(SetCookieHeader(id)), SessionView(id, codec.emptyObject, ctx'.server, ctx'.isoTime))
  {
    assert Get(Advance(PostSession(codec, id, body, cache, ctx).cache, elapsed), id) == Ok(None);
  }

  /** A successful POST followed, within the hour, by a GET carrying the
      cookie it set returns the same id and the document that was
      posted. */
  lemma PostThenGetRoundTrip<J(!new)>(codec: JsonCodec<J>, post: Request<J>, cache: Cache,
                                      ctx: Context, id: string, written: Cache,
                                      elapsed: nat, ctx': Context)
    requires RoundTrips(codec)
    requires post.httpMethod == "POST" && Base36Text(ctx.random36)
    requires id == ResolveSessionId(post.cookie, ctx)
    requires Handle(codec, post, cache, ctx) ==
      Outcome(Response(200, Some(SetCookieHeader(id)), Saved(SavedMessage, id, ctx.server)), written)
    requires elapsed < SessionTtl
    ensures Handle(codec, Request("GET", Some(Marker + id), post.body), Advance(written, elapsed), ctx').response ==
      Response(200, Some(SetCookieHeader(id)), SessionView(id, post.body, ctx'.server, ctx'.isoTime))
  {
    EchoedCookieKeepsId(post.cookie, ctx, ctx');
    WriteThenReadSameId(codec, id, post.body, cache, ctx, elapsed, ctx');
  }

  /** Once the hour has passed, a GET reads the session as `{}`, not as an
      error. */
  lemma ExpiredSessionReadsEmpty<J>(codec: JsonCodec<J>, post: Request<J>, cache: Cache,
                                    ctx: Context, id: string, written: Cache,
                                    elapsed: nat, ctx': Context)
    requires post.httpMethod == "POST" && Base36Text(ctx.random36)
    requires id == ResolveSessionId(post.cookie, ctx)
    requires Handle(codec, post, cache, ctx) ==
      Outcome(Response(200, Some(SetCookieHeader(id)), Saved(SavedMessage, id, ctx.server)), written)
    requires elapsed >= SessionTtl
    ensures Handle(codec, Request("GET", Some(Marker + id), post.body), Advance(written, elapsed), ctx').response ==
      Response(200, Some(SetCookieHeader(id)), SessionView(id, codec.emptyObject, ctx'.server, ctx'.isoTime))
  {
    EchoedCookieKeepsId(post.cookie, ctx, ctx');
    WriteThenReadAfterExpiry(codec, id, post.body, cache, ctx, elapsed, ctx');
  }

  /** Writes to two different sessions do not interfere: in either order
      they leave the server in the same state. */
  lemma PostsToDistinctSessionsCommute<J>(codec: JsonCodec<J>, idA: string, bodyA: J,
                                          idB: string, bodyB: J, cache: Cache, ctx: Context)
    requires idA != idB
    ensures
      PostSession(codec, idB, bodyB, PostSession(codec, idA, bodyA, cache, ctx).cache, ctx).cache ==
      PostSession(codec, idA, bodyA, PostSession(codec, idB, bodyB, cache, ctx).cache, ctx).cache
  {
    var ab := PostSession(codec, idB, bodyB, PostSession(codec, idA, bodyA, cache, ctx).cache, ctx).cache;
    var ba := PostSession(codec, idA, bodyA, PostSession(codec, idB, bodyB, cache, ctx).cache, ctx).cache;
    assert ab.entries == ba.entries;
  }

  /** A visitor without a cookie is given the generated id, and a later
      request that sends that cookie back keeps it. */
  lemma AnonymousVisitorIsPinned<J>(codec: JsonCodec<J>, req: Request<J>, cache: Cache,
                                    ctx: Context, ctx': Context)
    requires req.httpMethod == "GET" && req.cookie.None?
    requires Base36Text(ctx.random36)
    requires Handle(codec, req, cache, ctx).response.status == 200
    ensures
      var id := Handle(codec, req, cache, ctx).response.payload.sessionId;
      && id == GeneratedId(ctx)
      && id[..|GeneratedPrefix|] == GeneratedPrefix
      && ResolveSessionId(Some(Marker + id), ctx') == id
  {
    EchoedCookieKeepsId(req.cookie, ctx, ctx');
  }
}
