/** Configuration of the shared Redis client (webapp/src/lib/redis.ts):
    the connection URL built from the `REDIS_HOST` environment variable and
    the reconnect back-off. The client object, its event handlers and the
    start-up connect are I/O and are not modelled. */
module RedisConfig {
  import opened Options

  const UrlScheme: string := "redis://"
  const UrlPortSuffix: string := ":6379"
  const DefaultHost: string := "localhost"

  /** Upper bound, in milliseconds, on the wait between reconnect attempts. */
  const MaxReconnectDelay: int := 2000
  /** Growth of the wait per failed attempt, in milliseconds. */
  const ReconnectStep: int := 50

  /** `process.env.REDIS_HOST || 'localhost'`: an unset or empty variable
      falls back to the default host. */
  function EffectiveHost(redisHost: Option<string>): (h: string)
    ensures |h| > 0
    ensures redisHost.Some? && redisHost.value != "" ==> h == redisHost.value
    ensures redisHost.None? || redisHost.value == "" ==> h == DefaultHost
  {
    match redisHost
    case Some(v) => if v != "" then v else DefaultHost
    case None => DefaultHost
  }

  /** The client's connection URL. */
  function RedisUrl(redisHost: Option<string>): (url: string)
    ensures |url| > |UrlScheme| + |UrlPortSuffix|
    ensures url[..|UrlScheme|] == UrlScheme
    ensures url[|url| - |UrlPortSuffix|..] == UrlPortSuffix
  {
    UrlScheme + EffectiveHost(redisHost) + UrlPortSuffix
  }

  /** The host part of a URL of the shape `redis://<host>:6379`. */
  function UrlHost(url: string): Option<string>
  {
    if |url| > |UrlScheme| + |UrlPortSuffix|
       && url[..|UrlScheme|] == UrlScheme
       && url[|url| - |UrlPortSuffix|..] == UrlPortSuffix
    then Some(url[|UrlScheme|..|url| - |UrlPortSuffix|])
    else None
  }

  /** The URL names the configured host, or `localhost` when none is set. */
  lemma UrlNamesEffectiveHost(redisHost: Option<string>)
    ensures UrlHost(RedisUrl(redisHost)) == Some(EffectiveHost(redisHost))
  {
    var h := EffectiveHost(redisHost);
    var url := RedisUrl(redisHost);
    assert url[|UrlScheme|..|url| - |UrlPortSuffix|] == h;
  }

  /** `Math.min(retries * 50, 2000)`: the wait before reconnect attempt
      number `retries`. */
  function ReconnectDelay(retries: int): (d: int)
    ensures d <= MaxReconnectDelay && d <= ReconnectStep * retries
    ensures d == MaxReconnectDelay || d == ReconnectStep * retries
    ensures 0 <= retries <= 40 ==> d == ReconnectStep * retries
    ensures retries >= 40 ==> d == MaxReconnectDelay
    ensures retries >= 0 ==> d >= 0
    ensures retries == 0 ==> d == 0
  {
    if retries * ReconnectStep < MaxReconnectDelay then retries * ReconnectStep
    else MaxReconnectDelay
  }

  /** A later attempt never waits less than an earlier one. */
  lemma ReconnectDelayMonotone(a: int, b: int)
    requires a <= b
    ensures ReconnectDelay(a) <= ReconnectDelay(b)
  {
  }
}
