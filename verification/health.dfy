/** The /api/health handler (webapp/src/pages/api/health.ts): ping Redis,
    then take a pooled MySQL connection and ping it, and fold the two
    outcomes into a status, two flags and an HTTP code. Each dependency
    call is given as a boolean outcome (true: the promise resolved). */
module Health {

  const Healthy: string := "healthy"
  const Degraded: string := "degraded"

  /** Outcomes of `redisClient.ping()`, `pool.getConnection()` and
      `connection.ping()`. The last is only consulted when a connection was
      obtained. */
  datatype Probes = Probes(redisPing: bool, acquire: bool, mysqlPing: bool)

  /** The JSON body: `status`, `server`, `timestamp` and `checks`. */
  datatype Report = Report(status: string, server: string, timestamp: string, redis: bool, mysql: bool)

  /** What happened to the pooled connection. */
  datatype PoolEffect = PoolEffect(acquired: bool, released: bool)

  datatype HealthResponse = HealthResponse(code: int, report: Report, pool: PoolEffect)

  /** The record as built before any check (lines 6-14). */
  function Initial(server: string, timestamp: string): Report {
    Report(Healthy, server, timestamp, false, false)
  }

  /** The Redis `try` block (lines 16-22). */
  function CheckRedis(h: Report, pingOk: bool): Report {
    if pingOk then h.(redis := true) else h.(status := Degraded)
  }

  /** The MySQL `try` block as written (lines 24-32): `release` is the
      statement after the ping, so a rejected ping skips it. */
  function CheckMysql(h: Report, acquireOk: bool, pingOk: bool): (Report, PoolEffect) {
    if !acquireOk then (h.(status := Degraded), PoolEffect(false, false))
    else if !pingOk then (h.(status := Degraded), PoolEffect(true, false))
    else (h.(mysql := true), PoolEffect(true, true))
  }

  /** `health.status === 'healthy' ? 200 : 503` (line 34). */
  function StatusCode(status: string): int {
    if status == Healthy then 200 else 503
  }

  /** The handler as written: both blocks run in turn, whatever the first
      one did, and no failure escapes them. */
  function Handle(probes: Probes, server: string, timestamp: string): (r: HealthResponse)
    ensures r.report.redis == probes.redisPing
    ensures r.report.mysql == (probes.acquire && probes.mysqlPing)
    ensures r.report.status == Healthy <==> r.report.redis && r.report.mysql
    ensures r.report.status == Healthy || r.report.status == Degraded
    ensures r.code == 200 <==> r.report.status == Healthy
    ensures r.code == 200 || r.code == 503
    ensures r.report.server == server && r.report.timestamp == timestamp
    ensures r.pool.acquired == probes.acquire
    ensures r.pool.released <==> probes.acquire && probes.mysqlPing
  {
    var afterRedis := CheckRedis(Initial(server, timestamp), probes.redisPing);
    var (afterMysql, pool) := CheckMysql(afterRedis, probes.acquire, probes.mysqlPing);
    HealthResponse(StatusCode(afterMysql.status), afterMysql, pool)
  }

  /** The two checks do not depend on each other: running them in the
      other order gives the same report. */
  lemma ChecksAreIndependent(h: Report, redisPing: bool, acquire: bool, mysqlPing: bool)
    ensures CheckMysql(CheckRedis(h, redisPing), acquire, mysqlPing).0 ==
            CheckRedis(CheckMysql(h, acquire, mysqlPing).0, redisPing)
  {
  }

  /** As written, a connection whose ping is rejected is never handed back
      to the pool. */
  lemma PingFailureLeaksConnection(redisPing: bool, server: string, timestamp: string)
    ensures
      var r := Handle(Probes(redisPing, true, false), server, timestamp);
      r.pool.acquired && !r.pool.released
  {
  }

  /** The MySQL block with `release` moved to a `finally`: a connection,
      once obtained, is released whether or not the ping succeeds. */
  function CheckMysqlReleasing(h: Report, acquireOk: bool, pingOk: bool): (Report, PoolEffect) {
    if !acquireOk then (h.(status := Degraded), PoolEffect(false, false))
    else if !pingOk then (h.(status := Degraded), PoolEffect(true, true))
    else (h.(mysql := true), PoolEffect(true, true))
  }

  /** The handler with the corrected MySQL block. */
  function HandleReleasing(probes: Probes, server: string, timestamp: string): (r: HealthResponse)
    ensures r.pool.released == r.pool.acquired
    ensures r.pool.acquired == probes.acquire
    ensures r.report.status == Healthy <==> probes.redisPing && probes.acquire && probes.mysqlPing
  {
    var afterRedis := CheckRedis(Initial(server, timestamp), probes.redisPing);
    var (afterMysql, pool) := CheckMysqlReleasing(afterRedis, probes.acquire, probes.mysqlPing);
    HealthResponse(StatusCode(afterMysql.status), afterMysql, pool)
  }

  /** The correction changes nothing the client sees: same code, same
      body; only the pool is left balanced. */
  lemma ReleasingAgreesOnResponse(probes: Probes, server: string, timestamp: string)
    ensures HandleReleasing(probes, server, timestamp).code == Handle(probes, server, timestamp).code
    ensures HandleReleasing(probes, server, timestamp).report == Handle(probes, server, timestamp).report
  {
  }
}
