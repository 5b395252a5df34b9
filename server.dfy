/**
 * backend/src/server.ts: the request metrics, `requireAuth` and
 * `handleRequest`, which answers CORS preflights, the health check and the
 * metrics page itself and hands every other request to the auth, CDN or
 * API handlers, putting read-only mode, authentication and rate limiting
 * in front of the API routes that change files.
 *
 * `Handle` is the whole chain as a function of the state it reads and
 * writes (the file system, the sessions and the rate-limit windows); the
 * `Server` class performs the same calls in the same order on the shared
 * objects and is proved to agree with it. The request id, the ISO time of
 * the health check, the clock and the 32 random bytes of a new session id
 * are parameters.
 */
module Server {
  import opened Base
  import opened Types
  import opened Disk
  import opened Http
  import opened Auth
  import opened RateLimit
  import opened StorageLocal
  import ApiRoutes
  import CdnRoutes
  import AuthRoutes

  // ---------------------------------------------------------------------
  // Metrics
  // ---------------------------------------------------------------------

  /**
   * A `Record<string, number>` of counters in the order its keys were first
   * set, which is the order `Object.entries` reports them in (HTTP methods
   * and paths are never integer-like keys).
   */
  type Counts = seq<(string, nat)>

  function CountOf(counts: Counts, key: string): nat {
    if counts == [] then 0
    else if counts[0].0 == key then counts[0].1
    else CountOf(counts[1..], key)
  }

  function KeysOf(counts: Counts): (r: seq<string>)
    ensures |r| == |counts|
    ensures forall i :: 0 <= i < |r| ==> r[i] == counts[i].0
  {
    if counts == [] then [] else [counts[0].0] + KeysOf(counts[1..])
  }

  predicate DistinctKeys(counts: Counts) {
    forall i, j :: 0 <= i < j < |counts| ==> counts[i].0 != counts[j].0
  }

  /** `counts[key] = (counts[key] || 0) + 1`. */
  function Bump(counts: Counts, key: string): Counts {
    if counts == [] then [(key, 1)]
    else if counts[0].0 == key then [(key, counts[0].1 + 1)] + counts[1..]
    else [counts[0]] + Bump(counts[1..], key)
  }

  /** Bumping a key adds one to its count and leaves every other count as it was. */
  lemma {:induction false} BumpCount(counts: Counts, key: string)
    ensures CountOf(Bump(counts, key), key) == CountOf(counts, key) + 1
    ensures forall other :: other != key ==> CountOf(Bump(counts, key), other) == CountOf(counts, other)
    decreases |counts|
  {
    if counts != [] && counts[0].0 != key {
      var b := Bump(counts, key);
      assert b[0] == counts[0] && b[1..] == Bump(counts[1..], key);
      BumpCount(counts[1..], key);
    }
  }

  /** A key seen before keeps its place; a new key goes last. */
  lemma {:induction false} BumpKeys(counts: Counts, key: string)
    ensures KeysOf(Bump(counts, key)) == if key in KeysOf(counts) then KeysOf(counts) else KeysOf(counts) + [key]
    decreases |counts|
  {
    if counts == [] {
    } else if counts[0].0 == key {
      assert Bump(counts, key)[1..] == counts[1..];
    } else {
      var rest := counts[1..];
      BumpKeys(rest, key);
      var b := Bump(counts, key);
      assert b[0] == counts[0] && b[1..] == Bump(rest, key);
      assert KeysOf(counts) == [counts[0].0] + KeysOf(rest);
      assert KeysOf(b) == [counts[0].0] + KeysOf(Bump(rest, key));
      assert key in KeysOf(counts) <==> key in KeysOf(rest);
    }
  }

  /** A sequence of counts with distinct keys, split at its head. */
  lemma DistinctSplit(counts: Counts)
    requires counts != []
    ensures DistinctKeys(counts) <==> DistinctKeys(counts[1..]) && counts[0].0 !in KeysOf(counts[1..])
  {
    var rest := counts[1..];
    if DistinctKeys(counts) {
      forall i, j | 0 <= i < j < |rest| ensures rest[i].0 != rest[j].0 {
        assert rest[i] == counts[i + 1] && rest[j] == counts[j + 1];
      }
      forall m | 0 <= m < |rest| ensures KeysOf(rest)[m] != counts[0].0 {
        assert rest[m] == counts[m + 1];
      }
    }
    if DistinctKeys(rest) && counts[0].0 !in KeysOf(rest) {
      forall i, j | 0 <= i < j < |counts| ensures counts[i].0 != counts[j].0 {
        assert counts[j] == rest[j - 1];
        if i == 0 {
          assert KeysOf(rest)[j - 1] == counts[j].0;
        } else {
          assert counts[i] == rest[i - 1];
        }
      }
    }
  }

  /** Bumping never makes a key appear twice. */
  lemma {:induction false} BumpDistinct(counts: Counts, key: string)
    requires DistinctKeys(counts)
    ensures DistinctKeys(Bump(counts, key))
    decreases |counts|
  {
    if counts != [] {
      var rest := counts[1..];
      var b := Bump(counts, key);
      DistinctSplit(counts);
      DistinctSplit(b);
      if counts[0].0 == key {
        assert b[0].0 == key && b[1..] == rest;
      } else {
        BumpDistinct(rest, key);
        BumpKeys(rest, key);
        assert b[0] == counts[0] && b[1..] == Bump(rest, key);
      }
    }
  }

  /** `cdn_requests_by_method{method="<m>"} <count>`. */
  function MethodLine(entry: (string, nat)): string {
    "cdn_requests_by_method{method=\"" + entry.0 + "\"} " + NatToString(entry.1)
  }

  /** `Object.entries(requestsByMethod).map(...).join('\n')`. */
  function MethodLines(counts: Counts): string {
    if counts == [] then ""
    else if |counts| == 1 then MethodLine(counts[0])
    else MethodLine(counts[0]) + "\n" + MethodLines(counts[1..])
  }

  /** The fixed text of the metrics page, up to the per-method lines. */
  function MetricsHead(totalRequests: nat, totalErrors: nat): string {
    "# HELP cdn_requests_total Total number of requests\n"
    + "# TYPE cdn_requests_total counter\n"
    + "cdn_requests_total " + NatToString(totalRequests) + "\n"
    + "\n"
    + "# HELP cdn_errors_total Total number of errors\n"
    + "# TYPE cdn_errors_total counter\n"
    + "cdn_errors_total " + NatToString(totalErrors) + "\n"
    + "\n"
    + "# HELP cdn_requests_by_method Requests by HTTP method\n"
    + "# TYPE cdn_requests_by_method counter\n"
  }

  /**
   * The trimmed template of the metrics page. The template starts with a
   * line break and ends with one and the indentation of its closing line;
   * `trim()` drops both, and when no method has been counted it also drops
   * the line break after the last header line.
   */
  function MetricsText(totalRequests: nat, totalErrors: nat, byMethod: Counts): string {
    var head := MetricsHead(totalRequests, totalErrors);
    if byMethod == [] then head[..|head| - 1] else head + MethodLines(byMethod)
  }

  /** Every counted method has its line on the metrics page, in the order the methods were first seen. */
  lemma {:induction false} MethodLineListed(counts: Counts, i: nat)
    requires i < |counts|
    ensures Contains(MethodLines(counts), MethodLine(counts[i]))
    decreases |counts|
  {
    var line := MethodLine(counts[i]);
    if |counts| == 1 || i == 0 {
      assert StartsWith(MethodLines(counts)[0..], line);
      ContainsAt(MethodLines(counts), line, 0);
    } else {
      MethodLineListed(counts[1..], i - 1);
      var rest := MethodLines(counts[1..]);
      var off := ContainsWitness(rest, line);
      var pre := MethodLine(counts[0]) + "\n";
      assert MethodLines(counts) == pre + rest;
      assert (pre + rest)[|pre| + off..] == rest[off..];
      ContainsAt(MethodLines(counts), line, |pre| + off);
    }
  }

  /** The module-level `metrics` object. */
  class Metrics {
    var totalRequests: nat
    var totalErrors: nat
    var requestsByMethod: Counts
    var requestsByPath: Counts

    ghost predicate Valid()
      reads this
    {
      DistinctKeys(requestsByMethod) && DistinctKeys(requestsByPath)
    }

    constructor()
      ensures totalRequests == 0 && totalErrors == 0
      ensures requestsByMethod == [] && requestsByPath == []
      ensures Valid()
    {
      totalRequests := 0;
      totalErrors := 0;
      requestsByMethod := [];
      requestsByPath := [];
    }

    /** The three counter updates at the start of `handleRequest`. */
    method Record(httpMethod: string, path: string)
      requires Valid()
      modifies this
      ensures totalRequests == old(totalRequests) + 1 && totalErrors == old(totalErrors)
      ensures requestsByMethod == Bump(old(requestsByMethod), httpMethod)
      ensures requestsByPath == Bump(old(requestsByPath), path)
      ensures CountOf(requestsByMethod, httpMethod) == CountOf(old(requestsByMethod), httpMethod) + 1
      ensures CountOf(requestsByPath, path) == CountOf(old(requestsByPath), path) + 1
      ensures Valid()
    {
      BumpCount(requestsByMethod, httpMethod);
      BumpCount(requestsByPath, path);
      BumpDistinct(requestsByMethod, httpMethod);
      BumpDistinct(requestsByPath, path);
      totalRequests := totalRequests + 1;
      requestsByMethod := Bump(requestsByMethod, httpMethod);
      requestsByPath := Bump(requestsByPath, path);
    }
  }

  // ---------------------------------------------------------------------
  // Routing
  // ---------------------------------------------------------------------

  /** The protected API handlers `handleRequest` dispatches to. */
  datatype Action = UploadFile | MakeDirectory | MoveEntry | RenameEntry | DeleteEntry | NoHandler

  /** Which branch of `handleRequest` a request takes, tried in the source's order. */
  datatype Route =
    | Preflight
    | HealthCheck
    | MetricsPage
    | LoginRoute
    | LogoutRoute
    | MeRoute
    | CdnFile(file: string)
    | ListRoute
    | ThumbnailRoute
    | ProtectedApi(action: Action)
    | Unrouted

  function ActionOf(path: string, httpMethod: string): Action {
    if path == "/api/upload" && httpMethod == "POST" then UploadFile
    else if path == "/api/mkdir" && httpMethod == "POST" then MakeDirectory
    else if path == "/api/move" && httpMethod == "POST" then MoveEntry
    else if path == "/api/rename" && httpMethod == "POST" then RenameEntry
    else if path == "/api/delete" && httpMethod == "DELETE" then DeleteEntry
    else NoHandler
  }

  /** `/cdn/<file>` is served for any method: `substring(5)` drops the prefix. */
  function RouteOf(config: Config, req: Request): Route {
    var path, m := req.path, req.httpMethod;
    if m == "OPTIONS" then Preflight
    else if path == "/healthz" then HealthCheck
    else if path == "/metrics" && config.enableMetrics then MetricsPage
    else if path == "/api/auth/login" && m == "POST" then LoginRoute
    else if path == "/api/auth/logout" && m == "POST" then LogoutRoute
    else if path == "/api/auth/me" && m == "GET" then MeRoute
    else if StartsWith(path, "/cdn/") then CdnFile(path[5..])
    else if path == "/api/list" && m == "GET" then ListRoute
    else if path == "/api/thumbnail" && m == "GET" then ThumbnailRoute
    else if StartsWith(path, "/api/") then ProtectedApi(ActionOf(path, m))
    else Unrouted
  }

  // ---------------------------------------------------------------------
  // Responses of the server itself
  // ---------------------------------------------------------------------

  const PreflightResponse := Response(204, map[
    "Access-Control-Allow-Origin" := "*",
    "Access-Control-Allow-Methods" := "GET, POST, DELETE, OPTIONS",
    "Access-Control-Allow-Headers" := "Content-Type, Authorization",
    "Access-Control-Max-Age" := "86400"], NoBody)

  /** `timestamp` is `new Date().toISOString()`. */
  function HealthResponse(timestamp: string): Response {
    JsonResponse(200, JObj([("status", JStr("healthy")), ("timestamp", JStr(timestamp))]))
  }

  function MetricsResponse(totalRequests: nat, totalErrors: nat, byMethod: Counts): Response {
    Response(200, map["Content-Type" := "text/plain"], Text(MetricsText(totalRequests, totalErrors, byMethod)))
  }

  const NotFoundText := TextResponse(404, "Not Found")
  const ReadOnly := JsonResponse(403, ErrorJson("Forbidden", "Service is in read-only mode"))
  const AuthenticationRequired := JsonResponse(401, ErrorJson("Unauthorized", "Authentication required"))

  /** `Math.ceil((resetAt - Date.now()) / 1000)`. */
  function RetryAfter(d: Decision, now: int): int {
    CeilDiv(d.resetAt - now, 1000)
  }

  function RateLimited(d: Decision, now: int): Response {
    var wait := RetryAfter(d, now);
    Response(429, map[
      "Content-Type" := "application/json",
      "Retry-After" := IntToString(wait),
      "X-RateLimit-Remaining" := IntToString(d.remaining)],
      JsonBody(JObj([("error", JStr("Too Many Requests")), ("message", JStr("Rate limit exceeded")),
                     ("retryAfter", JNum(wait))])))
  }

  /** The routed response with the `X-Request-ID` header set. */
  function Tagged(r: Response, requestId: string): Response {
    r.(headers := r.headers["X-Request-ID" := requestId])
  }

  // ---------------------------------------------------------------------
  // The state and the chain
  // ---------------------------------------------------------------------

  /** What the handlers change: the files, the sessions and the rate-limit windows. */
  datatype State = State(fs: Fs, sessions: map<string, Session>, limits: map<string, Entry>)

  /**
   * The handlers' settings and foreign calls: the API context (with the
   * configuration), the CDN's date parser and formatter, and the password
   * check.
   */
  datatype Env = Env(
    ctx: ApiRoutes.Context,
    parseDate: string -> Option<int>,
    formatDate: nat -> string,
    verify: (string, string) -> bool)

  /** `requireAuth(req)`: whether the cookie names a live session; looking it up refreshes or drops it. */
  function Authenticate(sessions: map<string, Session>, req: Request, now: int): (bool, map<string, Session>) {
    match AuthRoutes.SessionIdOf(Header(req, "cookie"))
    case None => (false, sessions)
    case Some(id) =>
      var (session, after) := Lookup(sessions, id, now);
      (session.Some?, after)
  }

  /** `X-Forwarded-For || X-Real-IP || 'unknown'`. */
  function ClientIp(req: Request): string {
    OrElse(Header(req, "x-forwarded-for"), OrElse(Header(req, "x-real-ip"), "unknown"))
  }

  /**
   * The checks in front of the protected API routes, in order: read-only
   * mode refuses every method but GET, then a live session is required,
   * then every method but GET is counted against the client's window. The
   * response that stops the request, if one does, and the sessions and
   * windows after the checks.
   */
  function Guard(config: Config, st: State, req: Request, now: int): (Option<Response>, State) {
    if config.readonly && req.httpMethod != "GET" then (Some(ReadOnly), st)
    else
      var (authenticated, sessions) := Authenticate(st.sessions, req, now);
      if !authenticated then (Some(AuthenticationRequired), st.(sessions := sessions))
      else if req.httpMethod != "GET" then
        var (d, limits) := Step(st.limits, config.rateLimitRequests, config.rateLimitWindow, ClientIp(req), now);
        if !d.allowed then (Some(RateLimited(d, now)), st.(sessions := sessions, limits := limits))
        else (None, st.(sessions := sessions, limits := limits))
      else (None, st.(sessions := sessions))
  }

  /** The protected handler's response and file system. */
  function ActionAnswer(fs: Fs, ctx: ApiRoutes.Context, action: Action, req: Request, now: nat): (Response, Fs) {
    match action
    case UploadFile => ApiRoutes.UploadAnswer(fs, ctx, req, now)
    case MakeDirectory => ApiRoutes.MkdirAnswer(fs, req, now)
    case MoveEntry => ApiRoutes.MoveAnswer(fs, req, now)
    case RenameEntry => ApiRoutes.RenameAnswer(fs, req, now)
    case DeleteEntry => ApiRoutes.DeleteAnswer(fs, ctx, req)
    case NoHandler => (NotFoundText, fs)
  }

  /** The protected API branch: the checks, then the handler, whose response is tagged. */
  function Protect(env: Env, st: State, action: Action, req: Request, requestId: string, now: nat): (Response, State) {
    var (stop, st1) := Guard(env.ctx.config, st, req, now);
    if stop.Some? then (stop.value, st1)
    else
      var (r, fs) := ActionAnswer(st1.fs, env.ctx, action, req, now);
      (Tagged(r, requestId), st1.(fs := fs))
  }

  /** The list handler's response for what `storage.list` gave. */
  function ListOutcome(env: Env, req: Request, listed: Result<seq<FileInfo>, string>): Response {
    match ApiRoutes.ListPath(req)
    case Err(_) => ApiRoutes.ListFailed
    case Ok(p) => ApiRoutes.ListAnswer(p, listed, env.ctx.config.baseUrl, env.ctx.encodeUri)
  }

  /** `listed` is what `storage.list` returns for a list request: its order is not fixed. */
  ghost predicate ListingFor(env: Env, st: State, req: Request, listed: Result<seq<FileInfo>, string>) {
    RouteOf(env.ctx.config, req) == ListRoute && ApiRoutes.ListPath(req).Ok? ==>
      IsListing(st.fs, env.ctx.mimeLookup, ApiRoutes.ListPath(req).value, listed)
  }

  /**
   * `handleRequest(req)` after the metrics are updated: the response and
   * the state after it. The metrics page shows the counters given, which
   * already count this request.
   */
  function Handle(env: Env, st: State, req: Request, requestId: string, timestamp: string, random: seq<byte>,
                  now: nat, totalRequests: nat, totalErrors: nat, byMethod: Counts,
                  listed: Result<seq<FileInfo>, string>): (Response, State)
  {
    Answer(env, st, RouteOf(env.ctx.config, req), req, requestId, timestamp, random, now,
           totalRequests, totalErrors, byMethod, listed)
  }

  /** The answer of the handler `route` names, and the state after it. */
  function Answer(env: Env, st: State, route: Route, req: Request, requestId: string, timestamp: string,
                  random: seq<byte>, now: nat, totalRequests: nat, totalErrors: nat, byMethod: Counts,
                  listed: Result<seq<FileInfo>, string>): (Response, State)
  {
    match route
    case Preflight => (PreflightResponse, st)
    case HealthCheck => (HealthResponse(timestamp), st)
    case MetricsPage => (MetricsResponse(totalRequests, totalErrors, byMethod), st)
    case LoginRoute => AuthAnswer(env, st, route, req, requestId, random, now)
    case LogoutRoute => AuthAnswer(env, st, route, req, requestId, random, now)
    case MeRoute => AuthAnswer(env, st, route, req, requestId, random, now)
    case CdnFile(_) => FileAnswer(env, st, route, req, requestId, now, listed)
    case ListRoute => FileAnswer(env, st, route, req, requestId, now, listed)
    case ThumbnailRoute => FileAnswer(env, st, route, req, requestId, now, listed)
    case ProtectedApi(action) => Protect(env, st, action, req, requestId, now)
    case Unrouted => (Tagged(NotFoundText, requestId), st)
  }

  /** `/api/auth/login`, `/api/auth/logout` and `/api/auth/me`. */
  function AuthAnswer(env: Env, st: State, route: Route, req: Request, requestId: string,
                      random: seq<byte>, now: nat): (Response, State)
    requires route.LoginRoute? || route.LogoutRoute? || route.MeRoute?
  {
    match route
    case LoginRoute =>
      var (r, sessions) := AuthRoutes.LoginAnswer(st.sessions, env.ctx.config, env.verify, req, random, now);
      (Tagged(r, requestId), st.(sessions := sessions))
    case LogoutRoute => (Tagged(AuthRoutes.LoggedOut, requestId), st.(sessions := AuthRoutes.LogoutSessions(st.sessions, req)))
    case MeRoute =>
      var (r, sessions) := AuthRoutes.MeAnswer(st.sessions, req, now);
      (Tagged(r, requestId), st.(sessions := sessions))
  }

  /** Files under `/cdn/`, `GET /api/list` and `/api/thumbnail`. */
  function FileAnswer(env: Env, st: State, route: Route, req: Request, requestId: string, now: nat,
                      listed: Result<seq<FileInfo>, string>): (Response, State)
    requires route.CdnFile? || route.ListRoute? || route.ThumbnailRoute?
  {
    var ctx := env.ctx;
    match route
    case CdnFile(file) =>
      (Tagged(CdnRoutes.ServeFileResponse(st.fs, ctx.rootName, ctx.mimeLookup, file, req, env.parseDate, env.formatDate),
              requestId), st)
    case ListRoute => (Tagged(ListOutcome(env, req, listed), requestId), st)
    case ThumbnailRoute =>
      var (r, fs) := ApiRoutes.ThumbnailAnswer(st.fs, ctx, req, now);
      (Tagged(r, requestId), st.(fs := fs))
  }

  // ---------------------------------------------------------------------
  // The server
  // ---------------------------------------------------------------------

  class Server {
    const config: Config
    const cdn: CdnRoutes.CdnRoutes
    const api: ApiRoutes.ApiRoutes
    const auth: AuthRoutes.AuthRoutes
    const limiter: RateLimiter
    const metrics: Metrics

    /** One storage adapter, one configuration and one session store behind every handler. */
    ghost predicate Valid()
      reads this, cdn, api, api.storage, api.thumbnails, api.storage.fsys, auth, auth.store, limiter, metrics
    {
      api.Valid() && cdn.storage == api.storage && api.config == config && auth.config == config
      && auth.store.Valid() && limiter.Valid() && metrics.Valid()
      && limiter.maxRequests == config.rateLimitRequests && limiter.windowMs == config.rateLimitWindow
    }

    function EnvOf(): Env {
      Env(api.Ctx(), cdn.parseDate, cdn.formatDate, auth.verify)
    }

    function StateOf(): State
      reads this, api, api.storage, api.storage.fsys, auth, auth.store, limiter
    {
      State(api.storage.fsys.fs, auth.store.sessions, limiter.limits)
    }

    constructor(config: Config, cdn: CdnRoutes.CdnRoutes, api: ApiRoutes.ApiRoutes, auth: AuthRoutes.AuthRoutes,
                limiter: RateLimiter, metrics: Metrics)
      requires api.Valid() && cdn.storage == api.storage && api.config == config && auth.config == config
      requires auth.store.Valid() && limiter.Valid() && metrics.Valid()
      requires limiter.maxRequests == config.rateLimitRequests && limiter.windowMs == config.rateLimitWindow
      ensures this.config == config && this.cdn == cdn && this.api == api && this.auth == auth
      ensures this.limiter == limiter && this.metrics == metrics
      ensures Valid()
    {
      this.config := config;
      this.cdn := cdn;
      this.api := api;
      this.auth := auth;
      this.limiter := limiter;
      this.metrics := metrics;
    }

    /**
     * `handleRequest(req)`. `listed` is what the list handler's
     * `storage.list` returned, when the request is a list request.
     */
    method HandleRequest(req: Request, requestId: string, timestamp: string, random: seq<byte>, now: nat)
      returns (r: Response, ghost listed: Result<seq<FileInfo>, string>)
      requires Valid() && |random| == 32
      modifies metrics, api.storage.fsys, auth.store, limiter
      ensures metrics.totalRequests == old(metrics.totalRequests) + 1
      ensures metrics.totalErrors == old(metrics.totalErrors)
      ensures metrics.requestsByMethod == Bump(old(metrics.requestsByMethod), req.httpMethod)
      ensures metrics.requestsByPath == Bump(old(metrics.requestsByPath), req.path)
      ensures ListingFor(EnvOf(), old(StateOf()), req, listed)
      ensures (r, StateOf()) == Handle(EnvOf(), old(StateOf()), req, requestId, timestamp, random, now,
                                       metrics.totalRequests, metrics.totalErrors, metrics.requestsByMethod, listed)
      ensures Valid()
    {
      metrics.Record(req.httpMethod, req.path);
      r, listed := Route(req, requestId, timestamp, random, now);
    }

    /** Everything `handleRequest` does after the counters. */
    method Route(req: Request, requestId: string, timestamp: string, random: seq<byte>, now: nat)
      returns (r: Response, ghost listed: Result<seq<FileInfo>, string>)
      requires Valid() && |random| == 32
      modifies api.storage.fsys, auth.store, limiter
      ensures ListingFor(EnvOf(), old(StateOf()), req, listed)
      ensures (r, StateOf()) == Handle(EnvOf(), old(StateOf()), req, requestId, timestamp, random, now,
                                       metrics.totalRequests, metrics.totalErrors, metrics.requestsByMethod, listed)
      ensures Valid()
    {
      listed := Err("");
      var route := RouteOf(config, req);
      match route
      case Preflight =>
        r := PreflightResponse;
      case HealthCheck =>
        r := HealthResponse(timestamp);
      case MetricsPage =>
        r := MetricsResponse(metrics.totalRequests, metrics.totalErrors, metrics.requestsByMethod);
      case LoginRoute =>
        r := AuthRoute(route, req, requestId, random, now);
      case LogoutRoute =>
        r := AuthRoute(route, req, requestId, random, now);
      case MeRoute =>
        r := AuthRoute(route, req, requestId, random, now);
      case CdnFile(file) =>
        r, listed := FileRoute(route, req, requestId, now);
      case ListRoute =>
        r, listed := FileRoute(route, req, requestId, now);
      case ThumbnailRoute =>
        r, listed := FileRoute(route, req, requestId, now);
      case ProtectedApi(action) =>
        r := Protected(action, req, requestId, now);
      case Unrouted =>
        r := Tagged(NotFoundText, requestId);
    }

    /** The login, logout and me routes. */
    method AuthRoute(route: Route, req: Request, requestId: string, random: seq<byte>, now: nat)
      returns (r: Response)
      requires Valid() && |random| == 32
      requires route.LoginRoute? || route.LogoutRoute? || route.MeRoute?
      modifies auth.store
      ensures (r, StateOf()) == AuthAnswer(EnvOf(), old(StateOf()), route, req, requestId, random, now)
      ensures Valid()
    {
      if route.LoginRoute? {
        r := auth.Login(req, random, now);
      } else if route.LogoutRoute? {
        r := auth.Logout(req);
      } else {
        r := auth.Me(req, now);
      }
      r := Tagged(r, requestId);
    }

    /** The file routes: files under `/cdn/`, the listing and the thumbnails. */
    method FileRoute(route: Route, req: Request, requestId: string, now: nat)
      returns (r: Response, ghost listed: Result<seq<FileInfo>, string>)
      requires Valid()
      requires route.CdnFile? || route.ListRoute? || route.ThumbnailRoute?
      modifies api.storage.fsys
      ensures route.ListRoute? && ApiRoutes.ListPath(req).Ok? ==>
                IsListing(old(api.storage.fsys.fs), api.storage.mimeLookup, ApiRoutes.ListPath(req).value, listed)
      ensures (r, StateOf()) == FileAnswer(EnvOf(), old(StateOf()), route, req, requestId, now, listed)
      ensures Valid()
    {
      listed := Err("");
      if route.CdnFile? {
        r := cdn.ServeFile(route.file, req);
      } else if route.ListRoute? {
        r := api.List(req);
        if ApiRoutes.ListPath(req).Ok? {
          listed :| IsListing(api.storage.fsys.fs, api.storage.mimeLookup, ApiRoutes.ListPath(req).value, listed)
                    && r == ApiRoutes.ListAnswer(ApiRoutes.ListPath(req).value, listed, config.baseUrl, api.encodeUri);
        }
      } else {
        r := api.Thumbnail(req, now);
      }
      r := Tagged(r, requestId);
    }

    /** `requireAuth(req)`. */
    method RequireAuth(req: Request, now: int) returns (authenticated: bool)
      requires auth.store.Valid()
      modifies auth.store
      ensures (authenticated, auth.store.sessions) == Authenticate(old(auth.store.sessions), req, now)
      ensures auth.store.Valid()
    {
      var sessionId := AuthRoutes.SessionIdOf(Header(req, "cookie"));
      if sessionId.None? {
        return false;
      }
      var session := auth.store.GetSession(sessionId.value, now);
      authenticated := session.Some?;
    }

    /** The protected API branch. */
    method Protected(action: Action, req: Request, requestId: string, now: nat) returns (r: Response)
      requires Valid()
      modifies api.storage.fsys, auth.store, limiter
      ensures (r, StateOf()) == Protect(EnvOf(), old(StateOf()), action, req, requestId, now)
      ensures Valid()
    {
      var stop := Checks(req, now);
      if stop.Some? {
        return stop.value;
      }
      r := Dispatch(action, req, now);
      r := Tagged(r, requestId);
    }

    /** Read-only mode, `requireAuth` and the rate limiter, in that order. */
    method Checks(req: Request, now: nat) returns (stop: Option<Response>)
      requires auth.store.Valid() && limiter.Valid()
      requires limiter.maxRequests == config.rateLimitRequests && limiter.windowMs == config.rateLimitWindow
      modifies auth.store, limiter
      ensures (stop, State(api.storage.fsys.fs, auth.store.sessions, limiter.limits))
              == Guard(config, State(api.storage.fsys.fs, old(auth.store.sessions), old(limiter.limits)), req, now)
      ensures auth.store.Valid() && limiter.Valid()
    {
      if config.readonly && req.httpMethod != "GET" {
        return Some(ReadOnly);
      }
      var authenticated := RequireAuth(req, now);
      if !authenticated {
        return Some(AuthenticationRequired);
      }
      stop := None;
      if req.httpMethod != "GET" {
        var rateLimitResult := limiter.Check(ClientIp(req), now);
        if !rateLimitResult.allowed {
          stop := Some(RateLimited(rateLimitResult, now));
        }
      }
    }

    /** The handler a protected request reaches once the checks let it through. */
    method Dispatch(action: Action, req: Request, now: nat) returns (r: Response)
      requires api.Valid()
      modifies api.storage.fsys
      ensures (r, api.storage.fsys.fs) == ActionAnswer(old(api.storage.fsys.fs), api.Ctx(), action, req, now)
      ensures api.Valid()
    {
      match action
      case UploadFile => r := api.Upload(req, now);
      case MakeDirectory => r := api.Mkdir(req, now);
      case MoveEntry => r := api.Move(req, now);
      case RenameEntry => r := api.Rename(req, now);
      case DeleteEntry => r := api.Delete(req);
      case NoHandler => r := NotFoundText;
    }
  }

  // ---------------------------------------------------------------------
  // Properties of the chain
  // ---------------------------------------------------------------------

  /** Whether a request reaches the end of `handleRequest`, where `X-Request-ID` is set. */
  predicate Routed(config: Config, st: State, req: Request, now: int) {
    match RouteOf(config, req)
    case Preflight => false
    case HealthCheck => false
    case MetricsPage => false
    case ProtectedApi(_) => Guard(config, st, req, now).0.None?
    case _ => true
  }

  /** The public routes, by path and method. */
  predicate PublicApi(path: string, httpMethod: string) {
    (path == "/api/auth/login" && httpMethod == "POST")
    || (path == "/api/auth/logout" && httpMethod == "POST")
    || (path == "/api/auth/me" && httpMethod == "GET")
    || (path == "/api/list" && httpMethod == "GET")
    || (path == "/api/thumbnail" && httpMethod == "GET")
  }

  /**
   * The routing table: OPTIONS comes before everything; the health check
   * answers every method; the metrics page exists only when enabled; every
   * method on `/cdn/` is served the file after the prefix; a public API
   * path with another method falls into the protected branch, where no
   * handler takes it; the write routes are never GETs.
   */
  lemma RouteTable(config: Config, req: Request)
    ensures req.httpMethod == "OPTIONS" ==> RouteOf(config, req) == Preflight
    ensures req.httpMethod != "OPTIONS" && req.path == "/healthz" ==> RouteOf(config, req) == HealthCheck
    ensures req.httpMethod != "OPTIONS" && req.path == "/metrics" ==>
              RouteOf(config, req) == if config.enableMetrics then MetricsPage else Unrouted
    ensures req.httpMethod != "OPTIONS" && StartsWith(req.path, "/cdn/") ==> RouteOf(config, req) == CdnFile(req.path[5..])
    ensures req.httpMethod != "OPTIONS" && !PublicApi(req.path, req.httpMethod)
            && req.path in {"/api/auth/login", "/api/auth/logout", "/api/auth/me", "/api/list", "/api/thumbnail"} ==>
              RouteOf(config, req) == ProtectedApi(NoHandler)
    ensures ActionOf(req.path, req.httpMethod) != NoHandler ==> req.httpMethod in {"POST", "DELETE"}
  {
    var path := req.path;
    if StartsWith(path, "/cdn/") {
      assert path[1] == 'c';
      assert "/healthz"[1] == 'h' && "/metrics"[1] == 'm' && "/api/auth/login"[1] == 'a';
      assert "/api/auth/logout"[1] == 'a' && "/api/auth/me"[1] == 'a';
    }
    if path in {"/api/auth/login", "/api/auth/logout", "/api/auth/me", "/api/list", "/api/thumbnail"} {
      assert path[..5] == "/api/";
      assert !StartsWith(path, "/cdn/") by { assert path[1] == 'a'; }
      assert path != "/healthz" && path != "/metrics" by { assert |path| > 8; }
      assert path !in {"/api/upload", "/api/mkdir", "/api/move", "/api/rename", "/api/delete"} by {
        assert path[5] != 'u' && path[5] != 'm' && path[5] != 'r' && path[5] != 'd';
      }
    }
  }

  /** A request the table does not route is a tagged 404 and changes nothing. */
  lemma UnroutedIsNotFound(env: Env, st: State, req: Request, requestId: string, timestamp: string,
                           random: seq<byte>, now: nat, totalRequests: nat, totalErrors: nat, byMethod: Counts,
                           listed: Result<seq<FileInfo>, string>)
    requires req.httpMethod != "OPTIONS" && req.path != "/healthz" && req.path != "/metrics"
    requires !StartsWith(req.path, "/api/") && !StartsWith(req.path, "/cdn/")
    ensures Handle(env, st, req, requestId, timestamp, random, now, totalRequests, totalErrors, byMethod, listed)
            == (Tagged(NotFoundText, requestId), st)
  {
    assert StartsWith("/api/auth/login", "/api/") && StartsWith("/api/auth/logout", "/api/");
    assert StartsWith("/api/auth/me", "/api/") && StartsWith("/api/list", "/api/") && StartsWith("/api/thumbnail", "/api/");
  }

  /** Outside the protected branch only the thumbnail route writes files. */
  lemma PublicRoutesKeepFiles(env: Env, st: State, req: Request, requestId: string, timestamp: string,
    random: seq<byte>, now: nat, totalRequests: nat, totalErrors: nat, byMethod: Counts,
    listed: Result<seq<FileInfo>, string>)
    requires !RouteOf(env.ctx.config, req).ProtectedApi? && RouteOf(env.ctx.config, req) != ThumbnailRoute
    ensures Handle(env, st, req, requestId, timestamp, random, now, totalRequests, totalErrors, byMethod, listed).1.fs == st.fs
  {
  }

  /**
   * In the protected branch the files change only through a handler the
   * request reached past every check, so with a live session.
   */
  lemma ProtectedFiles(env: Env, st: State, req: Request, requestId: string, timestamp: string,
    random: seq<byte>, now: nat, totalRequests: nat, totalErrors: nat, byMethod: Counts,
    listed: Result<seq<FileInfo>, string>)
    requires RouteOf(env.ctx.config, req).ProtectedApi?
    ensures Handle(env, st, req, requestId, timestamp, random, now, totalRequests, totalErrors, byMethod, listed).1.fs != st.fs ==>
              RouteOf(env.ctx.config, req).action != NoHandler && Guard(env.ctx.config, st, req, now).0.None?
              && Authenticate(st.sessions, req, now).0
  {
    var (stop, st1) := Guard(env.ctx.config, st, req, now);
    assert st1.fs == st.fs;
    assert stop.None? ==> Authenticate(st.sessions, req, now).0;
  }

  /** In read-only mode the files change only through thumbnails made on demand. */
  lemma ReadOnlyKeepsFiles(env: Env, st: State, req: Request, requestId: string, timestamp: string,
    random: seq<byte>, now: nat, totalRequests: nat, totalErrors: nat, byMethod: Counts,
    listed: Result<seq<FileInfo>, string>)
    requires env.ctx.config.readonly
    requires RouteOf(env.ctx.config, req) != ThumbnailRoute
    ensures Handle(env, st, req, requestId, timestamp, random, now, totalRequests, totalErrors, byMethod, listed).1.fs == st.fs
  {
    RouteTable(env.ctx.config, req);
    if RouteOf(env.ctx.config, req).ProtectedApi? {
      ProtectedFiles(env, st, req, requestId, timestamp, random, now, totalRequests, totalErrors, byMethod, listed);
    } else {
      PublicRoutesKeepFiles(env, st, req, requestId, timestamp, random, now, totalRequests, totalErrors, byMethod, listed);
    }
  }

  /** Only the protected branch consults the rate limiter. */
  lemma PublicRoutesKeepLimits(env: Env, st: State, req: Request, requestId: string, timestamp: string,
                               random: seq<byte>, now: nat, totalRequests: nat, totalErrors: nat, byMethod: Counts,
                               listed: Result<seq<FileInfo>, string>)
    requires !RouteOf(env.ctx.config, req).ProtectedApi?
    ensures Handle(env, st, req, requestId, timestamp, random, now, totalRequests, totalErrors, byMethod, listed).1.limits
            == st.limits
  {
  }

  /**
   * In the protected branch the rate-limit windows move exactly on a request
   * other than a GET, outside read-only mode, once its session has been
   * found.
   */
  lemma ProtectedLimits(env: Env, st: State, req: Request, requestId: string, timestamp: string,
                        random: seq<byte>, now: nat, totalRequests: nat, totalErrors: nat, byMethod: Counts,
                        listed: Result<seq<FileInfo>, string>)
    requires RouteOf(env.ctx.config, req).ProtectedApi?
    ensures var config := env.ctx.config;
      Handle(env, st, req, requestId, timestamp, random, now, totalRequests, totalErrors, byMethod, listed).1.limits
      == if !config.readonly && req.httpMethod != "GET" && Authenticate(st.sessions, req, now).0
         then Step(st.limits, config.rateLimitRequests, config.rateLimitWindow, ClientIp(req), now).1
         else st.limits
  {
    var route := RouteOf(env.ctx.config, req);
    assert Handle(env, st, req, requestId, timestamp, random, now, totalRequests, totalErrors, byMethod, listed)
           == Protect(env, st, route.action, req, requestId, now);
    ProtectKeepsGuardLimits(env, st, route.action, req, requestId, now);
  }

  /** The handler behind the checks leaves the windows as the checks left them. */
  lemma ProtectKeepsGuardLimits(env: Env, st: State, action: Action, req: Request, requestId: string, now: nat)
    ensures Protect(env, st, action, req, requestId, now).1.limits == Guard(env.ctx.config, st, req, now).1.limits
  {
  }

  /**
   * The protected branch decides in order: read-only mode (403, before any
   * session is looked up), then the session (401), then the client's window
   * (429), and only then the handler, whose response is tagged.
   */
  lemma ProtectedOrder(env: Env, st: State, req: Request, requestId: string, timestamp: string,
                       random: seq<byte>, now: nat, totalRequests: nat, totalErrors: nat, byMethod: Counts,
                       listed: Result<seq<FileInfo>, string>)
    requires RouteOf(env.ctx.config, req).ProtectedApi?
    ensures var config := env.ctx.config;
      var (r, st') := Handle(env, st, req, requestId, timestamp, random, now, totalRequests, totalErrors, byMethod, listed);
      var (authenticated, sessions) := Authenticate(st.sessions, req, now);
      var (d, limits) := Step(st.limits, config.rateLimitRequests, config.rateLimitWindow, ClientIp(req), now);
      var blocked := config.readonly && req.httpMethod != "GET";
      (blocked ==> r == ReadOnly && r.status == 403 && st' == st)
      && (!blocked && !authenticated ==> r == AuthenticationRequired && r.status == 401 && st' == st.(sessions := sessions))
      && (!blocked && authenticated && req.httpMethod != "GET" && !d.allowed ==>
            r == RateLimited(d, now) && r.status == 429 && st' == st.(sessions := sessions, limits := limits))
      && (!blocked && authenticated && (req.httpMethod == "GET" || d.allowed) ==>
            var (answer, fs) := ActionAnswer(st.fs, env.ctx, RouteOf(config, req).action, req, now);
            r == Tagged(answer, requestId) && st'.fs == fs && st'.sessions == sessions)
  {
    var route := RouteOf(env.ctx.config, req);
    assert Handle(env, st, req, requestId, timestamp, random, now, totalRequests, totalErrors, byMethod, listed)
           == Protect(env, st, route.action, req, requestId, now);
  }

  /** The preflight, health and metrics answers carry no `X-Request-ID`. */
  lemma ServerPagesUntagged(env: Env, st: State, req: Request, requestId: string, timestamp: string,
    random: seq<byte>, now: nat, totalRequests: nat, totalErrors: nat, byMethod: Counts,
    listed: Result<seq<FileInfo>, string>)
    requires RouteOf(env.ctx.config, req) in {Preflight, HealthCheck, MetricsPage}
    ensures "X-Request-ID" !in Handle(env, st, req, requestId, timestamp, random, now, totalRequests, totalErrors, byMethod, listed).0.headers
  {
    var id := "X-Request-ID";
    assert id != "Content-Type" by { assert id[0] == 'X'; }
    assert id != "Access-Control-Allow-Origin" && id != "Access-Control-Allow-Methods" by { assert id[0] == 'X'; }
    assert id != "Access-Control-Allow-Headers" && id != "Access-Control-Max-Age" by { assert id[0] == 'X'; }
  }

  /** The refusals of the checks (403, 401, 429) carry no `X-Request-ID`. */
  lemma GuardRefusalsUntagged(config: Config, st: State, req: Request, now: int)
    ensures var stop := Guard(config, st, req, now).0;
      stop.Some? ==> stop.value.status in {401, 403, 429} && "X-Request-ID" !in stop.value.headers
  {
    var id := "X-Request-ID";
    assert id != "Content-Type" && id != "Retry-After" && id != "X-RateLimit-Remaining" by { assert id[2] == 'R'; }
  }

  /** So the refusals of the protected branch reach the client without `X-Request-ID`. */
  lemma RefusalsUntagged(env: Env, st: State, req: Request, requestId: string, timestamp: string,
    random: seq<byte>, now: nat, totalRequests: nat, totalErrors: nat, byMethod: Counts,
    listed: Result<seq<FileInfo>, string>)
    requires RouteOf(env.ctx.config, req).ProtectedApi? && Guard(env.ctx.config, st, req, now).0.Some?
    ensures "X-Request-ID" !in Handle(env, st, req, requestId, timestamp, random, now, totalRequests, totalErrors, byMethod, listed).0.headers
  {
    GuardRefusalsUntagged(env.ctx.config, st, req, now);
    assert Handle(env, st, req, requestId, timestamp, random, now, totalRequests, totalErrors, byMethod, listed) == Protect(env, st, RouteOf(env.ctx.config, req).action, req, requestId, now);
  }

  /** Every answer that reaches the end of `handleRequest` carries the request's id. */
  lemma RoutedAnswersTagged(env: Env, st: State, req: Request, requestId: string, timestamp: string,
                            random: seq<byte>, now: nat, totalRequests: nat, totalErrors: nat, byMethod: Counts,
                            listed: Result<seq<FileInfo>, string>)
    requires Routed(env.ctx.config, st, req, now)
    ensures var r := Handle(env, st, req, requestId, timestamp, random, now, totalRequests, totalErrors, byMethod, listed).0;
      "X-Request-ID" in r.headers && r.headers["X-Request-ID"] == requestId
  {
  }

  /** With a positive window the wait a 429 advertises is at least one second. */
  lemma RetryAfterAtLeastOneSecond(limits: map<string, Entry>, maxRequests: int, windowMs: int, id: string, now: int)
    requires windowMs > 0
    ensures var d := Step(limits, maxRequests, windowMs, id, now).0;
      d.resetAt > now && RetryAfter(d, now) >= 1
  {
    var d := Step(limits, maxRequests, windowMs, id, now).0;
    assert d.resetAt == CurrentEntry(limits, id, now, windowMs).resetAt;
    var w := RetryAfter(d, now);
    assert d.resetAt - now <= w * 1000;
  }

  /** The metrics page has a line for every method counted so far. */
  lemma MetricsListsEveryMethod(totalRequests: nat, totalErrors: nat, byMethod: Counts, i: nat)
    requires i < |byMethod|
    ensures Contains(MetricsText(totalRequests, totalErrors, byMethod), MethodLine(byMethod[i]))
  {
    var head, lines := MetricsHead(totalRequests, totalErrors), MethodLines(byMethod);
    MethodLineListed(byMethod, i);
    var off := ContainsWitness(lines, MethodLine(byMethod[i]));
    assert (head + lines)[|head| + off..] == lines[off..];
    ContainsAt(head + lines, MethodLine(byMethod[i]), |head| + off);
  }

  /**
   * A successful login sets the session cookie; sent back within 24 hours,
   * it authenticates a protected request.
   */
  lemma LoginThenAuthenticated(env: Env, st: State, login: Request, requestId: string, timestamp: string,
                               random: seq<byte>, t: nat, totalRequests: nat, totalErrors: nat, byMethod: Counts,
                               listed: Result<seq<FileInfo>, string>, req: Request, t': int)
    requires RouteOf(env.ctx.config, login) == LoginRoute && |random| == 32
    requires login.json.Some? && ArgOf(login.json.value, "username") == Str(env.ctx.config.adminUsername)
    requires ArgOf(login.json.value, "password").Str?
    requires env.verify(ArgOf(login.json.value, "password").s, env.ctx.config.adminPasswordHash)
    requires Header(req, "cookie") == Some(AuthRoutes.CookieName + HexOfBytes(random))
    requires t <= t' <= t + SessionExpiry
    ensures var (r, st') := Handle(env, st, login, requestId, timestamp, random, t, totalRequests, totalErrors,
                                   byMethod, listed);
      r.status == 200 && r.headers["Set-Cookie"] == AuthRoutes.LoginCookie(HexOfBytes(random))
      && Authenticate(st'.sessions, req, t').0
  {
    var id := HexOfBytes(random);
    AuthRoutes.LoginSucceeds(st.sessions, env.ctx.config, env.verify, login, random, t);
    CreatedSessionRetrievable(st.sessions, id, env.ctx.config.adminUsername, t, t');
    assert "Set-Cookie" != "X-Request-ID" by { assert "Set-Cookie"[0] == 'S'; }
  }
}
