/**
 * The request pipeline patterns of a worker: a middleware chain that either
 * answers or passes a (possibly replaced) request on, the bearer-token
 * check, the KV-backed rate limiter, CORS preflight and header merging, and
 * the offset arithmetic of paginated listing. Requests and responses are
 * plain records; headers are maps keyed by their canonical names.
 */
module Middleware {
  import opened Text

  datatype Request = Request(verb: string, url: string, headers: map<string, string>)
  datatype Response = Response(status: int, body: string, headers: map<string, string>)

  // ---------------------------------------------------------------------------
  // The middleware chain
  // ---------------------------------------------------------------------------

  /** What a middleware gives back: a response (stop), a request (use it from now on), or neither. */
  datatype Step = Respond(response: Response) | Replace(request: Request) | Pass

  /** Where the chain ends: stopped with a response, or through to the final handler with this request. */
  datatype Reached = Stopped(response: Response) | Through(request: Request)

  /** Runs the middlewares in order from `request`. */
  function RunChain(middlewares: seq<Request -> Step>, request: Request): Reached
    decreases |middlewares|
  {
    if middlewares == [] then Through(request)
    else
      match middlewares[0](request)
      case Respond(resp) => Stopped(resp)
      case Replace(next) => RunChain(middlewares[1..], next)
      case Pass => RunChain(middlewares[1..], request)
  }

  /** The response of the whole pipeline: a middleware's, or the final handler's on the last request. */
  function Serve(middlewares: seq<Request -> Step>, request: Request, handler: Request -> Response): Response {
    match RunChain(middlewares, request)
    case Stopped(resp) => resp
    case Through(last) => handler(last)
  }

  /** The `middlewarePattern` loop: `request` is reassigned by each middleware that returns one. */
  method HandleChain(middlewares: seq<Request -> Step>, request: Request, handler: Request -> Response)
    returns (response: Response)
    ensures response == Serve(middlewares, request, handler)
  {
    var current := request;
    var i := 0;
    while i < |middlewares|
      invariant i <= |middlewares|
      invariant RunChain(middlewares, request) == RunChain(middlewares[i..], current)
    {
      assert middlewares[i..][1..] == middlewares[i + 1..];
      var result := middlewares[i](current);
      if result.Respond? {
        return result.response;
      }
      if result.Replace? {
        current := result.request;
      }
      i := i + 1;
    }
    response := handler(current);
  }

  /**
   * Once a prefix of the chain answers, the middlewares after it and the
   * final handler do not matter; when it passes through, the rest starts
   * from the request it reached.
   */
  lemma {:induction false} RunChainAppend(first: seq<Request -> Step>, rest: seq<Request -> Step>, request: Request)
    ensures RunChain(first + rest, request) ==
      match RunChain(first, request)
      case Stopped(resp) => Stopped(resp)
      case Through(next) => RunChain(rest, next)
    decreases |first|
  {
    if first == [] {
      assert first + rest == rest;
    } else {
      assert (first + rest)[0] == first[0];
      assert (first + rest)[1..] == first[1..] + rest;
      match first[0](request)
      case Respond(_) =>
      case Replace(next) => RunChainAppend(first[1..], rest, next);
      case Pass => RunChainAppend(first[1..], rest, request);
    }
  }

  /** A short-circuit: a middleware that answers decides the response, whatever follows it. */
  lemma ShortCircuit(first: seq<Request -> Step>, rest: seq<Request -> Step>, request: Request,
                     h1: Request -> Response, h2: Request -> Response, more: seq<Request -> Step>)
    requires RunChain(first, request).Stopped?
    ensures Serve(first + rest, request, h1) == Serve(first + more, request, h2) == RunChain(first, request).response
  {
    RunChainAppend(first, rest, request);
    RunChainAppend(first, more, request);
  }

  // ---------------------------------------------------------------------------
  // authMiddleware and the example chain
  // ---------------------------------------------------------------------------

  /**
   * `authMiddleware`: a missing or empty `Authorization` header is 401
   * 'Unauthorized', one without the 'Bearer ' prefix 401 'Invalid token
   * format'; otherwise the request goes on with an `X-User-Id` header added.
   */
  function Auth(request: Request): (s: Step)
    ensures s.Respond? <==> "Authorization" !in request.headers || !StartsWith(request.headers["Authorization"], "Bearer ")
    ensures s.Respond? ==> s.response.status == 401
    ensures s.Respond? ==>
      s.response.body == (if "Authorization" !in request.headers || request.headers["Authorization"] == [] then "Unauthorized"
                          else "Invalid token format")
    ensures s.Replace? ==>
      && s.request.verb == request.verb && s.request.url == request.url
      && s.request.headers == request.headers["X-User-Id" := "123"]
    ensures !s.Pass?
  {
    if "Authorization" !in request.headers || request.headers["Authorization"] == [] then
      Respond(Response(401, "Unauthorized", map[]))
    else if !StartsWith(request.headers["Authorization"], "Bearer ") then
      Respond(Response(401, "Invalid token format", map[]))
    else
      Replace(request.(headers := request.headers["X-User-Id" := "123"]))
  }

  /** `handleRequest`, the default handler. */
  function DefaultHandler(request: Request): Response {
    Response(200, "Default handler", map[])
  }

  /** `loggingMiddleware`: logs (not modelled), then answers with the default handler's response. */
  function Logging(request: Request): Step {
    Respond(DefaultHandler(request))
  }

  /**
   * The chain `[authMiddleware, loggingMiddleware]` never reaches its final
   * handler: the logging middleware always answers, so the response is the
   * auth failure or the default handler's.
   */
  lemma ExampleChain(request: Request, handler: Request -> Response)
    ensures var r := Serve([Auth, Logging], request, handler);
      && (Auth(request).Respond? ==> r == Auth(request).response)
      && (!Auth(request).Respond? ==> r == DefaultHandler(Auth(request).request))
      && RunChain([Auth, Logging], request).Stopped?
  {
    var chain: seq<Request -> Step> := [Auth, Logging];
    assert chain[0] == Auth && chain[1..] == [Logging];
    if !Auth(request).Respond? {
      var next := Auth(request).request;
      assert [Logging][1..] == [];
      assert RunChain([Logging], next) == Stopped(DefaultHandler(next));
    }
  }

  // ---------------------------------------------------------------------------
  // Rate limiting
  // ---------------------------------------------------------------------------

  const Limit: nat := 100
  const Window: nat := 60

  /** `ratelimit:${ip}`: a missing client address prints as "null". */
  function RateKey(ip: Option<string>): (r: string)
    ensures |r| >= 10 && r[..10] == "ratelimit:"
  {
    "ratelimit:" + (if ip.Some? then ip.value else "null")
  }

  /** Distinct addresses get distinct counters, except that a missing address shares the counter of "null". */
  lemma RateKeyInjective(a: Option<string>, b: Option<string>)
    requires RateKey(a) == RateKey(b)
    ensures a == b || (a.None? && b == Some("null")) || (a == Some("null") && b.None?)
  {
    assert RateKey(a)[10..] == (if a.Some? then a.value else "null");
    assert RateKey(b)[10..] == (if b.Some? then b.value else "null");
  }

  /**
   * The KV namespace of counters, as this limiter writes it: every value a
   * decimal count of at most the limit.
   */
  class RateLimiter {
    var store: map<string, string>

    ghost predicate Valid()
      reads this
    {
      Counters(store)
    }

    constructor()
      ensures store == map[] && Valid()
    {
      store := map[];
    }

    /** The count stored for a key, 0 when absent. */
    ghost function Count(key: string): nat
      reads this
      requires Valid()
    {
      if key in store then ParseDigits(store[key]) else 0
    }

    /**
     * `rateLimitPattern`: at the limit the request is refused with 429 and
     * the counter is left alone; otherwise the counter goes up by one and
     * the handler's response is sent with the limit headers.
     */
    method Check(ip: Option<string>, handled: Response) returns (response: Response)
      requires Valid()
      modifies this
      ensures Valid()
      ensures var key := RateKey(ip);
        if old(Count(key)) >= Limit then
          && response == Response(429, "Rate limit exceeded", map["Retry-After" := Dec(Window)])
          && store == old(store)
        else
          && store == old(store)[key := Dec(old(Count(key)) + 1)]
          && response.status == handled.status && response.body == handled.body
          && response.headers == handled.headers["X-RateLimit-Limit" := Dec(Limit)]
               ["X-RateLimit-Remaining" := Dec(Limit - (old(Count(key)) + 1))]
    {
      var key := RateKey(ip);
      var count: Option<string> := if key in store then Some(store[key]) else None;
      ghost var was := Count(key);
      assert count.Some? ==> count.value != [] && ParseDigits(count.value) == was;
      assert count.None? ==> was == 0;
      if count.Some? && count.value != [] && ParseDigits(count.value) >= Limit {
        return Response(429, "Rate limit exceeded", map["Retry-After" := Dec(Window)]);
      }
      var newCount: nat := if count.Some? && count.value != [] then ParseDigits(count.value) + 1 else 1;
      assert newCount == was + 1 <= Limit;
      ghost var before := store;
      store := store[key := Dec(newCount)];
      RateLimitBounds(before, store, key, newCount);
      response := handled.(headers := handled.headers["X-RateLimit-Limit" := Dec(Limit)]
                                                     ["X-RateLimit-Remaining" := Dec(Limit - newCount)]);
    }
  }

  /** Every stored value is a decimal count of at most the limit. */
  ghost predicate Counters(store: map<string, string>) {
    forall k :: k in store ==> AllDigits(store[k]) && store[k] != [] && ParseDigits(store[k]) <= Limit
  }

  /**
   * Writing a count of at most the limit keeps every counter within the
   * limit, stores exactly that count, and leaves every other client's
   * counter alone.
   */
  lemma RateLimitBounds(before: map<string, string>, after: map<string, string>, key: string, n: nat)
    requires Counters(before) && n <= Limit && after == before[key := Dec(n)]
    ensures Counters(after)
    ensures key in after && ParseDigits(after[key]) == n
    ensures forall k :: k != key ==> (k in after <==> k in before) && (k in before ==> after[k] == before[k])
  {
    ParseDec(n);
    forall k | k in after
      ensures AllDigits(after[k]) && after[k] != [] && ParseDigits(after[k]) <= Limit
    {
      if k != key {
        assert after[k] == before[k];
      }
    }
  }

  // ---------------------------------------------------------------------------
  // CORS
  // ---------------------------------------------------------------------------

  const CorsHeaders: map<string, string> := map[
    "Access-Control-Allow-Origin" := "*",
    "Access-Control-Allow-Methods" := "GET, POST, PUT, DELETE, OPTIONS",
    "Access-Control-Allow-Headers" := "Content-Type, Authorization",
    "Access-Control-Max-Age" := "86400"]

  /** `handleCORS`: 204 with no body and the four CORS headers. */
  function HandleCors(): Response {
    Response(204, [], CorsHeaders)
  }

  /**
   * `corsPattern`: a preflight is answered directly; any other response
   * keeps its status and body and has the CORS headers set over its own.
   */
  function WithCors(verb: string, response: Response): (r: Response)
    ensures verb == "OPTIONS" ==> r.status == 204 && r.body == [] && r.headers == CorsHeaders
    ensures verb != "OPTIONS" ==> r.status == response.status && r.body == response.body
    ensures verb != "OPTIONS" ==> forall k :: k in CorsHeaders ==> k in r.headers && r.headers[k] == CorsHeaders[k]
    ensures verb != "OPTIONS" ==> forall k :: k !in CorsHeaders ==>
      (k in r.headers <==> k in response.headers) && (k in r.headers ==> r.headers[k] == response.headers[k])
  {
    if verb == "OPTIONS" then HandleCors()
    else Response(response.status, response.body, response.headers + CorsHeaders)
  }

  /** Setting the CORS headers twice is setting them once. */
  lemma WithCorsIdempotent(verb: string, response: Response)
    requires verb != "OPTIONS"
    ensures WithCors(verb, WithCors(verb, response)) == WithCors(verb, response)
  {
    var once := WithCors(verb, response);
    assert once.headers + CorsHeaders == once.headers;
  }

  // ---------------------------------------------------------------------------
  // Pagination
  // ---------------------------------------------------------------------------

  /** `url.searchParams.get(name) || fallback`, then `parseInt`, for a decimal parameter. */
  function ParamOr(query: map<string, string>, name: string, fallback: nat): nat
    requires name in query ==> AllDigits(query[name])
  {
    if name in query && query[name] != [] then ParseDigits(query[name]) else fallback
  }

  predicate DecimalParams(query: map<string, string>) {
    ("page" in query ==> AllDigits(query["page"])) && ("limit" in query ==> AllDigits(query["limit"]))
  }

  datatype Page = Page(page: nat, limit: nat, offset: int)

  /** `queryParamPattern`: page 1 and limit 10 by default, `offset = (page - 1) * limit`. */
  function Paging(query: map<string, string>): (r: Page)
    requires DecimalParams(query)
    ensures r.page == (if "page" in query && query["page"] != [] then ParseDigits(query["page"]) else 1)
    ensures r.limit == (if "limit" in query && query["limit"] != [] then ParseDigits(query["limit"]) else 10)
    ensures r.page >= 1 ==> 0 <= r.offset
    ensures r.page == 0 ==> r.offset == 0 - r.limit
    ensures r.offset == (r.page - 1) * r.limit
  {
    var page := ParamOr(query, "page", 1);
    var limit := ParamOr(query, "limit", 10);
    OffsetArith(page, limit);
    Page(page, limit, (page - 1) * limit)
  }

  /** The arithmetic behind the offset's sign; kept apart so the parameter parsing does not enter it. */
  lemma OffsetArith(page: nat, limit: nat)
    ensures page >= 1 ==> 0 <= (page - 1) * limit
    ensures page == 0 ==> (page - 1) * limit == 0 - limit
  {
    if page >= 1 {
      var before: nat := page - 1;
      assert 0 <= before * limit;
    }
  }

  /** Consecutive pages are adjacent windows: page p + 1 starts `limit` rows after page p. */
  lemma PagesTile(query: map<string, string>, p: nat)
    requires DecimalParams(query)
    ensures var a := Paging(query["page" := Dec(p)]);
      var b := Paging(query["page" := Dec(p + 1)]);
      && a.page == p && b.page == p + 1 && a.limit == b.limit
      && b.offset == a.offset + a.limit
  {
    ParseDec(p);
    ParseDec(p + 1);
    var a := Paging(query["page" := Dec(p)]);
    var b := Paging(query["page" := Dec(p + 1)]);
    assert a.page == p && b.page == p + 1;
    assert (p + 1 - 1) * a.limit == (p - 1) * a.limit + a.limit;
  }
}
