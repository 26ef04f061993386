/**
 * The GitHub API client: an ETag cache keyed by request path, the rate-limit
 * tracker fed by response headers, a single GET as a small state machine over
 * the cache, and the pagination loop that walks `page=1, 2, ...` until a short
 * or empty page.
 *
 * The HTTP exchange is an input: `server` maps the request the client builds
 * (its path and its `If-None-Match` validator) to either a transport failure
 * or a response carrying a status, headers and a body that may fail to read.
 * JSON decoding is an input too: `decode` maps a body to a value, or to
 * nothing when the body does not decode.
 */
module GitHub {
  import opened Wrappers
  import opened Timestamps
  import Text

  /** Below this many remaining requests a warning is logged. */
  const RateLimitWarningThreshold: int := 100

  /** GitHub's largest `per_page`, requested on every page. */
  const PerPage: nat := 100

  const StatusNotModified: int := 304

  datatype User = User(login: string, avatarUrl: string, htmlUrl: string, name: string, bio: string, id: int)

  datatype Repository = Repository(
    createdAt: Time, updatedAt: Time, name: string, fullName: string, description: string,
    htmlUrl: string, language: string, owner: User, id: int, starCount: int, forkCount: int,
    isPrivate: bool)

  datatype EventRepo = EventRepo(name: string, url: string, id: int)

  datatype Event = Event(
    payload: string, createdAt: Time, id: string, eventType: string, actor: User, repo: EventRepo)

  /** A cached response body together with the ETag it was served with. */
  datatype CacheEntry = CacheEntry(timestamp: Time, etag: string, data: string)

  datatype RateLimit = RateLimit(reset: Time, limit: int, remaining: int, used: int)

  /** What `get` sends: the path and, when the cache has a validator for it, `If-None-Match`. */
  datatype Request = Request(path: string, ifNoneMatch: Option<string>)

  /**
   * `body` holds the bytes read from the response body: all of them when
   * `bodyRead` holds, and those read before the failure when reading fails.
   */
  datatype Response = Response(status: int, headers: map<string, string>, body: string, bodyRead: bool)

  datatype Exchange = Delivered(response: Response) | TransportFailure(reason: string)

  datatype Error =
    | TransportError(reason: string)
    | ApiError(status: int, body: string)
    | ReadError
    | DecodeError(fromCache: bool)

  /** `http.Header.Get` on headers keyed by canonical name: the value of a header, or the empty string when it is absent. */
  function HeaderValue(headers: map<string, string>, name: string): (v: string)
    ensures name !in headers ==> v == ""
  {
    if name in headers then headers[name] else ""
  }

  // ---------------------------------------------------------------------
  // Rate limit headers
  // ---------------------------------------------------------------------

  /** An integer rate-limit header: its `strconv.Atoi` value, or 0 when absent or malformed. */
  function HeaderInt(headers: map<string, string>, name: string): (n: int)
    ensures Text.ParseDecimal(HeaderValue(headers, name)).None? ==> n == 0
    ensures Text.ParseDecimal(HeaderValue(headers, name)).Some? ==> n == Text.ParseDecimal(HeaderValue(headers, name)).value
  {
    var v := HeaderValue(headers, name);
    if v == "" then 0 else Text.ParseDecimal(v).GetOr(0)
  }

  /**
   * The rate limit the headers describe. `X-RateLimit-Reset` counts seconds
   * since the Unix epoch; when it is absent or malformed the reset time stays
   * the zero `time.Time`.
   */
  function ParsedRateLimit(headers: map<string, string>): RateLimit {
    var v := HeaderValue(headers, "X-RateLimit-Reset");
    var reset := if v == "" then None else Text.ParseDecimal(v);
    RateLimit(
      if reset.Some? then reset.value * NanosPerSecond else ZeroTime,
      HeaderInt(headers, "X-RateLimit-Limit"),
      HeaderInt(headers, "X-RateLimit-Remaining"),
      HeaderInt(headers, "X-RateLimit-Used"))
  }

  /** The stored rate limit after a response: replaced only by one with a positive limit. */
  function RateLimitUpdate(current: Option<RateLimit>, headers: map<string, string>): (r: Option<RateLimit>)
    ensures r == current || r == Some(ParsedRateLimit(headers))
    ensures r.Some? && r.value.limit <= 0 ==> r == current
  {
    var rl := ParsedRateLimit(headers);
    if rl.limit > 0 then Some(rl) else current
  }

  /** Whether the response makes the client warn that the rate limit is low. */
  predicate Warns(headers: map<string, string>) {
    var rl := ParsedRateLimit(headers);
    rl.limit > 0 && rl.remaining < RateLimitWarningThreshold
  }

  /** Headers written by a server that formats every field with `%d` parse back to those values. */
  lemma ParsedRateLimitOfFormatted(headers: map<string, string>, reset: int, limit: int, remaining: int, used: int)
    requires Text.MinInt64 <= reset <= Text.MaxInt64 && Text.MinInt64 <= limit <= Text.MaxInt64
    requires Text.MinInt64 <= remaining <= Text.MaxInt64 && Text.MinInt64 <= used <= Text.MaxInt64
    requires HeaderValue(headers, "X-RateLimit-Reset") == Text.FormatDecimal(reset)
    requires HeaderValue(headers, "X-RateLimit-Limit") == Text.FormatDecimal(limit)
    requires HeaderValue(headers, "X-RateLimit-Remaining") == Text.FormatDecimal(remaining)
    requires HeaderValue(headers, "X-RateLimit-Used") == Text.FormatDecimal(used)
    ensures ParsedRateLimit(headers) == RateLimit(reset * NanosPerSecond, limit, remaining, used)
  {
    Text.ParseFormatRoundTrip(reset);
    Text.ParseFormatRoundTrip(limit);
    Text.ParseFormatRoundTrip(remaining);
    Text.ParseFormatRoundTrip(used);
  }

  /** A response without rate-limit headers parses to all zeros and leaves the stored limit alone. */
  lemma NoRateLimitHeaders(headers: map<string, string>, current: Option<RateLimit>)
    requires "X-RateLimit-Reset" !in headers && "X-RateLimit-Limit" !in headers
    requires "X-RateLimit-Remaining" !in headers && "X-RateLimit-Used" !in headers
    ensures ParsedRateLimit(headers) == RateLimit(ZeroTime, 0, 0, 0)
    ensures RateLimitUpdate(current, headers) == current && !Warns(headers)
  {
  }

  /** The stored rate limit after a series of responses, starting from `initial`. */
  function RateLimitAfter(initial: Option<RateLimit>, history: seq<map<string, string>>): Option<RateLimit> {
    if history == [] then initial
    else RateLimitUpdate(RateLimitAfter(initial, history[..|history| - 1]), history[|history| - 1])
  }

  /**
   * Starting from no information, the rate limit stays absent exactly until a
   * response with a positive limit arrives, and whatever is stored has a
   * positive limit.
   */
  lemma {:induction false} RateLimitAbsentUntilPositive(history: seq<map<string, string>>)
    ensures RateLimitAfter(None, history).None? <==> forall h :: h in history ==> ParsedRateLimit(h).limit <= 0
    ensures RateLimitAfter(None, history).Some? ==> RateLimitAfter(None, history).value.limit > 0
    decreases |history|
  {
    if history != [] {
      var n := |history| - 1;
      assert history == history[..n] + [history[n]];
      RateLimitAbsentUntilPositive(history[..n]);
    }
  }

  // ---------------------------------------------------------------------
  // One GET
  // ---------------------------------------------------------------------

  /** Every cached entry carries a validator. */
  predicate CacheValid(cache: map<string, CacheEntry>) {
    forall p :: p in cache ==> cache[p].etag != ""
  }

  /** The request for `path`: it carries the cached ETag as `If-None-Match` when there is one. */
  function RequestFor(cache: map<string, CacheEntry>, path: string): (req: Request)
    ensures req.path == path
    ensures req.ifNoneMatch.Some? <==> path in cache && cache[path].etag != ""
    ensures req.ifNoneMatch.Some? ==> req.ifNoneMatch.value == cache[path].etag
  {
    Request(path, if path in cache && cache[path].etag != "" then Some(cache[path].etag) else None)
  }

  /** The outcome of one GET and the client state after it. */
  datatype Step<T> = Step(result: Result<T, Error>, cache: map<string, CacheEntry>, rateLimit: Option<RateLimit>)

  function Decoded<T>(v: Option<T>, fromCache: bool): Result<T, Error> {
    match v
    case Some(x) => Success(x)
    case None => Failure(DecodeError(fromCache))
  }

  /**
   * `get` on `path`, given what the server answered. The rate limit is
   * updated from any delivered response; a 304 with a cache entry decodes the
   * cached body; any other status outside 2xx is an API error carrying the
   * body as far as it could be read; a 2xx body that reads is cached under its
   * ETag, stamped `now`, before it is decoded.
   */
  function GetStep<T>(
    cache: map<string, CacheEntry>, rateLimit: Option<RateLimit>, path: string,
    exchange: Exchange, decode: string -> Option<T>, now: Time): Step<T>
  {
    match exchange
    case TransportFailure(reason) => Step(Failure(TransportError(reason)), cache, rateLimit)
    case Delivered(resp) =>
      var rl := RateLimitUpdate(rateLimit, resp.headers);
      if resp.status == StatusNotModified && path in cache then
        Step(Decoded(decode(cache[path].data), true), cache, rl)
      else if resp.status < 200 || resp.status >= 300 then
        Step(Failure(ApiError(resp.status, resp.body)), cache, rl)
      else if !resp.bodyRead then
        Step(Failure(ReadError), cache, rl)
      else
        var etag := HeaderValue(resp.headers, "ETag");
        var cache' := if etag != "" then cache[path := CacheEntry(now, etag, resp.body)] else cache;
        Step(Decoded(decode(resp.body), false), cache', rl)
  }

  /** A 304 for a cached path decodes the cached body and leaves the cache as it was. */
  lemma NotModifiedUsesCache<T>(
    cache: map<string, CacheEntry>, rateLimit: Option<RateLimit>, path: string,
    resp: Response, decode: string -> Option<T>, now: Time)
    requires resp.status == StatusNotModified && path in cache
    ensures var s := GetStep(cache, rateLimit, path, Delivered(resp), decode, now);
      && s.cache == cache
      && (decode(cache[path].data).Some? ==> s.result == Success(decode(cache[path].data).value))
      && (decode(cache[path].data).None? ==> s.result == Failure(DecodeError(true)))
  {
  }

  /**
   * A status outside 2xx, including a 304 for a path that was never cached,
   * is an API error carrying the body as far as it was read, whether or not
   * the read completed, and the cache is untouched.
   */
  lemma ErrorStatusLeavesCache<T>(
    cache: map<string, CacheEntry>, rateLimit: Option<RateLimit>, path: string,
    resp: Response, decode: string -> Option<T>, now: Time)
    requires resp.status < 200 || resp.status >= 300
    requires !(resp.status == StatusNotModified && path in cache)
    ensures var s := GetStep(cache, rateLimit, path, Delivered(resp), decode, now);
      s.cache == cache && s.result == Failure(ApiError(resp.status, resp.body))
  {
  }

  /**
   * A readable 2xx response overwrites the entry for `path` when it carries an
   * ETag and leaves the cache alone otherwise; its body is the result.
   */
  lemma SuccessStoresEtag<T>(
    cache: map<string, CacheEntry>, rateLimit: Option<RateLimit>, path: string,
    resp: Response, decode: string -> Option<T>, now: Time)
    requires 200 <= resp.status < 300 && resp.bodyRead
    requires !(resp.status == StatusNotModified && path in cache)
    ensures var s := GetStep(cache, rateLimit, path, Delivered(resp), decode, now);
      var etag := HeaderValue(resp.headers, "ETag");
      && (etag != "" ==> s.cache == cache[path := CacheEntry(now, etag, resp.body)])
      && (etag == "" ==> s.cache == cache)
      && (decode(resp.body).Some? ==> s.result == Success(decode(resp.body).value))
  {
  }

  /** A GET either keeps the cache or stores one validated entry at its own path. */
  lemma GetStepCacheChange<T>(
    cache: map<string, CacheEntry>, rateLimit: Option<RateLimit>, path: string,
    exchange: Exchange, decode: string -> Option<T>, now: Time)
    ensures var s := GetStep(cache, rateLimit, path, exchange, decode, now);
      || s.cache == cache
      || (path in s.cache && s.cache[path].etag != "" && s.cache == cache[path := s.cache[path]])
  {
    if exchange.Delivered? {
      var resp := exchange.response;
      if !(resp.status == StatusNotModified && path in cache) && 200 <= resp.status < 300 && resp.bodyRead {
        var etag := HeaderValue(resp.headers, "ETag");
        if etag != "" {
          var e := CacheEntry(now, etag, resp.body);
          assert GetStep(cache, rateLimit, path, exchange, decode, now).cache == cache[path := e];
        }
      }
    }
  }

  /**
   * A GET changes the cache only at its own path, keeps every entry
   * validated, and keeps the stored rate limit positive.
   */
  lemma GetStepInvariant<T>(
    cache: map<string, CacheEntry>, rateLimit: Option<RateLimit>, path: string,
    exchange: Exchange, decode: string -> Option<T>, now: Time)
    requires CacheValid(cache) && (rateLimit.Some? ==> rateLimit.value.limit > 0)
    ensures var s := GetStep(cache, rateLimit, path, exchange, decode, now);
      && CacheValid(s.cache)
      && (s.rateLimit.Some? ==> s.rateLimit.value.limit > 0)
      && (forall p :: p != path ==> (p in s.cache <==> p in cache))
      && (forall p :: p != path && p in cache ==> s.cache[p] == cache[p])
  {
    GetStepCacheChange(cache, rateLimit, path, exchange, decode, now);
    var s := GetStep(cache, rateLimit, path, exchange, decode, now);
    assert s.rateLimit == rateLimit || (exchange.Delivered? && s.rateLimit == RateLimitUpdate(rateLimit, exchange.response.headers));
  }

  /**
   * Revalidation: once a readable 2xx response with an ETag has been cached,
   * the next GET of the same path sends that ETag, and if the server answers
   * 304 the caller gets the same value the first GET decoded.
   */
  lemma RevalidationRepeatsResult<T>(
    cache: map<string, CacheEntry>, rateLimit: Option<RateLimit>, path: string,
    first: Response, second: Response, decode: string -> Option<T>, now: Time, later: Time)
    requires 200 <= first.status < 300 && first.bodyRead && HeaderValue(first.headers, "ETag") != ""
    requires !(first.status == StatusNotModified && path in cache)
    requires second.status == StatusNotModified
    ensures var s1 := GetStep(cache, rateLimit, path, Delivered(first), decode, now);
      var s2 := GetStep(s1.cache, s1.rateLimit, path, Delivered(second), decode, later);
      && RequestFor(s1.cache, path).ifNoneMatch == Some(HeaderValue(first.headers, "ETag"))
      && (s1.result.Success? ==> s2.result == s1.result)
      && s2.cache == s1.cache
  {
  }

  // ---------------------------------------------------------------------
  // Pagination
  // ---------------------------------------------------------------------

  /** The query separator: `&` when the base path already has a query, `?` otherwise. */
  function Separator(basePath: string): char {
    if '?' in basePath then '&' else '?'
  }

  /** `basePath + sep + "page=N&per_page=100"`. */
  function PagePath(basePath: string, page: nat): (path: string)
    ensures |path| > |basePath|
    ensures path[..|basePath|] == basePath && path[|basePath|] == Separator(basePath)
  {
    basePath + [Separator(basePath)] + "page=" + Text.FormatDecimal(page) + "&per_page=" + Text.FormatDecimal(PerPage)
  }

  /** Different pages of one listing are fetched from different paths. */
  lemma PagePathInjective(basePath: string, i: nat, j: nat)
    ensures PagePath(basePath, i) == PagePath(basePath, j) <==> i == j
  {
    if PagePath(basePath, i) == PagePath(basePath, j) {
      var prefix := basePath + [Separator(basePath)] + "page=";
      var suffix := "&per_page=" + Text.FormatDecimal(PerPage);
      var a, b := Text.FormatDecimal(i), Text.FormatDecimal(j);
      assert PagePath(basePath, i) == prefix + a + suffix;
      assert PagePath(basePath, j) == prefix + b + suffix;
      assert |a| == |b|;
      assert a == (prefix + a + suffix)[|prefix|..|prefix| + |a|];
      assert b == (prefix + b + suffix)[|prefix|..|prefix| + |b|];
      Text.FormatDecimalInjective(i, j);
    }
  }

  /**
   * A run of the pagination loop: its outcome, the client state after it, the
   * page numbers requested in order, and the items of each page that was
   * fetched successfully.
   */
  datatype PageRun<T> = PageRun(
    result: Result<seq<T>, Error>, cache: map<string, CacheEntry>, rateLimit: Option<RateLimit>,
    requested: seq<nat>, pages: seq<seq<T>>)

  /** `result` with `items` in front of its listing; an error stays the same error. */
  function Prefixed<T>(items: seq<T>, result: Result<seq<T>, Error>): Result<seq<T>, Error> {
    match result
    case Success(more) => Success(items + more)
    case Failure(e) => Failure(e)
  }

  lemma PrefixedNothing<T>(result: Result<seq<T>, Error>)
    ensures Prefixed([], result) == result
  {
    if result.Success? {
      assert [] + result.value == result.value;
    }
  }

  lemma PrefixedTwice<T>(a: seq<T>, b: seq<T>, result: Result<seq<T>, Error>)
    ensures Prefixed(a, Prefixed(b, result)) == Prefixed(a + b, result)
  {
    if result.Success? {
      assert a + (b + result.value) == (a + b) + result.value;
    }
  }

  /** The run that fetched `items` as page `page` and then went on as `rest`. */
  function Extend<T>(page: nat, items: seq<T>, rest: PageRun<T>): PageRun<T> {
    PageRun(Prefixed(items, rest.result), rest.cache, rest.rateLimit, [page] + rest.requested, [items] + rest.pages)
  }

  /** The GET of page `page` of the listing at `basePath`. */
  function PageStep<T>(
    cache: map<string, CacheEntry>, rateLimit: Option<RateLimit>, basePath: string, page: nat,
    server: Request -> Exchange, decode: string -> Option<seq<T>>, now: Time): Step<seq<T>>
  {
    var path := PagePath(basePath, page);
    GetStep(cache, rateLimit, path, server(RequestFor(cache, path)), decode, now)
  }

  /** How the pagination loop fetches a page, given the client state and the page number. */
  type PageFetch<T> = (map<string, CacheEntry>, Option<RateLimit>, nat) -> Step<seq<T>>

  /** The page fetch of `getPaginated` on `basePath`: a GET of `PagePath(basePath, page)`. */
  function Listing<T>(basePath: string, server: Request -> Exchange, decode: string -> Option<seq<T>>, now: Time): PageFetch<T> {
    (cache: map<string, CacheEntry>, rateLimit: Option<RateLimit>, page: nat) => PageStep(cache, rateLimit, basePath, page, server, decode, now)
  }

  /** `fetch` makes the GET of `PagePath(basePath, page)`, whatever the client state and page. */
  ghost predicate Fetches<T>(
    fetch: PageFetch<T>, basePath: string, server: Request -> Exchange, decode: string -> Option<seq<T>>, now: Time)
  {
    forall cache: map<string, CacheEntry>, rateLimit: Option<RateLimit>, page: nat
      {:trigger PageStep(cache, rateLimit, basePath, page, server, decode, now)} ::
      fetch(cache, rateLimit, page) == PageStep(cache, rateLimit, basePath, page, server, decode, now)
  }

  lemma ListingFetches<T>(basePath: string, server: Request -> Exchange, decode: string -> Option<seq<T>>, now: Time)
    ensures Fetches(Listing(basePath, server, decode, now), basePath, server, decode, now)
  {
  }

  /**
   * The pagination loop from page `page` on, each page fetched by `fetch`. At
   * most `fuel` pages are requested: `None` means the listing had not ended
   * by then.
   */
  function Paginate<T>(
    fetch: PageFetch<T>, cache: map<string, CacheEntry>, rateLimit: Option<RateLimit>, page: nat, fuel: nat)
    : Option<PageRun<T>>
    decreases fuel
  {
    if fuel == 0 then None
    else
      var s := fetch(cache, rateLimit, page);
      match s.result
      case Failure(e) => Some(PageRun(Failure(e), s.cache, s.rateLimit, [page], []))
      case Success(items) =>
        if |items| == 0 || |items| < PerPage then Some(PageRun(Success(items), s.cache, s.rateLimit, [page], [items]))
        else
          match Paginate(fetch, s.cache, s.rateLimit, page + 1, fuel - 1)
          case None => None
          case Some(rest) => Some(Extend(page, items, rest))
  }

  /**
   * The pagination loop is at `page` with `all` gathered so far, on its way
   * to the run `whole`: what remains of the listing from `page` on ends, and
   * `whole` is `all` followed by it.
   */
  ghost predicate OnTheWay<T>(
    whole: PageRun<T>, all: seq<T>,
    fetch: PageFetch<T>, cache: map<string, CacheEntry>, rateLimit: Option<RateLimit>, page: nat, fuel: nat)
  {
    var rest := Paginate(fetch, cache, rateLimit, page, fuel);
    && rest.Some?
    && whole.cache == rest.value.cache && whole.rateLimit == rest.value.rateLimit
    && whole.result == Prefixed(all, rest.value.result)
  }

  /**
   * One iteration of the pagination loop: after the fetch of `page` the loop
   * either stops with the run's outcome or goes on to `page + 1` with the
   * page's items appended.
   */
  lemma PaginateStep<T>(
    whole: PageRun<T>, all: seq<T>,
    fetch: PageFetch<T>, cache: map<string, CacheEntry>, rateLimit: Option<RateLimit>, page: nat, fuel: nat,
    s: Step<seq<T>>)
    requires OnTheWay(whole, all, fetch, cache, rateLimit, page, fuel)
    requires s == fetch(cache, rateLimit, page)
    ensures fuel > 0
    ensures s.result.Failure? ==>
      whole.result == Failure(s.result.error) && whole.cache == s.cache && whole.rateLimit == s.rateLimit
    ensures s.result.Success? && |s.result.value| < PerPage ==>
      whole.result == Success(all + s.result.value) && whole.cache == s.cache && whole.rateLimit == s.rateLimit
    ensures s.result.Success? && |s.result.value| >= PerPage ==>
      OnTheWay(whole, all + s.result.value, fetch, s.cache, s.rateLimit, page + 1, fuel - 1)
  {
    var step, rest := PaginateCases(fetch, cache, rateLimit, page, fuel);
    if s.result.Success? && |s.result.value| >= PerPage {
      PrefixedTwice(all, s.result.value, rest.value.result);
    }
  }

  function Concat<T>(pages: seq<seq<T>>): seq<T> {
    if pages == [] then [] else pages[0] + Concat(pages[1..])
  }

  /** `lo, lo + 1, ..., lo + n - 1`. */
  function Consecutive(lo: nat, n: nat): (r: seq<nat>)
    ensures |r| == n && forall i :: 0 <= i < n ==> r[i] == lo + i
    decreases n
  {
    if n == 0 then [] else [lo] + Consecutive(lo + 1, n - 1)
  }

  /** The three ways a run can begin: a failed page, a last page, or a full page and the rest. */
  lemma PaginateCases<T>(
    fetch: PageFetch<T>, cache: map<string, CacheEntry>, rateLimit: Option<RateLimit>, page: nat, fuel: nat)
    returns (step: Step<seq<T>>, rest: Option<PageRun<T>>)
    requires Paginate(fetch, cache, rateLimit, page, fuel).Some?
    ensures fuel > 0
    ensures step == fetch(cache, rateLimit, page)
    ensures rest == Paginate(fetch, step.cache, step.rateLimit, page + 1, fuel - 1)
    ensures var run := Paginate(fetch, cache, rateLimit, page, fuel).value;
      && (step.result.Failure? ==> run == PageRun(Failure(step.result.error), step.cache, step.rateLimit, [page], []))
      && (step.result.Success? && |step.result.value| < PerPage ==>
            run == PageRun(step.result, step.cache, step.rateLimit, [page], [step.result.value]))
      && (step.result.Success? && |step.result.value| >= PerPage ==>
            rest.Some? && run == Extend(page, step.result.value, rest.value))
  {
    step := fetch(cache, rateLimit, page);
    rest := Paginate(fetch, step.cache, step.rateLimit, page + 1, fuel - 1);
  }

  /**
   * The pages a finished run requested: `page`, `page + 1`, ... in order,
   * at least one and at most `fuel`; every requested page was fetched
   * successfully except, in a failed run, the last.
   */
  lemma {:induction false} PaginateRequests<T>(
    fetch: PageFetch<T>, cache: map<string, CacheEntry>, rateLimit: Option<RateLimit>, page: nat, fuel: nat)
    requires Paginate(fetch, cache, rateLimit, page, fuel).Some?
    ensures var run := Paginate(fetch, cache, rateLimit, page, fuel).value;
      && run.requested == Consecutive(page, |run.requested|)
      && 1 <= |run.requested| <= fuel
      && |run.pages| == if run.result.Success? then |run.requested| else |run.requested| - 1
    decreases fuel
  {
    var run := Paginate(fetch, cache, rateLimit, page, fuel).value;
    var step, rest := PaginateCases(fetch, cache, rateLimit, page, fuel);
    if step.result.Success? && |step.result.value| >= PerPage {
      PaginateRequests(fetch, step.cache, step.rateLimit, page + 1, fuel - 1);
      assert run.result.Success? <==> rest.value.result.Success?;
    }
  }

  /**
   * What a successful run returns: the in-order concatenation of the pages
   * it fetched; a failed run returns only the error, never a partial listing.
   */
  lemma {:induction false} PaginateConcat<T>(
    fetch: PageFetch<T>, cache: map<string, CacheEntry>, rateLimit: Option<RateLimit>, page: nat, fuel: nat)
    requires Paginate(fetch, cache, rateLimit, page, fuel).Some?
    ensures var run := Paginate(fetch, cache, rateLimit, page, fuel).value;
      run.result.Success? ==> run.result.value == Concat(run.pages)
    decreases fuel
  {
    var run := Paginate(fetch, cache, rateLimit, page, fuel).value;
    var step, rest := PaginateCases(fetch, cache, rateLimit, page, fuel);
    if step.result.Success? && |step.result.value| >= PerPage {
      PaginateConcat(fetch, step.cache, step.rateLimit, page + 1, fuel - 1);
      ExtendConcat(page, step.result.value, rest.value);
    } else if step.result.Success? {
      assert Concat([step.result.value]) == step.result.value + [];
    }
  }

  lemma ExtendConcat<T>(page: nat, items: seq<T>, rest: PageRun<T>)
    requires rest.result.Success? ==> rest.result.value == Concat(rest.pages)
    ensures var run := Extend(page, items, rest);
      run.result.Success? ==> run.result.value == Concat(run.pages)
  {
    assert ([items] + rest.pages)[1..] == rest.pages;
  }

  /** Every page holds at least `PerPage` items. */
  predicate AllFull<T>(pages: seq<seq<T>>) {
    forall i :: 0 <= i < |pages| ==> |pages[i]| >= PerPage
  }

  /** Pages of a finished listing: full pages, then one that is empty or short. */
  predicate EndsShort<T>(pages: seq<seq<T>>) {
    pages != [] && AllFull(pages[..|pages| - 1]) && |pages[|pages| - 1]| < PerPage
  }

  lemma FullInFront<T>(items: seq<T>, pages: seq<seq<T>>)
    requires |items| >= PerPage
    ensures AllFull(pages) ==> AllFull([items] + pages)
    ensures EndsShort(pages) ==> EndsShort([items] + pages)
  {
    if pages != [] {
      assert ([items] + pages)[..|pages|] == [items] + pages[..|pages| - 1];
    }
  }

  /**
   * The sizes of the pages of a finished run: every page but the last of a
   * successful run was full and the last was empty or short, so a page of
   * exactly 100 items is always followed by another request; a failed run
   * fetched nothing but full pages before its error.
   */
  lemma {:induction false} PaginatePageSizes<T>(
    fetch: PageFetch<T>, cache: map<string, CacheEntry>, rateLimit: Option<RateLimit>, page: nat, fuel: nat)
    requires Paginate(fetch, cache, rateLimit, page, fuel).Some?
    ensures var run := Paginate(fetch, cache, rateLimit, page, fuel).value;
      && (run.result.Success? ==> EndsShort(run.pages))
      && (run.result.Failure? ==> AllFull(run.pages))
    decreases fuel
  {
    var run := Paginate(fetch, cache, rateLimit, page, fuel).value;
    var step, rest := PaginateCases(fetch, cache, rateLimit, page, fuel);
    if step.result.Success? && |step.result.value| >= PerPage {
      PaginatePageSizes(fetch, step.cache, step.rateLimit, page + 1, fuel - 1);
      FullInFront(step.result.value, rest.value.pages);
    } else if step.result.Success? {
      assert [step.result.value][..0] == [];
    }
  }

  /** A first page of exactly `PerPage` items is always followed by a request for the next page. */
  lemma FullPageFetchesNext<T>(
    fetch: PageFetch<T>, cache: map<string, CacheEntry>, rateLimit: Option<RateLimit>, page: nat, fuel: nat)
    requires Paginate(fetch, cache, rateLimit, page, fuel).Some?
    requires fetch(cache, rateLimit, page).result.Success? && |fetch(cache, rateLimit, page).result.value| == PerPage
    ensures var run := Paginate(fetch, cache, rateLimit, page, fuel).value;
      |run.requested| >= 2 && run.requested[0] == page && run.requested[1] == page + 1
  {
    var step, rest := PaginateCases(fetch, cache, rateLimit, page, fuel);
    PaginateRequests(fetch, step.cache, step.rateLimit, page + 1, fuel - 1);
  }

  /**
   * The client: the ETag cache keyed by request path and the last rate limit
   * seen with a positive limit.
   */
  class Client {
    var cache: map<string, CacheEntry>
    var rateLimit: Option<RateLimit>

    ghost predicate Valid()
      reads this
    {
      CacheValid(cache) && (rateLimit.Some? ==> rateLimit.value.limit > 0)
    }

    /** `NewClient`: an empty cache and no rate limit yet. */
    constructor ()
      ensures Valid() && cache == map[] && rateLimit == None
    {
      cache := map[];
      rateLimit := None;
    }

    /** A copy of the stored rate limit, `None` until one has been received. */
    method GetRateLimit() returns (r: Option<RateLimit>)
      requires Valid()
      ensures r == rateLimit
      ensures r.Some? ==> r.value.limit > 0
    {
      r := rateLimit;
    }

    /** Forgets every cached response; the rate limit is kept. */
    method ClearCache()
      requires Valid()
      modifies this
      ensures Valid() && cache == map[] && rateLimit == old(rateLimit)
    {
      cache := map[];
    }

    /** Stores the response's rate limit when its limit is positive; reports whether to warn. */
    method ParseRateLimitHeaders(headers: map<string, string>) returns (warned: bool)
      requires Valid()
      modifies this
      ensures Valid()
      ensures rateLimit == RateLimitUpdate(old(rateLimit), headers) && cache == old(cache)
      ensures warned == Warns(headers)
    {
      var rl := ParsedRateLimit(headers);
      warned := false;
      if rl.limit > 0 {
        rateLimit := Some(rl);
        if rl.remaining < RateLimitWarningThreshold {
          warned := true;
        }
      }
    }

    /** `get`: one request for `path`, answered by `server` and decoded by `decode`. */
    method Get<T>(path: string, server: Request -> Exchange, decode: string -> Option<T>, now: Time)
      returns (r: Result<T, Error>)
      requires Valid()
      modifies this
      ensures Valid()
      ensures var s := GetStep(old(cache), old(rateLimit), path, server(RequestFor(old(cache), path)), decode, now);
        r == s.result && cache == s.cache && rateLimit == s.rateLimit
    {
      var cached := if path in cache then Some(cache[path]) else None;
      var request := Request(path, if cached.Some? && cached.value.etag != "" then Some(cached.value.etag) else None);
      var exchange := server(request);
      if exchange.TransportFailure? {
        return Failure(TransportError(exchange.reason));
      }
      var resp := exchange.response;
      var warned := ParseRateLimitHeaders(resp.headers);
      if resp.status == StatusNotModified && cached.Some? {
        return Decoded(decode(cached.value.data), true);
      }
      if resp.status < 200 || resp.status >= 300 {
        return Failure(ApiError(resp.status, resp.body));
      }
      if !resp.bodyRead {
        return Failure(ReadError);
      }
      var body := resp.body;
      var etag := HeaderValue(resp.headers, "ETag");
      if etag != "" {
        cache := cache[path := CacheEntry(now, etag, body)];
      }
      r := Decoded(decode(body), false);
    }

    /**
     * One pass of the pagination loop: fetches page `page` and says, in terms
     * of the run the loop is on its way to, whether the loop stops and with
     * what, or goes on.
     */
    method FetchPage<T>(
      basePath: string, page: nat, server: Request -> Exchange, decode: string -> Option<seq<T>>, now: Time,
      ghost fetch: PageFetch<T>, ghost whole: PageRun<T>, ghost all: seq<T>, ghost fuel: nat)
      returns (got: Result<seq<T>, Error>)
      requires Valid() && Fetches(fetch, basePath, server, decode, now)
      requires OnTheWay(whole, all, fetch, cache, rateLimit, page, fuel)
      modifies this
      ensures Valid() && fuel > 0
      ensures got.Failure? ==>
        whole.result == Failure(got.error) && whole.cache == cache && whole.rateLimit == rateLimit
      ensures got.Success? && |got.value| < PerPage ==>
        whole.result == Success(all + got.value) && whole.cache == cache && whole.rateLimit == rateLimit
      ensures got.Success? && |got.value| >= PerPage ==>
        OnTheWay(whole, all + got.value, fetch, cache, rateLimit, page + 1, fuel - 1)
    {
      var path := PagePath(basePath, page);
      ghost var s := PageStep(cache, rateLimit, basePath, page, server, decode, now);
      PaginateStep(whole, all, fetch, cache, rateLimit, page, fuel, s);
      got := Get(path, server, decode, now);
    }

    /** The loop of `getPaginated`, for a `fetch` that makes its GETs. */
    method PaginationLoop<T>(
      basePath: string, server: Request -> Exchange, decode: string -> Option<seq<T>>, now: Time,
      ghost fetch: PageFetch<T>, ghost whole: PageRun<T>, ghost maxPages: nat)
      returns (r: Result<seq<T>, Error>)
      requires Valid() && Fetches(fetch, basePath, server, decode, now)
      requires OnTheWay(whole, [], fetch, cache, rateLimit, 1, maxPages)
      modifies this
      ensures Valid()
      ensures r == whole.result && cache == whole.cache && rateLimit == whole.rateLimit
    {
      var all: seq<T> := [];
      var page: nat := 1;
      ghost var fuel: nat := maxPages;
      while true
        invariant Valid()
        invariant OnTheWay(whole, all, fetch, cache, rateLimit, page, fuel)
        decreases fuel
      {
        var got := FetchPage(basePath, page, server, decode, now, fetch, whole, all, fuel);
        if got.Failure? {
          return Failure(got.error);
        }
        var items := got.value;
        if |items| == 0 {
          assert all + items == all;
          break;
        }
        all := all + items;
        if |items| < PerPage {
          break;
        }
        page := page + 1;
        fuel := fuel - 1;
      }
      r := Success(all);
    }

    /**
     * `getPaginated`: requests pages 1, 2, ... of `basePath`, appending each,
     * until a page is empty or short; any error aborts the whole listing.
     * `maxPages` bounds the length of the listing, which the caller promises.
     */
    method GetPaginated<T>(
      basePath: string, server: Request -> Exchange, decode: string -> Option<seq<T>>, now: Time,
      ghost maxPages: nat)
      returns (r: Result<seq<T>, Error>)
      requires Valid()
      requires Paginate(Listing(basePath, server, decode, now), cache, rateLimit, 1, maxPages).Some?
      modifies this
      ensures Valid()
      ensures var run := Paginate(Listing(basePath, server, decode, now), old(cache), old(rateLimit), 1, maxPages).value;
        r == run.result && cache == run.cache && rateLimit == run.rateLimit
    {
      ghost var fetch := Listing(basePath, server, decode, now);
      ListingFetches(basePath, server, decode, now);
      ghost var whole := Paginate(fetch, cache, rateLimit, 1, maxPages).value;
      PrefixedNothing(whole.result);
      r := PaginationLoop(basePath, server, decode, now, fetch, whole, maxPages);
    }
  }
}
