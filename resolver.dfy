/** The `/resolve` route: turn a reel URL into the direct MP4 URL found in
    the page's `og:video` meta tag, first over plain HTTP and, when that
    yields nothing, through a headless browser.

    The network and the browser are not modelled: the HTTP client is a
    function from the URL and request headers to a reply, and the browser a
    function from the URL and the cookies added to its context to the
    rendered page (or a failure). */
module Resolver {
  import opened Wrappers
  import opened Text
  import opened Cookies
  import opened OgVideo

  // ---- Filename suggestion ----

  /** `mp4.split("/")[-1].split("?")[0]`: the last path segment, cut at the
      first `?`. */
  function VideoId(mp4Url: string): (id: string)
    ensures '/' !in id && '?' !in id
  {
    var segments := Split(mp4Url, '/');
    var last := segments[|segments| - 1];
    SplitHead(last, '?', '/');
    Split(last, '?')[0]
  }

  /** `f"{vid_id}.mp4"`. */
  function Filename(mp4Url: string): (name: string)
    ensures |name| >= 4 && name[|name| - 4..] == ".mp4"
    ensures '/' !in name && '?' !in name
  {
    VideoId(mp4Url) + ".mp4"
  }

  /** The id is the segment after the last `/`, up to the query string. */
  lemma VideoIdOf(dir: string, id: string, query: string)
    requires '/' !in id && '?' !in id && '/' !in query
    ensures VideoId(dir + "/" + id + "?" + query) == id
  {
    var tail := id + "?" + query;
    assert dir + "/" + id + "?" + query == dir + ['/'] + tail;
    SplitAppend(dir, tail, '/');
    assert '/' !in tail;
    assert tail == id + ['?'] + query;
    SplitAtFirst(id, query, '?');
  }

  /** Without a query string the id is the whole last segment. */
  lemma VideoIdPlain(dir: string, id: string)
    requires '/' !in id && '?' !in id
    ensures VideoId(dir + "/" + id) == id
  {
    assert dir + "/" + id == dir + ['/'] + id;
    SplitAppend(dir, id, '/');
  }

  /** The suggestion keeps the id's own extension and appends another one:
      a CDN file `<stem>.mp4` is suggested as `<stem>.mp4.mp4`. */
  lemma FilenameOfMp4(dir: string, stem: string, query: string)
    requires '/' !in stem && '?' !in stem && '/' !in query
    ensures Filename(dir + "/" + (stem + ".mp4") + "?" + query) == stem + ".mp4.mp4"
  {
    VideoIdOf(dir, stem + ".mp4", query);
    assert stem + ".mp4" + ".mp4" == stem + ".mp4.mp4";
  }

  // ---- Plain HTTP fetch ----

  /** Python truthiness of an optional string: present and non-empty. */
  predicate Truthy(s: Option<string>) {
    s.Some? && s.value != []
  }

  /** The headers `_http_get` sends: the user agent, and the cookie header
      only when it is a non-empty string. */
  function RequestHeaders(userAgent: string, cookieHeader: Option<string>): (r: map<string, string>)
    ensures "User-Agent" in r && r["User-Agent"] == userAgent
    ensures "Cookie" in r <==> Truthy(cookieHeader)
    ensures "Cookie" in r ==> r["Cookie"] == cookieHeader.value
    ensures r.Keys <= {"User-Agent", "Cookie"}
  {
    var base := map["User-Agent" := userAgent];
    if Truthy(cookieHeader) then base["Cookie" := cookieHeader.value] else base
  }

  /** What the HTTP client returns: a response, or a transport failure
      (connection error, timeout, too many redirects). */
  datatype HttpReply = Response(status: int, text: string) | TransportError

  /** Why `_http_get` raised: an error status (turned into a 502), or an
      exception from the client itself. */
  datatype FetchFailure = UpstreamStatus(status: int) | Transport

  /** `_http_get`: the body of a response below 400. */
  function HttpGet(client: (string, map<string, string>) -> HttpReply, userAgent: string,
                   url: string, cookieHeader: Option<string>): (r: Result<string, FetchFailure>)
    ensures var reply := client(url, RequestHeaders(userAgent, cookieHeader));
      && (r.Success? <==> reply.Response? && reply.status < 400)
      && (r.Success? ==> r.value == reply.text)
      && (r == Failure(Transport) <==> reply.TransportError?)
  {
    match client(url, RequestHeaders(userAgent, cookieHeader))
    case TransportError => Failure(Transport)
    case Response(status, text) =>
      if status >= 400 then Failure(UpstreamStatus(status)) else Success(text)
  }

  // ---- Resolution ----

  /** What the browser hands back: the rendered page, or a failure to
      launch, navigate or read it. */
  datatype Rendered = Page(html: string) | BrowserError

  datatype ResolveOut = ResolveOut(reelUrl: string, mp4Url: Option<string>,
                                   filename: Option<string>, title: Option<string>)

  /** An error the route reports: an HTTP error it raises itself, or an
      exception it lets escape (which the framework answers with a 500). */
  datatype RouteError = HttpError(status: int, detail: string) | Unhandled

  const NotResolved: string := "Could not resolve mp4_url from reel page"

  /** The outcome, and how many times the browser was started. */
  datatype Resolution = Resolution(outcome: Result<ResolveOut, RouteError>, browserRuns: nat)

  /** The answer for a found video URL. */
  function Found(reelUrl: string, mp4: string): ResolveOut {
    ResolveOut(reelUrl, Some(mp4), Some(Filename(mp4)), None)
  }

  /** Step 1: the `og:video` URL of the page fetched over plain HTTP, or
      nothing when the fetch failed in any way. */
  function FastPath(client: (string, map<string, string>) -> HttpReply, userAgent: string,
                    reelUrl: string, cookieHeader: Option<string>): (r: Option<string>)
    ensures r.Some? ==> HttpGet(client, userAgent, reelUrl, cookieHeader).Success?
    ensures HttpGet(client, userAgent, reelUrl, cookieHeader).Failure? ==> r.None?
    ensures HttpGet(client, userAgent, reelUrl, cookieHeader).Success? ==>
      r == ExtractOgVideo(HttpGet(client, userAgent, reelUrl, cookieHeader).value)
  {
    match HttpGet(client, userAgent, reelUrl, cookieHeader)
    case Failure(_) => None
    case Success(html) => ExtractOgVideo(html)
  }

  /** `resolve_direct_mp4`. */
  function Resolve(client: (string, map<string, string>) -> HttpReply,
                   browser: (string, Option<seq<Cookie>>) -> Rendered,
                   userAgent: string, reelUrl: string, cookieHeader: Option<string>): (r: Resolution)
    ensures r.browserRuns <= 1
    ensures r.browserRuns == 0 <==> Truthy(FastPath(client, userAgent, reelUrl, cookieHeader))
    ensures r.outcome.Failure? ==> r.browserRuns == 1
    ensures r.outcome.Success? ==>
      && r.outcome.value.reelUrl == reelUrl
      && Truthy(r.outcome.value.mp4Url)
      && r.outcome.value.filename == Some(Filename(r.outcome.value.mp4Url.value))
      && r.outcome.value.title.None?
    ensures r.browserRuns == 0 ==>
      r.outcome.Success? && r.outcome.value.mp4Url == FastPath(client, userAgent, reelUrl, cookieHeader)
    ensures r.browserRuns == 1 ==>
      match browser(reelUrl, CookiesToAdd(cookieHeader))
      case BrowserError => r.outcome == Failure(Unhandled)
      case Page(html) =>
        && (r.outcome.Success? <==> Truthy(ExtractOgVideo(html)))
        && (r.outcome.Success? ==> r.outcome.value.mp4Url == ExtractOgVideo(html))
        && (r.outcome.Failure? ==> r.outcome.error == HttpError(502, NotResolved))
  {
    var mp4 := FastPath(client, userAgent, reelUrl, cookieHeader);
    if Truthy(mp4) then
      Resolution(Success(Found(reelUrl, mp4.value)), 0)
    else
      match browser(reelUrl, CookiesToAdd(cookieHeader))
      case BrowserError => Resolution(Failure(Unhandled), 1)
      case Page(html) =>
        var mp42 := ExtractOgVideo(html);
        if !Truthy(mp42) then Resolution(Failure(HttpError(502, NotResolved)), 1)
        else Resolution(Success(Found(reelUrl, mp42.value)), 1)
  }

  /** When plain HTTP finds the URL the browser is never consulted: any two
      browsers give the same answer. */
  lemma FastPathIgnoresBrowser(client: (string, map<string, string>) -> HttpReply,
                               b1: (string, Option<seq<Cookie>>) -> Rendered,
                               b2: (string, Option<seq<Cookie>>) -> Rendered,
                               userAgent: string, reelUrl: string, cookieHeader: Option<string>)
    requires Truthy(FastPath(client, userAgent, reelUrl, cookieHeader))
    ensures Resolve(client, b1, userAgent, reelUrl, cookieHeader)
         == Resolve(client, b2, userAgent, reelUrl, cookieHeader)
  {
  }

  /** Once plain HTTP has failed, how it failed makes no difference: an error
      status, a transport failure and a page without the tag all lead to the
      same browser fallback. */
  lemma FallbackIgnoresClient(c1: (string, map<string, string>) -> HttpReply,
                              c2: (string, map<string, string>) -> HttpReply,
                              browser: (string, Option<seq<Cookie>>) -> Rendered,
                              userAgent: string, reelUrl: string, cookieHeader: Option<string>)
    requires !Truthy(FastPath(c1, userAgent, reelUrl, cookieHeader))
    requires !Truthy(FastPath(c2, userAgent, reelUrl, cookieHeader))
    ensures Resolve(c1, browser, userAgent, reelUrl, cookieHeader)
         == Resolve(c2, browser, userAgent, reelUrl, cookieHeader)
  {
  }

  /** An error status from Instagram is swallowed: the browser is tried. */
  lemma ErrorStatusFallsBack(client: (string, map<string, string>) -> HttpReply,
                             browser: (string, Option<seq<Cookie>>) -> Rendered,
                             userAgent: string, reelUrl: string, cookieHeader: Option<string>)
    requires client(reelUrl, RequestHeaders(userAgent, cookieHeader)).Response?
    requires client(reelUrl, RequestHeaders(userAgent, cookieHeader)).status >= 400
    ensures Resolve(client, browser, userAgent, reelUrl, cookieHeader).browserRuns == 1
  {
  }

  /** A page fetched with a status below 400 that carries the tag answers
      with its URL, and the browser is never started. */
  lemma OkPageWithTag(client: (string, map<string, string>) -> HttpReply,
                      browser: (string, Option<seq<Cookie>>) -> Rendered,
                      userAgent: string, reelUrl: string, cookieHeader: Option<string>,
                      status: int, html: string, url: string)
    requires client(reelUrl, RequestHeaders(userAgent, cookieHeader)) == Response(status, html)
    requires status < 400 && ExtractOgVideo(html) == Some(url)
    ensures Resolve(client, browser, userAgent, reelUrl, cookieHeader)
         == Resolution(Success(Found(reelUrl, url)), 0)
  {
  }

  /** A page fetched with a status below 400 but without the tag sends the
      route to the browser, once. */
  lemma OkPageWithoutTag(client: (string, map<string, string>) -> HttpReply,
                         browser: (string, Option<seq<Cookie>>) -> Rendered,
                         userAgent: string, reelUrl: string, cookieHeader: Option<string>,
                         status: int, html: string)
    requires client(reelUrl, RequestHeaders(userAgent, cookieHeader)) == Response(status, html)
    requires status < 400 && ExtractOgVideo(html).None?
    ensures Resolve(client, browser, userAgent, reelUrl, cookieHeader).browserRuns == 1
  {
  }

  /** When neither page carries the tag the route answers 502. */
  lemma NoTagIs502(client: (string, map<string, string>) -> HttpReply,
                   browser: (string, Option<seq<Cookie>>) -> Rendered,
                   userAgent: string, reelUrl: string, cookieHeader: Option<string>)
    requires FastPath(client, userAgent, reelUrl, cookieHeader).None?
    requires browser(reelUrl, CookiesToAdd(cookieHeader)).Page?
    requires ExtractOgVideo(browser(reelUrl, CookiesToAdd(cookieHeader)).html).None?
    ensures Resolve(client, browser, userAgent, reelUrl, cookieHeader).outcome
         == Failure(HttpError(502, NotResolved))
  {
  }
}
