/*
 * The stall planner's service worker: which requests it intercepts, how it
 * routes them between the cache-first and network-first strategies, and which
 * caches activation deletes. Fetching and the Cache API are outside the model;
 * a request is given by its method and parsed URL.
 */
module StallPlannerWorker {
  import opened JsStrings
  import JsValues

  const CacheName: string := "cambridge-stall-planner-v1.0.0"
  const StaticCacheName: string := "static-v1.0.0"
  const RuntimeCache: string := "runtime-v1.0.0"
  const VersionTag: string := "v1.0.0"

  /** The app-shell files, pages and CDN resources cached at install time. */
  const StaticFiles: seq<string> := [
    "/", "/index.html", "/ruskin-courtyard.html", "/science-walkway.html", "/lab-courtyard.html",
    "/styles/main.css", "/styles/layout.css", "/js/main.js", "/js/drag-handler.js", "/js/mobile-utils.js",
    "/manifest.json",
    "https://cdnjs.cloudflare.com/ajax/libs/bootstrap/5.3.0/css/bootstrap.min.css",
    "https://cdnjs.cloudflare.com/ajax/libs/font-awesome/6.4.0/css/all.min.css",
    "https://cdnjs.cloudflare.com/ajax/libs/bootstrap/5.3.0/js/bootstrap.bundle.min.js"
  ]

  /** A parsed request URL: the full text, the host name and the pathname. */
  datatype Url = Url(href: string, hostname: string, pathname: string)

  /** The fetch listener answers only GET requests for http(s) URLs; everything else goes to the network untouched. */
  predicate Intercepted(verb: string, url: Url) {
    verb == "GET" && StartsWith(url.href, "http")
  }

  /** `isExternalResource`: the URL's host is not the worker's own. */
  predicate IsExternalResource(url: Url, workerHost: string) {
    url.hostname != workerHost
  }

  /** The file-type tests of `isStaticAsset`, shared by the written and the corrected version. */
  predicate HasStaticExtension(p: string) {
    EndsWith(p, ".html") || EndsWith(p, ".css") || EndsWith(p, ".js") || EndsWith(p, ".json") || p == "/"
  }

  /** `isStaticAsset` as written: the last test asks whether the pathname contains any static file. */
  predicate IsStaticAssetAsWritten(url: Url) {
    HasStaticExtension(url.pathname) || exists k :: 0 <= k < |StaticFiles| && Includes(url.pathname, StaticFiles[k])
  }

  /**
   * `isStaticAsset` as evidently intended: an app file by its type, or one of the
   * files listed for the app shell.
   */
  predicate IsStaticAsset(url: Url) {
    HasStaticExtension(url.pathname) || url.pathname in StaticFiles
  }

  /** The two strategies of `handleFetch`. */
  datatype Strategy = CacheFirst | NetworkFirst

  /** `handleFetch` with the test as written: static assets, then external resources, then the cache-first default. */
  function HandleFetchAsWritten(url: Url, workerHost: string): (s: Strategy)
    ensures s == NetworkFirst <==> !IsStaticAssetAsWritten(url) && IsExternalResource(url, workerHost)
  {
    if IsStaticAssetAsWritten(url) then CacheFirst
    else if IsExternalResource(url, workerHost) then NetworkFirst
    else CacheFirst
  }

  /** `handleFetch` with the corrected static-asset test. */
  function HandleFetch(url: Url, workerHost: string): (s: Strategy)
    ensures s == NetworkFirst <==> !IsStaticAsset(url) && IsExternalResource(url, workerHost)
  {
    if IsStaticAsset(url) then CacheFirst
    else if IsExternalResource(url, workerHost) then NetworkFirst
    else CacheFirst
  }

  /** The fetch listener: the strategy for an intercepted request, nothing for the others. */
  function OnFetch(verb: string, url: Url, workerHost: string): (r: Option<Strategy>)
    ensures r.Some? <==> verb == "GET" && StartsWith(url.href, "http")
    ensures r.Some? ==> r.value == HandleFetch(url, workerHost)
  {
    if Intercepted(verb, url) then Some(HandleFetch(url, workerHost)) else None
  }

  /** A form submission or a data URL is left to the browser. */
  lemma NonGetPassesThrough(url: Url, workerHost: string)
    ensures OnFetch("POST", url, workerHost).None?
    ensures OnFetch("GET", Url("data:text/plain,hi", "", "text/plain,hi"), workerHost).None?
  {
    var d := "data:text/plain,hi";
    assert d[..4][0] == 'd';
  }

  /**
   * As written, every pathname containing `/` counts as a static asset, because `/` is
   * the first static file; every http(s) pathname starts with `/`, so the network-first
   * strategy is never chosen.
   */
  lemma NetworkFirstUnreachable(url: Url, workerHost: string)
    requires StartsWith(url.pathname, "/")
    ensures IsStaticAssetAsWritten(url)
    ensures HandleFetchAsWritten(url, workerHost) == CacheFirst
  {
    assert OccursAt(url.pathname, StaticFiles[0], 0);
  }

  /** A request for a CDN style sheet's font, on another host, is served cache-first as written. */
  lemma CdnFontCachedAsWritten()
    ensures HandleFetchAsWritten(Url("https://cdnjs.cloudflare.com/fonts/fa.woff2", "cdnjs.cloudflare.com", "/fonts/fa.woff2"), "planner.example") == CacheFirst
  {
    NetworkFirstUnreachable(Url("https://cdnjs.cloudflare.com/fonts/fa.woff2", "cdnjs.cloudflare.com", "/fonts/fa.woff2"), "planner.example");
  }

  /** With the corrected test, the same request is served network-first. */
  lemma CdnFontNetworkFirst()
    ensures HandleFetch(Url("https://cdnjs.cloudflare.com/fonts/fa.woff2", "cdnjs.cloudflare.com", "/fonts/fa.woff2"), "planner.example") == NetworkFirst
  {
    var p := "/fonts/fa.woff2";
    assert p[|p| - 1] == '2';
    assert p !in StaticFiles;
  }

  /** The corrected test still serves every app-shell file cache-first, from any host. */
  lemma StaticFilesCacheFirst(url: Url, workerHost: string)
    requires url.pathname in StaticFiles
    ensures HandleFetch(url, workerHost) == CacheFirst
  {
  }

  /** The corrected test changes nothing for a request on the worker's own host: those are cache-first either way. */
  lemma SameHostUnchanged(url: Url, workerHost: string)
    requires !IsExternalResource(url, workerHost)
    ensures HandleFetch(url, workerHost) == HandleFetchAsWritten(url, workerHost) == CacheFirst
  {
  }

  /** Activation deletes every cache whose name does not mention this version. */
  predicate IsStale(name: string) {
    !Includes(name, VersionTag)
  }

  /** The caches activation deletes, in the order `caches.keys()` lists them: exactly the listed stale ones. */
  function CachesToDelete(names: seq<string>): (r: seq<string>)
    ensures forall n :: n in r <==> n in names && IsStale(n)
  {
    JsValues.FilterMembers(IsStale, names);
    JsValues.Filter(IsStale, names)
  }

  /** The worker's own caches survive activation. */
  lemma ActivationKeepsOwnCaches(names: seq<string>)
    ensures CacheName !in CachesToDelete(names)
    ensures StaticCacheName !in CachesToDelete(names)
    ensures RuntimeCache !in CachesToDelete(names)
  {
    EndsWithIncludes(CacheName, VersionTag);
    EndsWithIncludes(StaticCacheName, VersionTag);
    EndsWithIncludes(RuntimeCache, VersionTag);
  }
}
