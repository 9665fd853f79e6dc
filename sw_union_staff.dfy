/*
 * The staff app's versioned service worker: the names of its three strategy
 * caches, which requests go to which strategy, which caches activation
 * deletes, and the messages the page may send it. Fetching and the Cache
 * API are outside the model; a request is given by its parsed URL.
 */
module UnionStaffWorker {
  import opened JsStrings
  import JsValues

  const AppName: string := "union-staff"
  const Version: string := "2.0.1"
  /** The single-cache name of this version, which no strategy uses. */
  const CacheName: string := AppName + "-v" + Version

  /** The cache of one strategy: `union-staff-<kind>-v<VERSION>`. */
  function StrategyCache(kind: string): (name: string)
    ensures StartsWith(name, AppName + "-" + kind + "-v") && EndsWith(name, Version)
    ensures |name| == |AppName| + |kind| + 3 + |Version|
  {
    var name := AppName + "-" + kind + "-v" + Version;
    assert name[..|AppName + "-" + kind + "-v"|] == AppName + "-" + kind + "-v";
    assert name[|name| - |Version|..] == Version;
    name
  }

  const AppShellCache: string := StrategyCache("app-shell")
  const DataCache: string := StrategyCache("data")
  const AssetsCache: string := StrategyCache("assets")

  /** `Object.values(CACHE_STRATEGIES)`. */
  const StrategyCaches: seq<string> := [AppShellCache, DataCache, AssetsCache]

  /** The pathnames served by the app-shell strategy. */
  const AppShellFiles: seq<string> :=
    ["/", "/index.html", "/styles.css", "/script.js", "/manifest.json", "/admin/stallholder-editor.html"]

  /** A parsed request URL: the full text, its origin and its pathname. */
  datatype Url = Url(href: string, origin: string, pathname: string)

  /** `isDataRequest`: the full URL mentions `/data/` and ends in `.json`. */
  predicate IsDataRequest(url: Url) {
    Includes(url.href, "/data/") && EndsWith(url.href, ".json")
  }

  /** `isAppShellRequest`: the pathname is, or ends with, one of the app-shell files. */
  predicate IsAppShellRequest(url: Url) {
    exists k :: 0 <= k < |AppShellFiles| && (url.pathname == AppShellFiles[k] || EndsWith(url.pathname, AppShellFiles[k]))
  }

  /** `isAssetRequest`: under `/assets/`, or an image by its extension. */
  predicate IsAssetRequest(url: Url) {
    var p := url.pathname;
    StartsWith(p, "/assets/") || EndsWith(p, ".png") || EndsWith(p, ".jpg") || EndsWith(p, ".jpeg")
    || EndsWith(p, ".svg") || EndsWith(p, ".ico")
  }

  /** How the fetch handler answers a request. */
  datatype Route = NotIntercepted | DataStrategy | AppShellStrategy | AssetStrategy | GenericStrategy

  /** The fetch handler: cross-origin requests pass through; the others are tested in a fixed order. */
  function RouteOf(url: Url, workerOrigin: string): (r: Route)
    ensures r == NotIntercepted <==> url.origin != workerOrigin
    ensures r == DataStrategy <==> url.origin == workerOrigin && IsDataRequest(url)
    ensures r == AppShellStrategy <==> url.origin == workerOrigin && !IsDataRequest(url) && IsAppShellRequest(url)
    ensures r == AssetStrategy <==>
              url.origin == workerOrigin && !IsDataRequest(url) && !IsAppShellRequest(url) && IsAssetRequest(url)
  {
    if url.origin != workerOrigin then NotIntercepted
    else if IsDataRequest(url) then DataStrategy
    else if IsAppShellRequest(url) then AppShellStrategy
    else if IsAssetRequest(url) then AssetStrategy
    else GenericStrategy
  }

  /**
   * Because `/` is an app-shell entry, every same-origin directory URL (no query, no
   * fragment) is served by the app-shell strategy, whatever the directory.
   */
  lemma DirectoriesAreAppShell(url: Url, workerOrigin: string)
    requires url.origin == workerOrigin && url.href == url.origin + url.pathname
    requires EndsWith(url.pathname, "/")
    ensures RouteOf(url, workerOrigin) == AppShellStrategy
  {
    assert url.href[|url.href| - 1] == '/';
    assert !EndsWith(url.href, ".json");
    assert EndsWith(url.pathname, AppShellFiles[0]);
  }

  /** A same-origin image outside the app shell and the data folder goes to the asset strategy. */
  lemma ImagesAreAssets(url: Url, workerOrigin: string)
    requires url.origin == workerOrigin && !IsDataRequest(url)
    requires url.pathname == "/assets/images/unionlogo.png"
    ensures RouteOf(url, workerOrigin) == AssetStrategy
  {
    var p := url.pathname;
    assert p[|p| - 4..] == ".png";
    forall k | 0 <= k < |AppShellFiles|
      ensures p != AppShellFiles[k] && !EndsWith(p, AppShellFiles[k])
    {
      assert p[|p| - 1] == 'g';
    }
  }

  /** Activation deletes a cache of this app that is not one of the current strategy caches. */
  predicate IsStale(name: string) {
    StartsWith(name, AppName) && name !in StrategyCaches
  }

  /** The caches activation deletes, in the order `caches.keys()` lists them: exactly the listed stale ones. */
  function CachesToDelete(names: seq<string>): (r: seq<string>)
    ensures forall n :: n in r <==> n in names && IsStale(n)
  {
    JsValues.FilterMembers(IsStale, names);
    JsValues.Filter(IsStale, names)
  }

  /**
   * The current strategy caches and the caches of other apps survive activation, while
   * this version's own single-cache name, which nothing uses, is deleted.
   */
  lemma ActivationKeeps(names: seq<string>)
    ensures forall k :: 0 <= k < |StrategyCaches| ==> StrategyCaches[k] !in CachesToDelete(names)
    ensures forall n :: n in CachesToDelete(names) ==> StartsWith(n, AppName)
    ensures CacheName in names ==> CacheName in CachesToDelete(names)
  {
    assert CacheName[..|AppName|] == AppName;
    assert |CacheName| < |AppShellCache| && |CacheName| < |DataCache| && |CacheName| < |AssetsCache|;
  }

  /** What the worker does on a message from the page. */
  datatype MessageAction =
    | SkipWaiting
    | ReplyVersion(version: string)
    | DeleteCache(cache: string)
    | IgnoreMessage

  /** The message handler, by message type. */
  function OnMessage(kind: string): (a: MessageAction)
    ensures a.ReplyVersion? <==> kind == "GET_VERSION"
    ensures a.ReplyVersion? ==> a.version == Version
    ensures a.DeleteCache? <==> kind == "CLEAR_DATA_CACHE"
    ensures a.DeleteCache? ==> a.cache == DataCache && a.cache in StrategyCaches
    ensures a.SkipWaiting? <==> kind == "SKIP_WAITING"
  {
    if kind == "SKIP_WAITING" then SkipWaiting
    else if kind == "GET_VERSION" then ReplyVersion(Version)
    else if kind == "CLEAR_DATA_CACHE" then DeleteCache(DataCache)
    else IgnoreMessage
  }
}
