/*
 * The staff app's later, simpler service worker: data files are always
 * refetched under a cache-busting URL, everything else is served cache-first;
 * activation deletes the app's other caches; the page may ask for the version.
 * The clock is a parameter; fetching and the Cache API are outside the model.
 */
module SimpleWorker {
  import opened JsStrings
  import JsValues
  import UnionStaffWorker

  const AppName: string := "union-staff"
  const Version: string := "3.7.0"
  const CacheName: string := AppName + "-v" + Version

  /** A data file: the pathname mentions `/data/` and ends in `.json`. */
  predicate IsDataPath(pathname: string) {
    Includes(pathname, "/data/") && EndsWith(pathname, ".json")
  }

  /** The URL a data request is refetched at: the original one with `?v=` and the timestamp appended. */
  function BustedUrl(href: string, now: int): (r: string)
    ensures StartsWith(r, href + "?v=")
    ensures ParseInt(r[|href| + 3..]) == Int(now)
  {
    var r := href + "?v=" + IntToString(now);
    assert r[..|href| + 3] == href + "?v=";
    assert r[|href| + 3..] == IntToString(now);
    ParseIntIntToString(now);
    r
  }

  /** Two requests made at different times are sent to different URLs, so no HTTP cache can answer the second. */
  lemma BustedUrlsDiffer(href: string, t1: int, t2: int)
    requires t1 != t2
    ensures BustedUrl(href, t1) != BustedUrl(href, t2)
  {
  }

  /** How the fetch handler answers a request. */
  datatype Response = FetchFresh(url: string) | CacheThenNetwork

  /** The fetch handler on a request with full URL `href` and pathname `pathname`, at time `now`. */
  function OnFetch(href: string, pathname: string, now: int): (r: Response)
    ensures r.FetchFresh? <==> IsDataPath(pathname)
    ensures r.FetchFresh? ==> r.url == BustedUrl(href, now)
  {
    if IsDataPath(pathname) then FetchFresh(BustedUrl(href, now)) else CacheThenNetwork
  }

  /** Activation deletes the caches of this app other than the current one. */
  predicate IsStale(name: string) {
    StartsWith(name, AppName) && name != CacheName
  }

  /** The caches activation deletes, in the order `caches.keys()` lists them: exactly the listed stale ones. */
  function CachesToDelete(names: seq<string>): (r: seq<string>)
    ensures forall n :: n in r <==> n in names && IsStale(n)
  {
    JsValues.FilterMembers(IsStale, names);
    JsValues.Filter(IsStale, names)
  }

  /** The current cache survives and other apps' caches are never touched. */
  lemma ActivationKeeps(names: seq<string>, n: string)
    requires n in names
    ensures n == CacheName ==> n !in CachesToDelete(names)
    ensures !StartsWith(n, AppName) ==> n !in CachesToDelete(names)
  {
  }

  /**
   * The two staff-app workers share the `union-staff` prefix, so activating this one
   * deletes every strategy cache of the earlier worker.
   */
  lemma DeletesEarlierWorkerCaches(names: seq<string>, k: int)
    requires 0 <= k < |UnionStaffWorker.StrategyCaches| && UnionStaffWorker.StrategyCaches[k] in names
    ensures UnionStaffWorker.StrategyCaches[k] in CachesToDelete(names)
  {
    var c := UnionStaffWorker.StrategyCaches[k];
    assert c[..|AppName|] == AppName;
    assert |c| > |CacheName|;
  }

  /** The message handler: only `GET_VERSION` is answered, with the version. */
  function OnMessage(kind: string): (reply: Option<string>)
    ensures reply.Some? <==> kind == "GET_VERSION"
    ensures reply.Some? ==> reply.value == Version
  {
    if kind == "GET_VERSION" then Some(Version) else None
  }
}
