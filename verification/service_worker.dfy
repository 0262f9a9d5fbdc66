/**
 The service worker of sw.js as a pure state machine over the origin's caches:
 precaching on install, version reaping on activate, and the fetch router with its two
 strategies (network-first for navigations, cache-first for everything else).
 The host's `waitUntil`, `respondWith`, `skipWaiting` and `clients.claim` only schedule
 work; each handler is modelled by the state it leaves behind and the answer it gives.
 Un-awaited `cache.put` calls are modelled as completed within the same step.
 */
module ServiceWorker {
  import opened Wrappers
  import opened CacheStorage

  /** The current cache version. */
  const CACHE_NAME: string := "svityazhome-v12"

  /** The site's pages and their index documents, the first part of the precache manifest. */
  const PAGE_PATHS: seq<string> := [
    "/",
    "/index.html",
    "/404.html",
    "/about/",
    "/about/index.html",
    "/gallery/",
    "/gallery/index.html",
    "/rooms/",
    "/rooms/index.html",
    "/booking/",
    "/booking/index.html"
  ]

  /** Legal pages and crawler files. */
  const DOCUMENT_PATHS: seq<string> := [
    "/privacy-policy.html",
    "/terms.html",
    "/robots.txt",
    "/sitemap.xml"
  ]

  /** The shared stylesheet, script and header/footer partials. */
  const SHELL_PATHS: seq<string> := [
    "/assets/css/style.css",
    "/assets/js/main.js",
    "/assets/partials/header.html",
    "/assets/partials/footer.html"
  ]

  /** Icons and the web app manifest. */
  const ICON_PATHS: seq<string> := [
    "/favicon.ico",
    "/assets/images/favicon/apple-touch-icon.png",
    "/assets/images/favicon/favicon-32x32.png",
    "/assets/images/favicon/favicon-16x16.png",
    "/assets/images/favicon/favicon.ico",
    "/assets/images/favicon/android-chrome-192x192.png",
    "/assets/images/favicon/android-chrome-512x512.png",
    "/assets/images/favicon/site.webmanifest"
  ]

  /** The precache manifest, in its order, as paths on the worker's own origin. */
  const PRECACHE_PATHS: seq<string> := PAGE_PATHS + DOCUMENT_PATHS + SHELL_PATHS + ICON_PATHS

  /** The universal offline document, for failed navigations and failed assets alike. */
  const FALLBACK_PATH: string := "/index.html"

  /** What `fetch` does with a URL at the moment of the event: None when it rejects. */
  type Network = Url -> Option<Response>

  /** The manifest resolved against the worker's origin. */
  function PrecacheUrls(origin: string): (r: seq<Url>)
    ensures |r| == |PRECACHE_PATHS|
    ensures forall u: Url :: u in r <==> u.origin == origin && u.path in PRECACHE_PATHS
  {
    var r := seq(|PRECACHE_PATHS|, i requires 0 <= i < |PRECACHE_PATHS| => Url(origin, PRECACHE_PATHS[i]));
    assert forall u: Url | u.origin == origin && u.path in PRECACHE_PATHS :: u in r by {
      forall u: Url | u.origin == origin && u.path in PRECACHE_PATHS ensures u in r {
        var i :| 0 <= i < |PRECACHE_PATHS| && PRECACHE_PATHS[i] == u.path;
        assert r[i] == u;
      }
    }
    r
  }

  function FallbackUrl(origin: string): Url {
    Url(origin, FALLBACK_PATH)
  }

  lemma ManifestPartsDistinct()
    ensures Distinct(PAGE_PATHS) && Distinct(DOCUMENT_PATHS)
    ensures Distinct(SHELL_PATHS) && Distinct(ICON_PATHS)
  {
  }

  lemma PagesApartFromRest()
    ensures Disjoint(PAGE_PATHS, DOCUMENT_PATHS)
    ensures Disjoint(PAGE_PATHS, SHELL_PATHS)
    ensures Disjoint(PAGE_PATHS, ICON_PATHS)
  {
  }

  lemma AssetsApart()
    ensures Disjoint(DOCUMENT_PATHS, SHELL_PATHS)
    ensures Disjoint(DOCUMENT_PATHS, ICON_PATHS)
    ensures Disjoint(SHELL_PATHS, ICON_PATHS)
  {
  }

  /** No manifest entry is listed twice, so `addAll` never meets a duplicate. */
  lemma PrecachePathsDistinct()
    ensures Distinct(PRECACHE_PATHS)
  {
    ManifestPartsDistinct();
    PagesApartFromRest();
    AssetsApart();
    var a := PAGE_PATHS;
    var b := DOCUMENT_PATHS;
    var c := SHELL_PATHS;
    var d := ICON_PATHS;
    DistinctConcat(a, b);
    DisjointConcat(a, b, c);
    DistinctConcat(a + b, c);
    DisjointConcat(a, b, d);
    DisjointConcat(a + b, c, d);
    DistinctConcat(a + b + c, d);
  }

  lemma PrecacheUrlsDistinct(origin: string)
    ensures Distinct(PrecacheUrls(origin))
  {
    PrecachePathsDistinct();
    var us := PrecacheUrls(origin);
    forall i, j | 0 <= i < j < |us| ensures us[i] != us[j] {
      assert us[i].path == PRECACHE_PATHS[i];
      assert us[j].path == PRECACHE_PATHS[j];
    }
  }

  /** The offline document is itself part of the manifest. */
  lemma FallbackIsPrecached(origin: string)
    ensures FallbackUrl(origin) in PrecacheUrls(origin)
  {
    assert PrecacheUrls(origin)[1] == FallbackUrl(origin);
  }

  datatype InstallOutcome = Installed | InstallFailed

  /**
   The install handler: open (or create) the current cache, then `addAll` the manifest.
   A failed `addAll` leaves the cache ready (possibly newly created and empty) but adds nothing.
   */
  function Install(cs: Caches, origin: string, net: Network): (r: (Caches, InstallOutcome))
    ensures r.1 == Installed <==> forall u | u in PrecacheUrls(origin) :: AddAllAccepts(net(u))
    ensures Lookup(r.0, CACHE_NAME).Some?
    ensures r.1 == Installed ==>
      forall u | u in PrecacheUrls(origin) ::
        u in Lookup(r.0, CACHE_NAME).value && Lookup(r.0, CACHE_NAME).value[u] == net(u).value
    ensures r.1 == Installed ==>
      forall u | u !in PrecacheUrls(origin) ::
        EqualOnKey(Lookup(cs, CACHE_NAME).GetOr(map[]), Lookup(r.0, CACHE_NAME).value, u)
    ensures r.1 == InstallFailed ==> Lookup(r.0, CACHE_NAME) == Some(Lookup(cs, CACHE_NAME).GetOr(map[]))
    ensures forall n | n != CACHE_NAME :: Lookup(r.0, n) == Lookup(cs, n)
    ensures Names(r.0) == Names(cs) + {CACHE_NAME}
    ensures Keys(cs) <= Keys(r.0)
    ensures UniqueNames(cs) ==> UniqueNames(r.0)
  {
    PrecacheUrlsDistinct(origin);
    var (after, ok) := OpenAndAddAll(cs, CACHE_NAME, PrecacheUrls(origin), net);
    (after, if ok then Installed else InstallFailed)
  }

  /** `keys.filter((key) => key !== CACHE_NAME)`, keeping the order. */
  function StaleKeys(keys: seq<string>): (r: seq<string>)
    ensures forall n :: n in r <==> n in keys && n != CACHE_NAME
  {
    if |keys| == 0 then []
    else
      var rest := StaleKeys(keys[1..]);
      assert forall n | n in keys[1..] :: n in keys;
      assert forall n | n in keys :: n == keys[0] || n in keys[1..];
      if keys[0] != CACHE_NAME then [keys[0]] + rest else rest
  }

  /** The activate handler: delete every cache whose name is not the current version. */
  function Activate(cs: Caches): (r: Caches)
    ensures Names(r) == Names(cs) * {CACHE_NAME}
    ensures forall i | 0 <= i < |r| :: r[i].name == CACHE_NAME
    ensures Lookup(r, CACHE_NAME) == Lookup(cs, CACHE_NAME)
    ensures UniqueNames(cs) ==> UniqueNames(r) && |r| <= 1
  {
    var stale := StaleKeys(Keys(cs));
    DeleteAllExcept(cs, CACHE_NAME, stale);
    DeleteAll(cs, stale)
  }

  /** The request mode as the Fetch standard defines it. */
  datatype Mode = Navigate | SameOriginMode | NoCors | Cors

  datatype Request = Request(verb: string, url: Url, mode: Mode)

  /** Passthrough: the handler returned without `respondWith`, so the browser fetches as usual. */
  datatype FetchOutcome = Passthrough | Respond(response: Option<Response>)

  /** The fetch handler takes over only same-origin GET requests. */
  predicate Intercepted(req: Request, origin: string) {
    req.verb == "GET" && req.url.origin == origin
  }

  /**
   The state after writing a copy of `resp` under `url` in the current cache and changing
   nothing else; `Cache.put` refuses a 206, which then leaves the (ready) cache as it was.
   */
  ghost predicate WroteCopy(cs: Caches, r: Caches, url: Url, resp: Response) {
    && Names(r) == Names(cs) + {CACHE_NAME}
    && (forall n | n != CACHE_NAME :: Lookup(r, n) == Lookup(cs, n))
    && Lookup(r, CACHE_NAME).Some?
    && (Storable(resp) ==> url in Lookup(r, CACHE_NAME).value && Lookup(r, CACHE_NAME).value[url] == resp)
    && (!Storable(resp) ==> EqualOnKey(Lookup(cs, CACHE_NAME).GetOr(map[]), Lookup(r, CACHE_NAME).value, url))
    && (forall u | u != url :: EqualOnKey(Lookup(cs, CACHE_NAME).GetOr(map[]), Lookup(r, CACHE_NAME).value, u))
    && Keys(cs) <= Keys(r)
    && (forall u | u != url :: Match(r, u) == Match(cs, u))
  }

  /** `caches.open(CACHE_NAME).then((cache) => cache.put(request, copy))`. */
  function StoreCopy(cs: Caches, url: Url, resp: Response): (r: Caches)
    ensures WroteCopy(cs, r, url, resp)
    ensures UniqueNames(cs) ==> UniqueNames(r)
  {
    var ready := Open(cs, CACHE_NAME);
    assert Keys(cs) <= Keys(ready) by {
      assert forall i | 0 <= i < |cs| :: Keys(ready)[i] == cs[i].name;
    }
    forall u | u != url ensures Match(ready, u) == Match(cs, u) {
      MatchSameOnKey(cs, ready, u);
    }
    match Put(Lookup(ready, CACHE_NAME).value, url, resp)
    case Some(e) =>
      var r := Replace(ready, CACHE_NAME, e);
      forall u | u != url ensures Match(r, u) == Match(cs, u) {
        forall i | 0 <= i < |ready| ensures EqualOnKey(ready[i].entries, r[i].entries, u) {
          if r[i] != ready[i] {
            assert ready[i].entries == Lookup(ready, CACHE_NAME).value;
          }
        }
        MatchSameOnKey(ready, r, u);
      }
      r
    case None => ready
  }

  /**
   The inline cache-first strategy: a hit in any cache is served as is; on a miss the
   network response, whatever its status, is served and a copy stored; when the network
   rejects too, the cached offline document is served (or nothing, if it is not cached).
   */
  function CacheFirst(cs: Caches, origin: string, url: Url, net: Network): (r: (Caches, FetchOutcome))
    ensures Match(cs, url).Some? ==> r.0 == cs && r.1 == Respond(Match(cs, url))
    ensures Match(cs, url).None? && net(url).Some? ==>
      r.1 == Respond(net(url)) && WroteCopy(cs, r.0, url, net(url).value)
    ensures Match(cs, url).None? && net(url).None? ==>
      r.0 == cs && r.1 == Respond(Match(cs, FallbackUrl(origin)))
    ensures UniqueNames(cs) ==> UniqueNames(r.0)
  {
    match Match(cs, url)
    case Some(hit) => (cs, Respond(Some(hit)))
    case None =>
      match net(url)
      case Some(resp) => (StoreCopy(cs, url, resp), Respond(Some(resp)))
      case None => (cs, Respond(Match(cs, FallbackUrl(origin))))
  }

  /**
   `networkFirst`: a resolved fetch is served live and a copy stored, whatever its status;
   when it rejects, the cached copy of the page is served if there is one, and the offline
   document otherwise.
   */
  function NetworkFirst(cs: Caches, origin: string, url: Url, net: Network): (r: (Caches, FetchOutcome))
    ensures net(url).Some? ==> r.1 == Respond(net(url)) && WroteCopy(cs, r.0, url, net(url).value)
    ensures net(url).None? ==> r.0 == cs
    ensures net(url).None? && Match(cs, url).Some? ==> r.1 == Respond(Match(cs, url))
    ensures net(url).None? && Match(cs, url).None? ==> r.1 == Respond(Match(cs, FallbackUrl(origin)))
    ensures UniqueNames(cs) ==> UniqueNames(r.0)
  {
    match net(url)
    case Some(resp) => (StoreCopy(cs, url, resp), Respond(Some(resp)))
    case None =>
      match Match(cs, url)
      case Some(hit) => (cs, Respond(Some(hit)))
      case None => (cs, Respond(Match(cs, FallbackUrl(origin))))
  }

  /** The fetch handler: route a request to passthrough or to one of the two strategies. */
  function HandleFetch(cs: Caches, origin: string, req: Request, net: Network): (r: (Caches, FetchOutcome))
    ensures r.1.Passthrough? <==> !Intercepted(req, origin)
    ensures r.1.Passthrough? ==> r.0 == cs
    ensures Intercepted(req, origin) && req.mode == Navigate ==> r == NetworkFirst(cs, origin, req.url, net)
    ensures Intercepted(req, origin) && req.mode != Navigate ==> r == CacheFirst(cs, origin, req.url, net)
    ensures forall n | n != CACHE_NAME :: Lookup(r.0, n) == Lookup(cs, n)
    ensures UniqueNames(cs) ==> UniqueNames(r.0)
  {
    if req.verb != "GET" then (cs, Passthrough)
    else if req.url.origin != origin then (cs, Passthrough)
    else if req.mode == Navigate then NetworkFirst(cs, origin, req.url, net)
    else CacheFirst(cs, origin, req.url, net)
  }
}
