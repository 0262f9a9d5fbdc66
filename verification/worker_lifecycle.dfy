/**
 Properties of the service worker across several events: the offline document survives
 every later event once installed, stale versions are never read after activation, and a
 page or asset fetched once is served from the cache when the network later fails.
 */
module WorkerLifecycle {
  import opened Wrappers
  import opened CacheStorage
  import opened ServiceWorker

  /** One event the host delivers to the worker, with the network as it behaves during it. */
  datatype Event = InstallEvent(net: Network) | ActivateEvent | FetchEvent(req: Request, net: Network)

  /** The caches after one event. */
  function Step(cs: Caches, origin: string, ev: Event): (r: Caches)
    ensures UniqueNames(cs) ==> UniqueNames(r)
  {
    match ev
    case InstallEvent(net) => Install(cs, origin, net).0
    case ActivateEvent => Activate(cs)
    case FetchEvent(req, net) => HandleFetch(cs, origin, req, net).0
  }

  /** The caches after a sequence of events, in delivery order. */
  function Run(cs: Caches, origin: string, evs: seq<Event>): (r: Caches)
    ensures UniqueNames(cs) ==> UniqueNames(r)
    decreases |evs|
  {
    if |evs| == 0 then cs else Run(Step(cs, origin, evs[0]), origin, evs[1..])
  }

  /** The current cache holds the offline document. */
  ghost predicate FallbackReady(cs: Caches, origin: string) {
    Lookup(cs, CACHE_NAME).Some? && FallbackUrl(origin) in Lookup(cs, CACHE_NAME).value
  }

  /** Every cache left is the current version. */
  ghost predicate Activated(cs: Caches) {
    UniqueNames(cs) && forall i | 0 <= i < |cs| :: cs[i].name == CACHE_NAME
  }

  /** An entry of any named cache makes `caches.match` succeed. */
  lemma LookupHitMatches(cs: Caches, name: string, url: Url)
    requires Lookup(cs, name).Some? && url in Lookup(cs, name).value
    ensures Match(cs, url).Some?
  {
    var i := IndexOfName(cs, name).value;
    assert url in cs[i].entries;
  }

  /** A successful install leaves the offline document in the current cache. */
  lemma InstallReadiesFallback(cs: Caches, origin: string, net: Network)
    ensures Install(cs, origin, net).1 == Installed ==> FallbackReady(Install(cs, origin, net).0, origin)
  {
    FallbackIsPrecached(origin);
  }

  /** No single event removes the offline document from the current cache. */
  lemma StepKeepsFallback(cs: Caches, origin: string, ev: Event)
    requires FallbackReady(cs, origin)
    ensures FallbackReady(Step(cs, origin, ev), origin)
  {
    var u := FallbackUrl(origin);
    match ev
    case InstallEvent(net) =>
      FallbackIsPrecached(origin);
    case ActivateEvent =>
    case FetchEvent(req, net) =>
      var r := HandleFetch(cs, origin, req, net);
      if Intercepted(req, origin) {
        if r.0 != cs {
          assert WroteCopy(cs, r.0, req.url, net(req.url).value);
          assert EqualOnKey(Lookup(cs, CACHE_NAME).GetOr(map[]), Lookup(r.0, CACHE_NAME).value, u) || u == req.url;
        }
      }
  }

  /** Once the offline document is in the current cache, no sequence of events removes it. */
  lemma {:induction false} RunKeepsFallback(cs: Caches, origin: string, evs: seq<Event>)
    requires FallbackReady(cs, origin)
    ensures FallbackReady(Run(cs, origin, evs), origin)
    decreases |evs|
  {
    if |evs| > 0 {
      StepKeepsFallback(cs, origin, evs[0]);
      RunKeepsFallback(Step(cs, origin, evs[0]), origin, evs[1..]);
    }
  }

  /**
   With the offline document cached, an intercepted request whose fetch rejects is always
   answered with a response, for navigations and assets alike.
   */
  lemma OfflineAlwaysAnswered(cs: Caches, origin: string, req: Request, net: Network)
    requires FallbackReady(cs, origin)
    requires Intercepted(req, origin) && net(req.url).None?
    ensures HandleFetch(cs, origin, req, net).0 == cs
    ensures HandleFetch(cs, origin, req, net).1.Respond?
    ensures HandleFetch(cs, origin, req, net).1.response.Some?
  {
    LookupHitMatches(cs, CACHE_NAME, FallbackUrl(origin));
  }

  /** After any events that start from a successful install, an offline request is still answered. */
  lemma InstalledWorkerAnswersOffline(cs: Caches, origin: string, net0: Network, evs: seq<Event>, req: Request, net: Network)
    requires Intercepted(req, origin) && net(req.url).None?
    ensures Install(cs, origin, net0).1 == Installed ==>
      HandleFetch(Run(Install(cs, origin, net0).0, origin, evs), origin, req, net).1.response.Some?
  {
    if Install(cs, origin, net0).1 == Installed {
      InstallReadiesFallback(cs, origin, net0);
      RunKeepsFallback(Install(cs, origin, net0).0, origin, evs);
      OfflineAlwaysAnswered(Run(Install(cs, origin, net0).0, origin, evs), origin, req, net);
    }
  }

  /** A cache hit for an asset is answered the same whatever the network would do: no fetch. */
  lemma CacheHitIgnoresNetwork(cs: Caches, origin: string, req: Request, net1: Network, net2: Network)
    requires Intercepted(req, origin) && req.mode != Navigate
    requires Match(cs, req.url).Some?
    ensures HandleFetch(cs, origin, req, net1) == HandleFetch(cs, origin, req, net2)
    ensures HandleFetch(cs, origin, req, net1) == (cs, Respond(Match(cs, req.url)))
  {
  }

  /** Activation leaves only the current cache, with its contents unchanged. */
  lemma ActivateKeepsOnlyCurrent(cs: Caches)
    requires UniqueNames(cs)
    ensures Activate(cs) == if CACHE_NAME in Names(cs) then [NamedCache(CACHE_NAME, Lookup(cs, CACHE_NAME).value)] else []
    ensures Activated(Activate(cs))
  {
    var r := Activate(cs);
    if |r| == 1 {
      assert IndexOfName(r, CACHE_NAME) == Some(0);
    }
  }

  lemma {:induction false} NoStaleKeys(keys: seq<string>)
    requires forall k | k in keys :: k == CACHE_NAME
    ensures StaleKeys(keys) == []
  {
    if |keys| > 0 {
      assert keys[0] in keys;
      assert forall k | k in keys[1..] :: k in keys;
      NoStaleKeys(keys[1..]);
    }
  }

  /** Activating twice is activating once. */
  lemma ActivateIdempotent(cs: Caches)
    ensures Activate(Activate(cs)) == Activate(cs)
  {
    var r := Activate(cs);
    var keys := Keys(r);
    forall k | k in keys ensures k == CACHE_NAME {
      var i :| 0 <= i < |keys| && keys[i] == k;
      assert r[i].name == k;
    }
    NoStaleKeys(keys);
  }

  /** Fetch handling only ever opens the current cache, so an activated state stays activated. */
  lemma FetchKeepsActivated(cs: Caches, origin: string, req: Request, net: Network)
    requires Activated(cs)
    ensures Activated(HandleFetch(cs, origin, req, net).0)
  {
    var r := HandleFetch(cs, origin, req, net).0;
    assert Names(cs) <= {CACHE_NAME};
    forall i | 0 <= i < |r| ensures r[i].name == CACHE_NAME {
      assert r[i].name in Names(r);
    }
  }

  /** In an activated state, `caches.match` reads the current cache and nothing else. */
  lemma ActivatedMatchReadsCurrent(cs: Caches, url: Url)
    requires Activated(cs)
    ensures Match(cs, url) ==
      if CACHE_NAME in Names(cs) && url in Lookup(cs, CACHE_NAME).value
      then Some(Lookup(cs, CACHE_NAME).value[url]) else None
  {
    if |cs| > 0 {
      assert IndexOfName(cs, CACHE_NAME) == Some(0);
    }
  }

  /**
   After activation, whatever a request was answered with while online, with a response
   other than 206, is what it is answered with when the network later fails: such a visited
   page never falls back to the root document. A 206 is not stored, so it does.
   */
  lemma VisitedPageServedOffline(cs: Caches, origin: string, req: Request, online: Network, offline: Network)
    requires Activated(cs)
    requires Intercepted(req, origin)
    requires online(req.url).Some? && Storable(online(req.url).value)
    requires offline(req.url).None?
    ensures HandleFetch(HandleFetch(cs, origin, req, online).0, origin, req, offline).1
         == HandleFetch(cs, origin, req, online).1
  {
    var r := HandleFetch(cs, origin, req, online).0;
    FetchKeepsActivated(cs, origin, req, online);
    if req.mode == Navigate {
      assert WroteCopy(cs, r, req.url, online(req.url).value);
    } else if Match(cs, req.url).None? {
      assert WroteCopy(cs, r, req.url, online(req.url).value);
    }
    ActivatedMatchReadsCurrent(r, req.url);
    ActivatedMatchReadsCurrent(cs, req.url);
  }

  /** Activation with a stale and the current version present keeps only the current one. */
  lemma ActivateScenario(stale: Entries, current: Entries)
    ensures Activate([NamedCache("svityazhome-v11", stale), NamedCache(CACHE_NAME, current)])
         == [NamedCache(CACHE_NAME, current)]
  {
    ActivateKeepsOnlyCurrent([NamedCache("svityazhome-v11", stale), NamedCache(CACHE_NAME, current)]);
  }

  /** Precaching two URLs that both answer 200 into a fresh storage leaves both in the new cache. */
  lemma PrecacheScenario(root: Url, style: Url, net: Network)
    requires root != style
    requires net(root) == Some(Response(200, "home")) && net(style) == Some(Response(200, "css"))
    ensures OpenAndAddAll([], "v1", [root, style], net).1
    ensures Lookup(OpenAndAddAll([], "v1", [root, style], net).0, "v1")
         == Some(map[root := Response(200, "home"), style := Response(200, "css")])
  {
    var urls := [root, style];
    assert forall u | u in urls :: u == root || u == style;
    var e := Lookup(OpenAndAddAll([], "v1", urls, net).0, "v1").value;
    var want := map[root := Response(200, "home"), style := Response(200, "css")];
    assert forall u | u !in urls :: EqualOnKey(map[], e, u);
    assert e.Keys == want.Keys;
    assert e == want;
  }

  /**
   A navigation to a page visited before, while the network is down, is answered with the
   stored page and not with the root document.
   */
  lemma OfflineNavigationScenario(origin: string, page: Response, root: Response)
    ensures var about := Url(origin, "/about/");
            var cs := [NamedCache(CACHE_NAME, map[FallbackUrl(origin) := root, about := page])];
            HandleFetch(cs, origin, Request("GET", about, Navigate), (u: Url) => None)
              == (cs, Respond(Some(page)))
  {
    var about := Url(origin, "/about/");
    var cs := [NamedCache(CACHE_NAME, map[FallbackUrl(origin) := root, about := page])];
    assert IndexOfHit(cs, about) == Some(0);
  }

  /**
   Until `activate` runs, a stale version created earlier answers an asset request before the
   current one; after activation the current version answers.
   */
  lemma StaleVersionAnswersUntilActivated(url: Url, older: Response, newer: Response, net: Network)
    ensures var cs := [NamedCache("svityazhome-v11", map[url := older]), NamedCache(CACHE_NAME, map[url := newer])];
            var req := Request("GET", url, NoCors);
            && HandleFetch(cs, url.origin, req, net) == (cs, Respond(Some(older)))
            && HandleFetch(Activate(cs), url.origin, req, net) == (Activate(cs), Respond(Some(newer)))
  {
    var cs := [NamedCache("svityazhome-v11", map[url := older]), NamedCache(CACHE_NAME, map[url := newer])];
    assert IndexOfHit(cs, url) == Some(0);
    ActivateKeepsOnlyCurrent(cs);
    assert IndexOfHit(Activate(cs), url) == Some(0);
  }
}
