/**
 The browser's CacheStorage as the service worker sees it: an ordered collection of named
 caches, each mapping a request URL to a response snapshot. Caches are kept in creation
 order because `caches.match` answers with the first hit across all of them.
 Request matching is keyed by URL only (no Vary headers, no cloning).
 */
module CacheStorage {
  import opened Wrappers

  /** An absolute request URL, split into its origin and the rest (path and query). */
  datatype Url = Url(origin: string, path: string)

  /** An immutable response snapshot. */
  datatype Response = Response(status: int, body: string)

  /** The contents of one named cache. */
  type Entries = map<Url, Response>

  datatype NamedCache = NamedCache(name: string, entries: Entries)

  /** All caches of the origin, in creation order. */
  type Caches = seq<NamedCache>

  /** The result of `caches.keys()`: the cache names in creation order. */
  function Keys(cs: Caches): (r: seq<string>)
    ensures |r| == |cs|
    ensures forall n :: n in r <==> n in Names(cs)
  {
    var r := seq(|cs|, i requires 0 <= i < |cs| => cs[i].name);
    assert forall n | n in Names(cs) :: n in r by {
      forall n | n in Names(cs) ensures n in r {
        var i :| 0 <= i < |cs| && cs[i].name == n;
        assert r[i] == n;
      }
    }
    r
  }

  function Names(cs: Caches): set<string> {
    set i | 0 <= i < |cs| :: cs[i].name
  }

  /** The platform never holds two caches under one name. */
  predicate UniqueNames(cs: Caches) {
    forall i, j | 0 <= i < j < |cs| :: cs[i].name != cs[j].name
  }

  /** Position of the first cache called `name`. */
  function IndexOfName(cs: Caches, name: string): (r: Option<nat>)
    ensures r.None? <==> name !in Names(cs)
    ensures r.Some? ==> r.value < |cs| && cs[r.value].name == name
    ensures r.Some? ==> forall j | 0 <= j < r.value :: cs[j].name != name
  {
    if |cs| == 0 then None
    else if cs[0].name == name then Some(0)
    else
      match IndexOfName(cs[1..], name)
      case None =>
        assert Names(cs) == {cs[0].name} + Names(cs[1..]) by {
          NamesCons(cs);
        }
        None
      case Some(k) => Some(k + 1)
  }

  lemma NamesCons(cs: Caches)
    requires |cs| > 0
    ensures Names(cs) == {cs[0].name} + Names(cs[1..])
  {
    forall n | n in Names(cs) ensures n in {cs[0].name} + Names(cs[1..]) {
      var i :| 0 <= i < |cs| && cs[i].name == n;
      if i > 0 {
        assert cs[1..][i - 1].name == n;
      }
    }
    forall n | n in Names(cs[1..]) ensures n in Names(cs) {
      var i :| 0 <= i < |cs[1..]| && cs[1..][i].name == n;
      assert cs[i + 1].name == n;
    }
  }

  /** The contents of the cache called `name` (`caches.open` on an existing name), if any. */
  function Lookup(cs: Caches, name: string): (r: Option<Entries>)
    ensures r.None? <==> name !in Names(cs)
  {
    match IndexOfName(cs, name)
    case None => None
    case Some(i) => Some(cs[i].entries)
  }

  /** Position of the first cache, in creation order, holding an entry for `url`. */
  function IndexOfHit(cs: Caches, url: Url): (r: Option<nat>)
    ensures r.None? <==> forall i | 0 <= i < |cs| :: url !in cs[i].entries
    ensures r.Some? ==> r.value < |cs| && url in cs[r.value].entries
    ensures r.Some? ==> forall j | 0 <= j < r.value :: url !in cs[j].entries
  {
    if |cs| == 0 then None
    else if url in cs[0].entries then Some(0)
    else
      match IndexOfHit(cs[1..], url)
      case None => None
      case Some(k) => Some(k + 1)
  }

  /** `caches.match(url)`: the entry of the first cache that has one. */
  function Match(cs: Caches, url: Url): (r: Option<Response>)
    ensures r.None? <==> forall i | 0 <= i < |cs| :: url !in cs[i].entries
    ensures r.Some? ==> exists i | 0 <= i < |cs| ::
      && url in cs[i].entries && r.value == cs[i].entries[url]
      && forall j | 0 <= j < i :: url !in cs[j].entries
  {
    match IndexOfHit(cs, url)
    case None => None
    case Some(i) => Some(cs[i].entries[url])
  }

  /** `caches.open(name)`: an existing cache is reused, a missing one is created last. */
  function Open(cs: Caches, name: string): (r: Caches)
    ensures cs <= r
    ensures Names(r) == Names(cs) + {name}
    ensures Lookup(r, name) == Some(Lookup(cs, name).GetOr(map[]))
    ensures forall n | n != name :: Lookup(r, n) == Lookup(cs, n)
    ensures UniqueNames(cs) ==> UniqueNames(r)
  {
    if name in Names(cs) then cs
    else
      var r := cs + [NamedCache(name, map[])];
      NamesAppend(cs, NamedCache(name, map[]));
      LookupAppend(cs, NamedCache(name, map[]));
      r
  }

  lemma NamesAppend(cs: Caches, c: NamedCache)
    ensures Names(cs + [c]) == Names(cs) + {c.name}
  {
    var r := cs + [c];
    forall n | n in Names(r) ensures n in Names(cs) + {c.name} {
      var i :| 0 <= i < |r| && r[i].name == n;
      if i < |cs| {
        assert cs[i].name == n;
      }
    }
    forall n | n in Names(cs) ensures n in Names(r) {
      var i :| 0 <= i < |cs| && cs[i].name == n;
      assert r[i].name == n;
    }
    assert r[|cs|].name == c.name;
  }

  /** Appending a cache does not change what existing names resolve to. */
  lemma LookupAppend(cs: Caches, c: NamedCache)
    ensures forall n | n in Names(cs) :: Lookup(cs + [c], n) == Lookup(cs, n)
    ensures c.name !in Names(cs) ==> Lookup(cs + [c], c.name) == Some(c.entries)
    ensures forall n | n !in Names(cs) && n != c.name :: Lookup(cs + [c], n).None?
  {
    var r := cs + [c];
    NamesAppend(cs, c);
    forall n | n in Names(cs) ensures Lookup(r, n) == Lookup(cs, n) {
      var i := IndexOfName(cs, n).value;
      var k := IndexOfName(r, n).value;
      assert r[i].name == n;
      assert k <= i;
      assert cs[k].name == n;
    }
  }

  /** Replaces the contents of the first cache called `name`; other caches are untouched. */
  function Replace(cs: Caches, name: string, e: Entries): (r: Caches)
    ensures Keys(r) == Keys(cs)
    ensures Names(r) == Names(cs)
    ensures forall i | 0 <= i < |r| :: r[i] == cs[i] || (IndexOfName(cs, name) == Some(i) && r[i] == NamedCache(name, e))
    ensures name in Names(cs) ==> Lookup(r, name) == Some(e)
    ensures forall n | n != name :: Lookup(r, n) == Lookup(cs, n)
    ensures UniqueNames(cs) ==> UniqueNames(r)
  {
    match IndexOfName(cs, name)
    case None => cs
    case Some(i) =>
      var r := cs[i := NamedCache(name, e)];
      assert forall j | 0 <= j < |cs| :: r[j].name == cs[j].name;
      assert Names(r) == Names(cs) by {
        forall n | n in Names(cs) ensures n in Names(r) {
          var j :| 0 <= j < |cs| && cs[j].name == n;
          assert r[j].name == n;
        }
      }
      SameKeysLookup(cs, r);
      r
  }

  /** Two storages with the same names in the same order resolve names to the same positions. */
  lemma SameKeysLookup(cs: Caches, r: Caches)
    requires |r| == |cs|
    requires forall j | 0 <= j < |cs| :: r[j].name == cs[j].name
    ensures forall n :: IndexOfName(r, n) == IndexOfName(cs, n)
  {
    forall n ensures IndexOfName(r, n) == IndexOfName(cs, n) {
      SameKeysIndex(cs, r, n);
    }
  }

  lemma {:induction false} SameKeysIndex(cs: Caches, r: Caches, n: string)
    requires |r| == |cs|
    requires forall j | 0 <= j < |cs| :: r[j].name == cs[j].name
    ensures IndexOfName(r, n) == IndexOfName(cs, n)
  {
    if |cs| > 0 && cs[0].name != n {
      SameKeysIndex(cs[1..], r[1..], n);
    }
  }

  /** No cache called by one of `names` holds an entry for `url`. */
  predicate NotHeldUnder(cs: Caches, names: seq<string>, url: Url) {
    forall i | 0 <= i < |cs| && cs[i].name in names :: url !in cs[i].entries
  }

  /** `caches.match` on a non-empty storage: the first cache, else the rest. */
  lemma MatchCons(cs: Caches, url: Url)
    requires |cs| > 0
    ensures Match(cs, url) == if url in cs[0].entries then Some(cs[0].entries[url]) else Match(cs[1..], url)
  {
    if url !in cs[0].entries && IndexOfHit(cs[1..], url).Some? {
      var k := IndexOfHit(cs[1..], url).value;
      assert cs[k + 1] == cs[1..][k];
    }
  }

  /**
   `caches.match(u)` depends only on each cache's entry for `u`: caches that agree on it
   position by position, plus caches without it at the end, answer alike.
   */
  lemma {:induction false} MatchSameOnKey(a: Caches, b: Caches, u: Url)
    requires |a| <= |b|
    requires forall i | 0 <= i < |a| :: EqualOnKey(a[i].entries, b[i].entries, u)
    requires forall i | |a| <= i < |b| :: u !in b[i].entries
    ensures Match(a, u) == Match(b, u)
    decreases |a|
  {
    if |a| > 0 {
      MatchCons(a, u);
      MatchCons(b, u);
      assert EqualOnKey(a[0].entries, b[0].entries, u);
      MatchSameOnKey(a[1..], b[1..], u);
    }
  }

  /** `r` is `cs` with some caches removed and the rest in their original order. */
  predicate Subsequence(r: Caches, cs: Caches)
    decreases |cs|
  {
    if |r| == 0 then true
    else if |cs| == 0 then false
    else if r[0] == cs[0] then Subsequence(r[1..], cs[1..])
    else Subsequence(r, cs[1..])
  }

  /** Dropping the first cache of the larger storage keeps a subsequence one. */
  lemma {:induction false} SubsequenceSkip(r: Caches, cs: Caches)
    requires |cs| > 0 && Subsequence(r, cs[1..])
    ensures Subsequence(r, cs)
    decreases |r| + |cs|
  {
    if |r| > 0 && r[0] == cs[0] {
      SubsequenceTail(r, cs[1..]);
    }
  }

  lemma {:induction false} SubsequenceTail(r: Caches, cs: Caches)
    requires |r| > 0 && Subsequence(r, cs)
    ensures Subsequence(r[1..], cs)
    decreases |r| + |cs|
  {
    if r[0] == cs[0] {
      SubsequenceSkip(r[1..], cs);
    } else {
      SubsequenceTail(r, cs[1..]);
      SubsequenceSkip(r[1..], cs);
    }
  }

  /** Keeping the first cache of the larger storage keeps a subsequence one. */
  lemma SubsequenceCons(rest: Caches, cs: Caches)
    requires |cs| > 0 && Subsequence(rest, cs[1..])
    ensures Subsequence([cs[0]] + rest, cs)
  {
    assert ([cs[0]] + rest)[1..] == rest;
  }

  lemma {:induction false} SubsequenceRefl(cs: Caches)
    ensures Subsequence(cs, cs)
    decreases |cs|
  {
    if |cs| > 0 {
      SubsequenceRefl(cs[1..]);
    }
  }

  lemma {:induction false} SubsequenceTrans(a: Caches, b: Caches, c: Caches)
    requires Subsequence(a, b) && Subsequence(b, c)
    ensures Subsequence(a, c)
    decreases |c|
  {
    if |a| > 0 {
      if b[0] == c[0] {
        if a[0] == b[0] {
          SubsequenceTrans(a[1..], b[1..], c[1..]);
        } else {
          SubsequenceTrans(a, b[1..], c[1..]);
          SubsequenceSkip(a, c);
        }
      } else {
        SubsequenceTrans(a, b, c[1..]);
        SubsequenceSkip(a, c);
      }
    }
  }

  /**
   `caches.delete(name)`: every cache called `name` disappears, the others keep their order
   (`DeleteKeepsOrder`).
   */
  function Delete(cs: Caches, name: string): (r: Caches)
    ensures |r| <= |cs|
    ensures forall c | c in r :: c in cs && c.name != name
    ensures forall url | NotHeldUnder(cs, [name], url) :: Match(r, url) == Match(cs, url)
    ensures Names(r) == Names(cs) - {name}
    ensures forall n | n != name :: Lookup(r, n) == Lookup(cs, n)
    ensures UniqueNames(cs) ==> UniqueNames(r)
  {
    if |cs| == 0 then cs
    else
      var rest := Delete(cs[1..], name);
      NamesCons(cs);
      if cs[0].name == name then
        assert forall n | n != name :: Lookup(cs, n) == Lookup(cs[1..], n) by {
          forall n | n != name ensures Lookup(cs, n) == Lookup(cs[1..], n) {
            LookupSkip(cs, n);
          }
        }
        forall url | NotHeldUnder(cs, [name], url) ensures Match(rest, url) == Match(cs, url) {
          assert url !in cs[0].entries;
          MatchCons(cs, url);
          assert NotHeldUnder(cs[1..], [name], url);
        }
        rest
      else
        var r := [cs[0]] + rest;
        assert r[1..] == rest;
        NamesCons(r);
        forall n | n != name ensures Lookup(r, n) == Lookup(cs, n) {
          if n != cs[0].name {
            LookupSkip(cs, n);
            LookupSkip(r, n);
          }
        }
        forall url | NotHeldUnder(cs, [name], url) ensures Match(r, url) == Match(cs, url) {
          MatchCons(cs, url);
          MatchCons(r, url);
          assert NotHeldUnder(cs[1..], [name], url);
        }
        assert UniqueNames(cs) ==> UniqueNames(r) by {
          if UniqueNames(cs) {
            UniqueTail(cs);
            UniqueCons(cs[0], rest);
          }
        }
        r
  }

  lemma UniqueTail(cs: Caches)
    requires |cs| > 0 && UniqueNames(cs)
    ensures UniqueNames(cs[1..]) && cs[0].name !in Names(cs[1..])
  {
    NamesCons(cs);
  }

  lemma UniqueCons(c: NamedCache, rest: Caches)
    requires UniqueNames(rest) && c.name !in Names(rest)
    ensures UniqueNames([c] + rest)
  {
    var r := [c] + rest;
    forall i, j | 0 <= i < j < |r| ensures r[i].name != r[j].name {
      assert r[j] == rest[j - 1];
      if i > 0 {
        assert r[i] == rest[i - 1];
      }
    }
  }

  /** A name different from the first cache's is resolved in the rest of the storage. */
  lemma LookupSkip(cs: Caches, n: string)
    requires |cs| > 0 && cs[0].name != n
    ensures Lookup(cs, n) == Lookup(cs[1..], n)
  {
  }

  /** A URL not held under any of `names` is not held under the first, nor, after deleting the first, under the rest. */
  lemma NotHeldSplit(cs: Caches, d: Caches, names: seq<string>, url: Url)
    requires |names| > 0 && NotHeldUnder(cs, names, url)
    requires forall c | c in d :: c in cs
    ensures NotHeldUnder(cs, [names[0]], url) && NotHeldUnder(d, names[1..], url)
  {
    forall i | 0 <= i < |d| && d[i].name in names[1..] ensures url !in d[i].entries {
      assert d[i] in cs;
      var j :| 0 <= j < |cs| && cs[j] == d[i];
    }
  }

  lemma NameSetSplit(names: seq<string>)
    requires |names| > 0
    ensures (set n | n in names) == {names[0]} + set n | n in names[1..]
  {
    assert names == [names[0]] + names[1..];
  }

  /** `Delete` applied to each name in turn. */
  function DeleteAll(cs: Caches, names: seq<string>): (r: Caches)
    ensures Names(r) == Names(cs) - set n | n in names
    ensures forall n | n !in names :: Lookup(r, n) == Lookup(cs, n)
    ensures forall c | c in r :: c in cs && c.name !in names
    ensures forall url | NotHeldUnder(cs, names, url) :: Match(r, url) == Match(cs, url)
    ensures UniqueNames(cs) ==> UniqueNames(r)
    decreases |names|
  {
    if |names| == 0 then cs
    else
      var d := Delete(cs, names[0]);
      var r := DeleteAll(d, names[1..]);
      forall url | NotHeldUnder(cs, names, url) ensures Match(r, url) == Match(cs, url) {
        NotHeldSplit(cs, d, names, url);
      }
      NameSetSplit(names);
      assert forall n | n !in names :: n != names[0] && n !in names[1..];
      r
  }

  /** `caches.delete` keeps the surviving caches in their creation order. */
  lemma {:induction false} DeleteKeepsOrder(cs: Caches, name: string)
    ensures Subsequence(Delete(cs, name), cs)
    decreases |cs|
  {
    if |cs| > 0 {
      DeleteKeepsOrder(cs[1..], name);
      if cs[0].name == name {
        SubsequenceSkip(Delete(cs[1..], name), cs);
      } else {
        SubsequenceCons(Delete(cs[1..], name), cs);
      }
    }
  }

  /** Deleting several names in turn keeps the surviving caches in their creation order. */
  lemma {:induction false} DeleteAllKeepsOrder(cs: Caches, names: seq<string>)
    ensures Subsequence(DeleteAll(cs, names), cs)
    decreases |names|
  {
    if |names| == 0 {
      SubsequenceRefl(cs);
    } else {
      var d := Delete(cs, names[0]);
      DeleteKeepsOrder(cs, names[0]);
      DeleteAllKeepsOrder(d, names[1..]);
      SubsequenceTrans(DeleteAll(d, names[1..]), d, cs);
    }
  }

  /** Deleting every key but `keep` leaves only caches called `keep`, with their contents. */
  lemma DeleteAllExcept(cs: Caches, keep: string, stale: seq<string>)
    requires forall n :: n in stale <==> n in Keys(cs) && n != keep
    ensures Names(DeleteAll(cs, stale)) == Names(cs) * {keep}
    ensures forall i | 0 <= i < |DeleteAll(cs, stale)| :: DeleteAll(cs, stale)[i].name == keep
    ensures Lookup(DeleteAll(cs, stale), keep) == Lookup(cs, keep)
    ensures UniqueNames(cs) ==> UniqueNames(DeleteAll(cs, stale)) && |DeleteAll(cs, stale)| <= 1
  {
    var r := DeleteAll(cs, stale);
    assert (set n | n in stale) == Names(cs) - {keep};
    forall i | 0 <= i < |r| ensures r[i].name == keep {
      assert r[i].name in Names(r);
    }
    assert UniqueNames(r) ==> |r| <= 1 by {
      if |r| > 1 {
        assert r[0].name == r[1].name;
      }
    }
  }

  /** A response the Cache API agrees to store: `Cache.put` refuses partial content (206). */
  predicate Storable(resp: Response) {
    resp.status != 206
  }

  /** `Cache.put(url, resp)` on one cache's contents; None when the put rejects. */
  function Put(e: Entries, url: Url, resp: Response): (r: Option<Entries>)
    ensures r.Some? <==> Storable(resp)
    ensures r.Some? ==> url in r.value && r.value[url] == resp
    ensures r.Some? ==> forall u | u != url :: (u in r.value <==> u in e) && (u in e ==> r.value[u] == e[u])
  {
    if Storable(resp) then Some(e[url := resp]) else None
  }

  /** A fetch outcome `Cache.addAll` accepts: resolved, with an ok (2xx) status other than 206. */
  predicate AddAllAccepts(resp: Option<Response>) {
    resp.Some? && 200 <= resp.value.status <= 299 && resp.value.status != 206
  }

  predicate Distinct<T(==)>(s: seq<T>) {
    forall i, j | 0 <= i < j < |s| :: s[i] != s[j]
  }

  /** No element of `a` occurs in `b`. */
  predicate Disjoint<T(==)>(a: seq<T>, b: seq<T>) {
    forall i, j | 0 <= i < |a| && 0 <= j < |b| :: a[i] != b[j]
  }

  lemma DistinctConcat<T>(a: seq<T>, b: seq<T>)
    requires Distinct(a) && Distinct(b) && Disjoint(a, b)
    ensures Distinct(a + b)
  {
    var s := a + b;
    forall i, j | 0 <= i < j < |s| ensures s[i] != s[j] {
      if j < |a| {
        assert s[i] == a[i] && s[j] == a[j];
      } else if i >= |a| {
        assert s[i] == b[i - |a|] && s[j] == b[j - |a|];
      } else {
        assert s[i] == a[i] && s[j] == b[j - |a|];
      }
    }
  }

  lemma DisjointConcat<T>(a: seq<T>, b: seq<T>, c: seq<T>)
    requires Disjoint(a, c) && Disjoint(b, c)
    ensures Disjoint(a + b, c)
  {
    var s := a + b;
    forall i, j | 0 <= i < |s| && 0 <= j < |c| ensures s[i] != c[j] {
      if i < |a| {
        assert s[i] == a[i];
      } else {
        assert s[i] == b[i - |a|];
      }
    }
  }

  /** Writes the fetched response of every URL, in order. */
  function StoreAll(e: Entries, urls: seq<Url>, net: Url -> Option<Response>): (r: Entries)
    requires forall i | 0 <= i < |urls| :: net(urls[i]).Some?
    ensures forall i | 0 <= i < |urls| :: urls[i] in r && r[urls[i]] == net(urls[i]).value
    ensures forall u | u !in urls :: (u in r <==> u in e) && (u in e ==> r[u] == e[u])
    decreases |urls|
  {
    if |urls| == 0 then e
    else
      var r := StoreAll(e[urls[0] := net(urls[0]).value], urls[1..], net);
      assert forall i | 1 <= i < |urls| :: urls[i] == urls[1..][i - 1];
      assert forall u | u in urls[1..] :: u in urls;
      r
  }

  /**
   `Cache.addAll(urls)`: fetch every URL, then store them all in one batch. All or nothing:
   a rejected fetch, a status `AddAllAccepts` refuses, or the same URL twice in the batch
   (an InvalidStateError) rejects, and nothing is written.
   */
  function AddAll(e: Entries, urls: seq<Url>, net: Url -> Option<Response>): (r: Option<Entries>)
    ensures r.Some? <==> Distinct(urls) && forall i | 0 <= i < |urls| :: AddAllAccepts(net(urls[i]))
    ensures r.Some? ==> forall i | 0 <= i < |urls| :: urls[i] in r.value && r.value[urls[i]] == net(urls[i]).value
    ensures r.Some? ==> forall u | u !in urls :: (u in r.value <==> u in e) && (u in e ==> r.value[u] == e[u])
  {
    if forall i | 0 <= i < |urls| :: AddAllAccepts(net(urls[i])) then
      if Distinct(urls) then Some(StoreAll(e, urls, net)) else None
    else None
  }

  /** Both maps lack `u`, or both map it to the same response. */
  predicate EqualOnKey(e: Entries, e': Entries, u: Url) {
    (u !in e && u !in e') || (u in e && u in e' && e[u] == e'[u])
  }

  /**
   `caches.open(name)` followed by `cache.addAll(urls)`: the cache is opened (created if
   missing) whether or not the batch succeeds; the flag says whether `addAll` resolved.
   */
  function OpenAndAddAll(cs: Caches, name: string, urls: seq<Url>, net: Url -> Option<Response>): (r: (Caches, bool))
    ensures r.1 <==> Distinct(urls) && forall u | u in urls :: AddAllAccepts(net(u))
    ensures Lookup(r.0, name).Some?
    ensures r.1 ==> forall u | u in urls :: u in Lookup(r.0, name).value && Lookup(r.0, name).value[u] == net(u).value
    ensures r.1 ==> forall u | u !in urls :: EqualOnKey(Lookup(cs, name).GetOr(map[]), Lookup(r.0, name).value, u)
    ensures !r.1 ==> Lookup(r.0, name) == Some(Lookup(cs, name).GetOr(map[]))
    ensures forall n | n != name :: Lookup(r.0, n) == Lookup(cs, n)
    ensures Names(r.0) == Names(cs) + {name}
    ensures Keys(cs) <= Keys(r.0)
    ensures UniqueNames(cs) ==> UniqueNames(r.0)
  {
    var ready := Open(cs, name);
    assert Keys(cs) <= Keys(ready) by {
      assert forall i | 0 <= i < |cs| :: Keys(ready)[i] == cs[i].name;
    }
    assert (forall u | u in urls :: AddAllAccepts(net(u))) <==> forall i | 0 <= i < |urls| :: AddAllAccepts(net(urls[i]));
    match AddAll(Lookup(ready, name).value, urls, net)
    case Some(e) =>
      assert forall u | u in urls :: exists i | 0 <= i < |urls| :: urls[i] == u;
      (Replace(ready, name, e), true)
    case None => (ready, false)
  }
}
