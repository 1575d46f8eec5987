/**
 * The service worker of the sales PWA: it classifies every intercepted
 * request into one of three strategies, answers it from the network or the
 * cache store, and runs the install / activate lifecycle of one cache
 * generation. The fetch handler only reads the store, so it is a function of
 * a snapshot of it; install and activate change the store in place.
 */
module ServiceWorker {
  import opened Wrappers
  import opened Urls
  import opened CacheStore

  /** The host of the canonical address, spelled as the source spells it. */
  const PagesHost: string := "cleytonLuis.github.io"

  /** The canonical address the application is always loaded from:
      "https://cleytonLuis.github.io/sistema-vendas-pwa/". */
  const GitHubPagesUrl: Url := "https://" + PagesHost + "/sistema-vendas-pwa/"

  /** The version label of the current cache generation. */
  const CacheName: string := "gk-supl-v1"

  /** The application shell fetched and stored at install time. */
  const AssetsToCache: seq<Url> := [
    GitHubPagesUrl,
    GitHubPagesUrl + "index.html",
    GitHubPagesUrl + "acompanhamento-vendas.js",
    GitHubPagesUrl + "styles.css",
    GitHubPagesUrl + "icons/icon-192.png",
    GitHubPagesUrl + "icons/icon-512.png"
  ]

  /** The request modes of the Fetch Standard. */
  datatype Mode = Navigate | SameOrigin | NoCors | Cors | WebSocket

  /** An intercepted request: its mode, method, serialised URL and the origin of that URL. */
  datatype Request = Request(mode: Mode, verb: string, href: Url, origin: string)

  datatype Strategy = Redirect | CacheFirst | NetworkOnly

  /** What the handler did, in order: the network fetches and cache lookups it issued. */
  datatype Effect = NetworkFetch(url: Url) | CacheMatch(url: Url)

  /** The response given to `respondWith`; a rejection or an undefined
      response both surface as a network error for the page. */
  datatype Reply = Served(resp: Response) | NetworkError

  datatype Handled = Handled(reply: Reply, effects: seq<Effect>)

  function NetworkTargets(effects: seq<Effect>): (urls: seq<Url>)
    ensures |urls| <= |effects|
  {
    if effects == [] then []
    else (if effects[0].NetworkFetch? then [effects[0].url] else []) + NetworkTargets(effects[1..])
  }

  function CacheReads(effects: seq<Effect>): (urls: seq<Url>)
    ensures |urls| <= |effects|
  {
    if effects == [] then []
    else (if effects[0].CacheMatch? then [effects[0].url] else []) + CacheReads(effects[1..])
  }

  /** The classification exactly as the handler writes it: navigation first,
      then the asset list or the worker's own origin, then everything else. */
  function Classify(req: Request, selfOrigin: string): (s: Strategy)
    ensures s == Redirect <==> req.mode == Navigate
    ensures s == CacheFirst <==> req.mode != Navigate && (req.href in AssetsToCache || req.origin == selfOrigin)
    ensures s == NetworkOnly <==> req.mode != Navigate && req.href !in AssetsToCache && req.origin != selfOrigin
  {
    if req.mode == Navigate then Redirect
    else if req.href in AssetsToCache || req.origin == selfOrigin then CacheFirst
    else NetworkOnly
  }

  /** A URL under the canonical address is not in serialised form: its host
      keeps the capital 'L' that serialisation lowers. */
  lemma PagesUrlNotSerialized(rest: string)
    ensures SerializeUrl(GitHubPagesUrl + rest) != GitHubPagesUrl + rest
  {
    var path := "/sistema-vendas-pwa/" + rest;
    var a := GitHubPagesUrl + rest;
    assert a == "https://" + PagesHost + path;
    HttpsHostLowered(PagesHost, path);
    assert PagesHost[7] == 'L' && a[15] == 'L';
    assert SerializeUrl(a)[15] == LowerAscii('L') != 'L';
  }

  lemma AssetsNotSerialized()
    ensures forall i :: 0 <= i < |AssetsToCache| ==> SerializeUrl(AssetsToCache[i]) != AssetsToCache[i]
  {
    forall i | 0 <= i < |AssetsToCache|
      ensures SerializeUrl(AssetsToCache[i]) != AssetsToCache[i]
    {
      var rest := AssetsToCache[i][|GitHubPagesUrl|..];
      assert AssetsToCache[i] == GitHubPagesUrl + rest;
      PagesUrlNotSerialized(rest);
    }
  }

  /** Below the canonical address, serialisation keeps the path as it is:
      only the address itself changes. */
  lemma PagesUrlSerialized(rest: string)
    ensures SerializeUrl(GitHubPagesUrl + rest) == SerializeUrl(GitHubPagesUrl) + rest
  {
    var dir := "/sistema-vendas-pwa/";
    var a := GitHubPagesUrl + rest;
    assert a == "https://" + PagesHost + (dir + rest);
    assert '/' !in PagesHost;
    HttpsPathStart(PagesHost, dir + rest);
    HttpsPathStart(PagesHost, dir);
    var p := SerializeUrl(GitHubPagesUrl);
    forall k | 0 <= k < |a| ensures SerializeUrl(a)[k] == (p + rest)[k] {
      if k < |GitHubPagesUrl| {
        assert a[k] == GitHubPagesUrl[k];
      }
    }
  }

  /** No two assets share a serialised URL, so `addAll` does not reject the
      list as holding duplicates. */
  lemma AssetKeysDistinct()
    ensures forall i, j :: 0 <= i < j < |AssetsToCache| ==> SerializeUrl(AssetsToCache[i]) != SerializeUrl(AssetsToCache[j])
  {
    var p := SerializeUrl(GitHubPagesUrl);
    forall i, j | 0 <= i < j < |AssetsToCache|
      ensures SerializeUrl(AssetsToCache[i]) != SerializeUrl(AssetsToCache[j])
    {
      var ri := AssetsToCache[i][|GitHubPagesUrl|..];
      var rj := AssetsToCache[j][|GitHubPagesUrl|..];
      assert AssetsToCache[i] == GitHubPagesUrl + ri && AssetsToCache[j] == GitHubPagesUrl + rj;
      assert ri != rj;
      PagesUrlSerialized(ri);
      PagesUrlSerialized(rj);
      assert (p + ri)[|p|..] == ri && (p + rj)[|p|..] == rj;
    }
  }

  /** As written, the asset-list test never fires: the browser hands the
      handler serialised URLs, whose host is lower case, while every entry of
      the asset list spells the host "cleytonLuis". Only the origin test decides. */
  lemma AssetBranchNeverMatches(req: Request, selfOrigin: string)
    requires SerializeUrl(req.href) == req.href
    ensures req.href !in AssetsToCache
    ensures Classify(req, selfOrigin) == CacheFirst <==> req.mode != Navigate && req.origin == selfOrigin
  {
    AssetsNotSerialized();
  }

  /** The URLs under which the asset list is stored: their serialised forms. */
  function PrecacheKeys(): set<Url>
  {
    set a | a in AssetsToCache :: SerializeUrl(a)
  }

  /** The classification as intended: a request for one of the precached
      assets is recognised whatever the spelling of its host. */
  function ClassifyIntended(req: Request, selfOrigin: string): (s: Strategy)
    ensures s == Redirect <==> req.mode == Navigate
    ensures s == CacheFirst <==> req.mode != Navigate && (SerializeUrl(req.href) in PrecacheKeys() || req.origin == selfOrigin)
    ensures s == NetworkOnly <==> req.mode != Navigate && SerializeUrl(req.href) !in PrecacheKeys() && req.origin != selfOrigin
  {
    if req.mode == Navigate then Redirect
    else if SerializeUrl(req.href) in PrecacheKeys() || req.origin == selfOrigin then CacheFirst
    else NetworkOnly
  }

  /** Every asset of the list, requested under the URL the browser would hand
      in, is served cache-first even from a foreign origin; the intended
      classification differs from the written one only on those requests. */
  lemma PrecachedAssetsAreCacheFirst(req: Request, selfOrigin: string)
    ensures forall i :: 0 <= i < |AssetsToCache| && req.mode != Navigate && req.href == SerializeUrl(AssetsToCache[i]) ==>
              ClassifyIntended(req, selfOrigin) == CacheFirst
    ensures ClassifyIntended(req, selfOrigin) != Classify(req, selfOrigin) ==>
              Classify(req, selfOrigin) == NetworkOnly && ClassifyIntended(req, selfOrigin) == CacheFirst
              && req.origin != selfOrigin && SerializeUrl(req.href) in PrecacheKeys()
  {
    forall i | 0 <= i < |AssetsToCache| && req.mode != Navigate && req.href == SerializeUrl(AssetsToCache[i])
      ensures ClassifyIntended(req, selfOrigin) == CacheFirst
    {
      SerializeIdempotent(AssetsToCache[i]);
      assert SerializeUrl(req.href) in PrecacheKeys();
    }
    if req.href in AssetsToCache {
      var i :| 0 <= i < |AssetsToCache| && AssetsToCache[i] == req.href;
      assert SerializeUrl(req.href) in PrecacheKeys();
    }
  }

  function FromFetch(r: FetchResult): Reply
  {
    match r
    case Ok(resp) => Served(resp)
    case Fail => NetworkError
  }

  /** The three branches of the fetch handler, once the strategy is chosen:
      the redirect with its cache fallback, cache-first, and network-only. */
  function Respond(s: Strategy, gens: seq<Generation>, req: Request, net: Network): Handled
  {
    match s
    case Redirect =>
      var live := Fetch(net, GitHubPagesUrl);
      if live.Ok? then
        Handled(Served(live.resp), [NetworkFetch(GitHubPagesUrl)])
      else
        var cached := Lookup(gens, "GET", GitHubPagesUrl);
        var effects := [NetworkFetch(GitHubPagesUrl), CacheMatch(GitHubPagesUrl)];
        assert effects[1..] == [CacheMatch(GitHubPagesUrl)];
        Handled(if cached.Some? then Served(cached.value) else NetworkError, effects)
    case CacheFirst =>
      var hit := Lookup(gens, req.verb, req.href);
      if hit.Some? then
        Handled(Served(hit.value), [CacheMatch(req.href)])
      else
        var effects := [CacheMatch(req.href), NetworkFetch(req.href)];
        assert effects[1..] == [NetworkFetch(req.href)];
        Handled(FromFetch(Fetch(net, req.href)), effects)
    case NetworkOnly =>
      Handled(FromFetch(Fetch(net, req.href)), [NetworkFetch(req.href)])
  }

  /**
   * The fetch handler as written: the strategy comes from `Classify`, and the
   * request is answered from a snapshot of the store and the network oracle.
   * It returns no store, so no request, hit, miss, redirect or pass-through
   * ever writes to the cache.
   */
  function HandleFetch(gens: seq<Generation>, req: Request, selfOrigin: string, net: Network): (h: Handled)
    // Navigation: only the canonical URL goes to the network, whatever was requested.
    ensures req.mode == Navigate ==> NetworkTargets(h.effects) == [GitHubPagesUrl]
    ensures req.mode == Navigate && Fetch(net, GitHubPagesUrl).Ok? ==>
              h.reply == Served(net[SerializeUrl(GitHubPagesUrl)]) && CacheReads(h.effects) == []
    ensures req.mode == Navigate && Fetch(net, GitHubPagesUrl).Fail? ==>
              CacheReads(h.effects) == [GitHubPagesUrl]
              && (h.reply.Served? <==> Lookup(gens, "GET", GitHubPagesUrl).Some?)
              && (h.reply.Served? ==> h.reply.resp == Lookup(gens, "GET", GitHubPagesUrl).value)
    // Cache-first: a hit never touches the network; a miss passes the live result through.
    ensures Classify(req, selfOrigin) == CacheFirst ==> CacheReads(h.effects) == [req.href]
    ensures Classify(req, selfOrigin) == CacheFirst && Lookup(gens, req.verb, req.href).Some? ==>
              h.reply == Served(Lookup(gens, req.verb, req.href).value) && NetworkTargets(h.effects) == []
    ensures Classify(req, selfOrigin) == CacheFirst && Lookup(gens, req.verb, req.href).None? ==>
              NetworkTargets(h.effects) == [req.href]
              && (h.reply.Served? <==> SerializeUrl(req.href) in net)
              && (h.reply.Served? ==> h.reply.resp == net[SerializeUrl(req.href)])
    // Network-only: the cache is never consulted.
    ensures Classify(req, selfOrigin) == NetworkOnly ==>
              CacheReads(h.effects) == [] && NetworkTargets(h.effects) == [req.href]
              && (h.reply.Served? <==> SerializeUrl(req.href) in net)
              && (h.reply.Served? ==> h.reply.resp == net[SerializeUrl(req.href)])
  {
    Respond(Classify(req, selfOrigin), gens, req, net)
  }

  /** The fetch handler with the corrected classifier. */
  function HandleFetchIntended(gens: seq<Generation>, req: Request, selfOrigin: string, net: Network): Handled
  {
    Respond(ClassifyIntended(req, selfOrigin), gens, req, net)
  }

  /** The corrected handler answers every request as the written one does,
      except the cross-origin requests for a precached asset, which the
      written one sends to the network and the corrected one to the cache. */
  lemma IntendedHandlerDiffersOnlyOnAssets(gens: seq<Generation>, req: Request, selfOrigin: string, net: Network)
    ensures HandleFetchIntended(gens, req, selfOrigin, net) != HandleFetch(gens, req, selfOrigin, net) ==>
              Classify(req, selfOrigin) == NetworkOnly && ClassifyIntended(req, selfOrigin) == CacheFirst
              && req.origin != selfOrigin && SerializeUrl(req.href) in PrecacheKeys()
  {
    PrecachedAssetsAreCacheFirst(req, selfOrigin);
  }

  /** A navigation is answered the same way whatever URL, method or origin it carried. */
  lemma NavigationIgnoresRequestedUrl(gens: seq<Generation>, a: Request, b: Request, selfOrigin: string, net: Network)
    requires a.mode == Navigate && b.mode == Navigate
    ensures HandleFetch(gens, a, selfOrigin, net) == HandleFetch(gens, b, selfOrigin, net)
  {
  }

  /** A network-only request is answered the same way whatever the store
      holds: repeated with a new live response, it yields the new response. */
  lemma NetworkOnlyIgnoresStore(g1: seq<Generation>, g2: seq<Generation>, req: Request, selfOrigin: string, net: Network)
    requires Classify(req, selfOrigin) == NetworkOnly
    ensures HandleFetch(g1, req, selfOrigin, net) == HandleFetch(g2, req, selfOrigin, net)
  {
  }

  /** No response is invented: whatever is served came from the network or
      from a generation of the store. */
  lemma ServedResponsesAreNotInvented(gens: seq<Generation>, req: Request, selfOrigin: string, net: Network)
    ensures HandleFetch(gens, req, selfOrigin, net).reply.Served? ==>
              HandleFetch(gens, req, selfOrigin, net).reply.resp in net.Values
              || exists i :: 0 <= i < |gens| && HandleFetch(gens, req, selfOrigin, net).reply.resp in gens[i].entries.Values
  {
    var h := HandleFetch(gens, req, selfOrigin, net);
    if h.reply.Served? {
      var s := Classify(req, selfOrigin);
      if s == Redirect && Fetch(net, GitHubPagesUrl).Fail? {
        var i :| 0 <= i < |gens| && SerializeUrl(GitHubPagesUrl) in gens[i].entries
                 && Lookup(gens, "GET", GitHubPagesUrl).value == gens[i].entries[SerializeUrl(GitHubPagesUrl)];
        assert h.reply.resp in gens[i].entries.Values;
      } else if s == CacheFirst && Lookup(gens, req.verb, req.href).Some? {
        var i :| 0 <= i < |gens| && SerializeUrl(req.href) in gens[i].entries
                 && Lookup(gens, req.verb, req.href).value == gens[i].entries[SerializeUrl(req.href)];
        assert h.reply.resp in gens[i].entries.Values;
      }
    }
  }

  /** The install handler: open the current generation, add the whole asset
      list, and skip waiting only when that succeeded. */
  method Install(storage: CacheStorage, net: Network) returns (skippedWaiting: bool)
    requires storage.Valid()
    modifies storage
    ensures storage.Valid()
    ensures storage.generations == Installed(old(storage.generations), CacheName, AssetsToCache, net)
    ensures skippedWaiting <==> FetchAll(AssetsToCache, net).Some?
  {
    storage.Open(CacheName);
    skippedWaiting := storage.AddAll(CacheName, AssetsToCache, net);
  }

  /** Install reaches `skipWaiting` exactly when the network serves every
      asset with a storable response. */
  lemma InstallSucceedsIffAssetsServed(net: Network)
    ensures FetchAll(AssetsToCache, net).Some? <==>
              forall u :: u in AssetsToCache ==> Fetch(net, u).Ok? && Storable(Fetch(net, u).resp)
  {
    AssetKeysDistinct();
    FetchAllSucceedsExactly(AssetsToCache, net);
  }

  /** The names the activate sweep deletes among the first `n` of `names`. */
  function Stale(names: seq<string>, n: nat, current: string): set<string>
    requires n <= |names|
  {
    if n == 0 then {}
    else if names[n - 1] != current then Stale(names, n - 1, current) + {names[n - 1]}
    else Stale(names, n - 1, current)
  }

  /** The stale names are exactly the visited names other than `current`. */
  lemma {:induction false} StaleHolds(names: seq<string>, n: nat, current: string)
    requires n <= |names|
    ensures forall k :: 0 <= k < n && names[k] != current ==> names[k] in Stale(names, n, current)
    ensures current !in Stale(names, n, current)
  {
    if n > 0 {
      StaleHolds(names, n - 1, current);
    }
  }

  /** The store after the activate sweep has visited the first `n` of
      `names` in order, deleting each that is not `current`. */
  function Swept(gens: seq<Generation>, names: seq<string>, n: nat, current: string): seq<Generation>
    requires n <= |names|
  {
    if n == 0 then gens
    else
      var earlier := Swept(gens, names, n - 1, current);
      if names[n - 1] != current then FilterOut(earlier, {names[n - 1]}) else earlier
  }

  lemma {:induction false} SweptFiltersStale(gens: seq<Generation>, names: seq<string>, n: nat, current: string)
    requires n <= |names|
    ensures Swept(gens, names, n, current) == FilterOut(gens, Stale(names, n, current))
  {
    if n == 0 {
      FilterOutNothing(gens);
    } else {
      SweptFiltersStale(gens, names, n - 1, current);
      if names[n - 1] != current {
        FilterOutTwice(gens, Stale(names, n - 1, current), {names[n - 1]});
      }
    }
  }

  /** Deleting, among the listed names, every one that is not current leaves
      exactly the current generation. */
  lemma SweepIsRetain(gens: seq<Generation>, names: seq<string>, current: string)
    requires names == NamesOf(gens)
    ensures Swept(gens, names, |names|, current) == Retain(gens, current)
  {
    StaleHolds(names, |names|, current);
    forall g | g in gens ensures g.name in Stale(names, |names|, current) <==> g.name != current {
      var k :| 0 <= k < |gens| && gens[k] == g;
      assert names[k] == g.name;
    }
    SweptFiltersStale(gens, names, |names|, current);
    FilterOutIsRetain(gens, Stale(names, |names|, current), current);
  }

  /** The activate handler: list the generations, delete every one not named
      `CacheName`, then claim the open clients. */
  method Activate(storage: CacheStorage) returns (claimed: bool)
    requires storage.Valid()
    modifies storage
    ensures storage.Valid()
    ensures storage.generations == Retain(old(storage.generations), CacheName)
    ensures claimed
  {
    ghost var before := storage.generations;
    var cacheNames := NamesOf(storage.generations);
    for i := 0 to |cacheNames|
      invariant storage.Valid()
      invariant storage.generations == Swept(before, cacheNames, i, CacheName)
    {
      if cacheNames[i] != CacheName {
        var deleted := storage.Delete(cacheNames[i]);
      }
    }
    SweepIsRetain(before, cacheNames, CacheName);
    claimed := true;
  }

  lemma SameNamesDistinct(a: seq<Generation>, b: seq<Generation>)
    requires NamesOf(a) == NamesOf(b) && DistinctNames(a)
    ensures DistinctNames(b)
  {
    forall i, j | 0 <= i < j < |b| ensures b[i].name != b[j].name {
      assert NamesOf(a)[i] == a[i].name && NamesOf(a)[j] == a[j].name;
    }
  }

  /** The store a successful install and activation leave. */
  function Activated(gens: seq<Generation>, net: Network): seq<Generation>
  {
    Retain(Installed(gens, CacheName, AssetsToCache, net), CacheName)
  }

  /** Generation `g` holds every asset under its serialised URL, with the
      response the network gave for it. */
  ghost predicate HoldsAssets(g: Generation, net: Network)
  {
    forall u :: u in AssetsToCache ==>
      SerializeUrl(u) in net && SerializeUrl(u) in g.entries && g.entries[SerializeUrl(u)] == net[SerializeUrl(u)]
  }

  /** After a successful install and activation the store is the single
      current generation, holding every asset under its serialised URL. */
  lemma InstallThenActivateHoldsAssets(gens: seq<Generation>, net: Network) returns (g: Generation)
    requires DistinctNames(gens)
    requires FetchAll(AssetsToCache, net).Some?
    ensures Activated(gens, net) == [g]
    ensures g.name == CacheName && HoldsAssets(g, net)
  {
    var installed := Installed(gens, CacheName, AssetsToCache, net);
    OpenedDistinct(gens, CacheName);
    InstallSuccessStoresEveryUrl(gens, CacheName, AssetsToCache, net);
    SameNamesDistinct(Opened(gens, CacheName), installed);
    RetainLeavesCurrentOnly(installed, CacheName);
    var i :| 0 <= i < |installed| && installed[i].name == CacheName && Retain(installed, CacheName) == [installed[i]];
    g := installed[i];
  }

  /** Offline, over the store of one generation holding the assets, a
      navigation is answered with the stored canonical page. */
  lemma OfflineNavigationFrom(g: Generation, net: Network, req: Request, selfOrigin: string)
    requires HoldsAssets(g, net) && req.mode == Navigate
    ensures HandleFetch([g], req, selfOrigin, map[]).reply == Served(net[SerializeUrl(GitHubPagesUrl)])
  {
    assert AssetsToCache[0] == GitHubPagesUrl;
    LookupSingle(g, "GET", GitHubPagesUrl);
  }

  /** Offline, over the store of one generation holding the assets, a
      same-origin GET for asset `u` under its browser URL is answered with its
      stored response. */
  lemma OfflineAssetFrom(g: Generation, net: Network, req: Request, selfOrigin: string, u: Url)
    requires HoldsAssets(g, net)
    requires u in AssetsToCache && req.mode != Navigate && req.verb == "GET" && req.href == SerializeUrl(u)
    requires req.origin == selfOrigin
    ensures HandleFetch([g], req, selfOrigin, map[]).reply == Served(net[SerializeUrl(u)])
  {
    SerializeIdempotent(u);
    LookupSingle(g, req.verb, req.href);
  }

  /** Offline, a cross-origin request for an asset under its browser URL is
      sent to the network by the written classifier and fails, whatever the
      store holds. */
  lemma OfflineCrossOriginAssetFails(gens: seq<Generation>, req: Request, selfOrigin: string, u: Url)
    requires u in AssetsToCache && req.mode != Navigate && req.href == SerializeUrl(u)
    requires req.origin != selfOrigin
    ensures Classify(req, selfOrigin) == NetworkOnly
    ensures HandleFetch(gens, req, selfOrigin, map[]).reply == NetworkError
  {
    SerializeIdempotent(u);
    AssetBranchNeverMatches(req, selfOrigin);
  }

  /** With the corrected classifier, an offline GET for asset `u` under its
      browser URL is answered with its stored response from any origin. */
  lemma OfflineAssetFromIntended(g: Generation, net: Network, req: Request, selfOrigin: string, u: Url)
    requires HoldsAssets(g, net)
    requires u in AssetsToCache && req.mode != Navigate && req.verb == "GET" && req.href == SerializeUrl(u)
    ensures HandleFetchIntended([g], req, selfOrigin, map[]).reply == Served(net[SerializeUrl(u)])
  {
    var i :| 0 <= i < |AssetsToCache| && AssetsToCache[i] == u;
    PrecachedAssetsAreCacheFirst(req, selfOrigin);
    SerializeIdempotent(u);
    LookupSingle(g, req.verb, req.href);
  }

  /** Offline after a successful install and activation, as written: any
      navigation is answered with the stored canonical page and every
      same-origin asset request with its stored response, while a
      cross-origin asset request and any other network-only request fail
      without a cached value standing in. */
  lemma OfflineAfterInstallAndActivate(gens: seq<Generation>, net: Network, selfOrigin: string, req: Request)
    requires DistinctNames(gens)
    requires FetchAll(AssetsToCache, net).Some?
    ensures req.mode == Navigate ==>
              HandleFetch(Activated(gens, net), req, selfOrigin, map[]).reply == Served(net[SerializeUrl(GitHubPagesUrl)])
    ensures forall u :: u in AssetsToCache && req.mode != Navigate && req.verb == "GET" && req.href == SerializeUrl(u)
                        && req.origin == selfOrigin ==>
              HandleFetch(Activated(gens, net), req, selfOrigin, map[]).reply == Served(net[SerializeUrl(u)])
    ensures forall u :: u in AssetsToCache && req.mode != Navigate && req.href == SerializeUrl(u) && req.origin != selfOrigin ==>
              HandleFetch(Activated(gens, net), req, selfOrigin, map[]).reply == NetworkError
    ensures Classify(req, selfOrigin) == NetworkOnly ==>
              HandleFetch(Activated(gens, net), req, selfOrigin, map[]).reply == NetworkError
  {
    var g := InstallThenActivateHoldsAssets(gens, net);
    if req.mode == Navigate {
      OfflineNavigationFrom(g, net, req, selfOrigin);
    }
    forall u | u in AssetsToCache && req.mode != Navigate && req.verb == "GET" && req.href == SerializeUrl(u)
               && req.origin == selfOrigin
      ensures HandleFetch([g], req, selfOrigin, map[]).reply == Served(net[SerializeUrl(u)])
    {
      OfflineAssetFrom(g, net, req, selfOrigin, u);
    }
    forall u | u in AssetsToCache && req.mode != Navigate && req.href == SerializeUrl(u) && req.origin != selfOrigin
      ensures HandleFetch([g], req, selfOrigin, map[]).reply == NetworkError
    {
      OfflineCrossOriginAssetFails([g], req, selfOrigin, u);
    }
  }

  /** Offline after a successful install and activation, with the corrected
      classifier: every asset requested under its browser URL is answered with
      its stored response, from any origin. */
  lemma OfflineAfterInstallAndActivateIntended(gens: seq<Generation>, net: Network, selfOrigin: string, req: Request)
    requires DistinctNames(gens)
    requires FetchAll(AssetsToCache, net).Some?
    ensures forall u :: u in AssetsToCache && req.mode != Navigate && req.verb == "GET" && req.href == SerializeUrl(u) ==>
              HandleFetchIntended(Activated(gens, net), req, selfOrigin, map[]).reply == Served(net[SerializeUrl(u)])
  {
    var g := InstallThenActivateHoldsAssets(gens, net);
    forall u | u in AssetsToCache && req.mode != Navigate && req.verb == "GET" && req.href == SerializeUrl(u)
      ensures HandleFetchIntended([g], req, selfOrigin, map[]).reply == Served(net[SerializeUrl(u)])
    {
      OfflineAssetFromIntended(g, net, req, selfOrigin, u);
    }
  }

  /** Installing and activating v2 over a store that holds only generation
      v1 leaves the one generation v2, holding what its install stored. */
  lemma InstallOverPreviousGeneration(old1: seq<Generation>, v1: string, v2: string, urls2: seq<Url>, net2: Network)
    requires v1 != v2
    requires forall g :: g in old1 ==> g.name == v1
    ensures Retain(Installed(old1, v2, urls2, net2), v2)
            == [Generation(v2, if FetchAll(urls2, net2).Some? then FetchAll(urls2, net2).value else map[])]
  {
    forall j | 0 <= j < |old1| ensures NamesOf(old1)[j] != v2 {
      assert old1[j] in old1;
    }
    var newGen := Generation(v2, if FetchAll(urls2, net2).Some? then FetchAll(urls2, net2).value else map[]);
    InstalledFresh(old1, v2, urls2, net2);
    RetainAppend(old1, [newGen], v2);
    RetainNone(old1, v2);
    assert [newGen][1..] == [];
  }

  /** An upgrade: after generation v1 was installed and activated, installing
      and activating v2 leaves exactly the generation v2, holding exactly what
      its own install stored; whatever only v1 held is a cache miss. */
  lemma UpgradeLeavesOnlyNewGeneration(gens: seq<Generation>, v1: string, urls1: seq<Url>, net1: Network,
                                       v2: string, urls2: seq<Url>, net2: Network)
    requires v1 != v2
    ensures NamesOf(Retain(Installed(Retain(Installed(gens, v1, urls1, net1), v1), v2, urls2, net2), v2)) == [v2]
    ensures forall u :: Lookup(Retain(Installed(Retain(Installed(gens, v1, urls1, net1), v1), v2, urls2, net2), v2), "GET", u).Some?
              <==> FetchAll(urls2, net2).Some? && SerializeUrl(u) in FetchAll(urls2, net2).value
  {
    var old1 := Retain(Installed(gens, v1, urls1, net1), v1);
    InstallOverPreviousGeneration(old1, v1, v2, urls2, net2);
    var after := Retain(Installed(old1, v2, urls2, net2), v2);
    var stored := if FetchAll(urls2, net2).Some? then FetchAll(urls2, net2).value else map[];
    assert after == [Generation(v2, stored)];
    assert NamesOf(after) == [v2];
    forall u ensures Lookup(after, "GET", u).Some? <==> SerializeUrl(u) in stored {
      LookupSingle(Generation(v2, stored), "GET", u);
    }
  }
}
