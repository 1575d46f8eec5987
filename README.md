# Sales PWA: service worker routing and tunnel-link update, in Dafny

This project models the two working parts of the sales PWA repository.

**The service worker** (`service-worker.js`) intercepts every request of the installed PWA and does three things.

- It classifies each request:
  - a navigation is redirected to the canonical GitHub Pages address;
  - a request for the worker's own origin is answered cache-first;
  - everything else goes to the network only.
  - The code also means to answer a request for a precached asset cache-first, whatever its origin. As written, that test never succeeds (see "## Findings"), so only the origin test decides.
- It answers the request with the strategy chosen.
- It runs the install / activate lifecycle of one cache generation, `gk-supl-v1`:
  - install opens the generation and `addAll`s the application shell;
  - activate deletes every other generation.

**The link updater** (`update_link.py`) does two things.

- It finds the public `*.trycloudflare.com` address in the cloudflared log, reading the lines from the last one backwards and taking the leftmost match of `https?://[A-Za-z0-9\-]+\.trycloudflare\.com\b`.
- It writes that address into the `app_url` member of the manifest, which is then saved and committed.

Modules, one per file:

- `wrappers.dfy`: `Option`.
- `urls.dfy` (`Urls`): the part of URL serialisation (WHATWG URL Standard) the worker depends on. The scheme and host of an http(s) URL are lower-cased.
- `cache_store.dfy` (`CacheStore`): the origin's cache storage, following sections 5.4 and 5.5 of W3C Service Workers.
  - The storage is an ordered list of named generations, each a map from serialised URL to response.
  - The spec functions are `caches.open`, `cache.addAll`, `caches.match` and `caches.delete`.
  - The class `CacheStorage` holds the generations, and its methods update them in place.
- `service_worker.dfy` (`ServiceWorker`):
  - the constants of the worker;
  - the classifier, as written (`Classify`) and as intended (`ClassifyIntended`);
  - the fetch handler `HandleFetch`, which dispatches on the classifier as written. It is a function of a snapshot of the store and of a network oracle, so it cannot write to the store;
  - the handler with the intended classifier, `HandleFetchIntended`, with a lemma that the two differ only on cross-origin requests for precached assets;
  - the install and activate handlers: methods over a `CacheStorage`;
  - scenario lemmas (offline after install, upgrade from one generation to the next).
- `tunnel_log.dfy` (`TunnelLog`):
  - the pattern, as a reference predicate `MatchSpans` and as a hand-written matcher;
  - Python's `re.search` (leftmost match);
  - the backwards scan of the log, as a loop (`ExtractTunnelUrl`) proved against the function `LastTunnelUrl`.
- `update_link.dfy` (`UpdateLink`): JSON values, `load_local_manifest`, the `app_url` update, and `main` after its token step.

The network is an oracle: a map from serialised URL to response.

- A URL the map lacks is a transport failure, so `fetch` rejects.
- Any status in the map resolves `fetch`.
- `cache.addAll` stores nothing unless every response has an ok status other than 206, as section 5.4 of W3C Service Workers requires.

Where the repository's design notes and its code disagree, the model follows the code:

- **No API-prefix rule.** There is no API-prefix rule in the classifier. A same-origin API request is answered cache-first (service-worker.js:60).
- **No write-back.** A cache-first miss passes the live response through without storing it (service-worker.js:64).
- **Strict install.** The install policy is the strict one: `addAll` is all-or-nothing. The best-effort policy the design allows is not in the code.

## Model

| member | source | states |
|---|---|---|
| Urls.SerializeUrl | service-worker.js:46 | the model's serialisation, standing for `new URL(s).href`: it has the same length as `s`; before the path it is `s` with ASCII capitals lowered, and from the path on it is `s` |
| Urls.SerializeIdempotent | service-worker.js:46 | serialising an already serialised URL changes nothing |
| Urls.HttpsPathStart | service-worker.js:46 | in `https://` + host + path, with no '/' in the host and a path starting with '/', the path starts right after the host |
| Urls.HttpsHostLowered | service-worker.js:46 | in `https://` + host + path, with no '/' in the host, every host character is lower-cased |
| CacheStore.Fetch | service-worker.js:52 | `fetch(url)` resolves iff the serialised URL is reachable, and then with exactly the network's response; otherwise it rejects |
| CacheStore.NamesOf | service-worker.js:32 | `caches.keys()` lists one name per generation, in creation order |
| CacheStore.FirstHolding | service-worker.js:62 | gives the first generation, in creation order, holding the key: it holds the key and no earlier one does; none only if no generation holds it |
| CacheStore.Lookup | service-worker.js:53 | `caches.match` misses iff the method is not GET or no generation holds the serialised URL; a hit is the response of the first generation, in creation order, that holds it |
| CacheStore.LookupSingle | service-worker.js:62 | over one generation, `caches.match` hits iff the request is a GET whose serialised URL is a key, and returns that entry |
| CacheStore.Opened | service-worker.js:19 | `caches.open(name)`: the name exists afterwards; an existing generation is reused unchanged; otherwise one empty generation is appended and nothing else changes |
| CacheStore.FetchAll | service-worker.js:22 | the fetch phase of `addAll`: on success it holds exactly the serialised URLs, each mapped to the network's response; it fails whenever any URL is unreachable or not storable (when it succeeds: `FetchAllSucceedsExactly`) |
| CacheStore.FetchAllRejectsDuplicates | service-worker.js:22 | the fetch phase fails when two requests share a serialised URL |
| CacheStore.FetchAllSucceeds | service-worker.js:22 | the fetch phase succeeds when every URL yields a storable response and no two share a serialised URL |
| CacheStore.FetchAllSucceedsExactly | service-worker.js:22 | the fetch phase succeeds iff every URL yields a storable response and the serialised URLs are distinct |
| CacheStore.PutAll | service-worker.js:22 | the put phase of `addAll`: names and order are kept; the named generation gains the entries, replacing what it held under those URLs; every other generation is unchanged |
| CacheStore.Installed | service-worker.js:18-23 | the install leaves the same names, in the same order, as `caches.open(name)` alone, whether or not `addAll` succeeds |
| CacheStore.FilterOutMembers | service-worker.js:35-37 | deleting a set of names keeps exactly the generations whose names are not in the set |
| CacheStore.LookupCons | service-worker.js:62 | `caches.match` looks in the first generation before the rest, and only for a GET |
| CacheStore.LookupFilterOutStep | service-worker.js:37 | after deletions, `caches.match` either skips a deleted first generation or looks in it first, then goes on with the rest |
| CacheStore.FirstSurviving | service-worker.js:37 | gives the first generation, in creation order, whose name survives the deletions and which holds the key; none only if no survivor holds it |
| CacheStore.LookupAfterDelete | service-worker.js:37 | deletions keep the survivors in their order: after them, `caches.match` answers from the first surviving generation, in creation order, holding the URL |
| CacheStore.Retain | service-worker.js:32-41 | keeps exactly the generations named `keep` |
| CacheStore.FilterOutDistinct | service-worker.js:37 | deleting generations keeps the names distinct |
| CacheStore.OpenedDistinct | service-worker.js:19 | opening a generation keeps the names distinct |
| CacheStore.InstalledFresh | service-worker.js:18-23 | installing a generation not yet present appends it, holding exactly what `addAll` stored (nothing if it failed) |
| CacheStore.FilterOutTwice | service-worker.js:34-38 | two deletion sweeps equal one sweep over the union of the names |
| CacheStore.FilterOutIsRetain | service-worker.js:35 | deleting every name other than `keep` is keeping the generations named `keep` |
| CacheStore.OpenedKeepsLookups | service-worker.js:19 | opening a generation changes no `caches.match` result |
| CacheStore.InstallFailureStoresNothing | service-worker.js:18-25 | when any asset fetch fails, `caches.match` answers exactly as before for every request; at most an empty generation is created |
| CacheStore.InstallSuccessStoresEveryUrl | service-worker.js:18-25 | on success, every URL is stored in the named generation with the network's response; other generations keep their place and contents |
| CacheStore.RetainLeavesCurrentOnly | service-worker.js:32-41 | with distinct names, activation leaves exactly the one current generation, unchanged, or nothing if it never existed |
| CacheStore.RetainIdempotent | service-worker.js:28-43 | activating twice equals activating once |
| CacheStore.CacheStorage.Open | service-worker.js:19 | the store becomes `Opened(old, name)`; names stay distinct |
| CacheStore.CacheStorage.AddAll | service-worker.js:22 | resolves iff the fetch phase succeeds (see `FetchAllSucceedsExactly` for when); then the store is `PutAll` of those entries, otherwise it is unchanged |
| CacheStore.CacheStorage.Delete | service-worker.js:37 | resolves to whether the name existed; the store loses exactly that generation |
| ServiceWorker.Classify | service-worker.js:49-74 | exactly one strategy: Redirect iff navigate; CacheFirst iff not navigate and (href in the asset list or same origin); NetworkOnly otherwise |
| ServiceWorker.PagesUrlNotSerialized | service-worker.js:3 | no URL under the canonical address is in serialised form: serialisation lowers the 'L' of its host |
| ServiceWorker.AssetsNotSerialized | service-worker.js:3-13 | no entry of the asset list equals its own serialised form |
| ServiceWorker.PagesUrlSerialized | service-worker.js:3-13 | serialising a URL under the canonical address only lowers its host: what follows the canonical prefix is kept |
| ServiceWorker.AssetKeysDistinct | service-worker.js:5-13 | the assets' serialised URLs are pairwise distinct, so `addAll` is not rejected for duplicates |
| ServiceWorker.AssetBranchNeverMatches | service-worker.js:60 | for any serialised href, the asset-list test is false, and CacheFirst holds iff not navigate and same origin |
| ServiceWorker.ClassifyIntended | service-worker.js:60 | exactly one strategy, with the asset test on serialised URLs: Redirect iff navigate; CacheFirst iff not navigate and (precached key or same origin) |
| ServiceWorker.PrecachedAssetsAreCacheFirst | service-worker.js:60 | every asset requested under its browser URL is CacheFirst even cross-origin; the two classifiers differ only on such cross-origin asset requests |
| ServiceWorker.HandleFetch | service-worker.js:45-75 | dispatching on `Classify`, as written; see the list below the table |
| ServiceWorker.IntendedHandlerDiffersOnlyOnAssets | service-worker.js:60 | the handler with the intended classifier answers differently only for a cross-origin non-navigation request for a precached asset, which the code sends to the network and the intended classifier to the cache |
| ServiceWorker.NavigationIgnoresRequestedUrl | service-worker.js:49-54 | two navigations are handled identically whatever URL, method or origin they carry |
| ServiceWorker.NetworkOnlyIgnoresStore | service-worker.js:74 | a request the code classifies network-only (not navigate, href not in the list, another origin) is handled identically whatever the store holds |
| ServiceWorker.ServedResponsesAreNotInvented | service-worker.js:51-65 | every served response is a network response or an entry of some generation |
| ServiceWorker.Install | service-worker.js:15-26 | the store becomes `Installed(old, CACHE_NAME, ASSETS_TO_CACHE, net)`; skip-waiting is reached iff `addAll` succeeds |
| ServiceWorker.InstallSucceedsIffAssetsServed | service-worker.js:22 | the install's `addAll` succeeds iff the network serves every asset with a storable response |
| ServiceWorker.StaleHolds | service-worker.js:34-38 | the names the sweep deletes are the visited names other than the current one, and never the current one |
| ServiceWorker.SweptFiltersStale | service-worker.js:32-40 | deleting the listed names one by one, skipping the current one, equals deleting the set of stale names |
| ServiceWorker.SweepIsRetain | service-worker.js:32-40 | sweeping over the store's own names leaves exactly the generations named current |
| ServiceWorker.Activate | service-worker.js:28-43 | the store becomes the old store filtered to the generations named `CACHE_NAME`; names stay distinct; clients are claimed |
| ServiceWorker.InstallThenActivateHoldsAssets | service-worker.js:15-43 | after a successful install and activation, the store is the single generation `CACHE_NAME`, holding every asset with its fetched response |
| ServiceWorker.OfflineNavigationFrom | service-worker.js:49-54 | over the one generation holding the assets, with the network down, a navigation serves the stored canonical page |
| ServiceWorker.OfflineAssetFrom | service-worker.js:60-65 | over the one generation holding the assets, with the network down, a same-origin GET for an asset under its browser URL serves its stored response |
| ServiceWorker.OfflineCrossOriginAssetFails | service-worker.js:60-74 | with the network down, a cross-origin request for an asset under its browser URL is classified network-only and fails, whatever the store holds |
| ServiceWorker.OfflineAssetFromIntended | service-worker.js:60-65 | with the intended classifier, over the one generation holding the assets, an asset GET from any origin serves its stored response offline |
| ServiceWorker.OfflineAfterInstallAndActivate | service-worker.js:45-75 | offline after install and activation: every navigation serves the cached canonical page; every same-origin asset GET serves its cached response; a cross-origin asset request, like every other network-only request, fails with nothing substituted |
| ServiceWorker.OfflineAfterInstallAndActivateIntended | service-worker.js:45-75 | with the intended classifier, offline after install and activation, every asset GET from any origin serves its cached response |
| ServiceWorker.InstallOverPreviousGeneration | service-worker.js:15-43 | installing and activating v2 over a store of v1 only leaves the one generation v2, holding what its install stored |
| ServiceWorker.UpgradeLeavesOnlyNewGeneration | service-worker.js:15-43 | after v1 then v2 are installed and activated, only v2 remains, and a lookup hits iff v2's install stored the URL |
| TunnelLog.MatchEndsBeforeNonWord | update_link.py:71 | a match ends with 'm', and the character after it, if any, is not a letter, digit or underscore |
| TunnelLog.SchemeLength | update_link.py:71 | `https?://` is matched as 8 characters iff "https://" starts there, as 7 only on "http://", and 0 iff neither starts there |
| TunnelLog.LabelEndIsMaximalRun | update_link.py:71 | `[A-Za-z0-9\-]+` is taken greedily: the run is all label characters and is followed by a non-label character or the end |
| TunnelLog.MatchAtSound | update_link.py:71 | every match the matcher reports satisfies the reference definition (scheme, non-empty label, `.trycloudflare.com`, `\b`) |
| TunnelLog.MatchAtComplete | update_link.py:71 | every span satisfying the reference definition is the one the matcher reports at its start |
| TunnelLog.SearchFrom | update_link.py:76 | any span found lies within the line after the starting point |
| TunnelLog.SearchFromFound | update_link.py:76 | where the search stops, the matcher succeeds |
| TunnelLog.SearchFromSkipsNothing | update_link.py:76 | no position the search passes over starts a match |
| TunnelLog.SearchFindsLeftmostMatch | update_link.py:76-78 | the search misses iff the line has no match; otherwise it returns a match and no match starts further left |
| TunnelLog.FindUrlIsLeftmostMatch | update_link.py:76-78 | `m.group(0)` is None iff no match; otherwise it is a tunnel URL, a contiguous substring of the line, and the leftmost match |
| TunnelLog.LastTunnelUrlIsLastMatch | update_link.py:72-80 | None iff no line matches; otherwise it is the URL of a line after which no line matches |
| TunnelLog.ExtractTunnelUrl | update_link.py:67-80 | None when the log file is absent; otherwise the URL of the last matching line, by a loop from the end that stops at the first hit |
| UpdateLink.LoadLocalManifest | update_link.py:115-119 | an absent file reads as the empty object; a file `json.load` rejects raises; otherwise the parsed value, whatever its type |
| UpdateLink.WithAppUrl | update_link.py:143 | the keys become the old keys plus `app_url`, which maps to the URL; every other key keeps its value |
| UpdateLink.WithAppUrlIdempotent | update_link.py:143 | setting the same URL twice equals setting it once |
| UpdateLink.WithAppUrlLastWins | update_link.py:143 | a second run's URL replaces the first; other members stay as they were |
| UpdateLink.ScannedUrlIsTunnelUrl | update_link.py:71-80 | the URL the scan returns has the tunnel URL shape, so it is never empty |
| UpdateLink.Run | update_link.py:126-148 | see the list below the table |

Some functions only compute, and the lemmas about them state what they mean:

- `TunnelLog.MatchAt`: `MatchAtSound` and `MatchAtComplete`;
- `TunnelLog.FindUrl`: `FindUrlIsLeftmostMatch`;
- `TunnelLog.LastTunnelUrl`: `LastTunnelUrlIsLastMatch`;
- `ServiceWorker.Stale` and `ServiceWorker.Swept`: `StaleHolds`, `SweptFiltersStale` and `SweepIsRetain`;
- `CacheStore.FilterOut`: `FilterOutMembers` and `LookupAfterDelete`.

`ServiceWorker.HandleFetch` states, by strategy:

- **Navigation:**
  - only the canonical URL goes to the network;
  - if that fetch succeeds, its response is served and the cache is not read;
  - if it fails, exactly the canonical URL is looked up, and a response is served iff that lookup hits.
- **CacheFirst:**
  - exactly the request's URL is looked up;
  - a hit is served with no network fetch;
  - a miss fetches exactly that URL and passes the result, or the failure, through.
- **NetworkOnly:** no cache read, one fetch of the URL, and its result passed through.

`UpdateLink.Run` states:

- It exits with status 1 iff the log is absent or holds no match.
- It raises iff the manifest cannot be parsed or is not a JSON object.
- Otherwise it publishes:
  - the loaded manifest with `app_url` set to the tunnel URL of the last matching line;
  - a commit message of "Atualiza app_url para " followed by that URL.
- An absent manifest publishes exactly `{app_url: url}`.
- When the log holds a match and the manifest loads as a JSON object, it always publishes.

## Left out

- The GitHub REST calls `get_file_sha` and `update_file_on_github` (update_link.py:82-113) are network I/O. `Run` ends at the manifest and message it would publish.
- Token reading, prompting and saving, and the file permissions (update_link.py:43-65, 128-130) are interactive and filesystem I/O, and happen before the log is read.
- Reading the log as UTF-8 with undecodable bytes dropped (update_link.py:73): the log is given as its lines.
- JSON parsing and printing and base64 (update_link.py:99, 118-123, 147):
  - a file is given as absent, unparsable or a parsed value;
  - JSON numbers are integers;
  - the key order of a JSON object is not kept.
- `console.log` and `print` output.
- The promise plumbing (`event.waitUntil`, `event.respondWith`, `Promise.all`) is left out: the handlers run sequentially.
  - The deletions of the activate sweep run in list order.
  - `self.skipWaiting()` and `self.clients.claim()` are the booleans the handlers return.
- Real fetches: the network is an oracle map, one per event, keyed by serialised URL only.
  - Request headers, `Vary`, redirects and opaque responses are not modelled.
  - The `ignoreSearch`-style options and fragments of `caches.match` are not modelled.
- URL parsing: only the lower-casing of scheme and host is modelled. A request carries its serialised href and its origin as given fields, and `location.origin` is a parameter.
- `\b` uses ASCII word characters; Python's `re` on `str` also counts other Unicode letters and digits as word characters.
- There is no API-prefix rule and no write-back on a cache miss, because the code has neither.

## Findings

| source | as written | input that shows it | evidently intended | confidence | as-written member | corrected member |
|---|---|---|---|---|---|---|
| service-worker.js:60 | the asset-list test compares the request's serialised href with the list entries. Every entry spells the host `cleytonLuis`, and serialisation lower-cases the host, so the test never succeeds and only the same-origin test decides | with the worker served from a trycloudflare origin, a non-navigation GET for `https://cleytonluis.github.io/sistema-vendas-pwa/styles.css` (origin `https://cleytonluis.github.io`) is classified NetworkOnly and is never answered from the precache | precached assets are answered cache-first from any origin | high (not executed) | ServiceWorker.AssetBranchNeverMatches | ServiceWorker.PrecachedAssetsAreCacheFirst |
