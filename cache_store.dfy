/**
 * The origin's CacheStorage as the service worker sees it (sections 5.4 and 5.5
 * of W3C Service Workers): an ordered list of named cache generations, each a
 * map from serialised request URL to stored response. The order is creation
 * order, which is the order `caches.match` searches in.
 */
module CacheStore {
  import opened Wrappers
  import opened Urls

  /** An HTTP response, reduced to what the model distinguishes. */
  datatype Response = Response(status: int, body: string)

  /** The network as an oracle for one event: a URL it does not map is a
      transport failure (the fetch promise rejects); any status resolves. */
  type Network = map<Url, Response>

  datatype FetchResult = Ok(resp: Response) | Fail

  /** `fetch(url)`: requests go out under their serialised URL. */
  function Fetch(net: Network, url: Url): (r: FetchResult)
    ensures r.Ok? <==> SerializeUrl(url) in net
    ensures r.Ok? ==> r.resp == net[SerializeUrl(url)]
  {
    var key := SerializeUrl(url);
    if key in net then Ok(net[key]) else Fail
  }

  datatype Generation = Generation(name: string, entries: map<Url, Response>)

  function NamesOf(gens: seq<Generation>): (names: seq<string>)
    ensures |names| == |gens|
    ensures forall i :: 0 <= i < |gens| ==> names[i] == gens[i].name
  {
    if gens == [] then [] else [gens[0].name] + NamesOf(gens[1..])
  }

  /** The name-to-cache map never holds one name twice. */
  ghost predicate DistinctNames(gens: seq<Generation>)
  {
    forall i, j :: 0 <= i < j < |gens| ==> gens[i].name != gens[j].name
  }

  /** Index of the first generation, in creation order, that holds `key`. */
  function FirstHolding(gens: seq<Generation>, key: Url): (r: Option<nat>)
    ensures r.None? ==> forall i :: 0 <= i < |gens| ==> key !in gens[i].entries
    ensures r.Some? ==> r.value < |gens| && key in gens[r.value].entries
    ensures r.Some? ==> forall j :: 0 <= j < r.value ==> key !in gens[j].entries
  {
    if gens == [] then None
    else if key in gens[0].entries then Some(0)
    else match FirstHolding(gens[1..], key)
      case None => None
      case Some(i) => Some(i + 1)
  }

  /** `caches.match(request)`: a request other than GET matches nothing;
      otherwise the response stored under its URL in the first generation
      that has one. */
  function Lookup(gens: seq<Generation>, verb: string, url: Url): (r: Option<Response>)
    ensures r.None? <==> verb != "GET" || forall i :: 0 <= i < |gens| ==> SerializeUrl(url) !in gens[i].entries
    ensures r.Some? ==> exists i :: 0 <= i < |gens| && SerializeUrl(url) in gens[i].entries
                          && r.value == gens[i].entries[SerializeUrl(url)]
                          && forall j :: 0 <= j < i ==> SerializeUrl(url) !in gens[j].entries
  {
    if verb != "GET" then None
    else
      var key := SerializeUrl(url);
      match FirstHolding(gens, key)
      case None => None
      case Some(i) => Some(gens[i].entries[key])
  }

  /** Over a store of one generation, `caches.match` is a lookup in it. */
  lemma LookupSingle(g: Generation, verb: string, url: Url)
    ensures Lookup([g], verb, url).Some? <==> verb == "GET" && SerializeUrl(url) in g.entries
    ensures Lookup([g], verb, url).Some? ==> Lookup([g], verb, url).value == g.entries[SerializeUrl(url)]
  {
  }

  /** `caches.open(name)`: the named generation, created empty at the end of
      the order when it does not exist yet. */
  function Opened(gens: seq<Generation>, name: string): (r: seq<Generation>)
    ensures name in NamesOf(r)
    ensures |r| >= |gens| && r[..|gens|] == gens
    ensures name in NamesOf(gens) ==> r == gens
    ensures name !in NamesOf(gens) ==> r == gens + [Generation(name, map[])]
  {
    if name in NamesOf(gens) then gens
    else
      var r := gens + [Generation(name, map[])];
      assert NamesOf(r)[|gens|] == name;
      r
  }

  /** A response `cache.addAll` accepts: an ok status that is not 206. */
  predicate Storable(r: Response)
  {
    200 <= r.status <= 299 && r.status != 206
  }

  /** The fetch phase of `cache.addAll(urls)`: the entries to store, or None
      when some fetch rejects, some response is not storable, or two requests
      share a URL. */
  function FetchAll(urls: seq<Url>, net: Network): (r: Option<map<Url, Response>>)
    ensures r.Some? ==> r.value.Keys == set u | u in urls :: SerializeUrl(u)
    ensures r.Some? ==> forall i :: 0 <= i < |urls| ==>
              SerializeUrl(urls[i]) in net && r.value[SerializeUrl(urls[i])] == net[SerializeUrl(urls[i])]
    ensures (exists i :: 0 <= i < |urls| && !(Fetch(net, urls[i]).Ok? && Storable(Fetch(net, urls[i]).resp))) ==> r.None?
  {
    if urls == [] then Some(map[])
    else
      var key := SerializeUrl(urls[0]);
      var fetched := Fetch(net, urls[0]);
      if !(fetched.Ok? && Storable(fetched.resp)) then None
      else match FetchAll(urls[1..], net)
        case None => None
        case Some(m) =>
          assert forall u :: u in urls <==> u == urls[0] || u in urls[1..];
          if key in m then None else Some(m[key := fetched.resp])
  }

  /** `cache.addAll` rejects a list in which two requests share a serialised URL. */
  lemma {:induction false} FetchAllRejectsDuplicates(urls: seq<Url>, net: Network, i: nat, j: nat)
    requires i < j < |urls| && SerializeUrl(urls[i]) == SerializeUrl(urls[j])
    ensures FetchAll(urls, net).None?
  {
    var tail := urls[1..];
    if i == 0 {
      var rest := FetchAll(tail, net);
      if rest.Some? {
        assert tail[j - 1] == urls[j];
        assert SerializeUrl(urls[0]) in rest.value.Keys;
      }
    } else {
      assert tail[i - 1] == urls[i] && tail[j - 1] == urls[j];
      FetchAllRejectsDuplicates(tail, net, i - 1, j - 1);
    }
  }

  /** The fetch phase succeeds when every URL yields a storable response and
      no two requests share a serialised URL. */
  lemma {:induction false} FetchAllSucceeds(urls: seq<Url>, net: Network)
    requires forall i :: 0 <= i < |urls| ==> Fetch(net, urls[i]).Ok? && Storable(Fetch(net, urls[i]).resp)
    requires forall i, j :: 0 <= i < j < |urls| ==> SerializeUrl(urls[i]) != SerializeUrl(urls[j])
    ensures FetchAll(urls, net).Some?
  {
    if urls != [] {
      var tail := urls[1..];
      assert forall i :: 0 <= i < |tail| ==> tail[i] == urls[i + 1];
      FetchAllSucceeds(tail, net);
    }
  }

  /** The fetch phase of `cache.addAll` succeeds exactly when every URL yields
      a storable response and no two requests share a serialised URL. */
  lemma FetchAllSucceedsExactly(urls: seq<Url>, net: Network)
    ensures FetchAll(urls, net).Some? <==>
              (forall i :: 0 <= i < |urls| ==> Fetch(net, urls[i]).Ok? && Storable(Fetch(net, urls[i]).resp))
              && (forall i, j :: 0 <= i < j < |urls| ==> SerializeUrl(urls[i]) != SerializeUrl(urls[j]))
  {
    if !(forall i, j :: 0 <= i < j < |urls| ==> SerializeUrl(urls[i]) != SerializeUrl(urls[j])) {
      var i, j :| 0 <= i < j < |urls| && SerializeUrl(urls[i]) == SerializeUrl(urls[j]);
      FetchAllRejectsDuplicates(urls, net, i, j);
    } else if forall i :: 0 <= i < |urls| ==> Fetch(net, urls[i]).Ok? && Storable(Fetch(net, urls[i]).resp) {
      FetchAllSucceeds(urls, net);
    }
  }

  /** The put phase of `cache.addAll`: the named generation gains the entries,
      replacing what it held under the same URLs. */
  function PutAll(gens: seq<Generation>, name: string, m: map<Url, Response>): (r: seq<Generation>)
    ensures |r| == |gens| && NamesOf(r) == NamesOf(gens)
    ensures forall i :: 0 <= i < |gens| && gens[i].name != name ==> r[i] == gens[i]
    ensures forall i :: 0 <= i < |gens| && gens[i].name == name ==> r[i].entries == gens[i].entries + m
  {
    seq(|gens|, i requires 0 <= i < |gens| =>
      if gens[i].name == name then Generation(name, gens[i].entries + m) else gens[i])
  }

  /** The store after `caches.open(name).then(c => c.addAll(urls))`. The open
      happens whether or not the fetches succeed. */
  function Installed(gens: seq<Generation>, name: string, urls: seq<Url>, net: Network): (r: seq<Generation>)
    ensures NamesOf(r) == NamesOf(Opened(gens, name))
  {
    var store := Opened(gens, name);
    match FetchAll(urls, net)
    case None => store
    case Some(m) => PutAll(store, name, m)
  }

  /** The generations whose names are not in `dead`, in their order. */
  function FilterOut(gens: seq<Generation>, dead: set<string>): (r: seq<Generation>)
    ensures |r| <= |gens|
  {
    if gens == [] then []
    else (if gens[0].name in dead then [] else [gens[0]]) + FilterOut(gens[1..], dead)
  }

  /** Filtering keeps exactly the generations whose name is not dead. */
  lemma {:induction false} FilterOutMembers(gens: seq<Generation>, dead: set<string>)
    ensures forall g :: g in FilterOut(gens, dead) <==> g in gens && g.name !in dead
  {
    if gens != [] {
      FilterOutMembers(gens[1..], dead);
      assert gens == [gens[0]] + gens[1..];
    }
  }

  /** The generations named `keep`, in their order. */
  function Retain(gens: seq<Generation>, keep: string): (r: seq<Generation>)
    ensures forall g :: g in r <==> g in gens && g.name == keep
  {
    if gens == [] then []
    else (if gens[0].name == keep then [gens[0]] else []) + Retain(gens[1..], keep)
  }

  lemma {:induction false} DistinctTail(gens: seq<Generation>)
    requires DistinctNames(gens) && gens != []
    ensures DistinctNames(gens[1..])
    ensures forall g :: g in gens[1..] ==> g.name != gens[0].name
  {
    forall g | g in gens[1..] ensures g.name != gens[0].name {
      var j :| 0 <= j < |gens[1..]| && gens[1..][j] == g;
      assert gens[j + 1] == g;
    }
  }

  /** Deleting generations keeps the names distinct. */
  lemma {:induction false} FilterOutDistinct(gens: seq<Generation>, dead: set<string>)
    requires DistinctNames(gens)
    ensures DistinctNames(FilterOut(gens, dead))
  {
    if gens != [] {
      DistinctTail(gens);
      FilterOutDistinct(gens[1..], dead);
      var rest := FilterOut(gens[1..], dead);
      var r := FilterOut(gens, dead);
      if gens[0].name !in dead {
        FilterOutMembers(gens[1..], dead);
        assert r == [gens[0]] + rest;
        forall i, j | 0 <= i < j < |r| ensures r[i].name != r[j].name {
          if i == 0 {
            assert r[j] == rest[j - 1] && r[j] in rest;
          } else {
            assert r[i] == rest[i - 1] && r[j] == rest[j - 1];
          }
        }
      } else {
        assert r == rest;
      }
    }
  }

  /** Opening a generation keeps the names distinct. */
  lemma OpenedDistinct(gens: seq<Generation>, name: string)
    requires DistinctNames(gens)
    ensures DistinctNames(Opened(gens, name))
  {
    if name !in NamesOf(gens) {
      var r := Opened(gens, name);
      forall i, j | 0 <= i < j < |r| ensures r[i].name != r[j].name {
        if j == |gens| {
          assert NamesOf(gens)[i] == gens[i].name;
        }
      }
    }
  }

  lemma {:induction false} FilterOutNothing(gens: seq<Generation>)
    ensures FilterOut(gens, {}) == gens
  {
    if gens != [] {
      FilterOutNothing(gens[1..]);
      assert gens == [gens[0]] + gens[1..];
    }
  }

  lemma {:induction false} RetainNone(gens: seq<Generation>, keep: string)
    requires forall g :: g in gens ==> g.name != keep
    ensures Retain(gens, keep) == []
  {
    if gens != [] {
      assert gens[0] in gens;
      assert forall g :: g in gens[1..] ==> g in gens;
      RetainNone(gens[1..], keep);
    }
  }

  lemma {:induction false} RetainAppend(s: seq<Generation>, t: seq<Generation>, keep: string)
    ensures Retain(s + t, keep) == Retain(s, keep) + Retain(t, keep)
  {
    if s == [] {
      assert s + t == t;
    } else {
      var head := if s[0].name == keep then [s[0]] else [];
      assert (s + t)[0] == s[0] && (s + t)[1..] == s[1..] + t;
      RetainAppend(s[1..], t, keep);
      assert Retain(s + t, keep) == head + (Retain(s[1..], keep) + Retain(t, keep));
      assert head + (Retain(s[1..], keep) + Retain(t, keep)) == (head + Retain(s[1..], keep)) + Retain(t, keep);
    }
  }

  /** Installing a generation that does not exist yet appends it, holding
      exactly what the install stored. */
  lemma InstalledFresh(gens: seq<Generation>, name: string, urls: seq<Url>, net: Network)
    requires name !in NamesOf(gens)
    ensures Installed(gens, name, urls, net)
            == gens + [Generation(name, if FetchAll(urls, net).Some? then FetchAll(urls, net).value else map[])]
  {
    if FetchAll(urls, net).Some? {
      var m := FetchAll(urls, net).value;
      var store := gens + [Generation(name, map[])];
      var p := PutAll(store, name, m);
      assert map[] + m == m;
      forall i | 0 <= i < |gens| ensures p[i] == gens[i] {
        assert store[i] == gens[i] && NamesOf(gens)[i] == gens[i].name;
      }
      assert p == gens + [Generation(name, m)];
    }
  }

  /** Two deletion sweeps make one sweep over both sets of names. */
  lemma {:induction false} FilterOutTwice(gens: seq<Generation>, a: set<string>, b: set<string>)
    ensures FilterOut(FilterOut(gens, a), b) == FilterOut(gens, a + b)
  {
    if gens != [] {
      FilterOutTwice(gens[1..], a, b);
      var rest := FilterOut(gens[1..], a);
      if gens[0].name in a {
        assert FilterOut(gens, a) == rest;
        assert FilterOut(gens, a + b) == FilterOut(gens[1..], a + b);
      } else {
        var x := [gens[0]] + rest;
        assert FilterOut(gens, a) == x;
        assert x[0] == gens[0] && x[1..] == rest;
        assert FilterOut(x, b) == (if gens[0].name in b then [] else [gens[0]]) + FilterOut(rest, b);
      }
    }
  }

  /** Deleting every name that is not `keep` leaves exactly the generations named `keep`. */
  lemma {:induction false} FilterOutIsRetain(gens: seq<Generation>, dead: set<string>, keep: string)
    requires forall g :: g in gens ==> (g.name in dead <==> g.name != keep)
    ensures FilterOut(gens, dead) == Retain(gens, keep)
  {
    if gens != [] {
      assert gens[0] in gens;
      FilterOutIsRetain(gens[1..], dead, keep);
    }
  }

  lemma {:induction false} FirstHoldingAppend(gens: seq<Generation>, g: Generation, key: Url)
    requires key !in g.entries
    ensures FirstHolding(gens + [g], key) == FirstHolding(gens, key)
  {
    if gens == [] {
      assert ([g])[1..] == [];
    } else {
      assert (gens + [g])[1..] == gens[1..] + [g];
      FirstHoldingAppend(gens[1..], g, key);
    }
  }

  /** A generation storing nothing is invisible to `caches.match`. */
  lemma OpenedKeepsLookups(gens: seq<Generation>, name: string, verb: string, url: Url)
    ensures Lookup(Opened(gens, name), verb, url) == Lookup(gens, verb, url)
  {
    if name !in NamesOf(gens) {
      FirstHoldingAppend(gens, Generation(name, map[]), SerializeUrl(url));
    }
  }

  /** `caches.match` over a store whose first generation is `g`. */
  lemma LookupCons(g: Generation, rest: seq<Generation>, verb: string, url: Url)
    ensures Lookup([g] + rest, verb, url) ==
              if verb != "GET" then None
              else if SerializeUrl(url) in g.entries then Some(g.entries[SerializeUrl(url)])
              else Lookup(rest, verb, url)
  {
    assert ([g] + rest)[1..] == rest;
  }

  /** One step of `caches.match` over the survivors of a deletion. */
  lemma LookupFilterOutStep(gens: seq<Generation>, dead: set<string>, url: Url)
    requires gens != []
    ensures Lookup(FilterOut(gens, dead), "GET", url) ==
              if gens[0].name !in dead && SerializeUrl(url) in gens[0].entries then Some(gens[0].entries[SerializeUrl(url)])
              else Lookup(FilterOut(gens[1..], dead), "GET", url)
  {
    if gens[0].name in dead {
      assert FilterOut(gens, dead) == FilterOut(gens[1..], dead);
    } else {
      assert FilterOut(gens, dead) == [gens[0]] + FilterOut(gens[1..], dead);
      LookupCons(gens[0], FilterOut(gens[1..], dead), "GET", url);
    }
  }

  /** Index of the first generation, in creation order, whose name is not in
      `dead` and that holds `key`. */
  function FirstSurviving(gens: seq<Generation>, dead: set<string>, key: Url): (r: Option<nat>)
    ensures r.None? ==> forall i :: 0 <= i < |gens| && gens[i].name !in dead ==> key !in gens[i].entries
    ensures r.Some? ==> r.value < |gens| && gens[r.value].name !in dead && key in gens[r.value].entries
    ensures r.Some? ==> forall j :: 0 <= j < r.value && gens[j].name !in dead ==> key !in gens[j].entries
  {
    if gens == [] then None
    else if gens[0].name !in dead && key in gens[0].entries then Some(0)
    else match FirstSurviving(gens[1..], dead, key)
      case None => None
      case Some(i) => Some(i + 1)
  }

  /** After the generations named in `dead` are deleted, `caches.match`
      answers from the first surviving generation, in creation order, that
      holds the URL, and misses when no survivor holds it. */
  lemma {:induction false} LookupAfterDelete(gens: seq<Generation>, dead: set<string>, url: Url)
    ensures Lookup(FilterOut(gens, dead), "GET", url) ==
              match FirstSurviving(gens, dead, SerializeUrl(url))
              case None => None
              case Some(i) => Some(gens[i].entries[SerializeUrl(url)])
  {
    if gens != [] {
      LookupFilterOutStep(gens, dead, url);
      LookupAfterDelete(gens[1..], dead, url);
    }
  }

  /** `cache.addAll` is all-or-nothing: when any fetch fails, no response
      becomes visible and at most an empty generation is created. */
  lemma InstallFailureStoresNothing(gens: seq<Generation>, name: string, urls: seq<Url>, net: Network)
    requires FetchAll(urls, net).None?
    ensures NamesOf(Installed(gens, name, urls, net)) == NamesOf(Opened(gens, name))
    ensures forall verb, url :: Lookup(Installed(gens, name, urls, net), verb, url) == Lookup(gens, verb, url)
  {
    forall verb, url ensures Lookup(Installed(gens, name, urls, net), verb, url) == Lookup(gens, verb, url) {
      OpenedKeepsLookups(gens, name, verb, url);
    }
  }

  /** On success every URL is stored, under its serialised form, in the named
      generation with the response the network gave; the other generations
      keep their place and their contents. */
  lemma InstallSuccessStoresEveryUrl(gens: seq<Generation>, name: string, urls: seq<Url>, net: Network)
    requires FetchAll(urls, net).Some?
    ensures NamesOf(Installed(gens, name, urls, net)) == NamesOf(Opened(gens, name))
    ensures forall i :: 0 <= i < |gens| && gens[i].name != name ==> Installed(gens, name, urls, net)[i] == gens[i]
    ensures forall i, u :: 0 <= i < |Installed(gens, name, urls, net)| && Installed(gens, name, urls, net)[i].name == name && u in urls ==>
              SerializeUrl(u) in Installed(gens, name, urls, net)[i].entries
              && Installed(gens, name, urls, net)[i].entries[SerializeUrl(u)] == net[SerializeUrl(u)]
  {
    var store := Opened(gens, name);
    var m := FetchAll(urls, net).value;
    var r := PutAll(store, name, m);
    forall i, u | 0 <= i < |r| && r[i].name == name && u in urls
      ensures SerializeUrl(u) in r[i].entries && r[i].entries[SerializeUrl(u)] == net[SerializeUrl(u)]
    {
      var k :| 0 <= k < |urls| && urls[k] == u;
      assert SerializeUrl(u) in m.Keys;
    }
  }

  /** After activation only the current generation remains, whatever other
      generations existed, and it is the very generation that was there. */
  lemma RetainLeavesCurrentOnly(gens: seq<Generation>, keep: string)
    requires DistinctNames(gens)
    ensures keep in NamesOf(gens) ==> exists i :: 0 <= i < |gens| && gens[i].name == keep && Retain(gens, keep) == [gens[i]]
    ensures keep !in NamesOf(gens) ==> Retain(gens, keep) == []
  {
    RetainSingle(gens, keep);
  }

  lemma {:induction false} RetainSingle(gens: seq<Generation>, keep: string)
    requires DistinctNames(gens)
    ensures keep in NamesOf(gens) ==> exists i :: 0 <= i < |gens| && gens[i].name == keep && Retain(gens, keep) == [gens[i]]
    ensures keep !in NamesOf(gens) ==> Retain(gens, keep) == []
  {
    if gens != [] {
      DistinctTail(gens);
      RetainSingle(gens[1..], keep);
      assert NamesOf(gens) == [gens[0].name] + NamesOf(gens[1..]);
      if gens[0].name == keep {
        forall j | 0 <= j < |gens[1..]| ensures NamesOf(gens[1..])[j] != keep {
          assert gens[1..][j] in gens[1..];
        }
        assert keep !in NamesOf(gens[1..]);
        assert Retain(gens, keep) == [gens[0]];
      } else if keep in NamesOf(gens[1..]) {
        var i :| 0 <= i < |gens[1..]| && gens[1..][i].name == keep && Retain(gens[1..], keep) == [gens[1..][i]];
        assert gens[i + 1].name == keep && Retain(gens, keep) == [gens[i + 1]];
      }
    }
  }

  /** Activating twice is activating once. */
  lemma {:induction false} RetainIdempotent(gens: seq<Generation>, keep: string)
    ensures Retain(Retain(gens, keep), keep) == Retain(gens, keep)
  {
    if gens != [] {
      RetainIdempotent(gens[1..], keep);
      var rest := Retain(gens[1..], keep);
      if gens[0].name == keep {
        assert Retain(gens, keep) == [gens[0]] + rest;
        assert ([gens[0]] + rest)[0] == gens[0];
        assert ([gens[0]] + rest)[1..] == rest;
      } else {
        assert Retain(gens, keep) == rest;
      }
    }
  }

  /**
   * The cache storage of the worker's origin. Only the lifecycle handlers
   * write to it; the fetch handler reads `generations` as a snapshot.
   */
  class CacheStorage {
    var generations: seq<Generation>

    ghost predicate Valid()
      reads this
    {
      DistinctNames(generations)
    }

    constructor ()
      ensures Valid() && generations == []
    {
      generations := [];
    }

    /** `caches.open(name)` */
    method Open(name: string)
      requires Valid()
      modifies this
      ensures Valid()
      ensures generations == Opened(old(generations), name)
    {
      OpenedDistinct(generations, name);
      generations := Opened(generations, name);
    }

    /** `cache.addAll(urls)` on the generation `name`: nothing is stored
        unless every fetch succeeds with a storable response. */
    method AddAll(name: string, urls: seq<Url>, net: Network) returns (ok: bool)
      requires Valid()
      modifies this
      ensures Valid()
      ensures ok <==> FetchAll(urls, net).Some?
      ensures ok ==> generations == PutAll(old(generations), name, FetchAll(urls, net).value)
      ensures !ok ==> generations == old(generations)
    {
      var fetched := FetchAll(urls, net);
      ok := fetched.Some?;
      if ok {
        var r := PutAll(generations, name, fetched.value);
        assert forall i :: 0 <= i < |r| ==> r[i].name == NamesOf(r)[i] == NamesOf(generations)[i];
        generations := r;
      }
    }

    /** `caches.delete(name)`: resolves to whether the generation existed. */
    method Delete(name: string) returns (deleted: bool)
      requires Valid()
      modifies this
      ensures Valid()
      ensures deleted <==> exists i :: 0 <= i < |old(generations)| && old(generations)[i].name == name
      ensures generations == FilterOut(old(generations), {name})
    {
      deleted := name in NamesOf(generations);
      FilterOutDistinct(generations, {name});
      generations := FilterOut(generations, {name});
    }
  }
}
