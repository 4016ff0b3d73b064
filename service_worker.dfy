/** The offline service worker: a cache storage (cache name -> (URL -> response))
    driven by the install, activate, fetch and message events. */
module ServiceWorker {
  import opened Wrappers
  import opened ModelLoading

  /** The versioned name of the precache. */
  const CacheName: string := "ar-demo-v1"
  /** The versioned name of the cache filled while the page runs. */
  const RuntimeCache: string := "ar-demo-runtime-v1"
  /** The page served when a navigation finds no network. */
  const IndexPage: string := "./index.html"

  /** The assets fetched and stored when the worker installs. */
  const Precache: seq<string> := [
    "./index.html",
    "./app.js",
    "./models/pagoda.glb",
    "./models/Pagoda.usdz",
    "../models/mobilenetv2.onnx",
    "../models/labels.json",
    "../lib/ort/ort.min.js",
    "../lib/ort/ort.min.mjs",
    "../lib/ort/ort-wasm-simd.wasm",
    "../lib/ort/ort-wasm-simd.mjs",
    "../lib/ort/ort-wasm-simd.jsep.wasm",
    "../lib/ort/ort-wasm-simd.jsep.mjs",
    "../lib/ort/ort-wasm.wasm",
    "../vendor/model-viewer/model-viewer.min.js",
    "../network-icon.png",
    "../assets/sample.jpg"
  ]

  /** A cache's name belongs to the current version of the worker. */
  predicate IsCurrent(name: string) {
    name == CacheName || name == RuntimeCache
  }

  /** One cache: responses by request URL. */
  type Entries = map<string, Response>

  /** The parts of a request the worker looks at; `accept` is absent when the
      request has no `accept` header. */
  datatype Request = Request(url: string, origin: string, httpMethod: string, accept: Option<string>)

  /** What the fetch handler does with a request. */
  datatype FetchOutcome =
    | NotIntercepted                  // left to the browser
    | FromCache(cached: Response)     // answered from storage, no network request
    | FromNetwork(fetched: Response)  // answered by the network
    | Fallback(page: Option<Response>) // offline: the cached index page, if any
    | Failed                          // the error is passed on

  predicate Distinct(s: seq<string>) {
    forall i, j :: 0 <= i < j < |s| ==> s[i] != s[j]
  }

  /** `caches.match(url)`: the response stored under `url` in the first cache, in
      creation order, that has one. */
  function MatchIn(names: seq<string>, store: map<string, Entries>, url: string): (r: Option<Response>)
    ensures r.Some? <==> exists n :: n in names && n in store && url in store[n]
    ensures r.Some? ==> exists i :: 0 <= i < |names| && names[i] in store && url in store[names[i]]
                                    && r.value == store[names[i]][url]
                                    && forall j :: 0 <= j < i ==> names[j] !in store || url !in store[names[j]]
  {
    if names == [] then None
    else if names[0] in store && url in store[names[0]] then Some(store[names[0]][url])
    else
      var r := MatchIn(names[1..], store, url);
      if r.Some? then
        var i :| 0 <= i < |names[1..]| && names[1..][i] in store && url in store[names[1..][i]]
                 && r.value == store[names[1..][i]][url]
                 && forall j :: 0 <= j < i ==> names[1..][j] !in store || url !in store[names[1..][j]];
        assert names[i + 1] == names[1..][i];
        assert forall j :: 1 <= j < i + 1 ==> names[j] == names[1..][j - 1];
        r
      else r
  }

  /** `caches.match(request)`: only a GET request can be found in the cache. */
  function RequestMatch(names: seq<string>, store: map<string, Entries>, req: Request): (r: Option<Response>)
    ensures req.httpMethod != "GET" ==> r.None?
    ensures req.httpMethod == "GET" ==> r == MatchIn(names, store, req.url)
  {
    if req.httpMethod == "GET" then MatchIn(names, store, req.url) else None
  }

  predicate StartsWith(s: string, prefix: string) {
    |prefix| <= |s| && s[..|prefix|] == prefix
  }

  /** `haystack.includes(needle)`. */
  predicate Contains(haystack: string, needle: string) {
    exists i :: 0 <= i <= |haystack| && StartsWith(haystack[i..], needle)
  }

  /** `request.headers.get('accept').includes('text/html')` evaluates to true; a
      missing header makes the call throw, which counts as not accepting HTML. */
  predicate AcceptsHtml(accept: Option<string>) {
    accept.Some? && Contains(accept.value, "text/html")
  }

  /** An `Accept` header that lists `text/html` anywhere asks for HTML; a missing
      header, or one too short to hold `text/html`, does not. */
  lemma AcceptsHtmlListed(before: string, after: string)
    ensures AcceptsHtml(Some(before + "text/html" + after))
    ensures !AcceptsHtml(None)
    ensures |before| < |"text/html"| ==> !AcceptsHtml(Some(before))
  {
    var h := before + "text/html" + after;
    assert h[|before|..][..|"text/html"|] == "text/html";
    assert StartsWith(h[|before|..], "text/html");
  }

  /** `cache.addAll(PRECACHE_ASSETS)` succeeds: every asset is fetched with an ok
      status, and none is a partial (206) response, which `addAll` rejects. */
  predicate AllFetched(network: map<string, Response>) {
    forall u :: u in Precache ==> u in network && IsOk(network[u].status) && network[u].status != 206
  }

  /** The responses `cache.addAll` stores, by URL. */
  function Fetched(network: map<string, Response>): (batch: Entries)
    ensures forall u :: u in batch <==> u in Precache && u in network
    ensures forall u :: u in batch ==> batch[u] == network[u]
  {
    map u | u in Precache && u in network :: network[u]
  }

  /** The contents of a cache, empty when `caches.open` would create it. */
  function Existing(store: map<string, Entries>, name: string): (r: Entries)
    ensures name !in store ==> r == map[]
    ensures name in store ==> r == store[name]
  {
    if name in store then store[name] else map[]
  }

  /** A complete precache holds the offline page. */
  lemma IndexPrecached(network: map<string, Response>)
    requires AllFetched(network)
    ensures IndexPage in Fetched(network)
  {
    assert Precache[0] == IndexPage;
  }

  /** The names `activate` leaves in place, in their order. */
  function Survivors(names: seq<string>): (r: seq<string>)
    ensures forall n :: n in r <==> n in names && IsCurrent(n)
    ensures |r| <= |names|
  {
    if names == [] then []
    else (if IsCurrent(names[0]) then [names[0]] else []) + Survivors(names[1..])
  }

  /** `names` after `caches.delete(n)`. */
  function Without(s: seq<string>, n: string): (r: seq<string>)
    ensures forall m :: m in r <==> m in s && m != n
    ensures |r| <= |s|
  {
    if s == [] then []
    else (if s[0] == n then [] else [s[0]]) + Without(s[1..], n)
  }

  /** Activating a second time deletes nothing more. */
  lemma {:induction false} SurvivorsIdempotent(names: seq<string>)
    ensures Survivors(Survivors(names)) == Survivors(names)
  {
    if names != [] {
      SurvivorsIdempotent(names[1..]);
      if IsCurrent(names[0]) {
        assert ([names[0]] + Survivors(names[1..]))[1..] == Survivors(names[1..]);
      } else {
        assert [] + Survivors(names[1..]) == Survivors(names[1..]);
      }
    }
  }

  lemma {:induction false} SurvivorsSnoc(names: seq<string>, n: string)
    ensures Survivors(names + [n]) == Survivors(names) + (if IsCurrent(n) then [n] else [])
  {
    if names == [] {
      assert [] + [n] == [n];
    } else {
      assert (names + [n])[1..] == names[1..] + [n];
      SurvivorsSnoc(names[1..], n);
    }
  }

  lemma {:induction false} WithoutAbsent(s: seq<string>, n: string)
    requires n !in s
    ensures Without(s, n) == s
  {
    if s != [] {
      WithoutAbsent(s[1..], n);
    }
  }

  lemma {:induction false} WithoutAppend(a: seq<string>, b: seq<string>, n: string)
    ensures Without(a + b, n) == Without(a, n) + Without(b, n)
  {
    if a == [] {
      assert a + b == b;
    } else {
      assert (a + b)[1..] == a[1..] + b;
      WithoutAppend(a[1..], b, n);
    }
  }

  /** Deleting the first of distinct names leaves the others. */
  lemma WithoutHead(s: seq<string>)
    requires s != [] && Distinct(s)
    ensures Without(s, s[0]) == s[1..]
  {
    assert s[0] !in s[1..];
    WithoutAbsent(s[1..], s[0]);
  }

  /** A sequence without a name keeps its other names distinct. */
  lemma {:induction false} WithoutDistinct(s: seq<string>, n: string)
    requires Distinct(s)
    ensures Distinct(Without(s, n))
  {
    if s != [] {
      assert Distinct(s[1..]);
      WithoutDistinct(s[1..], n);
      assert s[0] !in s[1..];
    }
  }

  /** One step of the activation loop: deleting the `i`-th old name when it is
      not current. */
  lemma ActivateStep(snapshot: seq<string>, i: nat)
    requires i < |snapshot| && Distinct(snapshot) && !IsCurrent(snapshot[i])
    ensures Without(Survivors(snapshot[..i]) + snapshot[i..], snapshot[i])
            == Survivors(snapshot[..i + 1]) + snapshot[i + 1..]
  {
    var n := snapshot[i];
    WithoutAppend(Survivors(snapshot[..i]), snapshot[i..], n);
    assert n !in snapshot[..i];
    WithoutAbsent(Survivors(snapshot[..i]), n);
    WithoutHead(snapshot[i..]);
    assert snapshot[..i + 1] == snapshot[..i] + [n];
    SurvivorsSnoc(snapshot[..i], n);
  }

  /** One step of the activation loop: keeping the `i`-th old name when it is
      current. */
  lemma KeepStep(snapshot: seq<string>, i: nat)
    requires i < |snapshot| && IsCurrent(snapshot[i])
    ensures Survivors(snapshot[..i]) + snapshot[i..] == Survivors(snapshot[..i + 1]) + snapshot[i + 1..]
  {
    assert snapshot[..i + 1] == snapshot[..i] + [snapshot[i]];
    SurvivorsSnoc(snapshot[..i], snapshot[i]);
    assert snapshot[i..] == [snapshot[i]] + snapshot[i + 1..];
  }

  /** A response stored in the runtime cache after a miss is what the next
      request for the same URL finds. */
  lemma {:induction false} HitAfterPut(names: seq<string>, store: map<string, Entries>, url: string, resp: Response)
    requires RuntimeCache in names && RuntimeCache in store
    requires MatchIn(names, store, url).None?
    ensures MatchIn(names, store[RuntimeCache := store[RuntimeCache][url := resp]], url) == Some(resp)
  {
    if names[0] != RuntimeCache {
      HitAfterPut(names[1..], store, url, resp);
    }
  }

  /** The browser's cache storage as the worker sees it, with the lifecycle calls
      the worker makes. */
  class CacheStorage {
    /** `caches.keys()`: cache names in creation order. */
    var names: seq<string>
    /** The contents of each cache. */
    var store: map<string, Entries>
    /** `self.skipWaiting()` was called. */
    var skippedWaiting: bool
    /** `self.clients.claim()` was called. */
    var claimedClients: bool
    /** `location.origin` of the worker. */
    const origin: string

    ghost predicate Valid()
      reads this
    {
      Distinct(names) && forall n :: n in names <==> n in store
    }

    constructor (origin: string)
      ensures Valid()
      ensures names == [] && store == map[] && !skippedWaiting && !claimedClients
      ensures this.origin == origin
    {
      names := [];
      store := map[];
      skippedWaiting := false;
      claimedClients := false;
      this.origin := origin;
    }

    /** `caches.open(name)`: creates the cache when it does not exist. */
    method Open(name: string)
      requires Valid()
      modifies this`names, this`store
      ensures Valid()
      ensures name in old(store) ==> names == old(names) && store == old(store)
      ensures name !in old(store) ==> names == old(names) + [name] && store == old(store)[name := map[]]
    {
      if name !in store {
        names := names + [name];
        store := store[name := map[]];
      }
    }

    /** `caches.delete(name)`. */
    method Delete(name: string) returns (deleted: bool)
      requires Valid()
      modifies this`names, this`store
      ensures Valid()
      ensures deleted <==> name in old(store)
      ensures names == Without(old(names), name)
      ensures store == old(store) - {name}
    {
      deleted := name in store;
      WithoutDistinct(names, name);
      names := Without(names, name);
      store := store - {name};
    }

    /** `cache.put(url, resp)` on an opened cache. */
    method Put(name: string, url: string, resp: Response)
      requires Valid() && name in store
      modifies this`store
      ensures Valid()
      ensures store == old(store)[name := old(store)[name][url := resp]]
    {
      store := store[name := store[name][url := resp]];
    }

    /** `cache.addAll` once every response has arrived: the batch is stored in one step. */
    method AddAll(name: string, batch: Entries)
      requires Valid() && name in store
      modifies this`store
      ensures Valid()
      ensures store == old(store)[name := old(store)[name] + batch]
    {
      store := store[name := store[name] + batch];
    }

    /** The install event: the precache is opened and filled all or nothing from
        `network` (a URL missing from it failed to load), and the worker skips
        waiting whether or not that worked. */
    method Install(network: map<string, Response>) returns (precached: bool)
      requires Valid()
      modifies this`names, this`store, this`skippedWaiting
      ensures Valid()
      ensures precached <==> AllFetched(network)
      ensures skippedWaiting
      ensures CacheName in old(store) ==> names == old(names)
      ensures CacheName !in old(store) ==> names == old(names) + [CacheName]
      ensures precached ==> store == old(store)[CacheName := Existing(old(store), CacheName) + Fetched(network)]
      ensures !precached ==> store == old(store)[CacheName := Existing(old(store), CacheName)]
      ensures precached ==> IndexPage in store[CacheName]
    {
      Open(CacheName);
      ghost var afterOpen := store;
      assert afterOpen == old(store)[CacheName := Existing(old(store), CacheName)];
      precached := AllFetched(network);
      if precached {
        IndexPrecached(network);
        AddAll(CacheName, Fetched(network));
        assert store == afterOpen[CacheName := Existing(old(store), CacheName) + Fetched(network)];
      }
      skippedWaiting := true;
    }

    /** The activate event: every cache of an older version is deleted, then the
        worker claims its clients. */
    method Activate()
      requires Valid()
      modifies this`names, this`store, this`claimedClients
      ensures Valid()
      ensures names == Survivors(old(names))
      ensures forall n :: n in store <==> n in old(store) && IsCurrent(n)
      ensures forall n :: n in store ==> store[n] == old(store)[n]
      ensures claimedClients
    {
      var snapshot := names;
      ghost var original := store;
      var i := 0;
      while i < |snapshot|
        invariant 0 <= i <= |snapshot|
        invariant Valid() && Distinct(snapshot)
        invariant names == Survivors(snapshot[..i]) + snapshot[i..]
        invariant forall n :: n in store ==> n in original && store[n] == original[n]
      {
        DeleteIfOld(snapshot, i, original);
        i := i + 1;
      }
      assert snapshot[..i] == snapshot;
      claimedClients := true;
    }

    /** The callback of the activation loop for the `i`-th name of `snapshot`:
        the name is deleted unless it is current. */
    method DeleteIfOld(snapshot: seq<string>, i: nat, ghost original: map<string, Entries>)
      requires Valid() && Distinct(snapshot) && i < |snapshot|
      requires names == Survivors(snapshot[..i]) + snapshot[i..]
      requires forall n :: n in store ==> n in original && store[n] == original[n]
      modifies this`names, this`store
      ensures Valid()
      ensures names == Survivors(snapshot[..i + 1]) + snapshot[i + 1..]
      ensures forall n :: n in store ==> n in original && store[n] == original[n]
    {
      var name := snapshot[i];
      if !IsCurrent(name) {
        ActivateStep(snapshot, i);
        var _ := Delete(name);
      } else {
        KeepStep(snapshot, i);
      }
    }

    /** The fetch event with `network` the outcome of `fetch(request)` (`None` when
        it fails). Same-origin requests are answered from the cache first; a
        network response with status 200 is stored in the runtime cache. */
    method Fetch(req: Request, network: Option<Response>) returns (out: FetchOutcome)
      requires Valid()
      modifies this`names, this`store
      ensures Valid()
      ensures req.origin != origin ==> out == NotIntercepted && names == old(names) && store == old(store)
      ensures req.origin == origin && RequestMatch(old(names), old(store), req).Some? ==>
                out == FromCache(RequestMatch(old(names), old(store), req).value)
                && names == old(names) && store == old(store)
      ensures req.origin == origin && RequestMatch(old(names), old(store), req).None? && network.Some? ==>
                out == FromNetwork(network.value)
      ensures req.origin == origin && RequestMatch(old(names), old(store), req).None? && network.Some?
              && network.value.status == 200 ==>
                (RuntimeCache in old(store) ==> names == old(names))
                && (RuntimeCache !in old(store) ==> names == old(names) + [RuntimeCache])
                && store == old(store)[RuntimeCache := if req.httpMethod == "GET"
                                                     then Existing(old(store), RuntimeCache)[req.url := network.value]
                                                     else Existing(old(store), RuntimeCache)]
      ensures req.origin == origin && RequestMatch(old(names), old(store), req).None? && network.Some?
              && network.value.status != 200 ==>
                names == old(names) && store == old(store)
      ensures req.origin == origin && RequestMatch(old(names), old(store), req).None? && network.None? ==>
                names == old(names) && store == old(store)
                && out == (if AcceptsHtml(req.accept) then Fallback(MatchIn(names, store, IndexPage)) else Failed)
    {
      if req.origin != origin {
        return NotIntercepted;
      }
      var cached := RequestMatch(names, store, req);
      if cached.Some? {
        return FromCache(cached.value);
      }
      match network
      case Some(resp) =>
        if resp.status == 200 {
          Open(RuntimeCache);
          if req.httpMethod == "GET" {
            Put(RuntimeCache, req.url, resp);
          }
        }
        out := FromNetwork(resp);
      case None =>
        if AcceptsHtml(req.accept) {
          out := Fallback(MatchIn(names, store, IndexPage));
        } else {
          out := Failed;
        }
    }

    /** `caches.keys()` then `caches.delete` of each name. */
    method ClearAll()
      requires Valid()
      modifies this`names, this`store
      ensures Valid()
      ensures names == [] && store == map[]
    {
      var snapshot := names;
      var i := 0;
      while i < |snapshot|
        invariant 0 <= i <= |snapshot|
        invariant Valid() && Distinct(snapshot)
        invariant names == snapshot[i..]
      {
        WithoutHead(snapshot[i..]);
        var _ := Delete(snapshot[i]);
        assert snapshot[i..][1..] == snapshot[i + 1..];
        i := i + 1;
      }
      assert store.Keys == {};
    }

    /** The message event; `msgType` is the `type` of the message data, absent
        when the data or its `type` is missing. */
    method Message(msgType: Option<string>)
      requires Valid()
      modifies this`names, this`store, this`skippedWaiting
      ensures Valid()
      ensures msgType == Some("SKIP_WAITING") ==>
                skippedWaiting && names == old(names) && store == old(store)
      ensures msgType == Some("CLEAR_CACHE") ==>
                names == [] && store == map[] && skippedWaiting == old(skippedWaiting)
      ensures msgType != Some("SKIP_WAITING") && msgType != Some("CLEAR_CACHE") ==>
                names == old(names) && store == old(store) && skippedWaiting == old(skippedWaiting)
    {
      if msgType == Some("SKIP_WAITING") {
        skippedWaiting := true;
      }
      if msgType == Some("CLEAR_CACHE") {
        ClearAll();
      }
    }
  }
}
