/**
  The client's service worker: a CacheStorage of named caches (W3C Service
  Workers, section 5.5 "CacheStorage"), each a Cache of responses keyed by
  request URL (section 5.4 "Cache"), and the worker's three event handlers:
  install pre-caches the static assets, activate deletes caches outside the
  two current names, and fetch answers API requests network-first and
  everything else cache-first.

  The network is a parameter: each fetch is handed its outcome, and the
  requests given to the network are logged in `sent`.
 */
module ServiceWorker {
  import opened Js

  const StaticCache := "todo-static-v1"
  const ApiCache := "todo-api-v1"

  /** A cache name that activate keeps. */
  predicate Allowed(name: string) {
    name == StaticCache || name == ApiCache
  }

  /** A parsed URL; the fragment plays no part in cache matching and is left out. */
  datatype Url = Url(origin: string, pathname: string, search: string)

  datatype Method = GET | POST | OtherMethod(name: string)

  datatype Request = Request(verb: Method, url: Url)

  datatype Response = Response(status: int, body: string) {
    /** `response.ok`: a status in the range 200 to 299. */
    predicate Ok() {
      200 <= status <= 299
    }
  }

  /** What the network gives back for one request: a response of any status, or a network error. */
  datatype NetResult = Fetched(resp: Response) | NetworkError

  /** What the worker's `respondWith` promise settles to. */
  datatype Reply =
    | Served(resp: Response)  // resolves to this response
    | NoMatch                 // resolves to undefined: the page sees a network error
    | Failed                  // rejects

  /** The worker's script sits at the origin's root, so `./x` resolves to `/x`. */
  const AssetPaths := ["/", "/index.html", "/assets/index-cmbdYmzo.css", "/assets/index-B4rPrHc8.js"]

  function AssetRequests(origin: string): (r: seq<Request>)
    ensures |r| == |AssetPaths|
    ensures forall i :: 0 <= i < |r| ==> r[i] == Request(GET, Url(origin, AssetPaths[i], ""))
  {
    seq(|AssetPaths|, i requires 0 <= i < |AssetPaths| => Request(GET, Url(origin, AssetPaths[i], "")))
  }

  /** `url.pathname.startsWith('/api/')` */
  predicate IsApiCall(url: Url) {
    StartsWith(url.pathname, "/api/")
  }

  // ---------------------------------------------------------------------
  // Cache and CacheStorage on values

  type Entries = map<Url, Response>

  /** `cache.match(request)`: only a GET request can match. */
  function Match(entries: Entries, req: Request): (r: Option<Response>)
    ensures r.Some? <==> req.verb == GET && req.url in entries
    ensures r.Some? ==> r.value == entries[req.url]
  {
    if req.verb == GET && req.url in entries then Some(entries[req.url]) else None
  }

  /**
    `cache.put(request, response)`: the entry for the request's URL is
    replaced. Put rejects a request that is not GET, and the worker does not
    wait for it, so such a put leaves the cache as it was.
   */
  function Put(entries: Entries, req: Request, resp: Response): (r: Entries)
    ensures req.verb == GET ==> r == entries[req.url := resp]
    ensures req.verb != GET ==> r == entries
  {
    if req.verb == GET then entries[req.url := resp] else entries
  }

  /** `caches.match(request)`: the first cache, in creation order, that matches. */
  function MatchAll(names: seq<string>, caches: map<string, Entries>, req: Request): (r: Option<Response>)
    requires forall n :: n in names ==> n in caches
    ensures r.Some? ==> exists n :: n in names && Match(caches[n], req) == r
    ensures r.None? ==> forall n :: n in names ==> Match(caches[n], req).None?
  {
    if names == [] then None
    else match Match(caches[names[0]], req)
      case Some(resp) => Some(resp)
      case None => MatchAll(names[1..], caches, req)
  }

  /** `caches.match` answers from the first cache, in creation order, that matches; none before it does. */
  lemma {:induction false} MatchAllFirst(names: seq<string>, caches: map<string, Entries>, req: Request)
    requires forall n :: n in names ==> n in caches
    ensures var r := MatchAll(names, caches, req);
      r.Some? ==> exists i :: 0 <= i < |names| && Match(caches[names[i]], req) == r
                              && forall j :: 0 <= j < i ==> Match(caches[names[j]], req).None?
  {
    if names != [] && Match(caches[names[0]], req).None? {
      var rest := names[1..];
      MatchAllFirst(rest, caches, req);
      if MatchAll(rest, caches, req).Some? {
        var i :| 0 <= i < |rest| && Match(caches[rest[i]], req) == MatchAll(rest, caches, req)
                 && forall j :: 0 <= j < i ==> Match(caches[rest[j]], req).None?;
        assert names[i + 1] == rest[i];
        forall j | 0 <= j < i + 1 ensures Match(caches[names[j]], req).None? {
          if j > 0 {
            assert names[j] == rest[j - 1];
          }
        }
      }
    }
  }

  /** The names in creation order that activate keeps. */
  function Kept(names: seq<string>): (r: seq<string>)
    ensures forall n :: n in r <==> n in names && Allowed(n)
  {
    if names == [] then []
    else Kept(names[..|names| - 1]) + (if Allowed(names[|names| - 1]) then [names[|names| - 1]] else [])
  }

  predicate Distinct(names: seq<string>) {
    forall i, j :: 0 <= i < j < |names| ==> names[i] != names[j]
  }

  /** The names without one of them. */
  function Remove(names: seq<string>, name: string): (r: seq<string>)
    ensures forall n :: n in r <==> n in names && n != name
    ensures Distinct(names) ==> Distinct(r)
  {
    if names == [] then []
    else
      var init := Remove(names[..|names| - 1], name);
      var last := names[|names| - 1];
      assert Distinct(names) ==> last !in names[..|names| - 1];
      init + (if last != name then [last] else [])
  }

  lemma {:induction false} RemoveConcat(a: seq<string>, b: seq<string>, name: string)
    ensures Remove(a + b, name) == Remove(a, name) + Remove(b, name)
    decreases |b|
  {
    if b == [] {
      assert a + b == a;
    } else {
      assert (a + b)[..|a + b| - 1] == a + b[..|b| - 1];
      RemoveConcat(a, b[..|b| - 1], name);
    }
  }

  lemma {:induction false} RemoveAbsent(names: seq<string>, name: string)
    requires name !in names
    ensures Remove(names, name) == names
  {
    if names != [] {
      var init, last := names[..|names| - 1], names[|names| - 1];
      assert names == init + [last];
      assert last != name;
      RemoveAbsent(init, name);
    }
  }

  /**
    After a request missed every cache, storing its response in any one of
    them makes the store answer it with that response.
   */
  lemma {:induction false} MatchAfterPut(names: seq<string>, caches: map<string, Entries>, name: string, req: Request, resp: Response)
    requires forall n :: n in names ==> n in caches
    requires name in names && req.verb == GET
    requires MatchAll(names, caches, req).None?
    ensures MatchAll(names, caches[name := Put(caches[name], req, resp)], req) == Some(resp)
  {
    var caches' := caches[name := Put(caches[name], req, resp)];
    if names[0] != name {
      assert caches'[names[0]] == caches[names[0]];
      MatchAfterPut(names[1..], caches, name, req, resp);
    }
  }

  // ---------------------------------------------------------------------
  // The worker

  class Worker {
    /** Cache names in creation order, as `caches.keys()` lists them. */
    var names: seq<string>
    var caches: map<string, Entries>
    /** Every request handed to the network, in order. */
    var sent: seq<Request>

    ghost predicate Valid()
      reads this
    {
      Distinct(names) && (forall n :: n in names <==> n in caches)
    }

    /** An origin whose CacheStorage is empty. */
    constructor ()
      ensures Valid() && names == [] && caches == map[] && sent == []
    {
      names, caches, sent := [], map[], [];
    }

    /** `caches.open(name)`: the named cache, created empty at the end of the order if absent. */
    method Open(name: string)
      requires Valid()
      modifies this
      ensures Valid() && name in caches && sent == old(sent)
      ensures name in old(caches) ==> names == old(names) && caches == old(caches)
      ensures name !in old(caches) ==> names == old(names) + [name] && caches == old(caches)[name := map[]]
      ensures caches == old(caches)[name := OldEntries(old(caches), name)]
    {
      if name !in caches {
        names := names + [name];
        caches := caches[name := map[]];
      } else {
        assert caches == caches[name := caches[name]];
      }
    }

    /** Writes new entries into an open cache; the order of the caches does not change. */
    method Store(name: string, entries: Entries)
      requires Valid() && name in caches
      modifies this
      ensures Valid() && names == old(names) && sent == old(sent)
      ensures caches == old(caches)[name := entries]
    {
      caches := caches[name := entries];
    }

    /** `caches.delete(name)`: true when the cache existed. */
    method Delete(name: string) returns (found: bool)
      requires Valid()
      modifies this
      ensures Valid() && sent == old(sent)
      ensures found <==> name in old(caches)
      ensures names == Remove(old(names), name) && caches == old(caches) - {name}
    {
      found := name in caches;
      names := Remove(names, name);
      caches := caches - {name};
    }

    /**
      install: the static cache is opened, all asset requests go to the
      network, and `addAll` stores every response, or none of them when any
      fetch failed or answered a status that is not ok.
     */
    method Install(origin: string, outcomes: seq<NetResult>) returns (ok: bool)
      requires Valid() && |outcomes| == |AssetPaths|
      modifies this
      ensures Valid()
      ensures sent == old(sent) + AssetRequests(origin)
      ensures names == (if StaticCache in old(caches) then old(names) else old(names) + [StaticCache])
      ensures ok <==> forall i :: 0 <= i < |outcomes| ==> outcomes[i].Fetched? && outcomes[i].resp.Ok()
      ensures ok ==> caches == old(caches)[StaticCache := Stored(OldStatic(old(caches)), AssetRequests(origin), outcomes)]
      ensures !ok ==> caches == old(caches)[StaticCache := OldStatic(old(caches))]
    {
      Open(StaticCache);
      var requests := AssetRequests(origin);
      sent := sent + requests;
      ok := forall i :: 0 <= i < |outcomes| ==> outcomes[i].Fetched? && outcomes[i].resp.Ok();
      if ok {
        Store(StaticCache, Stored(caches[StaticCache], requests, outcomes));
      }
    }

    /** activate: every cache whose name is not one of the two current ones is deleted. */
    method Activate()
      requires Valid()
      modifies this
      ensures Valid() && sent == old(sent)
      ensures names == Kept(old(names))
      ensures forall n :: n in caches <==> n in old(caches) && Allowed(n)
      ensures forall n :: n in caches ==> caches[n] == old(caches)[n]
    {
      var keys := names;
      var i := 0;
      while i < |keys|
        invariant 0 <= i <= |keys|
        invariant Valid() && sent == old(sent) && Distinct(keys)
        invariant names == Kept(keys[..i]) + keys[i..]
        invariant forall n :: n in caches <==> n in old(caches) && (Allowed(n) || n !in keys[..i])
        invariant forall n :: n in caches ==> caches[n] == old(caches)[n]
      {
        Prune(old(caches), keys, i);
        i := i + 1;
      }
      assert keys[..i] == keys;
    }

    /** One step of activate: the i-th of the names it started from is deleted unless it is a current cache. */
    method Prune(ghost caches0: map<string, Entries>, keys: seq<string>, i: nat)
      requires Valid() && Distinct(keys) && i < |keys|
      requires names == Kept(keys[..i]) + keys[i..]
      requires forall n :: n in caches <==> n in caches0 && (Allowed(n) || n !in keys[..i])
      requires forall n :: n in caches ==> caches[n] == caches0[n]
      modifies this
      ensures Valid() && sent == old(sent)
      ensures names == Kept(keys[..i + 1]) + keys[i + 1..]
      ensures forall n :: n in caches <==> n in caches0 && (Allowed(n) || n !in keys[..i + 1])
      ensures forall n :: n in caches ==> caches[n] == caches0[n]
    {
      var name := keys[i];
      PrefixStep(keys, i);
      if Allowed(name) {
        KeptStepAllowed(keys, i);
      } else {
        KeptStepRemoved(keys, i);
        var _ := Delete(name);
      }
    }

    /**
      fetch, API path: the API cache is opened, the request always goes to
      the network, a GET answered ok is stored, and any answer is passed on.
      On a network error the API cache's match is served, if any.
     */
    method HandleApiFetch(req: Request, net: NetResult) returns (reply: Reply)
      requires Valid() && IsApiCall(req.url)
      modifies this
      ensures Valid()
      ensures ApiFetchDone(old(names), old(caches), old(sent), names, caches, sent, req, net, reply)
    {
      Open(ApiCache);
      sent := sent + [req];
      match net
      case Fetched(resp) =>
        if req.verb == GET && resp.Ok() {
          Store(ApiCache, Put(caches[ApiCache], req, resp));
        }
        reply := Served(resp);
      case NetworkError =>
        var hit := Match(caches[ApiCache], req);
        reply := if hit.Some? then Served(hit.value) else NoMatch;
    }

    /**
      fetch, static path: a match in any cache is served without the network;
      otherwise the request goes to the network, a failure propagates, and an
      answer is served after being stored in the static cache when ok.
     */
    method HandleStaticFetch(req: Request, net: NetResult) returns (reply: Reply)
      requires Valid() && !IsApiCall(req.url)
      modifies this
      ensures Valid()
      ensures StaticFetchDone(old(names), old(caches), old(sent), names, caches, sent, req, net, reply)
    {
      var hit := MatchAll(names, caches, req);
      if hit.Some? {
        return Served(hit.value);
      }
      sent := sent + [req];
      match net
      case NetworkError =>
        reply := Failed;
      case Fetched(resp) =>
        Open(StaticCache);
        if resp.Ok() {
          Store(StaticCache, Put(caches[StaticCache], req, resp));
        }
        reply := Served(resp);
    }

    /** The fetch event: the API strategy exactly for paths under `/api/`. */
    method HandleFetch(req: Request, net: NetResult) returns (reply: Reply)
      requires Valid()
      modifies this
      ensures Valid()
      ensures IsApiCall(req.url) ==> ApiFetchDone(old(names), old(caches), old(sent), names, caches, sent, req, net, reply)
      ensures !IsApiCall(req.url) ==> StaticFetchDone(old(names), old(caches), old(sent), names, caches, sent, req, net, reply)
    {
      if IsApiCall(req.url) {
        reply := HandleApiFetch(req, net);
      } else {
        reply := HandleStaticFetch(req, net);
      }
    }

    /**
      A static GET answered ok is fetched once: asked again, whatever the
      network would now say, it is served from the cache without a second
      network request.
     */
    method RepeatStaticRequest(req: Request, first: Response, later: NetResult) returns (r1: Reply, r2: Reply)
      requires Valid() && !IsApiCall(req.url) && req.verb == GET && first.Ok()
      requires MatchAll(names, caches, req).None?
      modifies this
      ensures Valid()
      ensures r1 == Served(first) && r2 == Served(first)
      ensures sent == old(sent) + [req]
    {
      var names0, caches0 := names, caches;
      r1 := HandleStaticFetch(req, Fetched(first));
      var reopened := caches0[StaticCache := OldStatic(caches0)];
      assert caches == reopened[StaticCache := Put(reopened[StaticCache], req, first)];
      forall n | n in names
        ensures Match(reopened[n], req).None?
      {
        if n != StaticCache {
          assert n in names0;
        }
      }
      MatchAfterPut(names, reopened, StaticCache, req, first);
      r2 := HandleStaticFetch(req, later);
    }
  }

  /**
    The state after the API strategy: the API cache is opened, the request
    goes to the network, an answer is passed on and, for a GET answered ok,
    stored; on a network error the API cache's match is served, or nothing.
   */
  predicate ApiFetchDone(names0: seq<string>, caches0: map<string, Entries>, sent0: seq<Request>,
                         names: seq<string>, caches: map<string, Entries>, sent: seq<Request>,
                         req: Request, net: NetResult, reply: Reply)
  {
    var entries := OldEntries(caches0, ApiCache);
    && sent == sent0 + [req]
    && names == (if ApiCache in caches0 then names0 else names0 + [ApiCache])
    && (net.Fetched? ==>
          && reply == Served(net.resp)
          && caches == caches0[ApiCache := if net.resp.Ok() then Put(entries, req, net.resp) else entries])
    && (net.NetworkError? ==>
          && caches == caches0[ApiCache := entries]
          && reply == (match Match(entries, req) case Some(r) => Served(r) case None => NoMatch))
  }

  /**
    The state after the cache-first strategy: a hit is served with nothing
    sent or changed; a miss goes to the network, whose error is the reply
    Failed, and whose answer is served after being stored in the static
    cache when ok.
   */
  predicate StaticFetchDone(names0: seq<string>, caches0: map<string, Entries>, sent0: seq<Request>,
                            names: seq<string>, caches: map<string, Entries>, sent: seq<Request>,
                            req: Request, net: NetResult, reply: Reply)
    requires forall n :: n in names0 ==> n in caches0
  {
    var hit := MatchAll(names0, caches0, req);
    && (hit.Some? ==> reply == Served(hit.value) && names == names0 && caches == caches0 && sent == sent0)
    && (hit.None? ==> sent == sent0 + [req])
    && (hit.None? && net.NetworkError? ==> reply == Failed && names == names0 && caches == caches0)
    && (hit.None? && net.Fetched? ==>
          && reply == Served(net.resp)
          && names == (if StaticCache in caches0 then names0 else names0 + [StaticCache])
          && caches == caches0[StaticCache := if net.resp.Ok() then Put(OldStatic(caches0), req, net.resp)
                                              else OldStatic(caches0)])
  }

  /** The named cache as `caches.open` finds it: its entries, or a new empty cache. */
  function OldEntries(caches: map<string, Entries>, name: string): (r: Entries)
    ensures name in caches ==> r == caches[name]
    ensures name !in caches ==> r == map[]
  {
    if name in caches then caches[name] else map[]
  }

  function OldStatic(caches: map<string, Entries>): Entries {
    OldEntries(caches, StaticCache)
  }

  /** `addAll`'s batch put: each request's response, in order, over the cache's entries. */
  function Stored(entries: Entries, reqs: seq<Request>, outcomes: seq<NetResult>): (r: Entries)
    requires |reqs| == |outcomes| && forall i :: 0 <= i < |outcomes| ==> outcomes[i].Fetched?
    ensures r.Keys == entries.Keys + set i | 0 <= i < |reqs| :: reqs[i].url
  {
    if reqs == [] then entries
    else
      var n := |reqs| - 1;
      var r := Stored(entries, reqs[..n], outcomes[..n])[reqs[n].url := outcomes[n].resp];
      assert forall i :: 0 <= i < n ==> reqs[..n][i] == reqs[i];
      r
  }

  /** After a successful install every asset URL is cached, with the response fetched for it. */
  lemma {:induction false} StoredHasEach(entries: Entries, reqs: seq<Request>, outcomes: seq<NetResult>, k: nat)
    requires |reqs| == |outcomes| && forall i :: 0 <= i < |outcomes| ==> outcomes[i].Fetched?
    requires k < |reqs| && forall i :: k < i < |reqs| ==> reqs[i].url != reqs[k].url
    ensures reqs[k].url in Stored(entries, reqs, outcomes)
    ensures Stored(entries, reqs, outcomes)[reqs[k].url] == outcomes[k].resp
  {
    var n := |reqs| - 1;
    var prev := Stored(entries, reqs[..n], outcomes[..n]);
    assert Stored(entries, reqs, outcomes) == prev[reqs[n].url := outcomes[n].resp];
    if k < n {
      var front := reqs[..n];
      assert front[k] == reqs[k];
      forall i | k < i < |front| ensures front[i].url != front[k].url {
        assert front[i] == reqs[i];
      }
      assert forall i :: 0 <= i < n ==> outcomes[..n][i] == outcomes[i];
      StoredHasEach(entries, front, outcomes[..n], k);
      assert reqs[n].url != reqs[k].url;
    }
  }

  lemma PrefixStep(keys: seq<string>, i: nat)
    requires i < |keys|
    ensures keys[..i + 1] == keys[..i] + [keys[i]]
    ensures keys[i..] == [keys[i]] + keys[i + 1..]
  {
  }

  /** A kept name stays where it is: it joins the kept prefix. */
  lemma KeptStepAllowed(keys: seq<string>, i: nat)
    requires i < |keys| && Allowed(keys[i])
    ensures Kept(keys[..i]) + keys[i..] == Kept(keys[..i + 1]) + keys[i + 1..]
  {
    PrefixStep(keys, i);
    assert keys[..i + 1][..i] == keys[..i];
  }

  /** A deleted name leaves the kept prefix followed by the names not yet visited. */
  lemma KeptStepRemoved(keys: seq<string>, i: nat)
    requires Distinct(keys) && i < |keys| && !Allowed(keys[i])
    ensures Remove(Kept(keys[..i]) + keys[i..], keys[i]) == Kept(keys[..i + 1]) + keys[i + 1..]
  {
    var name, done, rest := keys[i], keys[..i], keys[i + 1..];
    PrefixStep(keys, i);
    assert name !in done by {
      forall j | 0 <= j < i
        ensures done[j] != name
      {
        assert done[j] == keys[j];
      }
    }
    assert name !in rest by {
      forall j | 0 <= j < |rest|
        ensures rest[j] != name
      {
        assert rest[j] == keys[i + 1 + j];
      }
    }
    assert keys[..i + 1][..i] == done;
    assert Kept(keys[..i + 1]) == Kept(done);
    assert Remove([name], name) == [] by {
      assert [name][..0] == [];
    }
    calc {
      Remove(Kept(done) + keys[i..], name);
      { RemoveConcat(Kept(done), keys[i..], name); }
      Remove(Kept(done), name) + Remove([name] + rest, name);
      { RemoveAbsent(Kept(done), name); }
      Kept(done) + Remove([name] + rest, name);
      { RemoveConcat([name], rest, name); }
      Kept(done) + (Remove([name], name) + Remove(rest, name));
      { RemoveAbsent(rest, name); assert [] + rest == rest; }
      Kept(done) + rest;
    }
  }

  /** The asset URLs are pairwise different, so each gets its own entry, and none is under `/api/`. */
  lemma AssetUrls(origin: string)
    ensures forall i, j :: 0 <= i < j < |AssetPaths| ==> AssetRequests(origin)[i].url != AssetRequests(origin)[j].url
    ensures forall i :: 0 <= i < |AssetPaths| ==> !IsApiCall(AssetRequests(origin)[i].url)
  {
    assert |AssetPaths[0]| == 1 && |AssetPaths[1]| == 11 && |AssetPaths[2]| == 26 && |AssetPaths[3]| == 25;
    assert AssetPaths[1][1] == 'i' && AssetPaths[2][2] == 's' && AssetPaths[3][2] == 's';
  }

  /** Right after installing on an empty origin, the store answers each asset request with its fetched response. */
  lemma InstalledMatch(origin: string, outcomes: seq<NetResult>, k: nat)
    requires |outcomes| == |AssetPaths| && forall i :: 0 <= i < |outcomes| ==> outcomes[i].Fetched?
    requires k < |AssetPaths|
    ensures MatchAll([StaticCache], map[StaticCache := Stored(map[], AssetRequests(origin), outcomes)], AssetRequests(origin)[k])
         == Some(outcomes[k].resp)
  {
    AssetUrls(origin);
    StoredHasEach(map[], AssetRequests(origin), outcomes, k);
  }

  /**
    Installed on an empty origin with every asset answered ok, the worker
    serves each asset from the static cache without the network.
   */
  method InstallThenServeOffline(origin: string, resps: seq<Response>, k: nat) returns (ok: bool, reply: Reply, fetched: nat)
    requires |resps| == |AssetPaths| && (forall i :: 0 <= i < |resps| ==> resps[i].Ok())
    requires k < |AssetPaths|
    ensures ok && reply == Served(resps[k])
    ensures fetched == |AssetPaths|
  {
    var w := new Worker();
    var outcomes := seq(|resps|, i requires 0 <= i < |resps| => Fetched(resps[i]));
    ok := w.Install(origin, outcomes);
    var req := AssetRequests(origin)[k];
    InstalledMatch(origin, outcomes, k);
    AssetUrls(origin);
    reply := w.HandleFetch(req, NetworkError);
    fetched := |w.sent|;
  }
}
