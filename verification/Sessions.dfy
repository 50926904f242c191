/** Handling any number of requests on a site with any number of endpoints (src/req.c, src/end.c). */
module Sessions {
  import opened PoolSpec
  import opened Request
  import opened RouteSpec
  import opened Wrappers
  import R = Router

  /** The number of the endpoint that a request is routed to, if it gets that far. */
  function TargetOf(env: Env, routes: seq<Route>): Option<nat> {
    if Accepted(env) then Lookup(routes, env.verb.value, BaseOf(env.uri.value)) else None
  }

  /** The requests and the stores of every endpoint after one more request. */
  function NextPools(env: Env, routes: seq<Route>, requests: Pool, stores: seq<Pool>): (pools: (Pool, seq<Pool>))
    ensures |pools.1| == |stores|
  {
    var k := TargetOf(env, routes);
    (RequestsAfter(env, requests),
     if k.Some? && k.value < |stores| then stores[k.value := StoresAfter(env, requests, stores[k.value])] else stores)
  }

  /** Which endpoint a request is routed to, in terms of its URI and the registrations. */
  lemma {:induction false} TargetIs(env: Env, routes: seq<Route>) returns (j: nat)
    ensures j <= |routes|
    ensures forall i :: 0 <= i <= j && i < |routes| ==>
              (i == j <==>
               && env.verb.Some? && env.uri.Some?
               && routes[i].verb == env.verb.value && routes[i].url <= env.uri.value && 63 !in routes[i].url
               && (routes[i].url == env.uri.value || env.uri.value[|routes[i].url|] == 63))
    ensures TargetOf(env, routes) ==
            if && env.acceptOk && env.verb.Some? && |env.verb.value| < 50 && env.uri.Some? && |env.uri.value| <= 512
               && env.beforeEndpointOk && j < |routes| then Some(routes[j].endpoint) else None
  {
    if env.verb.Some? && env.uri.Some? {
      j := RouteTaken(routes, env.verb.value, env.uri.value);
    } else {
      j := |routes|;
    }
  }

  /** What one more request does, in terms of its URI and the registrations. */
  lemma {:induction false} NextIs(env: Env, routes: seq<Route>, requests: Pool, stores: seq<Pool>)
      returns (j: nat, reached: bool)
    requires forall i :: 0 <= i < |routes| ==> routes[i].endpoint < |stores|
    ensures j <= |routes|
    ensures forall i :: 0 <= i <= j && i < |routes| ==>
              (i == j <==>
               && env.verb.Some? && env.uri.Some?
               && routes[i].verb == env.verb.value && routes[i].url <= env.uri.value && 63 !in routes[i].url
               && (routes[i].url == env.uri.value || env.uri.value[|routes[i].url|] == 63))
    ensures reached <==>
            && env.pollIn && env.incomingOk && (requests.free != [] || (env.mallocOk && env.createdOk))
            && env.beforeFcgxOk
            && env.acceptOk && env.verb.Some? && |env.verb.value| < 50 && env.uri.Some? && |env.uri.value| <= 512
            && env.beforeEndpointOk && j < |routes|
    ensures NextSucceeds(env, routes, requests, stores) <==>
            reached && (stores[routes[j].endpoint].free != [] || env.storeCreatedOk) && env.newOk
    ensures NextPools(env, routes, requests, stores) ==
            (RequestsAfter(env, requests),
             if reached then stores[routes[j].endpoint := StoreUsed(env, stores[routes[j].endpoint])] else stores)
  {
    j := TargetIs(env, routes);
    reached := Started(env, requests) && TargetOf(env, routes).Some?;
    if j < |routes| {
      var e := routes[j].endpoint;
      assert stores[e := stores[e]] == stores;
    }
  }

  function PoolsAfter(envs: seq<Env>, routes: seq<Route>, requests: Pool, stores: seq<Pool>): (pools: (Pool, seq<Pool>))
    ensures |pools.1| == |stores|
  {
    if envs == [] then (requests, stores)
    else
      var (r, ss) := PoolsAfter(envs[..|envs| - 1], routes, requests, stores);
      NextPools(envs[|envs| - 1], routes, r, ss)
  }

  /** Whether every step of handling the next request succeeds. */
  predicate NextSucceeds(env: Env, routes: seq<Route>, requests: Pool, stores: seq<Pool>) {
    var k := TargetOf(env, routes);
    k.Some? && k.value < |stores| && Succeeds(env, requests, true, stores[k.value])
  }

  /** How many requests are answered with the error body. */
  function Failures(envs: seq<Env>, routes: seq<Route>, requests: Pool, stores: seq<Pool>): nat {
    if envs == [] then 0
    else
      var front, env := envs[..|envs| - 1], envs[|envs| - 1];
      var (r, ss) := PoolsAfter(front, routes, requests, stores);
      Failures(front, routes, requests, stores) + if NextSucceeds(env, routes, r, ss) then 0 else 1
  }

  /** The same requests as one endpoint sees them. */
  function CallsOf(envs: seq<Env>, routes: seq<Route>, k: nat): (calls: seq<Call>)
    ensures |calls| == |envs|
  {
    if envs == [] then []
    else
      var env := envs[|envs| - 1];
      CallsOf(envs[..|envs| - 1], routes, k) + [Call(env, TargetOf(env, routes) == Some(k))]
  }

  /** The endpoints do not get into each other's way. */
  lemma {:induction false} EachEndpointAlone(envs: seq<Env>, routes: seq<Route>, requests: Pool,
      stores: seq<Pool>, k: nat)
    requires k < |stores|
    ensures var (r, ss) := PoolsAfter(envs, routes, requests, stores);
            (r, ss[k]) == Session(requests, stores[k], CallsOf(envs, routes, k))
  {
    if envs != [] {
      var front, env := envs[..|envs| - 1], envs[|envs| - 1];
      var calls := CallsOf(front, routes, k);
      EachEndpointAlone(front, routes, requests, stores, k);
      assert (calls + [Call(env, TargetOf(env, routes) == Some(k))])[..|calls|] == calls;
    }
  }

  function FreshStores(n: nat): (stores: seq<Pool>)
    ensures |stores| == n
  {
    seq(n, _ => Fresh(0))
  }

  /** Whatever fails over any number of requests: between two of them every request object is cached
      and there is at most one, and the stores of every endpoint are as one endpoint alone would have
      left them, each on its list once. */
  lemma {:induction false} SiteKeepsPools(envs: seq<Env>, routes: seq<Route>, n: nat, stale: nat, k: nat)
    requires k < n
    ensures var (r, ss) := PoolsAfter(envs, routes, Fresh(stale), FreshStores(n));
            var lost := Losses(Fresh(stale), Fresh(0), CallsOf(envs, routes, k));
            && Inv(r, stale) && r.used == multiset{} && r.allCount <= stale + 1
            && InOrder(ss[k]) && ss[k].emptyCount == ss[k].allCount + lost && lost <= 1
            && (Inv(ss[k], 0) <==> lost == 0)
  {
    EachEndpointAlone(envs, routes, Fresh(stale), FreshStores(n), k);
    SessionKeepsPools(CallsOf(envs, routes, k), stale);
  }

  /** The stores of an endpoint that is not being used. */
  ghost predicate InOrder(stores: Pool) {
    Separate(stores) && Linked(stores, 0) && stores.used == multiset{}
  }

  lemma {:induction false} NextInOrder(env: Env, requests: Pool, stores: Pool)
    requires InOrder(stores)
    ensures InOrder(StoresAfter(env, requests, stores))
  {
    UsingKeepsStores(env, stores);
    UsingKeepsSeparate(env, stores);
  }

  // ---------------------------------------------------------------- the objects themselves

  ghost function StoresOf(endpoints: seq<Endpoint>): set<Store>
    reads endpoints
  {
    set e, s | e in endpoints && s in e.spine :: s
  }

  /** The cached stores were cached before or have been allocated in between. */
  twostate predicate Grown(endpoints: seq<Endpoint>)
    reads endpoints
  {
    forall s :: s in StoresOf(endpoints) ==> s in old(StoresOf(endpoints)) || fresh(s)
  }

  /** The endpoint shows its stores, all of which were allocated for it. */
  ghost predicate OneShows(e: Endpoint, stores: Pool)
    reads e, (set s: Store | s in e.spine)`next
  {
    e.Shows(stores) && InOrder(stores) && forall s :: s in e.spine ==> s.home == e
  }

  ghost predicate Distinct(endpoints: seq<Endpoint>) {
    forall j, k :: 0 <= j < k < |endpoints| ==> endpoints[j] != endpoints[k]
  }

  /** Every endpoint shows its stores, so no store is cached by two of them. */
  ghost predicate EndpointsShow(endpoints: seq<Endpoint>, stores: seq<Pool>)
    reads endpoints, StoresOf(endpoints)
  {
    && |endpoints| == |stores| && Distinct(endpoints)
    && forall k :: 0 <= k < |endpoints| ==>
         assert endpoints[k] in endpoints;
         OneShows(endpoints[k], stores[k])
  }

  ghost function RoutedAt(endpoints: seq<Endpoint>, k: Option<nat>): Endpoint? {
    if k.Some? && k.value < |endpoints| then endpoints[k.value] else null
  }

  /** The call of fra_p_req_handle_new for a request that is routed to endpoint k, if it is to any. */
  method HandleRouted(server: Server, env: Env, site: Site, ghost k: Option<nat>, ghost pool: Pool, ghost stale: nat,
      ghost stores: seq<Pool>)
    returns (rc: int)
    requires server.Shows(pool) && Inv(pool, stale)
    requires SiteValid(site) && k == TargetOf(env, site.routes) && (k.Some? ==> k.value < |site.endpoints| == |stores|)
    requires k.Some? ==> OneShows(site.endpoints[k.value], stores[k.value])
    modifies server, server.spine, RoutedAt(site.endpoints, k),
             if k.Some? then StoresOf([site.endpoints[k.value]]) else {}
    ensures server.Shows(RequestsAfter(env, pool)) && server.Grown() && SiteValid(site)
    ensures rc == if NextSucceeds(env, site.routes, pool, stores) then 0 else -1
    ensures server.wire == OneMore(old(server.wire), rc)
    ensures k.Some? ==> OneShows(site.endpoints[k.value], StoresAfter(env, pool, stores[k.value]))
    ensures k.Some? ==> site.endpoints[k.value].Grown()
  {
    ghost var mine := if k.Some? then stores[k.value] else Fresh(0);
    if k.Some? {
      NextInOrder(env, pool, mine);
    }
    rc := server.HandleNew(env, site, RoutedAt(site.endpoints, k), pool, stale, mine);
  }

  /** The other endpoints do not notice it. */
  method HandleShown(server: Server, env: Env, site: Site, ghost k: Option<nat>, ghost pool: Pool, ghost stale: nat,
      ghost stores: seq<Pool>)
    returns (rc: int)
    requires server.Shows(pool) && Inv(pool, stale)
    requires SiteValid(site) && k == TargetOf(env, site.routes) && (k.Some? ==> k.value < |stores|)
    requires EndpointsShow(site.endpoints, stores)
    modifies server, server.spine, RoutedAt(site.endpoints, k),
             if k.Some? then StoresOf([site.endpoints[k.value]]) else {}
    ensures server.Shows(RequestsAfter(env, pool)) && server.Grown() && SiteValid(site)
    ensures rc == if NextSucceeds(env, site.routes, pool, stores) then 0 else -1
    ensures server.wire == OneMore(old(server.wire), rc)
    ensures EndpointsShow(site.endpoints, NextPools(env, site.routes, pool, stores).1)
    ensures k.Some? ==> site.endpoints[k.value].Grown()
  {
    ghost var es := site.endpoints;
    assert k.Some? ==> OneShows(es[k.value], stores[k.value]);
    rc := HandleRouted(server, env, site, k, pool, stale, stores);
    forall j | 0 <= j < |es| && k != Some(j)
      ensures OneShows(es[j], stores[j])
    {
      assert es[j] != RoutedAt(es, k) && old(OneShows(es[j], stores[j]));
      assert forall s :: s in old(es[j].spine) ==> s.home == es[j];
    }
  }

  /** One request that is routed to endpoint k, if it is to any. */
  method HandleFound(server: Server, env: Env, site: Site, ghost k: Option<nat>, ghost pool: Pool, ghost stale: nat,
      ghost stores: seq<Pool>)
    returns (rc: int)
    requires server.Shows(pool) && Inv(pool, stale)
    requires SiteValid(site) && k == TargetOf(env, site.routes) && (k.Some? ==> k.value < |stores|)
    requires EndpointsShow(site.endpoints, stores)
    modifies server, server.spine, site.endpoints, StoresOf(site.endpoints)
    ensures server.Shows(RequestsAfter(env, pool)) && server.Grown() && SiteValid(site)
    ensures EndpointsShow(site.endpoints, NextPools(env, site.routes, pool, stores).1)
    ensures rc == if NextSucceeds(env, site.routes, pool, stores) then 0 else -1
    ensures server.wire == OneMore(old(server.wire), rc)
    ensures forall e :: e in site.endpoints ==> e.Grown()
  {
    rc := HandleShown(server, env, site, k, pool, stale, stores);
  }

  /** One request on a site with any number of endpoints.  The endpoint is that of the first registration
      j of its verb whose URL begins the URI, which ends there or goes on with the first question mark;
      it is reached if every step up to there succeeds, and no other endpoint is touched. */
  method HandleOne(server: Server, env: Env, site: Site, ghost pool: Pool, ghost stale: nat, ghost stores: seq<Pool>)
    returns (rc: int, ghost j: nat, ghost reached: bool)
    requires server.Shows(pool) && Inv(pool, stale)
    requires SiteValid(site) && EndpointsShow(site.endpoints, stores)
    modifies server, server.spine, site.endpoints, StoresOf(site.endpoints)
    ensures j <= |site.routes|
    ensures forall i :: 0 <= i <= j && i < |site.routes| ==>
              (i == j <==>
               && env.verb.Some? && env.uri.Some?
               && site.routes[i].verb == env.verb.value && site.routes[i].url <= env.uri.value
               && 63 !in site.routes[i].url
               && (site.routes[i].url == env.uri.value || env.uri.value[|site.routes[i].url|] == 63))
    ensures j < |site.routes| ==> site.routes[j].endpoint < |site.endpoints|
    ensures reached <==>
            && env.pollIn && env.incomingOk
            && (old(server.emptyReq) != null || (env.mallocOk && env.createdOk)) && env.beforeFcgxOk
            && env.acceptOk && env.verb.Some? && |env.verb.value| < 50 && env.uri.Some? && |env.uri.value| <= 512
            && env.beforeEndpointOk && j < |site.routes|
    ensures rc == if
              && reached && env.newOk
              && (env.storeCreatedOk || old(site.endpoints[site.routes[j].endpoint].storeEmpty) != null) then 0 else -1
    ensures server.wire.accepts == old(server.wire).accepts + 1 && server.wire.finishes == old(server.wire).finishes + 1
    ensures server.wire.bodies500 == old(server.wire).bodies500 + if rc == 0 then 0 else 1
    ensures server.Shows(RequestsAfter(env, pool)) && server.Grown() && SiteValid(site)
    ensures EndpointsShow(site.endpoints, NextPools(env, site.routes, pool, stores).1)
    ensures rc == if NextSucceeds(env, site.routes, pool, stores) then 0 else -1
    ensures server.wire == OneMore(old(server.wire), rc)
    ensures forall e :: e in site.endpoints ==> e.Grown()
  {
    ghost var k := TargetOf(env, site.routes);
    j := TargetIs(env, site.routes);
    reached := Started(env, pool) && k.Some?;
    rc := HandleFound(server, env, site, k, pool, stale, stores);
  }

  /** It leaves the router alone, and all requests cached again. */
  method HandleKept(server: Server, env: Env, site: Site, ghost pool: Pool, ghost stale: nat, ghost stores: seq<Pool>)
    returns (rc: int)
    requires server.Shows(pool) && Inv(pool, stale) && pool.used == multiset{}
    requires SiteValid(site) && EndpointsShow(site.endpoints, stores)
    modifies server, server.spine, site.endpoints, StoresOf(site.endpoints)
    ensures var next := NextPools(env, site.routes, pool, stores);
            && server.Shows(next.0) && Inv(next.0, stale) && next.0.used == multiset{}
            && EndpointsShow(site.endpoints, next.1)
    ensures SiteValid(site) && server.Grown() && Grown(site.endpoints)
    ensures rc == if NextSucceeds(env, site.routes, pool, stores) then 0 else -1
    ensures server.wire == OneMore(old(server.wire), rc)
  {
    HandlingKeepsRequests(env, pool, stale);
    ghost var j, reached;
    rc, j, reached := HandleOne(server, env, site, pool, stale, stores);
  }

  lemma {:induction false} OneMoreOf(envs: seq<Env>, i: nat, routes: seq<Route>, requests: Pool, stores: seq<Pool>)
    requires i < |envs|
    ensures var now := PoolsAfter(envs[..i], routes, requests, stores);
            && PoolsAfter(envs[..i + 1], routes, requests, stores) == NextPools(envs[i], routes, now.0, now.1)
            && Failures(envs[..i + 1], routes, requests, stores) ==
               Failures(envs[..i], routes, requests, stores)
                 + if NextSucceeds(envs[i], routes, now.0, now.1) then 0 else 1
  {
    assert envs[..i + 1][..i] == envs[..i];
  }

  /** What has gone out after some requests. */
  function WireAfter(envs: seq<Env>, routes: seq<Route>, requests: Pool, stores: seq<Pool>, w: Wire): Wire {
    Wire(w.accepts + |envs|, w.finishes + |envs|, w.bodies500 + Failures(envs, routes, requests, stores))
  }

  /** Everything is as it is between two requests. */
  ghost predicate AtRest(server: Server, site: Site, requests: Pool, stale: nat, stores: seq<Pool>)
    reads server, server.spine, site.endpoints, StoresOf(site.endpoints)
    reads site.router, site.router.urls, site.router.urls.buck
    reads set i | 0 <= i < site.router.urls.buck.Length :: site.router.urls.buck[i].el
    reads R.NodesOf(site.chains)
  {
    && server.Shows(requests) && Inv(requests, stale) && requests.used == multiset{}
    && SiteValid(site) && EndpointsShow(site.endpoints, stores)
  }

  /** Request i of them. */
  method HandleNth(server: Server, envs: seq<Env>, i: nat, site: Site, ghost pool: Pool, ghost stale: nat,
      ghost stores: seq<Pool>, ghost was: Wire, ghost now: (Pool, seq<Pool>))
    returns (ghost next: (Pool, seq<Pool>))
    requires i < |envs| && now == PoolsAfter(envs[..i], site.routes, pool, stores)
    requires AtRest(server, site, now.0, stale, now.1)
    requires server.wire == WireAfter(envs[..i], site.routes, pool, stores, was)
    modifies server, server.spine, site.endpoints, StoresOf(site.endpoints)
    ensures next == PoolsAfter(envs[..i + 1], site.routes, pool, stores)
    ensures AtRest(server, site, next.0, stale, next.1)
    ensures server.wire == WireAfter(envs[..i + 1], site.routes, pool, stores, was)
    ensures server.Grown() && Grown(site.endpoints)
  {
    OneMoreOf(envs, i, site.routes, pool, stores);
    var rc := HandleKept(server, envs[i], site, now.0, stale, now.1);
    next := NextPools(envs[i], site.routes, now.0, now.1);
  }

  /** Any number of requests.  There is one attempt to accept and one finish for each, and an error body
      for each that fails. */
  method HandleAll(server: Server, envs: seq<Env>, site: Site, ghost pool: Pool, ghost stale: nat,
      ghost stores: seq<Pool>)
    requires AtRest(server, site, pool, stale, stores)
    modifies server, server.spine, site.endpoints, StoresOf(site.endpoints)
    ensures var (r, ss) := PoolsAfter(envs, site.routes, pool, stores); AtRest(server, site, r, stale, ss)
    ensures server.wire == WireAfter(envs, site.routes, pool, stores, old(server.wire))
    ensures server.Grown() && Grown(site.endpoints)
  {
    ghost var now, was := (pool, stores), server.wire;
    for i := 0 to |envs|
      invariant now == PoolsAfter(envs[..i], site.routes, pool, stores)
      invariant AtRest(server, site, now.0, stale, now.1)
      invariant server.wire == WireAfter(envs[..i], site.routes, pool, stores, was)
      invariant server.Grown() && Grown(site.endpoints)
    {
      forall j | 0 <= j < |server.spine|
        ensures server.spine[j] in old(server.spine) || fresh(server.spine[j])
      {
        assert server.spine[j] in server.spine;
      }
      now := HandleNth(server, envs, i, site, pool, stale, stores, was, now);
    }
    assert envs[..|envs|] == envs;
  }

  // ---------------------------------------------------------------- from the beginning to the end

  /** Endpoints that have not been used. */
  method NewEndpoints(n: nat) returns (endpoints: seq<Endpoint>)
    ensures |endpoints| == n && EndpointsShow(endpoints, FreshStores(n))
    ensures fresh(endpoints) && StoresOf(endpoints) == {}
  {
    endpoints := [];
    for i := 0 to n
      invariant |endpoints| == i && Distinct(endpoints)
      invariant forall k :: 0 <= k < i ==> fresh(endpoints[k]) && endpoints[k].Shows(Fresh(0))
    {
      var e := new Endpoint();
      endpoints := endpoints + [e];
    }
  }

  /** fra_end_free for each of them. */
  method EndAll(endpoints: seq<Endpoint>, hookOk: (nat, nat) -> bool, ghost stores: seq<Pool>) returns (rcs: seq<int>)
    requires EndpointsShow(endpoints, stores)
    modifies endpoints
    ensures |rcs| == |endpoints|
    ensures forall k :: 0 <= k < |endpoints| ==>
              var end := FreeEach(stores[k], (i: nat) => hookOk(k, i), 0);
              endpoints[k].Shows(end.0) && rcs[k] == end.1
  {
    rcs := [];
    for k := 0 to |endpoints|
      invariant |rcs| == k
      invariant forall j :: 0 <= j < k ==>
                  var end := FreeEach(stores[j], (i: nat) => hookOk(j, i), 0);
                  endpoints[j].Shows(end.0) && rcs[j] == end.1
      invariant forall j :: k <= j < |endpoints| ==> endpoints[j].Shows(stores[j])
    {
      var rc := EndFree(endpoints[k], (i: nat) => hookOk(k, i), stores[k]);
      rcs := rcs + [rc];
    }
  }

  lemma {:induction false} AfterKnown(attempts: seq<R.Attempt>, n: nat)
    requires forall i :: 0 <= i < |attempts| ==> attempts[i].endpoint < n
    ensures forall j :: 0 <= j < |R.After([], attempts)| ==> R.After([], attempts)[j].endpoint < n
  {
    if attempts != [] {
      AfterKnown(attempts[..|attempts| - 1], n);
    }
  }

  /** fra_p_req_init, fra_p_url_init, and any registrations of new endpoints. */
  method Open(n: nat, attempts: seq<R.Attempt>) returns (server: Server, site: Site)
    requires forall i :: 0 <= i < |attempts| ==> attempts[i].endpoint < n
    ensures fresh(server) && server.spine == [] && server.wire == Wire(0, 0, 0)
    ensures fresh(site.endpoints) && |site.endpoints| == n && StoresOf(site.endpoints) == {}
    ensures site.routes == R.After([], attempts) && AtRest(server, site, Fresh(0), 0, FreshStores(n))
  {
    server := new Server();
    var endpoints := NewEndpoints(n);
    var router;
    ghost var chains, live;
    router, chains, live := R.Start(attempts, multiset{});
    AfterKnown(attempts, n);
    FreshIsInv(0);
    site := Site(router, endpoints, R.After([], attempts), chains);
    assert SiteValid(site) && EndpointsShow(endpoints, FreshStores(n));
  }

  /** fra_end_free for each endpoint, and fra_p_req_deinit. */
  method Close(server: Server, endpoints: seq<Endpoint>, hookOk: (nat, nat) -> bool, ghost pool: Pool,
      ghost stores: seq<Pool>)
    returns (rcs: seq<int>)
    requires server.Shows(pool) && Sound(pool) && pool.used == multiset{} && EndpointsShow(endpoints, stores)
    modifies server, server.spine, endpoints
    ensures server.wire == old(server.wire) && Balanced(server.log)
    ensures |rcs| == |endpoints|
    ensures forall k :: 0 <= k < |rcs| ==>
              var end := FreeEach(stores[k], (i: nat) => hookOk(k, i), 0);
              endpoints[k].log == end.0.log && rcs[k] == end.1
  {
    rcs := EndAll(endpoints, hookOk, stores);
    server.Deinit(pool);
    FreeAllBalances(pool);
  }

  lemma {:induction false} StoresSettle(envs: seq<Env>, routes: seq<Route>, n: nat, k: nat, hookOk: nat -> bool)
    requires k < n
    ensures var (end, rc) := FreeEach(PoolsAfter(envs, routes, Fresh(0), FreshStores(n)).1[k], hookOk, 0);
            && Settled(end.log, Losses(Fresh(0), Fresh(0), CallsOf(envs, routes, k)), rc)
            && rc == if Count(end.log, Created(0)) == 0 || hookOk(0) then 0 else -1
  {
    var calls := CallsOf(envs, routes, k);
    EachEndpointAlone(envs, routes, Fresh(0), FreshStores(n), k);
    SessionAccounts(calls, 0);
    FreeEachSettles(Session(Fresh(0), Fresh(0), calls).1, hookOk, Losses(Fresh(0), Fresh(0), calls));
  }

  /** From the initialisation over any registrations and any requests to the end.  Every request object
      that was ever created is deallocated once.  So is every store, except that it is deallocated once
      more if its CREATED hook failed, and once less if its FREE hook did. */
  method WholeLife(n: nat, attempts: seq<R.Attempt>, envs: seq<Env>, hookOk: (nat, nat) -> bool)
    returns (server: Server, site: Site, rcs: seq<int>)
    requires forall i :: 0 <= i < |attempts| ==> attempts[i].endpoint < n
    ensures Balanced(server.log)
    ensures |rcs| == |site.endpoints| == n
    ensures forall k :: 0 <= k < n ==>
              var calls := CallsOf(envs, R.After([], attempts), k);
              Settled(site.endpoints[k].log, Losses(Fresh(0), Fresh(0), calls), rcs[k])
    ensures forall k :: 0 <= k < n ==>
              rcs[k] == if Count(site.endpoints[k].log, Created(0)) == 0 || hookOk(k, 0) then 0 else -1
    ensures server.wire == WireAfter(envs, R.After([], attempts), Fresh(0), FreshStores(n), Wire(0, 0, 0))
  {
    server, site := Open(n, attempts);
    HandleAll(server, envs, site, Fresh(0), 0, FreshStores(n));
    ghost var pools := PoolsAfter(envs, site.routes, Fresh(0), FreshStores(n));
    forall j | 0 <= j < |server.spine|
      ensures fresh(server.spine[j])
    {
      assert server.spine[j] in server.spine;
    }
    rcs := Close(server, site.endpoints, hookOk, pools.0, pools.1);
    forall k | 0 <= k < n
      ensures Settled(site.endpoints[k].log, Losses(Fresh(0), Fresh(0), CallsOf(envs, site.routes, k)), rcs[k])
      ensures rcs[k] == if Count(site.endpoints[k].log, Created(0)) == 0 || hookOk(k, 0) then 0 else -1
    {
      StoresSettle(envs, site.routes, n, k, (i: nat) => hookOk(k, i));
    }
  }
}
