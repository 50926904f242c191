/** Requests, endpoint stores and the handling of one incoming request (src/req.c, src/end.c).

    The free lists are linked through the cached objects themselves.  Each endpoint, and the server,
    logs what happens to its objects where the code runs a hook, hands an object out, takes it back or
    deallocates it.  The methods are proved to do to lists, counters and log what PoolSpec says. */
module Request {
  import opened Wrappers
  import opened Words
  import opened PoolSpec
  import opened RouteSpec
  import R = Router

  class Store {
    ghost const id: nat
    ghost const home: Endpoint
    var next: Store?

    constructor (ghost id: nat, ghost home: Endpoint)
      ensures this.id == id && this.home == home
    {
      this.id, this.home := id, home;
      next := null;
    }
  }

  /** The head starts the chain of exactly these stores, which have exactly these numbers. */
  ghost predicate StoreChain(head: Store?, spine: seq<Store>, ids: seq<nat>)
    reads (set s: Store | s in spine)`next
  {
    && |spine| == |ids|
    && head == (if |spine| > 0 then spine[0] else null)
    && forall i :: 0 <= i < |spine| ==> StoreLink(spine, ids, i)
  }

  ghost predicate StoreLink(spine: seq<Store>, ids: seq<nat>, i: nat)
    requires i < |spine| == |ids|
    reads {spine[i]}`next
  {
    spine[i].id == ids[i] && spine[i].next == if i + 1 < |spine| then spine[i + 1] else null
  }

  lemma {:induction false} StoreChainPop(head: Store, spine: seq<Store>, ids: seq<nat>)
    requires StoreChain(head, spine, ids)
    ensures spine != [] && head == spine[0] && head.id == ids[0] && StoreChain(head.next, spine[1..], ids[1..])
  {
    assert StoreLink(spine, ids, 0);
    forall i | 0 <= i < |spine| - 1
      ensures StoreLink(spine[1..], ids[1..], i)
    {
      assert StoreLink(spine, ids, i + 1);
    }
  }

  lemma {:induction false} StoreChainPush(head: Store?, spine: seq<Store>, ids: seq<nat>, s: Store)
    requires StoreChain(head, spine, ids) && s.next == head
    ensures StoreChain(s, [s] + spine, [s.id] + ids)
  {
    forall i | 0 <= i <= |spine|
      ensures StoreLink([s] + spine, [s.id] + ids, i)
    {
      if i > 0 {
        assert StoreLink(spine, ids, i - 1);
      }
    }
  }

  class Endpoint {
    var storeEmpty: Store?
    var storeEmptyCount: int
    var storeAllCount: int

    ghost var spine: seq<Store>
    ghost var log: seq<Event>

    /** The cached stores, the counters and what has happened to the stores are those of a pool. */
    ghost predicate Shows(pool: Pool)
      reads this, (set s: Store | s in spine)`next
    {
      && StoreChain(storeEmpty, spine, pool.free)
      && storeEmptyCount == pool.emptyCount && storeAllCount == pool.allCount && log == pool.log
    }

    constructor ()
      ensures Shows(Fresh(0))
    {
      storeEmpty, storeEmptyCount, storeAllCount := null, 0, 0;
      spine, log := [], [];
    }

    /** The stores on the free list were there or have been allocated for this endpoint in between. */
    twostate predicate Grown()
      reads this
    {
      forall s :: s in spine ==> s in old(spine) || (fresh(s) && s.home == this)
    }

    /** fra_p_end_store_set, for a request of this endpoint.  If there is no memory the request keeps the
        store it had. */
    method StoreSet(r: RequestObject, mallocOk: bool, hookOk: bool, ghost pool: Pool) returns (rc: int)
      requires Shows(pool)
      modifies this, r`endpointStore
      ensures Shows(Acquire(pool, mallocOk, hookOk).0) && forall s :: s in spine ==> s in old(spine)
      ensures rc == if Acquire(pool, mallocOk, hookOk).1.Some? then 0 else -1
      ensures pool.free == [] && !mallocOk ==> r.endpointStore == old(r.endpointStore)
      ensures pool.free != [] || mallocOk ==>
                && r.endpointStore != null && r.endpointStore.id == Taken(pool)
                && (r.endpointStore in old(spine) || (fresh(r.endpointStore) && r.endpointStore.home == this))
      ensures old(storeEmpty) == null ==>
                && rc == (if mallocOk && hookOk then 0 else -1) && storeEmpty == null
                && storeEmptyCount == old(storeEmptyCount)
                && storeAllCount == (if rc == 0 then old(storeAllCount) + 1 else old(storeAllCount))
      ensures old(storeEmpty) != null ==>
                && rc == 0 && r.endpointStore == old(storeEmpty) && storeEmpty == old(storeEmpty.next)
                && storeEmptyCount == old(storeEmptyCount) - 1 && storeAllCount == old(storeAllCount)
    {
      if storeEmpty == null {
        if !mallocOk {
          return -1;
        }
        var cur := new Store(pool.next, this);
        r.endpointStore := cur;
        log := log + [Created(cur.id)];
        if !hookOk {
          // cur is deallocated here, and yet stays the store of the request
          log := log + [Dropped(cur.id)];
          return -1;
        }
        storeAllCount := storeAllCount + 1;
        log := log + [Handed(cur.id)];
      } else {
        StoreChainPop(storeEmpty, spine, pool.free);
        r.endpointStore := storeEmpty;
        storeEmpty := storeEmpty.next;
        storeEmptyCount := storeEmptyCount - 1;
        spine := spine[1..];
        log := log + [Handed(r.endpointStore.id)];
      }
      return 0;
    }

    /** fra_p_end_store_maybe_free, for a request of this endpoint. */
    method StoreMaybeFree(store: Store, hookOk: bool, ghost pool: Pool) returns (rc: int)
      requires Shows(pool) && store !in spine
      modifies this, store
      ensures Shows(Release(pool, store.id, hookOk).0) && rc == Release(pool, store.id, hookOk).1
      ensures forall s :: s in spine ==> s in old(spine) || s == store
      ensures 1000 * (old(storeAllCount) - old(storeEmptyCount)) > 1618 * old(storeAllCount) ==>
                && rc == (if hookOk then 0 else -1) && storeEmpty == old(storeEmpty)
                && storeEmptyCount == old(storeEmptyCount)
                && storeAllCount == (if hookOk then old(storeAllCount) - 1 else old(storeAllCount))
      ensures 1000 * (old(storeAllCount) - old(storeEmptyCount)) <= 1618 * old(storeAllCount) ==>
                && rc == 0 && storeEmpty == store && store.next == old(storeEmpty)
                && storeEmptyCount == old(storeEmptyCount) + 1 && storeAllCount == old(storeAllCount)
    {
      if TooMany(storeAllCount, storeEmptyCount) {
        if !hookOk {
          return -1;
        }
        log := log + [Returned(store.id)] + [Freed(store.id)];
        storeAllCount := storeAllCount - 1;
      } else {
        store.next := storeEmpty;
        storeEmpty := store;
        storeEmptyCount := storeEmptyCount + 1;
        StoreChainPush(store.next, spine, pool.free, store);
        spine := [store] + spine;
        log := log + [Returned(store.id)];
      }
      return 0;
    }

    /** The loop of fra_end_free, over the cached stores; hookOk says which of the hooks succeed. */
    method FreeStores(hookOk: nat -> bool, ghost pool: Pool) returns (rc: int)
      requires Shows(pool)
      modifies this
      ensures Shows(FreeEach(pool, hookOk, 0).0) && rc == FreeEach(pool, hookOk, 0).1
    {
      ghost var p := pool;
      var k := 0;
      while storeEmpty != null
        invariant Shows(p) && FreeEach(p, hookOk, k) == FreeEach(pool, hookOk, 0)
        decreases |p.free|
      {
        StoreChainPop(storeEmpty, spine, p.free);
        var cur := storeEmpty;
        storeEmpty := storeEmpty.next;
        spine := spine[1..];
        if !hookOk(k) {
          return -1;
        }
        log := log + [Freed(cur.id)];
        p, k := p.(free := p.free[1..], log := p.log + [Freed(p.free[0])]), k + 1;
      }
      return 0;
    }
  }

  /** fra_end_free: the hook lists and the variable table are not part of this. */
  method EndFree(e: Endpoint?, hookOk: nat -> bool, ghost pool: Pool) returns (rc: int)
    requires e != null ==> e.Shows(pool)
    modifies e
    ensures e == null ==> rc == 0
    ensures e != null ==> e.Shows(FreeEach(pool, hookOk, 0).0) && rc == FreeEach(pool, hookOk, 0).1
  {
    if e != null {
      rc := e.FreeStores(hookOk, pool);
      return;
    }
    return 0;
  }

  class RequestObject {
    ghost const id: nat
    var next: RequestObject?
    var fcgxDefined: bool
    var endpoint: Endpoint?
    var endpointStore: Store?

    constructor (ghost id: nat)
      ensures this.id == id && endpoint == null
    {
      this.id := id;
      next, endpoint, endpointStore, fcgxDefined := null, null, null, false;
    }
  }

  /** As StoreChain, for requests. */
  ghost predicate RequestChain(head: RequestObject?, spine: seq<RequestObject>, ids: seq<nat>)
    reads (set r: RequestObject | r in spine)`next
  {
    && |spine| == |ids|
    && head == (if |spine| > 0 then spine[0] else null)
    && forall i :: 0 <= i < |spine| ==> RequestLink(spine, ids, i)
  }

  ghost predicate RequestLink(spine: seq<RequestObject>, ids: seq<nat>, i: nat)
    requires i < |spine| == |ids|
    reads {spine[i]}`next
  {
    spine[i].id == ids[i] && spine[i].next == if i + 1 < |spine| then spine[i + 1] else null
  }

  lemma {:induction false} RequestChainPop(head: RequestObject, spine: seq<RequestObject>, ids: seq<nat>)
    requires RequestChain(head, spine, ids)
    ensures spine != [] && head == spine[0] && head.id == ids[0] && RequestChain(head.next, spine[1..], ids[1..])
  {
    assert RequestLink(spine, ids, 0);
    forall i | 0 <= i < |spine| - 1
      ensures RequestLink(spine[1..], ids[1..], i)
    {
      assert RequestLink(spine, ids, i + 1);
    }
  }

  lemma {:induction false} RequestChainPush(head: RequestObject?, spine: seq<RequestObject>, ids: seq<nat>,
      r: RequestObject)
    requires RequestChain(head, spine, ids) && r.next == head
    ensures RequestChain(r, [r] + spine, [r.id] + ids)
  {
    forall i | 0 <= i <= |spine|
      ensures RequestLink([r] + spine, [r.id] + ids, i)
    {
      if i > 0 {
        assert RequestLink(spine, ids, i - 1);
      }
    }
  }

  lemma {:induction false} StoreChainIds(head: Store?, spine: seq<Store>, ids: seq<nat>)
    requires StoreChain(head, spine, ids)
    ensures forall s :: s in spine ==> s.id in ids
  {
    forall s | s in spine
      ensures s.id in ids
    {
      var i :| 0 <= i < |spine| && spine[i] == s;
      assert StoreLink(spine, ids, i);
    }
  }

  lemma {:induction false} RequestChainIds(head: RequestObject?, spine: seq<RequestObject>, ids: seq<nat>)
    requires RequestChain(head, spine, ids)
    ensures forall r :: r in spine ==> r.id in ids
  {
    forall r | r in spine
      ensures r.id in ids
    {
      var i :| 0 <= i < |spine| && spine[i] == r;
      assert RequestLink(spine, ids, i);
    }
  }

  const MAX_VERB_LENGTH := 50
  const MAX_URL_LENGTH := 512

  /** Everything that happens outside while one request is handled: which hooks succeed, whether
      memory is there, and what arrives over FastCGI. */
  datatype Env = Env(
    pollIn: bool, incomingOk: bool,
    mallocOk: bool, createdOk: bool, beforeFcgxOk: bool,
    acceptOk: bool, verb: Option<seq<Byte>>, uri: Option<seq<Byte>>, beforeEndpointOk: bool,
    storeCreatedOk: bool, newOk: bool,
    storeFreeOk: bool, freeOk: bool)

  /** set_param: the parameter has to be there and shorter than mlen. */
  method SetParam(param: Option<seq<Byte>>, mlen: nat) returns (rc: int, target: seq<Byte>)
    ensures rc == if param.Some? && |param.value| < mlen then 0 else -1
    ensures rc == 0 ==> target == param.value
  {
    if param.None? {
      return -1, [];
    }
    // strnlen
    var slen := if |param.value| < mlen then |param.value| else mlen;
    if !(slen < mlen) {
      return -1, [];
    }
    return 0, param.value[..slen];
  }

  /** The question mark. */
  const MARK: Byte := 63

  /** The place of the first question mark from i on, or the length. */
  function MarkFrom(uri: seq<Byte>, i: nat): (p: nat)
    requires i <= |uri|
    ensures i <= p <= |uri| && (p < |uri| ==> uri[p] == MARK) && forall j :: i <= j < p ==> uri[j] != MARK
    decreases |uri| - i
  {
    if i == |uri| || uri[i] == MARK then i else MarkFrom(uri, i + 1)
  }

  /** The part of a URI before the first question mark. */
  function BaseOf(uri: seq<Byte>): seq<Byte> {
    uri[..MarkFrom(uri, 0)]
  }

  /** What the base of a URI is, in terms of the URI: a beginning of it without a question mark, after
      which it ends or goes on with one. */
  lemma {:induction false} BaseIff(url: seq<Byte>, uri: seq<Byte>)
    ensures url == BaseOf(uri) <==> url <= uri && 63 !in url && (url == uri || uri[|url|] == 63)
  {
    var p := MarkFrom(uri, 0);
    if url <= uri && 63 !in url && (url == uri || uri[|url|] == 63) {
      assert forall i :: 0 <= i < |url| ==> uri[i] == url[i] && uri[i] != 63;
      assert |url| == p;
    }
  }

  /** set_url: splits the request URI at its first question mark. */
  method SetUrl(param: Option<seq<Byte>>) returns (rc: int, url: seq<Byte>, base: seq<Byte>, query: seq<Byte>)
    ensures rc == if param.Some? && |param.value| <= 512 then 0 else -1
    ensures rc == 0 ==> url == param.value && url == base + query && base == BaseOf(url)
    ensures rc == 0 ==> 63 !in base && (query != [] ==> query[0] == 63)
  {
    url, base, query := [], [], [];
    if param.None? {
      return -1, url, base, query;
    }
    var data := param.value;
    var split := -1;
    var i := 0;
    while i < |data|
      invariant 0 <= i <= |data| && i <= MAX_URL_LENGTH
      invariant if split == -1 then MarkFrom(data, 0) >= i else split == MarkFrom(data, 0) < i
    {
      if !(i < MAX_URL_LENGTH) {
        return -1, url, base, query;
      }
      if data[i] == MARK && split == -1 {
        split := i;
      }
      i := i + 1;
    }
    url := data;
    if split == -1 {
      base := data;
    } else {
      base, query := data[..split], data[split..];
    }
    rc := 0;
  }

  /** Every step from accepting a request up to the lookup of its endpoint succeeds. */
  predicate Accepted(env: Env) {
    && env.acceptOk
    && env.verb.Some? && |env.verb.value| < MAX_VERB_LENGTH
    && env.uri.Some? && |env.uri.value| <= MAX_URL_LENGTH
    && env.beforeEndpointOk
  }

  /** Where requests go: the router, whose endpoints are numbers into a list, and what is registered. */
  datatype Site = Site(router: R.Router, endpoints: seq<Endpoint>, ghost routes: seq<Route>,
    ghost chains: seq<seq<R.Url>>)

  ghost predicate SiteValid(site: Site)
    reads site.router, site.router.urls, site.router.urls.buck
    reads set i | 0 <= i < site.router.urls.buck.Length :: site.router.urls.buck[i].el
    reads R.NodesOf(site.chains)
  {
    && site.router.Shows(site.routes, site.chains)
    && forall j :: 0 <= j < |site.routes| ==> site.routes[j].endpoint < |site.endpoints|
  }

  /** The endpoint of a request that has been accepted: that of the first registration of exactly its
      verb and its URL up to the question mark. */
  ghost function RoutedTo(env: Env, site: Site): Endpoint?
    requires Accepted(env)
  {
    var e := Lookup(site.routes, env.verb.value, BaseOf(env.uri.value));
    if e.Some? && e.value < |site.endpoints| then site.endpoints[e.value] else null
  }

  /** Which registration a verb and a URI lead to, in terms of the URI. */
  lemma {:induction false} RouteTaken(routes: seq<Route>, verb: seq<Byte>, uri: seq<Byte>) returns (j: nat)
    ensures j <= |routes|
    ensures forall i :: 0 <= i <= j && i < |routes| ==>
              (i == j <==>
               && routes[i].verb == verb && routes[i].url <= uri && 63 !in routes[i].url
               && (routes[i].url == uri || uri[|routes[i].url|] == 63))
    ensures |verb| < 50 && |uri| <= 512 ==>
              Lookup(routes, verb, BaseOf(uri)) == if j < |routes| then Some(routes[j].endpoint) else None
  {
    j := 0;
    while j < |routes| && !(routes[j].verb == verb && routes[j].url == BaseOf(uri))
      invariant j <= |routes|
      invariant forall i :: 0 <= i < j ==> !(routes[i].verb == verb && routes[i].url == BaseOf(uri))
    {
      j := j + 1;
    }
    if |verb| < 50 && |uri| <= 512 {
      LookupIs(routes, verb, BaseOf(uri), j);
    }
    forall i | 0 <= i <= j && i < |routes|
      ensures i == j <==>
              && routes[i].verb == verb && routes[i].url <= uri && 63 !in routes[i].url
              && (routes[i].url == uri || uri[|routes[i].url|] == 63)
    {
      BaseIff(routes[i].url, uri);
    }
  }

  /** The object that the next to ask for one gets, if it gets one. */
  function Taken(p: Pool): nat {
    if p.free != [] then p.free[0] else p.next
  }

  /** Every step up to accepting a request succeeds. */
  predicate Started(env: Env, requests: Pool) {
    && env.pollIn && env.incomingOk
    && (requests.free != [] || (env.mallocOk && env.createdOk)) && env.beforeFcgxOk
  }

  /** There is an endpoint with a store, and the NEW hook succeeds. */
  predicate Served(env: Env, found: bool, stores: Pool) {
    found && (stores.free != [] || env.storeCreatedOk) && env.newOk
  }

  /** Every step succeeds. */
  predicate Succeeds(env: Env, requests: Pool, found: bool, stores: Pool) {
    Started(env, requests) && Accepted(env) && Served(env, found, stores)
  }

  /** What becomes of the requests when one is asked for, if it gets as far as that. */
  function Begun(env: Env, requests: Pool): (Pool, Option<nat>) {
    if env.pollIn && env.incomingOk then Acquire(requests, env.mallocOk, env.createdOk) else (requests, None)
  }

  /** The requests after one has been handled: one was taken and given back. */
  function RequestsAfter(env: Env, requests: Pool): Pool {
    var begun := Begun(env, requests);
    if begun.1.None? then begun.0 else Release(begun.0, begun.1.value, env.freeOk).0
  }

  /** How far it gets, by what becomes of the requests. */
  lemma {:induction false} HandlingIs(env: Env, requests: Pool)
    ensures var begun := Begun(env, requests);
            && (Started(env, requests) <==> begun.1.Some? && env.beforeFcgxOk)
            && RequestsAfter(env, requests) ==
               if begun.1.Some? then Release(begun.0, begun.1.value, env.freeOk).0 else begun.0
  {}

  /** A store is taken and given back. */
  function StoreUsed(env: Env, stores: Pool): Pool {
    Release(Acquire(stores, true, env.storeCreatedOk).0, Taken(stores), env.storeFreeOk).0
  }

  /** The stores of the endpoint after one request has been handled. */
  function StoresAfter(env: Env, requests: Pool, stores: Pool): Pool {
    if Started(env, requests) && Accepted(env) then StoreUsed(env, stores) else stores
  }

  /** What becomes of the stores that a request uses: the first one is handed out again, or a new one is
      made, and either way it ends up first on the list. */
  lemma {:induction false} StoreUsedIs(env: Env, p: Pool)
    requires Linked(p, 0)
    ensures var used := StoreUsed(env, p);
            if p.free != [] then
              && used.free == p.free && used.emptyCount == p.emptyCount && used.allCount == p.allCount
              && used.log == p.log + [Handed(p.free[0]), Returned(p.free[0])]
            else
              && used.free == [p.next] && used.emptyCount == p.emptyCount + 1
              && used.allCount == (if env.storeCreatedOk then p.allCount + 1 else p.allCount)
              && used.log ==
                 p.log + [Created(p.next), if env.storeCreatedOk then Handed(p.next) else Dropped(p.next),
                          Returned(p.next)]
  {
    AcquireKeepsLinked(p, 0, true, env.storeCreatedOk);
    NeverTooMany(Acquire(p, true, env.storeCreatedOk).0, 0);
  }

  /** What becomes of the requests when one is handled: the first one is handed out again, or a new one
      is made and ends up on the list unless its CREATED hook fails. */
  lemma {:induction false} RequestsAfterIs(env: Env, p: Pool, stale: nat)
    requires Linked(p, stale)
    ensures var after := RequestsAfter(env, p);
            if !env.pollIn || !env.incomingOk || (p.free == [] && !env.mallocOk) then after == p
            else if p.free != [] then
              && after.free == p.free && after.emptyCount == p.emptyCount && after.allCount == p.allCount
              && after.log == p.log + [Handed(p.free[0]), Returned(p.free[0])]
            else if env.createdOk then
              && after.free == [p.next] && after.emptyCount == p.emptyCount + 1 && after.allCount == p.allCount + 1
              && after.log == p.log + [Created(p.next), Handed(p.next), Returned(p.next)]
            else
              && after.free == [] && after.emptyCount == p.emptyCount && after.allCount == p.allCount
              && after.log == p.log + [Created(p.next), Dropped(p.next)]
  {
    AcquireKeepsLinked(p, stale, env.mallocOk, env.createdOk);
    NeverTooMany(Begun(env, p).0, stale);
  }

  /** What has gone over FastCGI: attempts to accept, finishes, and error bodies. */
  datatype Wire = Wire(accepts: nat, finishes: nat, bodies500: nat)

  /** One more request answered: accepted once, finished once, with the error body unless rc is 0. */
  function OneMore(w: Wire, rc: int): Wire {
    Wire(w.accepts + 1, w.finishes + 1, w.bodies500 + if rc == 0 then 0 else 1)
  }

  /** The static variables of src/req.c, and counters of what goes out over FastCGI. */
  class Server {
    var emptyReq: RequestObject?
    var emptyCount: int
    var allCount: int

    ghost var wire: Wire
    ghost var spine: seq<RequestObject>
    ghost var log: seq<Event>

    /** The cached requests, the counters and what has happened to the requests are those of a pool. */
    ghost predicate Shows(pool: Pool)
      reads this, spine
    {
      && RequestChain(emptyReq, spine, pool.free)
      && emptyCount == pool.emptyCount && allCount == pool.allCount && log == pool.log
    }

    /** The requests on the free list come from there or were allocated in between. */
    twostate predicate Grown()
      reads this
    {
      forall r :: r in spine ==> r in old(spine) || fresh(r)
    }

    constructor ()
      ensures Shows(Fresh(0)) && wire == Wire(0, 0, 0)
    {
      emptyReq, emptyCount, allCount := null, 0, 0;
      wire := Wire(0, 0, 0);
      spine, log := [], [];
    }

    /** fra_p_req_init: forgets the cached requests, but not how many there were. */
    method Init(ghost pool: Pool)
      requires Shows(pool)
      modifies `emptyReq, `spine
      ensures Shows(pool.(free := []))
    {
      emptyReq := null;
      spine := [];
    }

    /** fra_p_req_deinit: frees the cached requests, whatever their FREE hooks return. */
    method Deinit(ghost pool: Pool)
      requires Shows(pool)
      modifies this, spine
      ensures Shows(FreeAll(pool))
      ensures wire == old(wire) && forall r :: r in old(spine) ==> r.endpoint == null
    {
      ghost var p := pool;
      while emptyReq != null
        invariant Shows(p) && FreeAll(p) == FreeAll(pool) && wire == old(wire)
        invariant forall r :: r in spine ==> r in old(spine)
        invariant forall r :: r in old(spine) ==> r in spine || r.endpoint == null
        decreases |p.free|
      {
        RequestChainPop(emptyReq, spine, p.free);
        var cur := emptyReq;
        assert cur in spine && forall r :: r in spine ==> r == cur || r in spine[1..];
        emptyReq := emptyReq.next;
        spine := spine[1..];
        cur.endpoint := null;
        log := log + [Freed(cur.id)];
        p := p.(free := p.free[1..], log := p.log + [Freed(p.free[0])]);
      }
    }

    /** get_req: null if there is no memory or the CREATED hook fails. */
    method GetReq(mallocOk: bool, hookOk: bool, ghost pool: Pool) returns (cur: RequestObject?)
      requires Shows(pool)
      modifies `emptyReq, `emptyCount, `allCount, `spine, `log
      ensures Shows(Acquire(pool, mallocOk, hookOk).0)
      ensures Acquire(pool, mallocOk, hookOk).1 == if cur == null then None else Some(cur.id)
      ensures cur != null ==> fresh(cur) || cur in old(spine)
      ensures forall r :: r in spine ==> r in old(spine)
      ensures old(emptyReq) == null ==>
                && (cur != null <==> mallocOk && hookOk) && emptyReq == null && emptyCount == old(emptyCount)
                && allCount == (if cur != null then old(allCount) + 1 else old(allCount))
      ensures old(emptyReq) != null ==>
                && cur == old(emptyReq) && emptyReq == old(emptyReq.next)
                && emptyCount == old(emptyCount) - 1 && allCount == old(allCount)
    {
      if emptyReq == null {
        if !mallocOk {
          return null;
        }
        cur := new RequestObject(pool.next);
        log := log + [Created(cur.id)];
        if !hookOk {
          log := log + [Dropped(cur.id)];
          return null;
        }
        allCount := allCount + 1;
        log := log + [Handed(cur.id)];
      } else {
        RequestChainPop(emptyReq, spine, pool.free);
        cur := emptyReq;
        emptyReq := cur.next;
        emptyCount := emptyCount - 1;
        spine := spine[1..];
        log := log + [Handed(cur.id)];
      }
    }

    /** get_req: the request it gives out is not on the free list. */
    method TakeReq(env: Env, ghost pool: Pool) returns (req: RequestObject?)
      requires Shows(pool) && Separate(pool)
      modifies `emptyReq, `emptyCount, `allCount, `spine, `log
      ensures Shows(Acquire(pool, env.mallocOk, env.createdOk).0)
      ensures Acquire(pool, env.mallocOk, env.createdOk).1 == if req == null then None else Some(req.id)
      ensures req != null ==> (fresh(req) || req in old(spine)) && req !in spine
      ensures forall r :: r in spine ==> r in old(spine)
    {
      AcquireKeepsSeparate(pool, env.mallocOk, env.createdOk);
      if pool.free != [] {
        FirstOnce(pool.free);
      }
      req := GetReq(env.mallocOk, env.createdOk, pool);
      RequestChainIds(emptyReq, spine, Acquire(pool, env.mallocOk, env.createdOk).0.free);
    }

    /** The second half of req_maybe_free: frees the request or puts it first on the free list. */
    method Recycle(req: RequestObject, hookOk: bool, ghost pool: Pool) returns (rc: int)
      requires Shows(pool) && req !in spine
      modifies `emptyReq, `emptyCount, `allCount, `spine, `log, req`next
      ensures Shows(Release(pool, req.id, hookOk).0) && rc == Release(pool, req.id, hookOk).1
      ensures forall r :: r in spine ==> r in old(spine) || r == req
      ensures 1000 * (old(allCount) - old(emptyCount)) > 1618 * old(allCount) ==>
                && rc == (if hookOk then 0 else -1) && emptyReq == old(emptyReq) && emptyCount == old(emptyCount)
                && allCount == (if hookOk then old(allCount) - 1 else old(allCount))
      ensures 1000 * (old(allCount) - old(emptyCount)) <= 1618 * old(allCount) ==>
                && rc == 0 && emptyReq == req && req.next == old(emptyReq) && emptyCount == old(emptyCount) + 1
                && allCount == old(allCount)
    {
      if TooMany(allCount, emptyCount) {
        if !hookOk {
          return -1;
        }
        log := log + [Returned(req.id)] + [Freed(req.id)];
        allCount := allCount - 1;
      } else {
        req.next := emptyReq;
        emptyReq := req;
        emptyCount := emptyCount + 1;
        RequestChainPush(req.next, spine, pool.free, req);
        spine := [req] + spine;
        log := log + [Returned(req.id)];
      }
      return 0;
    }

    /** req_maybe_free: gives back the endpoint store, if there is an endpoint, and then the request.
        It cannot fail, since nothing is ever freed here: the counters never allow it. */
    method ReqMaybeFree(req: RequestObject, env: Env, ghost pool: Pool, ghost stale: nat, ghost stores: Pool,
        ghost taken: nat)
      requires Shows(pool) && Linked(pool, stale) && req !in spine
      requires req.endpoint != null ==>
                 && req.endpoint.Shows(stores) && Linked(stores, 0)
                 && req.endpointStore != null && req.endpointStore.id == taken
                 && req.endpointStore !in req.endpoint.spine
      modifies `emptyReq, `emptyCount, `allCount, `spine, `log, req`next
      modifies req.endpoint, if req.endpoint != null then {req.endpointStore} else {}
      ensures Shows(Release(pool, req.id, env.freeOk).0)
      ensures req.endpoint != null ==> req.endpoint.Shows(Release(stores, taken, env.storeFreeOk).0)
      ensures forall r :: r in spine ==> r in old(spine) || r == req
      ensures req.endpoint != null ==>
                forall s :: s in req.endpoint.spine ==> s in old(req.endpoint.spine) || s == req.endpointStore
    {
      var rc;
      if req.endpoint != null {
        ReleaseNeverFails(stores, 0, taken, env.storeFreeOk);
        rc := req.endpoint.StoreMaybeFree(req.endpointStore, env.storeFreeOk, stores);
        assert rc == 0;
      }
      ReleaseNeverFails(pool, stale, req.id, env.freeOk);
      rc := Recycle(req, env.freeOk, pool);
      assert rc == 0;
    }

    /** exit_request: accepts a request only to turn it away. */
    method ExitRequest()
      modifies `wire
      ensures wire == OneMore(old(wire), -1)
    {
      wire := wire.(accepts := wire.accepts + 1);
      wire := wire.(bodies500 := wire.bodies500 + 1);
      wire := wire.(finishes := wire.finishes + 1);
    }

    /** fra_p_req_handle_new.  Whatever fails, there is one attempt to accept and one finish, the error
        body goes out exactly when the result is -1, and no request stays in use. */
    method HandleNew(env: Env, site: Site, ghost routed: Endpoint?, ghost pool: Pool, ghost stale: nat,
        ghost stores: Pool)
      returns (rc: int)
      requires Shows(pool) && Separate(pool) && Linked(pool, stale)
      requires routed != null ==> routed.Shows(stores) && Separate(stores) && Linked(stores, 0)
      requires SiteValid(site) && (Accepted(env) ==> routed == RoutedTo(env, site))
      modifies this, spine, routed, if routed != null then set s | s in routed.spine else {}
      ensures rc == if Succeeds(env, pool, routed != null, stores) then 0 else -1
      ensures wire == OneMore(old(wire), rc)
      ensures Shows(RequestsAfter(env, pool))
      ensures routed != null ==> routed.Shows(StoresAfter(env, pool, stores))
      ensures Grown() && (routed != null ==> routed.Grown())
    {
      var req := Begin(env, pool);
      if req == null {
        ExitRequest();
        rc := -1;
      } else {
        rc := HandleBegun(req, env, site, routed, pool, stale, stores);
      }
    }

    /** The rest, once it has got a request. */
    method HandleBegun(req: RequestObject, env: Env, site: Site, ghost routed: Endpoint?, ghost pool: Pool,
        ghost stale: nat, ghost stores: Pool)
      returns (rc: int)
      requires Shows(Begun(env, pool).0) && Linked(pool, stale)
      requires Begun(env, pool).1 == Some(req.id) && req !in spine
      requires routed != null ==> routed.Shows(stores) && Separate(stores) && Linked(stores, 0)
      requires SiteValid(site) && (Accepted(env) ==> routed == RoutedTo(env, site))
      modifies this, req, routed, if routed != null then set s | s in routed.spine else {}
      ensures rc == if Succeeds(env, pool, routed != null, stores) then 0 else -1
      ensures wire == OneMore(old(wire), rc)
      ensures Shows(RequestsAfter(env, pool))
      ensures routed != null ==> routed.Shows(StoresAfter(env, pool, stores))
      ensures forall r :: r in spine ==> r in old(spine) || r == req
      ensures routed != null ==> routed.Grown()
    {
      HandlingIs(env, pool);
      AcquireKeepsLinked(pool, stale, env.mallocOk, env.createdOk);
      rc := HandleTaken(req, env, site, routed, Begun(env, pool).0, stale, stores);
    }

    /** The steps of fra_p_req_handle_new up to get_req. */
    method Begin(env: Env, ghost pool: Pool) returns (req: RequestObject?)
      requires Shows(pool) && Separate(pool)
      modifies `emptyReq, `emptyCount, `allCount, `spine, `log
      ensures Shows(Begun(env, pool).0)
      ensures Begun(env, pool).1 == if req == null then None else Some(req.id)
      ensures req == null ==> !Started(env, pool) && RequestsAfter(env, pool) == Begun(env, pool).0
      ensures req != null ==> (fresh(req) || req in old(spine)) && req !in spine
      ensures forall r :: r in spine ==> r in old(spine)
    {
      if !env.pollIn || !env.incomingOk {
        return null;
      }
      req := TakeReq(env, pool);
    }

    /** fra_p_req_handle_new from the point where it has a request. */
    method HandleTaken(req: RequestObject, env: Env, site: Site, ghost routed: Endpoint?, ghost pool: Pool,
        ghost stale: nat,
        ghost stores: Pool)
      returns (rc: int)
      requires Shows(pool) && Linked(pool, stale) && req !in spine
      requires routed != null ==> routed.Shows(stores) && Separate(stores) && Linked(stores, 0)
      requires SiteValid(site) && (Accepted(env) ==> routed == RoutedTo(env, site))
      modifies this, req, routed, if routed != null then set s | s in routed.spine else {}
      ensures rc == if env.beforeFcgxOk && Accepted(env) && Served(env, routed != null, stores) then 0 else -1
      ensures wire == OneMore(old(wire), rc)
      ensures req.fcgxDefined == (env.beforeFcgxOk && env.acceptOk)
      ensures Shows(Release(pool, req.id, env.freeOk).0)
      ensures routed != null ==>
                routed.Shows(if env.beforeFcgxOk && Accepted(env) then StoreUsed(env, stores) else stores)
      ensures forall r :: r in spine ==> r in old(spine) || r == req
      ensures routed != null ==> routed.Grown()
    {
      // reset_req
      req.fcgxDefined := false;
      req.endpoint := null;
      if env.beforeFcgxOk {
        rc := Process(req, env, site, routed, pool, stale, stores);
      } else {
        ReqMaybeFree(req, env, pool, stale, stores, 0);
        ExitRequest();
        rc := -1;
      }
    }

    /** fra_p_req_handle_new from the attempt to accept on. */
    method Process(req: RequestObject, env: Env, site: Site, ghost routed: Endpoint?, ghost pool: Pool,
        ghost stale: nat,
        ghost stores: Pool)
      returns (rc: int)
      requires Shows(pool) && Linked(pool, stale) && req !in spine && req.endpoint == null
      requires routed != null ==> routed.Shows(stores) && Separate(stores) && Linked(stores, 0)
      requires SiteValid(site) && (Accepted(env) ==> routed == RoutedTo(env, site))
      modifies this, req, routed, if routed != null then set s | s in routed.spine else {}
      ensures rc == if Accepted(env) && Served(env, routed != null, stores) then 0 else -1
      ensures wire == OneMore(old(wire), rc)
      ensures req.fcgxDefined == (env.acceptOk || old(req.fcgxDefined))
      ensures Shows(Release(pool, req.id, env.freeOk).0)
      ensures routed != null ==> routed.Shows(if Accepted(env) then StoreUsed(env, stores) else stores)
      ensures forall r :: r in spine ==> r in old(spine) || r == req
      ensures routed != null ==> routed.Grown()
    {
      rc := Answer(req, env, site, routed, stores);
      GiveBack(req, env, routed, pool, stale, stores);
    }

    /** req_maybe_free, after the request has been answered. */
    method GiveBack(req: RequestObject, env: Env, ghost routed: Endpoint?, ghost pool: Pool, ghost stale: nat,
        ghost stores: Pool)
      requires Shows(pool) && Linked(pool, stale) && req !in spine
      requires req.endpoint == null || req.endpoint == routed
      requires req.endpoint == null && routed != null ==> routed.Shows(stores)
      requires req.endpoint != null ==>
                 && req.endpoint.Shows(Acquire(stores, true, env.storeCreatedOk).0) && Linked(stores, 0)
                 && req.endpointStore != null && req.endpointStore.id == Taken(stores)
                 && req.endpointStore !in req.endpoint.spine
      modifies `emptyReq, `emptyCount, `allCount, `spine, `log, req`next
      modifies req.endpoint, if req.endpoint != null then {req.endpointStore} else {}
      ensures Shows(Release(pool, req.id, env.freeOk).0)
      ensures routed != null ==> routed.Shows(if req.endpoint != null then StoreUsed(env, stores) else stores)
      ensures forall r :: r in spine ==> r in old(spine) || r == req
      ensures routed != null ==>
                forall s :: s in routed.spine ==>
                  s in old(routed.spine) || (req.endpoint != null && s == req.endpointStore)
    {
      if req.endpoint != null {
        AcquireKeepsLinked(stores, 0, true, env.storeCreatedOk);
      }
      ReqMaybeFree(req, env, pool, stale, Acquire(stores, true, env.storeCreatedOk).0, Taken(stores));
    }

    /** fra_p_req_handle_new from the attempt to accept up to the finish. */
    method Answer(req: RequestObject, env: Env, site: Site, ghost routed: Endpoint?, ghost stores: Pool)
      returns (rc: int)
      requires req.endpoint == null
      requires routed != null ==> routed.Shows(stores) && Separate(stores)
      requires SiteValid(site) && (Accepted(env) ==> routed == RoutedTo(env, site))
      modifies `wire, req`fcgxDefined, req`endpoint, req`endpointStore, routed
      ensures rc == if Accepted(env) && Served(env, routed != null, stores) then 0 else -1
      ensures wire == OneMore(old(wire), rc)
      ensures req.fcgxDefined == (env.acceptOk || old(req.fcgxDefined))
      ensures req.endpoint == if Accepted(env) then routed else null
      ensures req.endpoint == null && routed != null ==> routed.Shows(stores)
      ensures req.endpoint != null ==> routed.Shows(Acquire(stores, true, env.storeCreatedOk).0)
      ensures req.endpoint != null ==> req.endpointStore != null && req.endpointStore.id == Taken(stores)
      ensures req.endpoint != null ==>
                req.endpointStore !in routed.spine
                && (req.endpointStore in old(routed.spine)
                   || (fresh(req.endpointStore) && req.endpointStore.home == routed))
      ensures routed != null ==> forall s :: s in routed.spine ==> s in old(routed.spine)
    {
      var ok := Serve(req, env, site, routed, stores);
      rc := if ok then 0 else -1;
      Respond(rc);
    }

    /** Writes the error body unless all went well, and finishes the request. */
    method Respond(rc: int)
      modifies `wire
      ensures wire == Wire(old(wire).accepts, old(wire).finishes + 1, old(wire).bodies500 + if rc == 0 then 0 else 1)
    {
      if rc != 0 {
        wire := wire.(bodies500 := wire.bodies500 + 1);
      }
      wire := wire.(finishes := wire.finishes + 1);
    }

    /** The steps of fra_p_req_handle_new between accepting a request and finishing it.  They come to
        an end at the first one that fails. */
    method Serve(req: RequestObject, env: Env, site: Site, ghost routed: Endpoint?, ghost stores: Pool)
      returns (ok: bool)
      requires req.endpoint == null
      requires routed != null ==> routed.Shows(stores) && Separate(stores)
      requires SiteValid(site) && (Accepted(env) ==> routed == RoutedTo(env, site))
      modifies `wire, req`fcgxDefined, req`endpoint, req`endpointStore, routed
      ensures wire == old(wire).(accepts := old(wire).accepts + 1)
      ensures ok <==> Accepted(env) && Served(env, routed != null, stores)
      ensures req.fcgxDefined == (env.acceptOk || old(req.fcgxDefined))
      ensures req.endpoint == if Accepted(env) then routed else null
      ensures req.endpoint == null && routed != null ==> routed.Shows(stores)
      ensures req.endpoint != null ==> routed.Shows(Acquire(stores, true, env.storeCreatedOk).0)
      ensures req.endpoint != null ==> req.endpointStore != null && req.endpointStore.id == Taken(stores)
      ensures req.endpoint != null ==>
                req.endpointStore !in routed.spine
                && (req.endpointStore in old(routed.spine)
                   || (fresh(req.endpointStore) && req.endpointStore.home == routed))
      ensures routed != null ==> forall s :: s in routed.spine ==> s in old(routed.spine)
    {
      var verb, base;
      ok, verb, base := Receive(req, env);
      if !ok {
        return;
      }
      var e := site.router.ToEndpoint(verb, base, site.routes, site.chains);
      if e.None? {
        return false;
      }
      LookupRegistered(site.routes, verb, base);
      req.endpoint := site.endpoints[e.value];
      var rc := SetStore(req, env.storeCreatedOk, stores);
      return rc == 0 && env.newOk;
    }

    /** Accepts a request and reads its verb and its URL. */
    method Receive(req: RequestObject, env: Env) returns (ok: bool, verb: seq<Byte>, base: seq<Byte>)
      modifies `wire, req`fcgxDefined
      ensures wire == old(wire).(accepts := old(wire).accepts + 1)
      ensures ok == Accepted(env)
      ensures ok <==>
              && env.acceptOk && env.verb.Some? && |env.verb.value| < 50 && env.uri.Some? && |env.uri.value| <= 512
              && env.beforeEndpointOk
      ensures ok ==> verb == env.verb.value && base == BaseOf(env.uri.value)
      ensures req.fcgxDefined == (env.acceptOk || old(req.fcgxDefined))
    {
      verb, base := [], [];
      wire := wire.(accepts := wire.accepts + 1);
      if !env.acceptOk {
        return false, verb, base;
      }
      req.fcgxDefined := true;
      var rc;
      rc, verb := SetParam(env.verb, MAX_VERB_LENGTH);
      if rc != 0 {
        return false, verb, base;
      }
      var url, query;
      rc, url, base, query := SetUrl(env.uri);
      if rc != 0 {
        return false, verb, base;
      }
      return env.beforeEndpointOk, verb, base;
    }

    /** fra_p_end_store_set: what the request gets is not on the free list. */
    method SetStore(req: RequestObject, hookOk: bool, ghost stores: Pool) returns (rc: int)
      requires req.endpoint != null && req.endpoint.Shows(stores) && Separate(stores)
      modifies req.endpoint, req`endpointStore
      ensures req.endpoint.Shows(Acquire(stores, true, hookOk).0)
      ensures req.endpointStore != null && req.endpointStore.id == Taken(stores)
      ensures req.endpointStore !in req.endpoint.spine
      ensures req.endpointStore in old(req.endpoint.spine)
              || (fresh(req.endpointStore) && req.endpointStore.home == req.endpoint)
      ensures forall s :: s in req.endpoint.spine ==> s in old(req.endpoint.spine)
      ensures rc == if stores.free != [] || hookOk then 0 else -1
    {
      var e := req.endpoint;
      AcquireKeepsSeparate(stores, true, hookOk);
      if stores.free != [] {
        FirstOnce(stores.free);
      }
      rc := e.StoreSet(req, true, hookOk, stores);
      StoreChainIds(e.storeEmpty, e.spine, Acquire(stores, true, hookOk).0.free);
    }
  }

  // ---------------------------------------------------------------- over any number of requests

  /** One request: what happens while it is handled, and whether its URL leads to the endpoint. */
  datatype Call = Call(env: Env, found: bool)

  /** The CREATED hook of a new store fails for this request. */
  predicate LosesStore(c: Call, requests: Pool, stores: Pool) {
    c.found && Started(c.env, requests) && Accepted(c.env) && stores.free == [] && !c.env.storeCreatedOk
  }

  /** The requests and the stores of one endpoint after handling requests one after the other. */
  function Session(requests: Pool, stores: Pool, calls: seq<Call>): (Pool, Pool) {
    if calls == [] then (requests, stores)
    else
      var (r, s) := Session(requests, stores, calls[..|calls| - 1]);
      var c := calls[|calls| - 1];
      (RequestsAfter(c.env, r), if c.found then StoresAfter(c.env, r, s) else s)
  }

  function Losses(requests: Pool, stores: Pool, calls: seq<Call>): nat {
    if calls == [] then 0
    else
      var front := calls[..|calls| - 1];
      var (r, s) := Session(requests, stores, front);
      Losses(requests, stores, front) + if LosesStore(calls[|calls| - 1], r, s) then 1 else 0
  }

  /** Handling a request keeps the requests in order and leaves none in use. */
  lemma {:induction false} HandlingKeepsRequests(env: Env, p: Pool, stale: nat)
    requires Inv(p, stale) && p.used == multiset{}
    ensures Inv(RequestsAfter(env, p), stale) && RequestsAfter(env, p).used == multiset{}
    ensures RequestsAfter(env, p).allCount <= if p.allCount > stale then p.allCount else stale + 1
  {
    AcquireKeepsInv(p, stale, env.mallocOk, env.createdOk);
    var begun := Begun(env, p);
    if begun.1.Some? {
      ReleaseKeepsInv(begun.0, stale, begun.1.value, env.freeOk);
      ReleaseNeverFails(begun.0, stale, begun.1.value, env.freeOk);
    }
  }

  /** A store is taken and given back in order, except when its CREATED hook fails. */
  lemma {:induction false} UsingKeepsStores(env: Env, p: Pool)
    requires Linked(p, 0) && p.used == multiset{}
    ensures Linked(StoreUsed(env, p), 0) && StoreUsed(env, p).used == multiset{}
    ensures StoreUsed(env, p).free != []
    ensures StoreUsed(env, p).emptyCount - StoreUsed(env, p).allCount ==
            p.emptyCount - p.allCount + if p.free == [] && !env.storeCreatedOk then 1 else 0
    ensures Inv(p, 0) && (p.free != [] || env.storeCreatedOk) ==> Inv(StoreUsed(env, p), 0)
  {
    var got := Acquire(p, true, env.storeCreatedOk).0;
    ReleaseNeverFails(got, 0, Taken(p), env.storeFreeOk);
    if Inv(p, 0) && (p.free != [] || env.storeCreatedOk) {
      AcquireKeepsInv(p, 0, true, env.storeCreatedOk);
      ReleaseKeepsInv(got, 0, Taken(p), env.storeFreeOk);
    }
  }

  /** In either case no store gets onto the free list twice. */
  lemma {:induction false} UsingKeepsSeparate(env: Env, p: Pool)
    requires Linked(p, 0) && p.used == multiset{} && Separate(p)
    ensures Separate(StoreUsed(env, p))
  {
    var got := Acquire(p, true, env.storeCreatedOk).0;
    AcquireKeepsSeparate(p, true, env.storeCreatedOk);
    ReleaseNeverFails(got, 0, Taken(p), env.storeFreeOk);
    if p.free != [] {
      FirstOnce(p.free);
      assert StoreUsed(env, p).free == p.free;
    }
  }

  /** Whatever fails over any number of requests handled one after the other, every request object is
      cached in between, and there is never more than one.  The endpoint's stores are in order exactly
      as long as no CREATED hook of a store has failed; such a failure is counted for good, and it can
      happen only once, since from then on the dead store is handed out again and again. */
  lemma {:induction false} SessionKeepsPools(calls: seq<Call>, stale: nat)
    ensures var (r, s) := Session(Fresh(stale), Fresh(0), calls);
            var lost := Losses(Fresh(stale), Fresh(0), calls);
            && Inv(r, stale) && r.used == multiset{} && r.allCount <= stale + 1
            && Linked(s, 0) && Separate(s) && s.used == multiset{}
            && s.emptyCount == s.allCount + lost && lost <= 1 && (lost == 1 ==> s.free != [])
            && (Inv(s, 0) <==> lost == 0)
  {
    if calls == [] {
      FreshIsInv(stale);
      FreshIsInv(0);
    } else {
      var front, c := calls[..|calls| - 1], calls[|calls| - 1];
      SessionKeepsPools(front, stale);
      var (r, s) := Session(Fresh(stale), Fresh(0), front);
      HandlingKeepsRequests(c.env, r, stale);
      UsingKeepsStores(c.env, s);
      UsingKeepsSeparate(c.env, s);
    }
  }

  /** What has happened to the stores of an endpoint between two requests.  There is at most one, which
      was created once and has not been freed, but has been deallocated if its CREATED hook failed. */
  ghost predicate Accounted(stores: Pool, lost: nat) {
    && stores.next <= 1 && lost <= stores.next && stores.free == (if stores.next == 0 then [] else [0])
    && HooksRan(stores.log, stores.next, lost)
  }

  ghost predicate HooksRan(log: seq<Event>, created: nat, dropped: nat) {
    forall id: nat :: CountsAre(log, id, created, 0, dropped)
  }

  /** How often each hook has run for object 0, and none for any other. */
  predicate CountsAre(log: seq<Event>, id: nat, created: nat, freed: nat, dropped: nat) {
    && Count(log, Created(id)) == (if id == 0 then created else 0)
    && Count(log, Freed(id)) == (if id == 0 then freed else 0)
    && Count(log, Dropped(id)) == (if id == 0 then dropped else 0)
  }

  lemma {:induction false} CountsNext(log: seq<Event>, e: Event, id: nat, created: nat, freed: nat, dropped: nat)
    requires CountsAre(log, id, created, freed, dropped) && e.id == 0
    ensures CountsAre(log + [e], id, created + if e.Created? then 1 else 0, freed + if e.Freed? then 1 else 0,
              dropped + if e.Dropped? then 1 else 0)
  {
    CountOne(log, e, Created(id));
    CountOne(log, e, Freed(id));
    CountOne(log, e, Dropped(id));
  }

  /** A store that was there is used once more. */
  lemma {:induction false} CountsAgain(log: seq<Event>, id: nat, lost: nat)
    requires CountsAre(log, id, 1, 0, lost)
    ensures CountsAre(log + [Handed(0)] + [Returned(0)], id, 1, 0, lost)
  {
    CountsNext(log, Handed(0), id, 1, 0, lost);
    CountsNext(log + [Handed(0)], Returned(0), id, 1, 0, lost);
  }

  /** The first use of a store. */
  lemma {:induction false} CountsFirst(log: seq<Event>, id: nat, ok: bool)
    requires CountsAre(log, id, 0, 0, 0)
    ensures ok ==> CountsAre(log + [Created(0)] + [Handed(0)] + [Returned(0)], id, 1, 0, 0)
    ensures !ok ==> CountsAre(log + [Created(0)] + [Dropped(0)] + [Returned(0)], id, 1, 0, 1)
  {
    var e := if ok then Handed(0) else Dropped(0);
    CountsNext(log, Created(0), id, 0, 0, 0);
    CountsNext(log + [Created(0)], e, id, 1, 0, 0);
    CountsNext(log + [Created(0)] + [e], Returned(0), id, 1, 0, if ok then 0 else 1);
  }

  lemma {:induction false} UsingKeepsAccount(env: Env, p: Pool, lost: nat)
    requires Linked(p, 0) && Accounted(p, lost)
    ensures Accounted(StoreUsed(env, p), lost + if p.free == [] && !env.storeCreatedOk then 1 else 0)
  {
    NeverTooMany(Acquire(p, true, env.storeCreatedOk).0, 0);
    var used, lost' := StoreUsed(env, p), lost + if p.free == [] && !env.storeCreatedOk then 1 else 0;
    forall id: nat
      ensures CountsAre(used.log, id, 1, 0, lost')
    {
      assert CountsAre(p.log, id, p.next, 0, lost);
      if p.free != [] {
        CountsAgain(p.log, id, lost);
      } else {
        CountsFirst(p.log, id, env.storeCreatedOk);
      }
    }
  }

  lemma {:induction false} SessionAccounts(calls: seq<Call>, stale: nat)
    ensures Accounted(Session(Fresh(stale), Fresh(0), calls).1, Losses(Fresh(stale), Fresh(0), calls))
  {
    if calls != [] {
      var front, c := calls[..|calls| - 1], calls[|calls| - 1];
      var (r, s) := Session(Fresh(stale), Fresh(0), front);
      SessionAccounts(front, stale);
      SessionKeepsPools(front, stale);
      UsingKeepsAccount(c.env, s, Losses(Fresh(stale), Fresh(0), front));
    }
  }

  /** What has become of the stores of an endpoint once it is gone.  Each was created at most once, and
      then deallocated once more for a CREATED hook that failed and once less for a FREE hook that did. */
  ghost predicate Settled(log: seq<Event>, lost: nat, rc: int) {
    forall id: nat :: SettledOne(Count(log, Created(id)), Deallocations(log, id), lost, rc)
  }

  predicate SettledOne(created: nat, deallocations: nat, lost: nat, rc: int) {
    || (created == 0 && deallocations == 0)
    || (created == 1 && deallocations == lost + if rc == 0 then 1 else 0)
  }

  /** The loop of fra_end_free when there is one store. */
  lemma {:induction false} FreeEachOne(p: Pool, hookOk: nat -> bool)
    requires |p.free| == 1
    ensures FreeEach(p, hookOk, 0).1 == if hookOk(0) then 0 else -1
    ensures FreeEach(p, hookOk, 0).0.log == if hookOk(0) then p.log + [Freed(p.free[0])] else p.log
  {
    if hookOk(0) {
      var rest := p.(free := p.free[1..], log := p.log + [Freed(p.free[0])]);
      assert FreeEach(rest, hookOk, 1) == (rest, 0);
    }
  }

  lemma {:induction false} FreeEachSettles(p: Pool, hookOk: nat -> bool, lost: nat)
    requires Accounted(p, lost)
    ensures var (end, rc) := FreeEach(p, hookOk, 0);
            && Settled(end.log, lost, rc)
            && rc == if Count(end.log, Created(0)) == 0 || hookOk(0) then 0 else -1
  {
    var end := FreeEach(p, hookOk, 0);
    var freed := if p.next == 1 && hookOk(0) then 1 else 0;
    if p.next == 1 {
      FreeEachOne(p, hookOk);
    }
    forall id: nat
      ensures SettledOne(Count(end.0.log, Created(id)), Deallocations(end.0.log, id), lost, end.1)
    {
      assert CountsAre(p.log, id, p.next, 0, lost);
      CountsNext(p.log, Freed(0), id, p.next, 0, lost);
      assert CountsAre(end.0.log, id, p.next, freed, lost);
    }
    assert CountsAre(p.log, 0, p.next, 0, lost);
    CountsNext(p.log, Freed(0), 0, p.next, 0, lost);
  }
}
