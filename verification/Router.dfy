/** The router of src/url.c: a hash table of URLs, and behind each URL a chain of verbs. */
module Router {
  import opened Wrappers
  import opened Words
  import opened Memory
  import opened HashSpec
  import opened HashTable
  import opened RouteSpec

  /** struct url.  The first node of a chain is part of the table; the others are allocated. */
  class Url {
    const verb: Bstring
    const e: nat
    var next: Url?

    // the number of the chain, and the place in it
    ghost const chain: nat
    ghost const place: nat

    constructor (verb: Bstring, e: nat, ghost chain: nat, ghost place: nat)
      ensures this.verb == verb && this.e == e && next == null && this.chain == chain && this.place == place
    {
      this.verb, this.e, this.chain, this.place, next := verb, e, chain, place, null;
    }
  }

  /** A node owns its verb and, unless it is part of the table, itself. */
  ghost function NodeOwns(n: Url): multiset<object> {
    if n.place > 0 then multiset{n.verb} + multiset{n} else multiset{n.verb}
  }

  ghost function ChainOwns(chain: seq<Url>): multiset<object> {
    Sum(chain, NodeOwns)
  }

  /** The i-th node of chain k is linked to the next one and holds the i-th registration of its URL. */
  ghost predicate NodeValid(chain: seq<Url>, registered: seq<Route>, k: nat, i: nat)
    requires i < |chain| == |registered|
    reads chain[i]
  {
    var n := chain[i];
    && n.chain == k && n.place == i
    && n.next == (if i + 1 < |chain| then chain[i + 1] else null)
    && n.verb.data == registered[i].verb && n.e == registered[i].endpoint
  }

  ghost predicate ChainValid(chain: seq<Url>, head: Url, registered: seq<Route>, k: nat)
    reads chain
  {
    && |chain| == |registered| > 0 && chain[0] == head
    && forall i :: 0 <= i < |chain| ==> NodeValid(chain, registered, k, i)
  }

  ghost predicate KeysDiffer(log: seq<Element<Url>>, j: nat, k: nat)
    requires j < |log| && k < |log|
  {
    log[j].key.data != log[k].key.data
  }

  /** Some entry of the table has this key. */
  ghost predicate HasKey(log: seq<Element<Url>>, url: Text) {
    exists k :: 0 <= k < |log| && log[k].key.data == url
  }

  lemma {:induction false} FirstMatchFinds(log: seq<Element<Url>>, url: Text) returns (k: nat)
    ensures FirstMatch(log, url).Some? <==> HasKey(log, url)
    ensures HasKey(log, url) ==> k < |log| && log[k].key.data == url && FirstMatch(log, url) == Some(log[k].value)
  {
    k := 0;
    while k < |log| && log[k].key.data != url
      invariant k <= |log| && forall i :: 0 <= i < k ==> log[i].key.data != url
    {
      k := k + 1;
    }
    FirstMatchIs(log, url, k);
  }

  /** The nodes that have come in are new. */
  twostate predicate Grown(chains: seq<seq<Url>>, new chains': seq<seq<Url>>) {
    forall n :: n in NodesOf(chains') ==> n in NodesOf(chains) || fresh(n)
  }

  lemma {:induction false} NodesEntry(chains: seq<seq<Url>>, head: Url)
    ensures forall n :: n in NodesOf(chains + [[head]]) ==> n in NodesOf(chains) || n == head
  {}

  lemma {:induction false} NodesAppend(chains: seq<seq<Url>>, k: nat, node: Url)
    requires k < |chains|
    ensures forall n :: n in NodesOf(chains[k := chains[k] + [node]]) ==> n in NodesOf(chains) || n == node
  {}

  ghost function NodesOf(chains: seq<seq<Url>>): set<Url> {
    set k, i | 0 <= k < |chains| && 0 <= i < |chains[k]| :: chains[k][i]
  }

  /** Behind every entry of the table is the chain of the registrations of its URL, and every
      registration has its entry. */
  ghost predicate Links(log: seq<Element<Url>>, chains: seq<seq<Url>>, routes: seq<Route>)
    reads NodesOf(chains)
  {
    && |chains| == |log|
    && (forall k :: 0 <= k < |chains| ==> EntryValid(log, chains, routes, k))
    && (forall j, k :: 0 <= j < k < |log| ==> KeysDiffer(log, j, k))
    && (forall j :: 0 <= j < |routes| ==> HasKey(log, routes[j].url))
  }

  ghost predicate EntryValid(log: seq<Element<Url>>, chains: seq<seq<Url>>, routes: seq<Route>, k: nat)
    requires k < |chains| == |log|
    reads chains[k]
  {
    ChainValid(chains[k], log[k].value, OfUrl(routes, log[k].key.data), k)
  }

  lemma {:induction false} HasKeyIffRegistered(log: seq<Element<Url>>, chains: seq<seq<Url>>,
      routes: seq<Route>, url: Text)
    requires Links(log, chains, routes)
    ensures HasKey(log, url) <==> OfUrl(routes, url) != []
  {
    if HasKey(log, url) {
      var k :| 0 <= k < |log| && log[k].key.data == url;
      assert EntryValid(log, chains, routes, k);
    } else {
      OfUrlNone(routes, url);
    }
  }

  /** No chain but the k-th has the last node of the k-th. */
  lemma {:induction false} OnlyOnce(log: seq<Element<Url>>, chains: seq<seq<Url>>, routes: seq<Route>, k: nat)
    requires Links(log, chains, routes) && k < |chains|
    ensures chains[k] != []
    ensures forall j :: 0 <= j < |chains| && j != k ==> chains[k][|chains[k]| - 1] !in chains[j]
    ensures forall i :: 0 <= i < |chains[k]| - 1 ==> chains[k][i] != chains[k][|chains[k]| - 1]
  {
    var last := |chains[k]| - 1;
    assert EntryValid(log, chains, routes, k);
    assert NodeValid(chains[k], OfUrl(routes, log[k].key.data), k, last);
    forall j, i | 0 <= j < |chains| && 0 <= i < |chains[j]| && (j != k || i != last)
      ensures chains[j][i] != chains[k][last]
    {
      assert EntryValid(log, chains, routes, j);
      assert NodeValid(chains[j], OfUrl(routes, log[j].key.data), j, i);
    }
  }

  /** A new entry with a chain of one. */
  lemma {:induction false} LinksEntry(log: seq<Element<Url>>, chains: seq<seq<Url>>, routes: seq<Route>,
      e: Element<Url>, r: Route)
    requires Links(log, chains, routes) && !HasKey(log, r.url) && e.key.data == r.url
    requires var n := e.value;
             n.chain == |chains| && n.place == 0 && n.next == null && n.verb.data == r.verb && n.e == r.endpoint
    ensures Links(log + [e], chains + [[e.value]], routes + [r])
    ensures Sum(chains + [[e.value]], ChainOwns) == Sum(chains, ChainOwns) + NodeOwns(e.value)
  {
    HasKeyIffRegistered(log, chains, routes, r.url);
    forall k | 0 <= k <= |chains|
      ensures EntryValid(log + [e], chains + [[e.value]], routes + [r], k)
    {
      OfUrlNext(routes, r, (log + [e])[k].key.data);
      if k < |chains| {
        assert EntryValid(log, chains, routes, k);
      } else {
        assert NodeValid([e.value], [r], k, 0);
      }
    }
    forall j, k | 0 <= j < k < |log + [e]|
      ensures KeysDiffer(log + [e], j, k)
    {
      assert k < |log| ==> KeysDiffer(log, j, k);
    }
    HasKeyNext(log, e, routes, r);
    SumNext(chains, [e.value], ChainOwns);
    SumOne(e.value, NodeOwns);
  }

  lemma {:induction false} HasKeyNext(log: seq<Element<Url>>, e: Element<Url>, routes: seq<Route>, r: Route)
    requires e.key.data == r.url && forall j :: 0 <= j < |routes| ==> HasKey(log, routes[j].url)
    ensures forall j :: 0 <= j < |routes + [r]| ==> HasKey(log + [e], (routes + [r])[j].url)
  {
    forall j | 0 <= j < |routes + [r]|
      ensures HasKey(log + [e], (routes + [r])[j].url)
    {
      if j < |routes| {
        var k :| 0 <= k < |log| && log[k].key.data == routes[j].url;
        assert (log + [e])[k] == log[k];
      } else {
        assert (log + [e])[|log|] == e;
      }
    }
  }

  const MAX_ENDPOINT_LENGTH := 512

  /** Which allocations of one registration succeed. */
  datatype Mallocs = Mallocs(verb: bool, key: bool, realloc: bool, node: bool)

  /** Whether a registration is taken in: a new URL needs an entry of the table, a known one a node. */
  predicate Takes(routes: seq<Route>, url: seq<Byte>, ok: Mallocs) {
    && ok.verb && |url| < MAX_ENDPOINT_LENGTH
    && if OfUrl(routes, url) != [] then ok.node else ok.key && ok.realloc
  }

  /** A call registers exactly if the verb can be copied, the URL is shorter than 512 bytes, and there is
      memory for a node, or for a URL not registered before the entry of the table. */
  lemma {:induction false} TakesIff(routes: seq<Route>, url: seq<Byte>, ok: Mallocs)
    ensures Takes(routes, url, ok) <==>
            && ok.verb && |url| < 512
            && if exists j :: 0 <= j < |routes| && routes[j].url == url then ok.node else ok.key && ok.realloc
  {
    if |url| < 512 {
      OfUrlIff(routes, url);
    }
  }

  /** One call of fra_end_url_add. */
  datatype Attempt = Attempt(verb: Text, url: seq<Byte>, endpoint: nat, ok: Mallocs)

  /** The registrations after some more calls: those that were taken in, in order. */
  function After(routes: seq<Route>, attempts: seq<Attempt>): seq<Route> {
    if attempts == [] then routes
    else
      var front, a := After(routes, attempts[..|attempts| - 1]), attempts[|attempts| - 1];
      if Takes(front, a.url, a.ok) then front + [Route(a.verb, a.url, a.endpoint)] else front
  }

  lemma {:induction false} AfterNext(routes: seq<Route>, attempts: seq<Attempt>, i: nat)
    requires i < |attempts|
    ensures After(routes, attempts[..0]) == routes
    ensures var front, a := After(routes, attempts[..i]), attempts[i];
            After(routes, attempts[..i + 1]) ==
            if Takes(front, a.url, a.ok) then front + [Route(a.verb, a.url, a.endpoint)] else front
  {
    assert attempts[..i + 1][..i] == attempts[..i];
  }

  ghost predicate Tried(attempts: seq<Attempt>, verb: Text, url: Text) {
    exists i :: 0 <= i < |attempts| && attempts[i].verb == verb && attempts[i].url == url
  }

  lemma {:induction false} AfterExtends(routes: seq<Route>, attempts: seq<Attempt>) returns (more: seq<Route>)
    ensures After(routes, attempts) == routes + more
    ensures forall j :: 0 <= j < |more| ==> Tried(attempts, more[j].verb, more[j].url)
  {
    more := [];
    if attempts != [] {
      var front, a := attempts[..|attempts| - 1], attempts[|attempts| - 1];
      more := AfterExtends(routes, front);
      forall j | 0 <= j < |more|
        ensures Tried(attempts, more[j].verb, more[j].url)
      {
        assert Tried(front, more[j].verb, more[j].url);
      }
      assert attempts[|front|] == a;
      if Takes(After(routes, front), a.url, a.ok) {
        more := more + [Route(a.verb, a.url, a.endpoint)];
      }
    }
  }

  /** Whatever is registered later, and whatever fails: an answer once given stays, and the answer for
      a pair that none of the calls is about does not change. */
  lemma {:induction false} AnswersStay(routes: seq<Route>, attempts: seq<Attempt>, verb: Text, url: Text)
    requires Lookup(routes, verb, url).Some? || !Tried(attempts, verb, url)
    ensures Lookup(After(routes, attempts), verb, url) == Lookup(routes, verb, url)
  {
    var more := AfterExtends(routes, attempts);
    LookupAppend(routes, more, verb, url);
    if Lookup(routes, verb, url).None? {
      LookupIs(more, verb, url, |more|);
    }
  }

  class Router {
    const urls: HashTable<Url>

    /** The table holds these registrations, in these chains. */
    ghost predicate Shows(routes: seq<Route>, chains: seq<seq<Url>>)
      reads this, urls, urls.buck, set i | 0 <= i < urls.buck.Length :: urls.buck[i].el
      reads NodesOf(chains)
    {
      urls.Valid() && Links(urls.log, chains, routes)
    }

    /** Everything allocated for the registrations: the table with its keys, the verbs, and the nodes
        outside the table. */
    ghost function Held(chains: seq<seq<Url>>): multiset<object>
      reads urls, urls.buck
    {
      urls.Held() + Sum(chains, ChainOwns)
    }

    /** fra_p_url_init. */
    constructor ()
      ensures Shows([], []) && fresh(urls) && fresh(urls.buck) && urls.buckC == 500
      ensures Held([]) == multiset{urls} + multiset{urls.buck}
    {
      urls := new HashTable(500);
    }

    /** fra_p_url_to_endpoint: the endpoint of the first registration with exactly this verb and URL. */
    method ToEndpoint(verb: Text, url: Text, ghost routes: seq<Route>, ghost chains: seq<seq<Url>>)
      returns (e: Option<nat>)
      requires Shows(routes, chains)
      ensures e == Lookup(routes, verb, url)
    {
      ghost var k := FirstMatchFinds(urls.log, url);
      UrlSuffices(routes, verb, url);
      var found := urls.Get(url);
      if found.None? {
        OfUrlNone(routes, url);
        return None;
      }
      ghost var chain, registered := chains[k], OfUrl(routes, url);
      assert EntryValid(urls.log, chains, routes, k);
      var value: Url? := found.value;
      ghost var i := 0;
      while value != null
        invariant 0 <= i <= |chain| && value == if i < |chain| then chain[i] else null
        invariant forall j :: 0 <= j < i ==> registered[j].verb != verb
        decreases |chain| - i
      {
        assert NodeValid(chain, registered, k, i);
        if value.verb.data == verb {
          LookupIs(registered, verb, url, i);
          return Some(value.e);
        }
        value := value.next;
        i := i + 1;
      }
      LookupIs(registered, verb, url, i);
      return None;
    }

    /** fra_end_url_add.  If it fails, nothing is registered and the verb has been freed. */
    method Add(e: nat, verb: Text, url: seq<Byte>, ok: Mallocs, ghost routes: seq<Route>, ghost chains: seq<seq<Url>>,
        ghost live: multiset<object>)
      returns (rc: int, ghost chains': seq<seq<Url>>, ghost live': multiset<object>)
      requires Shows(routes, chains) && Held(chains) <= live
      modifies urls, urls.buck, NodesOf(chains)
      ensures rc == if Takes(routes, url, ok) then 0 else -1
      ensures Shows(if rc == 0 then routes + [Route(verb, url, e)] else routes, chains')
      ensures live' + old(Held(chains)) == live + Held(chains')
      ensures Grown(chains, chains')
    {
      if !ok.verb {
        return -1, chains, live;
      }
      var v := new Bstring(verb);
      ghost var held := Held(chains);
      CoversMore(live, held, v);
      rc, chains', live' := AddVerb(e, v, url, ok, routes, chains, Allocated(live, v));
      if rc == 0 {
        PieceKept(live, live', held, Held(chains'), v);
      } else {
        PieceFreed(live, live', held, Held(chains'), v);
        live' := Freed(live', v);
      }
    }

    /** Any number of calls, any of which may fail.  What has been allocated is what the router holds. */
    method AddAll(attempts: seq<Attempt>, ghost routes: seq<Route>, ghost chains: seq<seq<Url>>,
        ghost live: multiset<object>)
      returns (ghost chains': seq<seq<Url>>, ghost live': multiset<object>)
      requires Shows(routes, chains) && Held(chains) <= live
      modifies urls, urls.buck, NodesOf(chains)
      ensures Shows(After(routes, attempts), chains') && Held(chains') <= live'
      ensures live' + old(Held(chains)) == live + Held(chains')
    {
      ghost var held := Held(chains);
      chains', live' := chains, live;
      for i := 0 to |attempts|
        invariant Shows(After(routes, attempts[..i]), chains') && Held(chains') <= live'
        invariant live' + held == live + Held(chains')
        invariant Grown(chains, chains')
      {
        AfterNext(routes, attempts, i);
        chains', live' := AddNext(attempts[i], After(routes, attempts[..i]), chains', live, held, live');
      }
      assert attempts[..|attempts|] == attempts;
    }

    /** From the first call to the end. */
    method Use(attempts: seq<Attempt>, verb: Text, url: Text, ghost routes: seq<Route>, ghost chains: seq<seq<Url>>,
        ghost live: multiset<object>)
      returns (e: Option<nat>, ghost live': multiset<object>)
      requires Shows(routes, chains) && Held(chains) <= live
      modifies urls, urls.buck, NodesOf(chains)
      ensures e == Lookup(After(routes, attempts), verb, url)
      ensures live' + old(Held(chains)) == live
    {
      ghost var held := Held(chains);
      ghost var chains', now := AddAll(attempts, routes, chains, live);
      e := ToEndpoint(verb, url, After(routes, attempts), chains');
      live' := Deinit(After(routes, attempts), chains', now);
      NothingLeft(live, now, live', held, Held(chains'));
    }

    /** One of them, with the account carried on from where it was held. */
    method AddNext(a: Attempt, ghost routes: seq<Route>, ghost chains: seq<seq<Url>>, ghost first: multiset<object>,
        ghost held: multiset<object>, ghost live: multiset<object>)
      returns (ghost chains': seq<seq<Url>>, ghost live': multiset<object>)
      requires Shows(routes, chains) && Held(chains) <= live && live + held == first + Held(chains)
      modifies urls, urls.buck, NodesOf(chains)
      ensures Shows(if Takes(routes, a.url, a.ok) then routes + [Route(a.verb, a.url, a.endpoint)] else routes, chains')
      ensures Held(chains') <= live' && live' + held == first + Held(chains')
      ensures Grown(chains, chains')
    {
      ghost var before := Held(chains);
      var rc;
      rc, chains', live' := Add(a.endpoint, a.verb, a.url, a.ok, routes, chains, live);
      CoverKept(live, live', before, Held(chains'));
      BalanceJoins(first, live, live', held, before, Held(chains'));
    }

    /** fra_end_url_add from the point where it has the verb. */
    method AddVerb(e: nat, v: Bstring, url: seq<Byte>, ok: Mallocs, ghost routes: seq<Route>,
        ghost chains: seq<seq<Url>>,
        ghost live: multiset<object>)
      returns (rc: int, ghost chains': seq<seq<Url>>, ghost live': multiset<object>)
      requires Shows(routes, chains) && Held(chains) <= live && ok.verb
      modifies urls, urls.buck, NodesOf(chains)
      ensures rc == if Takes(routes, url, ok) then 0 else -1
      ensures Shows(if rc == 0 then routes + [Route(v.data, url, e)] else routes, chains')
      ensures rc == 0 ==> live' + old(Held(chains)) + multiset{v} == live + Held(chains')
      ensures rc != 0 ==> live' + old(Held(chains)) == live + Held(chains')
      ensures Grown(chains, chains')
    {
      if |url| >= MAX_ENDPOINT_LENGTH {
        return -1, chains, live;
      }
      rc, chains', live' := AddToUrl(e, v, url, ok, routes, chains, live);
    }

    /** fra_end_url_add from the point where it has the verb and a URL of admissible length. */
    method AddToUrl(e: nat, v: Bstring, url: Text, ok: Mallocs, ghost routes: seq<Route>, ghost chains: seq<seq<Url>>,
        ghost live: multiset<object>)
      returns (rc: int, ghost chains': seq<seq<Url>>, ghost live': multiset<object>)
      requires Shows(routes, chains) && Held(chains) <= live
      modifies urls, urls.buck, NodesOf(chains)
      ensures rc == if (if OfUrl(routes, url) != [] then ok.node else ok.key && ok.realloc) then 0 else -1
      ensures Shows(if rc == 0 then routes + [Route(v.data, url, e)] else routes, chains')
      ensures rc == 0 ==> live' + old(Held(chains)) + multiset{v} == live + Held(chains')
      ensures rc != 0 ==> live' + old(Held(chains)) == live + Held(chains')
      ensures Grown(chains, chains')
    {
      ghost var k := FirstMatchFinds(urls.log, url);
      HasKeyIffRegistered(urls.log, chains, routes, url);
      var value := urls.Get(url);
      if value.Some? {
        rc, chains', live' := NewNode(value.value, v, e, url, ok, k, routes, chains, live);
      } else {
        rc, chains', live' := NewEntry(v, e, url, ok, routes, chains, live);
      }
    }

    /** fra_p_url_deinit: frees all that was allocated for the registrations, each piece once. */
    method Deinit(ghost routes: seq<Route>, ghost chains: seq<seq<Url>>, ghost live: multiset<object>)
      returns (ghost live': multiset<object>)
      requires Shows(routes, chains) && Held(chains) <= live
      ensures live == live' + Held(chains)
    {
      var destroyed;
      destroyed, live' := urls.Free(live);
      RestCovers(live, live', urls.Held(), Sum(chains, ChainOwns));
      live' := DestroyAll(destroyed, urls.log, chains, routes, live');
    }

    /** The branch of fra_end_url_add for a new URL. */
    method NewEntry(v: Bstring, e: nat, url: Text, ok: Mallocs, ghost routes: seq<Route>, ghost chains: seq<seq<Url>>,
        ghost live: multiset<object>)
      returns (rc: int, ghost chains': seq<seq<Url>>, ghost live': multiset<object>)
      requires Shows(routes, chains) && !HasKey(urls.log, url) && Held(chains) <= live
      modifies urls, urls.buck
      ensures rc == if ok.key && ok.realloc then 0 else -1
      ensures Shows(if rc == 0 then routes + [Route(v.data, url, e)] else routes, chains')
      ensures rc == 0 ==> live' + old(Held(chains)) + multiset{v} == live + Held(chains')
      ensures rc != 0 ==> live' + old(Held(chains)) == live + Held(chains')
      ensures Grown(chains, chains')
    {
      var head := new Url(v, e, |chains|, 0);
      ghost var log, held := urls.log, urls.Held();
      KeptCovers(live, held, Sum(chains, ChainOwns));
      rc, live' := SetEntry(url, head, ok, routes, chains, live);
      chains' := chains;
      TableAccount(live, live', held, urls.Held(), Sum(chains, ChainOwns));
      if rc == 0 {
        EntryAccount(live, live', held, urls.Held(), Sum(chains, ChainOwns), v);
        LinksEntry(log, chains, routes, urls.log[|chains|], Route(v.data, url, e));
        chains' := chains + [[head]];
        NodesEntry(chains, head);
      }
    }

    /** Its call of fra_p_ht_set, which leaves the chains alone. */
    method SetEntry(url: Text, head: Url, ok: Mallocs, ghost routes: seq<Route>, ghost chains: seq<seq<Url>>,
        ghost live: multiset<object>)
      returns (rc: int, ghost live': multiset<object>)
      requires Shows(routes, chains) && urls.Held() <= live
      modifies urls, urls.buck
      ensures urls.Valid() && Links(old(urls.log), chains, routes)
      ensures rc == if ok.key && ok.realloc then 0 else -1
      ensures rc == 0 ==>
                && |urls.log| == |old(urls.log)| + 1 && urls.log == old(urls.log) + [urls.log[|old(urls.log)|]]
                && urls.log[|old(urls.log)|].key.data == url && urls.log[|old(urls.log)|].value == head
      ensures rc != 0 ==> urls.log == old(urls.log)
      ensures live' + old(urls.Held()) == live + urls.Held()
    {
      var warned;
      rc, warned, live' := urls.Set(url, head, ok.key, ok.realloc, true, live);
    }

    /** The branch of fra_end_url_add for a URL that has been registered before. */
    method NewNode(head: Url, v: Bstring, e: nat, ghost url: Text, ok: Mallocs, ghost k: nat, ghost routes: seq<Route>,
        ghost chains: seq<seq<Url>>, ghost live: multiset<object>)
      returns (rc: int, ghost chains': seq<seq<Url>>, ghost live': multiset<object>)
      requires Shows(routes, chains) && k < |chains| && urls.log[k].key.data == url && urls.log[k].value == head
      modifies NodesOf(chains)
      ensures rc == if ok.node then 0 else -1
      ensures Shows(if rc == 0 then routes + [Route(v.data, url, e)] else routes, chains')
      ensures rc == 0 ==> live' + old(Held(chains)) + multiset{v} == live + Held(chains')
      ensures rc != 0 ==> live' + old(Held(chains)) == live + Held(chains')
      ensures Grown(chains, chains')
    {
      if !ok.node {
        return -1, chains, live;
      }
      ghost var held := urls.Held();
      var node := AppendNode(head, v, e, url, k, routes, chains);
      NodeAccount(live, held, Sum(chains, ChainOwns), node, v);
      NodesAppend(chains, k, node);
      return 0, chains[k := chains[k] + [node]], Allocated(live, node);
    }

    /** The node that it allocates. */
    method AppendNode(head: Url, v: Bstring, e: nat, ghost url: Text, ghost k: nat, ghost routes: seq<Route>,
        ghost chains: seq<seq<Url>>)
      returns (node: Url)
      requires Shows(routes, chains) && k < |chains| && urls.log[k].key.data == url && urls.log[k].value == head
      modifies NodesOf(chains)
      ensures fresh(node) && node.verb == v && node.place > 0
      ensures Shows(routes + [Route(v.data, url, e)], chains[k := chains[k] + [node]])
      ensures Sum(chains[k := chains[k] + [node]], ChainOwns) == Sum(chains, ChainOwns) + NodeOwns(node)
    {
      node := AppendTo(head, v, e, k, urls.log, routes, chains);
    }
  }

  /** The initialisation and any number of registrations, with what has been allocated for them. */
  method Start(attempts: seq<Attempt>, ghost live: multiset<object>)
    returns (router: Router, ghost chains: seq<seq<Url>>, ghost live': multiset<object>)
    ensures fresh(router) && router.Shows(After([], attempts), chains)
    ensures live' == live + router.Held(chains)
  {
    router := new Router();
    ghost var held := router.Held([]);
    chains, live' := router.AddAll(attempts, [], [], live + held);
    CancelAll(live', live + router.Held(chains), held);
  }

  /** The life of a router: it answers by the first registration that was taken in, and when it is gone
      nothing it allocated is left. */
  method Life(attempts: seq<Attempt>, verb: Text, url: Text, ghost live: multiset<object>)
    returns (e: Option<nat>, ghost live': multiset<object>)
    ensures e == Lookup(After([], attempts), verb, url)
    ensures live' == live
  {
    var router := new Router();
    ghost var held := router.Held([]);
    e, live' := router.Use(attempts, verb, url, [], [], live + held);
    CancelAll(live', live, held);
  }

  lemma {:induction false} CoverKept(live: multiset<object>, live': multiset<object>, held: multiset<object>,
      held': multiset<object>)
    requires held <= live && live' + held == live + held'
    ensures held' <= live'
  {
    forall o | o in held'
      ensures held'[o] <= live'[o]
    {
      assert (live' + held)[o] == (live + held')[o] && held[o] <= live[o];
    }
  }

  lemma {:induction false} BalanceJoins(a: multiset<object>, b: multiset<object>, c: multiset<object>,
      ha: multiset<object>, hb: multiset<object>, hc: multiset<object>)
    requires b + ha == a + hb && c + hb == b + hc
    ensures c + ha == a + hc
  {
    assert c + ha + hb == c + hb + ha;
    assert b + hc + ha == b + ha + hc;
    assert a + hb + hc == a + hc + hb;
    CancelAll(c + ha, a + hc, hb);
  }

  lemma {:induction false} NothingLeft(live: multiset<object>, now: multiset<object>, end: multiset<object>,
      held: multiset<object>, held': multiset<object>)
    requires now + held == live + held' && now == end + held'
    ensures end + held == live
  {
    assert end + held + held' == now + held;
    CancelAll(end + held, live, held');
  }

  /** In which order the chains are freed: that of the elements they hang off. */
  lemma {:induction false} ScheduleChains(log: seq<Element<Url>>, chains: seq<seq<Url>>, routes: seq<Route>,
      destroyed: seq<Element<Url>>, live: multiset<object>)
    returns (own: Element<Url> -> multiset<object>, left: nat -> multiset<object>)
    requires Links(log, chains, routes) && Permutes(destroyed, log) && Sum(chains, ChainOwns) <= live
    ensures forall k :: 0 <= k < |log| ==> own(log[k]) == ChainOwns(chains[k])
    ensures Schedule(destroyed, own, left) && left(0) == live && live == left(|destroyed|) + Sum(chains, ChainOwns)
  {
    own := (e: Element<Url>) => if e.value.chain < |chains| then ChainOwns(chains[e.value.chain]) else multiset{};
    forall k | 0 <= k < |log|
      ensures own(log[k]) == ChainOwns(chains[k])
    {
      assert EntryValid(log, chains, routes, k);
      assert NodeValid(chains[k], OfUrl(routes, log[k].key.data), k, 0);
    }
    SumAlike(log, own, chains, ChainOwns, |log|);
    SumPermutes(destroyed, log, own);
    left := ScheduleFor(destroyed, own, live);
  }

  /** What the destructor does to all elements of the table. */
  method DestroyAll(destroyed: seq<Element<Url>>, ghost log: seq<Element<Url>>, ghost chains: seq<seq<Url>>,
      ghost routes: seq<Route>,
      ghost live: multiset<object>)
    returns (ghost live': multiset<object>)
    requires Links(log, chains, routes) && Permutes(destroyed, log) && Sum(chains, ChainOwns) <= live
    ensures live == live' + Sum(chains, ChainOwns)
  {
    live' := live;
    ghost var own, left := ScheduleChains(log, chains, routes, destroyed, live);
    var i := 0;
    while i < |destroyed|
      invariant 0 <= i <= |destroyed| && live' == left(i)
    {
      ghost var k := ChainOf(log, chains, routes, destroyed, own, left, i);
      live' := DestroyUrl(destroyed[i].value, chains[k], OfUrl(routes, log[k].key.data), k, live', left(i + 1));
      i := i + 1;
    }
  }

  lemma {:induction false} ChainOf(log: seq<Element<Url>>, chains: seq<seq<Url>>, routes: seq<Route>,
      destroyed: seq<Element<Url>>,
      own: Element<Url> -> multiset<object>, left: nat -> multiset<object>, i: nat)
    returns (k: nat)
    requires Links(log, chains, routes) && Permutes(destroyed, log) && i < |destroyed|
    requires forall k :: 0 <= k < |log| ==> own(log[k]) == ChainOwns(chains[k])
    requires Schedule(destroyed, own, left)
    ensures k < |log| && ChainValid(chains[k], destroyed[i].value, OfUrl(routes, log[k].key.data), k)
    ensures left(i) == left(i + 1) + ChainOwns(chains[k])
  {
    k := PermutesHas(destroyed, log, destroyed[i]);
    assert EntryValid(log, chains, routes, k);
    assert FreesNext(destroyed, own, left, i);
  }

  /** destroy_url: frees the verbs of a chain, and its nodes except for the first. */
  method DestroyUrl(value_v: Url?, ghost chain: seq<Url>, ghost registered: seq<Route>, ghost k: nat,
      ghost live: multiset<object>, ghost rest: multiset<object>)
    returns (ghost live': multiset<object>)
    requires value_v != null ==> ChainValid(chain, value_v, registered, k) && live == rest + ChainOwns(chain)
    requires value_v == null ==> live == rest
    ensures live' == rest
  {
    live' := live;
    if value_v != null {
      ghost var left := ScheduleFor(chain, NodeOwns, live);
      CancelAll(left(|chain|), rest, ChainOwns(chain));
      assert NodeValid(chain, registered, k, 0);
      NodeFreed(chain, left, 0);
      live' := Freed(live', value_v.verb);
      var value := value_v.next;
      ghost var i := 1;
      while value != null
        invariant 0 < i <= |chain| && value == (if i < |chain| then chain[i] else null)
        invariant live' == left(i)
        decreases |chain| - i
      {
        assert NodeValid(chain, registered, k, i);
        NodeFreed(chain, left, i);
        live' := Freed(live', value.verb);
        var prevValue := value;
        value := value.next;
        live' := Freed(live', prevValue);
        i := i + 1;
      }
    }
  }

  lemma {:induction false} NodeFreed(chain: seq<Url>, left: nat -> multiset<object>, i: nat)
    requires Schedule(chain, NodeOwns, left) && i < |chain| && chain[i].place == i
    ensures chain[i].verb in left(i)
    ensures i == 0 ==> Freed(left(i), chain[i].verb) == left(i + 1)
    ensures i > 0 ==>
              && chain[i] in Freed(left(i), chain[i].verb)
              && Freed(Freed(left(i), chain[i].verb), chain[i]) == left(i + 1)
  {
    assert FreesNext(chain, NodeOwns, left, i);
  }

  /** The account of a registration that only a node has been allocated for. */
  lemma {:induction false} NodeAccount(live: multiset<object>, held: multiset<object>, owned: multiset<object>,
      node: Url, v: Bstring)
    ensures Allocated(live, node) + (held + owned) + multiset{v} ==
            live + (held + (owned + (multiset{v} + multiset{node})))
  {}

  /** The branch of fra_end_url_add for a URL that has been registered before: walks to the last node
      of its chain and links a new one to it. */
  method AppendTo(head: Url, v: Bstring, e: nat, ghost k: nat, ghost log: seq<Element<Url>>,
      ghost routes: seq<Route>, ghost chains: seq<seq<Url>>)
    returns (node: Url)
    requires Links(log, chains, routes) && k < |chains| && log[k].value == head
    modifies NodesOf(chains)
    ensures fresh(node) && node.verb == v && node.place > 0
    ensures Links(log, chains[k := chains[k] + [node]], routes + [Route(v.data, log[k].key.data, e)])
    ensures Sum(chains[k := chains[k] + [node]], ChainOwns) == Sum(chains, ChainOwns) + NodeOwns(node)
  {
    ghost var chain, registered := chains[k], OfUrl(routes, log[k].key.data);
    assert EntryValid(log, chains, routes, k);
    OnlyOnce(log, chains, routes, k);
    var last := Last(head, chain, registered, k);
    assert NodeValid(chain, registered, k, |chain| - 1);
    node := new Url(v, e, k, |chain|);
    last.next := node;
    LinksAppend(log, chains, routes, k, node, Route(v.data, log[k].key.data, e));
  }

  /** As Links, except that the last node of chain k is linked to a new one. */
  ghost predicate Appending(log: seq<Element<Url>>, chains: seq<seq<Url>>, routes: seq<Route>, k: nat, node: Url)
    requires k < |chains| == |log|
    reads NodesOf(chains)
  {
    var chain, registered := chains[k], OfUrl(routes, log[k].key.data);
    && (forall j :: 0 <= j < |chains| && j != k ==> EntryValid(log, chains, routes, j))
    && |chain| == |registered| > 0 && chain[0] == log[k].value
    && (forall i :: 0 <= i < |chain| - 1 ==> NodeValid(chain, registered, k, i))
    && var n := chain[|chain| - 1];
    && n.chain == k && n.place == |chain| - 1 && n.next == node
    && n.verb.data == registered[|chain| - 1].verb && n.e == registered[|chain| - 1].endpoint
    && (forall j, k :: 0 <= j < k < |log| ==> KeysDiffer(log, j, k))
    && (forall j :: 0 <= j < |routes| ==> HasKey(log, routes[j].url))
  }

  lemma {:induction false} LinksAppend(log: seq<Element<Url>>, chains: seq<seq<Url>>, routes: seq<Route>,
      k: nat, node: Url, r: Route)
    requires k < |chains| == |log| && Appending(log, chains, routes, k, node) && r.url == log[k].key.data
    requires node.chain == k && node.place == |chains[k]| && node.next == null
    requires node.verb.data == r.verb && node.e == r.endpoint
    ensures Links(log, chains[k := chains[k] + [node]], routes + [r])
    ensures Sum(chains[k := chains[k] + [node]], ChainOwns) == Sum(chains, ChainOwns) + NodeOwns(node)
  {
    var chains' := chains[k := chains[k] + [node]];
    forall j | 0 <= j < |chains|
      ensures EntryValid(log, chains', routes + [r], j)
    {
      OfUrlNext(routes, r, log[j].key.data);
      if j == k {
        ChainAppend(chains[k], log[k].value, OfUrl(routes, r.url), k, node, r);
      } else {
        assert KeysDiffer(log, if j < k then j else k, if j < k then k else j);
        assert EntryValid(log, chains, routes, j);
      }
    }
    OwnsAppend(chains, k, node);
  }

  lemma {:induction false} ChainAppend(chain: seq<Url>, head: Url, registered: seq<Route>, k: nat, node: Url, r: Route)
    requires |chain| == |registered| > 0 && chain[0] == head
    requires forall i :: 0 <= i < |chain| - 1 ==> NodeValid(chain, registered, k, i)
    requires var n := chain[|chain| - 1];
             && n.chain == k && n.place == |chain| - 1 && n.next == node
             && n.verb.data == registered[|chain| - 1].verb && n.e == registered[|chain| - 1].endpoint
    requires node.chain == k && node.place == |chain| && node.next == null
    requires node.verb.data == r.verb && node.e == r.endpoint
    ensures ChainValid(chain + [node], head, registered + [r], k)
  {
    forall i | 0 <= i <= |chain|
      ensures NodeValid(chain + [node], registered + [r], k, i)
    {
      if i < |chain| - 1 {
        assert NodeValid(chain, registered, k, i);
      }
    }
  }

  lemma {:induction false} OwnsAppend(chains: seq<seq<Url>>, k: nat, node: Url)
    requires k < |chains|
    ensures Sum(chains[k := chains[k] + [node]], ChainOwns) == Sum(chains, ChainOwns) + NodeOwns(node)
  {
    SumUpdate(chains, ChainOwns, k, chains[k] + [node]);
    SumNext(chains[k], node, NodeOwns);
    var chains' := chains[k := chains[k] + [node]];
    CancelAll(Sum(chains', ChainOwns), Sum(chains, ChainOwns) + NodeOwns(node), ChainOwns(chains[k]));
  }

  /** The loop of fra_end_url_add: the last node of a chain. */
  method Last(head: Url, ghost chain: seq<Url>, ghost registered: seq<Route>, ghost k: nat) returns (value: Url)
    requires ChainValid(chain, head, registered, k)
    ensures value == chain[|chain| - 1]
  {
    value := head;
    ghost var i := 0;
    assert NodeValid(chain, registered, k, i);
    while value.next != null
      invariant 0 <= i < |chain| && value == chain[i] && NodeValid(chain, registered, k, i)
      decreases |chain| - i
    {
      value := value.next;
      i := i + 1;
      assert NodeValid(chain, registered, k, i);
    }
  }
}
