/** What the router (src/url.c) means: a list of registrations, first match first. */
module RouteSpec {
  import opened Wrappers
  import opened Memory

  datatype Route = Route(verb: Text, url: Text, endpoint: nat)

  /** The endpoint of the first registration with exactly this verb and this URL. */
  function Lookup(routes: seq<Route>, verb: Text, url: Text): Option<nat> {
    if routes == [] then None
    else
      var earlier, r := Lookup(routes[..|routes| - 1], verb, url), routes[|routes| - 1];
      if earlier.Some? then earlier
      else if r.verb == verb && r.url == url then Some(r.endpoint)
      else None
  }

  lemma {:induction false} LookupIs(routes: seq<Route>, verb: Text, url: Text, j: nat)
    requires j <= |routes| && forall i :: 0 <= i < j ==> !(routes[i].verb == verb && routes[i].url == url)
    requires j < |routes| ==> routes[j].verb == verb && routes[j].url == url
    ensures Lookup(routes, verb, url) == if j < |routes| then Some(routes[j].endpoint) else None
  {
    if routes != [] {
      var last := |routes| - 1;
      LookupIs(routes[..last], verb, url, if j < last then j else last);
    }
  }

  /** The registrations of one URL, in order. */
  function OfUrl(routes: seq<Route>, url: Text): (r: seq<Route>)
    ensures forall i :: 0 <= i < |r| ==> r[i].url == url
  {
    if routes == [] then []
    else
      var earlier, r := OfUrl(routes[..|routes| - 1], url), routes[|routes| - 1];
      if r.url == url then earlier + [r] else earlier
  }

  lemma {:induction false} OfUrlNext(routes: seq<Route>, r: Route, url: Text)
    ensures OfUrl(routes + [r], url) == if r.url == url then OfUrl(routes, url) + [r] else OfUrl(routes, url)
  {
    assert (routes + [r])[..|routes|] == routes;
  }

  lemma {:induction false} OfUrlNone(routes: seq<Route>, url: Text)
    requires forall i :: 0 <= i < |routes| ==> routes[i].url != url
    ensures OfUrl(routes, url) == []
  {
    if routes != [] {
      OfUrlNone(routes[..|routes| - 1], url);
    }
  }

  lemma {:induction false} OfUrlIff(routes: seq<Route>, url: Text)
    ensures OfUrl(routes, url) != [] <==> exists j :: 0 <= j < |routes| && routes[j].url == url
  {
    if routes != [] {
      var last := |routes| - 1;
      OfUrlIff(routes[..last], url);
      assert forall j :: 0 <= j < last ==> routes[..last][j] == routes[j];
    }
  }

  /** It is enough to search the registrations of the URL. */
  lemma {:induction false} UrlSuffices(routes: seq<Route>, verb: Text, url: Text)
    ensures Lookup(OfUrl(routes, url), verb, url) == Lookup(routes, verb, url)
  {
    if routes != [] {
      var front, r := routes[..|routes| - 1], routes[|routes| - 1];
      UrlSuffices(front, verb, url);
      var earlier := OfUrl(front, url);
      if r.url == url {
        assert (earlier + [r])[..|earlier|] == earlier;
      }
    }
  }

  /** Later registrations answer only what the earlier ones leave open: an answer once given stays. */
  lemma {:induction false} LookupAppend(routes: seq<Route>, more: seq<Route>, verb: Text, url: Text)
    ensures Lookup(routes + more, verb, url) ==
            if Lookup(routes, verb, url).Some? then Lookup(routes, verb, url) else Lookup(more, verb, url)
  {
    if more == [] {
      assert routes + more == routes;
    } else {
      assert (routes + more)[..|routes + more| - 1] == routes + more[..|more| - 1];
      LookupAppend(routes, more[..|more| - 1], verb, url);
    }
  }

  /** What is found has been registered. */
  lemma {:induction false} LookupRegistered(routes: seq<Route>, verb: Text, url: Text)
    ensures Lookup(routes, verb, url).Some? ==>
              exists j :: 0 <= j < |routes| && routes[j] == Route(verb, url, Lookup(routes, verb, url).value)
  {
    if routes != [] {
      LookupRegistered(routes[..|routes| - 1], verb, url);
    }
  }
}
