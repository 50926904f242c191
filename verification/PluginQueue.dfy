/** The queue of enabled plugins (src/pl.c): a linked list with pointers to its first and last node. */
module PluginQueue {

  /** A plugin as the configuration names it. */
  datatype PluginSpec = PluginSpec(name: string, argv: seq<string>)

  class Plugin {
    const name: string
    var argv: seq<string>
    var next: Plugin?

    constructor (name: string)
      ensures this.name == name && argv == []
    {
      this.name, argv, next := name, [], null;
    }
  }

  ghost predicate Differ(spine: seq<Plugin>, i: nat, j: nat)
    requires i < |spine| && j < |spine|
  {
    spine[i] != spine[j]
  }

  /** The i-th node holds the i-th plugin and is linked to the next node. */
  ghost predicate NodeShows(spine: seq<Plugin>, plugins: seq<PluginSpec>, i: nat)
    requires i < |spine| == |plugins|
    reads spine[i]
  {
    && PluginSpec(spine[i].name, spine[i].argv) == plugins[i]
    && spine[i].next == if i + 1 < |spine| then spine[i + 1] else null
  }

  ghost predicate Chained(first: Plugin?, spine: seq<Plugin>, plugins: seq<PluginSpec>)
    reads spine
  {
    && |spine| == |plugins|
    && first == (if |spine| > 0 then spine[0] else null)
    && forall i :: 0 <= i < |spine| ==> NodeShows(spine, plugins, i)
  }

  ghost predicate Distinct(spine: seq<Plugin>) {
    forall i, j :: 0 <= i < j < |spine| ==> Differ(spine, i, j)
  }

  class PluginQueue {
    var first: Plugin?
    var last: Plugin?

    /** The nodes of the queue, first one first. */
    ghost var spine: seq<Plugin>

    ghost function Nodes(): set<Plugin>
      reads this
    {
      set n | n in spine
    }

    /** The nodes that have come in were allocated in between. */
    twostate predicate Grown()
      reads this
    {
      forall n :: n in Nodes() ==> n in old(Nodes()) || fresh(n)
    }

    /** The queue holds these plugins, in this order.  While it is empty, last may point anywhere. */
    ghost predicate Shows(plugins: seq<PluginSpec>)
      reads this, spine
    {
      && Chained(first, spine, plugins) && Distinct(spine)
      && (first != null ==> last == spine[|spine| - 1])
    }

    constructor ()
      ensures Shows([]) && spine == []
    {
      first, last, spine := null, null, [];
    }

    /** fra_p_pl_add: appends a plugin. */
    method Add(pl: Plugin, ghost plugins: seq<PluginSpec>)
      requires Shows(plugins) && pl !in spine
      modifies this, pl`next, if first != null then {last} else {}
      ensures spine == old(spine) + [pl]
      ensures Shows(plugins + [PluginSpec(pl.name, pl.argv)])
    {
      pl.next := null;
      if first != null {
        forall i | 0 <= i < |spine|
          ensures NodeShows(spine, plugins, i) && (i < |spine| - 1 ==> spine[i] != last)
        {
          assert old(NodeShows(spine, plugins, i));
          assert i < |spine| - 1 ==> Differ(spine, i, |spine| - 1);
        }
        last.next := pl;
      } else {
        first := pl;
      }
      last := pl;
      ghost var grown := plugins + [PluginSpec(pl.name, pl.argv)];
      forall i | 0 <= i <= |spine|
        ensures NodeShows(spine + [pl], grown, i)
      {
        assert i < |spine| ==> old(NodeShows(spine, plugins, i));
      }
      forall i, j | 0 <= i < j <= |spine|
        ensures Differ(spine + [pl], i, j)
      {
        assert j < |spine| ==> Differ(spine, i, j);
      }
      spine := spine + [pl];
    }

    /** fra_p_pl_reset: frees every plugin of the queue, once and first one first. */
    method Reset(ghost plugins: seq<PluginSpec>) returns (freed: seq<Plugin>)
      requires Shows(plugins)
      modifies this
      ensures Shows([]) && freed == old(spine) && Distinct(freed)
    {
      freed := [];
      ghost var nodes := spine;
      while first != null
        invariant |freed| <= |nodes| && forall i :: 0 <= i < |freed| ==> freed[i] == nodes[i]
        invariant first == if |freed| < |nodes| then nodes[|freed|] else null
        decreases |nodes| - |freed|
      {
        assert NodeShows(nodes, plugins, |freed|);
        var cur := first;
        first := first.next;
        freed := freed + [cur];
      }
      spine := [];
    }
  }
}
