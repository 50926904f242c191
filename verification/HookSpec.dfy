/** What hook registration and traversal (src/hook.c) mean, on sequences of entries.

    Callbacks run in the middle of a traversal and may register further hooks.  A World fixes
    what each call does; because it is arbitrary, a statement about every World is a statement
    about every interleaving of a traversal with registrations. */
module HookSpec {

  /** A registered hook.  The stamp is the number of the registration, so no two entries are equal. */
  datatype Entry = Entry(stamp: nat, callback: nat, priority: real)

  const NULL: nat := 0

  ghost predicate Sorted(list: seq<Entry>) {
    forall i, j :: 0 <= i < j < |list| ==> list[i].priority <= list[j].priority
  }

  ghost predicate DistinctStamps(list: seq<Entry>, next: nat) {
    && (forall i :: 0 <= i < |list| ==> list[i].stamp < next)
    && (forall i, j :: 0 <= i < j < |list| ==> list[i].stamp != list[j].stamp)
  }

  /** Where a hook of this priority goes: before the first hook of a strictly greater priority. */
  function Slot(list: seq<Entry>, priority: real): (p: nat)
    ensures p <= |list|
    ensures forall i :: 0 <= i < p ==> list[i].priority <= priority
    ensures p < |list| ==> priority < list[p].priority
  {
    SlotFrom(list, priority, 0)
  }

  function SlotFrom(list: seq<Entry>, priority: real, from: nat): (p: nat)
    requires from <= |list|
    ensures from <= p <= |list|
    ensures forall i :: from <= i < p ==> list[i].priority <= priority
    ensures p < |list| ==> priority < list[p].priority
    decreases |list| - from
  {
    if from == |list| || priority < list[from].priority then from else SlotFrom(list, priority, from + 1)
  }

  function Insert(list: seq<Entry>, e: Entry): (r: seq<Entry>)
    ensures |r| == |list| + 1
  {
    var p := Slot(list, e.priority);
    seq(|list| + 1, i requires 0 <= i <= |list| => if i < p then list[i] else if i == p then e else list[i - 1])
  }

  lemma {:induction false} InsertSplits(list: seq<Entry>, e: Entry)
    ensures var p := Slot(list, e.priority); Insert(list, e) == list[..p] + [e] + list[p..]
  {}

  function InsertAll(list: seq<Entry>, es: seq<Entry>): seq<Entry> {
    if es == [] then list else Insert(InsertAll(list, es[..|es| - 1]), es[|es| - 1])
  }

  // ---------------------------------------------------------------- registration is a stable sort

  function OfPriority(list: seq<Entry>, priority: real): seq<Entry> {
    if list == [] then []
    else if list[0].priority == priority then [list[0]] + OfPriority(list[1..], priority)
    else OfPriority(list[1..], priority)
  }

  /** A stable sort: in order of priority, and hooks of one priority in their original order. */
  ghost predicate IsStableSort(sorted: seq<Entry>, original: seq<Entry>) {
    && Sorted(sorted)
    && forall p :: OfPriority(sorted, p) == OfPriority(original, p)
  }

  lemma {:induction false} OfPriorityAppend(a: seq<Entry>, b: seq<Entry>, p: real)
    ensures OfPriority(a + b, p) == OfPriority(a, p) + OfPriority(b, p)
  {
    if a == [] {
      assert a + b == b;
    } else {
      assert (a + b)[1..] == a[1..] + b;
      OfPriorityAppend(a[1..], b, p);
    }
  }

  lemma {:induction false} NoneOfPriority(list: seq<Entry>, p: real)
    requires forall i :: 0 <= i < |list| ==> list[i].priority != p
    ensures OfPriority(list, p) == []
  {
    if list != [] {
      NoneOfPriority(list[1..], p);
    }
  }

  lemma {:induction false} InsertKeepsSorted(list: seq<Entry>, e: Entry)
    requires Sorted(list)
    ensures Sorted(Insert(list, e))
  {}

  lemma {:induction false} OfPrioritySplit(list: seq<Entry>, s: nat, p: real)
    requires s <= |list|
    ensures OfPriority(list, p) == OfPriority(list[..s], p) + OfPriority(list[s..], p)
  {
    OfPriorityAppend(list[..s], list[s..], p);
    assert list[..s] + list[s..] == list;
  }

  lemma {:induction false} OfPriorityInsert(list: seq<Entry>, e: Entry, p: real)
    ensures var s := Slot(list, e.priority);
            OfPriority(Insert(list, e), p) == OfPriority(list[..s], p) + OfPriority([e], p) + OfPriority(list[s..], p)
  {
    var s := Slot(list, e.priority);
    InsertSplits(list, e);
    OfPriorityAppend(list[..s] + [e], list[s..], p);
    OfPriorityAppend(list[..s], [e], p);
  }

  lemma {:induction false} InsertIsStable(list: seq<Entry>, e: Entry, p: real)
    requires Sorted(list)
    ensures OfPriority(Insert(list, e), p) == OfPriority(list, p) + OfPriority([e], p)
  {
    var s := Slot(list, e.priority);
    OfPriorityInsert(list, e, p);
    OfPrioritySplit(list, s, p);
    if p == e.priority {
      NoneOfPriority(list[s..], p);
    } else {
      assert OfPriority([e], p) == [];
    }
  }

  /** After any sequence of registrations a hook list is the stable sort of its registrations. */
  lemma {:induction false} RegistrationsStableSort(es: seq<Entry>)
    ensures IsStableSort(InsertAll([], es), es)
  {
    if es != [] {
      var front, e := es[..|es| - 1], es[|es| - 1];
      RegistrationsStableSort(front);
      InsertKeepsSorted(InsertAll([], front), e);
      forall p
        ensures OfPriority(InsertAll([], es), p) == OfPriority(es, p)
      {
        InsertIsStable(InsertAll([], front), e, p);
        OfPriorityAppend(front, [e], p);
        assert es == front + [e];
      }
    }
  }

  lemma {:induction false} OfPriorityFirst(list: seq<Entry>, p: real) returns (i: nat)
    requires OfPriority(list, p) != []
    ensures i < |list| && list[i].priority == p
  {
    if list[0].priority == p {
      i := 0;
    } else {
      var j := OfPriorityFirst(list[1..], p);
      i := j + 1;
    }
  }

  /** There is only one stable sort, so IsStableSort pins the list down completely. */
  lemma {:induction false} StableSortUnique(a: seq<Entry>, b: seq<Entry>)
    requires Sorted(a) && Sorted(b)
    requires forall p :: OfPriority(a, p) == OfPriority(b, p)
    ensures a == b
  {
    if a != [] || b != [] {
      var p := if a != [] then a[0].priority else b[0].priority;
      FirstPriorityOccurs(a, b);
      FirstPriorityOccurs(b, a);
      assert OfPriority(a, p)[0] == a[0] && OfPriority(b, p)[0] == b[0];
      forall q
        ensures OfPriority(a[1..], q) == OfPriority(b[1..], q)
      {
        assert OfPriority(a, q) == OfPriority(b, q);
        assert q == p ==>
                 OfPriority(a[1..], q) == OfPriority(a, q)[1..] && OfPriority(b[1..], q) == OfPriority(b, q)[1..];
      }
      StableSortUnique(a[1..], b[1..]);
      assert a == [a[0]] + a[1..] && b == [b[0]] + b[1..];
    }
  }

  lemma {:induction false} FirstPriorityOccurs(a: seq<Entry>, b: seq<Entry>)
    requires Sorted(b) && a != []
    requires forall p :: OfPriority(a, p) == OfPriority(b, p)
    ensures b != [] && b[0].priority <= a[0].priority
  {
    assert OfPriority(a, a[0].priority) == OfPriority(b, a[0].priority);
    var i := OfPriorityFirst(b, a[0].priority);
  }
}
