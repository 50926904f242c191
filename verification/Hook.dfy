/** The linked hook lists of src/hook.c. */
module Hook {
  import opened Wrappers
  import opened HookSpec
  import opened HookRun

  class Node {
    const callback: nat
    const priority: real
    var next: Node?

    // the number of the registration
    ghost const stamp: nat

    constructor (callback: nat, priority: real, ghost stamp: nat)
      ensures this.callback == callback && this.priority == priority && this.stamp == stamp
    {
      this.callback, this.priority, this.stamp := callback, priority, stamp;
      next := null;
    }
  }

  ghost function EntryOf(n: Node): Entry {
    Entry(n.stamp, n.callback, n.priority)
  }

  ghost predicate Shows(list: seq<Entry>, spine: seq<Node>) {
    && |list| == |spine|
    && forall i :: 0 <= i < |spine| ==> list[i] == EntryOf(spine[i])
  }

  /** The head starts the chain of exactly these nodes. */
  ghost predicate Linked(head: Node?, spine: seq<Node>)
    reads spine
  {
    && head == (if |spine| > 0 then spine[0] else null)
    && forall i :: 0 <= i < |spine| ==> NextInLine(spine, i)
  }

  ghost predicate NextInLine(spine: seq<Node>, i: nat)
    requires i < |spine|
    reads spine[i]
  {
    spine[i].next == if i + 1 < |spine| then spine[i + 1] else null
  }

  function Splice(spine: seq<Node>, p: nat, n: Node): (r: seq<Node>)
    requires p <= |spine|
    ensures |r| == |spine| + 1
  {
    seq(|spine| + 1, i requires 0 <= i <= |spine| => if i < p then spine[i] else if i == p then n else spine[i - 1])
  }

  /** The search loop of hook_reg: the hook after which one of the given priority belongs. */
  method LastNotAbove(head: Node, ghost list: seq<Entry>, ghost spine: seq<Node>, priority: real) returns (cur: Node)
    requires Linked(head, spine) && Shows(list, spine) && head.priority <= priority
    ensures 0 < Slot(list, priority) && cur == spine[Slot(list, priority) - 1]
    ensures NextInLine(spine, Slot(list, priority) - 1)
  {
    cur := head;
    ghost var p := 1;
    while !(cur.next == null || priority < cur.next.priority)
      invariant 0 < p <= |spine| && cur == spine[p - 1]
      invariant forall i :: 0 <= i < p ==> list[i].priority <= priority
      decreases |spine| - p
    {
      assert NextInLine(spine, p - 1);
      cur := cur.next;
      p := p + 1;
    }
    assert NextInLine(spine, p - 1);
    SlotIs(list, priority, p);
  }

  /** The registrations of one list in the order they were made. */
  ghost predicate Registered(log: seq<Entry>, next: nat) {
    log != [] ==>
      var e := log[|log| - 1];
      e.stamp < next && e.callback != NULL && Registered(log[..|log| - 1], e.stamp)
  }

  lemma {:induction false} RegisteredWf(log: seq<Entry>, next: nat)
    requires Registered(log, next)
    ensures WfList(InsertAll([], log), next)
  {
    if log != [] {
      var front, e := log[..|log| - 1], log[|log| - 1];
      RegisteredWf(front, e.stamp);
      InsertKeepsWf(InsertAll([], front), e);
    }
  }

  lemma {:induction false} RegisteredNext(log: seq<Entry>, e: Entry)
    requires Registered(log, e.stamp) && e.callback != NULL
    ensures Registered(log + [e], e.stamp + 1) && InsertAll([], log + [e]) == Insert(InsertAll([], log), e)
  {
    assert (log + [e])[..|log|] == log;
  }

  /** What is registered in a list after one attempt. */
  ghost function Noted(log: seq<Entry>, st: State, r: Reg, slot: nat): seq<Entry> {
    if Accepts(r, |st.lists|) && r.target == slot then log + [Entry(st.next, r.callback, r.priority)] else log
  }

  lemma {:induction false} NotedIs(log: seq<Entry>, st: State, r: Reg, slot: nat)
    ensures Noted(log, st, r, slot) ==
            if r.target == slot < |st.lists| && r.callback != 0 && r.mallocOk
            then log + [Entry(st.next, r.callback, r.priority)]
            else log
  {}

  /** One slot of an array of hook lists: the pointer to the first hook of one type. */
  class HookList {
    var head: Node?

    // what was registered, in this order
    ghost var log: seq<Entry>
    ghost var contents: seq<Entry>
    ghost var spine: seq<Node>
    ghost var Repr: set<Node>

    /** The list is linked up properly and holds what inserting all registrations gives; their stamps
        are below next. */
    ghost predicate Valid(next: nat)
      reads this, Repr
    {
      && (forall i :: 0 <= i < |spine| ==> spine[i] in Repr)
      && Linked(head, spine)
      && Shows(contents, spine)
      && Registered(log, next) && contents == InsertAll([], log)
    }

    /** A hook list is the stable sort of its registrations by priority. */
    lemma {:induction false} IsSorted(next: nat)
      requires Valid(next)
      ensures WfList(contents, next) && IsStableSort(contents, log)
    {
      RegisteredWf(log, next);
      RegistrationsStableSort(log);
    }

    constructor ()
      ensures Valid(0) && Repr == {} && contents == log == []
    {
      head, spine, log, contents, Repr := null, [], [], [], {};
    }

    /** Puts a hook into the list: before the first one of a strictly greater priority. */
    method Insert(n: Node)
      requires Valid(n.stamp) && n !in Repr && n.callback != NULL
      modifies this, Repr, n`next
      ensures Valid(n.stamp + 1) && Repr == old(Repr) + {n}
      ensures log == old(log) + [EntryOf(n)] && contents == HookSpec.Insert(old(contents), EntryOf(n))
      ensures spine == Splice(old(spine), Slot(old(contents), n.priority), n)
    {
      Link(n);
      ShowsSplice(contents, spine, n);
      RegisteredNext(log, EntryOf(n));
      spine := Splice(spine, Slot(contents, n.priority), n);
      log := log + [EntryOf(n)];
      contents := HookSpec.Insert(contents, EntryOf(n));
      Repr := Repr + {n};
    }

    /** The linking part of hook_reg: only the head of the list or the node before the place changes. */
    method Link(n: Node)
      requires Valid(n.stamp) && n !in Repr
      modifies `head, Repr, n`next
      ensures Linked(head, Splice(spine, Slot(contents, n.priority), n))
    {
      ghost var p := Slot(contents, n.priority);
      if head == null || n.priority < head.priority {
        n.next := head;
        head := n;
      } else {
        var cur := LastNotAbove(head, contents, spine, n.priority);
        OnlyAt(p - 1, n.stamp);
        n.next := cur.next;
        cur.next := n;
      }
      LinkedSplice(head, spine, p, n);
    }

    /** A node occurs once in a list. */
    lemma {:induction false} OnlyAt(k: nat, next: nat)
      requires Valid(next) && k < |spine|
      ensures forall i :: 0 <= i < |spine| && i != k ==> spine[i] != spine[k]
    {
      RegisteredWf(log, next);
      forall i | 0 <= i < |spine| && i != k
        ensures spine[i] != spine[k]
      {
        assert contents[i].stamp != contents[k].stamp;
      }
    }
  }

  /** The two lists that a request's hooks of one type come from: slot 0 is the list of its endpoint,
      slot 1 the list for all requests.  Callbacks may register into either. */
  class HookTable {
    const endpoint: HookList
    const request: HookList

    ghost var stamps: nat
    ghost var Repr: set<Node>

    ghost predicate Valid()
      reads this, endpoint, request, Repr
    {
      && endpoint != request && endpoint.Repr !! request.Repr && Repr == endpoint.Repr + request.Repr
      && endpoint.Valid(stamps) && request.Valid(stamps) && Apart(endpoint.contents, request.contents)
    }

    /** The nodes that have come in were allocated in between. */
    twostate predicate Grown()
      reads this
    {
      forall n :: n in Repr ==> n in old(Repr) || fresh(n)
    }

    /** The lists are those of a state of the traversal machine. */
    ghost predicate Shown(st: State)
      reads this, endpoint, request
    {
      && |st.lists| == 2 && st.lists[0] == endpoint.contents && st.lists[1] == request.contents
      && st.next == stamps
    }

    /** Both lists are sorted and share no hook, so the theorems about traversals are about them. */
    lemma {:induction false} IsWf(st: State)
      requires Valid() && Shown(st)
      ensures WfLists(st.lists, st.next) && Apart(st.lists[0], st.lists[1])
      ensures IsStableSort(endpoint.contents, endpoint.log) && IsStableSort(request.contents, request.log)
    {
      endpoint.IsSorted(stamps);
      request.IsSorted(stamps);
    }

    constructor ()
      ensures Valid() && fresh(endpoint) && fresh(request) && Repr == {}
      ensures stamps == 0 && endpoint.log == request.log == []
    {
      endpoint := new HookList();
      request := new HookList();
      stamps, Repr := 0, {};
    }

    ghost function Spine(slot: nat): seq<Node>
      reads endpoint, request
    {
      if slot == 0 then endpoint.spine else request.spine
    }

    /** cur is the node of the hook under the cursor. */
    ghost predicate At(st: State, cur: Node)
      reads this, endpoint, request
    {
      && Shown(st) && st.which < 2 && st.cursor < |st.lists[st.which]| == |Spine(st.which)|
      && Spine(st.which)[st.cursor] == cur
    }

    /** hook_reg.  A hook goes before the first one of a strictly greater priority; registering for a
        type out of range, without a callback, or when memory runs out changes nothing.  A node that
        was under the cursor of a traversal still is. */
    method Register(r: Reg, ghost st: State, ghost cur: Node?) returns (rc: int)
      requires Valid() && Shown(st) && (cur != null ==> At(st, cur))
      modifies this, endpoint, request, Repr
      ensures Valid() && Grown()
      ensures Shown(HookRun.Register(st, r)) && (cur != null ==> At(HookRun.Register(st, r), cur))
      ensures endpoint.log == Noted(old(endpoint.log), st, r, 0) && request.log == Noted(old(request.log), st, r, 1)
      ensures rc == if Accepts(r, 2) then 0 else -1
      ensures rc == 0 <==> r.target < 2 && r.callback != 0 && r.mallocOk
    {
      if !(r.target < 2 && r.callback != NULL) {
        return -1;
      }
      if !r.mallocOk {
        return -1;
      }
      Accept(r, st, cur);
      return 0;
    }

    method Accept(r: Reg, ghost st: State, ghost cur: Node?)
      requires Valid() && Shown(st) && (cur != null ==> At(st, cur)) && Accepts(r, 2)
      modifies this, endpoint, request, Repr
      ensures Valid() && Grown()
      ensures Shown(HookRun.Register(st, r)) && (cur != null ==> At(HookRun.Register(st, r), cur))
      ensures endpoint.log == Noted(old(endpoint.log), st, r, 0) && request.log == Noted(old(request.log), st, r, 1)
    {
      var newHook := new Node(r.callback, r.priority, stamps);
      if r.target == 0 {
        AcceptForEndpoint(newHook, r, st, cur);
      } else {
        AcceptForRequest(newHook, r, st, cur);
      }
    }

    lemma {:induction false} ShownAfter(st: State, r: Reg)
      requires Accepts(r, 2) && |st.lists| == 2 && stamps == st.next + 1
      requires var e := Entry(st.next, r.callback, r.priority);
               && endpoint.contents == (if r.target == 0 then Insert(st.lists[0], e) else st.lists[0])
               && request.contents == (if r.target == 1 then Insert(st.lists[1], e) else st.lists[1])
      ensures Shown(HookRun.Register(st, r))
    {}

    lemma {:induction false} AtAfter(st: State, r: Reg, was: seq<Node>, n: Node, cur: Node)
      requires Accepts(r, 2) && |st.lists| == 2 && Shown(HookRun.Register(st, r))
      requires st.which < 2 && st.cursor < |st.lists[st.which]| == |was| && was[st.cursor] == cur
      requires Spine(st.which) ==
               if r.target == st.which then Splice(was, Slot(st.lists[st.which], r.priority), n) else was
      ensures At(HookRun.Register(st, r), cur)
    {}

    /** A hook with a new stamp may go into either list. */
    lemma {:induction false} StaysApart(e: Entry)
      requires Valid() && e.stamp == stamps
      ensures Apart(Insert(endpoint.contents, e), request.contents)
      ensures Apart(endpoint.contents, Insert(request.contents, e))
    {
      endpoint.IsSorted(stamps);
      request.IsSorted(stamps);
      InsertKeepsApart(endpoint.contents, request.contents, e);
      InsertKeepsApart(request.contents, endpoint.contents, e);
    }

    method AcceptForEndpoint(n: Node, r: Reg, ghost st: State, ghost cur: Node?)
      requires Valid() && Shown(st) && (cur != null ==> At(st, cur))
      requires Accepts(r, 2) && r.target == 0 && n !in Repr && EntryOf(n) == Entry(st.next, r.callback, r.priority)
      modifies this, endpoint, endpoint.Repr, n`next
      ensures Valid() && Repr == old(Repr) + {n}
      ensures Shown(HookRun.Register(st, r)) && (cur != null ==> At(HookRun.Register(st, r), cur))
      ensures endpoint.log == old(endpoint.log) + [EntryOf(n)]
    {
      ghost var was := Spine(st.which);
      StaysApart(EntryOf(n));
      endpoint.Insert(n);
      stamps, Repr := stamps + 1, Repr + {n};
      ShownAfter(st, r);
      if cur != null {
        AtAfter(st, r, was, n, cur);
      }
    }

    method AcceptForRequest(n: Node, r: Reg, ghost st: State, ghost cur: Node?)
      requires Valid() && Shown(st) && (cur != null ==> At(st, cur))
      requires Accepts(r, 2) && r.target == 1 && n !in Repr && EntryOf(n) == Entry(st.next, r.callback, r.priority)
      modifies this, request, request.Repr, n`next
      ensures Valid() && Repr == old(Repr) + {n}
      ensures Shown(HookRun.Register(st, r)) && (cur != null ==> At(HookRun.Register(st, r), cur))
      ensures request.log == old(request.log) + [EntryOf(n)]
    {
      ghost var was := Spine(st.which);
      StaysApart(EntryOf(n));
      request.Insert(n);
      stamps, Repr := stamps + 1, Repr + {n};
      ShownAfter(st, r);
      if cur != null {
        AtAfter(st, r, was, n, cur);
      }
    }

    /** As At, or cur is null and the cursor past the last hook. */
    ghost predicate Before(st: State, cur: Node?)
      reads this, endpoint, request
    {
      && Shown(st) && st.which < 2
      && if cur == null then st.cursor == |st.lists[st.which]| else At(st, cur)
    }

    /** What one callback does: it tries to register hooks, one after the other. */
    method Callback(regs: seq<Reg>, ghost st: State, ghost cur: Node)
      requires Valid() && At(st, cur)
      modifies this, endpoint, request, Repr
      ensures Valid() && At(RegisterAll(st, regs), cur)
      ensures Grown()
    {
      for i := 0 to |regs|
        invariant Valid() && At(RegisterAll(st, regs[..i]), cur)
        invariant Grown()
      {
        ghost var m := RegisterAll(st, regs[..i]);
        var rc := Register(regs[i], m, cur);
        assert regs[..i + 1][..i] == regs[..i];
      }
      assert regs[..|regs|] == regs;
    }

    /** The body of the loop of hook_execute: makes the callback of one hook and finds the next. */
    method Visit(cur: Node, w: World, calls: nat, ghost st: State) returns (rc: int, next: Node?, calls': nat)
      requires Valid() && At(st, cur) && st.calls == calls && st.status.Running?
      modifies this, endpoint, request, Repr
      ensures Valid() && Before(Step(st, w), next)
      ensures Grown()
      ensures calls' == Step(st, w).calls
      ensures Step(st, w).status == if rc == 0 then Running else Done(-1)
    {
      if cur.callback == NULL {
        return -1, cur, calls;
      }
      Callback(w.RegsOf(calls), st, cur);
      rc := w.rc(calls);
      calls' := calls + 1;
      next := cur.next;
      NextIsNext(st, w, cur);
    }

    /** After the callback the hook after the current one is where the machine goes on. */
    lemma {:induction false} NextIsNext(st: State, w: World, cur: Node)
      requires Valid() && InBounds(st) && st.which < 2 && st.cursor < |st.lists[st.which]|
      requires st.lists[st.which][st.cursor].callback != NULL && At(RegisterAll(st, w.RegsOf(st.calls)), cur)
      ensures Before(Step(st, w), cur.next)
    {
      var m := RegisterAll(st, w.RegsOf(st.calls));
      assert NextInLine(Spine(m.which), m.cursor);
      assert Step(st, w).lists == m.lists && Step(st, w).which == m.which && Step(st, w).next == m.next;
    }

    /** hook_execute: walks a list and makes the callback of each hook, stopping at the first that
        does not return 0.  The callbacks may splice further hooks in around the cursor. */
    method Execute(slot: nat, w: World, calls: nat, ghost st: State) returns (rc: int, calls': nat, ghost end: State)
      requires Valid() && slot < 2 && Shown(st) && st == Start(st.lists, slot, stamps, calls)
      modifies this, endpoint, request, Repr
      ensures Valid() && end == Run(st, w) && Shown(end)
      ensures Grown()
      ensures rc == end.status.rc && calls' == end.calls
    {
      calls' := calls;
      end := st;
      var cur := if slot == 0 then endpoint.head else request.head;
      while cur != null
        invariant Valid() && Before(end, cur) && end.status.Running?
        invariant end.which == slot && end.calls == calls'
        invariant Grown()
        invariant Run(end, w) == Run(st, w)
        decreases Left(end, w), |end.lists[slot]| - end.cursor
      {
        StepStaysInBounds(end, w);
        rc, cur, calls' := Visit(cur, w, calls', end);
        end := Step(end, w);
        if rc != 0 {
          return -1, calls', end;
        }
      }
      end := Step(end, w);
      rc := 0;
    }

    /** fra_p_req_hook_execute: the hooks of the endpoint, if there is one, then those for all requests. */
    method ReqExecute(hasEndpoint: bool, w: World, calls: nat, ghost st: State)
      returns (rc: int, calls': nat, ghost end: State)
      requires Valid() && Shown(st) && st == Start(st.lists, 1, stamps, calls)
      modifies this, endpoint, request, Repr
      ensures Valid() && Shown(end) && Grown()
      ensures WfLists(st.lists, st.next) && Apart(st.lists[0], st.lists[1])
      ensures end == ReqTraverse(st.lists, if hasEndpoint then Some(0) else None, 1, st.next, calls, w)
      ensures rc == end.status.rc && calls' == end.calls
    {
      IsWf(st);
      if !hasEndpoint {
        rc, calls', end := Execute(1, w, calls, st);
        return;
      }
      rc, calls', end := Execute(0, w, calls, Start(st.lists, 0, stamps, calls));
      if rc == 0 {
        ghost var first := end;
        rc, calls', end := Execute(1, w, calls', Start(first.lists, 1, stamps, first.calls));
        end := end.(trace := first.trace + end.trace);
      }
    }
  }

  lemma {:induction false} ShowsSplice(list: seq<Entry>, spine: seq<Node>, n: Node)
    requires Shows(list, spine)
    ensures Shows(Insert(list, EntryOf(n)), Splice(spine, Slot(list, n.priority), n))
  {}

  lemma {:induction false} LinkedSplice(head: Node?, spine: seq<Node>, p: nat, n: Node)
    requires p <= |spine|
    requires head == if p == 0 then n else spine[0]
    requires n.next == if p < |spine| then spine[p] else null
    requires forall i :: 0 <= i < |spine| && i != p - 1 ==> NextInLine(spine, i)
    requires p > 0 ==> spine[p - 1].next == n
    ensures Linked(head, Splice(spine, p, n))
  {
    var l := Splice(spine, p, n);
    assert l[0] == head;
    forall i | 0 <= i < |l|
      ensures NextInLine(l, i)
    {
      if i < p {
        assert i != p - 1 ==> NextInLine(spine, i);
      } else if i > p {
        assert NextInLine(spine, i - 1);
      }
    }
  }

  lemma {:induction false} SlotIs(list: seq<Entry>, priority: real, p: nat)
    requires p <= |list|
    requires forall i :: 0 <= i < p ==> list[i].priority <= priority
    requires p < |list| ==> priority < list[p].priority
    ensures Slot(list, priority) == p
  {}
}
