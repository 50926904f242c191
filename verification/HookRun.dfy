/** The interruptible traversal of src/hook.c:97-151 as a machine that makes one callback per step.

    Lists are only ever added to, and the cursor stays on its hook while hooks are spliced in
    around it.  The theorems say which hooks a traversal runs, in which order, and that it ends. */
module HookRun {
  import opened HookSpec
  import opened Wrappers

  /** An attempt to register a hook, as a callback may make it. */
  datatype Reg = Reg(target: nat, callback: nat, priority: real, mallocOk: bool)

  /** What the callbacks do: the k-th call made registers regs[k] (nothing once regs is used up) and
      returns rc(k). */
  datatype World = World(regs: seq<seq<Reg>>, rc: nat -> int) {
    function RegsOf(k: nat): seq<Reg> {
      if k < |regs| then regs[k] else []
    }
  }

  datatype Addition = Addition(target: nat, entry: Entry)

  /** One callback: the hook it belongs to and the hooks registered before it returned. */
  datatype Call = Call(hook: Entry, added: seq<Addition>)

  datatype Status = Running | Done(rc: int)

  /** All hook lists, the list being walked and how far, the next stamp, the number of callbacks made
      so far, and the callbacks of this traversal. */
  datatype State = State(lists: seq<seq<Entry>>, which: nat, cursor: nat, next: nat, calls: nat,
                         trace: seq<Call>, status: Status)

  // ---------------------------------------------------------------- the machine

  predicate Accepts(r: Reg, listCount: nat) {
    r.target < listCount && r.callback != NULL && r.mallocOk
  }

  /** The effect of one registration attempt made while the hook under the cursor runs. */
  function Register(st: State, r: Reg): State {
    if !Accepts(r, |st.lists|) then st
    else
      var e := Entry(st.next, r.callback, r.priority);
      var list := st.lists[r.target];
      st.(lists := st.lists[r.target := Insert(list, e)],
          next := st.next + 1,
          cursor := if r.target == st.which && Slot(list, r.priority) <= st.cursor then st.cursor + 1 else st.cursor)
  }

  function RegisterAll(st: State, regs: seq<Reg>): State {
    if regs == [] then st else Register(RegisterAll(st, regs[..|regs| - 1]), regs[|regs| - 1])
  }

  function Added(listCount: nat, next: nat, regs: seq<Reg>): seq<Addition> {
    if regs == [] then []
    else
      var front := Added(listCount, next, regs[..|regs| - 1]);
      var r := regs[|regs| - 1];
      if Accepts(r, listCount)
      then front + [Addition(r.target, Entry(next + |front|, r.callback, r.priority))]
      else front
  }

  predicate InBounds(st: State) {
    st.which < |st.lists| && st.cursor <= |st.lists[st.which]|
  }

  ghost predicate Wf(st: State) {
    && InBounds(st)
    && WfLists(st.lists, st.next)
  }

  ghost predicate WfList(list: seq<Entry>, next: nat) {
    && Sorted(list)
    && DistinctStamps(list, next)
    && forall i :: 0 <= i < |list| ==> list[i].callback != NULL
  }

  ghost predicate WfLists(lists: seq<seq<Entry>>, next: nat) {
    forall t :: 0 <= t < |lists| ==> WfList(lists[t], next)
  }

  ghost predicate AtHook(st: State) {
    Wf(st) && st.cursor < |st.lists[st.which]|
  }

  /** The body of the loop: run the hook under the cursor, then move on or stop. */
  function Step(st: State, w: World): State
    requires InBounds(st)
  {
    var list := st.lists[st.which];
    if st.cursor == |list| then st.(status := Done(0))
    else if list[st.cursor].callback == NULL then st.(status := Done(-1))
    else
      var regs := w.RegsOf(st.calls);
      var st' := RegisterAll(st, regs);
      var call := Call(list[st.cursor], Added(|st.lists|, st.next, regs));
      st'.(cursor := st'.cursor + 1, calls := st.calls + 1, trace := st.trace + [call],
           status := if w.rc(st.calls) == 0 then Running else Done(-1))
  }

  function Left(st: State, w: World): nat {
    if st.calls < |w.regs| then |w.regs| - st.calls else 0
  }

  /** Runs to the end.  A traversal ends because each step uses up one of the finitely many calls
      that register something or shortens the rest of the list. */
  ghost function Run(st: State, w: World): (end: State)
    requires InBounds(st)
    ensures end.status.Done?
    decreases Left(st, w), |st.lists[st.which]| - st.cursor, st.status.Running?
  {
    if st.status.Done? then st
    else
      StepStaysInBounds(st, w);
      Run(Step(st, w), w)
  }

  lemma {:induction false} RegisterStaysInBounds(st: State, r: Reg)
    requires InBounds(st)
    ensures var st' := Register(st, r);
            && InBounds(st') && st'.which == st.which && |st'.lists| == |st.lists|
            && (st.cursor < |st.lists[st.which]| ==>
                  && st'.cursor < |st'.lists[st.which]|
                  && st'.lists[st.which][st'.cursor] == st.lists[st.which][st.cursor])
  {}

  lemma {:induction false} RegisterAllStaysInBounds(st: State, regs: seq<Reg>)
    requires InBounds(st)
    ensures var st' := RegisterAll(st, regs);
            && InBounds(st') && st'.which == st.which && |st'.lists| == |st.lists|
            && (st.cursor < |st.lists[st.which]| ==>
                  && st'.cursor < |st'.lists[st.which]|
                  && st'.lists[st.which][st'.cursor] == st.lists[st.which][st.cursor])
    decreases |regs|
  {
    if regs != [] {
      RegisterAllStaysInBounds(st, regs[..|regs| - 1]);
      RegisterStaysInBounds(RegisterAll(st, regs[..|regs| - 1]), regs[|regs| - 1]);
    }
  }

  lemma {:induction false} StepStaysInBounds(st: State, w: World)
    requires InBounds(st) && st.status.Running?
    ensures var st' := Step(st, w);
            && InBounds(st') && st'.which == st.which
            && (Left(st', w) < Left(st, w) || st'.status.Done?
                || (Left(st', w) == Left(st, w) && st'.lists == st.lists && st'.cursor == st.cursor + 1))
            && (Left(st', w) < Left(st, w)
                || (Left(st', w) == Left(st, w) && st'.lists == st.lists && st'.cursor >= st.cursor))
  {
    RegisterAllStaysInBounds(st, w.RegsOf(st.calls));
  }

  function Start(lists: seq<seq<Entry>>, which: nat, next: nat, calls: nat): State {
    State(lists, which, 0, next, calls, [], Running)
  }

  // ---------------------------------------------------------------- the machine keeps its shape

  lemma {:induction false} InsertKeepsWf(list: seq<Entry>, e: Entry)
    requires WfList(list, e.stamp) && e.callback != NULL
    ensures WfList(Insert(list, e), e.stamp + 1)
  {
    InsertKeepsSorted(list, e);
  }

  lemma {:induction false} RegisterKeepsCursor(st: State, r: Reg)
    requires AtHook(st)
    ensures var st' := Register(st, r);
            && AtHook(st') && |st'.lists| == |st.lists| && st'.which == st.which
            && st'.lists[st.which][st'.cursor] == st.lists[st.which][st.cursor]
            && st'.calls == st.calls && st'.trace == st.trace && st'.status == st.status
  {
    if Accepts(r, |st.lists|) {
      InsertKeepsWf(st.lists[r.target], Entry(st.next, r.callback, r.priority));
    }
  }

  lemma {:induction false} RegisterAllKeepsCursor(st: State, regs: seq<Reg>)
    requires AtHook(st)
    ensures var st' := RegisterAll(st, regs);
            && AtHook(st') && |st'.lists| == |st.lists| && st'.which == st.which
            && st'.lists[st.which][st'.cursor] == st.lists[st.which][st.cursor]
            && st'.calls == st.calls && st'.trace == st.trace && st'.status == st.status
    decreases |regs|
  {
    if regs != [] {
      RegisterAllKeepsCursor(st, regs[..|regs| - 1]);
      RegisterKeepsCursor(RegisterAll(st, regs[..|regs| - 1]), regs[|regs| - 1]);
    }
  }

  lemma {:induction false} StepKeepsWf(st: State, w: World)
    requires Wf(st) && st.status.Running?
    ensures var st' := Step(st, w);
            && Wf(st') && |st'.lists| == |st.lists| && st'.which == st.which
            && (Left(st', w) < Left(st, w) || st'.status.Done?
                || (Left(st', w) == Left(st, w) && st'.lists == st.lists && st'.cursor == st.cursor + 1))
  {
    if st.cursor < |st.lists[st.which]| {
      RegisterAllKeepsCursor(st, w.RegsOf(st.calls));
    }
  }

  // ---------------------------------------------------------------- what a traversal runs

  function Hooks(trace: seq<Call>): (hooks: seq<Entry>)
    ensures |hooks| == |trace|
  {
    seq(|trace|, k requires 0 <= k < |trace| => trace[k].hook)
  }

  function AllAdded(trace: seq<Call>): seq<Addition> {
    if trace == [] then [] else AllAdded(trace[..|trace| - 1]) + trace[|trace| - 1].added
  }

  function AddedTo(added: seq<Addition>, t: nat): seq<Entry> {
    if added == [] then []
    else
      var front := AddedTo(added[..|added| - 1], t);
      if added[|added| - 1].target == t then front + [added[|added| - 1].entry] else front
  }

  /** The hooks that came too late to be run: registered while a hook of greater priority ran. */
  function LateIn(hook: Entry, which: nat, added: seq<Addition>): set<Entry> {
    set i | 0 <= i < |added| && added[i].target == which && added[i].entry.priority < hook.priority :: added[i].entry
  }

  function Late(trace: seq<Call>, which: nat): set<Entry> {
    if trace == [] then {}
    else Late(trace[..|trace| - 1], which) + LateIn(trace[|trace| - 1].hook, which, trace[|trace| - 1].added)
  }

  function Without(list: seq<Entry>, gone: set<Entry>): seq<Entry> {
    if list == [] then []
    else
      var front := Without(list[..|list| - 1], gone);
      if list[|list| - 1] in gone then front else front + [list[|list| - 1]]
  }

  lemma {:induction false} WithoutAppend(a: seq<Entry>, b: seq<Entry>, gone: set<Entry>)
    ensures Without(a + b, gone) == Without(a, gone) + Without(b, gone)
    decreases |b|
  {
    if b == [] {
      assert a + b == a;
    } else {
      assert (a + b)[..|a + b| - 1] == a + b[..|b| - 1];
      WithoutAppend(a, b[..|b| - 1], gone);
    }
  }

  lemma {:induction false} WithoutSame(list: seq<Entry>, gone: set<Entry>, gone': set<Entry>)
    requires forall i :: 0 <= i < |list| ==> (list[i] in gone <==> list[i] in gone')
    ensures Without(list, gone) == Without(list, gone')
  {
    if list != [] {
      WithoutSame(list[..|list| - 1], gone, gone');
    }
  }

  lemma {:induction false} AddedToAppend(a: seq<Addition>, b: seq<Addition>, t: nat)
    ensures AddedTo(a + b, t) == AddedTo(a, t) + AddedTo(b, t)
    decreases |b|
  {
    if b == [] {
      assert a + b == a;
    } else {
      assert (a + b)[..|a + b| - 1] == a + b[..|b| - 1];
      AddedToAppend(a, b[..|b| - 1], t);
    }
  }

  lemma {:induction false} InsertAllAppend(list: seq<Entry>, a: seq<Entry>, b: seq<Entry>)
    ensures InsertAll(list, a + b) == InsertAll(InsertAll(list, a), b)
    decreases |b|
  {
    if b == [] {
      assert a + b == a;
    } else {
      assert (a + b)[..|a + b| - 1] == a + b[..|b| - 1];
      InsertAllAppend(list, a, b[..|b| - 1]);
    }
  }

  /** A hook spliced in before the cursor is dropped again if it counts as late. */
  lemma {:induction false} InsertBehindCursor(list: seq<Entry>, cursor: nat, e: Entry, gone: set<Entry>)
    requires Slot(list, e.priority) <= cursor <= |list|
    requires forall i :: 0 <= i < |list| ==> list[i].stamp < e.stamp
    ensures Without(Insert(list, e)[..cursor + 1], gone + {e}) == Without(list[..cursor], gone)
  {
    var l := Insert(list, e);
    assert l[..cursor + 1][..cursor] == l[..cursor];
    if cursor == Slot(list, e.priority) {
      assert l[..cursor] == list[..cursor];
      WithoutSame(list[..cursor], gone, gone + {e});
    } else {
      assert list[..cursor][..cursor - 1] == list[..cursor - 1];
      InsertBehindCursor(list, cursor - 1, e, gone);
    }
  }

  /** Splicing a hook in on either side of the cursor does not change what has been run so far, if
      it counts as late exactly when its priority is below that of the running hook. */
  lemma {:induction false} InsertAroundCursor(list: seq<Entry>, cursor: nat, e: Entry, gone: set<Entry>)
    requires WfList(list, e.stamp) && cursor < |list|
    ensures var late := e.priority < list[cursor].priority;
            var cursor' := if Slot(list, e.priority) <= cursor then cursor + 1 else cursor;
            && (late <==> Slot(list, e.priority) <= cursor)
            && Without(Insert(list, e)[..cursor'], gone + if late then {e} else {}) == Without(list[..cursor], gone)
  {
    if Slot(list, e.priority) <= cursor {
      InsertBehindCursor(list, cursor, e, gone);
    } else {
      assert Insert(list, e)[..cursor] == list[..cursor];
      assert gone + {} == gone;
    }
  }

  /** Nothing from the cursor on is late: late hooks are spliced in behind it. */
  ghost predicate NoneLate(list: seq<Entry>, cursor: nat, gone: set<Entry>) {
    forall i :: cursor <= i < |list| ==> list[i] !in gone
  }

  lemma {:induction false} InsertKeepsNoneLate(list: seq<Entry>, cursor: nat, e: Entry, gone: set<Entry>)
    requires WfList(list, e.stamp) && cursor < |list|
    requires forall g :: g in gone ==> g.stamp < e.stamp
    requires NoneLate(list, cursor, gone)
    ensures if Slot(list, e.priority) <= cursor
            then NoneLate(Insert(list, e), cursor + 1, gone + {e})
            else NoneLate(Insert(list, e), cursor, gone)
  {
    var s, l := Slot(list, e.priority), Insert(list, e);
    forall i | cursor <= i < |l| && i != s
      ensures i < s ==> l[i] == list[i]
      ensures s < i ==> l[i] == list[i - 1]
    {}
    if s <= cursor {
      forall i | cursor + 1 <= i < |l|
        ensures l[i] !in gone + {e}
      {
        assert l[i] == list[i - 1] && list[i - 1] !in gone;
      }
    } else {
      forall i | cursor <= i < |l|
        ensures l[i] !in gone
      {
        if i < s {
          assert l[i] == list[i];
        } else if s < i {
          assert l[i] == list[i - 1] && list[i - 1] !in gone;
        }
      }
    }
  }

  lemma {:induction false} LateInAppend(hook: Entry, which: nat, added: seq<Addition>, a: Addition)
    ensures LateIn(hook, which, added + [a])
         == LateIn(hook, which, added)
            + if a.target == which && a.entry.priority < hook.priority then {a.entry} else {}
  {
    var all := added + [a];
    forall e | e in LateIn(hook, which, added)
      ensures e in LateIn(hook, which, all)
    {
      var i :| 0 <= i < |added| && added[i].target == which && added[i].entry.priority < hook.priority
        && added[i].entry == e;
      assert all[i] == added[i];
    }
    if a.target == which && a.entry.priority < hook.priority {
      assert all[|added|] == a;
    }
  }

  /** The registrations of one call take the stamps in turn and go where they are aimed. */
  lemma {:induction false} RegisterAllAdds(st: State, regs: seq<Reg>)
    ensures var st', added := RegisterAll(st, regs), Added(|st.lists|, st.next, regs);
            && |st'.lists| == |st.lists| && st'.which == st.which
            && st'.next == st.next + |added|
            && (forall i :: 0 <= i < |added| ==> added[i].entry.stamp == st.next + i)
            && (forall t :: 0 <= t < |st.lists| ==> st'.lists[t] == InsertAll(st.lists[t], AddedTo(added, t)))
    decreases |regs|
  {
    if regs != [] {
      var front, r := regs[..|regs| - 1], regs[|regs| - 1];
      var added := Added(|st.lists|, st.next, front);
      RegisterAllAdds(st, front);
      if Accepts(r, |st.lists|) {
        var a := Addition(r.target, Entry(st.next + |added|, r.callback, r.priority));
        assert (added + [a])[..|added|] == added;
        var es := AddedTo(added, r.target);
        assert (es + [a.entry])[..|es|] == es;
      }
    }
  }

  /** What was run is unchanged from st to st', where the set of late hooks grew to gone'. */
  ghost predicate Kept(st: State, gone: set<Entry>, st': State, gone': set<Entry>) {
    && AtHook(st) && AtHook(st') && st'.which == st.which
    && st'.lists[st.which][st'.cursor] == st.lists[st.which][st.cursor]
    && (forall g :: g in gone' ==> g.stamp < st'.next)
    && Without(st'.lists[st.which][..st'.cursor], gone') == Without(st.lists[st.which][..st.cursor], gone)
    && NoneLate(st'.lists[st.which], st'.cursor, gone')
  }

  /** The late hooks after one more registration. */
  function LateWith(st: State, gone: set<Entry>, r: Reg): set<Entry>
    requires st.which < |st.lists| && st.cursor < |st.lists[st.which]|
  {
    if Accepts(r, |st.lists|) && r.target == st.which && r.priority < st.lists[st.which][st.cursor].priority
    then gone + {Entry(st.next, r.callback, r.priority)}
    else gone
  }

  lemma {:induction false} RegisterAround(st: State, r: Reg, gone: set<Entry>)
    requires AtHook(st)
    requires forall g :: g in gone ==> g.stamp < st.next
    requires NoneLate(st.lists[st.which], st.cursor, gone)
    ensures Kept(st, gone, Register(st, r), LateWith(st, gone, r))
  {
    RegisterKeepsCursor(st, r);
    if Accepts(r, |st.lists|) && r.target == st.which {
      var e := Entry(st.next, r.callback, r.priority);
      assert gone + {} == gone;
      InsertAroundCursor(st.lists[st.which], st.cursor, e, gone);
      InsertKeepsNoneLate(st.lists[st.which], st.cursor, e, gone);
    }
  }

  /** The registrations of one call leave alone what has been run, up to those that came late. */
  lemma {:induction false} RegisterAllAround(st: State, regs: seq<Reg>, gone: set<Entry>)
    requires Kept(st, gone, st, gone)
    ensures var added := Added(|st.lists|, st.next, regs);
            Kept(st, gone, RegisterAll(st, regs), gone + LateIn(st.lists[st.which][st.cursor], st.which, added))
    decreases |regs|
  {
    if regs == [] {
      assert gone + LateIn(st.lists[st.which][st.cursor], st.which, []) == gone;
    } else {
      var front, hook := regs[..|regs| - 1], st.lists[st.which][st.cursor];
      RegisterAllAround(st, front, gone);
      LateNext(st, regs, gone);
      KeptNext(st, gone, RegisterAll(st, front),
               gone + LateIn(hook, st.which, Added(|st.lists|, st.next, front)), regs[|regs| - 1]);
    }
  }

  lemma {:induction false} LateNext(st: State, regs: seq<Reg>, gone: set<Entry>)
    requires InBounds(st) && st.cursor < |st.lists[st.which]| && regs != []
    ensures var front, hook := regs[..|regs| - 1], st.lists[st.which][st.cursor];
            var mid, gone' := RegisterAll(st, front), gone + LateIn(hook, st.which, Added(|st.lists|, st.next, front));
            && InBounds(mid) && mid.cursor < |mid.lists[mid.which]|
            && LateWith(mid, gone', regs[|regs| - 1]) == gone + LateIn(hook, st.which, Added(|st.lists|, st.next, regs))
  {
    RegisterAllStaysInBounds(st, regs[..|regs| - 1]);
    RegisterAllAdds(st, regs[..|regs| - 1]);
    LateGrows(st, regs, gone);
  }

  lemma {:induction false} KeptNext(st: State, gone: set<Entry>, mid: State, gone': set<Entry>, r: Reg)
    requires Kept(st, gone, mid, gone')
    ensures Kept(st, gone, Register(mid, r), LateWith(mid, gone', r))
  {
    RegisterAround(mid, r, gone');
    KeptTransitive(st, gone, mid, gone', Register(mid, r), LateWith(mid, gone', r));
  }

  lemma {:induction false} KeptTransitive(st: State, gone: set<Entry>, mid: State, gone': set<Entry>,
      st': State, gone'': set<Entry>)
    requires Kept(st, gone, mid, gone') && Kept(mid, gone', st', gone'')
    ensures Kept(st, gone, st', gone'')
  {}

  lemma {:induction false} LateGrows(st: State, regs: seq<Reg>, gone: set<Entry>)
    requires InBounds(st) && st.cursor < |st.lists[st.which]| && regs != []
    ensures var front, r, hook := regs[..|regs| - 1], regs[|regs| - 1], st.lists[st.which][st.cursor];
            var added := Added(|st.lists|, st.next, front);
            var late := Accepts(r, |st.lists|) && r.target == st.which && r.priority < hook.priority;
            gone + LateIn(hook, st.which, Added(|st.lists|, st.next, regs))
            == gone + LateIn(hook, st.which, added)
              + if late then {Entry(st.next + |added|, r.callback, r.priority)} else {}
  {
    var front, r, hook := regs[..|regs| - 1], regs[|regs| - 1], st.lists[st.which][st.cursor];
    var added := Added(|st.lists|, st.next, front);
    if Accepts(r, |st.lists|) {
      LateInAppend(hook, st.which, added, Addition(r.target, Entry(st.next + |added|, r.callback, r.priority)));
    }
  }

  /** What holds between any two calls of a traversal that began with the lists init. */
  ghost predicate Inv(st: State, init: seq<seq<Entry>>, next0: nat) {
    && Wf(st) && |st.lists| == |init|
    && InvAdded(st, init, next0)
    && InvRan(st, next0)
  }

  /** Every list has grown by exactly the hooks registered so far, stamped in order. */
  ghost predicate InvAdded(st: State, init: seq<seq<Entry>>, next0: nat)
    requires |st.lists| == |init|
  {
    var added := AllAdded(st.trace);
    && next0 + |added| == st.next
    && (forall i :: 0 <= i < |added| ==> added[i].entry.stamp == next0 + i)
    && (forall t :: 0 <= t < |init| ==> st.lists[t] == InsertAll(init[t], AddedTo(added, t)))
  }

  /** The hooks run so far are the list up to the cursor without those that came too late. */
  ghost predicate InvRan(st: State, next0: nat)
    requires Wf(st)
  {
    var list, late := st.lists[st.which], Late(st.trace, st.which);
    && (forall e :: e in late ==> next0 <= e.stamp < st.next)
    && NoneLate(list, st.cursor, late)
    && Hooks(st.trace) == Without(list[..st.cursor], late)
  }

  lemma {:induction false} StepKeepsInv(st: State, w: World, init: seq<seq<Entry>>, next0: nat)
    requires Inv(st, init, next0) && st.status.Running?
    ensures Inv(Step(st, w), init, next0)
  {
    StepKeepsWf(st, w);
    if AtHook(st) {
      StepKeepsInvAdded(st, w, init, next0);
      StepKeepsInvRan(st, w, next0);
    }
  }

  lemma {:induction false} StepKeepsInvAdded(st: State, w: World, init: seq<seq<Entry>>, next0: nat)
    requires AtHook(st) && |st.lists| == |init| && InvAdded(st, init, next0)
    ensures |Step(st, w).lists| == |init| && InvAdded(Step(st, w), init, next0)
  {
    var regs := w.RegsOf(st.calls);
    var st', added := Step(st, w), Added(|st.lists|, st.next, regs);
    RegisterAllAdds(st, regs);
    RegisterAllKeepsCursor(st, regs);
    TraceAppend(st.trace, Call(st.lists[st.which][st.cursor], added), st.which);
    forall t | 0 <= t < |init|
      ensures st'.lists[t] == InsertAll(init[t], AddedTo(AllAdded(st'.trace), t))
    {
      AddedToAppend(AllAdded(st.trace), added, t);
      InsertAllAppend(init[t], AddedTo(AllAdded(st.trace), t), AddedTo(added, t));
    }
  }

  lemma {:induction false} StepKeepsInvRan(st: State, w: World, next0: nat)
    requires AtHook(st) && InvRan(st, next0) && next0 <= st.next
    ensures Wf(Step(st, w)) && InvRan(Step(st, w), next0)
  {
    var hook := st.lists[st.which][st.cursor];
    var regs := w.RegsOf(st.calls);
    var st', mid, added := Step(st, w), RegisterAll(st, regs), Added(|st.lists|, st.next, regs);
    var late, late' := Late(st.trace, st.which), Late(st.trace, st.which) + LateIn(hook, st.which, added);
    assert Kept(st, late, mid, late') by {
      RegisterAllAround(st, regs, late);
    }
    assert forall e :: e in late' ==> next0 <= e.stamp by {
      RegisterAllAdds(st, regs);
    }
    assert mid.trace == st.trace by {
      RegisterAllKeepsCursor(st, regs);
    }
    TraceAppend(st.trace, Call(hook, added), st.which);
    WithoutNext(mid.lists[st.which], mid.cursor, late');
  }

  lemma {:induction false} TraceAppend(trace: seq<Call>, c: Call, which: nat)
    ensures Hooks(trace + [c]) == Hooks(trace) + [c.hook]
    ensures Late(trace + [c], which) == Late(trace, which) + LateIn(c.hook, which, c.added)
    ensures AllAdded(trace + [c]) == AllAdded(trace) + c.added
  {
    assert (trace + [c])[..|trace|] == trace;
  }

  lemma {:induction false} WithoutNext(list: seq<Entry>, cursor: nat, gone: set<Entry>)
    requires cursor < |list| && NoneLate(list, cursor, gone)
    ensures Without(list[..cursor + 1], gone) == Without(list[..cursor], gone) + [list[cursor]]
    ensures NoneLate(list, cursor + 1, gone)
  {
    assert list[..cursor + 1][..cursor] == list[..cursor];
  }

  // ---------------------------------------------------------------- whole traversals

  /** Every call but the last returned 0, and the last one too exactly when rc is 0. */
  ghost predicate CodesAgree(st: State, calls0: nat, w: World) {
    && st.calls == calls0 + |st.trace|
    && (forall k :: calls0 <= k < st.calls - 1 ==> w.rc(k) == 0)
    && (st.trace != [] ==> (w.rc(st.calls - 1) == 0 <==> st.status.Running? || st.status.rc == 0))
    && (st.trace == [] && st.status.Done? ==> st.status.rc == 0)
  }

  /** Where a finished traversal stands: at the end, or just past the hook whose callback failed. */
  ghost predicate StopsRightly(st: State)
    requires Wf(st)
  {
    st.status.Done? ==>
      && (st.status.rc == 0 ==> st.cursor == |st.lists[st.which]|)
      && (st.status.rc != 0 ==> st.trace != [] && 0 < st.cursor
                                && st.lists[st.which][st.cursor - 1] == st.trace[|st.trace| - 1].hook)
  }

  lemma {:induction false} StepStopsRightly(st: State, w: World, calls0: nat)
    requires Wf(st) && st.status.Running? && CodesAgree(st, calls0, w)
    ensures Wf(Step(st, w)) && CodesAgree(Step(st, w), calls0, w) && StopsRightly(Step(st, w))
  {
    StepKeepsWf(st, w);
    if AtHook(st) {
      RegisterAllKeepsCursor(st, w.RegsOf(st.calls));
    }
  }

  lemma {:induction false} RunKeepsInv(st: State, w: World, init: seq<seq<Entry>>, next0: nat, calls0: nat)
    requires Inv(st, init, next0) && CodesAgree(st, calls0, w) && StopsRightly(st)
    ensures var end := Run(st, w);
            Inv(end, init, next0) && CodesAgree(end, calls0, w) && StopsRightly(end) && end.which == st.which
    decreases Left(st, w), |st.lists[st.which]| - st.cursor, st.status.Running?
  {
    if st.status.Running? {
      StepKeepsInv(st, w, init, next0);
      StepKeepsWf(st, w);
      StepStopsRightly(st, w, calls0);
      RunKeepsInv(Step(st, w), w, init, next0, calls0);
    }
  }

  /** The result of walking lists[which]. */
  ghost function Traverse(lists: seq<seq<Entry>>, which: nat, next: nat, calls: nat, w: World): (end: State)
    requires WfLists(lists, next) && which < |lists|
    ensures end.status.Done?
  {
    Run(Start(lists, which, next, calls), w)
  }

  /** The main result: a traversal runs, in list order and each once, the hooks up to where it
      stopped, except those that were registered while a hook of greater priority was running. */
  lemma {:induction false} TraversalRuns(lists: seq<seq<Entry>>, which: nat, next: nat, calls: nat, w: World)
    requires WfLists(lists, next) && which < |lists|
    ensures var end := Traverse(lists, which, next, calls, w);
            && Inv(end, lists, next) && CodesAgree(end, calls, w) && StopsRightly(end) && end.which == which
            && Hooks(end.trace) == Without(end.lists[which][..end.cursor], Late(end.trace, which))
  {
    var st := Start(lists, which, next, calls);
    assert AllAdded(st.trace) == [] && lists[which][..0] == [];
    RunKeepsInv(st, w, lists, next, calls);
  }

  lemma {:induction false} WithoutMembers(list: seq<Entry>, gone: set<Entry>, e: Entry)
    ensures e in Without(list, gone) <==> e in list && e !in gone
  {
    if list != [] {
      var front, last := list[..|list| - 1], list[|list| - 1];
      WithoutMembers(front, gone, e);
      assert list == front + [last];
    }
  }

  lemma {:induction false} WithoutDistinct(list: seq<Entry>, gone: set<Entry>, next: nat)
    requires DistinctStamps(list, next)
    ensures DistinctStamps(Without(list, gone), next)
  {
    if list != [] {
      var front, last := list[..|list| - 1], list[|list| - 1];
      WithoutDistinct(front, gone, next);
      forall i | 0 <= i < |Without(front, gone)|
        ensures Without(front, gone)[i].stamp != last.stamp
      {
        WithoutMembers(front, gone, Without(front, gone)[i]);
      }
    }
  }

  /** No hook runs twice in one traversal. */
  lemma {:induction false} NoHookRunsTwice(lists: seq<seq<Entry>>, which: nat, next: nat, calls: nat, w: World,
      end: State)
    requires WfLists(lists, next) && which < |lists| && end == Traverse(lists, which, next, calls, w)
    ensures forall i, j :: 0 <= i < j < |end.trace| ==> end.trace[i].hook != end.trace[j].hook
  {
    TraversalRuns(lists, which, next, calls, w);
    var hooks := Hooks(end.trace);
    assert forall i :: 0 <= i < |end.trace| ==> end.trace[i].hook == hooks[i];
    WithoutDistinct(end.lists[which][..end.cursor], Late(end.trace, which), end.next);
  }

  /** The entries of a list that were registered before the stamp next0. */
  function Old(list: seq<Entry>, next0: nat): seq<Entry> {
    if list == [] then []
    else
      var front := Old(list[..|list| - 1], next0);
      if list[|list| - 1].stamp < next0 then front + [list[|list| - 1]] else front
  }

  lemma {:induction false} OldAppend(a: seq<Entry>, b: seq<Entry>, next0: nat)
    ensures Old(a + b, next0) == Old(a, next0) + Old(b, next0)
    decreases |b|
  {
    if b == [] {
      assert a + b == a;
    } else {
      assert (a + b)[..|a + b| - 1] == a + b[..|b| - 1];
      OldAppend(a, b[..|b| - 1], next0);
    }
  }

  lemma {:induction false} OldSplit(list: seq<Entry>, s: nat, next0: nat)
    requires s <= |list|
    ensures Old(list, next0) == Old(list[..s], next0) + Old(list[s..], next0)
  {
    OldAppend(list[..s], list[s..], next0);
    assert list[..s] + list[s..] == list;
  }

  lemma {:induction false} OldInsert(list: seq<Entry>, e: Entry, next0: nat)
    requires next0 <= e.stamp
    ensures Old(Insert(list, e), next0) == Old(list, next0)
  {
    var s := Slot(list, e.priority);
    assert Old([e], next0) == [];
    InsertSplits(list, e);
    OldAppend(list[..s], [e], next0);
    OldAppend(list[..s] + [e], list[s..], next0);
    OldSplit(list, s, next0);
  }

  lemma {:induction false} OldInsertAll(list: seq<Entry>, es: seq<Entry>, next0: nat)
    requires forall i :: 0 <= i < |es| ==> next0 <= es[i].stamp
    ensures Old(InsertAll(list, es), next0) == Old(list, next0)
    decreases |es|
  {
    if es != [] {
      OldInsertAll(list, es[..|es| - 1], next0);
      OldInsert(InsertAll(list, es[..|es| - 1]), es[|es| - 1], next0);
    }
  }

  lemma {:induction false} OldAll(list: seq<Entry>, next0: nat)
    requires forall i :: 0 <= i < |list| ==> list[i].stamp < next0
    ensures Old(list, next0) == list
  {
    if list != [] {
      OldAll(list[..|list| - 1], next0);
    }
  }

  lemma {:induction false} OldWithout(list: seq<Entry>, gone: set<Entry>, next0: nat)
    requires forall g :: g in gone ==> next0 <= g.stamp
    ensures Old(Without(list, gone), next0) == Old(list, next0)
  {
    if list != [] {
      var front, last := list[..|list| - 1], list[|list| - 1];
      OldWithout(front, gone, next0);
      if last !in gone {
        assert (Without(front, gone) + [last])[..|Without(front, gone)|] == Without(front, gone);
      }
    }
  }

  lemma {:induction false} AddedToStamps(added: seq<Addition>, t: nat, next0: nat)
    requires forall i :: 0 <= i < |added| ==> next0 <= added[i].entry.stamp
    ensures forall i :: 0 <= i < |AddedTo(added, t)| ==> next0 <= AddedTo(added, t)[i].stamp
  {
    if added != [] {
      AddedToStamps(added[..|added| - 1], t, next0);
    }
  }

  /** The hooks that were there at the start -- or at any time before it -- run in their order: all
      of them unless a callback fails, and otherwise those up to the failure. */
  lemma {:induction false} OldHooksRunInOrder(lists: seq<seq<Entry>>, which: nat, next: nat, calls: nat,
      w: World, end: State, next0: nat)
    requires WfLists(lists, next) && which < |lists| && end == Traverse(lists, which, next, calls, w)
    requires next0 <= next
    ensures Old(Hooks(end.trace), next0) <= Old(lists[which], next0)
    ensures end.status.rc == 0 ==> Old(Hooks(end.trace), next0) == Old(lists[which], next0)
    ensures |end.lists| == |lists| && forall t :: 0 <= t < |lists| ==> Old(end.lists[t], next0) == Old(lists[t], next0)
  {
    TraversalRuns(lists, which, next, calls, w);
    forall t | 0 <= t < |lists|
      ensures Old(end.lists[t], next0) == Old(lists[t], next0)
    {
      var added := AddedTo(AllAdded(end.trace), t);
      AddedToStamps(AllAdded(end.trace), t, next);
      OldInsertAll(lists[t], added, next0);
    }
    var list := end.lists[which];
    OldWithout(list[..end.cursor], Late(end.trace, which), next0);
    OldSplit(list, end.cursor, next0);
  }

  lemma {:induction false} InitialHooksRunInOrder(lists: seq<seq<Entry>>, which: nat, next: nat, calls: nat,
      w: World, end: State)
    requires WfLists(lists, next) && which < |lists| && end == Traverse(lists, which, next, calls, w)
    ensures Old(Hooks(end.trace), next) <= lists[which]
    ensures end.status.rc == 0 ==> Old(Hooks(end.trace), next) == lists[which]
  {
    OldHooksRunInOrder(lists, which, next, calls, w, end, next);
    OldAll(lists[which], next);
  }

  lemma {:induction false} LateHas(trace: seq<Call>, which: nat, k: nat, i: nat)
    requires k < |trace| && i < |trace[k].added| && trace[k].added[i].target == which
    requires trace[k].added[i].entry.priority < trace[k].hook.priority
    ensures trace[k].added[i].entry in Late(trace, which)
  {
    if k < |trace| - 1 {
      LateHas(trace[..|trace| - 1], which, k, i);
    }
  }

  lemma {:induction false} LateOrigin(trace: seq<Call>, which: nat, e: Entry) returns (k: nat, i: nat)
    requires e in Late(trace, which)
    ensures k < |trace| && i < |trace[k].added| && trace[k].added[i] == Addition(which, e)
    ensures e.priority < trace[k].hook.priority
  {
    var last := trace[|trace| - 1];
    if e in LateIn(last.hook, which, last.added) {
      k := |trace| - 1;
      i :| 0 <= i < |last.added| && last.added[i].target == which
           && last.added[i].entry.priority < last.hook.priority && last.added[i].entry == e;
    } else {
      k, i := LateOrigin(trace[..|trace| - 1], which, e);
    }
  }

  /** The place of the i-th addition of call k among all additions. */
  function FlatIndex(trace: seq<Call>, k: nat, i: nat): nat
    requires k < |trace|
  {
    |AllAdded(trace[..k])| + i
  }

  lemma {:induction false} FlatIndexFinds(trace: seq<Call>, k: nat, i: nat)
    requires k < |trace| && i < |trace[k].added|
    ensures FlatIndex(trace, k, i) < |AllAdded(trace)|
    ensures AllAdded(trace)[FlatIndex(trace, k, i)] == trace[k].added[i]
    ensures FlatIndex(trace, k, i) < |AllAdded(trace[..k + 1])|
    decreases |trace|
  {
    assert trace[..k + 1][..k] == trace[..k];
    if k < |trace| - 1 {
      var front := trace[..|trace| - 1];
      assert front[..k] == trace[..k];
      FlatIndexFinds(front, k, i);
    } else {
      assert trace[..k + 1] == trace;
    }
  }

  lemma {:induction false} AllAddedGrows(trace: seq<Call>, k: nat, l: nat)
    requires k <= l <= |trace|
    ensures |AllAdded(trace[..k])| <= |AllAdded(trace[..l])|
    decreases l - k
  {
    if k < l {
      assert trace[..l][..l - 1] == trace[..l - 1];
      AllAddedGrows(trace, k, l - 1);
    }
  }

  /** The additions of a trace are told apart by their stamps, so a hook is late exactly if the call
      that registered it belongs to a hook of greater priority. */
  lemma {:induction false} LateIff(trace: seq<Call>, which: nat, next0: nat, k: nat, i: nat)
    requires k < |trace| && i < |trace[k].added| && trace[k].added[i].target == which
    requires forall n :: 0 <= n < |AllAdded(trace)| ==> AllAdded(trace)[n].entry.stamp == next0 + n
    ensures var e := trace[k].added[i].entry; e in Late(trace, which) <==> e.priority < trace[k].hook.priority
  {
    var e := trace[k].added[i].entry;
    if e.priority < trace[k].hook.priority {
      LateHas(trace, which, k, i);
    } else if e in Late(trace, which) {
      var k', i' := LateOrigin(trace, which, e);
      SameAddition(trace, next0, k, i, k', i');
    }
  }

  lemma {:induction false} SameAddition(trace: seq<Call>, next0: nat, k: nat, i: nat, k': nat, i': nat)
    requires k < |trace| && i < |trace[k].added| && k' < |trace| && i' < |trace[k'].added|
    requires forall n :: 0 <= n < |AllAdded(trace)| ==> AllAdded(trace)[n].entry.stamp == next0 + n
    requires trace[k].added[i].entry == trace[k'].added[i'].entry
    ensures k == k'
  {
    FlatIndexFinds(trace, k, i);
    FlatIndexFinds(trace, k', i');
    if k < k' {
      AllAddedGrows(trace, k + 1, k');
    } else if k' < k {
      AllAddedGrows(trace, k' + 1, k);
    }
  }

  /** A hook registered in mid-traversal into the list being walked runs exactly when its priority is
      at least that of the hook running at the time and no failure stops the walk before it. */
  lemma {:induction false} NewHookRunsWhen(lists: seq<seq<Entry>>, which: nat, next: nat, calls: nat, w: World,
      end: State, k: nat, i: nat)
    requires WfLists(lists, next) && which < |lists| && end == Traverse(lists, which, next, calls, w)
    requires k < |end.trace| && i < |end.trace[k].added| && end.trace[k].added[i].target == which
    ensures |end.lists| == |lists| && end.cursor <= |end.lists[which]|
    ensures var e := end.trace[k].added[i].entry;
            && (e in Hooks(end.trace) <==>
                e in end.lists[which][..end.cursor] && end.trace[k].hook.priority <= e.priority)
            && e in end.lists[which]
  {
    TraversalRuns(lists, which, next, calls, w);
    var e := end.trace[k].added[i].entry;
    WithoutMembers(end.lists[which][..end.cursor], Late(end.trace, which), e);
    LateIff(end.trace, which, next, k, i);
    assert e in end.lists[which] by {
      FlatIndexFinds(end.trace, k, i);
      AddedToHas(AllAdded(end.trace), FlatIndex(end.trace, k, i));
      InsertAllHas(lists[which], AddedTo(AllAdded(end.trace), which), e);
    }
  }

  /** Of two hooks of one list, e has its place behind f. */
  predicate Behind(e: Entry, f: Entry) {
    f.priority < e.priority || (f.priority == e.priority && f.stamp < e.stamp)
  }

  /** The same in closed form.  After a traversal that succeeds, a new hook has run exactly if its
      priority is at least that of the hook that was running when it was registered.  If the callback
      of a hook fails, its place must also not be behind that one. */
  lemma {:induction false} NewHookRunsIff(lists: seq<seq<Entry>>, which: nat, next: nat, calls: nat, w: World,
      end: State, k: nat, i: nat)
    requires WfLists(lists, next) && which < |lists| && end == Traverse(lists, which, next, calls, w)
    requires k < |end.trace| && i < |end.trace[k].added| && end.trace[k].added[i].target == which
    ensures var e, last := end.trace[k].added[i].entry, end.trace[|end.trace| - 1].hook;
            e in Hooks(end.trace) <==>
              end.trace[k].hook.priority <= e.priority && (end.status.rc == 0 || !Behind(e, last))
  {
    TraversalRuns(lists, which, next, calls, w);
    NewHookRunsWhen(lists, which, next, calls, w, end, k, i);
    var e, list := end.trace[k].added[i].entry, end.lists[which];
    if end.status.rc == 0 {
      assert list[..end.cursor] == list;
    } else {
      assert e.stamp >= next by {
        FlatIndexFinds(end.trace, k, i);
      }
      TraversalKeepsNewer(lists, which, next, calls, w, end, which, next);
      PlaceBefore(list, end.cursor - 1, e, next);
    }
  }

  /** A hook registered since stamp next0 is followed, among those of its priority, by later ones. */
  ghost predicate NewerBehind(list: seq<Entry>, next0: nat) {
    forall i, j :: 0 <= i < j < |list| && next0 <= list[i].stamp ==> Behind(list[j], list[i])
  }

  ghost predicate Ascending(es: seq<Entry>, from: nat) {
    && (forall i :: 0 <= i < |es| ==> from <= es[i].stamp)
    && (forall i, j :: 0 <= i < j < |es| ==> es[i].stamp < es[j].stamp)
  }

  lemma {:induction false} AddedToAscends(added: seq<Addition>, t: nat, next0: nat)
    requires forall n :: 0 <= n < |added| ==> added[n].entry.stamp == next0 + n
    ensures Ascending(AddedTo(added, t), next0)
    ensures forall i :: 0 <= i < |AddedTo(added, t)| ==> AddedTo(added, t)[i].stamp < next0 + |added|
  {
    if added != [] {
      AddedToAscends(added[..|added| - 1], t, next0);
    }
  }

  lemma {:induction false} InsertKeepsNewer(list: seq<Entry>, e: Entry, next0: nat)
    requires Sorted(list) && NewerBehind(list, next0) && forall i :: 0 <= i < |list| ==> list[i].stamp < e.stamp
    ensures Sorted(Insert(list, e)) && NewerBehind(Insert(list, e), next0)
  {
    InsertKeepsSorted(list, e);
    var s, l := Slot(list, e.priority), Insert(list, e);
    forall i, j | 0 <= i < j < |l| && next0 <= l[i].stamp
      ensures Behind(l[j], l[i])
    {
      if i != s && j != s {
        var i', j' := if i < s then i else i - 1, if j < s then j else j - 1;
        assert l[i] == list[i'] && l[j] == list[j'];
      }
    }
  }

  lemma {:induction false} InsertAllKeepsNewer(list: seq<Entry>, es: seq<Entry>, next0: nat, from: nat, bound: nat)
    requires Sorted(list) && NewerBehind(list, next0) && forall i :: 0 <= i < |list| ==> list[i].stamp < from
    requires Ascending(es, from) && from <= bound && forall i :: 0 <= i < |es| ==> es[i].stamp < bound
    ensures Sorted(InsertAll(list, es)) && NewerBehind(InsertAll(list, es), next0)
    ensures forall i :: 0 <= i < |InsertAll(list, es)| ==> InsertAll(list, es)[i].stamp < bound
    decreases |es|
  {
    if es != [] {
      var front, e := es[..|es| - 1], es[|es| - 1];
      InsertAllKeepsNewer(list, front, next0, from, e.stamp);
      InsertKeepsNewer(InsertAll(list, front), e, next0);
    }
  }

  lemma {:induction false} TraversalKeepsNewer(lists: seq<seq<Entry>>, which: nat, next: nat, calls: nat, w: World,
      end: State, t: nat, next0: nat)
    requires WfLists(lists, next) && which < |lists| && end == Traverse(lists, which, next, calls, w)
    requires t < |lists| && NewerBehind(lists[t], next0)
    ensures |end.lists| == |lists| && Sorted(end.lists[t]) && NewerBehind(end.lists[t], next0)
  {
    TraversalRuns(lists, which, next, calls, w);
    var added := AllAdded(end.trace);
    AddedToAscends(added, t, next);
    InsertAllKeepsNewer(lists[t], AddedTo(added, t), next0, next, next + |added|);
  }

  /** A new hook is among the first c + 1 exactly if its place is not behind that of the c-th. */
  lemma {:induction false} PlaceBefore(list: seq<Entry>, c: nat, e: Entry, next0: nat)
    requires Sorted(list) && NewerBehind(list, next0) && c < |list| && e in list && next0 <= e.stamp
    ensures e in list[..c + 1] <==> !Behind(e, list[c])
  {
    var p :| 0 <= p < |list| && list[p] == e;
    if p <= c {
      assert list[..c + 1][p] == e;
      assert p < c ==> Behind(list[c], e);
    } else {
      assert Behind(e, list[c]) by {
        if next0 <= list[c].stamp {
          assert Behind(list[p], list[c]);
        } else {
          assert list[c].priority <= list[p].priority;
        }
      }
      forall q | 0 <= q <= c
        ensures list[q] != e
      {
        assert next0 <= list[q].stamp ==> Behind(list[p], list[q]);
      }
    }
  }

  lemma {:induction false} AddedToHas(added: seq<Addition>, i: nat)
    requires i < |added|
    ensures added[i].entry in AddedTo(added, added[i].target)
  {
    if i < |added| - 1 {
      AddedToHas(added[..|added| - 1], i);
    }
  }

  lemma {:induction false} InsertHas(list: seq<Entry>, e: Entry, x: Entry)
    requires x in list || x == e
    ensures x in Insert(list, e)
  {
    var s, l := Slot(list, e.priority), Insert(list, e);
    if x == e {
      assert l[s] == x;
    } else {
      var i :| 0 <= i < |list| && list[i] == x;
      assert l[if i < s then i else i + 1] == x;
    }
  }

  lemma {:induction false} InsertAllHas(list: seq<Entry>, es: seq<Entry>, e: Entry)
    requires e in list || e in es
    ensures e in InsertAll(list, es)
    decreases |es|
  {
    if es != [] {
      var front, last := es[..|es| - 1], es[|es| - 1];
      if e != last {
        assert e in es ==> e in front;
        InsertAllHas(list, front, e);
      }
      InsertHas(InsertAll(list, front), last, e);
    }
  }

  // ---------------------------------------------------------------- endpoint hooks, then request hooks

  /** fra_p_req_hook_execute: the endpoint's list, if the request has an endpoint, and unless that
      fails the list for all requests. */
  ghost function ReqTraverse(lists: seq<seq<Entry>>, endpoint: Option<nat>, req: nat, next: nat, calls: nat,
      w: World): (end: State)
    requires WfLists(lists, next) && req < |lists| && (endpoint.Some? ==> endpoint.value < |lists|)
    ensures end.status.Done?
  {
    match endpoint
    case None => Traverse(lists, req, next, calls, w)
    case Some(e) =>
      var a := Traverse(lists, e, next, calls, w);
      TraversalRuns(lists, e, next, calls, w);
      if a.status.rc != 0 then a
      else
        var b := Traverse(a.lists, req, a.next, a.calls, w);
        b.(trace := a.trace + b.trace)
  }

  /** The callbacks with numbers in [from, to) were made, all but the last returned 0, and so did the
      last exactly when rc is 0. */
  ghost predicate CodesOf(from: nat, to: nat, rc: int, w: World) {
    && (forall k :: from <= k < to - 1 ==> w.rc(k) == 0)
    && (rc == 0 <==> forall k :: from <= k < to ==> w.rc(k) == 0)
  }

  /** A traversal stops at the first callback that does not return 0, and returns 0 exactly when
      every callback did. */
  lemma {:induction false} TraversalStopsAtFailure(lists: seq<seq<Entry>>, which: nat, next: nat, calls: nat,
      w: World, end: State)
    requires WfLists(lists, next) && which < |lists| && end == Traverse(lists, which, next, calls, w)
    ensures end.calls == calls + |end.trace| && CodesOf(calls, end.calls, end.status.rc, w)
    ensures forall k :: calls <= k < end.calls - 1 ==> w.rc(k) == 0
    ensures end.status.rc == 0 <==> forall k :: calls <= k < end.calls ==> w.rc(k) == 0
    ensures WfLists(end.lists, end.next) && |end.lists| == |lists|
  {
    TraversalRuns(lists, which, next, calls, w);
  }

  /** So do the lists of a request, as one sequence, whether it has an endpoint or not. */
  lemma {:induction false} ReqHooksStopAtFailure(lists: seq<seq<Entry>>, endpoint: Option<nat>, req: nat, next: nat,
      calls: nat, w: World, end: State)
    requires WfLists(lists, next) && req < |lists| && (endpoint.Some? ==> endpoint.value < |lists|)
    requires end == ReqTraverse(lists, endpoint, req, next, calls, w)
    ensures end.calls == calls + |end.trace|
    ensures forall k :: calls <= k < end.calls - 1 ==> w.rc(k) == 0
    ensures end.status.rc == 0 <==> forall k :: calls <= k < end.calls ==> w.rc(k) == 0
  {
    if endpoint.None? {
      TraversalStopsAtFailure(lists, req, next, calls, w, end);
    } else {
      BothStopAtFailure(lists, endpoint.value, req, next, calls, w, end);
    }
  }

  lemma {:induction false} BothStopAtFailure(lists: seq<seq<Entry>>, e: nat, req: nat, next: nat,
      calls: nat, w: World, end: State)
    requires WfLists(lists, next) && req < |lists| && e < |lists|
    requires end == ReqTraverse(lists, Some(e), req, next, calls, w)
    ensures end.calls == calls + |end.trace| && CodesOf(calls, end.calls, end.status.rc, w)
  {
    var a := Traverse(lists, e, next, calls, w);
    TraversalStopsAtFailure(lists, e, next, calls, w, a);
    if a.status.rc == 0 {
      var b := Traverse(a.lists, req, a.next, a.calls, w);
      TraversalStopsAtFailure(a.lists, req, a.next, a.calls, w, b);
      CodesJoin(calls, a.calls, b.calls, b.status.rc, w);
    }
  }

  lemma {:induction false} CodesJoin(from: nat, mid: nat, to: nat, rc: int, w: World)
    requires from <= mid <= to
    requires CodesOf(from, mid, 0, w) && CodesOf(mid, to, rc, w)
    ensures CodesOf(from, to, rc, w)
  {}

  /** The hooks that were there at the start run in order, those of the endpoint first if there is one. */
  lemma {:induction false} ReqHooksRunInOrder(lists: seq<seq<Entry>>, endpoint: Option<nat>, req: nat, next: nat,
      calls: nat, w: World, end: State)
    requires WfLists(lists, next) && req < |lists| && (endpoint.Some? ==> endpoint.value < |lists|)
    requires end == ReqTraverse(lists, endpoint, req, next, calls, w)
    ensures var all := if endpoint.Some? then lists[endpoint.value] + lists[req] else lists[req];
            && Old(Hooks(end.trace), next) <= all
            && (end.status.rc == 0 ==> Old(Hooks(end.trace), next) == all)
  {
    if endpoint.None? {
      InitialHooksRunInOrder(lists, req, next, calls, w, end);
    } else {
      BothRunInOrder(lists, endpoint.value, req, next, calls, w, end);
    }
  }

  lemma {:induction false} BothRunInOrder(lists: seq<seq<Entry>>, e: nat, req: nat, next: nat, calls: nat,
      w: World, end: State)
    requires WfLists(lists, next) && req < |lists| && e < |lists|
    requires end == ReqTraverse(lists, Some(e), req, next, calls, w)
    ensures Old(Hooks(end.trace), next) <= lists[e] + lists[req]
    ensures end.status.rc == 0 ==> Old(Hooks(end.trace), next) == lists[e] + lists[req]
  {
    var a := Traverse(lists, e, next, calls, w);
    InitialHooksRunInOrder(lists, e, next, calls, w, a);
    if a.status.rc == 0 {
      assert WfLists(a.lists, a.next) && next <= a.next && |a.lists| == |lists| by {
        TraversalRuns(lists, e, next, calls, w);
      }
      var b := Traverse(a.lists, req, a.next, a.calls, w);
      assert Old(a.lists[req], next) == lists[req] by {
        OldHooksRunInOrder(lists, e, next, calls, w, a, next);
        OldAll(lists[req], next);
      }
      OldHooksRunInOrder(a.lists, req, a.next, a.calls, w, b, next);
      assert Hooks(a.trace + b.trace) == Hooks(a.trace) + Hooks(b.trace);
      OldAppend(Hooks(a.trace), Hooks(b.trace), next);
    }
  }

  // ---------------------------------------------------------------- hooks registered while either list is walked

  /** No hook is in both lists. */
  ghost predicate Apart(a: seq<Entry>, b: seq<Entry>) {
    forall i, j :: 0 <= i < |a| && 0 <= j < |b| ==> a[i].stamp != b[j].stamp
  }

  lemma {:induction false} InsertKeepsApart(a: seq<Entry>, b: seq<Entry>, e: Entry)
    requires Apart(a, b) && forall j :: 0 <= j < |b| ==> b[j].stamp < e.stamp
    ensures Apart(Insert(a, e), b)
  {}

  /** What became of a list in a traversal: some hooks were added, with stamps of their own. */
  lemma {:induction false} TraversalAdds(lists: seq<seq<Entry>>, which: nat, next: nat, calls: nat, w: World,
      end: State, t: nat)
    requires WfLists(lists, next) && which < |lists| && end == Traverse(lists, which, next, calls, w) && t < |lists|
    ensures |end.lists| == |lists| && next <= end.next && WfLists(end.lists, end.next)
    ensures forall x :: x in lists[t] ==> x in end.lists[t]
    ensures forall x :: x in end.lists[t] ==> x in lists[t] || Addition(t, x) in AllAdded(end.trace)
  {
    TraversalRuns(lists, which, next, calls, w);
    var es := AddedTo(AllAdded(end.trace), t);
    forall x | x in lists[t]
      ensures x in end.lists[t]
    {
      InsertAllHas(lists[t], es, x);
    }
    forall x | x in end.lists[t]
      ensures x in lists[t] || Addition(t, x) in AllAdded(end.trace)
    {
      InsertAllOnly(lists[t], es, x);
      if x in es {
        AddedToOnly(AllAdded(end.trace), t, x);
      }
    }
  }

  lemma {:induction false} InsertAllOnly(list: seq<Entry>, es: seq<Entry>, x: Entry)
    requires x in InsertAll(list, es)
    ensures x in list || x in es
    decreases |es|
  {
    if es != [] {
      var front, last := es[..|es| - 1], es[|es| - 1];
      var l := InsertAll(list, front);
      if x != last {
        var i :| 0 <= i < |l| + 1 && Insert(l, last)[i] == x;
        assert x == l[if i < Slot(l, last.priority) then i else i - 1];
        InsertAllOnly(list, front, x);
      }
    }
  }

  lemma {:induction false} AddedToOnly(added: seq<Addition>, t: nat, x: Entry)
    requires x in AddedTo(added, t)
    ensures Addition(t, x) in added
  {
    var front, last := added[..|added| - 1], added[|added| - 1];
    if last != Addition(t, x) {
      AddedToOnly(front, t, x);
    }
  }

  /** A traversal keeps two lists apart. */
  lemma {:induction false} TraversalKeepsApart(lists: seq<seq<Entry>>, which: nat, next: nat, calls: nat, w: World,
      end: State, t: nat, u: nat)
    requires WfLists(lists, next) && which < |lists| && end == Traverse(lists, which, next, calls, w)
    requires t < |lists| && u < |lists| && t != u && Apart(lists[t], lists[u])
    ensures |end.lists| == |lists| && Apart(end.lists[t], end.lists[u])
  {
    TraversalRuns(lists, which, next, calls, w);
    TraversalAdds(lists, which, next, calls, w, end, t);
    TraversalAdds(lists, which, next, calls, w, end, u);
    forall i, j | 0 <= i < |end.lists[t]| && 0 <= j < |end.lists[u]|
      ensures end.lists[t][i].stamp != end.lists[u][j].stamp
    {
      var x, y := end.lists[t][i], end.lists[u][j];
      assert x in end.lists[t] && y in end.lists[u];
      AddedStamps(lists, which, next, calls, w, end, x, t, y, u);
    }
  }

  lemma {:induction false} AddedStamps(lists: seq<seq<Entry>>, which: nat, next: nat, calls: nat, w: World,
      end: State, x: Entry, t: nat, y: Entry, u: nat)
    requires WfLists(lists, next) && which < |lists| && end == Traverse(lists, which, next, calls, w)
    requires t < |lists| && u < |lists| && t != u && Apart(lists[t], lists[u])
    requires x in lists[t] || Addition(t, x) in AllAdded(end.trace)
    requires y in lists[u] || Addition(u, y) in AllAdded(end.trace)
    ensures x.stamp != y.stamp
  {
    TraversalRuns(lists, which, next, calls, w);
    assert WfList(lists[t], next) && WfList(lists[u], next);
    if x in lists[t] {
      assert x.stamp < next;
    }
    if y in lists[u] {
      assert y.stamp < next;
    }
  }

  /** The hooks run are in the list that was walked, and an added one is in the list it was aimed at. */
  lemma {:induction false} RunIsIn(lists: seq<seq<Entry>>, which: nat, next: nat, calls: nat, w: World, end: State)
    requires WfLists(lists, next) && which < |lists| && end == Traverse(lists, which, next, calls, w)
    ensures |end.lists| == |lists| && forall x :: x in Hooks(end.trace) ==> x in end.lists[which]
    ensures forall k, i :: 0 <= k < |end.trace| && 0 <= i < |end.trace[k].added| ==>
              IsAdded(end.lists, end.trace[k].added[i], next, end.next)
  {
    TraversalRuns(lists, which, next, calls, w);
    forall x | x in Hooks(end.trace)
      ensures x in end.lists[which]
    {
      WithoutMembers(end.lists[which][..end.cursor], Late(end.trace, which), x);
    }
    forall k, i | 0 <= k < |end.trace| && 0 <= i < |end.trace[k].added|
      ensures IsAdded(end.lists, end.trace[k].added[i], next, end.next)
    {
      var a := end.trace[k].added[i];
      FlatIndexFinds(end.trace, k, i);
      if a.target < |lists| {
        AddedToHas(AllAdded(end.trace), FlatIndex(end.trace, k, i));
        InsertAllHas(lists[a.target], AddedTo(AllAdded(end.trace), a.target), a.entry);
      }
    }
  }

  ghost predicate IsAdded(lists: seq<seq<Entry>>, a: Addition, next: nat, next': nat) {
    next <= a.entry.stamp < next' && (a.target < |lists| ==> a.entry in lists[a.target])
  }

  /** No hook runs twice while the hooks of a request are executed. */
  lemma {:induction false} NoReqHookRunsTwice(lists: seq<seq<Entry>>, endpoint: Option<nat>, req: nat, next: nat,
      calls: nat, w: World, end: State)
    requires WfLists(lists, next) && req < |lists|
    requires endpoint.Some? ==>
               endpoint.value < |lists| && endpoint.value != req && Apart(lists[endpoint.value], lists[req])
    requires end == ReqTraverse(lists, endpoint, req, next, calls, w)
    ensures forall i, j :: 0 <= i < j < |end.trace| ==> end.trace[i].hook != end.trace[j].hook
  {
    if endpoint.None? {
      NoHookRunsTwice(lists, req, next, calls, w, end);
    } else {
      NoneOfBothRunsTwice(lists, endpoint.value, req, next, calls, w, end);
    }
  }

  lemma {:induction false} NoneOfBothRunsTwice(lists: seq<seq<Entry>>, e: nat, req: nat, next: nat, calls: nat,
      w: World, end: State)
    requires WfLists(lists, next) && req < |lists| && e < |lists| && e != req && Apart(lists[e], lists[req])
    requires end == ReqTraverse(lists, Some(e), req, next, calls, w)
    ensures forall i, j :: 0 <= i < j < |end.trace| ==> end.trace[i].hook != end.trace[j].hook
  {
    var a := Traverse(lists, e, next, calls, w);
    NoHookRunsTwice(lists, e, next, calls, w, a);
    TraversalAdds(lists, e, next, calls, w, a, e);
    if a.status.rc == 0 {
      var b := Traverse(a.lists, req, a.next, a.calls, w);
      NoHookRunsTwice(a.lists, req, a.next, a.calls, w, b);
      HooksApart(lists, e, req, next, calls, w, a, b);
      forall i, j | 0 <= i < j < |end.trace|
        ensures end.trace[i].hook != end.trace[j].hook
      {
        if i < |a.trace| <= j {
          assert Hooks(a.trace)[i] in Hooks(a.trace) && Hooks(b.trace)[j - |a.trace|] in Hooks(b.trace);
        }
      }
    }
  }

  /** The hooks of the first list and those of the second, at the end of both traversals. */
  lemma {:induction false} HooksApart(lists: seq<seq<Entry>>, e: nat, req: nat, next: nat, calls: nat, w: World,
      a: State, b: State)
    requires WfLists(lists, next) && req < |lists| && e < |lists| && e != req && Apart(lists[e], lists[req])
    requires a == Traverse(lists, e, next, calls, w) && WfLists(a.lists, a.next) && |a.lists| == |lists|
    requires b == Traverse(a.lists, req, a.next, a.calls, w)
    ensures |b.lists| == |lists|
    ensures forall x, y :: x in a.lists[e] && y in b.lists[req] ==> x != y
    ensures forall x, y :: x in a.lists[e] && y in a.lists[req] ==> x != y
    ensures forall x, y :: x in b.lists[e] && y in b.lists[req] ==> x != y
    ensures forall x, y :: x in Hooks(a.trace) && y in Hooks(b.trace) ==> x != y
  {
    TraversalKeepsApart(lists, e, next, calls, w, a, e, req);
    TraversalKeepsApart(a.lists, req, a.next, a.calls, w, b, e, req);
    TraversalAdds(a.lists, req, a.next, a.calls, w, b, e);
    RunIsIn(lists, e, next, calls, w, a);
    RunIsIn(a.lists, req, a.next, a.calls, w, b);
    ApartMembers(a.lists[e], a.lists[req]);
    ApartMembers(b.lists[e], b.lists[req]);
  }

  lemma {:induction false} ApartMembers(a: seq<Entry>, b: seq<Entry>)
    requires Apart(a, b)
    ensures forall x, y :: x in a && y in b ==> x != y
  {}

  /** A hook that is not older than next0 and is in the list when the traversal begins runs unless a
      hook fails before it. */
  lemma {:induction false} PresentHookRunsIff(lists: seq<seq<Entry>>, which: nat, next: nat, calls: nat, w: World,
      end: State, x: Entry, next0: nat)
    requires WfLists(lists, next) && which < |lists| && end == Traverse(lists, which, next, calls, w)
    requires x in lists[which] && next0 <= x.stamp && NewerBehind(lists[which], next0)
    ensures end.status.rc != 0 ==> end.trace != []
    ensures x in Hooks(end.trace) <==> end.status.rc == 0 || !Behind(x, end.trace[|end.trace| - 1].hook)
  {
    TraversalRuns(lists, which, next, calls, w);
    TraversalAdds(lists, which, next, calls, w, end, which);
    var list := end.lists[which];
    assert WfList(lists[which], next) && x.stamp < next;
    WithoutMembers(list[..end.cursor], Late(end.trace, which), x);
    if end.status.rc == 0 {
      assert list[..end.cursor] == list;
    } else {
      TraversalKeepsNewer(lists, which, next, calls, w, end, which, next0);
      PlaceBefore(list, end.cursor - 1, x, next0);
    }
  }

  /** The hooks registered while the first list is walked, if no hook of that list fails. */
  lemma {:induction false} NewInFirst(lists: seq<seq<Entry>>, e: nat, req: nat, next: nat, calls: nat, w: World,
      a: State, b: State, k: nat, i: nat)
    requires WfLists(lists, next) && req < |lists| && e < |lists| && e != req && Apart(lists[e], lists[req])
    requires a == Traverse(lists, e, next, calls, w) && WfLists(a.lists, a.next) && |a.lists| == |lists|
    requires a.status.rc == 0 && b == Traverse(a.lists, req, a.next, a.calls, w)
    requires k < |a.trace| && i < |a.trace[k].added|
    ensures b.status.rc != 0 ==> b.trace != []
    ensures var x := a.trace[k].added[i];
            && (x.target == e ==> x.entry !in Hooks(b.trace))
            && (x.target == e ==> (x.entry in Hooks(a.trace) <==> a.trace[k].hook.priority <= x.entry.priority))
            && (x.target == req ==> x.entry !in Hooks(a.trace))
            && (x.target == req ==>
                  (x.entry in Hooks(b.trace) <==>
                     b.status.rc == 0 || !Behind(x.entry, b.trace[|b.trace| - 1].hook)))
  {
    var x := a.trace[k].added[i];
    RunIsIn(lists, e, next, calls, w, a);
    assert IsAdded(a.lists, x, next, a.next);
    TraversalAdds(a.lists, req, a.next, a.calls, w, b, e);
    RunIsIn(a.lists, req, a.next, a.calls, w, b);
    HooksApart(lists, e, req, next, calls, w, a, b);
    TraversalRuns(a.lists, req, a.next, a.calls, w);
    if x.target == e {
      NewHookRunsIff(lists, e, next, calls, w, a, k, i);
    } else if x.target == req {
      assert WfList(lists[req], next);
      TraversalKeepsNewer(lists, e, next, calls, w, a, req, next);
      PresentHookRunsIff(a.lists, req, a.next, a.calls, w, b, x.entry, next);
    }
  }

  /** The hooks registered while the second list is walked. */
  lemma {:induction false} NewInSecond(lists: seq<seq<Entry>>, e: nat, req: nat, next: nat, calls: nat, w: World,
      a: State, b: State, k: nat, i: nat)
    requires WfLists(lists, next) && req < |lists| && e < |lists| && e != req && Apart(lists[e], lists[req])
    requires a == Traverse(lists, e, next, calls, w) && WfLists(a.lists, a.next) && |a.lists| == |lists|
    requires a.status.rc == 0 && b == Traverse(a.lists, req, a.next, a.calls, w)
    requires k < |b.trace| && i < |b.trace[k].added|
    ensures var x, last := b.trace[k].added[i], b.trace[|b.trace| - 1].hook;
            && x.entry !in Hooks(a.trace)
            && (x.target == e ==> x.entry !in Hooks(b.trace))
            && (x.target == req ==>
                  (x.entry in Hooks(b.trace) <==>
                     b.trace[k].hook.priority <= x.entry.priority && (b.status.rc == 0 || !Behind(x.entry, last))))
  {
    var x := b.trace[k].added[i];
    RunIsIn(lists, e, next, calls, w, a);
    RunIsIn(a.lists, req, a.next, a.calls, w, b);
    assert IsAdded(b.lists, x, a.next, b.next) && WfList(a.lists[e], a.next);
    HooksApart(lists, e, req, next, calls, w, a, b);
    if x.target == req {
      NewHookRunsIff(a.lists, req, a.next, a.calls, w, b, k, i);
    }
  }

  lemma {:induction false} NewOfBothRunsIff(lists: seq<seq<Entry>>, e: nat, req: nat, next: nat, calls: nat,
      w: World, a: State, end: State, k: nat, i: nat)
    requires WfLists(lists, next) && req < |lists| && e < |lists| && e != req && Apart(lists[e], lists[req])
    requires a == Traverse(lists, e, next, calls, w) && end == ReqTraverse(lists, Some(e), req, next, calls, w)
    requires k < |end.trace| && i < |end.trace[k].added|
    ensures var x, hook, last := end.trace[k].added[i], end.trace[k].hook, end.trace[|end.trace| - 1].hook;
            && (x.target == e ==>
                  (x.entry in Hooks(end.trace) <==>
                     && k < |a.trace| && hook.priority <= x.entry.priority
                     && (a.status.rc == 0 || !Behind(x.entry, last))))
            && (x.target == req ==>
                  (x.entry in Hooks(end.trace) <==>
                     && a.status.rc == 0 && (k < |a.trace| || hook.priority <= x.entry.priority)
                     && (end.status.rc == 0 || !Behind(x.entry, last))))
  {
    TraversalAdds(lists, e, next, calls, w, a, e);
    RunIsIn(lists, e, next, calls, w, a);
    var x := end.trace[k].added[i];
    if a.status.rc != 0 {
      if x.target == e {
        NewHookRunsIff(lists, e, next, calls, w, a, k, i);
      } else if x.target == req {
        TraversalKeepsApart(lists, e, next, calls, w, a, e, req);
        ApartMembers(a.lists[e], a.lists[req]);
      }
    } else {
      var b := Traverse(a.lists, req, a.next, a.calls, w);
      HooksApart(lists, e, req, next, calls, w, a, b);
      assert Hooks(end.trace) == Hooks(a.trace) + Hooks(b.trace);
      if k < |a.trace| {
        NewInFirst(lists, e, req, next, calls, w, a, b, k, i);
      } else {
        NewInSecond(lists, e, req, next, calls, w, a, b, k - |a.trace|, i);
      }
    }
  }

  /** Which hooks registered on the way run while the hooks of a request are executed, where a is how the
      walk over the list of its endpoint ends, if it has one.  A hook for the endpoint has to be
      registered before its list has been walked; then it is as if there were no other list.  One for
      all requests that is registered while the list of the endpoint is walked runs unless a hook fails
      before it. */
  lemma {:induction false} NewReqHookRunsIff(lists: seq<seq<Entry>>, endpoint: Option<nat>, req: nat, next: nat,
      calls: nat, w: World, a: State, end: State, k: nat, i: nat)
    requires WfLists(lists, next) && req < |lists|
    requires endpoint.Some? ==>
               && endpoint.value < |lists| && endpoint.value != req && Apart(lists[endpoint.value], lists[req])
               && a == Traverse(lists, endpoint.value, next, calls, w)
    requires end == ReqTraverse(lists, endpoint, req, next, calls, w)
    requires k < |end.trace| && i < |end.trace[k].added|
    ensures var x, hook, last := end.trace[k].added[i], end.trace[k].hook, end.trace[|end.trace| - 1].hook;
            && (endpoint == Some(x.target) ==>
                  (x.entry in Hooks(end.trace) <==>
                     && k < |a.trace| && hook.priority <= x.entry.priority
                     && (a.status.rc == 0 || !Behind(x.entry, last))))
            && (x.target == req ==>
                  (x.entry in Hooks(end.trace) <==>
                     && (endpoint.Some? ==> a.status.rc == 0)
                     && ((endpoint.Some? && k < |a.trace|) || hook.priority <= x.entry.priority)
                     && (end.status.rc == 0 || !Behind(x.entry, last))))
  {
    if endpoint.Some? {
      NewOfBothRunsIff(lists, endpoint.value, req, next, calls, w, a, end, k, i);
    } else if end.trace[k].added[i].target == req {
      NewHookRunsIff(lists, req, next, calls, w, end, k, i);
    }
  }

  // ---------------------------------------------------------------- what the callbacks register

  /** The hooks that come in are the admissible ones among the attempts: for a list that there is, with a
      callback, and with memory.  Number i is made by attempt from[i]. */
  lemma {:induction false} AddedIs(listCount: nat, next: nat, regs: seq<Reg>) returns (from: seq<nat>)
    ensures |from| == |Added(listCount, next, regs)|
    ensures forall i, j :: 0 <= i < j < |from| ==> from[i] < from[j]
    ensures forall i :: 0 <= i < |from| ==>
              && from[i] < |regs|
              && var r := regs[from[i]];
              && r.target < listCount && r.callback != 0 && r.mallocOk
              && Added(listCount, next, regs)[i] == Addition(r.target, Entry(next + i, r.callback, r.priority))
    ensures forall j :: 0 <= j < |regs| && regs[j].target < listCount && regs[j].callback != 0 && regs[j].mallocOk ==>
              j in from
  {
    from := [];
    if regs != [] {
      var last := |regs| - 1;
      var front := regs[..last];
      var before := AddedIs(listCount, next, front);
      from := if Accepts(regs[last], listCount) then before + [last] else before;
      EachMade(listCount, next, regs, before, from);
      AllThere(listCount, regs, before, from);
    }
  }

  /** The hook made by the last attempt comes last. */
  lemma {:induction false} EachMade(listCount: nat, next: nat, regs: seq<Reg>, before: seq<nat>, from: seq<nat>)
    requires regs != [] && |before| == |Added(listCount, next, regs[..|regs| - 1])|
    requires from == if Accepts(regs[|regs| - 1], listCount) then before + [|regs| - 1] else before
    requires forall i :: 0 <= i < |before| ==>
               && before[i] < |regs| - 1
               && var r := regs[..|regs| - 1][before[i]];
               && r.target < listCount && r.callback != 0 && r.mallocOk
               && Added(listCount, next, regs[..|regs| - 1])[i] ==
                  Addition(r.target, Entry(next + i, r.callback, r.priority))
    ensures |from| == |Added(listCount, next, regs)|
    ensures forall i :: 0 <= i < |from| ==>
              && from[i] < |regs|
              && var r := regs[from[i]];
              && r.target < listCount && r.callback != 0 && r.mallocOk
              && Added(listCount, next, regs)[i] == Addition(r.target, Entry(next + i, r.callback, r.priority))
  {
    forall i | 0 <= i < |from|
      ensures from[i] < |regs|
      ensures var r := regs[from[i]];
              && r.target < listCount && r.callback != 0 && r.mallocOk
              && Added(listCount, next, regs)[i] == Addition(r.target, Entry(next + i, r.callback, r.priority))
    {
      if i < |before| {
        assert from[i] == before[i] && regs[..|regs| - 1][before[i]] == regs[before[i]];
      }
    }
  }

  lemma {:induction false} AllThere(listCount: nat, regs: seq<Reg>, before: seq<nat>, from: seq<nat>)
    requires regs != []
    requires from == if Accepts(regs[|regs| - 1], listCount) then before + [|regs| - 1] else before
    requires var front := regs[..|regs| - 1];
             forall j ::
               0 <= j < |front| && front[j].target < listCount && front[j].callback != 0 && front[j].mallocOk ==>
                 j in before
    ensures forall j :: 0 <= j < |regs| && regs[j].target < listCount && regs[j].callback != 0 && regs[j].mallocOk ==>
              j in from
  {
    var front, last := regs[..|regs| - 1], |regs| - 1;
    forall j | 0 <= j < |regs| && regs[j].target < listCount && regs[j].callback != 0 && regs[j].mallocOk
      ensures j in from
    {
      if j == last {
        assert from[|before|] == j;
      } else {
        assert front[j] == regs[j] && j in before;
      }
    }
  }

  /** Call k of a traversal registers what the world says for it. */
  lemma {:induction false} CallRegisters(lists: seq<seq<Entry>>, which: nat, next: nat, calls: nat, w: World,
      end: State, k: nat)
    returns (n: nat)
    requires WfLists(lists, next) && which < |lists| && end == Traverse(lists, which, next, calls, w)
    requires k < |end.trace|
    ensures end.trace[k].added == Added(|lists|, n, if calls + k < |w.regs| then w.regs[calls + k] else [])
  {
    RunCalls(Start(lists, which, next, calls), w, |lists|, calls);
    assert CallIs(end.trace, k, |lists|, calls, w);
    n :| AddsFrom(end.trace[k].added, |lists|, n, w.RegsOf(calls + k));
  }

  ghost predicate CallIs(trace: seq<Call>, k: nat, listCount: nat, calls0: nat, w: World)
    requires k < |trace|
  {
    Adds(trace[k].added, listCount, w.RegsOf(calls0 + k))
  }

  ghost predicate Adds(added: seq<Addition>, listCount: nat, regs: seq<Reg>) {
    exists n: nat :: AddsFrom(added, listCount, n, regs)
  }

  ghost predicate AddsFrom(added: seq<Addition>, listCount: nat, n: nat, regs: seq<Reg>) {
    added == Added(listCount, n, regs)
  }

  ghost predicate CallsAre(trace: seq<Call>, listCount: nat, calls0: nat, w: World) {
    forall k :: 0 <= k < |trace| ==> CallIs(trace, k, listCount, calls0, w)
  }

  lemma {:induction false} RunCalls(st: State, w: World, listCount: nat, calls0: nat)
    requires InBounds(st) && |st.lists| == listCount && st.calls == calls0 + |st.trace|
    requires CallsAre(st.trace, listCount, calls0, w)
    ensures CallsAre(Run(st, w).trace, listCount, calls0, w)
    decreases Left(st, w), |st.lists[st.which]| - st.cursor, st.status.Running?
  {
    if st.status.Running? {
      StepStaysInBounds(st, w);
      StepCalls(st, w, listCount, calls0);
      RunCalls(Step(st, w), w, listCount, calls0);
    }
  }

  lemma {:induction false} StepCalls(st: State, w: World, listCount: nat, calls0: nat)
    requires InBounds(st) && |st.lists| == listCount && st.calls == calls0 + |st.trace|
    requires CallsAre(st.trace, listCount, calls0, w)
    ensures var st' := Step(st, w);
            |st'.lists| == listCount && st'.calls == calls0 + |st'.trace| && CallsAre(st'.trace, listCount, calls0, w)
  {
    RegisterAllStaysInBounds(st, w.RegsOf(st.calls));
    RegisterAllKeepsTrace(st, w.RegsOf(st.calls));
    var st' := Step(st, w);
    forall k | 0 <= k < |st'.trace|
      ensures CallIs(st'.trace, k, listCount, calls0, w)
    {
      if k < |st.trace| {
        assert CallIs(st.trace, k, listCount, calls0, w);
      } else {
        assert AddsFrom(st'.trace[k].added, listCount, st.next, w.RegsOf(calls0 + k));
      }
    }
  }

  lemma {:induction false} RegisterAllKeepsTrace(st: State, regs: seq<Reg>)
    ensures RegisterAll(st, regs).trace == st.trace && RegisterAll(st, regs).calls == st.calls
    decreases |regs|
  {
    if regs != [] {
      RegisterAllKeepsTrace(st, regs[..|regs| - 1]);
    }
  }
}
