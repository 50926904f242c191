/** The free-list pools of src/req.c and src/end.c, on object numbers.

    Requests and endpoint stores are cached in the same way: take the first free object or make a
    new one, and on the way back free the object or put it first on the free list.  The events
    that happen to an object are logged, and a small automaton says which orders are sound. */
module PoolSpec {
  import opened Wrappers

  datatype Event =
    | Created(id: nat)   // the CREATED hook ran
    | Handed(id: nat)    // given out for use
    | Returned(id: nat)  // given back
    | Dropped(id: nat)   // deallocated because its CREATED hook failed
    | Freed(id: nat)     // the FREE hook ran and the object was deallocated

  datatype Phase = Unborn | Idle | Busy | Gone | Bad

  /** The only sound order: created once, handed out and returned by turns, freed once and last. */
  function Advance(ph: Phase, e: Event): Phase {
    match (ph, e)
    case (Unborn, Created(_)) => Idle
    case (Idle, Handed(_)) => Busy
    case (Busy, Returned(_)) => Idle
    case (Idle, Dropped(_)) => Gone
    case (Idle, Freed(_)) => Gone
    case _ => Bad
  }

  function Life(log: seq<Event>, id: nat): Phase {
    if log == [] then Unborn
    else
      var before := Life(log[..|log| - 1], id);
      if log[|log| - 1].id == id then Advance(before, log[|log| - 1]) else before
  }

  /** A pool: the free list, first object first; the two counters as the code keeps them; the objects
      in use; the number of the next object; and what has happened so far. */
  datatype Pool = Pool(free: seq<nat>, emptyCount: int, allCount: int, used: multiset<nat>, next: nat, log: seq<Event>)

  /** The test that decides between freeing and caching an object that comes back: more objects in
      use than the growth factor 1.618 times all of them. */
  predicate TooMany(allCount: int, emptyCount: int) {
    1000 * (allCount - emptyCount) > 1618 * allCount
  }

  /** get_req and fra_p_end_store_set. */
  function Acquire(p: Pool, mallocOk: bool, hookOk: bool): (Pool, Option<nat>) {
    if p.free != [] then
      (p.(free := p.free[1..], emptyCount := p.emptyCount - 1, used := p.used + multiset{p.free[0]},
          log := p.log + [Handed(p.free[0])]),
       Some(p.free[0]))
    else if !mallocOk then (p, None)
    else if !hookOk then (p.(next := p.next + 1, log := p.log + [Created(p.next)] + [Dropped(p.next)]), None)
    else
      (p.(allCount := p.allCount + 1, used := p.used + multiset{p.next}, next := p.next + 1,
          log := p.log + [Created(p.next)] + [Handed(p.next)]),
       Some(p.next))
  }

  /** req_maybe_free and fra_p_end_store_maybe_free. */
  function Release(p: Pool, id: nat, hookOk: bool): (Pool, int) {
    if TooMany(p.allCount, p.emptyCount) then
      if !hookOk then (p, -1)
      else
        (p.(allCount := p.allCount - 1, used := p.used - multiset{id}, log := p.log + [Returned(id)] + [Freed(id)]), 0)
    else
      (p.(free := [id] + p.free, emptyCount := p.emptyCount + 1, used := p.used - multiset{id},
          log := p.log + [Returned(id)]),
       0)
  }

  /** The loop at the end of a session: frees the cached objects, first one first. */
  function FreeAll(p: Pool): Pool
    decreases |p.free|
  {
    if p.free == [] then p
    else FreeAll(p.(free := p.free[1..], log := p.log + [Freed(p.free[0])]))
  }

  // ---------------------------------------------------------------- the invariant of a session

  ghost predicate NoDuplicates(s: seq<nat>) {
    forall i, j :: 0 <= i < j < |s| ==> s[i] != s[j]
  }

  /** Where an object stands, judged by the lists alone. */
  function PhaseOf(p: Pool, id: nat): Phase {
    if id in p.used then Busy else if id in p.free then Idle else if id < p.next then Gone else Unborn
  }

  /** Every object is in use or on the free list, never both and never twice, or has been deallocated
      for good; and the counters count them.  They start at stale, the number of objects that were
      cached when an earlier session ended: nothing resets the counters. */
  ghost predicate Inv(p: Pool, stale: nat) {
    && Linked(p, stale) && Sound(p)
    && p.allCount == p.emptyCount + |p.used|
  }

  /** What holds even if an object that is not in use is given back. */
  ghost predicate Linked(p: Pool, stale: nat) {
    p.emptyCount == stale + |p.free| && p.allCount >= 0
  }

  /** No object is on the free list twice, in use twice, or both free and in use. */
  ghost predicate Separate(p: Pool) {
    && NoDuplicates(p.free)
    && (forall id :: id in p.free ==> id < p.next && id !in p.used)
    && (forall id :: id in p.used ==> id < p.next && p.used[id] == 1)
  }

  /** The lists agree with what has happened to each object. */
  ghost predicate Sound(p: Pool) {
    Separate(p) && forall id: nat :: Life(p.log, id) == PhaseOf(p, id)
  }

  function Fresh(stale: nat): Pool {
    Pool([], stale, stale, multiset{}, 0, [])
  }

  lemma {:induction false} LifeOne(log: seq<Event>, e: Event, id: nat)
    ensures Life(log + [e], id) == if e.id == id then Advance(Life(log, id), e) else Life(log, id)
  {
    assert (log + [e])[..|log|] == log;
  }

  /** The release test never holds: no fewer than zero objects are on the free list. */
  lemma {:induction false} NeverTooMany(p: Pool, stale: nat)
    requires Linked(p, stale)
    ensures !TooMany(p.allCount, p.emptyCount)
  {}

  lemma {:induction false} FirstOnce(free: seq<nat>)
    requires NoDuplicates(free) && free != []
    ensures free[0] !in free[1..] && NoDuplicates(free[1..])
    ensures forall id :: id in free <==> id == free[0] || id in free[1..]
  {
    assert free == [free[0]] + free[1..];
  }

  lemma {:induction false} AcquireKeepsSeparate(p: Pool, mallocOk: bool, hookOk: bool)
    requires Separate(p)
    ensures Separate(Acquire(p, mallocOk, hookOk).0)
  {
    if p.free != [] {
      FirstOnce(p.free);
    }
  }

  /** Taking a cached object, for one object at a time. */
  lemma {:induction false} TakingKeepsLife(p: Pool, id: nat)
    requires Separate(p) && p.free != [] && Life(p.log, id) == PhaseOf(p, id)
    ensures var p' := Acquire(p, true, true).0; Life(p'.log, id) == PhaseOf(p', id)
  {
    FirstOnce(p.free);
    LifeOne(p.log, Handed(p.free[0]), id);
  }

  /** Making a new one. */
  lemma {:induction false} MakingKeepsLife(p: Pool, id: nat)
    requires Separate(p) && p.free == [] && Life(p.log, id) == PhaseOf(p, id)
    ensures var p' := Acquire(p, true, true).0; Life(p'.log, id) == PhaseOf(p', id)
  {
    LifeOne(p.log, Created(p.next), id);
    LifeOne(p.log + [Created(p.next)], Handed(p.next), id);
  }

  /** Dropping a new one whose CREATED hook failed. */
  lemma {:induction false} DroppingKeepsLife(p: Pool, id: nat)
    requires Separate(p) && p.free == [] && Life(p.log, id) == PhaseOf(p, id)
    ensures var p' := Acquire(p, true, false).0; Life(p'.log, id) == PhaseOf(p', id)
  {
    LifeOne(p.log, Created(p.next), id);
    LifeOne(p.log + [Created(p.next)], Dropped(p.next), id);
  }

  lemma {:induction false} AcquireKeepsSound(p: Pool, mallocOk: bool, hookOk: bool)
    requires Sound(p)
    ensures Sound(Acquire(p, mallocOk, hookOk).0)
  {
    var p' := Acquire(p, mallocOk, hookOk).0;
    AcquireKeepsSeparate(p, mallocOk, hookOk);
    forall id: nat
      ensures Life(p'.log, id) == PhaseOf(p', id)
    {
      assert Life(p.log, id) == PhaseOf(p, id);
      if p.free != [] {
        TakingKeepsLife(p, id);
      } else if mallocOk && hookOk {
        MakingKeepsLife(p, id);
      } else if mallocOk {
        DroppingKeepsLife(p, id);
      }
    }
  }

  lemma {:induction false} ReleaseKeepsSound(p: Pool, stale: nat, id: nat, hookOk: bool)
    requires Sound(p) && Linked(p, stale) && id in p.used
    ensures Sound(Release(p, id, hookOk).0)
  {
    NeverTooMany(p, stale);
    var p' := Release(p, id, hookOk).0;
    forall x: nat
      ensures Life(p'.log, x) == PhaseOf(p', x)
    {
      assert Life(p.log, x) == PhaseOf(p, x);
      LifeOne(p.log, Returned(id), x);
    }
  }

  /** An object whose CREATED hook failed is deallocated; giving it back puts it on the free list all
      the same, the miscount is permanent, and the next one to ask is handed a dead object. */
  lemma {:induction false} LostObjectComesBack(p: Pool, stale: nat, putOk: bool, getOk: bool)
    requires Inv(p, stale) && p.free == []
    ensures var dead := p.next;
            var p1 := Release(Acquire(p, true, false).0, dead, putOk).0;
            && p1.free == [dead] && Life(p1.log, dead) == Bad && !Sound(p1)
            && p1.emptyCount + |p1.used| == p1.allCount + 1
            && Acquire(p1, true, getOk).1 == Some(dead)
  {
    var dead := p.next;
    var p0 := Acquire(p, true, false).0;
    NeverTooMany(p0, stale);
    assert Life(p.log, dead) == PhaseOf(p, dead) == Unborn;
    LifeOne(p.log, Created(dead), dead);
    LifeOne(p.log + [Created(dead)], Dropped(dead), dead);
    LifeOne(p0.log, Returned(dead), dead);
  }

  lemma {:induction false} AcquireKeepsLinked(p: Pool, stale: nat, mallocOk: bool, hookOk: bool)
    requires Linked(p, stale)
    ensures Linked(Acquire(p, mallocOk, hookOk).0, stale)
  {}

  /** Whatever object comes back, giving it back succeeds and caches it. */
  lemma {:induction false} ReleaseNeverFails(p: Pool, stale: nat, id: nat, hookOk: bool)
    requires Linked(p, stale)
    ensures Release(p, id, hookOk).1 == 0
    ensures Linked(Release(p, id, hookOk).0, stale)
    ensures Release(p, id, hookOk).0.free == [id] + p.free
    ensures Release(p, id, hookOk).0.used == p.used - multiset{id}
  {
    NeverTooMany(p, stale);
  }

  lemma {:induction false} AcquireKeepsInv(p: Pool, stale: nat, mallocOk: bool, hookOk: bool)
    requires Inv(p, stale)
    ensures Inv(Acquire(p, mallocOk, hookOk).0, stale)
  {
    AcquireKeepsSound(p, mallocOk, hookOk);
    assert p.free != [] ==> p.free[0] !in p.used;
  }

  lemma {:induction false} ReleaseKeepsInv(p: Pool, stale: nat, id: nat, hookOk: bool)
    requires Inv(p, stale) && id in p.used
    ensures Inv(Release(p, id, hookOk).0, stale)
  {
    ReleaseKeepsSound(p, stale, id, hookOk);
    NeverTooMany(p, stale);
  }

  // ---------------------------------------------------------------- whole runs

  datatype Op = Get(mallocOk: bool, hookOk: bool) | Put(id: nat, hookOk: bool)

  function Exec(p: Pool, op: Op): Pool {
    match op
    case Get(m, h) => Acquire(p, m, h).0
    case Put(id, h) => Release(p, id, h).0
  }

  function Run(p: Pool, ops: seq<Op>): Pool {
    if ops == [] then p else Exec(Run(p, ops[..|ops| - 1]), ops[|ops| - 1])
  }

  /** Only objects in use are given back. */
  predicate Legal(p: Pool, ops: seq<Op>) {
    ops == [] ||
    (Legal(p, ops[..|ops| - 1])
     && (ops[|ops| - 1].Put? ==> ops[|ops| - 1].id in Run(p, ops[..|ops| - 1]).used))
  }

  /** The greatest number of objects in use at any time of a run. */
  function Peak(p: Pool, ops: seq<Op>): nat {
    if ops == [] then |p.used|
    else
      var before := Peak(p, ops[..|ops| - 1]);
      if |Run(p, ops).used| > before then |Run(p, ops).used| else before
  }

  /** Over every run the invariant holds, and all_count is the peak number of objects in use. */
  lemma {:induction false} RunKeepsInv(ops: seq<Op>, stale: nat)
    requires Legal(Fresh(stale), ops)
    ensures Inv(Run(Fresh(stale), ops), stale)
    ensures Run(Fresh(stale), ops).allCount == stale + Peak(Fresh(stale), ops)
  {
    if ops != [] {
      var front, op := ops[..|ops| - 1], ops[|ops| - 1];
      var p := Run(Fresh(stale), front);
      RunKeepsInv(front, stale);
      match op
      case Get(m, h) =>
        AcquireKeepsInv(p, stale, m, h);
      case Put(id, h) =>
        ReleaseKeepsInv(p, stale, id, h);
        NeverTooMany(p, stale);
    } else {
      FreshIsInv(stale);
    }
  }

  lemma {:induction false} FreshIsInv(stale: nat)
    ensures Inv(Fresh(stale), stale)
  {}

  /** How many times an object was given back that was not in use. */
  function Strays(p: Pool, ops: seq<Op>): nat {
    if ops == [] then 0
    else
      var front, op := ops[..|ops| - 1], ops[|ops| - 1];
      Strays(p, front) + if op.Put? && op.id !in Run(p, front).used then 1 else 0
  }

  /** The exact miscount of any run, legal or not: each object given back without being in use leaves
      empty_count one too high for good. */
  lemma {:induction false} StraysMiscount(ops: seq<Op>, stale: nat)
    ensures var p := Run(Fresh(stale), ops);
            && Linked(p, stale)
            && p.emptyCount + |p.used| == p.allCount + Strays(Fresh(stale), ops)
  {
    if ops != [] {
      var front, op := ops[..|ops| - 1], ops[|ops| - 1];
      StraysMiscount(front, stale);
      NeverTooMany(Run(Fresh(stale), front), stale);
    }
  }

  // ---------------------------------------------------------------- the end of a session

  /** What is left after freeing the first cached object. */
  function FirstFreed(p: Pool): Pool
    requires p.free != []
  {
    p.(free := p.free[1..], log := p.log + [Freed(p.free[0])])
  }

  lemma {:induction false} FirstFreedKeepsSound(p: Pool)
    requires Sound(p) && p.free != []
    ensures Sound(FirstFreed(p)) && p.free[0] !in p.free[1..]
    ensures Life(FirstFreed(p).log, p.free[0]) == Gone
    ensures forall id: nat :: id != p.free[0] ==> Life(FirstFreed(p).log, id) == Life(p.log, id)
  {
    FirstOnce(p.free);
    forall id: nat
      ensures Life(FirstFreed(p).log, id) == PhaseOf(FirstFreed(p), id)
      ensures id != p.free[0] ==> Life(FirstFreed(p).log, id) == Life(p.log, id)
    {
      LifeOne(p.log, Freed(p.free[0]), id);
      assert Life(p.log, id) == PhaseOf(p, id);
    }
  }

  /** Freeing the cached objects of a sound pool deallocates each of them once. */
  lemma {:induction false} FreeAllKeepsSound(p: Pool)
    requires Sound(p)
    ensures Sound(FreeAll(p)) && FreeAll(p).free == [] && FreeAll(p).used == p.used && FreeAll(p).next == p.next
    ensures FreeAll(p).emptyCount == p.emptyCount && FreeAll(p).allCount == p.allCount
    decreases |p.free|
  {
    if p.free != [] {
      FirstFreedKeepsSound(p);
      FreeAllKeepsSound(FirstFreed(p));
    }
  }

  function Count(log: seq<Event>, e: Event): nat {
    if log == [] then 0
    else Count(log[..|log| - 1], e) + if log[|log| - 1] == e then 1 else 0
  }

  /** The phase of an object tells how often its hooks have run. */
  lemma {:induction false} LifeCounts(log: seq<Event>, id: nat)
    requires Life(log, id) != Bad
    ensures Count(log, Created(id)) == if Life(log, id) == Unborn then 0 else 1
    ensures Count(log, Freed(id)) + Count(log, Dropped(id)) == if Life(log, id) == Gone then 1 else 0
  {
    if log != [] {
      LifeCounts(log[..|log| - 1], id);
    }
  }

  /** How often an object has been deallocated, with or without its FREE hook. */
  function Deallocations(log: seq<Event>, id: nat): nat {
    Count(log, Freed(id)) + Count(log, Dropped(id))
  }

  /** Every object was created at most once and has been deallocated as often. */
  ghost predicate Balanced(log: seq<Event>) {
    forall id: nat :: Count(log, Created(id)) <= 1 && Deallocations(log, id) == Count(log, Created(id))
  }

  /** When nothing is in use, freeing the cached objects leaves nothing over. */
  lemma {:induction false} FreeAllBalances(p: Pool)
    requires Sound(p) && p.used == multiset{}
    ensures Balanced(FreeAll(p).log)
  {
    var end := FreeAll(p);
    FreeAllKeepsSound(p);
    forall id: nat
      ensures Count(end.log, Created(id)) <= 1 && Deallocations(end.log, id) == Count(end.log, Created(id))
    {
      assert Life(end.log, id) == PhaseOf(end, id);
      LifeCounts(end.log, id);
    }
  }

  predicate HooksSucceed(ops: seq<Op>) {
    forall i :: 0 <= i < |ops| ==> ops[i].hookOk
  }

  lemma {:induction false} NoneDropped(ops: seq<Op>, stale: nat, id: nat)
    requires HooksSucceed(ops)
    ensures Count(Run(Fresh(stale), ops).log, Dropped(id)) == 0
  {
    if ops != [] {
      var front, op := ops[..|ops| - 1], ops[|ops| - 1];
      var p := Run(Fresh(stale), front);
      NoneDropped(front, stale, id);
      CountTwo(p.log, Created(p.next), Handed(p.next), Dropped(id));
      if p.free != [] {
        CountOne(p.log, Handed(p.free[0]), Dropped(id));
      }
      if op.Put? {
        CountTwo(p.log, Returned(op.id), Freed(op.id), Dropped(id));
      }
    }
  }

  lemma {:induction false} CountOne(log: seq<Event>, a: Event, e: Event)
    ensures Count(log + [a], e) == Count(log, e) + if a == e then 1 else 0
  {
    assert (log + [a])[..|log|] == log;
  }

  lemma {:induction false} CountTwo(log: seq<Event>, a: Event, b: Event, e: Event)
    ensures Count(log + [a], e) == Count(log, e) + if a == e then 1 else 0
    ensures Count(log + [a] + [b], e) == Count(log, e) + (if a == e then 1 else 0) + if b == e then 1 else 0
  {
    CountOne(log, a, e);
    CountOne(log + [a], b, e);
  }

  lemma {:induction false} FreeAllDropsNone(p: Pool, id: nat)
    ensures Count(FreeAll(p).log, Dropped(id)) == Count(p.log, Dropped(id))
    decreases |p.free|
  {
    if p.free != [] {
      CountOne(p.log, Freed(p.free[0]), Dropped(id));
      FreeAllDropsNone(p.(free := p.free[1..], log := p.log + [Freed(p.free[0])]), id);
    }
  }

  /** A whole session in which every object is given back: each object ever made had its CREATED hook
      run once and was then deallocated once, after its FREE hook -- or without it, if its CREATED
      hook had failed. */
  lemma {:induction false} SessionPairsHooks(ops: seq<Op>, stale: nat, id: nat)
    requires Legal(Fresh(stale), ops) && Run(Fresh(stale), ops).used == multiset{}
    ensures var end := FreeAll(Run(Fresh(stale), ops));
            && end.free == []
            && Life(end.log, id) == (if id < end.next then Gone else Unborn)
            && Count(end.log, Created(id)) == (if id < end.next then 1 else 0)
            && Count(end.log, Freed(id)) + Count(end.log, Dropped(id)) == Count(end.log, Created(id))
            && (HooksSucceed(ops) ==> Count(end.log, Freed(id)) == Count(end.log, Created(id)))
  {
    var p := Run(Fresh(stale), ops);
    RunKeepsInv(ops, stale);
    FreeAllKeepsSound(p);
    LifeCounts(FreeAll(p).log, id);
    FreeAllDropsNone(p, id);
    if HooksSucceed(ops) {
      NoneDropped(ops, stale, id);
    }
  }

  /** Nothing resets the counters: a session that began with stale objects counted ends with as many
      more as its peak, and none on the list, which is how the next one begins. */
  lemma {:induction false} SessionLeavesCounters(ops: seq<Op>, stale: nat)
    requires Legal(Fresh(stale), ops) && Run(Fresh(stale), ops).used == multiset{}
    ensures var end := FreeAll(Run(Fresh(stale), ops));
            end.free == [] && end.emptyCount == end.allCount == stale + Peak(Fresh(stale), ops)
  {
    var p := Run(Fresh(stale), ops);
    assert Inv(p, stale) && p.allCount == stale + Peak(Fresh(stale), ops) by {
      RunKeepsInv(ops, stale);
    }
    CountersAtEnd(p, stale);
  }

  lemma {:induction false} CountersAtEnd(p: Pool, stale: nat)
    requires Inv(p, stale) && p.used == multiset{}
    ensures FreeAll(p).free == [] && FreeAll(p).emptyCount == FreeAll(p).allCount == p.allCount
  {
    FreeAllKeepsSound(p);
  }

  /** The loop of fra_end_free, where the k-th hook from now on may fail: the object whose hook fails
      is off the list but not deallocated, and the loop ends. */
  function FreeEach(p: Pool, hookOk: nat -> bool, k: nat): (Pool, int)
    decreases |p.free|
  {
    if p.free == [] then (p, 0)
    else if !hookOk(k) then (p.(free := p.free[1..]), -1)
    else FreeEach(p.(free := p.free[1..], log := p.log + [Freed(p.free[0])]), hookOk, k + 1)
  }

  /** The loop succeeds exactly when every hook does, and then it frees what FreeAll frees. */
  lemma {:induction false} FreeEachSucceeds(p: Pool, hookOk: nat -> bool, k: nat)
    ensures FreeEach(p, hookOk, k).1 == 0 <==> forall i :: k <= i < k + |p.free| ==> hookOk(i)
    ensures FreeEach(p, hookOk, k).1 == 0 ==> FreeEach(p, hookOk, k).0 == FreeAll(p)
    decreases |p.free|
  {
    if p.free != [] && hookOk(k) {
      FreeEachSucceeds(p.(free := p.free[1..], log := p.log + [Freed(p.free[0])]), hookOk, k + 1);
    }
  }

  /** When the loop fails, the objects before the first failing hook are freed, and that one and those
      after it are lost: they were created, are not in use, and will never be freed. */
  lemma {:induction false} FreeEachLeaks(p: Pool, hookOk: nat -> bool, k: nat) returns (m: nat)
    requires Sound(p) && FreeEach(p, hookOk, k).1 != 0
    ensures m < |p.free| && !hookOk(k + m) && forall i :: k <= i < k + m ==> hookOk(i)
    ensures FreeEach(p, hookOk, k).0.free == p.free[m + 1..]
    ensures forall i :: 0 <= i < |p.free| ==>
              Life(FreeEach(p, hookOk, k).0.log, p.free[i]) == if i < m then Gone else Idle
    ensures forall id: nat :: id !in p.free ==> Life(FreeEach(p, hookOk, k).0.log, id) == Life(p.log, id)
    decreases |p.free|
  {
    FirstFreedKeepsSound(p);
    if !hookOk(k) {
      m := 0;
    } else {
      var n := FreeEachLeaks(FirstFreed(p), hookOk, k + 1);
      m := n + 1;
      var end := FreeEach(FirstFreed(p), hookOk, k + 1).0;
      forall i | 0 <= i < |p.free|
        ensures Life(end.log, p.free[i]) == if i < m then Gone else Idle
      {
        assert i > 0 ==> p.free[i] == FirstFreed(p).free[i - 1];
      }
    }
  }
}
