/** Registering variables and finding them (src/var.c). */
module VarStore {
  import opened Wrappers
  import opened Words
  import opened Murmur3Lanes
  import opened Memory
  import opened HashSpec
  import opened HashTable
  import opened VarSpec

  /** struct var: what the table holds beside the name. */
  datatype Var = Var(typ: Bstring, position: nat)

  /** An entry of the table describes a slot. */
  ghost predicate Describes(e: Element<Var>, s: Slot) {
    e.key.data == s.name && e.value.typ.data == s.typ && e.value.position == s.position
  }

  ghost predicate DescribeAll(log: seq<Element<Var>>, slots: seq<Slot>) {
    && |log| == |slots|
    && forall k :: 0 <= k < |log| ==> Describes(log[k], slots[k])
  }

  lemma {:induction false} DescribesNext(log: seq<Element<Var>>, slots: seq<Slot>, e: Element<Var>, s: Slot)
    requires DescribeAll(log, slots) && Describes(e, s)
    ensures DescribeAll(log + [e], slots + [s])
  {}

  /** Looking a name up in the table finds its first slot. */
  lemma {:induction false} FirstMatchIsFind(log: seq<Element<Var>>, slots: seq<Slot>, name: Text)
    requires DescribeAll(log, slots)
    ensures FirstMatch(log, name).Some? <==> Find(slots, name).Some?
    ensures FirstMatch(log, name).Some? ==>
              var s := Find(slots, name).value;
              FirstMatch(log, name).value.typ.data == s.typ && FirstMatch(log, name).value.position == s.position
  {
    var i := FirstNamed(slots, name, |slots|);
    assert forall j :: 0 <= j < |log| ==> Describes(log[j], slots[j]);
    FirstMatchIs(log, name, i);
  }

  ghost function TypeOf(e: Element<Var>): multiset<object> {
    multiset{e.value.typ}
  }

  /** A table of variables, and the size of the store they need. */
  class VarTable {
    const storeMap: HashTable<Var>
    var storeSize: nat

    ghost predicate Shows(slots: seq<Slot>)
      reads this, storeMap, storeMap.buck, set i | 0 <= i < storeMap.buck.Length :: storeMap.buck[i].el
    {
      && storeMap.Valid() && DescribeAll(storeMap.log, slots)
      && Tiles(slots) && storeSize == End(slots) <= SIZE_MAX
    }

    /** Everything allocated for the variables: the table with the names, and the types. */
    ghost function Held(): multiset<object>
      reads storeMap, storeMap.buck
    {
      storeMap.Held() + Sum(storeMap.log, TypeOf)
    }

    constructor (varCount: nat)
      requires varCount > 0
      ensures Shows([]) && fresh(storeMap) && fresh(storeMap.buck) && storeMap.buckC == varCount
      ensures Held() == multiset{storeMap} + multiset{storeMap.buck}
    {
      storeMap := new HashTable(varCount);
      storeSize := 0;
    }

    /** reg: lays the variable out after those before it.  A name that has been registered before is
        accepted, and its space is used up, but it will never be found.  In any case exactly what the
        table holds has been allocated. */
    method Reg(name: Text, typ: Text, size: nat, typeOk: bool, keyOk: bool, reallocOk: bool,
        ghost slots: seq<Slot>, ghost live: multiset<object>)
      returns (rc: int, ghost live': multiset<object>)
      requires Shows(slots) && Held() <= live && size <= SIZE_MAX
      modifies this, storeMap, storeMap.buck
      ensures rc == if End(slots) + size < 0xffff_ffff_ffff_ffff && typeOk && keyOk && reallocOk then 0 else -1
      ensures Shows(if rc == 0 then slots + [Slot(name, typ, End(slots), size)] else slots)
      ensures rc != 0 ==> storeMap.log == old(storeMap.log)
      ensures live' + old(Held()) == live + Held()
    {
      if !(storeSize < SIZE_MAX - size) {
        return -1, live;
      }
      if !typeOk {
        return -1, live;
      }
      var typeStr := new Bstring(typ);
      ghost var held := Held();
      CoversMore(live, held, typeStr);
      rc, live' := RegTyped(name, typeStr, size, keyOk, reallocOk, slots, Allocated(live, typeStr));
      if rc == 0 {
        PieceKept(live, live', held, Held(), typeStr);
      } else {
        PieceFreed(live, live', held, Held(), typeStr);
        live' := Freed(live', typeStr);
      }
    }

    /** reg from the point where it has the type string. */
    method RegTyped(name: Text, typ: Bstring, size: nat, keyOk: bool, reallocOk: bool,
        ghost slots: seq<Slot>, ghost live: multiset<object>)
      returns (rc: int, ghost live': multiset<object>)
      requires Shows(slots) && Held() <= live && storeSize < SIZE_MAX - size
      modifies this, storeMap, storeMap.buck
      ensures rc == if keyOk && reallocOk then 0 else -1
      ensures Shows(if rc == 0 then slots + [Slot(name, typ.data, End(slots), size)] else slots)
      ensures rc != 0 ==> storeMap.log == old(storeMap.log)
      ensures rc == 0 ==> live' + old(Held()) + multiset{typ} == live + Held()
      ensures rc != 0 ==> live' + old(Held()) == live + Held()
    {
      rc, live' := SetVar(name, Var(typ, storeSize), keyOk, reallocOk, live);
      if rc == 0 {
        ghost var s := Slot(name, typ.data, storeSize, size);
        TilesNext(slots, s);
        DescribesNext(old(storeMap.log), slots, storeMap.log[|slots|], s);
        Advance(size, slots + [s]);
      }
    }

    /** Its last step. */
    method Advance(size: nat, ghost slots: seq<Slot>)
      requires storeMap.Valid() && DescribeAll(storeMap.log, slots)
      requires Tiles(slots) && storeSize + size == End(slots) <= SIZE_MAX
      modifies `storeSize
      ensures Shows(slots)
    {
      storeSize := storeSize + size;
    }

    /** Its call of fra_p_ht_set. */
    method SetVar(name: Text, value: Var, keyOk: bool, reallocOk: bool, ghost live: multiset<object>)
      returns (rc: int, ghost live': multiset<object>)
      requires storeMap.Valid() && Held() <= live
      modifies storeMap, storeMap.buck
      ensures storeMap.Valid()
      ensures rc == if keyOk && reallocOk then 0 else -1
      ensures rc == 0 ==>
                && |storeMap.log| == |old(storeMap.log)| + 1
                && storeMap.log == old(storeMap.log) + [storeMap.log[|old(storeMap.log)|]]
                && storeMap.log[|old(storeMap.log)|].key.data == name
                && storeMap.log[|old(storeMap.log)|].value == value
                && live' + old(Held()) + multiset{value.typ} == live + Held()
      ensures rc != 0 ==> storeMap.log == old(storeMap.log) && live' + old(Held()) == live + Held()
    {
      ghost var held, types := storeMap.Held(), Sum(storeMap.log, TypeOf);
      KeptCovers(live, held, types);
      var warned;
      rc, warned, live' := storeMap.Set(name, value, keyOk, reallocOk, true, live);
      TableAccount(live, live', held, storeMap.Held(), types);
      if rc == 0 {
        SumNext(old(storeMap.log), storeMap.log[|old(storeMap.log)|], TypeOf);
        EntryAccount(live, live', held, storeMap.Held(), types, value.typ);
      }
    }

    /** fra_p_var_deinit, with fra_p_var_free for each value: frees all that the table holds, once. */
    method Deinit(ghost slots: seq<Slot>, ghost live: multiset<object>) returns (ghost live': multiset<object>)
      requires Shows(slots) && Held() <= live
      ensures live == live' + Held()
    {
      var destroyed;
      destroyed, live' := storeMap.Free(live);
      RestCovers(live, live', storeMap.Held(), Sum(storeMap.log, TypeOf));
      live' := FreeTypes(destroyed, storeMap.log, live');
    }
  }

  method FreeTypes(destroyed: seq<Element<Var>>, ghost log: seq<Element<Var>>, ghost live: multiset<object>)
    returns (ghost live': multiset<object>)
    requires Permutes(destroyed, log) && Sum(log, TypeOf) <= live
    ensures live == live' + Sum(log, TypeOf)
  {
    live' := live;
    SumPermutes(destroyed, log, TypeOf);
    ghost var left := ScheduleFor(destroyed, TypeOf, live);
    var i := 0;
    while i < |destroyed|
      invariant 0 <= i <= |destroyed| && live' == left(i)
    {
      TypeFreed(destroyed, left, i);
      live' := Freed(live', destroyed[i].value.typ);
      i := i + 1;
    }
  }

  lemma {:induction false} TypeFreed(all: seq<Element<Var>>, left: nat -> multiset<object>, k: nat)
    requires k < |all| && Schedule(all, TypeOf, left)
    ensures all[k].value.typ in left(k) && Freed(left(k), all[k].value.typ) == left(k + 1)
  {
    assert FreesNext(all, TypeOf, left, k);
  }

  /** What var_get knows about a request: whether it has an endpoint with a store, and its variables.
      The name is given together with the size of the array that holds it.  What is found is the first
      global variable of that name, or if there is none the first one of the endpoint, given that it has
      a store; and only if the type asked for, together with the size of the array that holds it, is
      that of the variable. */
  method VarGet(globals: VarTable, endpoint: VarTable?, hasStore: bool, name: seq<Byte>, nameLen: int, ask: Ask,
      ghost globalSlots: seq<Slot>, ghost endpointSlots: seq<Slot>)
    returns (p: Found)
    requires globals.Shows(globalSlots) && nameLen - 1 <= |name| <= MAX_LEN
    requires endpoint != null ==> endpoint.Shows(endpointSlots)
    ensures p.Agrees(Resolve(globalSlots, if endpoint != null && hasStore then Some(endpointSlots) else None,
                             if nameLen > 1 then name[..nameLen - 1] else [], ask))
    ensures nameLen <= 1 ==> p == Nowhere
    ensures p.At? && ask.Typed? ==> p.typ == ask.typ && ask.typeLen == |p.typ| + 1
    ensures nameLen > 1 ==>
              var key := name[..nameLen - 1];
              && (forall k :: 0 <= k < |globalSlots| && IsFirst(globalSlots, key, k) ==>
                    var s := globalSlots[k];
                    p == if ask.Typed? ==> ask.typ == s.typ && ask.typeLen == |s.typ| + 1
                         then At(true, s.position, s.typ)
                         else Nowhere)
              && (key !in Names(globalSlots) ==>
                    && (endpoint == null || !hasStore || key !in Names(endpointSlots) ==> p == Nowhere)
                    && (endpoint != null && hasStore ==>
                          forall k :: 0 <= k < |endpointSlots| && IsFirst(endpointSlots, key, k) ==>
                            var s := endpointSlots[k];
                            p == if ask.Typed? ==> ask.typ == s.typ && ask.typeLen == |s.typ| + 1
                                 then At(false, s.position, s.typ)
                                 else Nowhere))
  {
    var len := nameLen - 1;
    if !(len > 0) {
      return Nowhere;
    }
    p := Seek(globals, endpoint, hasStore, name[..len], ask, globalSlots, endpointSlots);
    FoundIs(p, globalSlots, if endpoint != null && hasStore then Some(endpointSlots) else None, name[..len], ask);
  }

  /** var_get from the point where it has the name.  The hash is computed once and serves both tables,
      however many buckets they have. */
  method Seek(globals: VarTable, endpoint: VarTable?, hasStore: bool, key: Text, ask: Ask,
      ghost globalSlots: seq<Slot>, ghost endpointSlots: seq<Slot>)
    returns (p: Found)
    requires globals.Shows(globalSlots) && key != []
    requires endpoint != null ==> endpoint.Shows(endpointSlots)
    ensures p.Agrees(Resolve(globalSlots, if endpoint != null && hasStore then Some(endpointSlots) else None, key, ask))
  {
    var h := globals.storeMap.Hash(key);
    FirstMatchIsFind(globals.storeMap.log, globalSlots, key);
    var v := globals.storeMap.GetByHash(key, h);
    if v.Some? {
      return if Accepts(ask, v.value.typ.data) then At(true, v.value.position, v.value.typ.data) else Nowhere;
    }
    if endpoint == null || !hasStore {
      return Nowhere;
    }
    FirstMatchIsFind(endpoint.storeMap.log, endpointSlots, key);
    globals.storeMap.SameHash(endpoint.storeMap, key);
    v := endpoint.storeMap.GetByHash(key, h);
    if v.None? {
      return Nowhere;
    }
    return if Accepts(ask, v.value.typ.data) then At(false, v.value.position, v.value.typ.data) else Nowhere;
  }

  /** The first slot with this name. */
  ghost predicate IsFirst(slots: seq<Slot>, name: Text, k: nat)
    requires k < |slots|
  {
    slots[k].name == name && forall i :: 0 <= i < k ==> slots[i].name != name
  }

  lemma {:induction false} FoundIs(p: Found, globals: seq<Slot>, locals: Option<seq<Slot>>, key: Text, ask: Ask)
    requires key != [] && p.Agrees(Resolve(globals, locals, key, ask))
    ensures p.At? && ask.Typed? ==> p.typ == ask.typ && ask.typeLen == |p.typ| + 1
    ensures forall k :: 0 <= k < |globals| && IsFirst(globals, key, k) ==>
              var s := globals[k];
              p == if ask.Typed? ==> ask.typ == s.typ && ask.typeLen == |s.typ| + 1
                   then At(true, s.position, s.typ)
                   else Nowhere
    ensures key !in Names(globals) ==>
              && (locals.None? || key !in Names(locals.value) ==> p == Nowhere)
              && (locals.Some? ==>
                    forall k :: 0 <= k < |locals.value| && IsFirst(locals.value, key, k) ==>
                      var s := locals.value[k];
                      p == if ask.Typed? ==> ask.typ == s.typ && ask.typeLen == |s.typ| + 1
                           then At(false, s.position, s.typ)
                           else Nowhere)
  {
    FindIffNamed(globals, key);
    FirstIsFound(globals, key);
    if locals.Some? {
      FindIffNamed(locals.value, key);
      FirstIsFound(locals.value, key);
    }
  }

  lemma {:induction false} FirstIsFound(slots: seq<Slot>, key: Text)
    ensures forall k :: 0 <= k < |slots| && IsFirst(slots, key, k) ==> Find(slots, key) == Some(slots[k])
  {}

  /** What var_get returns: null, or a position in the store of the request or of the endpoint, and
      the type of the variable. */
  datatype Found = Nowhere | At(inRequest: bool, position: nat, typ: Text) {
    ghost predicate Agrees(p: Place) {
      match p
      case Missing => Nowhere?
      case InRequest(s) => this == At(true, s.position, s.typ)
      case InEndpoint(s) => this == At(false, s.position, s.typ)
    }
  }
}
