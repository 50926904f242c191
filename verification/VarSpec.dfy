/** What the variable store (src/var.c) means: named slots laid out one after the other, and a map from
    names to the bytes in them. */
module VarSpec {
  import opened Wrappers
  import opened Words
  import opened Memory

  const SIZE_MAX: nat := 0xffff_ffff_ffff_ffff

  datatype Slot = Slot(name: Text, typ: Text, position: nat, size: nat)

  /** The size of the first k slots together. */
  function EndTo(slots: seq<Slot>, k: nat): nat
    requires k <= |slots|
  {
    if k == 0 then 0 else EndTo(slots, k - 1) + slots[k - 1].size
  }

  function End(slots: seq<Slot>): nat {
    EndTo(slots, |slots|)
  }

  /** Every slot begins where the one before it ends. */
  ghost predicate Tiles(slots: seq<Slot>) {
    forall k :: 0 <= k < |slots| ==> BeginsAt(slots, k)
  }

  ghost predicate BeginsAt(slots: seq<Slot>, k: nat)
    requires k < |slots|
  {
    slots[k].position == EndTo(slots, k)
  }

  lemma {:induction false} EndToSame(a: seq<Slot>, b: seq<Slot>, k: nat)
    requires k <= |a| && k <= |b| && forall i :: 0 <= i < k ==> a[i] == b[i]
    ensures EndTo(a, k) == EndTo(b, k)
  {
    if k > 0 {
      EndToSame(a, b, k - 1);
    }
  }

  lemma {:induction false} EndToGrows(slots: seq<Slot>, j: nat, k: nat)
    requires j <= k <= |slots|
    ensures EndTo(slots, j) <= EndTo(slots, k)
  {
    if j < k {
      EndToGrows(slots, j, k - 1);
    }
  }

  lemma {:induction false} TilesNext(slots: seq<Slot>, s: Slot)
    requires Tiles(slots) && s.position == End(slots)
    ensures Tiles(slots + [s]) && End(slots + [s]) == End(slots) + s.size
  {
    forall k | 0 <= k <= |slots|
      ensures BeginsAt(slots + [s], k)
    {
      EndToSame(slots, slots + [s], k);
      assert k < |slots| ==> BeginsAt(slots, k);
    }
    EndToSame(slots, slots + [s], |slots|);
  }

  /** No byte belongs to two slots. */
  lemma {:induction false} NoOverlap(slots: seq<Slot>, j: nat, k: nat)
    requires Tiles(slots) && j < k < |slots|
    ensures slots[j].position + slots[j].size <= slots[k].position
    ensures slots[k].position + slots[k].size <= End(slots)
  {
    assert BeginsAt(slots, j) && BeginsAt(slots, k);
    EndToGrows(slots, j + 1, k);
    EndToGrows(slots, k + 1, |slots|);
  }

  lemma {:induction false} AllEmpty(slots: seq<Slot>, j: nat, k: nat)
    requires j <= k <= |slots|
    ensures EndTo(slots, k) == EndTo(slots, j) <==> forall i :: j <= i < k ==> slots[i].size == 0
  {
    if j < k {
      AllEmpty(slots, j, k - 1);
      EndToGrows(slots, j, k - 1);
    }
  }

  /** The size that malloc is asked for: a header and a store, in size_t arithmetic. */
  function BlockSize(header: nat, storeSize: nat): nat {
    (header + storeSize) % (SIZE_MAX + 1)
  }

  lemma {:induction false} BlockSizeIs(header: nat, storeSize: nat)
    requires header <= 0xffff_ffff_ffff_ffff && storeSize <= 0xffff_ffff_ffff_ffff
    ensures BlockSize(header, storeSize) ==
            header + storeSize - if header + storeSize <= 0xffff_ffff_ffff_ffff then 0 else 0x1_0000_0000_0000_0000
  {}

  /** A block is allocated for the slots registered before.  A slot is inside it exactly if the size of
      the block has not wrapped around, and the slot is one of those, or it and all slots registered
      since are empty. */
  lemma {:induction false} InBoundsIff(slots: seq<Slot>, header: nat, before: nat, k: nat)
    requires Tiles(slots) && before <= |slots| && k < |slots|
    requires header <= SIZE_MAX && EndTo(slots, before) <= SIZE_MAX
    ensures header + slots[k].position + slots[k].size <= BlockSize(header, EndTo(slots, before)) <==>
            && header + EndTo(slots, before) <= 0xffff_ffff_ffff_ffff
            && (k < before || forall i :: before <= i <= k ==> slots[i].size == 0)
  {
    assert BeginsAt(slots, k);
    if k < before {
      EndToGrows(slots, k + 1, before);
    } else {
      EndToGrows(slots, before, k + 1);
      AllEmpty(slots, before, k + 1);
    }
  }

  /** One variable that is accepted, and for which the block is smaller than its header. */
  lemma {:induction false} HugeVariable(header: nat, name: Text, typ: Text)
    requires 2 <= header <= SIZE_MAX
    ensures var slots := [Slot(name, typ, 0, SIZE_MAX - 1)];
            Tiles(slots) && End([]) + slots[0].size < 0xffff_ffff_ffff_ffff && BlockSize(header, End(slots)) < header
  {
    var slots := [Slot(name, typ, 0, SIZE_MAX - 1)];
    assert EndTo(slots, 1) == EndTo(slots, 0) + slots[0].size;
    assert BeginsAt(slots, 0);
  }

  // ---------------------------------------------------------------- names

  /** The number of the first of the first k slots with this name, or k. */
  function FirstNamed(slots: seq<Slot>, name: Text, k: nat): (i: nat)
    requires k <= |slots|
    ensures i <= k && (i < k ==> slots[i].name == name)
    ensures forall j :: 0 <= j < i ==> slots[j].name != name
  {
    if k == 0 then 0
    else
      var i := FirstNamed(slots, name, k - 1);
      if i < k - 1 || slots[k - 1].name == name then i else k
  }

  function Find(slots: seq<Slot>, name: Text): Option<Slot> {
    var i := FirstNamed(slots, name, |slots|);
    if i < |slots| then Some(slots[i]) else None
  }

  function Names(slots: seq<Slot>): set<Text> {
    set k | 0 <= k < |slots| :: slots[k].name
  }

  lemma {:induction false} FindIffNamed(slots: seq<Slot>, name: Text)
    ensures Find(slots, name).Some? <==> name in Names(slots)
  {
    var i := FirstNamed(slots, name, |slots|);
    if i < |slots| {
      assert slots[i].name in Names(slots);
    }
  }

  /** Every slot is inside the store. */
  ghost predicate Holds(slots: seq<Slot>, store: seq<Byte>) {
    Tiles(slots) && End(slots) <= |store|
  }

  /** What malloc returned for a header and a store. */
  datatype Block = Block(header: nat, bytes: seq<Byte>) {
    /** It was allocated when these were the slots. */
    ghost predicate IsFor(slots: seq<Slot>) {
      && Tiles(slots) && End(slots) <= SIZE_MAX && header <= SIZE_MAX
      && |bytes| == BlockSize(header, End(slots))
    }

    /** The store behind the header. */
    function Store(): seq<Byte> {
      if header <= |bytes| then bytes[header..] else []
    }

    predicate Has(at: nat) {
      header + at < |bytes|
    }

    function Write(at: nat, b: Byte): Block
      requires Has(at)
    {
      Block(header, bytes[header + at := b])
    }
  }

  /** All slots are inside a block exactly if its size has not wrapped around. */
  lemma {:induction false} HoldsIff(slots: seq<Slot>, block: Block)
    requires block.IsFor(slots)
    ensures block.header <= |block.bytes| && Holds(slots, block.Store()) <==>
            block.header + End(slots) <= 0xffff_ffff_ffff_ffff
  {}

  lemma {:induction false} FoundIsInside(slots: seq<Slot>, store: seq<Byte>, name: Text)
    requires Holds(slots, store) && Find(slots, name).Some?
    ensures Find(slots, name).value.position + Find(slots, name).value.size <= |store|
  {
    var i := FirstNamed(slots, name, |slots|);
    assert BeginsAt(slots, i);
    EndToGrows(slots, i + 1, |slots|);
  }

  /** The bytes of a variable. */
  ghost function ValueOf(slots: seq<Slot>, store: seq<Byte>, name: Text): (v: seq<Byte>)
    requires Holds(slots, store) && name in Names(slots)
    ensures Find(slots, name).Some? && |v| == Find(slots, name).value.size
  {
    FindIffNamed(slots, name);
    FoundIsInside(slots, store, name);
    var s := Find(slots, name).value;
    seq(s.size, i requires 0 <= i < s.size => store[s.position + i])
  }

  /** The store, seen as a map from names to values. */
  ghost function View(slots: seq<Slot>, store: seq<Byte>): map<Text, seq<Byte>>
    requires Holds(slots, store)
  {
    map name | name in Names(slots) :: ValueOf(slots, store, name)
  }

  /** The map with one byte of one value changed. */
  ghost function Poke(m: map<Text, seq<Byte>>, name: Text, off: nat, b: Byte): map<Text, seq<Byte>>
    requires name in m && off < |m[name]|
  {
    m[name := m[name][off := b]]
  }

  /** A write through the pointer to a variable changes this variable alone. */
  lemma {:induction false} WriteInStore(slots: seq<Slot>, store: seq<Byte>, name: Text, off: nat, b: Byte)
    requires Holds(slots, store) && name in Names(slots) && off < |ValueOf(slots, store, name)|
    ensures var at := Find(slots, name).value.position + off;
            && at < |store|
            && View(slots, store[at := b]) == Poke(View(slots, store), name, off, b)
  {
    FoundIsInside(slots, store, name);
    var at := Find(slots, name).value.position + off;
    var store' := store[at := b];
    forall other | other in Names(slots)
      ensures ValueOf(slots, store', other) ==
              if other == name then ValueOf(slots, store, name)[off := b] else ValueOf(slots, store, other)
    {
      if other != name {
        var i, j := FirstNamed(slots, name, |slots|), FirstNamed(slots, other, |slots|);
        FindIffNamed(slots, other);
        FoundIsInside(slots, store, other);
        NoOverlap(slots, if i < j then i else j, if i < j then j else i);
      }
    }
  }

  /** The same in a block that was allocated for the slots, if its size has not wrapped around. */
  lemma {:induction false} WriteIsUpdate(slots: seq<Slot>, block: Block, name: Text, off: nat, b: Byte)
    requires block.IsFor(slots) && block.header + End(slots) <= SIZE_MAX
    requires Find(slots, name).Some? && off < Find(slots, name).value.size
    ensures var at := Find(slots, name).value.position + off;
            && block.Has(at) && Holds(slots, block.Store()) && Holds(slots, block.Write(at, b).Store())
            && block.Write(at, b).IsFor(slots)
            && name in View(slots, block.Store()) && off < |View(slots, block.Store())[name]|
            && View(slots, block.Write(at, b).Store()) == Poke(View(slots, block.Store()), name, off, b)
  {
    HoldsIff(slots, block);
    FindIffNamed(slots, name);
    WriteInStore(slots, block.Store(), name, off, b);
    var at := Find(slots, name).value.position + off;
    assert block.Write(at, b).Store() == block.Store()[at := b];
  }

  // ---------------------------------------------------------------- the two stores of a request

  /** What a caller says about the type: the name and the size of the array that holds it, or nothing. */
  datatype Ask = Typed(typ: Text, typeLen: int) | AnyType

  predicate Accepts(ask: Ask, typ: Text) {
    ask.AnyType? || (ask.typeLen - 1 == |typ| && ask.typ == typ)
  }

  datatype Place = Missing | InRequest(slot: Slot) | InEndpoint(slot: Slot)

  /** A name stands for its first global registration.  Only if there is none it stands for the first
      one of the endpoint, given that there is an endpoint with a store.  The type has to match. */
  function Resolve(globals: seq<Slot>, locals: Option<seq<Slot>>, name: Text, ask: Ask): Place {
    if name == [] then Missing
    else if Find(globals, name).Some? then
      if Accepts(ask, Find(globals, name).value.typ) then InRequest(Find(globals, name).value) else Missing
    else if locals.None? || Find(locals.value, name).None? then Missing
    else if Accepts(ask, Find(locals.value, name).value.typ) then InEndpoint(Find(locals.value, name).value)
    else Missing
  }

  /** All variables a request can reach: those of its endpoint, shadowed by the global ones. */
  ghost function Visible(globals: seq<Slot>, request: seq<Byte>, locals: seq<Slot>,
      endpoint: seq<Byte>): map<Text, seq<Byte>>
    requires Holds(globals, request) && Holds(locals, endpoint)
  {
    View(locals, endpoint) + View(globals, request)
  }

  /** The names that resolve are those of the map, apart from the empty one. */
  lemma {:induction false} ResolvesIffVisible(globals: seq<Slot>, request: seq<Byte>, locals: seq<Slot>,
      endpoint: seq<Byte>, name: Text)
    requires Holds(globals, request) && Holds(locals, endpoint) && name != []
    ensures Resolve(globals, Some(locals), name, AnyType) != Missing <==>
            name in Visible(globals, request, locals, endpoint)
  {
    FindIffNamed(globals, name);
    FindIffNamed(locals, name);
  }

  lemma {:induction false} ViewAt(slots: seq<Slot>, store: seq<Byte>, name: Text)
    requires Holds(slots, store) && Find(slots, name).Some?
    ensures name in Names(slots)
    ensures |View(slots, store)[name]| == |ValueOf(slots, store, name)| == Find(slots, name).value.size
  {
    FindIffNamed(slots, name);
  }

  lemma {:induction false} PokeRight(m: map<Text, seq<Byte>>, n: map<Text, seq<Byte>>, name: Text, off: nat, b: Byte)
    requires name in n && off < |n[name]|
    ensures (m + n)[name] == n[name] && m + Poke(n, name, off, b) == Poke(m + n, name, off, b)
  {}

  lemma {:induction false} PokeLeft(m: map<Text, seq<Byte>>, n: map<Text, seq<Byte>>, name: Text, off: nat, b: Byte)
    requires name in m && off < |m[name]| && name !in n
    ensures (m + n)[name] == m[name] && Poke(m, name, off, b) + n == Poke(m + n, name, off, b)
  {}

  /** Changing a byte of a variable that was found by name is an update of the map of all variables. */
  lemma {:induction false} UpdateRequest(globals: seq<Slot>, request: seq<Byte>, locals: seq<Slot>,
      endpoint: seq<Byte>,
      name: Text, ask: Ask, slot: Slot, off: nat, b: Byte)
    requires Holds(globals, request) && Holds(locals, endpoint)
    requires Resolve(globals, Some(locals), name, ask) == InRequest(slot) && off < slot.size
    ensures var before := Visible(globals, request, locals, endpoint);
            && name in before && off < |before[name]| && slot.position + off < |request|
            && Visible(globals, request[slot.position + off := b], locals, endpoint) == Poke(before, name, off, b)
  {
    ViewAt(globals, request, name);
    WriteInStore(globals, request, name, off, b);
    var m, n := View(locals, endpoint), View(globals, request);
    PokeRight(m, n, name, off, b);
    assert View(globals, request[slot.position + off := b]) == Poke(n, name, off, b);
  }

  /** The same for a variable of the endpoint, which is found only if no global one has its name. */
  lemma {:induction false} UpdateEndpoint(globals: seq<Slot>, request: seq<Byte>, locals: seq<Slot>,
      endpoint: seq<Byte>,
      name: Text, ask: Ask, slot: Slot, off: nat, b: Byte)
    requires Holds(globals, request) && Holds(locals, endpoint)
    requires Resolve(globals, Some(locals), name, ask) == InEndpoint(slot) && off < slot.size
    ensures var before := Visible(globals, request, locals, endpoint);
            && name in before && off < |before[name]| && slot.position + off < |endpoint|
            && Visible(globals, request, locals, endpoint[slot.position + off := b]) == Poke(before, name, off, b)
  {
    FindIffNamed(globals, name);
    ViewAt(locals, endpoint, name);
    WriteInStore(locals, endpoint, name, off, b);
    var m, n := View(locals, endpoint), View(globals, request);
    PokeLeft(m, n, name, off, b);
    assert View(locals, endpoint[slot.position + off := b]) == Poke(m, name, off, b);
  }

  /** A block that was allocated for the slots, and whose size has not wrapped around. */
  ghost predicate Fits(slots: seq<Slot>, block: Block) {
    block.IsFor(slots) && block.header + End(slots) <= SIZE_MAX
  }

  /** All variables a request can reach in its two blocks. */
  ghost function VisibleIn(globals: seq<Slot>, request: Block, locals: seq<Slot>,
      endpoint: Block): map<Text, seq<Byte>>
    requires Fits(globals, request) && Fits(locals, endpoint)
  {
    HoldsIff(globals, request);
    HoldsIff(locals, endpoint);
    Visible(globals, request.Store(), locals, endpoint.Store())
  }

  lemma {:induction false} WriteFits(slots: seq<Slot>, block: Block, slot: Slot, off: nat, b: Byte)
    requires Fits(slots, block) && slot.position + off < |block.Store()|
    ensures Holds(slots, block.Store()) && block.Has(slot.position + off)
    ensures var block' := block.Write(slot.position + off, b);
            Fits(slots, block') && block'.Store() == block.Store()[slot.position + off := b]
  {
    HoldsIff(slots, block);
    var block' := block.Write(slot.position + off, b);
    assert block'.Store() == block.Store()[slot.position + off := b];
  }

  /** Writing through a pointer that was found by name is an update of the map of all variables. */
  lemma {:induction false} WriteInRequest(globals: seq<Slot>, request: Block, locals: seq<Slot>, endpoint: Block,
      name: Text, ask: Ask, slot: Slot, off: nat, b: Byte)
    requires Fits(globals, request) && Fits(locals, endpoint)
    requires Resolve(globals, Some(locals), name, ask) == InRequest(slot) && off < slot.size
    ensures request.Has(slot.position + off) && Fits(globals, request.Write(slot.position + off, b))
    ensures var before := VisibleIn(globals, request, locals, endpoint);
            && name in before && off < |before[name]|
            && VisibleIn(globals, request.Write(slot.position + off, b), locals, endpoint) == Poke(before, name, off, b)
  {
    HoldsIff(globals, request);
    HoldsIff(locals, endpoint);
    UpdateRequest(globals, request.Store(), locals, endpoint.Store(), name, ask, slot, off, b);
    WriteFits(globals, request, slot, off, b);
  }

  /** The same for a variable of the endpoint, which is found only if no global one has its name. */
  lemma {:induction false} WriteInEndpoint(globals: seq<Slot>, request: Block, locals: seq<Slot>, endpoint: Block,
      name: Text, ask: Ask, slot: Slot, off: nat, b: Byte)
    requires Fits(globals, request) && Fits(locals, endpoint)
    requires Resolve(globals, Some(locals), name, ask) == InEndpoint(slot) && off < slot.size
    ensures endpoint.Has(slot.position + off) && Fits(locals, endpoint.Write(slot.position + off, b))
    ensures var before := VisibleIn(globals, request, locals, endpoint);
            && name in before && off < |before[name]|
            && VisibleIn(globals, request, locals, endpoint.Write(slot.position + off, b)) == Poke(before, name, off, b)
  {
    HoldsIff(globals, request);
    HoldsIff(locals, endpoint);
    UpdateEndpoint(globals, request.Store(), locals, endpoint.Store(), name, ask, slot, off, b);
    WriteFits(locals, endpoint, slot, off, b);
  }
}
