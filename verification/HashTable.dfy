/** The chained hash table of src/ht.c, with MurmurHash3 under it. */
module HashTable {
  import opened Wrappers
  import opened Memory
  import opened HashSpec
  import Murmur3X86

  /** The hash of a key: MurmurHash3_x86_32 with seed 55. */
  function HashOf(key: Text): nat {
    Murmur3X86.Hash(key, 55) as nat
  }

  method ComputeHash(key: Text) returns (hash: nat)
    ensures hash == HashOf(key) == Murmur3X86.Hash(key, 55) as nat
  {
    var h := Murmur3X86.MurmurHash3_x86_32(key, 55);
    hash := h as nat;
  }

  /** A function that gives the hash of every key. */
  ghost predicate Hashes(hash: Text -> nat) {
    forall key: Text {:trigger HashOf(key)} :: hash(key) == HashOf(key)
  }

  /** struct bucket: how many of the elements are in use, and the buffer they are in. */
  datatype Bucket<V> = Bucket(elC: nat, el: array?<Element<V>>)

  /** The elements in use. */
  ghost function InUse<V>(b: Bucket<V>): (elements: seq<Element<V>>)
    requires b.el == null ==> b.elC == 0
    requires b.el != null ==> b.elC <= b.el.Length
    reads b.el
    ensures |elements| == b.elC
  {
    if b.el == null then [] else b.el[..b.elC]
  }

  ghost predicate Fits<V>(b: Bucket<V>) {
    if b.el == null then b.elC == 0 else b.elC <= b.el.Length
  }

  /** realloc to one more element than are in use. */
  method Enlarge<V>(b: Bucket<V>, e: Element<V>) returns (el: array<Element<V>>)
    requires Fits(b)
    ensures fresh(el) && el.Length == b.elC + 1
    ensures el[..b.elC] == InUse(b) && el[b.elC] == e
  {
    el := new Element<V>[b.elC + 1](_ => e);
    var j := 0;
    while j < b.elC
      invariant 0 <= j <= b.elC
      invariant forall k :: 0 <= k < j ==> el[k] == b.el[k]
      invariant el[b.elC] == e
    {
      el[j] := b.el[j];
      j := j + 1;
    }
  }

  ghost function KeyOf<V>(e: Element<V>): multiset<object> {
    multiset{e.key}
  }

  /** The buffer of a bucket. */
  ghost function BufferOf<V>(b: Bucket<V>): multiset<object> {
    if b.el == null then multiset{} else multiset{b.el}
  }

  class HashTable<V> {
    const buckC: nat
    const buck: array<Bucket<V>>
    var collisionsCount: int

    ghost const hash: Text -> nat

    /** The insertions so far. */
    ghost var log: seq<Element<V>>

    ghost predicate Valid()
      reads this, buck, set i | 0 <= i < buck.Length :: buck[i].el
    {
      && buckC > 0 && buck.Length == buckC && Hashes(hash)
      && (forall i :: 0 <= i < buckC ==> BucketValid(i))
      && collisionsCount == Counter(Collisions(log, hash, buckC), Threshold())
    }

    /** Bucket i holds the insertions with hash i modulo the number of buckets. */
    ghost predicate BucketValid(i: nat)
      requires buckC > 0 && buck.Length == buckC && i < buckC
      reads this, buck, buck[i].el
    {
      Fits(buck[i]) && InUse(buck[i]) == InBucket(log, hash, buckC, i)
    }

    /** A tenth of the number of buckets. */
    function Threshold(): nat {
      buckC / 10
    }

    /** How often the table warns over these insertions. */
    ghost function AlarmsOver(insertions: seq<Element<V>>): nat
      requires buckC > 0
    {
      Alarms(Collisions(insertions, hash, buckC), Threshold())
    }

    ghost function Buffers(): multiset<object>
      reads this, buck
    {
      Sum(buck[..], BufferOf)
    }

    /** Everything the table has allocated: itself, its buckets, their buffers and the keys. */
    ghost function Held(): multiset<object>
      reads this, buck
    {
      multiset{this} + multiset{buck} + Buffers() + Sum(log, KeyOf)
    }

    /** fra_p_ht_new. */
    constructor (bucketCount: nat)
      requires bucketCount > 0
      ensures Valid() && buckC == bucketCount && log == [] && fresh(buck)
      ensures Held() == multiset{this} + multiset{buck}
    {
      hash, buckC, collisionsCount, log := HashOf, bucketCount, 0, [];
      buck := new Bucket<V>[bucketCount](_ => Bucket(0, null));
      new;
      assert Used(log, hash, buckC) == {};
      NoBuffers(buck[..], bucketCount);
    }

    /** The hash of a key, as every operation computes it. */
    method Hash(key: Text) returns (h: nat)
      requires Valid()
      ensures h == hash(key)
    {
      h := ComputeHash(key);
    }

    /** The warnings in closed form: one when the collisions exceed a tenth of the number of buckets, and
        one more for each 2^31 collisions and as many again from then on. */
    lemma {:induction false} AlarmsAre(insertions: seq<Element<V>>)
      requires buckC > 0
      ensures AlarmsOver(insertions) ==
              (Collisions(insertions, hash, buckC) + 0x8000_0000) / (0x8000_0000 + buckC / 10 + 1)
    {
      AlarmsClosed(Collisions(insertions, hash, buckC), Threshold());
    }

    /** All tables hash alike. */
    lemma {:induction false} SameHash(other: HashTable<V>, key: Text)
      requires Hashes(hash) && Hashes(other.hash)
      ensures hash(key) == other.hash(key)
    {
      assert hash(key) == HashOf(key);
    }

    /** fra_p_ht_get_by_hash. */
    method GetByHash(key: Text, h: nat) returns (r: Option<V>)
      requires Valid() && h == hash(key)
      ensures r == FirstMatch(log, key)
    {
      var i := h % buckC;
      assert BucketValid(i);
      BucketSuffices(log, hash, buckC, key);
      var j := 0;
      while j < buck[i].elC
        invariant 0 <= j <= buck[i].elC
        invariant forall k :: 0 <= k < j ==> InUse(buck[i])[k].key.data != key
      {
        var e := buck[i].el[j];
        if e.key.data == key {
          FirstMatchIs(InUse(buck[i]), key, j);
          return Some(e.value);
        }
        j := j + 1;
      }
      FirstMatchIs(InUse(buck[i]), key, j);
      return None;
    }

    /** fra_p_ht_get. */
    method Get(key: Text) returns (r: Option<V>)
      requires Valid()
      ensures r == FirstMatch(log, key)
    {
      var h := Hash(key);
      r := GetByHash(key, h);
    }

    /** fra_p_ht_set.  If it fails the contents stay as they were.  In any case exactly what the table
        holds has been allocated. */
    method Set(key: Text, value: V, keyOk: bool, reallocOk: bool, setOk: bool, ghost live: multiset<object>)
      returns (rc: int, warned: bool, ghost live': multiset<object>)
      requires Valid() && Held() <= live
      modifies this, buck
      ensures Valid() && live' + old(Held()) == live + Held()
      ensures rc == if keyOk && reallocOk && setOk then 0 else -1
      ensures rc == 0 ==>
                && |log| == |old(log)| + 1 && log == old(log) + [log[|old(log)|]]
                && log[|old(log)|].key.data == key && log[|old(log)|].value == value
      ensures rc != 0 ==> log == old(log)
      ensures warned <==> AlarmsOver(log) > AlarmsOver(old(log))
    {
      if !keyOk {
        return -1, false, live;
      }
      var keyStr := new Bstring(key);
      ghost var own, before := multiset{this} + multiset{buck}, Buffers();
      rc, warned, live' := Insert(keyStr, value, reallocOk, setOk, Allocated(live, keyStr));
      if rc == 0 {
        KeyAccount(live, live', own, before, Buffers(), old(log), Element(keyStr, value));
      } else {
        KeyFreedAgain(live, live', own, before, Buffers(), log, keyStr);
        live' := Freed(live', keyStr);
      }
    }

    /** fra_p_ht_set from the point where it has the key string. */
    method Insert(keyStr: Bstring, value: V, reallocOk: bool, setOk: bool, ghost live: multiset<object>)
      returns (rc: int, warned: bool, ghost live': multiset<object>)
      requires Valid() && Buffers() <= live
      modifies this, buck
      ensures Valid() && live' + old(Buffers()) == live + Buffers()
      ensures rc == if reallocOk && setOk then 0 else -1
      ensures log == if rc == 0 then old(log) + [Element(keyStr, value)] else old(log)
      ensures warned <==> AlarmsOver(log) > AlarmsOver(old(log))
    {
      var h := Hash(keyStr.data);
      var i := h % buckC;
      if !reallocOk {
        return -1, false, live;
      }
      var e := Element(keyStr, value);
      live' := MakeRoom(i, e, live);
      if !setOk {
        return -1, false, live';
      }
      warned := Append(i, e);
      rc := 0;
    }

    /** The reallocation of a bucket, with an element put just beyond those in use. */
    method MakeRoom(i: nat, e: Element<V>, ghost live: multiset<object>) returns (ghost live': multiset<object>)
      requires Valid() && i < buckC && Buffers() <= live
      modifies buck
      ensures Valid() && live' + old(Buffers()) == live + Buffers()
      ensures buck[i].el != null && buck[i].elC < buck[i].el.Length && buck[i].el[buck[i].elC] == e
    {
      assert BucketValid(i);
      ghost var was := buck[i];
      var el := Enlarge(buck[i], e);
      live' := Reallocated(buck[..], i, el, live);
      buck[i] := Bucket(buck[i].elC, el);
      assert buck[..] == old(buck[..])[i := buck[i]];
      assert InUse(buck[i]) == old(InUse(was));
      forall k: nat | k < buckC
        ensures BucketValid(k)
      {
        assert old(BucketValid(k));
      }
    }

    /** Takes the element just beyond into use. */
    method Append(i: nat, ghost e: Element<V>) returns (warned: bool)
      requires Valid() && i == Place(hash, buckC, e.key.data)
      requires buck[i].el != null && buck[i].elC < buck[i].el.Length && buck[i].el[buck[i].elC] == e
      modifies this, buck
      ensures Valid() && log == old(log) + [e] && Buffers() == old(Buffers())
      ensures warned <==> AlarmsOver(log) > AlarmsOver(old(log))
    {
      ghost var was, inUse := log, InUse(buck[i]);
      assert BucketValid(i);
      SameBuffers(buck[..], i, buck[i].elC + 1);
      buck[i] := Bucket(buck[i].elC + 1, buck[i].el);
      assert buck[..] == old(buck[..])[i := buck[i]];
      assert InUse(buck[i]) == inUse + [e];
      warned := CountIn(i, e);
      forall k: nat | k < buckC
        ensures BucketValid(k)
      {
        assert old(BucketValid(k));
        InBucketNext(was, e, hash, buckC, k);
      }
    }

    /** The counting part of fra_p_ht_set, after the element has gone into bucket i. */
    method CountIn(i: nat, ghost e: Element<V>) returns (warned: bool)
      requires buckC > 0 && buck.Length == buckC && i == Place(hash, buckC, e.key.data)
      requires buck[i].elC == |InBucket(log, hash, buckC, i)| + 1
      requires collisionsCount == Counter(Collisions(log, hash, buckC), Threshold())
      modifies this
      ensures log == old(log) + [e] && collisionsCount == Counter(Collisions(log, hash, buckC), Threshold())
      ensures warned <==> AlarmsOver(log) > AlarmsOver(old(log))
    {
      CollisionsNext(log, e, hash, buckC);
      log := log + [e];
      if buck[i].elC > 1 {
        collisionsCount := collisionsCount + 1;
      }
      warned := false;
      if collisionsCount > buckC / 10 {
        warned := true;
        collisionsCount := -0x8000_0000;
      }
    }

    /** fra_p_ht_free: frees everything the table holds, each piece once, and hands each element to the
        destructor once. */
    method Free(ghost live: multiset<object>) returns (destroyed: seq<Element<V>>, ghost live': multiset<object>)
      requires Valid() && Held() <= live
      ensures Permutes(destroyed, log)
      ensures live == live' + Held()
    {
      ghost var own := multiset{this} + multiset{buck};
      KeysApart(live, own + Buffers(), Sum(log, KeyOf));
      ghost var left := ScheduleAll(log, hash, buckC, live - (own + Buffers()));
      destroyed, live' := FreeBuckets(own, left, live);
      TableFreed(live', left(|destroyed|), this, buck);
      live' := Freed(live', buck);
      live' := Freed(live', this);
    }

    /** The outer loop of fra_p_ht_free. */
    method FreeBuckets(ghost own: multiset<object>, ghost left: nat -> multiset<object>, ghost live: multiset<object>)
      returns (destroyed: seq<Element<V>>, ghost live': multiset<object>)
      requires Valid() && Schedule(UpTo(log, hash, buckC, buckC), KeyOf, left)
      requires live == left(0) + (own + Buffers())
      ensures destroyed == UpTo(log, hash, buckC, buckC) && live' == left(|destroyed|) + own
    {
      ghost var buffers := ScheduleFor(buck[..], BufferOf, own + Buffers());
      CancelAll(buffers(buckC), own, Buffers());
      live', destroyed := live, [];
      var i := 0;
      while i < buckC
        invariant 0 <= i <= buckC
        invariant destroyed == UpTo(log, hash, buckC, i) && live' == left(|destroyed|) + buffers(i)
      {
        destroyed, live' := FreeNext(i, destroyed, UpTo(log, hash, buckC, buckC), left, buffers, live');
        i := i + 1;
      }
    }

    /** The body of the outer loop of fra_p_ht_free. */
    method FreeNext(i: nat, before: seq<Element<V>>, ghost all: seq<Element<V>>,
        ghost left: nat -> multiset<object>, ghost buffers: nat -> multiset<object>, ghost live: multiset<object>)
      returns (destroyed: seq<Element<V>>, ghost live': multiset<object>)
      requires Valid() && i < buckC && before == UpTo(log, hash, buckC, i) && all == UpTo(log, hash, buckC, buckC)
      requires Schedule(all, KeyOf, left) && Schedule(buck[..], BufferOf, buffers)
      requires live == left(|before|) + buffers(i)
      ensures destroyed == UpTo(log, hash, buckC, i + 1) && live' == left(|destroyed|) + buffers(i + 1)
    {
      assert BucketValid(i);
      UpToPrefix(log, hash, buckC, i + 1, buckC);
      var part;
      part, live' := FreeBucket(buck[i], before, all, left, buffers(i), live);
      destroyed := before + part;
      assert FreesNext(buck[..], BufferOf, buffers, i);
      if buck[i].el != null {
        live' := Freed(live', buck[i].el);
      }
    }
  }

  lemma {:induction false} NoBuffers<V>(buck: seq<Bucket<V>>, k: nat)
    requires k <= |buck| && forall i :: 0 <= i < k ==> buck[i].el == null
    ensures SumTo(buck, BufferOf, k) == multiset{}
  {
    if k > 0 {
      NoBuffers(buck, k - 1);
    }
  }

  /** What is live after a buffer has been reallocated. */
  lemma {:induction false} Reallocated<V>(buck: seq<Bucket<V>>, i: nat, el: array<Element<V>>, live: multiset<object>)
    returns (live': multiset<object>)
    requires i < |buck| && Sum(buck, BufferOf) <= live
    ensures live' + Sum(buck, BufferOf) == live + Sum(buck[i := Bucket(buck[i].elC, el)], BufferOf)
  {
    var buck' := buck[i := Bucket(buck[i].elC, el)];
    SumWithout(buck, BufferOf, i);
    SumUpdate(buck, BufferOf, i, Bucket(buck[i].elC, el));
    assert Sum(buck', BufferOf) + BufferOf(buck[i]) == Sum(buck, BufferOf) + multiset{el};
    live' := if buck[i].el == null then Allocated(live, el) else Allocated(Freed(live, buck[i].el), el);
    assert live' + BufferOf(buck[i]) == live + multiset{el};
    Swapped(live, live', Sum(buck, BufferOf), Sum(buck', BufferOf), BufferOf(buck[i]), multiset{el});
  }

  /** Both accounts change in the same way. */
  lemma {:induction false} Swapped(live: multiset<object>, live': multiset<object>, held: multiset<object>,
      held': multiset<object>, out: multiset<object>, into: multiset<object>)
    requires held' + out == held + into && live' + out == live + into
    ensures live' + held == live + held'
  {
    assert live' + held + (out + into) == (live' + out) + (held + into);
    assert (live + into) + (held' + out) == live + held' + (out + into);
    CancelAll(live' + held, live + held', out + into);
  }

  lemma {:induction false} SameBuffers<V>(buck: seq<Bucket<V>>, i: nat, elC: nat)
    requires i < |buck|
    ensures Sum(buck[i := Bucket(elC, buck[i].el)], BufferOf) == Sum(buck, BufferOf)
  {
    SumUpdate(buck, BufferOf, i, Bucket(elC, buck[i].el));
    CancelAll(Sum(buck[i := Bucket(elC, buck[i].el)], BufferOf), Sum(buck, BufferOf), BufferOf(buck[i]));
  }

  lemma {:induction false} ScheduleAll<V>(log: seq<Element<V>>, hash: Text -> nat, n: nat, live: multiset<object>)
    returns (left: nat -> multiset<object>)
    requires n > 0 && Sum(log, KeyOf) <= live
    ensures var all := UpTo(log, hash, n, n);
            && Permutes(all, log) && Schedule(all, KeyOf, left)
            && left(0) == live && live == left(|all|) + Sum(log, KeyOf)
  {
    var all := UpTo(log, hash, n, n);
    BucketsPartition(log, hash, n);
    SumPermutes(all, log, KeyOf);
    left := ScheduleFor(all, KeyOf, live);
  }

  /** The inner loop of fra_p_ht_free, over one bucket. */
  method FreeBucket<V>(b: Bucket<V>, ghost before: seq<Element<V>>, ghost all: seq<Element<V>>,
      ghost left: nat -> multiset<object>, ghost others: multiset<object>, ghost live: multiset<object>)
    returns (part: seq<Element<V>>, ghost live': multiset<object>)
    requires Fits(b) && before + InUse(b) <= all && Schedule(all, KeyOf, left) && live == left(|before|) + others
    ensures part == InUse(b) && live' == left(|before + part|) + others
  {
    live', part := live, [];
    var j := 0;
    while j < b.elC
      invariant 0 <= j <= b.elC && |part| == j
      invariant forall k :: 0 <= k < j ==> part[k] == b.el[k]
      invariant live' == left(|before| + j) + others
    {
      var e := b.el[j];
      PrefixAt(before, InUse(b), all, j);
      KeyFreed(all, left, |before| + j, others);
      live' := Freed(live', e.key);
      part := part + [e];
      j := j + 1;
    }
  }

  lemma {:induction false} PrefixAt<A>(before: seq<A>, s: seq<A>, all: seq<A>, j: nat)
    requires before + s <= all && j < |s|
    ensures |before| + j < |all| && all[|before| + j] == s[j]
  {
    assert s[j] == (before + s)[|before| + j];
  }

  lemma {:induction false} KeyFreed<V>(all: seq<Element<V>>, left: nat -> multiset<object>, k: nat,
      others: multiset<object>)
    requires k < |all| && Schedule(all, KeyOf, left)
    ensures all[k].key in left(k) + others && Freed(left(k) + others, all[k].key) == left(k + 1) + others
  {
    assert FreesNext(all, KeyOf, left, k);
  }

  /** The account of a table that has taken in an element. */
  lemma {:induction false} KeyAccount<V>(live: multiset<object>, live': multiset<object>, own: multiset<object>,
      before: multiset<object>, after: multiset<object>, log: seq<Element<V>>, e: Element<V>)
    requires live' + before == Allocated(live, e.key) + after
    ensures live' + (own + before + Sum(log, KeyOf)) == live + (own + after + Sum(log + [e], KeyOf))
  {
    var keys := Sum(log, KeyOf);
    SumNext(log, e, KeyOf);
    assert live' + (own + before + keys) == live' + before + (own + keys);
    assert live + multiset{e.key} + after + (own + keys) == live + (own + after + (keys + multiset{e.key}));
  }

  /** A key that did not go into the table is still there to be freed. */
  lemma {:induction false} KeyFreedAgain<V>(live: multiset<object>, live': multiset<object>, own: multiset<object>,
      before: multiset<object>, after: multiset<object>, log: seq<Element<V>>, key: Bstring)
    requires before <= live && live' + before == Allocated(live, key) + after
    ensures key in live'
    ensures Freed(live', key) + (own + before + Sum(log, KeyOf)) == live + (own + after + Sum(log, KeyOf))
  {
    var keys := Sum(log, KeyOf);
    assert (live' + before)[key] == (live + multiset{key} + after)[key] && before[key] <= live[key];
    assert Freed(live', key) + before == live + after by {
      assert Freed(live', key) + multiset{key} == live';
      assert Freed(live', key) + before + multiset{key} == live' + before;
      assert live + after + multiset{key} == live + multiset{key} + after;
      CancelAll(Freed(live', key) + before, live + after, multiset{key});
    }
    assert Freed(live', key) + (own + before + keys) == Freed(live', key) + before + (own + keys);
    assert live + after + (own + keys) == live + (own + after + keys);
  }

  /** The account at the start of fra_p_ht_free: what is left when only keys have been freed. */
  lemma {:induction false} KeysApart(live: multiset<object>, others: multiset<object>, keys: multiset<object>)
    requires others + keys <= live
    ensures keys <= live - others && live - others + others == live
  {
    forall o | o in keys
      ensures keys[o] <= (live - others)[o]
    {
      assert (others + keys)[o] <= live[o];
    }
  }

  lemma {:induction false} TableFreed(live: multiset<object>, rest: multiset<object>, table: object, buck: object)
    requires live == rest + (multiset{table} + multiset{buck})
    ensures buck in live && table in Freed(live, buck) && Freed(Freed(live, buck), table) == rest
  {}
}
