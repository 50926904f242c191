/** What a chained hash table (src/ht.c) means: the sequence of its insertions, first match first.

    The hash function is arbitrary here. */
module HashSpec {
  import opened Wrappers
  import opened Memory

  /** A key string, and the value that an insertion put beside it. */
  datatype Element<V> = Element(key: Bstring, value: V)

  /** The value of the first insertion under a key. */
  function FirstMatch<V>(log: seq<Element<V>>, key: Text): Option<V> {
    if log == [] then None
    else
      var earlier := FirstMatch(log[..|log| - 1], key);
      if earlier.Some? then earlier
      else if log[|log| - 1].key.data == key then Some(log[|log| - 1].value)
      else None
  }

  lemma {:induction false} FirstMatchIs<V>(log: seq<Element<V>>, key: Text, j: nat)
    requires j <= |log| && forall i :: 0 <= i < j ==> log[i].key.data != key
    requires j < |log| ==> log[j].key.data == key
    ensures FirstMatch(log, key) == if j < |log| then Some(log[j].value) else None
  {
    if log != [] {
      var last := |log| - 1;
      FirstMatchIs(log[..last], key, if j < last then j else last);
    }
  }

  /** The bucket of a key among n. */
  function Place(hash: Text -> nat, n: nat, key: Text): (i: nat)
    requires n > 0
    ensures i < n
  {
    hash(key) % n
  }

  /** The insertions that go to bucket i of n, in order. */
  function InBucket<V>(log: seq<Element<V>>, hash: Text -> nat, n: nat, i: nat): (bucket: seq<Element<V>>)
    requires n > 0
    ensures |bucket| <= |log|
  {
    if log == [] then []
    else
      var earlier, e := InBucket(log[..|log| - 1], hash, n, i), log[|log| - 1];
      if Place(hash, n, e.key.data) == i then earlier + [e] else earlier
  }

  lemma {:induction false} InBucketNext<V>(log: seq<Element<V>>, e: Element<V>, hash: Text -> nat, n: nat, i: nat)
    requires n > 0
    ensures Place(hash, n, e.key.data) == i ==> InBucket(log + [e], hash, n, i) == InBucket(log, hash, n, i) + [e]
    ensures Place(hash, n, e.key.data) != i ==> InBucket(log + [e], hash, n, i) == InBucket(log, hash, n, i)
  {
    assert (log + [e])[..|log|] == log;
  }

  /** Whatever the hash function and the number of buckets: to find the first match among all
      insertions it is enough to search the bucket of the key. */
  lemma {:induction false} BucketSuffices<V>(log: seq<Element<V>>, hash: Text -> nat, n: nat, key: Text)
    requires n > 0
    ensures FirstMatch(InBucket(log, hash, n, Place(hash, n, key)), key) == FirstMatch(log, key)
  {
    if log != [] {
      var front, e := log[..|log| - 1], log[|log| - 1];
      BucketSuffices(front, hash, n, key);
      var i := Place(hash, n, key);
      var bucket := InBucket(front, hash, n, i);
      if Place(hash, n, e.key.data) == i {
        assert InBucket(log, hash, n, i) == bucket + [e];
        assert (bucket + [e])[..|bucket|] == bucket;
      } else {
        assert InBucket(log, hash, n, i) == bucket;
      }
    }
  }

  /** The buckets up to the i-th, one after the other. */
  function UpTo<V>(log: seq<Element<V>>, hash: Text -> nat, n: nat, i: nat): seq<Element<V>>
    requires n > 0
  {
    if i == 0 then [] else UpTo(log, hash, n, i - 1) + InBucket(log, hash, n, i - 1)
  }

  lemma {:induction false} UpToPrefix<V>(log: seq<Element<V>>, hash: Text -> nat, n: nat, i: nat, k: nat)
    requires n > 0 && i <= k
    ensures UpTo(log, hash, n, i) <= UpTo(log, hash, n, k)
  {
    if i < k {
      UpToPrefix(log, hash, n, i, k - 1);
    }
  }

  /** Insertion e is in the buckets before the i-th as often as it was made, if that is where it goes. */
  lemma {:induction false} TimesUpTo<V>(log: seq<Element<V>>, hash: Text -> nat, n: nat, i: nat, e: Element<V>)
    requires n > 0
    ensures Times(UpTo(log, hash, n, i), e) == if Place(hash, n, e.key.data) < i then Times(log, e) else 0
  {
    if i > 0 {
      TimesUpTo(log, hash, n, i - 1, e);
      TimesAppend(UpTo(log, hash, n, i - 1), InBucket(log, hash, n, i - 1), e, |InBucket(log, hash, n, i - 1)|);
      TimesInBucket(log, hash, n, i - 1, e);
    }
  }

  lemma {:induction false} TimesInBucket<V>(log: seq<Element<V>>, hash: Text -> nat, n: nat, i: nat, e: Element<V>)
    requires n > 0
    ensures Times(InBucket(log, hash, n, i), e) == if Place(hash, n, e.key.data) == i then Times(log, e) else 0
  {
    if log != [] {
      var front, last := log[..|log| - 1], log[|log| - 1];
      assert log == front + [last];
      TimesNext(front, last, e);
      TimesInBucket(front, hash, n, i, e);
      if Place(hash, n, last.key.data) == i {
        TimesNext(InBucket(front, hash, n, i), last, e);
      } else {
        assert InBucket(log, hash, n, i) == InBucket(front, hash, n, i);
      }
    }
  }

  /** All buckets together hold each insertion once. */
  lemma {:induction false} BucketsPartition<V>(log: seq<Element<V>>, hash: Text -> nat, n: nat)
    requires n > 0
    ensures Permutes(UpTo(log, hash, n, n), log)
  {
    forall e | e in UpTo(log, hash, n, n) + log
      ensures Times(UpTo(log, hash, n, n), e) == Times(log, e)
    {
      TimesUpTo(log, hash, n, n, e);
    }
  }

  // ---------------------------------------------------------------- the count of collisions

  /** The buckets in use. */
  function Used<V>(log: seq<Element<V>>, hash: Text -> nat, n: nat): set<nat>
    requires n > 0
  {
    set i | 0 <= i < |log| :: Place(hash, n, log[i].key.data)
  }

  /** Insertions less buckets in use: how many went to a bucket that held one already. */
  function Collisions<V>(log: seq<Element<V>>, hash: Text -> nat, n: nat): nat
    requires n > 0
  {
    UsedAtMost(log, hash, n);
    |log| - |Used(log, hash, n)|
  }

  lemma {:induction false} UsedAtMost<V>(log: seq<Element<V>>, hash: Text -> nat, n: nat)
    requires n > 0
    ensures |Used(log, hash, n)| <= |log|
  {
    if log == [] {
      assert Used(log, hash, n) == {};
    } else {
      var front, e := log[..|log| - 1], log[|log| - 1];
      UsedAtMost(front, hash, n);
      assert log == front + [e];
      UsedNext(front, e, hash, n);
    }
  }

  lemma {:induction false} UsedNext<V>(log: seq<Element<V>>, e: Element<V>, hash: Text -> nat, n: nat)
    requires n > 0
    ensures Used(log + [e], hash, n) == Used(log, hash, n) + {Place(hash, n, e.key.data)}
  {
    var log' := log + [e];
    assert log'[|log|] == e;
    forall i | i in Used(log, hash, n)
      ensures i in Used(log', hash, n)
    {
      var k :| 0 <= k < |log| && Place(hash, n, log[k].key.data) == i;
      assert log'[k] == log[k];
    }
  }

  lemma {:induction false} UsedIsNonEmpty<V>(log: seq<Element<V>>, hash: Text -> nat, n: nat, i: nat)
    requires n > 0
    ensures i in Used(log, hash, n) <==> InBucket(log, hash, n, i) != []
  {
    if log != [] {
      var front, e := log[..|log| - 1], log[|log| - 1];
      UsedIsNonEmpty(front, hash, n, i);
      assert log == front + [e];
      UsedNext(front, e, hash, n);
    }
  }

  /** An insertion is one more collision exactly when its bucket was not empty. */
  lemma {:induction false} CollisionsNext<V>(log: seq<Element<V>>, e: Element<V>, hash: Text -> nat, n: nat)
    requires n > 0
    ensures Collisions(log + [e], hash, n) ==
            Collisions(log, hash, n) + if InBucket(log, hash, n, Place(hash, n, e.key.data)) != [] then 1 else 0
  {
    UsedNext(log, e, hash, n);
    UsedIsNonEmpty(log, hash, n, Place(hash, n, e.key.data));
  }

  /** A bucket is used exactly when the hash of a key leaves its number as the rest. */
  lemma {:induction false} UsedIff<V>(log: seq<Element<V>>, hash: Text -> nat, n: nat, i: nat)
    requires n > 0
    ensures i in Used(log, hash, n) <==> exists j :: 0 <= j < |log| && hash(log[j].key.data) % n == i
  {}

  /** An insertion is one more collision exactly when the hash of an earlier key leaves the same rest. */
  lemma {:induction false} CollisionIff<V>(log: seq<Element<V>>, e: Element<V>, hash: Text -> nat, n: nat)
    requires n > 0
    ensures Collisions<V>([], hash, n) == 0
    ensures var i := hash(e.key.data) % n;
            Collisions(log + [e], hash, n) ==
            Collisions(log, hash, n) + if exists j :: 0 <= j < |log| && hash(log[j].key.data) % n == i then 1 else 0
  {
    var i := Place(hash, n, e.key.data);
    assert Used<V>([], hash, n) == {};
    CollisionsNext(log, e, hash, n);
    UsedIsNonEmpty(log, hash, n, i);
    UsedIff(log, hash, n, i);
  }

  const INT_RANGE: int := 0x8000_0000

  /** How many collisions there are between two warnings. */
  function Period(threshold: nat): (d: nat)
    ensures d > INT_RANGE
  {
    INT_RANGE + threshold + 1
  }

  /** What the counter holds after so many collisions: it counts up to the threshold, and the
      collision that takes it beyond gives a warning and starts it again from the least int. */
  function Counter(collisions: nat, threshold: nat): (c: int)
    ensures -INT_RANGE <= c <= threshold
  {
    if collisions == 0 then 0
    else
      var c := Counter(collisions - 1, threshold) + 1;
      if c > threshold then -INT_RANGE else c
  }

  /** How often the table has warned after so many collisions. */
  function Alarms(collisions: nat, threshold: nat): nat {
    if collisions == 0 then 0
    else Alarms(collisions - 1, threshold) + if Counter(collisions - 1, threshold) == threshold then 1 else 0
  }

  lemma {:induction false} DivModIs(a: int, d: int, q: int, r: int)
    requires d > 0 && a == q * d + r && 0 <= r < d
    ensures a / d == q && a % d == r
  {
    assert (a / d - q) * d == (a / d) * d - q * d;
    SmallMultiple(a / d - q, d);
  }

  lemma {:induction false} DivModNext(a: int, d: int)
    requires d > 0
    ensures (a + 1) / d == a / d + (if a % d == d - 1 then 1 else 0)
    ensures (a + 1) % d == if a % d == d - 1 then 0 else a % d + 1
  {
    if a % d == d - 1 {
      assert (a / d + 1) * d == (a / d) * d + d;
      DivModIs(a + 1, d, a / d + 1, 0);
    } else {
      DivModIs(a + 1, d, a / d, a % d + 1);
    }
  }

  lemma {:induction false} SmallMultiple(k: int, d: int)
    requires -d < k * d < d
    ensures k == 0
  {}

  /** Both in closed form. */
  lemma {:induction false} AlarmsClosed(collisions: nat, threshold: nat)
    ensures Alarms(collisions, threshold) == (collisions + INT_RANGE) / Period(threshold)
    ensures Counter(collisions, threshold) == (collisions + INT_RANGE) % Period(threshold) - INT_RANGE
  {
    var d := Period(threshold);
    if collisions == 0 {
      DivModIs(INT_RANGE, d, 0, INT_RANGE);
    } else {
      AlarmsClosed(collisions - 1, threshold);
      DivModNext(collisions - 1 + INT_RANGE, d);
    }
  }

  /** Until the collisions exceed the threshold the counter is their number and there is no warning.
      The first comes with the next collision, and the second only after more than 2^31 further ones. */
  lemma {:induction false} FirstAlarm(collisions: nat, threshold: nat)
    ensures collisions <= threshold <==> Alarms(collisions, threshold) == 0
    ensures collisions <= threshold ==> Counter(collisions, threshold) == collisions
    ensures threshold < collisions <= threshold + 1 + INT_RANGE + threshold <==> Alarms(collisions, threshold) == 1
  {
    var d, a := Period(threshold), collisions + INT_RANGE;
    AlarmsClosed(collisions, threshold);
    if a < d {
      DivModIs(a, d, 0, a);
    } else if a < 2 * d {
      DivModIs(a, d, 1, a - d);
    } else {
      AtLeastTwo(a, d);
    }
  }

  lemma {:induction false} AtLeastTwo(a: int, d: int)
    requires d > 0 && a >= 2 * d
    ensures a / d >= 2
  {}
}
