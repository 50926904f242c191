/** Strings on the heap, and the account of what is allocated.

    The account is handed from call to call.  Freed may be applied only to what is live, so
    whatever verifies against this module frees nothing twice. */
module Memory {
  import opened Words
  import opened Murmur3Lanes

  /** What a string holds; its length fits a C int. */
  type Text = s: seq<Byte> | |s| <= MAX_LEN

  class Bstring {
    const data: Text

    constructor (data: Text)
      ensures this.data == data
    {
      this.data := data;
    }
  }

  /** What is live after an allocation. */
  ghost function Allocated(live: multiset<object>, o: object): multiset<object> {
    live + multiset{o}
  }

  /** What is live after freeing something that was. */
  ghost function Freed(live: multiset<object>, o: object): multiset<object>
    requires o in live
  {
    live - multiset{o}
  }

  // ---------------------------------------------------------------- what the parts of a whole own

  /** What the first k parts own. */
  function SumTo<A>(s: seq<A>, own: A -> multiset<object>, k: nat): multiset<object>
    requires k <= |s|
  {
    if k == 0 then multiset{} else SumTo(s, own, k - 1) + own(s[k - 1])
  }

  function Sum<A>(s: seq<A>, own: A -> multiset<object>): multiset<object> {
    SumTo(s, own, |s|)
  }

  lemma {:induction false} SumToSame<A>(s: seq<A>, t: seq<A>, own: A -> multiset<object>, k: nat)
    requires k <= |s| && k <= |t| && forall i :: 0 <= i < k ==> s[i] == t[i]
    ensures SumTo(s, own, k) == SumTo(t, own, k)
  {
    if k > 0 {
      SumToSame(s, t, own, k - 1);
    }
  }

  lemma {:induction false} SumNext<A>(s: seq<A>, x: A, own: A -> multiset<object>)
    ensures Sum(s + [x], own) == Sum(s, own) + own(x)
  {
    SumToSame(s, s + [x], own, |s|);
  }

  lemma {:induction false} SumOne<A>(x: A, own: A -> multiset<object>)
    ensures Sum([x], own) == own(x)
  {
    assert SumTo([x], own, 0) == multiset{};
  }

  lemma {:induction false} SumToGrows<A>(s: seq<A>, own: A -> multiset<object>, j: nat, k: nat)
    requires j <= k <= |s|
    ensures SumTo(s, own, j) <= SumTo(s, own, k)
  {
    if j < k {
      SumToGrows(s, own, j, k - 1);
    }
  }

  /** What is live while the parts are freed, first part first, as a function of how many are gone. */
  ghost predicate Schedule<A>(s: seq<A>, own: A -> multiset<object>, left: nat -> multiset<object>) {
    forall k :: 0 <= k < |s| ==> FreesNext(s, own, left, k)
  }

  ghost predicate FreesNext<A>(s: seq<A>, own: A -> multiset<object>, left: nat -> multiset<object>, k: nat)
    requires k < |s|
  {
    left(k) == left(k + 1) + own(s[k])
  }

  lemma {:induction false} ScheduleFor<A>(s: seq<A>, own: A -> multiset<object>, live: multiset<object>)
    returns (left: nat -> multiset<object>)
    requires Sum(s, own) <= live
    ensures Schedule(s, own, left) && left(0) == live && live == left(|s|) + Sum(s, own)
  {
    left := (k: nat) => if k <= |s| then live - SumTo(s, own, k) else multiset{};
    forall k | 0 <= k < |s|
      ensures FreesNext(s, own, left, k)
    {
      SumToGrows(s, own, k + 1, |s|);
    }
  }

  /** How often x occurs among the first k. */
  ghost function TimesTo<A>(s: seq<A>, x: A, k: nat): nat
    requires k <= |s|
  {
    if k == 0 then 0 else TimesTo(s, x, k - 1) + if s[k - 1] == x then 1 else 0
  }

  ghost function Times<A>(s: seq<A>, x: A): nat {
    TimesTo(s, x, |s|)
  }

  /** Both hold the same parts, each as often as the other. */
  ghost predicate Permutes<A>(a: seq<A>, b: seq<A>) {
    forall x :: x in a + b ==> Times(a, x) == Times(b, x)
  }

  lemma {:induction false} TimesToSame<A>(s: seq<A>, t: seq<A>, x: A, k: nat)
    requires k <= |s| && k <= |t| && forall i :: 0 <= i < k ==> s[i] == t[i]
    ensures TimesTo(s, x, k) == TimesTo(t, x, k)
  {
    if k > 0 {
      TimesToSame(s, t, x, k - 1);
    }
  }

  lemma {:induction false} TimesNext<A>(s: seq<A>, y: A, x: A)
    ensures Times(s + [y], x) == Times(s, x) + if y == x then 1 else 0
  {
    TimesToSame(s, s + [y], x, |s|);
  }

  lemma {:induction false} TimesAppend<A>(a: seq<A>, b: seq<A>, x: A, k: nat)
    requires k <= |b|
    ensures TimesTo(a + b, x, |a| + k) == Times(a, x) + TimesTo(b, x, k)
  {
    if k == 0 {
      TimesToSame(a, a + b, x, |a|);
    } else {
      TimesAppend(a, b, x, k - 1);
    }
  }

  lemma {:induction false} TimesNone<A>(s: seq<A>, x: A, k: nat)
    requires k <= |s|
    ensures TimesTo(s, x, k) == 0 <==> forall i :: 0 <= i < k ==> s[i] != x
  {
    if k > 0 {
      TimesNone(s, x, k - 1);
    }
  }

  function Without<A>(s: seq<A>, i: nat): (r: seq<A>)
    requires i < |s|
    ensures |r| == |s| - 1
  {
    seq(|s| - 1, k requires 0 <= k < |s| - 1 => if k < i then s[k] else s[k + 1])
  }

  lemma {:induction false} TimesWithout<A>(s: seq<A>, i: nat, x: A, k: nat)
    requires i < k <= |s|
    ensures TimesTo(Without(s, i), x, k - 1) == TimesTo(s, x, k) - if s[i] == x then 1 else 0
  {
    if i == k - 1 {
      TimesToSame(s, Without(s, i), x, i);
    } else {
      TimesWithout(s, i, x, k - 1);
    }
  }

  lemma {:induction false} SumWithout<A>(s: seq<A>, own: A -> multiset<object>, i: nat)
    requires i < |s|
    ensures Sum(s, own) == Sum(Without(s, i), own) + own(s[i])
  {
    SumToWithout(s, own, i, |s|);
  }

  lemma {:induction false} SumToWithout<A>(s: seq<A>, own: A -> multiset<object>, i: nat, k: nat)
    requires i < k <= |s|
    ensures SumTo(s, own, k) == SumTo(Without(s, i), own, k - 1) + own(s[i])
  {
    if i == k - 1 {
      SumToSame(s, Without(s, i), own, i);
    } else {
      SumToWithout(s, own, i, k - 1);
    }
  }

  lemma {:induction false} PermutesWithout<A>(a: seq<A>, b: seq<A>, i: nat, j: nat)
    requires Permutes(a, b) && i < |a| && j < |b| && a[i] == b[j]
    ensures Permutes(Without(a, i), Without(b, j))
  {
    forall x | x in Without(a, i) + Without(b, j)
      ensures Times(Without(a, i), x) == Times(Without(b, j), x)
    {
      assert x in a + b;
      TimesWithout(a, i, x, |a|);
      TimesWithout(b, j, x, |b|);
    }
  }

  lemma {:induction false} PermutesHas<A>(a: seq<A>, b: seq<A>, x: A) returns (j: nat)
    requires Permutes(a, b) && x in a
    ensures j < |b| && b[j] == x
  {
    assert x in a + b;
    TimesNone(a, x, |a|);
    TimesNone(b, x, |b|);
    j :| 0 <= j < |b| && b[j] == x;
  }

  /** The order of the parts does not matter. */
  lemma {:induction false} SumPermutes<A>(a: seq<A>, b: seq<A>, own: A -> multiset<object>)
    requires Permutes(a, b)
    ensures Sum(a, own) == Sum(b, own)
    decreases |a|
  {
    if a == [] {
      if b != [] {
        assert b[0] in a + b;
        TimesNone(b, b[0], |b|);
        assert false;
      }
    } else {
      var last := |a| - 1;
      var j := PermutesHas(a, b, a[last]);
      PermutesWithout(a, b, last, j);
      SumPermutes(Without(a, last), Without(b, j), own);
      SumWithout(a, own, last);
      SumWithout(b, own, j);
    }
  }

  lemma {:induction false} CancelAll(a: multiset<object>, b: multiset<object>, c: multiset<object>)
    requires a + c == b + c
    ensures a == b
  {
    assert a == (a + c) - c;
    assert b == (b + c) - c;
  }

  lemma {:induction false} RestCovers(live: multiset<object>, live': multiset<object>, first: multiset<object>,
      more: multiset<object>)
    requires first + more <= live && live == live' + first
    ensures more <= live'
  {
    forall o | o in more
      ensures more[o] <= live'[o]
    {
      assert (first + more)[o] <= live[o];
    }
  }

  lemma {:induction false} SumUpdate<A>(s: seq<A>, own: A -> multiset<object>, i: nat, x: A)
    requires i < |s|
    ensures Sum(s[i := x], own) + own(s[i]) == Sum(s, own) + own(x)
  {
    SumWithout(s, own, i);
    SumWithout(s[i := x], own, i);
    assert Without(s[i := x], i) == Without(s, i);
  }

  lemma {:induction false} SumAlike<A, B>(s: seq<A>, f: A -> multiset<object>, t: seq<B>,
      g: B -> multiset<object>, k: nat)
    requires k <= |s| == |t| && forall i :: 0 <= i < k ==> f(s[i]) == g(t[i])
    ensures SumTo(s, f, k) == SumTo(t, g, k)
  {
    if k > 0 {
      SumAlike(s, f, t, g, k - 1);
    }
  }

  // ---------------------------------------------------------------- what a whole holds

  /** A piece that the whole has taken in is accounted for. */
  lemma {:induction false} PieceKept(live: multiset<object>, live': multiset<object>, held: multiset<object>,
      held': multiset<object>, o: object)
    requires live' + held + multiset{o} == Allocated(live, o) + held'
    ensures live' + held == live + held'
  {
    assert live + held' + multiset{o} == live + multiset{o} + held';
    CancelAll(live' + held, live + held', multiset{o});
  }

  /** A piece that it has not taken in is still there to be freed. */
  lemma {:induction false} PieceFreed(live: multiset<object>, live': multiset<object>, held: multiset<object>,
      held': multiset<object>, o: object)
    requires held <= live && live' + held == Allocated(live, o) + held'
    ensures o in live' && Freed(live', o) + held == live + held'
  {
    assert (live' + held)[o] == (live + multiset{o} + held')[o] && held[o] <= live[o];
    assert Freed(live', o) + multiset{o} == live';
    assert Freed(live', o) + held + multiset{o} == live' + held;
    assert live + held' + multiset{o} == live + multiset{o} + held';
    CancelAll(Freed(live', o) + held, live + held', multiset{o});
  }

  lemma {:induction false} CoversMore(live: multiset<object>, held: multiset<object>, o: object)
    requires held <= live
    ensures held <= Allocated(live, o)
  {
    assert live <= Allocated(live, o);
  }

  lemma {:induction false} KeptCovers(live: multiset<object>, held: multiset<object>, owned: multiset<object>)
    requires held + owned <= live
    ensures held <= live
  {
    forall o | o in held
      ensures held[o] <= live[o]
    {
      assert (held + owned)[o] <= live[o];
    }
  }

  /** The account when only the table has changed. */
  lemma {:induction false} TableAccount(live: multiset<object>, live': multiset<object>, held: multiset<object>,
      held': multiset<object>, owned: multiset<object>)
    requires live' + held == live + held'
    ensures live' + (held + owned) == live + (held' + owned)
  {
    assert live' + (held + owned) == live' + held + owned;
    assert live + held' + owned == live + (held' + owned);
  }

  /** The account when v has gone to the rest. */
  lemma {:induction false} EntryAccount(live: multiset<object>, live': multiset<object>, held: multiset<object>,
      held': multiset<object>, owned: multiset<object>, v: object)
    requires live' + (held + owned) == live + (held' + owned)
    ensures live' + (held + owned) + multiset{v} == live + (held' + (owned + multiset{v}))
  {
    assert live + (held' + owned) + multiset{v} == live + (held' + (owned + multiset{v}));
  }
}
