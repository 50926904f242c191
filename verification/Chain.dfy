/** Folding a keyed permutation over a sequence of blocks.

    A hash that absorbs a key block by block is a chain of steps.  When every step can be
    undone -- in the state for a fixed block, and in the block for a fixed state -- the whole
    chain can be run backwards, and that alone decides when two chains can meet.  Nothing
    here depends on the words or the constants of a particular hash. */
module Chain {

  /** A step together with its two inverses: unstep undoes the step for a known block, and
      solve finds the block that leads from one state to another. */
  datatype Mixer<!S, !B> = Mixer(step: (S, B) -> S, unstep: (S, B) -> S, solve: (S, S) -> B)

  ghost predicate Lawful<S(!new), B(!new)>(m: Mixer<S, B>) {
    && (forall s, b :: m.unstep(m.step(s, b), b) == s)
    && (forall t, b :: m.step(m.unstep(t, b), b) == t)
    && (forall s, b :: m.solve(s, m.step(s, b)) == b)
    && (forall s, t :: m.step(s, m.solve(s, t)) == t)
  }

  /** The state after absorbing all the blocks, first block first. */
  function Absorb<S, B>(m: Mixer<S, B>, s: S, blocks: seq<B>): S {
    if blocks == [] then s
    else m.step(Absorb(m, s, blocks[..|blocks| - 1]), blocks[|blocks| - 1])
  }

  /** The state from which absorbing all the blocks leads to t. */
  function Rewind<S, B>(m: Mixer<S, B>, t: S, blocks: seq<B>): S {
    if blocks == [] then t
    else Rewind(m, m.unstep(t, blocks[|blocks| - 1]), blocks[..|blocks| - 1])
  }

  lemma {:induction false} AbsorbPermutesStates<S(!new), B(!new)>(m: Mixer<S, B>, s: S, blocks: seq<B>)
    requires Lawful(m)
    ensures Rewind(m, Absorb(m, s, blocks), blocks) == s
    ensures Absorb(m, Rewind(m, s, blocks), blocks) == s
    decreases |blocks|
  {
    if blocks != [] {
      var front, last := blocks[..|blocks| - 1], blocks[|blocks| - 1];
      AbsorbPermutesStates(m, s, front);
      AbsorbPermutesStates(m, m.unstep(s, last), front);
    }
  }

  lemma {:induction false} AbsorbSplits<S, B>(m: Mixer<S, B>, s: S, a: seq<B>, b: seq<B>)
    ensures Absorb(m, s, a + b) == Absorb(m, Absorb(m, s, a), b)
    decreases |b|
  {
    if b == [] {
      assert a + b == a;
    } else {
      assert (a + b)[..|a + b| - 1] == a + b[..|b| - 1];
      AbsorbSplits(m, s, a, b[..|b| - 1]);
    }
  }

  lemma {:induction false} AbsorbNext<S, B>(m: Mixer<S, B>, s: S, blocks: seq<B>, n: nat)
    requires n < |blocks|
    ensures Absorb(m, s, blocks[..n + 1]) == m.step(Absorb(m, s, blocks[..n]), blocks[n])
  {
    assert blocks[..n + 1][..n] == blocks[..n];
  }

  /** Runs of blocks that agree everywhere but at w meet exactly when they agree at w too. */
  lemma {:induction false} OneBlockDecides<S(!new), B(!new)>(m: Mixer<S, B>, s: S, a: seq<B>, b: seq<B>, w: nat)
    requires Lawful(m)
    requires w < |a| == |b| && a[..w] == b[..w] && a[w + 1..] == b[w + 1..]
    ensures Absorb(m, s, a) == Absorb(m, s, b) <==> a[w] == b[w]
  {
    var head, tail := a[..w], a[w + 1..];
    var mid := Absorb(m, s, head);
    AbsorbAround(m, s, a, w);
    AbsorbAround(m, s, b, w);
    AbsorbPermutesStates(m, m.step(mid, a[w]), tail);
    AbsorbPermutesStates(m, m.step(mid, b[w]), tail);
    assert m.solve(mid, m.step(mid, a[w])) == a[w];
    assert m.solve(mid, m.step(mid, b[w])) == b[w];
  }

  lemma {:induction false} AbsorbAround<S, B>(m: Mixer<S, B>, s: S, a: seq<B>, w: nat)
    requires w < |a|
    ensures Absorb(m, s, a) == Absorb(m, m.step(Absorb(m, s, a[..w]), a[w]), a[w + 1..])
  {
    assert a == a[..w + 1] + a[w + 1..];
    AbsorbSplits(m, s, a[..w + 1], a[w + 1..]);
    assert a[..w + 1][..w] == a[..w];
  }

  /** Any state can be reached by choosing a single block, whichever position is left free. */
  lemma {:induction false} OneBlockReachesAll<S(!new), B(!new)>(m: Mixer<S, B>, s: S, a: seq<B>, w: nat, t: S)
    returns (b: B)
    requires Lawful(m) && w < |a|
    ensures Absorb(m, s, a[w := b]) == t
  {
    var before, after := Absorb(m, s, a[..w]), Rewind(m, t, a[w + 1..]);
    b := m.solve(before, after);
    var c := a[w := b];
    assert c[..w] == a[..w] && c[w + 1..] == a[w + 1..];
    AbsorbAround(m, s, c, w);
    assert m.step(before, b) == after;
    AbsorbPermutesStates(m, t, a[w + 1..]);
  }

  /** A whole hash: a chain of blocks, then a finish that also takes in a last partial block.  Both
      of its arguments can be recovered from the result and the other argument. */
  datatype Digest<!S, !B, !H> = Digest(mixer: Mixer<S, B>,
                                       finish: (S, B) -> H, unfinish: (H, B) -> S, solveTail: (H, S) -> B)

  ghost predicate LawfulDigest<S(!new), B(!new), H(!new)>(d: Digest<S, B, H>) {
    && Lawful(d.mixer)
    && (forall s, b :: d.unfinish(d.finish(s, b), b) == s)
    && (forall s, b :: d.solveTail(d.finish(s, b), s) == b)
    && (forall t, b :: d.finish(d.unfinish(t, b), b) == t)
  }

  function Evaluate<S, B, H>(d: Digest<S, B, H>, s: S, blocks: seq<B>, tail: B): H {
    d.finish(Absorb(d.mixer, s, blocks), tail)
  }

  /** Inputs that differ in one block only, or in the tail only, have different digests. */
  lemma {:induction false} DigestDecides<S(!new), B(!new), H(!new)>(
    d: Digest<S, B, H>, s: S, a: seq<B>, ta: B, b: seq<B>, tb: B, w: nat)
    requires LawfulDigest(d) && |a| == |b|
    requires if w < |a| then a[..w] == b[..w] && a[w + 1..] == b[w + 1..] && ta == tb else a == b
    ensures Evaluate(d, s, a, ta) == Evaluate(d, s, b, tb) <==> a == b && ta == tb
  {
    var sa, sb := Absorb(d.mixer, s, a), Absorb(d.mixer, s, b);
    assert d.unfinish(d.finish(sa, ta), ta) == sa && d.unfinish(d.finish(sb, tb), tb) == sb;
    assert d.solveTail(d.finish(sa, ta), sa) == ta && d.solveTail(d.finish(sb, tb), sb) == tb;
    if w < |a| {
      OneBlockDecides(d.mixer, s, a, b, w);
      if a[w] == b[w] {
        assert a == a[..w] + [a[w]] + a[w + 1..] == b;
      }
    }
  }

  /** Different initial states, which is where a seed goes, never lead to the same digest. */
  lemma {:induction false} SeedDecides<S(!new), B(!new), H(!new)>(d: Digest<S, B, H>, s: S, s': S,
      blocks: seq<B>, tail: B)
    requires LawfulDigest(d)
    ensures Evaluate(d, s, blocks, tail) == Evaluate(d, s', blocks, tail) <==> s == s'
  {
    AbsorbPermutesStates(d.mixer, s, blocks);
    AbsorbPermutesStates(d.mixer, s', blocks);
    var z, z' := Absorb(d.mixer, s, blocks), Absorb(d.mixer, s', blocks);
    assert d.unfinish(d.finish(z, tail), tail) == z && d.unfinish(d.finish(z', tail), tail) == z';
  }

  /** Whatever the other blocks are, one free block is enough to reach every digest. */
  lemma {:induction false} DigestReachesAll<S(!new), B(!new), H(!new)>(
    d: Digest<S, B, H>, s: S, a: seq<B>, tail: B, w: nat, t: H) returns (b: B)
    requires LawfulDigest(d) && w < |a|
    ensures Evaluate(d, s, a[w := b], tail) == t
  {
    b := OneBlockReachesAll(d.mixer, s, a, w, d.unfinish(t, tail));
  }
}
