/** MurmurHash3_x86_32 (src/murmur3.c:71-124), the hash behind every lookup of the library.

    Hash is the reference definition: absorb the blocks, mix in the tail, finish.  Every stage
    permutes the state, so two keys of one length that differ only inside one aligned word
    never collide, and each word can steer the hash to every value. */
module Murmur3X86 {
  import opened Chain
  import opened Factors
  import opened Words
  import opened Murmur3Lanes

  function Scramble(k: bv32): bv32 {
    Times1B873593(Rotl32(TimesCC9E2D51(k), 15))
  }

  function Unscramble(k: bv32): bv32 {
    OverCC9E2D51(Rotl32(Over1B873593(k), 17))
  }

  lemma ScramblePermutes(k: bv32)
    ensures Unscramble(Scramble(k)) == k
    ensures Scramble(Unscramble(k)) == k
  {
    TimesOverCC9E2D51(k);
    Rotl32Undone15(TimesCC9E2D51(k));
    TimesOver1B873593(Rotl32(TimesCC9E2D51(k), 15));
    OverTimes1B873593(k);
    Rotl32Undone15(Over1B873593(k));
    OverTimesCC9E2D51(Rotl32(Over1B873593(k), 17));
  }

  function Step(h: bv32, k: bv32): bv32 {
    Lane32(h, Scramble(k), 13, 0, 0xe6546b64)
  }

  function Unstep(t: bv32, k: bv32): bv32 {
    Unlane32(t, Scramble(k), 13, 0, 0xe6546b64)
  }

  function Solve(h: bv32, t: bv32): bv32 {
    Unscramble(Unlane32(t, h, 13, 0, 0xe6546b64))
  }

  lemma StepPermutes(s: bv32, b: bv32)
    ensures Unstep(Step(s, b), b) == s && Step(Unstep(s, b), b) == s
  {
    Lane32Undone(s, Scramble(b), 13, 0, 0xe6546b64);
    Unlane32Undone(s, Scramble(b), 13, 0, 0xe6546b64);
  }

  lemma SolveFinds(h: bv32, k: bv32)
    ensures Solve(h, Step(h, k)) == k
  {
    Lane32Swapped(h, Scramble(k), 13, 0, 0xe6546b64);
    ScramblePermutes(k);
  }

  lemma SolveSolves(h: bv32, t: bv32)
    ensures Step(h, Solve(h, t)) == t
  {
    Unlane32Swapped(t, h, 13, 0, 0xe6546b64);
    ScramblePermutes(Unlane32(t, h, 13, 0, 0xe6546b64));
  }

  const MIXER := Mixer(Step, Unstep, Solve)

  lemma MixerIsLawful()
    ensures Lawful(MIXER)
  {
    forall s, b
      ensures Unstep(Step(s, b), b) == s && Step(Unstep(s, b), b) == s
      ensures Solve(s, Step(s, b)) == b && Step(s, Solve(s, b)) == b
    {
      StepPermutes(s, b);
      SolveFinds(s, b);
      SolveSolves(s, b);
    }
  }

  function Blocks(key: seq<Byte>): (blocks: seq<bv32>)
    ensures |blocks| == |key| / 4
  {
    seq(|key| / 4, i requires 0 <= i => Le32(key, 4 * i))
  }

  /** The partial word after the last block; zero when the length is a multiple of four. */
  function Tail(key: seq<Byte>): bv32 {
    Le32(key, 4 * (|key| / 4))
  }

  function Finish(h: bv32, tail: bv32, len: bv32): bv32 {
    Fmix32(Xor32(Xor32(h, Scramble(tail)), len))
  }

  function Unfinish(t: bv32, tail: bv32, len: bv32): bv32 {
    Xor32(Xor32(Unfmix32(t), len), Scramble(tail))
  }

  function SolveTail(t: bv32, h: bv32, len: bv32): bv32 {
    Unscramble(Xor32(Xor32(Unfmix32(t), len), h))
  }

  lemma UnfinishUndoes(h: bv32, tail: bv32, len: bv32)
    ensures Unfinish(Finish(h, tail, len), tail, len) == h
  {
    Fmix32Permutes(Xor32(Xor32(h, Scramble(tail)), len));
    XorUndone32(Xor32(h, Scramble(tail)), len);
    XorUndone32(h, Scramble(tail));
  }

  lemma FinishUndoes(t: bv32, tail: bv32, len: bv32)
    ensures Finish(Unfinish(t, tail, len), tail, len) == t
  {
    XorUndone32(Xor32(Unfmix32(t), len), Scramble(tail));
    XorUndone32(Unfmix32(t), len);
    Fmix32Permutes(t);
  }

  lemma SolveTailSolves(h: bv32, tail: bv32, len: bv32)
    ensures SolveTail(Finish(h, tail, len), h, len) == tail
  {
    Fmix32Permutes(Xor32(Xor32(h, Scramble(tail)), len));
    XorUndone32(Xor32(h, Scramble(tail)), len);
    XorCommutes32(h, Scramble(tail));
    XorUndone32(Scramble(tail), h);
    ScramblePermutes(tail);
  }

  function Digest32(len: bv32): Digest<bv32, bv32, bv32> {
    Digest(MIXER,
           (h, tail) => Finish(h, tail, len),
           (t, tail) => Unfinish(t, tail, len),
           (t, h) => SolveTail(t, h, len))
  }

  lemma DigestIsLawful(len: bv32)
    ensures LawfulDigest(Digest32(len))
  {
    MixerIsLawful();
    forall h, tail
      ensures Unfinish(Finish(h, tail, len), tail, len) == h
      ensures SolveTail(Finish(h, tail, len), h, len) == tail
      ensures Finish(Unfinish(h, tail, len), tail, len) == h
    {
      UnfinishUndoes(h, tail, len);
      SolveTailSolves(h, tail, len);
      FinishUndoes(h, tail, len);
    }
  }

  /** The reference definition of the hash. */
  function Hash(key: seq<Byte>, seed: bv32): bv32
    requires |key| <= MAX_LEN
  {
    Finish(Absorb(MIXER, seed, Blocks(key)), Tail(key), Len32(|key|))
  }

  // ---------------------------------------------------------------- the hash of a key, word by word

  lemma FinishIs(h: bv32, tail: bv32, len: bv32)
    ensures var x := Xor32(Xor32(h, Times1B873593(Rotl32(TimesCC9E2D51(tail), 15))), len);
            Finish(h, tail, len) == Fold16(TimesC2B2AE35(Fold13(Times85EBCA6B(Fold16(x)))))
  {}

  lemma WordIs(key: seq<Byte>, i: nat)
    requires i + 4 <= |key|
    ensures Le32(key, i) == Join32(key[i], key[i + 1], key[i + 2], key[i + 3])
  {}

  lemma TailIs(key: seq<Byte>)
    ensures var n := 4 * (|key| / 4);
            Tail(key) == Join32(if n < |key| then key[n] else 0, if n + 1 < |key| then key[n + 1] else 0,
                                if n + 2 < |key| then key[n + 2] else 0, 0)
  {
    var n := 4 * (|key| / 4);
    assert Le32(key, n) == Join32(At(key, n), At(key, n + 1), At(key, n + 2), At(key, n + 3));
  }

  /** From the seed to the hash: each round takes in four bytes, lowest first, and the finish what is
      left of the key and its length. */
  lemma HashIs(key: seq<Byte>, seed: bv32) returns (states: seq<bv32>, words: seq<bv32>, tail: bv32)
    requires |key| <= MAX_LEN
    ensures |words| == |key| / 4 && |states| == |key| / 4 + 1 && states[0] == seed
    ensures forall i :: 0 <= i < |key| / 4 ==>
              && words[i] == Join32(key[4 * i], key[4 * i + 1], key[4 * i + 2], key[4 * i + 3])
              && states[i + 1] == Step(states[i], words[i])
    ensures var n := 4 * (|key| / 4);
            tail == Join32(if n < |key| then key[n] else 0, if n + 1 < |key| then key[n + 1] else 0,
                           if n + 2 < |key| then key[n + 2] else 0, 0)
    ensures Hash(key, seed) == Finish(states[|key| / 4], tail, |key| as bv32)
  {
    words, tail := Blocks(key), Tail(key);
    states := seq(|key| / 4 + 1, i requires 0 <= i <= |key| / 4 => Absorb(MIXER, seed, words[..i]));
    forall i | 0 <= i < |key| / 4
      ensures words[i] == Join32(key[4 * i], key[4 * i + 1], key[4 * i + 2], key[4 * i + 3])
      ensures states[i + 1] == Step(states[i], words[i])
    {
      AbsorbNext(MIXER, seed, words, i);
      WordIs(key, 4 * i);
    }
    TailIs(key);
    assert words[..|key| / 4] == words;
  }

  lemma ShortTail(key: seq<Byte>)
    requires |key| < 4
    ensures Blocks(key) == []
    ensures Tail(key) == Join32(if |key| > 0 then key[0] else 0, if |key| > 1 then key[1] else 0,
                                if |key| > 2 then key[2] else 0, 0)
  {
    TailIs(key);
  }

  /** The whole formula for keys without a full word. */
  lemma ShortHashIs(key: seq<Byte>, seed: bv32, k: bv32, x: bv32)
    requires |key| < 4
    requires k == Join32(if |key| > 0 then key[0] else 0, if |key| > 1 then key[1] else 0,
                         if |key| > 2 then key[2] else 0, 0)
    requires x == Xor32(Xor32(seed, Times1B873593(Rotl32(TimesCC9E2D51(k), 15))), |key| as bv32)
    ensures Hash(key, seed) == Fold16(TimesC2B2AE35(Fold13(Times85EBCA6B(Fold16(x)))))
  {
    ShortTail(key);
    FinishIs(seed, k, |key| as bv32);
  }

  method MurmurHash3_x86_32(key: seq<Byte>, seed: bv32) returns (out: bv32)
    requires |key| <= MAX_LEN
    ensures out == Hash(key, seed)
    ensures |key| < 4 ==>
              var k := Join32(if |key| > 0 then key[0] else 0, if |key| > 1 then key[1] else 0,
                              if |key| > 2 then key[2] else 0, 0);
              var x := Xor32(Xor32(seed, Times1B873593(Rotl32(TimesCC9E2D51(k), 15))), |key| as bv32);
              out == Fold16(TimesC2B2AE35(Fold13(Times85EBCA6B(Fold16(x)))))
  {
    if |key| < 4 {
      var k := Join32(if |key| > 0 then key[0] else 0, if |key| > 1 then key[1] else 0,
                      if |key| > 2 then key[2] else 0, 0);
      ShortHashIs(key, seed, k, Xor32(Xor32(seed, Times1B873593(Rotl32(TimesCC9E2D51(k), 15))), |key| as bv32));
    }
    var h1 := Body(key, seed);
    var k1 := PartialWord32(key, 4 * (|key| / 4));
    if |key| % 4 != 0 {
      k1 := TimesCC9E2D51(k1);
      k1 := Rotl32(k1, 15);
      k1 := Times1B873593(k1);
      h1 := Xor32(h1, k1);
    } else {
      NoTail(key, h1);
    }
    h1 := Xor32(h1, Len32(|key|));
    out := FinalMix32(h1);
  }

  /** The loop over the blocks: i runs up to zero and the blocks are addressed from their end. */
  method Body(key: seq<Byte>, seed: bv32) returns (h1: bv32)
    ensures h1 == Absorb(MIXER, seed, Blocks(key))
  {
    var nblocks := |key| / 4;
    h1 := seed;
    var i := -nblocks;
    while i != 0
      invariant -nblocks <= i <= 0
      invariant h1 == Absorb(MIXER, seed, Blocks(key)[..nblocks + i])
      decreases -i
    {
      var k1 := Le32(key, 4 * (nblocks + i));
      RoundIsStep(h1, k1);
      k1 := TimesCC9E2D51(k1);
      k1 := Rotl32(k1, 15);
      k1 := Times1B873593(k1);
      h1 := Xor32(h1, k1);
      h1 := Rotl32(h1, 13);
      h1 := Plus32(Times5x32(h1), 0xe6546b64);
      AbsorbNext(MIXER, seed, Blocks(key), nblocks + i);
      i := i + 1;
    }
    assert Blocks(key)[..nblocks] == Blocks(key);
  }

  lemma RoundIsStep(h1: bv32, k1: bv32)
    ensures Plus32(Times5x32(Rotl32(Xor32(h1, Times1B873593(Rotl32(TimesCC9E2D51(k1), 15))), 13)), 0xe6546b64)
         == Step(h1, k1)
  {
    PlusZero32(Rotl32(Xor32(h1, Scramble(k1)), 13));
  }

  lemma PlusZero32(x: bv32)
    ensures Plus32(x, 0) == x
  {}

  lemma NoTail(key: seq<Byte>, h: bv32)
    requires |key| % 4 == 0
    ensures Tail(key) == 0 && Xor32(h, Scramble(0)) == h
  {
    assert Scramble(0) == 0;
  }

  lemma WordsDecide(a: seq<Byte>, b: seq<Byte>, w: nat)
    requires AgreeOutside(a, b, 4 * w, 4)
    ensures if w < |a| / 4
            then Blocks(a)[..w] == Blocks(b)[..w] && Blocks(a)[w + 1..] == Blocks(b)[w + 1..] && Tail(a) == Tail(b)
            else Blocks(a) == Blocks(b)
    ensures Blocks(a) == Blocks(b) && Tail(a) == Tail(b) <==> a == b
  {
    forall i: nat | i <= |a| / 4 && i != w
      ensures Le32(a, 4 * i) == Le32(b, 4 * i)
    {
      WordDecides(a, b, 4 * w, 4, 4 * i);
    }
    WordDecides(a, b, 4 * w, 4, 4 * w);
    if Blocks(a) == Blocks(b) && Tail(a) == Tail(b) && w < |a| / 4 {
      assert Blocks(a)[w] == Blocks(b)[w];
    }
  }

  /** Keys that differ, if at all, in the word at 4 * w hash alike exactly when they are equal. */
  lemma OneWordDecides(a: seq<Byte>, b: seq<Byte>, seed: bv32, w: nat)
    requires |a| <= MAX_LEN && AgreeOutside(a, b, 4 * w, 4)
    ensures Hash(a, seed) == Hash(b, seed) <==> a == b
  {
    WordsDecide(a, b, w);
    DigestIsLawful(Len32(|a|));
    DigestDecides(Digest32(Len32(|a|)), seed, Blocks(a), Tail(a), Blocks(b), Tail(b), w);
  }

  /** All keys of one length up to four are told apart. */
  lemma ShortKeysInjective(a: seq<Byte>, b: seq<Byte>, seed: bv32)
    requires |a| == |b| <= 4
    ensures Hash(a, seed) == Hash(b, seed) <==> a == b
  {
    OneWordDecides(a, b, seed, 0);
  }

  /** Two seeds never give one key the same hash. */
  lemma SeedsDecide(key: seq<Byte>, seed: bv32, seed': bv32)
    requires |key| <= MAX_LEN
    ensures Hash(key, seed) == Hash(key, seed') <==> seed == seed'
  {
    DigestIsLawful(Len32(|key|));
    SeedDecides(Digest32(Len32(|key|)), seed, seed', Blocks(key), Tail(key));
  }

  /** With all other bytes fixed, any full word takes the hash through every 32-bit value; by
      OneWordDecides it takes each value once. */
  lemma OneWordReachesAll(key: seq<Byte>, seed: bv32, w: nat, t: bv32) returns (other: seq<Byte>)
    requires |key| <= MAX_LEN && w < |key| / 4
    ensures AgreeOutside(key, other, 4 * w, 4)
    ensures Hash(other, seed) == t
  {
    var d := Digest32(Len32(|key|));
    DigestIsLawful(Len32(|key|));
    var k := DigestReachesAll(d, seed, Blocks(key), Tail(key), w, t);
    other := PutWord(key, 4 * w, k);
    PutBlock(key, w, k);
  }

  lemma PutBlock(key: seq<Byte>, w: nat, k: bv32)
    requires w < |key| / 4
    ensures var other := PutWord(key, 4 * w, k); Blocks(other) == Blocks(key)[w := k] && Tail(other) == Tail(key)
  {
    forall i: nat | i <= |key| / 4 && i != w
      ensures Le32(PutWord(key, 4 * w, k), 4 * i) == Le32(key, 4 * i)
    {
      PutWordKeeps(key, 4 * w, k, 4 * i);
    }
  }
}
