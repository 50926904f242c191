/** MurmurHash3_x64_128 (src/murmur3.c:234-312): two 64-bit lanes, each feeding the other. */
module Murmur3X64Wide {
  import opened Chain
  import opened Factors
  import opened Words
  import opened Murmur3Lanes

  datatype Lanes = Lanes(w1: bv64, w2: bv64)

  // ---------------------------------------------------------------- one round

  function Scramble1(k: bv64): bv64 { Times4CF5AD432745937F(Rotl64(Times87C37B91114253D5(k), 31)) }

  function Scramble2(k: bv64): bv64 { Times87C37B91114253D5(Rotl64(Times4CF5AD432745937F(k), 33)) }

  function Unscramble1(k: bv64): bv64 { Over87C37B91114253D5(Rotl64(Over4CF5AD432745937F(k), 33)) }

  function Unscramble2(k: bv64): bv64 { Over4CF5AD432745937F(Rotl64(Over87C37B91114253D5(k), 31)) }

  lemma Scramble1Permutes(k: bv64)
    ensures Unscramble1(Scramble1(k)) == k && Scramble1(Unscramble1(k)) == k
  {
    TimesOver87C37B91114253D5(k);
    Rotl64Undone31(Times87C37B91114253D5(k));
    TimesOver4CF5AD432745937F(Rotl64(Times87C37B91114253D5(k), 31));
    OverTimes4CF5AD432745937F(k);
    Rotl64Undone31(Over4CF5AD432745937F(k));
    OverTimes87C37B91114253D5(Rotl64(Over4CF5AD432745937F(k), 33));
  }

  lemma Scramble2Permutes(k: bv64)
    ensures Unscramble2(Scramble2(k)) == k && Scramble2(Unscramble2(k)) == k
  {
    TimesOver4CF5AD432745937F(k);
    Rotl64Undone31(Times4CF5AD432745937F(k));
    TimesOver87C37B91114253D5(Rotl64(Times4CF5AD432745937F(k), 33));
    OverTimes87C37B91114253D5(k);
    Rotl64Undone31(Over87C37B91114253D5(k));
    OverTimes4CF5AD432745937F(Rotl64(Over87C37B91114253D5(k), 31));
  }

  /** The two lanes of a round.  The first one takes in the second as it was, the second one the
      first as it has become. */
  function Step(h: Lanes, k: Lanes): Lanes {
    var h1 := Lane64(h.w1, Scramble1(k.w1), 27, h.w2, 0x52dce729);
    var h2 := Lane64(h.w2, Scramble2(k.w2), 31, h1, 0x38495ab5);
    Lanes(h1, h2)
  }

  function Unstep(t: Lanes, k: Lanes): Lanes {
    var h2 := Unlane64(t.w2, Scramble2(k.w2), 31, t.w1, 0x38495ab5);
    var h1 := Unlane64(t.w1, Scramble1(k.w1), 27, h2, 0x52dce729);
    Lanes(h1, h2)
  }

  function Solve(h: Lanes, t: Lanes): Lanes {
    Lanes(Unscramble1(Unlane64(t.w1, h.w1, 27, h.w2, 0x52dce729)),
          Unscramble2(Unlane64(t.w2, h.w2, 31, t.w1, 0x38495ab5)))
  }

  lemma UnstepUndoes(h: Lanes, k: Lanes)
    ensures Unstep(Step(h, k), k) == h
  {
    Lane64Undone(h.w1, Scramble1(k.w1), 27, h.w2, 0x52dce729);
    Lane64Undone(h.w2, Scramble2(k.w2), 31, Step(h, k).w1, 0x38495ab5);
  }

  lemma StepUndoes(t: Lanes, k: Lanes)
    ensures Step(Unstep(t, k), k) == t
  {
    Unlane64Undone(t.w2, Scramble2(k.w2), 31, t.w1, 0x38495ab5);
    Unlane64Undone(t.w1, Scramble1(k.w1), 27, Unstep(t, k).w2, 0x52dce729);
  }

  lemma SolveFinds(h: Lanes, k: Lanes)
    ensures Solve(h, Step(h, k)) == k
  {
    Lane64Swapped(h.w1, Scramble1(k.w1), 27, h.w2, 0x52dce729);
    Lane64Swapped(h.w2, Scramble2(k.w2), 31, Step(h, k).w1, 0x38495ab5);
    Scramble1Permutes(k.w1);
    Scramble2Permutes(k.w2);
  }

  lemma SolveSolves(h: Lanes, t: Lanes)
    ensures Step(h, Solve(h, t)) == t
  {
    Unlane64Swapped(t.w1, h.w1, 27, h.w2, 0x52dce729);
    Unlane64Swapped(t.w2, h.w2, 31, t.w1, 0x38495ab5);
    Scramble1Permutes(Unlane64(t.w1, h.w1, 27, h.w2, 0x52dce729));
    Scramble2Permutes(Unlane64(t.w2, h.w2, 31, t.w1, 0x38495ab5));
  }

  const MIXER := Mixer(Step, Unstep, Solve)

  lemma MixerIsLawful()
    ensures Lawful(MIXER)
  {
    forall s, b
      ensures Unstep(Step(s, b), b) == s && Step(Unstep(s, b), b) == s
      ensures Solve(s, Step(s, b)) == b && Step(s, Solve(s, b)) == b
    {
      UnstepUndoes(s, b);
      StepUndoes(s, b);
      SolveFinds(s, b);
      SolveSolves(s, b);
    }
  }

  // ---------------------------------------------------------------- the finish

  function XorAll(h: Lanes, k: Lanes): Lanes {
    Lanes(Xor64(h.w1, k.w1), Xor64(h.w2, k.w2))
  }

  lemma XorAllUndone(h: Lanes, k: Lanes)
    ensures XorAll(XorAll(h, k), k) == h
    ensures XorAll(h, k) == XorAll(k, h)
  {
    XorUndone64(h.w1, k.w1);
    XorUndone64(h.w2, k.w2);
    XorCommutes64(h.w1, k.w1);
    XorCommutes64(h.w2, k.w2);
  }

  function ScrambleAll(k: Lanes): Lanes {
    Lanes(Scramble1(k.w1), Scramble2(k.w2))
  }

  function UnscrambleAll(k: Lanes): Lanes {
    Lanes(Unscramble1(k.w1), Unscramble2(k.w2))
  }

  lemma ScrambleAllPermutes(k: Lanes)
    ensures UnscrambleAll(ScrambleAll(k)) == k
  {
    Scramble1Permutes(k.w1);
    Scramble2Permutes(k.w2);
  }

  /** Adds the second lane to the first one, then the first one to the second. */
  function Cross(h: Lanes): Lanes {
    var h1 := Plus64(h.w1, h.w2);
    Lanes(h1, Plus64(h.w2, h1))
  }

  function Uncross(t: Lanes): Lanes {
    var h2 := Minus64(t.w2, t.w1);
    Lanes(Minus64(t.w1, h2), h2)
  }

  lemma UncrossUndoes(h: Lanes)
    ensures Uncross(Cross(h)) == h
  {
    PlusUndone64(h.w2, Cross(h).w1);
    PlusUndone64(h.w1, h.w2);
  }

  lemma CrossUndoes(t: Lanes)
    ensures Cross(Uncross(t)) == t
  {
    MinusUndone64(t.w1, Uncross(t).w2);
    MinusUndone64(t.w2, t.w1);
  }

  function FmixAll(h: Lanes): Lanes {
    Lanes(Fmix64(h.w1), Fmix64(h.w2))
  }

  function UnfmixAll(h: Lanes): Lanes {
    Lanes(Unfmix64(h.w1), Unfmix64(h.w2))
  }

  lemma FmixAllPermutes(h: Lanes)
    ensures UnfmixAll(FmixAll(h)) == h && FmixAll(UnfmixAll(h)) == h
  {
    Fmix64Permutes(h.w1);
    Fmix64Permutes(h.w2);
  }

  function Avalanche(h: Lanes): Lanes {
    Cross(FmixAll(Cross(h)))
  }

  function Unavalanche(t: Lanes): Lanes {
    Uncross(UnfmixAll(Uncross(t)))
  }

  /** The cross-adding finalisation is a permutation of both lanes together. */
  lemma AvalanchePermutes(h: Lanes)
    ensures Unavalanche(Avalanche(h)) == h
    ensures Avalanche(Unavalanche(h)) == h
  {
    UncrossUndoes(h);
    FmixAllPermutes(Cross(h));
    UncrossUndoes(FmixAll(Cross(h)));
    CrossUndoes(h);
    FmixAllPermutes(Uncross(h));
    CrossUndoes(UnfmixAll(Uncross(h)));
  }

  function Finish(h: Lanes, tail: Lanes, len: Lanes): Lanes {
    Avalanche(XorAll(XorAll(h, ScrambleAll(tail)), len))
  }

  function Unfinish(t: Lanes, tail: Lanes, len: Lanes): Lanes {
    XorAll(XorAll(Unavalanche(t), len), ScrambleAll(tail))
  }

  function SolveTail(t: Lanes, h: Lanes, len: Lanes): Lanes {
    UnscrambleAll(XorAll(XorAll(Unavalanche(t), len), h))
  }

  lemma UnfinishUndoes(h: Lanes, tail: Lanes, len: Lanes)
    ensures Unfinish(Finish(h, tail, len), tail, len) == h
  {
    AvalanchePermutes(XorAll(XorAll(h, ScrambleAll(tail)), len));
    XorAllUndone(XorAll(h, ScrambleAll(tail)), len);
    XorAllUndone(h, ScrambleAll(tail));
  }

  lemma FinishUndoes(t: Lanes, tail: Lanes, len: Lanes)
    ensures Finish(Unfinish(t, tail, len), tail, len) == t
  {
    XorAllUndone(XorAll(Unavalanche(t), len), ScrambleAll(tail));
    XorAllUndone(Unavalanche(t), len);
    AvalanchePermutes(t);
  }

  lemma SolveTailSolves(h: Lanes, tail: Lanes, len: Lanes)
    ensures SolveTail(Finish(h, tail, len), h, len) == tail
  {
    AvalanchePermutes(XorAll(XorAll(h, ScrambleAll(tail)), len));
    XorAllUndone(XorAll(h, ScrambleAll(tail)), len);
    XorAllUndone(h, ScrambleAll(tail));
    XorAllUndone(ScrambleAll(tail), h);
    ScrambleAllPermutes(tail);
  }

  function DigestOf(len: Lanes): Digest<Lanes, Lanes, Lanes> {
    Digest(MIXER,
           (h, tail) => Finish(h, tail, len),
           (t, tail) => Unfinish(t, tail, len),
           (t, h) => SolveTail(t, h, len))
  }

  lemma DigestIsLawful(len: Lanes)
    ensures LawfulDigest(DigestOf(len))
  {
    MixerIsLawful();
    forall h, tail
      ensures Unfinish(Finish(h, tail, len), tail, len) == h
      ensures SolveTail(Finish(h, tail, len), h, len) == tail
      ensures Finish(Unfinish(h, tail, len), tail, len) == h
    {
      UnfinishUndoes(h, tail, len);
      SolveTailSolves(h, tail, len);
      FinishUndoes(h, tail, len);
    }
  }

  // ---------------------------------------------------------------- the hash

  function BlockAt(key: seq<Byte>, i: nat): Lanes {
    Lanes(Le64(key, i), Le64(key, i + 8))
  }

  function Blocks(key: seq<Byte>): (blocks: seq<Lanes>)
    ensures |blocks| == |key| / 16
  {
    seq(|key| / 16, i requires 0 <= i => BlockAt(key, 16 * i))
  }

  /** The partial block after the last full one, filled up with zeroes. */
  function Tail(key: seq<Byte>): Lanes {
    BlockAt(key, 16 * (|key| / 16))
  }

  function Everywhere(w: bv64): Lanes {
    Lanes(w, w)
  }

  /** The reference definition of the hash. */
  function Hash(key: seq<Byte>, seed: bv32): Lanes
    requires |key| <= MAX_LEN
  {
    Finish(Absorb(MIXER, Everywhere(seed as bv64), Blocks(key)), Tail(key), Everywhere(Len64(|key|)))
  }

  // ---------------------------------------------------------------- the hash of a key, block by block

  /** A round with the constants of the source. */
  lemma StepIs(h: Lanes, k: Lanes)
    ensures var t := Step(h, k);
            var c1 := Times4CF5AD432745937F(Rotl64(Times87C37B91114253D5(k.w1), 31));
            var c2 := Times87C37B91114253D5(Rotl64(Times4CF5AD432745937F(k.w2), 33));
            && t.w1 == Plus64(Times5x64(Plus64(Rotl64(Xor64(h.w1, c1), 27), h.w2)), 0x52dce729)
            && t.w2 == Plus64(Times5x64(Plus64(Rotl64(Xor64(h.w2, c2), 31), t.w1)), 0x38495ab5)
  {}

  lemma FinishIs(h: Lanes, tail: Lanes, len: Lanes)
    ensures var x1 := Xor64(Xor64(h.w1, Times4CF5AD432745937F(Rotl64(Times87C37B91114253D5(tail.w1), 31))), len.w1);
            var x2 := Xor64(Xor64(h.w2, Times87C37B91114253D5(Rotl64(Times4CF5AD432745937F(tail.w2), 33))), len.w2);
            var s := Plus64(x1, x2);
            var f1, f2 := Fmix64(s), Fmix64(Plus64(x2, s));
            var r := Plus64(f1, f2);
            Finish(h, tail, len) == Lanes(r, Plus64(f2, r))
  {}

  /** From the seed to the hash: each round takes in sixteen bytes, lowest first, and the finish what is
      left of the key, filled up with zeroes, and its length. */
  lemma HashIs(key: seq<Byte>, seed: bv32) returns (states: seq<Lanes>, blocks: seq<Lanes>, tail: Lanes, len: Lanes)
    requires |key| <= MAX_LEN
    ensures |blocks| == |key| / 16 && |states| == |key| / 16 + 1 && states[0] == Lanes(seed as bv64, seed as bv64)
    ensures forall i :: 0 <= i < |key| / 16 ==>
              && states[i + 1] == Step(states[i], blocks[i])
              && blocks[i].w1 == Join64(Join32(key[16 * i], key[16 * i + 1], key[16 * i + 2], key[16 * i + 3]),
                                        Join32(key[16 * i + 4], key[16 * i + 5], key[16 * i + 6], key[16 * i + 7]))
              && blocks[i].w2 == Join64(Join32(key[16 * i + 8], key[16 * i + 9], key[16 * i + 10], key[16 * i + 11]),
                                        Join32(key[16 * i + 12], key[16 * i + 13], key[16 * i + 14], key[16 * i + 15]))
    ensures var n := 16 * (|key| / 16); tail == Lanes(Le64(key, n), Le64(key, n + 8))
    ensures len.w1 == |key| as bv64 && len.w2 == len.w1
    ensures Hash(key, seed) == Finish(states[|key| / 16], tail, len)
  {
    var s := Everywhere(seed as bv64);
    blocks, tail, len := Blocks(key), Tail(key), Everywhere(Len64(|key|));
    states := seq(|key| / 16 + 1, i requires 0 <= i <= |key| / 16 => Absorb(MIXER, s, blocks[..i]));
    forall i | 0 <= i < |key| / 16
      ensures states[i + 1] == Step(states[i], blocks[i])
    {
      AbsorbNext(MIXER, s, blocks, i);
    }
    assert blocks[..|key| / 16] == blocks;
  }

  method MurmurHash3_x64_128(key: seq<Byte>, seed: bv32) returns (out: Lanes)
    requires |key| <= MAX_LEN
    ensures out == Hash(key, seed)
  {
    var h := Body(key, seed);
    h := AddTail(key, h);
    var h1, h2 := h.w1, h.w2;
    var len := Len64(|key|);
    h1 := Xor64(h1, len);
    h2 := Xor64(h2, len);
    out := Finalise(h1, h2);
  }

  method Finalise(a: bv64, b: bv64) returns (out: Lanes)
    ensures out == Avalanche(Lanes(a, b))
  {
    var h1, h2 := a, b;
    h1 := Plus64(h1, h2);
    h2 := Plus64(h2, h1);
    h1 := FinalMix64(h1);
    h2 := FinalMix64(h2);
    h1 := Plus64(h1, h2);
    h2 := Plus64(h2, h1);
    out := Lanes(h1, h2);
  }

  /** The loop over the blocks, counting up from the start of the key. */
  method Body(key: seq<Byte>, seed: bv32) returns (h: Lanes)
    ensures h == Absorb(MIXER, Everywhere(seed as bv64), Blocks(key))
  {
    var nblocks := |key| / 16;
    h := Everywhere(seed as bv64);
    var i := 0;
    while i < nblocks
      invariant 0 <= i <= nblocks
      invariant h == Absorb(MIXER, Everywhere(seed as bv64), Blocks(key)[..i])
    {
      var next := BlockAt(key, 16 * i);
      h := Round(h, next);
      AbsorbNext(MIXER, Everywhere(seed as bv64), Blocks(key), i);
      i := i + 1;
    }
    assert Blocks(key)[..nblocks] == Blocks(key);
  }

  method Round(h: Lanes, k: Lanes) returns (h': Lanes)
    ensures h' == Step(h, k)
  {
    var h1, h2 := h.w1, h.w2;
    var k1, k2 := k.w1, k.w2;
    k1 := Times87C37B91114253D5(k1);
    k1 := Rotl64(k1, 31);
    k1 := Times4CF5AD432745937F(k1);
    h1 := Xor64(h1, k1);
    h1 := Rotl64(h1, 27);
    h1 := Plus64(h1, h2);
    h1 := Plus64(Times5x64(h1), 0x52dce729);
    k2 := Times4CF5AD432745937F(k2);
    k2 := Rotl64(k2, 33);
    k2 := Times87C37B91114253D5(k2);
    h2 := Xor64(h2, k2);
    h2 := Rotl64(h2, 31);
    h2 := Plus64(h2, h1);
    h2 := Plus64(Times5x64(h2), 0x38495ab5);
    h' := Lanes(h1, h2);
  }

  lemma NoWord(key: seq<Byte>, i: nat, h: bv64)
    requires |key| <= i
    ensures Le64(key, i) == 0 && Xor64(h, 0) == h
  {}

  lemma NothingScrambled()
    ensures Scramble1(0) == 0 && Scramble2(0) == 0
  {}

  /** The switch on the length of the tail, from the last lane that has any bytes to the first. */
  method AddTail(key: seq<Byte>, h: Lanes) returns (h': Lanes)
    ensures h' == XorAll(h, ScrambleAll(Tail(key)))
  {
    var tail := 16 * (|key| / 16);
    var h1, h2 := h.w1, h.w2;
    NothingScrambled();
    var k2 := PartialWord64(key, tail + 8);
    if tail + 8 < |key| {
      k2 := Times4CF5AD432745937F(k2);
      k2 := Rotl64(k2, 33);
      k2 := Times87C37B91114253D5(k2);
      h2 := Xor64(h2, k2);
    } else {
      NoWord(key, tail + 8, h2);
    }
    var k1 := PartialWord64(key, tail);
    if tail < |key| {
      k1 := Times87C37B91114253D5(k1);
      k1 := Rotl64(k1, 31);
      k1 := Times4CF5AD432745937F(k1);
      h1 := Xor64(h1, k1);
    } else {
      NoWord(key, tail, h1);
    }
    h' := Lanes(h1, h2);
  }

  // ---------------------------------------------------------------- what it tells apart

  lemma BlockDecides(a: seq<Byte>, b: seq<Byte>, lo: nat, i: nat)
    requires AgreeOutside(a, b, lo, 16)
    ensures i + 16 <= lo || lo + 16 <= i ==> BlockAt(a, i) == BlockAt(b, i)
    ensures i == lo && BlockAt(a, i) == BlockAt(b, i) ==> a == b
  {
    Word64Decides(a, b, lo, 16, i);
    Word64Decides(a, b, lo, 16, i + 8);
  }

  lemma BlocksDecide(a: seq<Byte>, b: seq<Byte>, w: nat)
    requires AgreeOutside(a, b, 16 * w, 16)
    ensures if w < |a| / 16
            then Blocks(a)[..w] == Blocks(b)[..w] && Blocks(a)[w + 1..] == Blocks(b)[w + 1..] && Tail(a) == Tail(b)
            else Blocks(a) == Blocks(b)
    ensures Blocks(a) == Blocks(b) && Tail(a) == Tail(b) <==> a == b
  {
    forall i: nat | i <= |a| / 16 && i != w
      ensures BlockAt(a, 16 * i) == BlockAt(b, 16 * i)
    {
      BlockDecides(a, b, 16 * w, 16 * i);
    }
    BlockDecides(a, b, 16 * w, 16 * w);
    if Blocks(a) == Blocks(b) && Tail(a) == Tail(b) && w < |a| / 16 {
      assert Blocks(a)[w] == Blocks(b)[w];
    }
  }

  /** Keys that differ, if at all, inside one 16-byte block or only in the tail hash alike exactly
      when they are equal. */
  lemma OneBlockDecidesHash(a: seq<Byte>, b: seq<Byte>, seed: bv32, w: nat)
    requires |a| <= MAX_LEN && AgreeOutside(a, b, 16 * w, 16)
    ensures Hash(a, seed) == Hash(b, seed) <==> a == b
  {
    var len := Everywhere(Len64(|a|));
    BlocksDecide(a, b, w);
    DigestIsLawful(len);
    DigestDecides(DigestOf(len), Everywhere(seed as bv64), Blocks(a), Tail(a), Blocks(b), Tail(b), w);
  }

  /** Two seeds never give one key the same hash. */
  lemma SeedsDecide(key: seq<Byte>, seed: bv32, seed': bv32)
    requires |key| <= MAX_LEN
    ensures Hash(key, seed) == Hash(key, seed') <==> seed == seed'
  {
    var len := Everywhere(Len64(|key|));
    DigestIsLawful(len);
    SeedDecides(DigestOf(len), Everywhere(seed as bv64), Everywhere(seed' as bv64), Blocks(key), Tail(key));
  }

  function PutBlock(key: seq<Byte>, i: nat, k: Lanes): seq<Byte>
    requires i + 16 <= |key|
  {
    PutWord64(PutWord64(key, i, k.w1), i + 8, k.w2)
  }

  lemma PutBlockPuts(key: seq<Byte>, i: nat, k: Lanes)
    requires i + 16 <= |key|
    ensures AgreeOutside(key, PutBlock(key, i, k), i, 16) && BlockAt(PutBlock(key, i, k), i) == k
  {
    var r := PutWord64(key, i, k.w1);
    PutWord64Puts(key, i, k.w1);
    PutWord64Puts(r, i + 8, k.w2);
    PutWord64Keeps(r, i + 8, k.w2, i);
  }

  /** With all other bytes fixed, any full block takes the hash through every 128-bit value; by
      OneBlockDecidesHash it takes each value once. */
  lemma OneBlockReachesAllHashes(key: seq<Byte>, seed: bv32, w: nat, t: Lanes) returns (other: seq<Byte>)
    requires |key| <= MAX_LEN && w < |key| / 16
    ensures AgreeOutside(key, other, 16 * w, 16)
    ensures Hash(other, seed) == t
  {
    var len := Everywhere(Len64(|key|));
    DigestIsLawful(len);
    var k := DigestReachesAll(DigestOf(len), Everywhere(seed as bv64), Blocks(key), Tail(key), w, t);
    other := PutBlock(key, 16 * w, k);
    PutBlockReplaces(key, w, k);
  }

  lemma PutBlockReplaces(key: seq<Byte>, w: nat, k: Lanes)
    requires w < |key| / 16
    ensures var other := PutBlock(key, 16 * w, k);
            && AgreeOutside(key, other, 16 * w, 16)
            && Blocks(other) == Blocks(key)[w := k] && Tail(other) == Tail(key)
  {
    PutBlockPuts(key, 16 * w, k);
    forall i: nat | i <= |key| / 16 && i != w
      ensures BlockAt(key, 16 * i) == BlockAt(PutBlock(key, 16 * w, k), 16 * i)
    {
      BlockDecides(key, PutBlock(key, 16 * w, k), 16 * w, 16 * i);
    }
  }
}
