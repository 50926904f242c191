/** MurmurHash3_x86_128 (src/murmur3.c:128-230): four 32-bit lanes, each feeding the next. */
module Murmur3X86Wide {
  import opened Chain
  import opened Factors
  import opened Words
  import opened Murmur3Lanes

  datatype Lanes = Lanes(w1: bv32, w2: bv32, w3: bv32, w4: bv32)

  // ---------------------------------------------------------------- one round

  function Scramble1(k: bv32): bv32 { TimesAB0E9789(Rotl32(Times239B961B(k), 15)) }

  function Scramble2(k: bv32): bv32 { Times38B34AE5(Rotl32(TimesAB0E9789(k), 16)) }

  function Scramble3(k: bv32): bv32 { TimesA1E38B93(Rotl32(Times38B34AE5(k), 17)) }

  function Scramble4(k: bv32): bv32 { Times239B961B(Rotl32(TimesA1E38B93(k), 18)) }

  function Unscramble1(k: bv32): bv32 { Over239B961B(Rotl32(OverAB0E9789(k), 17)) }

  function Unscramble2(k: bv32): bv32 { OverAB0E9789(Rotl32(Over38B34AE5(k), 16)) }

  function Unscramble3(k: bv32): bv32 { Over38B34AE5(Rotl32(OverA1E38B93(k), 15)) }

  function Unscramble4(k: bv32): bv32 { OverA1E38B93(Rotl32(Over239B961B(k), 14)) }

  lemma Scramble1Permutes(k: bv32)
    ensures Unscramble1(Scramble1(k)) == k && Scramble1(Unscramble1(k)) == k
  {
    TimesOver239B961B(k);
    Rotl32Undone15(Times239B961B(k));
    TimesOverAB0E9789(Rotl32(Times239B961B(k), 15));
    OverTimesAB0E9789(k);
    Rotl32Undone15(OverAB0E9789(k));
    OverTimes239B961B(Rotl32(OverAB0E9789(k), 17));
  }

  lemma Scramble2Permutes(k: bv32)
    ensures Unscramble2(Scramble2(k)) == k && Scramble2(Unscramble2(k)) == k
  {
    TimesOverAB0E9789(k);
    Rotl32Undone16(TimesAB0E9789(k));
    TimesOver38B34AE5(Rotl32(TimesAB0E9789(k), 16));
    OverTimes38B34AE5(k);
    Rotl32Undone16(Over38B34AE5(k));
    OverTimesAB0E9789(Rotl32(Over38B34AE5(k), 16));
  }

  lemma Scramble3Permutes(k: bv32)
    ensures Unscramble3(Scramble3(k)) == k && Scramble3(Unscramble3(k)) == k
  {
    TimesOver38B34AE5(k);
    Rotl32Undone15(Times38B34AE5(k));
    TimesOverA1E38B93(Rotl32(Times38B34AE5(k), 17));
    OverTimesA1E38B93(k);
    Rotl32Undone15(OverA1E38B93(k));
    OverTimes38B34AE5(Rotl32(OverA1E38B93(k), 15));
  }

  lemma Scramble4Permutes(k: bv32)
    ensures Unscramble4(Scramble4(k)) == k && Scramble4(Unscramble4(k)) == k
  {
    TimesOverA1E38B93(k);
    Rotl32Undone14(TimesA1E38B93(k));
    TimesOver239B961B(Rotl32(TimesA1E38B93(k), 18));
    OverTimes239B961B(k);
    Rotl32Undone14(Over239B961B(k));
    OverTimesA1E38B93(Rotl32(Over239B961B(k), 14));
  }

  /** The four lanes of a round.  The first three take in the next lane as it was, the last one
      the first lane as it has become. */
  function Step(h: Lanes, k: Lanes): Lanes {
    var h1 := Lane32(h.w1, Scramble1(k.w1), 19, h.w2, 0x561ccd1b);
    var h2 := Lane32(h.w2, Scramble2(k.w2), 17, h.w3, 0x0bcaa747);
    var h3 := Lane32(h.w3, Scramble3(k.w3), 15, h.w4, 0x96cd1c35);
    var h4 := Lane32(h.w4, Scramble4(k.w4), 13, h1, 0x32ac3b17);
    Lanes(h1, h2, h3, h4)
  }

  function Unstep(t: Lanes, k: Lanes): Lanes {
    var h4 := Unlane32(t.w4, Scramble4(k.w4), 13, t.w1, 0x32ac3b17);
    var h3 := Unlane32(t.w3, Scramble3(k.w3), 15, h4, 0x96cd1c35);
    var h2 := Unlane32(t.w2, Scramble2(k.w2), 17, h3, 0x0bcaa747);
    var h1 := Unlane32(t.w1, Scramble1(k.w1), 19, h2, 0x561ccd1b);
    Lanes(h1, h2, h3, h4)
  }

  function Solve(h: Lanes, t: Lanes): Lanes {
    Lanes(Unscramble1(Unlane32(t.w1, h.w1, 19, h.w2, 0x561ccd1b)),
          Unscramble2(Unlane32(t.w2, h.w2, 17, h.w3, 0x0bcaa747)),
          Unscramble3(Unlane32(t.w3, h.w3, 15, h.w4, 0x96cd1c35)),
          Unscramble4(Unlane32(t.w4, h.w4, 13, t.w1, 0x32ac3b17)))
  }

  lemma UnstepUndoes(h: Lanes, k: Lanes)
    ensures Unstep(Step(h, k), k) == h
  {
    var t := Step(h, k);
    Lane32Undone(h.w1, Scramble1(k.w1), 19, h.w2, 0x561ccd1b);
    Lane32Undone(h.w2, Scramble2(k.w2), 17, h.w3, 0x0bcaa747);
    Lane32Undone(h.w3, Scramble3(k.w3), 15, h.w4, 0x96cd1c35);
    Lane32Undone(h.w4, Scramble4(k.w4), 13, t.w1, 0x32ac3b17);
  }

  lemma StepUndoes(t: Lanes, k: Lanes)
    ensures Step(Unstep(t, k), k) == t
  {
    var h := Unstep(t, k);
    Unlane32Undone(t.w4, Scramble4(k.w4), 13, t.w1, 0x32ac3b17);
    Unlane32Undone(t.w3, Scramble3(k.w3), 15, h.w4, 0x96cd1c35);
    Unlane32Undone(t.w2, Scramble2(k.w2), 17, h.w3, 0x0bcaa747);
    Unlane32Undone(t.w1, Scramble1(k.w1), 19, h.w2, 0x561ccd1b);
  }

  lemma SolveFinds(h: Lanes, k: Lanes)
    ensures Solve(h, Step(h, k)) == k
  {
    var t := Step(h, k);
    Lane32Swapped(h.w1, Scramble1(k.w1), 19, h.w2, 0x561ccd1b);
    Lane32Swapped(h.w2, Scramble2(k.w2), 17, h.w3, 0x0bcaa747);
    Lane32Swapped(h.w3, Scramble3(k.w3), 15, h.w4, 0x96cd1c35);
    Lane32Swapped(h.w4, Scramble4(k.w4), 13, t.w1, 0x32ac3b17);
    Scramble1Permutes(k.w1);
    Scramble2Permutes(k.w2);
    Scramble3Permutes(k.w3);
    Scramble4Permutes(k.w4);
  }

  lemma SolveSolves(h: Lanes, t: Lanes)
    ensures Step(h, Solve(h, t)) == t
  {
    Unlane32Swapped(t.w1, h.w1, 19, h.w2, 0x561ccd1b);
    Unlane32Swapped(t.w2, h.w2, 17, h.w3, 0x0bcaa747);
    Unlane32Swapped(t.w3, h.w3, 15, h.w4, 0x96cd1c35);
    Unlane32Swapped(t.w4, h.w4, 13, t.w1, 0x32ac3b17);
    Scramble1Permutes(Unlane32(t.w1, h.w1, 19, h.w2, 0x561ccd1b));
    Scramble2Permutes(Unlane32(t.w2, h.w2, 17, h.w3, 0x0bcaa747));
    Scramble3Permutes(Unlane32(t.w3, h.w3, 15, h.w4, 0x96cd1c35));
    Scramble4Permutes(Unlane32(t.w4, h.w4, 13, t.w1, 0x32ac3b17));
  }

  const MIXER := Mixer(Step, Unstep, Solve)

  lemma MixerIsLawful()
    ensures Lawful(MIXER)
  {
    forall s, b
      ensures Unstep(Step(s, b), b) == s && Step(Unstep(s, b), b) == s
      ensures Solve(s, Step(s, b)) == b && Step(s, Solve(s, b)) == b
    {
      UnstepUndoes(s, b);
      StepUndoes(s, b);
      SolveFinds(s, b);
      SolveSolves(s, b);
    }
  }

  // ---------------------------------------------------------------- the finish

  function XorAll(h: Lanes, k: Lanes): Lanes {
    Lanes(Xor32(h.w1, k.w1), Xor32(h.w2, k.w2), Xor32(h.w3, k.w3), Xor32(h.w4, k.w4))
  }

  lemma XorAllUndone(h: Lanes, k: Lanes)
    ensures XorAll(XorAll(h, k), k) == h
    ensures XorAll(h, k) == XorAll(k, h)
  {
    XorUndone32(h.w1, k.w1);
    XorUndone32(h.w2, k.w2);
    XorUndone32(h.w3, k.w3);
    XorUndone32(h.w4, k.w4);
    XorCommutes32(h.w1, k.w1);
    XorCommutes32(h.w2, k.w2);
    XorCommutes32(h.w3, k.w3);
    XorCommutes32(h.w4, k.w4);
  }

  function ScrambleAll(k: Lanes): Lanes {
    Lanes(Scramble1(k.w1), Scramble2(k.w2), Scramble3(k.w3), Scramble4(k.w4))
  }

  function UnscrambleAll(k: Lanes): Lanes {
    Lanes(Unscramble1(k.w1), Unscramble2(k.w2), Unscramble3(k.w3), Unscramble4(k.w4))
  }

  lemma ScrambleAllPermutes(k: Lanes)
    ensures UnscrambleAll(ScrambleAll(k)) == k
  {
    Scramble1Permutes(k.w1);
    Scramble2Permutes(k.w2);
    Scramble3Permutes(k.w3);
    Scramble4Permutes(k.w4);
  }

  /** Adds every lane to the first one, then the first one to every other. */
  function Cross(h: Lanes): Lanes {
    var h1 := Plus32(Plus32(Plus32(h.w1, h.w2), h.w3), h.w4);
    Lanes(h1, Plus32(h.w2, h1), Plus32(h.w3, h1), Plus32(h.w4, h1))
  }

  function Uncross(t: Lanes): Lanes {
    var h2, h3, h4 := Minus32(t.w2, t.w1), Minus32(t.w3, t.w1), Minus32(t.w4, t.w1);
    Lanes(Minus32(Minus32(Minus32(t.w1, h4), h3), h2), h2, h3, h4)
  }

  lemma UncrossUndoes(h: Lanes)
    ensures Uncross(Cross(h)) == h
  {
    var h1 := Cross(h).w1;
    PlusUndone32(h.w2, h1);
    PlusUndone32(h.w3, h1);
    PlusUndone32(h.w4, h1);
    PlusUndone32(Plus32(Plus32(h.w1, h.w2), h.w3), h.w4);
    PlusUndone32(Plus32(h.w1, h.w2), h.w3);
    PlusUndone32(h.w1, h.w2);
  }

  lemma CrossUndoes(t: Lanes)
    ensures Cross(Uncross(t)) == t
  {
    var h := Uncross(t);
    MinusUndone32(Minus32(Minus32(t.w1, h.w4), h.w3), h.w2);
    MinusUndone32(Minus32(t.w1, h.w4), h.w3);
    MinusUndone32(t.w1, h.w4);
    MinusUndone32(t.w2, t.w1);
    MinusUndone32(t.w3, t.w1);
    MinusUndone32(t.w4, t.w1);
  }

  function FmixAll(h: Lanes): Lanes {
    Lanes(Fmix32(h.w1), Fmix32(h.w2), Fmix32(h.w3), Fmix32(h.w4))
  }

  function UnfmixAll(h: Lanes): Lanes {
    Lanes(Unfmix32(h.w1), Unfmix32(h.w2), Unfmix32(h.w3), Unfmix32(h.w4))
  }

  lemma FmixAllPermutes(h: Lanes)
    ensures UnfmixAll(FmixAll(h)) == h && FmixAll(UnfmixAll(h)) == h
  {
    Fmix32Permutes(h.w1);
    Fmix32Permutes(h.w2);
    Fmix32Permutes(h.w3);
    Fmix32Permutes(h.w4);
  }

  function Avalanche(h: Lanes): Lanes {
    Cross(FmixAll(Cross(h)))
  }

  function Unavalanche(t: Lanes): Lanes {
    Uncross(UnfmixAll(Uncross(t)))
  }

  /** The cross-adding finalisation is a permutation of all four lanes together. */
  lemma AvalanchePermutes(h: Lanes)
    ensures Unavalanche(Avalanche(h)) == h
    ensures Avalanche(Unavalanche(h)) == h
  {
    UncrossUndoes(h);
    FmixAllPermutes(Cross(h));
    UncrossUndoes(FmixAll(Cross(h)));
    CrossUndoes(h);
    FmixAllPermutes(Uncross(h));
    CrossUndoes(UnfmixAll(Uncross(h)));
  }

  function Finish(h: Lanes, tail: Lanes, len: Lanes): Lanes {
    Avalanche(XorAll(XorAll(h, ScrambleAll(tail)), len))
  }

  function Unfinish(t: Lanes, tail: Lanes, len: Lanes): Lanes {
    XorAll(XorAll(Unavalanche(t), len), ScrambleAll(tail))
  }

  function SolveTail(t: Lanes, h: Lanes, len: Lanes): Lanes {
    UnscrambleAll(XorAll(XorAll(Unavalanche(t), len), h))
  }

  lemma UnfinishUndoes(h: Lanes, tail: Lanes, len: Lanes)
    ensures Unfinish(Finish(h, tail, len), tail, len) == h
  {
    AvalanchePermutes(XorAll(XorAll(h, ScrambleAll(tail)), len));
    XorAllUndone(XorAll(h, ScrambleAll(tail)), len);
    XorAllUndone(h, ScrambleAll(tail));
  }

  lemma FinishUndoes(t: Lanes, tail: Lanes, len: Lanes)
    ensures Finish(Unfinish(t, tail, len), tail, len) == t
  {
    XorAllUndone(XorAll(Unavalanche(t), len), ScrambleAll(tail));
    XorAllUndone(Unavalanche(t), len);
    AvalanchePermutes(t);
  }

  lemma SolveTailSolves(h: Lanes, tail: Lanes, len: Lanes)
    ensures SolveTail(Finish(h, tail, len), h, len) == tail
  {
    AvalanchePermutes(XorAll(XorAll(h, ScrambleAll(tail)), len));
    XorAllUndone(XorAll(h, ScrambleAll(tail)), len);
    XorAllUndone(h, ScrambleAll(tail));
    XorAllUndone(ScrambleAll(tail), h);
    ScrambleAllPermutes(tail);
  }

  function DigestOf(len: Lanes): Digest<Lanes, Lanes, Lanes> {
    Digest(MIXER,
           (h, tail) => Finish(h, tail, len),
           (t, tail) => Unfinish(t, tail, len),
           (t, h) => SolveTail(t, h, len))
  }

  lemma DigestIsLawful(len: Lanes)
    ensures LawfulDigest(DigestOf(len))
  {
    MixerIsLawful();
    forall h, tail
      ensures Unfinish(Finish(h, tail, len), tail, len) == h
      ensures SolveTail(Finish(h, tail, len), h, len) == tail
      ensures Finish(Unfinish(h, tail, len), tail, len) == h
    {
      UnfinishUndoes(h, tail, len);
      SolveTailSolves(h, tail, len);
      FinishUndoes(h, tail, len);
    }
  }

  // ---------------------------------------------------------------- the hash

  function BlockAt(key: seq<Byte>, i: nat): Lanes {
    Lanes(Le32(key, i), Le32(key, i + 4), Le32(key, i + 8), Le32(key, i + 12))
  }

  function Blocks(key: seq<Byte>): (blocks: seq<Lanes>)
    ensures |blocks| == |key| / 16
  {
    seq(|key| / 16, i requires 0 <= i => BlockAt(key, 16 * i))
  }

  /** The partial block after the last full one, filled up with zeroes. */
  function Tail(key: seq<Byte>): Lanes {
    BlockAt(key, 16 * (|key| / 16))
  }

  function Everywhere(w: bv32): Lanes {
    Lanes(w, w, w, w)
  }

  /** The reference definition of the hash. */
  function Hash(key: seq<Byte>, seed: bv32): Lanes
    requires |key| <= MAX_LEN
  {
    Finish(Absorb(MIXER, Everywhere(seed), Blocks(key)), Tail(key), Everywhere(Len32(|key|)))
  }

  // ---------------------------------------------------------------- the hash of a key, block by block

  /** A round with the constants of the source. */
  lemma StepIs(h: Lanes, k: Lanes)
    ensures var t := Step(h, k);
            var c1 := TimesAB0E9789(Rotl32(Times239B961B(k.w1), 15));
            var c2 := Times38B34AE5(Rotl32(TimesAB0E9789(k.w2), 16));
            var c3 := TimesA1E38B93(Rotl32(Times38B34AE5(k.w3), 17));
            var c4 := Times239B961B(Rotl32(TimesA1E38B93(k.w4), 18));
            && t.w1 == Plus32(Times5x32(Plus32(Rotl32(Xor32(h.w1, c1), 19), h.w2)), 0x561ccd1b)
            && t.w2 == Plus32(Times5x32(Plus32(Rotl32(Xor32(h.w2, c2), 17), h.w3)), 0x0bcaa747)
            && t.w3 == Plus32(Times5x32(Plus32(Rotl32(Xor32(h.w3, c3), 15), h.w4)), 0x96cd1c35)
            && t.w4 == Plus32(Times5x32(Plus32(Rotl32(Xor32(h.w4, c4), 13), t.w1)), 0x32ac3b17)
  {}

  lemma FinishIs(h: Lanes, tail: Lanes, len: Lanes)
    ensures var x1 := Xor32(Xor32(h.w1, TimesAB0E9789(Rotl32(Times239B961B(tail.w1), 15))), len.w1);
            var x2 := Xor32(Xor32(h.w2, Times38B34AE5(Rotl32(TimesAB0E9789(tail.w2), 16))), len.w2);
            var x3 := Xor32(Xor32(h.w3, TimesA1E38B93(Rotl32(Times38B34AE5(tail.w3), 17))), len.w3);
            var x4 := Xor32(Xor32(h.w4, Times239B961B(Rotl32(TimesA1E38B93(tail.w4), 18))), len.w4);
            var s := Plus32(Plus32(Plus32(x1, x2), x3), x4);
            var f1, f2, f3, f4 := Fmix32(s), Fmix32(Plus32(x2, s)), Fmix32(Plus32(x3, s)), Fmix32(Plus32(x4, s));
            var r := Plus32(Plus32(Plus32(f1, f2), f3), f4);
            Finish(h, tail, len) == Lanes(r, Plus32(f2, r), Plus32(f3, r), Plus32(f4, r))
  {}

  /** From the seed to the hash: each round takes in sixteen bytes, lowest first, and the finish what is
      left of the key, filled up with zeroes, and its length. */
  lemma HashIs(key: seq<Byte>, seed: bv32) returns (states: seq<Lanes>, blocks: seq<Lanes>, tail: Lanes, len: Lanes)
    requires |key| <= MAX_LEN
    ensures |blocks| == |key| / 16 && |states| == |key| / 16 + 1 && states[0] == Lanes(seed, seed, seed, seed)
    ensures forall i :: 0 <= i < |key| / 16 ==>
              && states[i + 1] == Step(states[i], blocks[i])
              && blocks[i].w1 == Join32(key[16 * i], key[16 * i + 1], key[16 * i + 2], key[16 * i + 3])
              && blocks[i].w2 == Join32(key[16 * i + 4], key[16 * i + 5], key[16 * i + 6], key[16 * i + 7])
              && blocks[i].w3 == Join32(key[16 * i + 8], key[16 * i + 9], key[16 * i + 10], key[16 * i + 11])
              && blocks[i].w4 == Join32(key[16 * i + 12], key[16 * i + 13], key[16 * i + 14], key[16 * i + 15])
    ensures var n := 16 * (|key| / 16);
            tail == Lanes(Le32(key, n), Le32(key, n + 4), Le32(key, n + 8), Le32(key, n + 12))
    ensures len.w1 == |key| as bv32 && len == Lanes(len.w1, len.w1, len.w1, len.w1)
    ensures Hash(key, seed) == Finish(states[|key| / 16], tail, len)
  {
    blocks, tail, len := Blocks(key), Tail(key), Everywhere(Len32(|key|));
    states := seq(|key| / 16 + 1, i requires 0 <= i <= |key| / 16 => Absorb(MIXER, Everywhere(seed), blocks[..i]));
    forall i | 0 <= i < |key| / 16
      ensures states[i + 1] == Step(states[i], blocks[i])
    {
      AbsorbNext(MIXER, Everywhere(seed), blocks, i);
    }
    assert blocks[..|key| / 16] == blocks;
  }

  method MurmurHash3_x86_128(key: seq<Byte>, seed: bv32) returns (out: Lanes)
    requires |key| <= MAX_LEN
    ensures out == Hash(key, seed)
  {
    var h := Body(key, seed);
    h := AddTail(key, h);
    var h1, h2, h3, h4 := h.w1, h.w2, h.w3, h.w4;
    var len := Len32(|key|);
    h1 := Xor32(h1, len);
    h2 := Xor32(h2, len);
    h3 := Xor32(h3, len);
    h4 := Xor32(h4, len);
    out := Finalise(h1, h2, h3, h4);
  }

  method Finalise(a: bv32, b: bv32, c: bv32, d: bv32) returns (out: Lanes)
    ensures out == Avalanche(Lanes(a, b, c, d))
  {
    var h1, h2, h3, h4 := a, b, c, d;
    h1 := Plus32(h1, h2);
    h1 := Plus32(h1, h3);
    h1 := Plus32(h1, h4);
    h2 := Plus32(h2, h1);
    h3 := Plus32(h3, h1);
    h4 := Plus32(h4, h1);
    h1 := FinalMix32(h1);
    h2 := FinalMix32(h2);
    h3 := FinalMix32(h3);
    h4 := FinalMix32(h4);
    h1 := Plus32(h1, h2);
    h1 := Plus32(h1, h3);
    h1 := Plus32(h1, h4);
    h2 := Plus32(h2, h1);
    h3 := Plus32(h3, h1);
    h4 := Plus32(h4, h1);
    out := Lanes(h1, h2, h3, h4);
  }

  /** The loop over the blocks: i runs up to zero and the blocks are addressed from their end. */
  method Body(key: seq<Byte>, seed: bv32) returns (h: Lanes)
    ensures h == Absorb(MIXER, Everywhere(seed), Blocks(key))
  {
    var nblocks := |key| / 16;
    h := Everywhere(seed);
    var i := -nblocks;
    while i != 0
      invariant -nblocks <= i <= 0
      invariant h == Absorb(MIXER, Everywhere(seed), Blocks(key)[..nblocks + i])
      decreases -i
    {
      var next := BlockAt(key, 16 * (nblocks + i));
      h := Round(h, next);
      AbsorbNext(MIXER, Everywhere(seed), Blocks(key), nblocks + i);
      i := i + 1;
    }
    assert Blocks(key)[..nblocks] == Blocks(key);
  }

  method Round(h: Lanes, k: Lanes) returns (h': Lanes)
    ensures h' == Step(h, k)
  {
    var h1, h2, h3, h4 := h.w1, h.w2, h.w3, h.w4;
    var k1, k2, k3, k4 := k.w1, k.w2, k.w3, k.w4;
    k1 := Times239B961B(k1);
    k1 := Rotl32(k1, 15);
    k1 := TimesAB0E9789(k1);
    h1 := Xor32(h1, k1);
    h1 := Rotl32(h1, 19);
    h1 := Plus32(h1, h2);
    h1 := Plus32(Times5x32(h1), 0x561ccd1b);
    k2 := TimesAB0E9789(k2);
    k2 := Rotl32(k2, 16);
    k2 := Times38B34AE5(k2);
    h2 := Xor32(h2, k2);
    h2 := Rotl32(h2, 17);
    h2 := Plus32(h2, h3);
    h2 := Plus32(Times5x32(h2), 0x0bcaa747);
    k3 := Times38B34AE5(k3);
    k3 := Rotl32(k3, 17);
    k3 := TimesA1E38B93(k3);
    h3 := Xor32(h3, k3);
    h3 := Rotl32(h3, 15);
    h3 := Plus32(h3, h4);
    h3 := Plus32(Times5x32(h3), 0x96cd1c35);
    k4 := TimesA1E38B93(k4);
    k4 := Rotl32(k4, 18);
    k4 := Times239B961B(k4);
    h4 := Xor32(h4, k4);
    h4 := Rotl32(h4, 13);
    h4 := Plus32(h4, h1);
    h4 := Plus32(Times5x32(h4), 0x32ac3b17);
    h' := Lanes(h1, h2, h3, h4);
  }

  lemma NoWord(key: seq<Byte>, i: nat, h: bv32)
    requires |key| <= i
    ensures Le32(key, i) == 0 && Xor32(h, 0) == h
  {}

  lemma NothingScrambled()
    ensures Scramble1(0) == 0 && Scramble2(0) == 0 && Scramble3(0) == 0 && Scramble4(0) == 0
  {}

  /** The switch on the length of the tail, from the last lane that has any bytes to the first. */
  method AddTail(key: seq<Byte>, h: Lanes) returns (h': Lanes)
    ensures h' == XorAll(h, ScrambleAll(Tail(key)))
  {
    var tail := 16 * (|key| / 16);
    var h1, h2, h3, h4 := h.w1, h.w2, h.w3, h.w4;
    NothingScrambled();
    var k4 := PartialWord32(key, tail + 12);
    if tail + 12 < |key| {
      k4 := TimesA1E38B93(k4);
      k4 := Rotl32(k4, 18);
      k4 := Times239B961B(k4);
      h4 := Xor32(h4, k4);
    } else {
      NoWord(key, tail + 12, h4);
    }
    var k3 := PartialWord32(key, tail + 8);
    if tail + 8 < |key| {
      k3 := Times38B34AE5(k3);
      k3 := Rotl32(k3, 17);
      k3 := TimesA1E38B93(k3);
      h3 := Xor32(h3, k3);
    } else {
      NoWord(key, tail + 8, h3);
    }
    var k2 := PartialWord32(key, tail + 4);
    if tail + 4 < |key| {
      k2 := TimesAB0E9789(k2);
      k2 := Rotl32(k2, 16);
      k2 := Times38B34AE5(k2);
      h2 := Xor32(h2, k2);
    } else {
      NoWord(key, tail + 4, h2);
    }
    var k1 := PartialWord32(key, tail);
    if tail < |key| {
      k1 := Times239B961B(k1);
      k1 := Rotl32(k1, 15);
      k1 := TimesAB0E9789(k1);
      h1 := Xor32(h1, k1);
    } else {
      NoWord(key, tail, h1);
    }
    h' := Lanes(h1, h2, h3, h4);
  }

  // ---------------------------------------------------------------- what it tells apart

  lemma BlockDecides(a: seq<Byte>, b: seq<Byte>, lo: nat, i: nat)
    requires AgreeOutside(a, b, lo, 16)
    ensures i + 16 <= lo || lo + 16 <= i ==> BlockAt(a, i) == BlockAt(b, i)
    ensures i == lo && BlockAt(a, i) == BlockAt(b, i) ==> a == b
  {
    WordDecides(a, b, lo, 16, i);
    WordDecides(a, b, lo, 16, i + 4);
    WordDecides(a, b, lo, 16, i + 8);
    WordDecides(a, b, lo, 16, i + 12);
  }

  lemma BlocksDecide(a: seq<Byte>, b: seq<Byte>, w: nat)
    requires AgreeOutside(a, b, 16 * w, 16)
    ensures if w < |a| / 16
            then Blocks(a)[..w] == Blocks(b)[..w] && Blocks(a)[w + 1..] == Blocks(b)[w + 1..] && Tail(a) == Tail(b)
            else Blocks(a) == Blocks(b)
    ensures Blocks(a) == Blocks(b) && Tail(a) == Tail(b) <==> a == b
  {
    forall i: nat | i <= |a| / 16 && i != w
      ensures BlockAt(a, 16 * i) == BlockAt(b, 16 * i)
    {
      BlockDecides(a, b, 16 * w, 16 * i);
    }
    BlockDecides(a, b, 16 * w, 16 * w);
    if Blocks(a) == Blocks(b) && Tail(a) == Tail(b) && w < |a| / 16 {
      assert Blocks(a)[w] == Blocks(b)[w];
    }
  }

  /** Keys that differ, if at all, inside one 16-byte block or only in the tail hash alike exactly
      when they are equal. */
  lemma OneBlockDecidesHash(a: seq<Byte>, b: seq<Byte>, seed: bv32, w: nat)
    requires |a| <= MAX_LEN && AgreeOutside(a, b, 16 * w, 16)
    ensures Hash(a, seed) == Hash(b, seed) <==> a == b
  {
    var len := Everywhere(Len32(|a|));
    BlocksDecide(a, b, w);
    DigestIsLawful(len);
    DigestDecides(DigestOf(len), Everywhere(seed), Blocks(a), Tail(a), Blocks(b), Tail(b), w);
  }

  /** Two seeds never give one key the same hash. */
  lemma SeedsDecide(key: seq<Byte>, seed: bv32, seed': bv32)
    requires |key| <= MAX_LEN
    ensures Hash(key, seed) == Hash(key, seed') <==> seed == seed'
  {
    var len := Everywhere(Len32(|key|));
    DigestIsLawful(len);
    SeedDecides(DigestOf(len), Everywhere(seed), Everywhere(seed'), Blocks(key), Tail(key));
  }

  function PutBlock(key: seq<Byte>, i: nat, k: Lanes): seq<Byte>
    requires i + 16 <= |key|
  {
    PutWord(PutWord(PutWord(PutWord(key, i, k.w1), i + 4, k.w2), i + 8, k.w3), i + 12, k.w4)
  }

  lemma PutBlockPuts(key: seq<Byte>, i: nat, k: Lanes)
    requires i + 16 <= |key|
    ensures AgreeOutside(key, PutBlock(key, i, k), i, 16) && BlockAt(PutBlock(key, i, k), i) == k
  {
    var r1 := PutWord(key, i, k.w1);
    var r2 := PutWord(r1, i + 4, k.w2);
    var r3 := PutWord(r2, i + 8, k.w3);
    PutWordKeeps(r1, i + 4, k.w2, i);
    PutWordKeeps(r2, i + 8, k.w3, i);
    PutWordKeeps(r2, i + 8, k.w3, i + 4);
    PutWordKeeps(r3, i + 12, k.w4, i);
    PutWordKeeps(r3, i + 12, k.w4, i + 4);
    PutWordKeeps(r3, i + 12, k.w4, i + 8);
  }

  /** With all other bytes fixed, any full block takes the hash through every 128-bit value; by
      OneBlockDecidesHash it takes each value once. */
  lemma OneBlockReachesAllHashes(key: seq<Byte>, seed: bv32, w: nat, t: Lanes) returns (other: seq<Byte>)
    requires |key| <= MAX_LEN && w < |key| / 16
    ensures AgreeOutside(key, other, 16 * w, 16)
    ensures Hash(other, seed) == t
  {
    var len := Everywhere(Len32(|key|));
    DigestIsLawful(len);
    var k := DigestReachesAll(DigestOf(len), Everywhere(seed), Blocks(key), Tail(key), w, t);
    other := PutBlock(key, 16 * w, k);
    PutBlockReplaces(key, w, k);
  }

  lemma PutBlockReplaces(key: seq<Byte>, w: nat, k: Lanes)
    requires w < |key| / 16
    ensures var other := PutBlock(key, 16 * w, k);
            && AgreeOutside(key, other, 16 * w, 16)
            && Blocks(other) == Blocks(key)[w := k] && Tail(other) == Tail(key)
  {
    PutBlockPuts(key, 16 * w, k);
    forall i: nat | i <= |key| / 16 && i != w
      ensures BlockAt(key, 16 * i) == BlockAt(PutBlock(key, 16 * w, k), 16 * i)
    {
      BlockDecides(key, PutBlock(key, 16 * w, k), 16 * w, 16 * i);
    }
  }
}
