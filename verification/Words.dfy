/** Machine words, little-endian reads and the word permutations of src/murmur3.c. */
module Words {
  import opened Factors

  type Byte = bv8

  /** The byte at i, or zero past the end: reading a short tail this way fills it up with zeroes. */
  function At(key: seq<Byte>, i: nat): Byte {
    if i < |key| then key[i] else 0
  }

  function Join32(b0: Byte, b1: Byte, b2: Byte, b3: Byte): bv32 {
    (b0 as bv32) | ((b1 as bv32) << 8) | ((b2 as bv32) << 16) | ((b3 as bv32) << 24)
  }

  function Join64(low: bv32, high: bv32): bv64 {
    (low as bv64) | ((high as bv64) << 32)
  }

  /** A little-endian read of four or eight bytes. */
  function Le32(key: seq<Byte>, i: nat): bv32 {
    Join32(At(key, i), At(key, i + 1), At(key, i + 2), At(key, i + 3))
  }

  function Le64(key: seq<Byte>, i: nat): bv64 {
    Join64(Le32(key, i), Le32(key, i + 4))
  }

  function Split32(k: bv32): (bytes: seq<Byte>)
    ensures |bytes| == 4 && Join32(bytes[0], bytes[1], bytes[2], bytes[3]) == k
  {
    [(k & 0xff) as Byte, ((k >> 8) & 0xff) as Byte, ((k >> 16) & 0xff) as Byte, (k >> 24) as Byte]
  }

  function Split64(k: bv64): (halves: (bv32, bv32))
    ensures Join64(halves.0, halves.1) == k
  {
    ((k & 0xffff_ffff) as bv32, (k >> 32) as bv32)
  }

  /** The first byte is the lowest. */
  lemma Join32Is(b0: Byte, b1: Byte, b2: Byte, b3: Byte)
    ensures Join32(b0, b1, b2, b3) ==
            (b0 as bv32) ^ ((b1 as bv32) << 8) ^ ((b2 as bv32) << 16) ^ ((b3 as bv32) << 24)
  {}

  lemma Join64Is(low: bv32, high: bv32)
    ensures Join64(low, high) == (low as bv64) ^ ((high as bv64) << 32)
  {}

  lemma Join32Injective(a0: Byte, a1: Byte, a2: Byte, a3: Byte, b0: Byte, b1: Byte, b2: Byte, b3: Byte)
    ensures Join32(a0, a1, a2, a3) == Join32(b0, b1, b2, b3) <==> a0 == b0 && a1 == b1 && a2 == b2 && a3 == b3
  {}

  lemma Join64Splits(low: bv32, high: bv32)
    ensures Join64(low, high) & 0xffff_ffff == low as bv64 && Join64(low, high) >> 32 == high as bv64
  {}

  lemma WideningInjective(a: bv32, b: bv32)
    ensures a as bv64 == b as bv64 <==> a == b
  {}

  lemma Join64Injective(a0: bv32, a1: bv32, b0: bv32, b1: bv32)
    ensures Join64(a0, a1) == Join64(b0, b1) <==> a0 == b0 && a1 == b1
  {
    Join64Splits(a0, a1);
    Join64Splits(b0, b1);
    WideningInjective(a0, b0);
    WideningInjective(a1, b1);
  }

  // The word operations of a round are named, each with the lemma that undoes it, so that the
  // proofs about a round compose these lemmas instead of looking at single bits.

  function Xor32(x: bv32, y: bv32): bv32 { x ^ y }

  function Plus32(x: bv32, n: bv32): bv32 { x + n }

  function Minus32(x: bv32, n: bv32): bv32 { x - n }

  predicate IsXor32(y: bv32, n: bv32, x: bv32) { y ^ n == x }

  predicate IsSum32(y: bv32, n: bv32, x: bv32) { y + n == x }

  predicate IsDifference32(y: bv32, n: bv32, x: bv32) { y - n == x }

  lemma Xor32Is(x: bv32, y: bv32)
    ensures Xor32(x, y) == x ^ y
  {}

  lemma Plus32Is(x: bv32, y: bv32)
    ensures Plus32(x, y) == x + y
  {}

  lemma XorUndone32(x: bv32, y: bv32)
    ensures Xor32(Xor32(x, y), y) == x
  {
    assert IsXor32(x ^ y, y, x);
    assert IsXor32(Xor32(x, y), y, x);
  }

  lemma XorCommutes32(x: bv32, y: bv32)
    ensures Xor32(x, y) == Xor32(y, x)
  {}

  lemma PlusUndone32(x: bv32, n: bv32)
    ensures Minus32(Plus32(x, n), n) == x
  {
    assert IsDifference32(x + n, n, x);
    assert IsDifference32(Plus32(x, n), n, x);
  }

  lemma MinusUndone32(x: bv32, n: bv32)
    ensures Plus32(Minus32(x, n), n) == x
  {
    assert IsSum32(x - n, n, x);
    assert IsSum32(Minus32(x, n), n, x);
  }

  function Xor64(x: bv64, y: bv64): bv64 { x ^ y }

  function Plus64(x: bv64, n: bv64): bv64 { x + n }

  function Minus64(x: bv64, n: bv64): bv64 { x - n }

  predicate IsXor64(y: bv64, n: bv64, x: bv64) { y ^ n == x }

  predicate IsSum64(y: bv64, n: bv64, x: bv64) { y + n == x }

  predicate IsDifference64(y: bv64, n: bv64, x: bv64) { y - n == x }

  lemma Xor64Is(x: bv64, y: bv64)
    ensures Xor64(x, y) == x ^ y
  {}

  lemma Plus64Is(x: bv64, y: bv64)
    ensures Plus64(x, y) == x + y
  {}

  lemma XorUndone64(x: bv64, y: bv64)
    ensures Xor64(Xor64(x, y), y) == x
  {
    assert IsXor64(x ^ y, y, x);
    assert IsXor64(Xor64(x, y), y, x);
  }

  lemma XorCommutes64(x: bv64, y: bv64)
    ensures Xor64(x, y) == Xor64(y, x)
  {}

  lemma PlusUndone64(x: bv64, n: bv64)
    ensures Minus64(Plus64(x, n), n) == x
  {
    assert IsDifference64(x + n, n, x);
    assert IsDifference64(Plus64(x, n), n, x);
  }

  lemma MinusUndone64(x: bv64, n: bv64)
    ensures Plus64(Minus64(x, n), n) == x
  {
    assert IsSum64(x - n, n, x);
    assert IsSum64(Minus64(x, n), n, x);
  }

  /** C's rotl32 and rotl64, where both of their shifts are defined. */
  function Rotl32(x: bv32, r: bv32): bv32
    requires 0 < r < 32
  {
    (x << r) | (x >> (32 - r))
  }

  function Rotl64(x: bv64, r: bv64): bv64
    requires 0 < r < 64
  {
    (x << r) | (x >> (64 - r))
  }

  lemma Rotl32Is(x: bv32, r: bv32)
    requires 0 < r < 32
    ensures Rotl32(x, r) == (x << r) | (x >> (32 - r))
  {}

  lemma Rotl64Is(x: bv64, r: bv64)
    requires 0 < r < 64
    ensures Rotl64(x, r) == (x << r) | (x >> (64 - r))
  {}

  lemma Rotl32Undone13(x: bv32)
    ensures Rotl32(Rotl32(x, 13), 19) == x == Rotl32(Rotl32(x, 19), 13)
  {}

  lemma Rotl32Undone14(x: bv32)
    ensures Rotl32(Rotl32(x, 14), 18) == x == Rotl32(Rotl32(x, 18), 14)
  {}

  lemma Rotl32Undone15(x: bv32)
    ensures Rotl32(Rotl32(x, 15), 17) == x == Rotl32(Rotl32(x, 17), 15)
  {}

  lemma Rotl32Undone16(x: bv32)
    ensures Rotl32(Rotl32(x, 16), 16) == x
  {}

  lemma Rotl64Undone27(x: bv64)
    ensures Rotl64(Rotl64(x, 27), 37) == x == Rotl64(Rotl64(x, 37), 27)
  {}

  lemma Rotl64Undone31(x: bv64)
    ensures Rotl64(Rotl64(x, 31), 33) == x == Rotl64(Rotl64(x, 33), 31)
  {}

  function Fold16(h: bv32): bv32 { h ^ (h >> 16) }

  function Fold13(h: bv32): bv32 { h ^ (h >> 13) }

  function Unfold13(h: bv32): bv32 { h ^ (h >> 13) ^ (h >> 26) }

  function Fold33(k: bv64): bv64 { k ^ (k >> 33) }

  predicate FoldsTo16(y: bv32, x: bv32) { y ^ (y >> 16) == x }

  predicate FoldsTo13(y: bv32, x: bv32) { y ^ (y >> 13) == x }

  predicate UnfoldsTo13(y: bv32, x: bv32) { y ^ (y >> 13) ^ (y >> 26) == x }

  predicate FoldsTo33(y: bv64, x: bv64) { y ^ (y >> 33) == x }

  lemma Fold16Is(h: bv32)
    ensures Fold16(h) == h ^ (h >> 16)
  {}

  lemma Fold13Is(h: bv32)
    ensures Fold13(h) == h ^ (h >> 13)
  {}

  lemma Fold33Is(k: bv64)
    ensures Fold33(k) == k ^ (k >> 33)
  {}

  lemma Fold16Undone(x: bv32)
    ensures Fold16(Fold16(x)) == x
  {
    assert FoldsTo16(x ^ (x >> 16), x);
    assert FoldsTo16(Fold16(x), x);
  }

  lemma Fold13Undone(x: bv32)
    ensures Unfold13(Fold13(x)) == x
  {
    assert UnfoldsTo13(x ^ (x >> 13), x);
    assert UnfoldsTo13(Fold13(x), x);
  }

  lemma Unfold13Undone(x: bv32)
    ensures Fold13(Unfold13(x)) == x
  {
    assert FoldsTo13(x ^ (x >> 13) ^ (x >> 26), x);
    assert FoldsTo13(Unfold13(x), x);
  }

  lemma Fold33Undone(x: bv64)
    ensures Fold33(Fold33(x)) == x
  {
    assert FoldsTo33(x ^ (x >> 33), x);
    assert FoldsTo33(Fold33(x), x);
  }

  /** fmix32 and its inverse. */
  function Fmix32(h: bv32): bv32 {
    Fold16(TimesC2B2AE35(Fold13(Times85EBCA6B(Fold16(h)))))
  }

  function Unfmix32(h: bv32): bv32 {
    Fold16(Over85EBCA6B(Unfold13(OverC2B2AE35(Fold16(h)))))
  }

  lemma Fmix32Permutes(h: bv32)
    ensures Unfmix32(Fmix32(h)) == h
    ensures Fmix32(Unfmix32(h)) == h
  {
    Fold16Undone(h);
    TimesOver85EBCA6B(Fold16(h));
    Fold13Undone(Times85EBCA6B(Fold16(h)));
    TimesOverC2B2AE35(Fold13(Times85EBCA6B(Fold16(h))));
    Fold16Undone(TimesC2B2AE35(Fold13(Times85EBCA6B(Fold16(h)))));
    OverTimesC2B2AE35(Fold16(h));
    Unfold13Undone(OverC2B2AE35(Fold16(h)));
    OverTimes85EBCA6B(Unfold13(OverC2B2AE35(Fold16(h))));
    Fold16Undone(Over85EBCA6B(Unfold13(OverC2B2AE35(Fold16(h)))));
  }

  /** The five assignments of fmix32.  Every value has a name of its own, since the solver compares
      named words but not products of products. */
  lemma Fmix32Is(x: bv32, a: bv32, b: bv32, c: bv32, d: bv32)
    requires a == x ^ (x >> 16) && b == a * 0x85ebca6b && c == b ^ (b >> 13) && d == c * 0xc2b2ae35
    ensures Fmix32(x) == d ^ (d >> 16)
  {
    Fold16Is(x);
    Times85EBCA6BIs(a);
    Fold13Is(b);
    TimesC2B2AE35Is(c);
    Fold16Is(d);
  }

  lemma Folded16(x: bv32, y: bv32)
    requires FoldsTo16(x, y)
    ensures y == Fold16(x)
  {
    Fold16Is(x);
  }

  lemma Folded13(x: bv32, y: bv32)
    requires FoldsTo13(x, y)
    ensures y == Fold13(x)
  {
    Fold13Is(x);
  }

  lemma FoldTo16(x: bv32)
    ensures FoldsTo16(x, Fold16(x))
  {
    Fold16Is(x);
  }

  lemma Multiplied85EBCA6B(y: bv32, x: bv32)
    requires IsProduct32(y, x, 0x85ebca6b)
    ensures y == Times85EBCA6B(x)
  {
    Times85EBCA6BIs(x);
  }

  lemma MultipliedC2B2AE35(y: bv32, x: bv32)
    requires IsProduct32(y, x, 0xc2b2ae35)
    ensures y == TimesC2B2AE35(x)
  {
    TimesC2B2AE35Is(x);
  }

  lemma Fmix32Steps(x: bv32, a: bv32, b: bv32, c: bv32, d: bv32)
    requires FoldsTo16(x, a) && IsProduct32(b, a, 0x85ebca6b)
    requires FoldsTo13(b, c) && IsProduct32(d, c, 0xc2b2ae35)
    ensures FoldsTo16(d, Fmix32(x))
  {
    Folded16(x, a);
    Multiplied85EBCA6B(b, a);
    Folded13(b, c);
    MultipliedC2B2AE35(d, c);
    FoldTo16(d);
  }

  /** The same again as the contract of the code. */
  method FinalMix32(x: bv32) returns (h: bv32)
    ensures h == Fmix32(x)
    ensures forall a, b, c, d ::
              && FoldsTo16(x, a) && IsProduct32(b, a, 0x85ebca6b)
              && FoldsTo13(b, c) && IsProduct32(d, c, 0xc2b2ae35)
              ==> FoldsTo16(d, h)
  {
    forall a, b, c, d | && FoldsTo16(x, a) && IsProduct32(b, a, 0x85ebca6b)
                        && FoldsTo13(b, c) && IsProduct32(d, c, 0xc2b2ae35)
      ensures FoldsTo16(d, Fmix32(x))
    {
      Fmix32Steps(x, a, b, c, d);
    }
    h := x;
    h := Fold16(h);
    h := Times85EBCA6B(h);
    h := Fold13(h);
    h := TimesC2B2AE35(h);
    h := Fold16(h);
  }

  /** fmix64 and its inverse. */
  function Fmix64(k: bv64): bv64 {
    Fold33(TimesC4CEB9FE1A85EC53(Fold33(TimesFF51AFD7ED558CCD(Fold33(k)))))
  }

  function Unfmix64(k: bv64): bv64 {
    Fold33(OverFF51AFD7ED558CCD(Fold33(OverC4CEB9FE1A85EC53(Fold33(k)))))
  }

  lemma Fmix64Permutes(k: bv64)
    ensures Unfmix64(Fmix64(k)) == k
    ensures Fmix64(Unfmix64(k)) == k
  {
    Fold33Undone(k);
    TimesOverFF51AFD7ED558CCD(Fold33(k));
    Fold33Undone(TimesFF51AFD7ED558CCD(Fold33(k)));
    TimesOverC4CEB9FE1A85EC53(Fold33(TimesFF51AFD7ED558CCD(Fold33(k))));
    Fold33Undone(TimesC4CEB9FE1A85EC53(Fold33(TimesFF51AFD7ED558CCD(Fold33(k)))));
    OverTimesC4CEB9FE1A85EC53(Fold33(k));
    Fold33Undone(OverC4CEB9FE1A85EC53(Fold33(k)));
    OverTimesFF51AFD7ED558CCD(Fold33(OverC4CEB9FE1A85EC53(Fold33(k))));
    Fold33Undone(OverFF51AFD7ED558CCD(Fold33(OverC4CEB9FE1A85EC53(Fold33(k)))));
  }

  /** The five assignments of fmix64. */
  lemma Fmix64Is(x: bv64, a: bv64, b: bv64, c: bv64, d: bv64)
    requires a == x ^ (x >> 33) && b == a * 0xff51afd7ed558ccd && c == b ^ (b >> 33) && d == c * 0xc4ceb9fe1a85ec53
    ensures Fmix64(x) == d ^ (d >> 33)
  {
    Fold33Is(x);
    TimesFF51AFD7ED558CCDIs(a);
    Fold33Is(b);
    TimesC4CEB9FE1A85EC53Is(c);
    Fold33Is(d);
  }

  lemma Folded33(x: bv64, y: bv64)
    requires FoldsTo33(x, y)
    ensures y == Fold33(x)
  {
    Fold33Is(x);
  }

  lemma FoldTo33(x: bv64)
    ensures FoldsTo33(x, Fold33(x))
  {
    Fold33Is(x);
  }

  lemma MultipliedFF51AFD7ED558CCD(y: bv64, x: bv64)
    requires IsProduct64(y, x, 0xff51afd7ed558ccd)
    ensures y == TimesFF51AFD7ED558CCD(x)
  {
    TimesFF51AFD7ED558CCDIs(x);
  }

  lemma MultipliedC4CEB9FE1A85EC53(y: bv64, x: bv64)
    requires IsProduct64(y, x, 0xc4ceb9fe1a85ec53)
    ensures y == TimesC4CEB9FE1A85EC53(x)
  {
    TimesC4CEB9FE1A85EC53Is(x);
  }

  lemma Fmix64Steps(x: bv64, a: bv64, b: bv64, c: bv64, d: bv64)
    requires FoldsTo33(x, a) && IsProduct64(b, a, 0xff51afd7ed558ccd)
    requires FoldsTo33(b, c) && IsProduct64(d, c, 0xc4ceb9fe1a85ec53)
    ensures FoldsTo33(d, Fmix64(x))
  {
    Folded33(x, a);
    MultipliedFF51AFD7ED558CCD(b, a);
    Folded33(b, c);
    MultipliedC4CEB9FE1A85EC53(d, c);
    FoldTo33(d);
  }

  /** The same again as the contract of the code. */
  method FinalMix64(x: bv64) returns (k: bv64)
    ensures k == Fmix64(x)
    ensures forall a, b, c, d ::
              && FoldsTo33(x, a) && IsProduct64(b, a, 0xff51afd7ed558ccd)
              && FoldsTo33(b, c) && IsProduct64(d, c, 0xc4ceb9fe1a85ec53)
              ==> FoldsTo33(d, k)
  {
    forall a, b, c, d | && FoldsTo33(x, a) && IsProduct64(b, a, 0xff51afd7ed558ccd)
                        && FoldsTo33(b, c) && IsProduct64(d, c, 0xc4ceb9fe1a85ec53)
      ensures FoldsTo33(d, Fmix64(x))
    {
      Fmix64Steps(x, a, b, c, d);
    }
    k := x;
    k := Fold33(k);
    k := TimesFF51AFD7ED558CCD(k);
    k := Fold33(k);
    k := TimesC4CEB9FE1A85EC53(k);
    k := Fold33(k);
  }
}
