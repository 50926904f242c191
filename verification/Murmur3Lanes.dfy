/** What the three variants share: lengths, windows of a key, and the lane of a round. */
module Murmur3Lanes {
  import opened Factors
  import opened Words

  /** The lengths a C int can hold. */
  const MAX_LEN := 0x7fff_ffff

  function Len32(n: nat): bv32
    requires n <= MAX_LEN
  {
    n as bv32
  }

  function Len64(n: nat): bv64
    requires n <= MAX_LEN
  {
    n as bv64
  }

  /** The keys have one length and differ, if at all, inside the window of size bytes at lo. */
  ghost predicate AgreeOutside(a: seq<Byte>, b: seq<Byte>, lo: nat, size: nat) {
    && |a| == |b|
    && forall j :: 0 <= j < |a| && !(lo <= j < lo + size) ==> a[j] == b[j]
  }

  lemma Le32Decides(a: seq<Byte>, b: seq<Byte>, i: nat)
    ensures Le32(a, i) == Le32(b, i) <==>
            && At(a, i) == At(b, i) && At(a, i + 1) == At(b, i + 1)
            && At(a, i + 2) == At(b, i + 2) && At(a, i + 3) == At(b, i + 3)
  {
    Join32Injective(At(a, i), At(a, i + 1), At(a, i + 2), At(a, i + 3),
                    At(b, i), At(b, i + 1), At(b, i + 2), At(b, i + 3));
  }

  /** A word of the two keys is the same away from the window, and wherever it is the same so are
      its bytes. */
  lemma WordDecides(a: seq<Byte>, b: seq<Byte>, lo: nat, size: nat, i: nat)
    requires AgreeOutside(a, b, lo, size)
    ensures i + 4 <= lo || lo + size <= i ==> Le32(a, i) == Le32(b, i)
    ensures Le32(a, i) == Le32(b, i) ==> forall j :: i <= j < i + 4 && j < |a| ==> a[j] == b[j]
  {
    Le32Decides(a, b, i);
    forall j | i <= j < i + 4 && j < |a| && Le32(a, i) == Le32(b, i)
      ensures a[j] == b[j]
    {
      assert j == i || j == i + 1 || j == i + 2 || j == i + 3;
      assert At(a, j) == At(b, j);
    }
  }

  lemma Word64Decides(a: seq<Byte>, b: seq<Byte>, lo: nat, size: nat, i: nat)
    requires AgreeOutside(a, b, lo, size)
    ensures i + 8 <= lo || lo + size <= i ==> Le64(a, i) == Le64(b, i)
    ensures Le64(a, i) == Le64(b, i) ==> forall j :: i <= j < i + 8 && j < |a| ==> a[j] == b[j]
  {
    WordDecides(a, b, lo, size, i);
    WordDecides(a, b, lo, size, i + 4);
    Join64Injective(Le32(a, i), Le32(a, i + 4), Le32(b, i), Le32(b, i + 4));
  }

  /** Overwrites four bytes of a key so that they read as the given word. */
  function PutWord(key: seq<Byte>, i: nat, k: bv32): (r: seq<Byte>)
    requires i + 4 <= |key|
    ensures AgreeOutside(key, r, i, 4)
    ensures Le32(r, i) == k
  {
    key[..i] + Split32(k) + key[i + 4..]
  }

  lemma PutWordKeeps(key: seq<Byte>, i: nat, k: bv32, j: nat)
    requires i + 4 <= |key| && (j + 4 <= i || i + 4 <= j)
    ensures Le32(PutWord(key, i, k), j) == Le32(key, j)
  {
    WordDecides(key, PutWord(key, i, k), i, 4, j);
  }

  function PutWord64(key: seq<Byte>, i: nat, k: bv64): seq<Byte>
    requires i + 8 <= |key|
  {
    PutWord(PutWord(key, i, Split64(k).0), i + 4, Split64(k).1)
  }

  lemma PutWord64Puts(key: seq<Byte>, i: nat, k: bv64)
    requires i + 8 <= |key|
    ensures AgreeOutside(key, PutWord64(key, i, k), i, 8) && Le64(PutWord64(key, i, k), i) == k
  {
    PutWordKeeps(PutWord(key, i, Split64(k).0), i + 4, Split64(k).1, i);
  }

  lemma PutWord64Keeps(key: seq<Byte>, i: nat, k: bv64, j: nat)
    requires i + 8 <= |key| && (j + 8 <= i || i + 8 <= j)
    ensures Le64(PutWord64(key, i, k), j) == Le64(key, j)
  {
    PutWord64Puts(key, i, k);
    Word64Decides(key, PutWord64(key, i, k), i, 8, j);
  }

  // ---------------------------------------------------------------- the partial words of a tail

  /** The byte is mixed into the word n bits up. */
  predicate Mixed32(k: bv32, b: Byte, n: bv32, mixed: bv32)
    requires n <= 24
  {
    mixed == k ^ ((b as bv32) << n)
  }

  lemma MixesNothing32(k: bv32, n: bv32)
    requires n <= 24
    ensures Mixed32(k, 0, n, k)
  {
    assert k ^ (((0 as Byte) as bv32) << n) == k;
  }

  lemma XorsJoin32(b0: Byte, b1: Byte, b2: Byte, b3: Byte)
    ensures (0 as bv32) ^ ((b3 as bv32) << 24) ^ ((b2 as bv32) << 16) ^ ((b1 as bv32) << 8) ^ ((b0 as bv32) << 0)
         == Join32(b0, b1, b2, b3)
  {}

  /** One case of the switch: takes in the byte at i unless the key has ended before it. */
  method XorByte32(key: seq<Byte>, i: nat, n: bv32, k: bv32) returns (k': bv32)
    requires n <= 24
    ensures Mixed32(k, At(key, i), n, k')
  {
    if i < |key| {
      k' := k ^ ((key[i] as bv32) << n);
      assert Mixed32(k, key[i], n, k');
    } else {
      k' := k;
      MixesNothing32(k, n);
    }
  }

  /** The word at i, or as many of its bytes as the key still has.  The cases of the original
      switch fall through, highest byte first. */
  method PartialWord32(key: seq<Byte>, i: nat) returns (k: bv32)
    ensures k == Le32(key, i)
  {
    k := XorByte32(key, i + 3, 24, 0);
    k := XorByte32(key, i + 2, 16, k);
    k := XorByte32(key, i + 1, 8, k);
    k := XorByte32(key, i, 0, k);
    XorsJoin32(At(key, i), At(key, i + 1), At(key, i + 2), At(key, i + 3));
  }

  /** The byte is mixed into the word n bits up. */
  predicate Mixed64(k: bv64, b: Byte, n: bv64, mixed: bv64)
    requires n <= 56
  {
    mixed == k ^ ((b as bv64) << n)
  }

  lemma MixesNothing64(k: bv64, n: bv64)
    requires n <= 56
    ensures Mixed64(k, 0, n, k)
  {
    assert k ^ (((0 as Byte) as bv64) << n) == k;
  }

  lemma XorsJoin64(b0: Byte, b1: Byte, b2: Byte, b3: Byte, b4: Byte, b5: Byte, b6: Byte, b7: Byte)
    ensures (0 as bv64) ^ ((b7 as bv64) << 56) ^ ((b6 as bv64) << 48) ^ ((b5 as bv64) << 40) ^ ((b4 as bv64) << 32)
                        ^ ((b3 as bv64) << 24) ^ ((b2 as bv64) << 16) ^ ((b1 as bv64) << 8) ^ ((b0 as bv64) << 0)
         == Join64(Join32(b0, b1, b2, b3), Join32(b4, b5, b6, b7))
  {}

  method XorByte64(key: seq<Byte>, i: nat, n: bv64, k: bv64) returns (k': bv64)
    requires n <= 56
    ensures Mixed64(k, At(key, i), n, k')
  {
    if i < |key| {
      k' := k ^ ((key[i] as bv64) << n);
      assert Mixed64(k, key[i], n, k');
    } else {
      k' := k;
      MixesNothing64(k, n);
    }
  }

  method PartialWord64(key: seq<Byte>, i: nat) returns (k: bv64)
    ensures k == Le64(key, i)
  {
    k := XorByte64(key, i + 7, 56, 0);
    k := XorByte64(key, i + 6, 48, k);
    k := XorByte64(key, i + 5, 40, k);
    k := XorByte64(key, i + 4, 32, k);
    k := XorByte64(key, i + 3, 24, k);
    k := XorByte64(key, i + 2, 16, k);
    k := XorByte64(key, i + 1, 8, k);
    k := XorByte64(key, i, 0, k);
    XorsJoin64(At(key, i), At(key, i + 1), At(key, i + 2), At(key, i + 3),
               At(key, i + 4), At(key, i + 5), At(key, i + 6), At(key, i + 7));
  }

  // ---------------------------------------------------------------- one lane of a round

  function Lane32(h: bv32, k: bv32, r: bv32, n: bv32, c: bv32): bv32
    requires 0 < r < 32
  {
    Plus32(Times5x32(Plus32(Rotl32(Xor32(h, k), r), n)), c)
  }

  function Unlane32(t: bv32, k: bv32, r: bv32, n: bv32, c: bv32): bv32
    requires 0 < r < 32
  {
    Xor32(Rotl32(Minus32(Over5x32(Minus32(t, c)), n), 32 - r), k)
  }

  lemma Rotl32Undone(x: bv32, r: bv32)
    requires 13 <= r <= 19
    ensures Rotl32(Rotl32(x, r), 32 - r) == x
    ensures Rotl32(Rotl32(x, 32 - r), r) == x
  {
    if r == 13 || r == 19 {
      Rotl32Undone13(x);
    } else if r == 14 || r == 18 {
      Rotl32Undone14(x);
    } else if r == 16 {
      Rotl32Undone16(x);
    } else {
      Rotl32Undone15(x);
    }
  }

  lemma Lane32Undone(h: bv32, k: bv32, r: bv32, n: bv32, c: bv32)
    requires 13 <= r <= 19
    ensures Unlane32(Lane32(h, k, r, n, c), k, r, n, c) == h
  {
    var x := Xor32(h, k);
    XorUndone32(h, k);
    Rotl32Undone(x, r);
    PlusUndone32(Rotl32(x, r), n);
    TimesOver5x32(Plus32(Rotl32(x, r), n));
    PlusUndone32(Times5x32(Plus32(Rotl32(x, r), n)), c);
  }

  lemma Unlane32Undone(t: bv32, k: bv32, r: bv32, n: bv32, c: bv32)
    requires 13 <= r <= 19
    ensures Lane32(Unlane32(t, k, r, n, c), k, r, n, c) == t
  {
    var y := Over5x32(Minus32(t, c));
    MinusUndone32(t, c);
    OverTimes5x32(Minus32(t, c));
    MinusUndone32(y, n);
    Rotl32Undone(Minus32(y, n), r);
    XorUndone32(Rotl32(Minus32(y, n), 32 - r), k);
  }

  lemma Lane32Swapped(h: bv32, k: bv32, r: bv32, n: bv32, c: bv32)
    requires 13 <= r <= 19
    ensures Unlane32(Lane32(h, k, r, n, c), h, r, n, c) == k
  {
    XorCommutes32(h, k);
    Lane32Undone(k, h, r, n, c);
  }

  lemma Unlane32Swapped(t: bv32, h: bv32, r: bv32, n: bv32, c: bv32)
    requires 13 <= r <= 19
    ensures Lane32(h, Unlane32(t, h, r, n, c), r, n, c) == t
  {
    XorCommutes32(h, Unlane32(t, h, r, n, c));
    Unlane32Undone(t, h, r, n, c);
  }

  function Lane64(h: bv64, k: bv64, r: bv64, n: bv64, c: bv64): bv64
    requires 0 < r < 64
  {
    Plus64(Times5x64(Plus64(Rotl64(Xor64(h, k), r), n)), c)
  }

  function Unlane64(t: bv64, k: bv64, r: bv64, n: bv64, c: bv64): bv64
    requires 0 < r < 64
  {
    Xor64(Rotl64(Minus64(Over5x64(Minus64(t, c)), n), 64 - r), k)
  }

  lemma Rotl64Undone(x: bv64, r: bv64)
    requires r == 27 || r == 31
    ensures Rotl64(Rotl64(x, r), 64 - r) == x
    ensures Rotl64(Rotl64(x, 64 - r), r) == x
  {
    if r == 27 {
      Rotl64Undone27(x);
    } else {
      Rotl64Undone31(x);
    }
  }

  lemma Lane64Undone(h: bv64, k: bv64, r: bv64, n: bv64, c: bv64)
    requires r == 27 || r == 31
    ensures Unlane64(Lane64(h, k, r, n, c), k, r, n, c) == h
  {
    var x := Xor64(h, k);
    XorUndone64(h, k);
    Rotl64Undone(x, r);
    PlusUndone64(Rotl64(x, r), n);
    TimesOver5x64(Plus64(Rotl64(x, r), n));
    PlusUndone64(Times5x64(Plus64(Rotl64(x, r), n)), c);
  }

  lemma Unlane64Undone(t: bv64, k: bv64, r: bv64, n: bv64, c: bv64)
    requires r == 27 || r == 31
    ensures Lane64(Unlane64(t, k, r, n, c), k, r, n, c) == t
  {
    var y := Over5x64(Minus64(t, c));
    MinusUndone64(t, c);
    OverTimes5x64(Minus64(t, c));
    MinusUndone64(y, n);
    Rotl64Undone(Minus64(y, n), r);
    XorUndone64(Rotl64(Minus64(y, n), 64 - r), k);
  }

  lemma Lane64Swapped(h: bv64, k: bv64, r: bv64, n: bv64, c: bv64)
    requires r == 27 || r == 31
    ensures Unlane64(Lane64(h, k, r, n, c), h, r, n, c) == k
  {
    XorCommutes64(h, k);
    Lane64Undone(k, h, r, n, c);
  }

  lemma Unlane64Swapped(t: bv64, h: bv64, r: bv64, n: bv64, c: bv64)
    requires r == 27 || r == 31
    ensures Lane64(h, Unlane64(t, h, r, n, c), r, n, c) == t
  {
    XorCommutes64(h, Unlane64(t, h, r, n, c));
    Unlane64Undone(t, h, r, n, c);
  }
}
