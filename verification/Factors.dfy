/** The odd factors of MurmurHash3 and their inverses modulo 2^32 and 2^64.

    Every factor c of src/murmur3.c comes as a pair of functions: TimesC multiplies by c, OverC
    by the number d with c * d == 1, so that each undoes the other.  The solver simplifies
    x * c * d to x when it sees both literals at once, but cannot find out about a product
    that already has a name; IsProduct carries the fact from the one to the other. */
module Factors {

  predicate IsProduct32(x: bv32, y: bv32, d: bv32) {
    y * d == x
  }

  predicate IsProduct64(x: bv64, y: bv64, d: bv64) {
    y * d == x
  }

  function Times5x32(x: bv32): bv32 { x * 5 }

  function Over5x32(x: bv32): bv32 { x * 0xcccccccd }

  lemma Times5x32Is(x: bv32)
    ensures Times5x32(x) == x * 5
  {}

  lemma TimesOver5x32(x: bv32)
    ensures Over5x32(Times5x32(x)) == x
  {
    assert IsProduct32(x, x * 5, 0xcccccccd);
    assert IsProduct32(x, Times5x32(x), 0xcccccccd);
  }

  lemma OverTimes5x32(x: bv32)
    ensures Times5x32(Over5x32(x)) == x
  {
    assert IsProduct32(x, x * 0xcccccccd, 5);
    assert IsProduct32(x, Over5x32(x), 5);
  }

  function TimesCC9E2D51(x: bv32): bv32 { x * 0xcc9e2d51 }

  function OverCC9E2D51(x: bv32): bv32 { x * 0xdee13bb1 }

  lemma TimesCC9E2D51Is(x: bv32)
    ensures TimesCC9E2D51(x) == x * 0xcc9e2d51
  {}

  lemma TimesOverCC9E2D51(x: bv32)
    ensures OverCC9E2D51(TimesCC9E2D51(x)) == x
  {
    assert IsProduct32(x, x * 0xcc9e2d51, 0xdee13bb1);
    assert IsProduct32(x, TimesCC9E2D51(x), 0xdee13bb1);
  }

  lemma OverTimesCC9E2D51(x: bv32)
    ensures TimesCC9E2D51(OverCC9E2D51(x)) == x
  {
    assert IsProduct32(x, x * 0xdee13bb1, 0xcc9e2d51);
    assert IsProduct32(x, OverCC9E2D51(x), 0xcc9e2d51);
  }

  function Times1B873593(x: bv32): bv32 { x * 0x1b873593 }

  function Over1B873593(x: bv32): bv32 { x * 0x56ed309b }

  lemma Times1B873593Is(x: bv32)
    ensures Times1B873593(x) == x * 0x1b873593
  {}

  lemma TimesOver1B873593(x: bv32)
    ensures Over1B873593(Times1B873593(x)) == x
  {
    assert IsProduct32(x, x * 0x1b873593, 0x56ed309b);
    assert IsProduct32(x, Times1B873593(x), 0x56ed309b);
  }

  lemma OverTimes1B873593(x: bv32)
    ensures Times1B873593(Over1B873593(x)) == x
  {
    assert IsProduct32(x, x * 0x56ed309b, 0x1b873593);
    assert IsProduct32(x, Over1B873593(x), 0x1b873593);
  }

  function Times85EBCA6B(x: bv32): bv32 { x * 0x85ebca6b }

  function Over85EBCA6B(x: bv32): bv32 { x * 0xa5cb9243 }

  lemma Times85EBCA6BIs(x: bv32)
    ensures Times85EBCA6B(x) == x * 0x85ebca6b
  {}

  lemma TimesOver85EBCA6B(x: bv32)
    ensures Over85EBCA6B(Times85EBCA6B(x)) == x
  {
    assert IsProduct32(x, x * 0x85ebca6b, 0xa5cb9243);
    assert IsProduct32(x, Times85EBCA6B(x), 0xa5cb9243);
  }

  lemma OverTimes85EBCA6B(x: bv32)
    ensures Times85EBCA6B(Over85EBCA6B(x)) == x
  {
    assert IsProduct32(x, x * 0xa5cb9243, 0x85ebca6b);
    assert IsProduct32(x, Over85EBCA6B(x), 0x85ebca6b);
  }

  function TimesC2B2AE35(x: bv32): bv32 { x * 0xc2b2ae35 }

  function OverC2B2AE35(x: bv32): bv32 { x * 0x7ed1b41d }

  lemma TimesC2B2AE35Is(x: bv32)
    ensures TimesC2B2AE35(x) == x * 0xc2b2ae35
  {}

  lemma TimesOverC2B2AE35(x: bv32)
    ensures OverC2B2AE35(TimesC2B2AE35(x)) == x
  {
    assert IsProduct32(x, x * 0xc2b2ae35, 0x7ed1b41d);
    assert IsProduct32(x, TimesC2B2AE35(x), 0x7ed1b41d);
  }

  lemma OverTimesC2B2AE35(x: bv32)
    ensures TimesC2B2AE35(OverC2B2AE35(x)) == x
  {
    assert IsProduct32(x, x * 0x7ed1b41d, 0xc2b2ae35);
    assert IsProduct32(x, OverC2B2AE35(x), 0xc2b2ae35);
  }

  function Times239B961B(x: bv32): bv32 { x * 0x239b961b }

  function Over239B961B(x: bv32): bv32 { x * 0x89c95413 }

  lemma Times239B961BIs(x: bv32)
    ensures Times239B961B(x) == x * 0x239b961b
  {}

  lemma TimesOver239B961B(x: bv32)
    ensures Over239B961B(Times239B961B(x)) == x
  {
    assert IsProduct32(x, x * 0x239b961b, 0x89c95413);
    assert IsProduct32(x, Times239B961B(x), 0x89c95413);
  }

  lemma OverTimes239B961B(x: bv32)
    ensures Times239B961B(Over239B961B(x)) == x
  {
    assert IsProduct32(x, x * 0x89c95413, 0x239b961b);
    assert IsProduct32(x, Over239B961B(x), 0x239b961b);
  }

  function TimesAB0E9789(x: bv32): bv32 { x * 0xab0e9789 }

  function OverAB0E9789(x: bv32): bv32 { x * 0xdf130eb9 }

  lemma TimesAB0E9789Is(x: bv32)
    ensures TimesAB0E9789(x) == x * 0xab0e9789
  {}

  lemma TimesOverAB0E9789(x: bv32)
    ensures OverAB0E9789(TimesAB0E9789(x)) == x
  {
    assert IsProduct32(x, x * 0xab0e9789, 0xdf130eb9);
    assert IsProduct32(x, TimesAB0E9789(x), 0xdf130eb9);
  }

  lemma OverTimesAB0E9789(x: bv32)
    ensures TimesAB0E9789(OverAB0E9789(x)) == x
  {
    assert IsProduct32(x, x * 0xdf130eb9, 0xab0e9789);
    assert IsProduct32(x, OverAB0E9789(x), 0xab0e9789);
  }

  function Times38B34AE5(x: bv32): bv32 { x * 0x38b34ae5 }

  function Over38B34AE5(x: bv32): bv32 { x * 0x747862ed }

  lemma Times38B34AE5Is(x: bv32)
    ensures Times38B34AE5(x) == x * 0x38b34ae5
  {}

  lemma TimesOver38B34AE5(x: bv32)
    ensures Over38B34AE5(Times38B34AE5(x)) == x
  {
    assert IsProduct32(x, x * 0x38b34ae5, 0x747862ed);
    assert IsProduct32(x, Times38B34AE5(x), 0x747862ed);
  }

  lemma OverTimes38B34AE5(x: bv32)
    ensures Times38B34AE5(Over38B34AE5(x)) == x
  {
    assert IsProduct32(x, x * 0x747862ed, 0x38b34ae5);
    assert IsProduct32(x, Over38B34AE5(x), 0x38b34ae5);
  }

  function TimesA1E38B93(x: bv32): bv32 { x * 0xa1e38b93 }

  function OverA1E38B93(x: bv32): bv32 { x * 0x58d64a9b }

  lemma TimesA1E38B93Is(x: bv32)
    ensures TimesA1E38B93(x) == x * 0xa1e38b93
  {}

  lemma TimesOverA1E38B93(x: bv32)
    ensures OverA1E38B93(TimesA1E38B93(x)) == x
  {
    assert IsProduct32(x, x * 0xa1e38b93, 0x58d64a9b);
    assert IsProduct32(x, TimesA1E38B93(x), 0x58d64a9b);
  }

  lemma OverTimesA1E38B93(x: bv32)
    ensures TimesA1E38B93(OverA1E38B93(x)) == x
  {
    assert IsProduct32(x, x * 0x58d64a9b, 0xa1e38b93);
    assert IsProduct32(x, OverA1E38B93(x), 0xa1e38b93);
  }

  function Times5x64(x: bv64): bv64 { x * 5 }

  function Over5x64(x: bv64): bv64 { x * 0xcccccccccccccccd }

  lemma Times5x64Is(x: bv64)
    ensures Times5x64(x) == x * 5
  {}

  lemma TimesOver5x64(x: bv64)
    ensures Over5x64(Times5x64(x)) == x
  {
    assert IsProduct64(x, x * 5, 0xcccccccccccccccd);
    assert IsProduct64(x, Times5x64(x), 0xcccccccccccccccd);
  }

  lemma OverTimes5x64(x: bv64)
    ensures Times5x64(Over5x64(x)) == x
  {
    assert IsProduct64(x, x * 0xcccccccccccccccd, 5);
    assert IsProduct64(x, Over5x64(x), 5);
  }

  function Times87C37B91114253D5(x: bv64): bv64 { x * 0x87c37b91114253d5 }

  function Over87C37B91114253D5(x: bv64): bv64 { x * 0xa98409e882ce4d7d }

  lemma Times87C37B91114253D5Is(x: bv64)
    ensures Times87C37B91114253D5(x) == x * 0x87c37b91114253d5
  {}

  lemma TimesOver87C37B91114253D5(x: bv64)
    ensures Over87C37B91114253D5(Times87C37B91114253D5(x)) == x
  {
    assert IsProduct64(x, x * 0x87c37b91114253d5, 0xa98409e882ce4d7d);
    assert IsProduct64(x, Times87C37B91114253D5(x), 0xa98409e882ce4d7d);
  }

  lemma OverTimes87C37B91114253D5(x: bv64)
    ensures Times87C37B91114253D5(Over87C37B91114253D5(x)) == x
  {
    assert IsProduct64(x, x * 0xa98409e882ce4d7d, 0x87c37b91114253d5);
    assert IsProduct64(x, Over87C37B91114253D5(x), 0x87c37b91114253d5);
  }

  function Times4CF5AD432745937F(x: bv64): bv64 { x * 0x4cf5ad432745937f }

  function Over4CF5AD432745937F(x: bv64): bv64 { x * 0xa81e14edd9de2c7f }

  lemma Times4CF5AD432745937FIs(x: bv64)
    ensures Times4CF5AD432745937F(x) == x * 0x4cf5ad432745937f
  {}

  lemma TimesOver4CF5AD432745937F(x: bv64)
    ensures Over4CF5AD432745937F(Times4CF5AD432745937F(x)) == x
  {
    assert IsProduct64(x, x * 0x4cf5ad432745937f, 0xa81e14edd9de2c7f);
    assert IsProduct64(x, Times4CF5AD432745937F(x), 0xa81e14edd9de2c7f);
  }

  lemma OverTimes4CF5AD432745937F(x: bv64)
    ensures Times4CF5AD432745937F(Over4CF5AD432745937F(x)) == x
  {
    assert IsProduct64(x, x * 0xa81e14edd9de2c7f, 0x4cf5ad432745937f);
    assert IsProduct64(x, Over4CF5AD432745937F(x), 0x4cf5ad432745937f);
  }

  function TimesFF51AFD7ED558CCD(x: bv64): bv64 { x * 0xff51afd7ed558ccd }

  function OverFF51AFD7ED558CCD(x: bv64): bv64 { x * 0x4f74430c22a54005 }

  lemma TimesFF51AFD7ED558CCDIs(x: bv64)
    ensures TimesFF51AFD7ED558CCD(x) == x * 0xff51afd7ed558ccd
  {}

  lemma TimesOverFF51AFD7ED558CCD(x: bv64)
    ensures OverFF51AFD7ED558CCD(TimesFF51AFD7ED558CCD(x)) == x
  {
    assert IsProduct64(x, x * 0xff51afd7ed558ccd, 0x4f74430c22a54005);
    assert IsProduct64(x, TimesFF51AFD7ED558CCD(x), 0x4f74430c22a54005);
  }

  lemma OverTimesFF51AFD7ED558CCD(x: bv64)
    ensures TimesFF51AFD7ED558CCD(OverFF51AFD7ED558CCD(x)) == x
  {
    assert IsProduct64(x, x * 0x4f74430c22a54005, 0xff51afd7ed558ccd);
    assert IsProduct64(x, OverFF51AFD7ED558CCD(x), 0xff51afd7ed558ccd);
  }

  function TimesC4CEB9FE1A85EC53(x: bv64): bv64 { x * 0xc4ceb9fe1a85ec53 }

  function OverC4CEB9FE1A85EC53(x: bv64): bv64 { x * 0x9cb4b2f8129337db }

  lemma TimesC4CEB9FE1A85EC53Is(x: bv64)
    ensures TimesC4CEB9FE1A85EC53(x) == x * 0xc4ceb9fe1a85ec53
  {}

  lemma TimesOverC4CEB9FE1A85EC53(x: bv64)
    ensures OverC4CEB9FE1A85EC53(TimesC4CEB9FE1A85EC53(x)) == x
  {
    assert IsProduct64(x, x * 0xc4ceb9fe1a85ec53, 0x9cb4b2f8129337db);
    assert IsProduct64(x, TimesC4CEB9FE1A85EC53(x), 0x9cb4b2f8129337db);
  }

  lemma OverTimesC4CEB9FE1A85EC53(x: bv64)
    ensures TimesC4CEB9FE1A85EC53(OverC4CEB9FE1A85EC53(x)) == x
  {
    assert IsProduct64(x, x * 0x9cb4b2f8129337db, 0xc4ceb9fe1a85ec53);
    assert IsProduct64(x, OverC4CEB9FE1A85EC53(x), 0xc4ceb9fe1a85ec53);
  }
}
