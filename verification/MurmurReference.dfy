/** MurmurHash3_x86_32 written out step by step, and some of its values, which fix constants,
    rotations and byte order. */
module MurmurReference {
  import opened MurmurWords
  import opened Murmur3

  /** A block: scrambled, exclusive or, rotated by 13, times 5 plus a constant. */
  function AfterBlock(h: Word, k: Word): Word {
    Scale5(Rotl32(Xor(h, MulC2(Rotl32(MulC1(k), 15))), 13))
  }

  /** The rest of a key: scrambled, exclusive or. */
  function AfterRest(h: Word, k: Word): Word { Xor(h, MulC2(Rotl32(MulC1(k), 15))) }

  /** The finalisation, fmix32 in the source, with the length. */
  function AtEnd(h: Word, length: Word): Word {
    XorShift16(MulF2(XorShift13(MulF1(XorShift16(Xor(h, length))))))
  }

  /** The blocks are absorbed one after the other, from the first to the last. */
  lemma BlocksAre(h: Word, ks: seq<Word>, k: Word)
    ensures FoldBlocks(h, []) == h && FoldBlocks(h, ks + [k]) == AfterBlock(FoldBlocks(h, ks), k)
  {
    FoldSnoc(h, ks, k);
    hide FoldBlocks, Scale5, Rotl32, Xor, MulC1, MulC2;
    assert FoldBlocks(h, []) == h by { NoBlock(h); }
  }

  lemma NoBlock(h: Word)
    ensures FoldBlocks(h, []) == h
  {
  }

  /** A full block of a key, its first byte in the lowest bits. */
  lemma BlockIs(key: Bytes, n: nat, i: nat)
    requires i < n && 4 * n <= |key|
    ensures Chunks(key, n)[i] ==
      (key[4 * i] as Word) | ((key[4 * i + 1] as Word) << 8)
        | ((key[4 * i + 2] as Word) << 16) | ((key[4 * i + 3] as Word) << 24)
  {
  }

  /** What is left after the full blocks, likewise. */
  lemma RestIs(key: Bytes)
    requires |key| % 4 != 0
    ensures var i := |key| / 4 * 4;
      Chunk(key, |key| / 4) ==
        (key[i] as Word) | ((if i + 1 < |key| then key[i + 1] as Word else 0) << 8)
          | ((if i + 2 < |key| then key[i + 2] as Word else 0) << 16)
  {
    var i := |key| / 4 * 4;
    assert i + 3 >= |key|;
    WithoutTop(ByteAt(key, i), ByteAt(key, i + 1), ByteAt(key, i + 2));
    hide Block;
  }

  lemma WithoutTop(b0: bv8, b1: bv8, b2: bv8)
    ensures Block(b0, b1, b2, 0) == (b0 as Word) | ((b1 as Word) << 8) | ((b2 as Word) << 16)
  {
  }

  /** The hash: full blocks, then the rest without rotation and scaling, then the length. */
  lemma HashIs(key: Bytes, seed: Word)
    requires |key| < KEY_LENGTH_LIMIT
    ensures var h := FoldBlocks(seed, Chunks(key, |key| / 4));
      Hash(key, seed) ==
        AtEnd(if |key| % 4 == 0 then h else AfterRest(h, Chunk(key, |key| / 4)), |key| as Word)
  {
    hide FoldBlocks, Chunks, Chunk, Rotl32, Xor, MulC1, MulC2, MulF1, MulF2, XorShift13, XorShift16;
  }

  lemma ChunksOfNone(key: Bytes)
    ensures Chunks(key, 0) == []
  {
  }

  /** A name of fewer than four bytes, which has no full block. */
  lemma ShortKey(key: Bytes, seed: Word)
    requires 0 < |key| < 4
    ensures var k := (key[0] as Word) | ((if 1 < |key| then key[1] as Word else 0) << 8)
                       | ((if 2 < |key| then key[2] as Word else 0) << 16);
      Hash(key, seed) == AtEnd(AfterRest(seed, k), |key| as Word)
  {
    hide AtEnd, AfterRest, Hash, Chunk, Chunks, FoldBlocks, Block;
    ShortRest(key);
    HashIs(key, seed);
    ChunksOfNone(key);
    NoBlock(seed);
  }

  lemma ShortRest(key: Bytes)
    requires 0 < |key| < 4
    ensures |key| / 4 == 0 && Chunk(key, 0) ==
      (key[0] as Word) | ((if 1 < |key| then key[1] as Word else 0) << 8)
        | ((if 2 < |key| then key[2] as Word else 0) << 16)
  {
    hide Chunk, Block;
    RestIs(key);
  }

  /** A name of four bytes, which is one block. */
  lemma FourBytes(key: Bytes, seed: Word)
    requires |key| == 4
    ensures var k := (key[0] as Word) | ((key[1] as Word) << 8) | ((key[2] as Word) << 16) | ((key[3] as Word) << 24);
      Hash(key, seed) == AtEnd(AfterBlock(seed, k), 4)
  {
    hide AtEnd, AfterBlock, Hash, Chunk, Chunks, FoldBlocks, Block;
    BlockIs(key, 1, 0);
    HashIs(key, seed);
    var k := Chunks(key, 1)[0];
    BlocksAre(seed, [], k);
    assert Chunks(key, 1) == [] + [k];
  }

  // ---------------------------------------------------------------------
  // Values

  const HELLO: Bytes := [0x68, 0x65, 0x6c, 0x6c, 0x6f]
  const HELLO_WORLD: Bytes := [0x68, 0x65, 0x6c, 0x6c, 0x6f, 0x2c, 0x20, 0x77, 0x6f, 0x72, 0x6c, 0x64]

  lemma StepsOfA()
    ensures AfterRest(0, 0x61) == 0x504ba9d5 && AtEnd(0x504ba9d5, 1) == 0x3c2569b2
  {
  }

  /** "a" */
  lemma ValueOfA()
    ensures Hash([0x61], 0) == 0x3c2569b2
  {
    hide AtEnd, AfterRest, Hash;
    StepsOfA();
    ShortKey([0x61], 0);
  }

  lemma StepsOfHello()
    ensures AfterBlock(0, 0x6c6c6568) == 0xef13efcd && AfterRest(0xef13efcd, 0x6f) == 0x9caf3fb3
    ensures AtEnd(0x9caf3fb3, 5) == 0x248bfa47
  {
  }

  lemma BlocksOfHello()
    ensures Chunks(HELLO, 1) == [0x6c6c6568] && Chunk(HELLO, 1) == 0x6f
  {
    BlockIs(HELLO, 1, 0);
    RestIs(HELLO);
  }

  /** "hello" */
  lemma ValueOfHello()
    ensures Hash(HELLO, 0) == 0x248bfa47
  {
    hide AtEnd, AfterBlock, AfterRest, Hash, Chunk, Chunks, FoldBlocks;
    StepsOfHello();
    BlocksOfHello();
    HashIs(HELLO, 0);
    BlocksAre(0, [], 0x6c6c6568);
    assert [] + [0x6c6c6568 as Word] == [0x6c6c6568];
  }

  lemma StepsOfHelloWorld()
    ensures AfterBlock(0, 0x6c6c6568) == 0xef13efcd && AfterBlock(0xef13efcd, 0x77202c6f) == 0x2470c6c2
    ensures AfterBlock(0x2470c6c2, 0x646c726f) == 0x98b32401 && AtEnd(0x98b32401, 12) == 0x149bbb7f
  {
  }

  lemma BlocksOfHelloWorld()
    ensures Chunks(HELLO_WORLD, 3) == [0x6c6c6568, 0x77202c6f, 0x646c726f]
  {
    BlockIs(HELLO_WORLD, 3, 0);
    BlockIs(HELLO_WORLD, 3, 1);
    BlockIs(HELLO_WORLD, 3, 2);
  }

  /** "hello, world" */
  lemma ValueOfHelloWorld()
    ensures Hash(HELLO_WORLD, 0) == 0x149bbb7f
  {
    hide AtEnd, AfterBlock, Hash, Chunk, Chunks, FoldBlocks;
    StepsOfHelloWorld();
    BlocksOfHelloWorld();
    HashIs(HELLO_WORLD, 0);
    BlocksAre(0, [], 0x6c6c6568);
    BlocksAre(0, [0x6c6c6568], 0x77202c6f);
    BlocksAre(0, [0x6c6c6568, 0x77202c6f], 0x646c726f);
    assert [] + [0x6c6c6568 as Word] == [0x6c6c6568];
    assert [0x6c6c6568 as Word] + [0x77202c6f] == [0x6c6c6568, 0x77202c6f];
    assert [0x6c6c6568 as Word, 0x77202c6f] + [0x646c726f] == [0x6c6c6568, 0x77202c6f, 0x646c726f];
  }
}
