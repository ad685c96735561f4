/** The 32-bit word operations of MurmurHash3. Machine words are bit-vectors, so
    `*` and `+` wrap around and `^`, `|`, `<<`, `>>` are the machine operations.
    Each operation comes with the one that undoes it. */
module MurmurWords {

  type Word = bv32

  function MulC1(x: Word): Word { x * 0xcc9e2d51 }
  function DivC1(x: Word): Word { x * 0xdee13bb1 }
  function MulC2(x: Word): Word { x * 0x1b873593 }
  function DivC2(x: Word): Word { x * 0x56ed309b }
  function MulF1(x: Word): Word { x * 0x85ebca6b }
  function DivF1(x: Word): Word { x * 0xa5cb9243 }
  function MulF2(x: Word): Word { x * 0xc2b2ae35 }
  function DivF2(x: Word): Word { x * 0x7ed1b41d }
  function Scale5(x: Word): Word { x * 5 + 0xe6546b64 }
  function Unscale5(x: Word): Word { (x - 0xe6546b64) * 0xcccccccd }

  function Rotl32(x: Word, r: bv6): Word
    requires 0 < r < 32
  {
    (x << r) | (x >> (32 - r))
  }

  function Xor(x: Word, y: Word): Word { x ^ y }
  function XorShift16(x: Word): Word { x ^ (x >> 16) }
  function XorShift13(x: Word): Word { x ^ (x >> 13) }
  function UnXorShift13(x: Word): Word { x ^ (x >> 13) ^ (x >> 26) }

  /** A multiplication by an odd constant is undone by multiplying by its inverse modulo 2^32. */
  lemma OddMultiplications(x: Word)
    ensures DivC1(MulC1(x)) == x && MulC1(DivC1(x)) == x
    ensures DivC2(MulC2(x)) == x && MulC2(DivC2(x)) == x
  {
    calc { DivC1(MulC1(x)); DivC1(x * 0xcc9e2d51); x; }
    calc { MulC1(DivC1(x)); MulC1(x * 0xdee13bb1); x; }
    calc { DivC2(MulC2(x)); DivC2(x * 0x1b873593); x; }
    calc { MulC2(DivC2(x)); MulC2(x * 0x56ed309b); x; }
  }

  lemma FinaliserMultiplications(x: Word)
    ensures DivF1(MulF1(x)) == x && MulF1(DivF1(x)) == x
    ensures DivF2(MulF2(x)) == x && MulF2(DivF2(x)) == x
  {
    calc { DivF1(MulF1(x)); DivF1(x * 0x85ebca6b); x; }
    calc { MulF1(DivF1(x)); MulF1(x * 0xa5cb9243); x; }
    calc { DivF2(MulF2(x)); DivF2(x * 0xc2b2ae35); x; }
    calc { MulF2(DivF2(x)); MulF2(x * 0x7ed1b41d); x; }
  }

  lemma ScaleInverse(x: Word)
    ensures Unscale5(Scale5(x)) == x && Scale5(Unscale5(x)) == x
  {
    calc { Unscale5(Scale5(x)); Unscale5(x * 5 + 0xe6546b64); x; }
    calc { Scale5(Unscale5(x)); Scale5((x - 0xe6546b64) * 0xcccccccd); x; }
  }

  lemma Rotate15(x: Word)
    ensures Rotl32(Rotl32(x, 15), 17) == x
  {
    calc { Rotl32(Rotl32(x, 15), 17); Rotl32((x << 15) | (x >> 17), 17); x; }
  }

  lemma Rotate17(x: Word)
    ensures Rotl32(Rotl32(x, 17), 15) == x
  {
    calc { Rotl32(Rotl32(x, 17), 15); Rotl32((x << 17) | (x >> 15), 15); x; }
  }

  lemma Rotate13(x: Word)
    ensures Rotl32(Rotl32(x, 13), 19) == x
  {
    calc { Rotl32(Rotl32(x, 13), 19); Rotl32((x << 13) | (x >> 19), 19); x; }
  }

  lemma Rotate19(x: Word)
    ensures Rotl32(Rotl32(x, 19), 13) == x
  {
    calc { Rotl32(Rotl32(x, 19), 13); Rotl32((x << 19) | (x >> 13), 13); x; }
  }

  lemma XorCancels(x: Word, y: Word)
    ensures Xor(Xor(x, y), y) == x
  {
    calc { Xor(Xor(x, y), y); Xor(x ^ y, y); x; }
  }

  lemma XorShifts(x: Word)
    ensures XorShift16(XorShift16(x)) == x
    ensures UnXorShift13(XorShift13(x)) == x && XorShift13(UnXorShift13(x)) == x
  {
    calc { XorShift16(XorShift16(x)); XorShift16(x ^ (x >> 16)); x; }
    calc { UnXorShift13(XorShift13(x)); UnXorShift13(x ^ (x >> 13)); x; }
    calc { XorShift13(UnXorShift13(x)); XorShift13(x ^ (x >> 13) ^ (x >> 26)); x; }
  }

  // ---------------------------------------------------------------------
  // The mixing steps and the finaliser

  function MixKey(k: Word): Word { MulC2(Rotl32(MulC1(k), 15)) }
  function UnmixKey(k: Word): Word { DivC1(Rotl32(DivC2(k), 17)) }

  function Stir(h: Word, m: Word): Word { Scale5(Rotl32(Xor(h, m), 13)) }
  function Unstir(h: Word, m: Word): Word { Xor(Rotl32(Unscale5(h), 19), m) }

  function Finalise(h: Word): Word { XorShift16(MulF2(XorShift13(MulF1(XorShift16(h))))) }
  function Unfinalise(h: Word): Word { XorShift16(DivF1(UnXorShift13(DivF2(XorShift16(h))))) }

  lemma MixKeyInverse(k: Word)
    ensures UnmixKey(MixKey(k)) == k && MixKey(UnmixKey(k)) == k
  {
    OddMultiplications(k); Rotate15(MulC1(k)); OddMultiplications(Rotl32(MulC1(k), 15));
    Rotate17(DivC2(k)); OddMultiplications(Rotl32(DivC2(k), 17));
  }

  lemma StirInverse(h: Word, m: Word)
    ensures Unstir(Stir(h, m), m) == h && Stir(Unstir(h, m), m) == h
  {
    ScaleInverse(Rotl32(Xor(h, m), 13)); Rotate13(Xor(h, m)); XorCancels(h, m);
    XorCancels(Rotl32(Unscale5(h), 19), m); Rotate19(Unscale5(h)); ScaleInverse(h);
  }

  lemma FinaliseInverse(h: Word)
    ensures Unfinalise(Finalise(h)) == h && Finalise(Unfinalise(h)) == h
  {
    var a := XorShift16(h);
    XorShifts(h);
    FinaliserMultiplications(a); XorShifts(MulF1(a)); FinaliserMultiplications(XorShift13(MulF1(a)));
    XorShifts(MulF2(XorShift13(MulF1(a))));
    XorShifts(DivF2(a)); FinaliserMultiplications(UnXorShift13(DivF2(a))); XorShifts(DivF1(UnXorShift13(DivF2(a))));
  }

  lemma XorCommutes(x: Word, y: Word)
    ensures Xor(x, y) == Xor(y, x)
  {
  }

  lemma XorInjective(x: Word, y: Word, y': Word)
    ensures Xor(x, y) == Xor(x, y') ==> y == y'
    ensures Xor(y, x) == Xor(y', x) ==> y == y'
  {
    hide Xor;
    XorCommutes(x, y); XorCommutes(x, y');
    XorCancels(y, x); XorCancels(y', x);
  }

  /** A hash state absorbs different words into different states. */
  lemma StirInjective(h: Word, m: Word, m': Word)
    ensures Stir(h, m) == Stir(h, m') ==> m == m'
  {
    ScaleInverse(Rotl32(Xor(h, m), 13)); ScaleInverse(Rotl32(Xor(h, m'), 13));
    Rotate13(Xor(h, m)); Rotate13(Xor(h, m'));
    XorInjective(h, m, m');
  }
}

/** MurmurHash3_x86_32, the hash that turns a collection name into a collection
    ID. Blocks are read little-endian. */
module Murmur3 {
  import opened MurmurWords

  type Bytes = seq<bv8>

  /** The length of a key is an `int` in the source. */
  const KEY_LENGTH_LIMIT: nat := 0x8000_0000

  function Block(b0: bv8, b1: bv8, b2: bv8, b3: bv8): Word {
    (b0 as Word) | ((b1 as Word) << 8) | ((b2 as Word) << 16) | ((b3 as Word) << 24)
  }

  lemma BlockInjective(b0: bv8, b1: bv8, b2: bv8, b3: bv8, c0: bv8, c1: bv8, c2: bv8, c3: bv8)
    ensures Block(b0, b1, b2, b3) == Block(c0, c1, c2, c3) ==> b0 == c0 && b1 == c1 && b2 == c2 && b3 == c3
  {
  }

  /** Byte `j` of the key, or zero past its end. */
  function ByteAt(key: Bytes, j: nat): bv8 { if j < |key| then key[j] else 0 }

  /** Chunk `i` of a key: four bytes, the last chunk padded with zeros. */
  function Chunk(key: Bytes, i: nat): Word {
    Block(ByteAt(key, 4 * i), ByteAt(key, 4 * i + 1), ByteAt(key, 4 * i + 2), ByteAt(key, 4 * i + 3))
  }

  function Chunks(key: Bytes, n: nat): (ks: seq<Word>)
    ensures |ks| == n
  {
    seq(n, i requires 0 <= i < n => Chunk(key, i))
  }

  /** The reference definition of the body: a left fold over the full blocks. */
  function FoldBlocks(h: Word, ks: seq<Word>): Word
    decreases |ks|
  {
    if ks == [] then h else FoldBlocks(Stir(h, MixKey(ks[0])), ks[1..])
  }

  function UnfoldBlocks(h: Word, ks: seq<Word>): Word
    decreases |ks|
  {
    if ks == [] then h else Unstir(UnfoldBlocks(h, ks[1..]), MixKey(ks[0]))
  }

  /** The tail is absorbed without the rotation and the scaling of a full block. */
  function AbsorbTail(h: Word, tail: seq<Word>): Word {
    if tail == [] then h else Xor(h, MixKey(tail[0]))
  }

  function HashWords(seed: Word, blocks: seq<Word>, tail: seq<Word>, length: Word): Word {
    Finalise(Xor(AbsorbTail(FoldBlocks(seed, blocks), tail), length))
  }

  function UnhashWords(hash: Word, blocks: seq<Word>, tail: seq<Word>, length: Word): Word {
    UnfoldBlocks(AbsorbTail(Xor(Unfinalise(hash), length), tail), blocks)
  }

  function TailChunk(key: Bytes): seq<Word> {
    if |key| % 4 == 0 then [] else [Chunk(key, |key| / 4)]
  }

  function Hash(key: Bytes, seed: Word): Word
    requires |key| < KEY_LENGTH_LIMIT
  {
    HashWords(seed, Chunks(key, |key| / 4), TailChunk(key), |key| as Word)
  }

  /** The seed from which `key` hashes to `hash`. */
  function SeedOf(key: Bytes, hash: Word): Word
    requires |key| < KEY_LENGTH_LIMIT
  {
    UnhashWords(hash, Chunks(key, |key| / 4), TailChunk(key), |key| as Word)
  }

  lemma {:induction false} FoldSnoc(h: Word, ks: seq<Word>, k: Word)
    ensures FoldBlocks(h, ks + [k]) == Stir(FoldBlocks(h, ks), MixKey(k))
    decreases |ks|
  {
    if ks == [] {
      assert FoldBlocks(h, [k]) == FoldBlocks(Stir(h, MixKey(k)), []);
    } else {
      assert (ks + [k])[1..] == ks[1..] + [k];
      FoldSnoc(Stir(h, MixKey(ks[0])), ks[1..], k);
    }
  }

  // The steps of the switch, as functions, so that each is one symbol to the prover
  function Xor0(k: Word, b: bv8): Word { k ^ (b as Word) }
  function Xor8(k: Word, b: bv8): Word { k ^ ((b as Word) << 8) }
  function Xor16(k: Word, b: bv8): Word { k ^ ((b as Word) << 16) }

  lemma Tail1(b0: bv8)
    ensures Xor0(0, b0) == Block(b0, 0, 0, 0)
  {
  }

  lemma Tail2(b0: bv8, b1: bv8)
    ensures Xor0(Xor8(0, b1), b0) == Block(b0, b1, 0, 0)
  {
    calc { Xor0(Xor8(0, b1), b0); Xor0((b1 as Word) << 8, b0); Block(b0, b1, 0, 0); }
  }

  lemma Tail3(b0: bv8, b1: bv8, b2: bv8)
    ensures Xor0(Xor8(Xor16(0, b2), b1), b0) == Block(b0, b1, b2, 0)
  {
    calc {
      Xor0(Xor8(Xor16(0, b2), b1), b0);
      Xor0(Xor8((b2 as Word) << 16, b1), b0);
      Xor0(((b2 as Word) << 16) ^ ((b1 as Word) << 8), b0);
      Block(b0, b1, b2, 0);
    }
  }

  /** The six statements of the loop body. */
  method AbsorbBlock(h: Word, k: Word) returns (h1: Word)
    ensures h1 == Stir(h, MixKey(k))
  {
    var k1 := Mix(k);
    h1 := Xor(h, k1);
    h1 := Rotl32(h1, 13);
    h1 := Scale5(h1);
  }

  method Mix(k: Word) returns (k1: Word)
    ensures k1 == MixKey(k)
  {
    k1 := MulC1(k);
    k1 := Rotl32(k1, 15);
    k1 := MulC2(k1);
  }

  /** The switch over the remaining bytes, falling through from 3 to 1, builds
      the zero-padded chunk. */
  method ReadTail(key: Bytes) returns (k1: Word)
    requires |key| % 4 != 0
    ensures k1 == Chunk(key, |key| / 4)
  {
    var tail := key[|key| / 4 * 4..];
    if |tail| == 3 {
      Tail3(tail[0], tail[1], tail[2]);
    } else if |tail| == 2 {
      Tail2(tail[0], tail[1]);
    } else {
      Tail1(tail[0]);
    }
    k1 := 0;
    if |tail| == 3 {
      k1 := Xor16(k1, tail[2]);
    }
    if |tail| >= 2 {
      k1 := Xor8(k1, tail[1]);
    }
    k1 := Xor0(k1, tail[0]);
  }

  /** The loop counts the block index from -nblocks up to 0, relative to the end
      of the full blocks. */
  method MurmurHash3_x86_32(key: Bytes, seed: Word) returns (out: Word)
    requires |key| < KEY_LENGTH_LIMIT
    ensures out == Hash(key, seed)
  {
    var nblocks := |key| / 4;
    var h1 := seed;
    var i := -nblocks;
    while i != 0
      invariant -nblocks <= i <= 0
      invariant h1 == FoldBlocks(seed, Chunks(key, nblocks + i))
      decreases -i
    {
      h1 := AbsorbBlock(h1, Chunk(key, nblocks + i));
      FoldSnoc(seed, Chunks(key, nblocks + i), Chunk(key, nblocks + i));
      assert Chunks(key, nblocks + i + 1) == Chunks(key, nblocks + i) + [Chunk(key, nblocks + i)];
      i := i + 1;
    }
    if |key| % 4 != 0 {
      var k1 := ReadTail(key);
      k1 := Mix(k1);
      h1 := Xor(h1, k1);
    }
    h1 := Xor(h1, |key| as Word);
    out := Finalise(h1);
  }

  // ---------------------------------------------------------------------
  // For a fixed key the hash is a bijection of the seed

  lemma {:induction false} FoldInverse(h: Word, ks: seq<Word>)
    ensures UnfoldBlocks(FoldBlocks(h, ks), ks) == h && FoldBlocks(UnfoldBlocks(h, ks), ks) == h
    decreases |ks|
  {
    if ks != [] {
      var m := MixKey(ks[0]);
      FoldInverse(Stir(h, m), ks[1..]);
      StirInverse(h, m);
      FoldInverse(h, ks[1..]);
      StirInverse(UnfoldBlocks(h, ks[1..]), m);
    }
  }

  lemma TailCancels(h: Word, tail: seq<Word>)
    ensures AbsorbTail(AbsorbTail(h, tail), tail) == h
  {
    if tail != [] {
      XorCancels(h, MixKey(tail[0]));
    }
  }

  lemma HashWordsInverse(seed: Word, hash: Word, ks: seq<Word>, tail: seq<Word>, l: Word)
    ensures UnhashWords(HashWords(seed, ks, tail, l), ks, tail, l) == seed
    ensures HashWords(UnhashWords(hash, ks, tail, l), ks, tail, l) == hash
  {
    var h := FoldBlocks(seed, ks);
    FinaliseInverse(Xor(AbsorbTail(h, tail), l)); XorCancels(AbsorbTail(h, tail), l);
    TailCancels(h, tail); FoldInverse(seed, ks);
    var t := Xor(Unfinalise(hash), l);
    FoldInverse(AbsorbTail(t, tail), ks); TailCancels(t, tail);
    XorCancels(Unfinalise(hash), l); FinaliseInverse(hash);
  }

  lemma SeedBijection(key: Bytes, seed: Word, hash: Word)
    requires |key| < KEY_LENGTH_LIMIT
    ensures SeedOf(key, Hash(key, seed)) == seed
    ensures Hash(key, SeedOf(key, hash)) == hash
  {
    HashWordsInverse(seed, hash, Chunks(key, |key| / 4), TailChunk(key), |key| as Word);
  }

  // ---------------------------------------------------------------------
  // Keys of equal length that differ in one chunk never collide

  lemma {:induction false} FoldDiffers(h: Word, ks: seq<Word>, ks': seq<Word>, c: nat)
    requires |ks| == |ks'| && c < |ks|
    requires forall i :: 0 <= i < |ks| ==> (ks[i] != ks'[i] <==> i == c)
    ensures FoldBlocks(h, ks) != FoldBlocks(h, ks')
    decreases |ks|
  {
    var s, s' := Stir(h, MixKey(ks[0])), Stir(h, MixKey(ks'[0]));
    if c == 0 {
      MixKeyInverse(ks[0]); MixKeyInverse(ks'[0]);
      StirInjective(h, MixKey(ks[0]), MixKey(ks'[0]));
      assert ks[1..] == ks'[1..];
      FoldInverse(s, ks[1..]);
      FoldInverse(s', ks[1..]);
    } else {
      FoldDiffers(s, ks[1..], ks'[1..], c - 1);
    }
  }

  lemma TailDiffers(h: Word, h': Word, tail: seq<Word>, tail': seq<Word>)
    requires |tail| == |tail'| <= 1
    requires (h == h' && tail != tail') || (h != h' && tail == tail')
    ensures AbsorbTail(h, tail) != AbsorbTail(h', tail')
  {
    if tail != [] {
      MixKeyInverse(tail[0]); MixKeyInverse(tail'[0]);
      XorInjective(h, MixKey(tail[0]), MixKey(tail'[0]));
      XorInjective(MixKey(tail[0]), h, h');
    }
  }

  lemma FinaliseInjective(t: Word, t': Word, l: Word)
    requires t != t'
    ensures Finalise(Xor(t, l)) != Finalise(Xor(t', l))
  {
    FinaliseInverse(Xor(t, l)); FinaliseInverse(Xor(t', l));
    XorInjective(l, t, t');
  }

  /** Chunk `i` depends on bytes 4i .. 4i+3 only, and determines them. */
  lemma ChunkEquality(a: Bytes, b: Bytes, i: nat)
    requires |a| == |b|
    ensures Chunk(a, i) == Chunk(b, i) <==> forall j :: 0 <= j < |a| && j / 4 == i ==> a[j] == b[j]
  {
    BlockInjective(ByteAt(a, 4 * i), ByteAt(a, 4 * i + 1), ByteAt(a, 4 * i + 2), ByteAt(a, 4 * i + 3),
                   ByteAt(b, 4 * i), ByteAt(b, 4 * i + 1), ByteAt(b, 4 * i + 2), ByteAt(b, 4 * i + 3));
    if Chunk(a, i) == Chunk(b, i) {
      forall j | 0 <= j < |a| && j / 4 == i ensures a[j] == b[j] {
        assert j == 4 * i || j == 4 * i + 1 || j == 4 * i + 2 || j == 4 * i + 3;
        assert a[j] == ByteAt(a, j) && b[j] == ByteAt(b, j);
      }
    }
  }

  lemma WordsDiffer(seed: Word, ks: seq<Word>, ks': seq<Word>, tail: seq<Word>, tail': seq<Word>, l: Word, c: nat)
    requires |ks| == |ks'| && |tail| == |tail'| <= 1 && c < |ks| + |tail|
    requires forall i :: 0 <= i < |ks| ==> (ks[i] != ks'[i] <==> i == c)
    requires tail != tail' <==> c == |ks|
    ensures HashWords(seed, ks, tail, l) != HashWords(seed, ks', tail', l)
  {
    if c < |ks| {
      FoldDiffers(seed, ks, ks', c);
    } else {
      assert ks == ks';
    }
    TailDiffers(FoldBlocks(seed, ks), FoldBlocks(seed, ks'), tail, tail');
    FinaliseInjective(AbsorbTail(FoldBlocks(seed, ks), tail), AbsorbTail(FoldBlocks(seed, ks'), tail'), l);
  }

  /** The collision theorem: one differing 4-byte block, or a differing tail, always
      changes the hash. */
  lemma OneChunkNeverCollides(a: Bytes, b: Bytes, seed: Word, c: nat)
    requires |a| == |b| < KEY_LENGTH_LIMIT && a != b
    requires forall j :: 0 <= j < |a| && j / 4 != c ==> a[j] == b[j]
    ensures Hash(a, seed) != Hash(b, seed)
  {
    var n := |a| / 4;
    forall i | 0 <= i <= n ensures Chunk(a, i) != Chunk(b, i) <==> i == c {
      ChunkEquality(a, b, i);
    }
    WordsDiffer(seed, Chunks(a, n), Chunks(b, n), TailChunk(a), TailChunk(b), |a| as Word, c);
  }

  /** Names of equal length, at most four bytes, have the same ID exactly when they are equal. */
  lemma ShortKeysAreDistinct(a: Bytes, b: Bytes, seed: Word)
    requires |a| == |b| <= 4
    ensures Hash(a, seed) == Hash(b, seed) <==> a == b
  {
    if a != b {
      OneChunkNeverCollides(a, b, seed, 0);
    }
  }
}
