/** Sizes, tags and size classes of the segregated-fit allocator (labs/08-malloc/mm.c), for the
    32-bit target: WSIZE = 4, DSIZE = 8, MIN_ALLOC = 16, CHUNKSIZE = 4096. Sizes are in bytes. */
module MallocSizes {
  import opened Bits

  /** A `size_t` (and a pointer) of the 32-bit target. */
  type Word = w: int | 0 <= w < 0x1_0000_0000

  const CHUNKSIZE: Word := 4096
  const MIN_ALLOC: Word := 16
  const NCLASSES: int := 9

  /** The largest request for which neither ALLOC_SIZE nor the rounding in extend_heap wraps. */
  const MAX_REQUEST: Word := 0xFFFF_EFF8

  function Max(x: int, y: int): int {
    if x < y then y else x
  }

  function Min(x: int, y: int): int {
    if x > y then y else x
  }

  // ALIGN: (size + 7) & ~7, in 32-bit arithmetic.
  function Align(size: Word): Word {
    var s := (size + 7) % 0x1_0000_0000;
    s - s % 8
  }

  // ALLOC_SIZE: room for the payload (at least the two list pointers) and the two tags.
  function AllocSize(size: Word): Word {
    Align((Max(8, size) + 8) % 0x1_0000_0000)
  }

  // The rounding of extend_heap: (MAX(CHUNKSIZE, minsize) + 4095) & ~4095.
  function RoundToChunks(minsize: Word): Word {
    var s := (Max(CHUNKSIZE, minsize) + (CHUNKSIZE - 1)) % 0x1_0000_0000;
    s - s % 4096
  }

  // SIZE: the tag with its three low bits masked off.
  function SizeOf(tag: Word): Word {
    tag - tag % 8
  }

  // ALOC
  predicate Aloc(tag: Word) {
    tag % 2 == 1
  }

  /** ALLOC_SIZE leaves room for the payload and both tags exactly when it does not wrap. */
  lemma AllocSizeExact(size: Word)
    ensures AllocSize(size) >= size + 8 <==> size <= 0x1_0000_0000 - 16
    ensures size <= 0x1_0000_0000 - 16 ==>
              AllocSize(size) % 8 == 0 && MIN_ALLOC <= AllocSize(size) < Max(8, size) + 16
  {
    var s := Max(8, size) + 8;
    if s + 7 < 0x1_0000_0000 {
      assert AllocSize(size) == s + 7 - (s + 7) % 8;
    } else {
      assert AllocSize(size) <= 16;
    }
  }

  /** The chunk rounding covers the wanted size exactly when it does not wrap, and then with the fewest chunks. */
  lemma RoundToChunksExact(minsize: Word)
    ensures RoundToChunks(minsize) >= minsize <==> minsize <= 0x1_0000_0000 - CHUNKSIZE
    ensures minsize <= 0x1_0000_0000 - CHUNKSIZE ==>
              RoundToChunks(minsize) % 4096 == 0 && RoundToChunks(minsize) >= CHUNKSIZE
    ensures minsize <= 0x1_0000_0000 - CHUNKSIZE ==> RoundToChunks(minsize) < Max(CHUNKSIZE, minsize) + CHUNKSIZE
  {
    var s := Max(CHUNKSIZE, minsize) + (CHUNKSIZE - 1);
    if s < 0x1_0000_0000 {
      assert RoundToChunks(minsize) == s - s % 4096;
    } else {
      assert RoundToChunks(minsize) < CHUNKSIZE;
    }
  }

  /** MAX_REQUEST is the exact bound below which a request is rounded up without wrapping. */
  lemma MaxRequestExact(size: Word)
    ensures size <= MAX_REQUEST <==>
            size <= 0x1_0000_0000 - 16 && AllocSize(size) <= 0x1_0000_0000 - CHUNKSIZE
  {
    AllocSizeExact(size);
    if size <= 0x1_0000_0000 - 16 {
      var s := Max(8, size) + 8;
      assert AllocSize(size) == s + 7 - (s + 7) % 8;
    }
  }

  lemma ChunkWords(reqsz: int)
    requires reqsz % 4096 == 0 && reqsz >= CHUNKSIZE
    ensures reqsz / 4 % 2 == 0 && reqsz / 4 >= 1024 && reqsz == 4 * (reqsz / 4) && reqsz % 8 == 0 && reqsz % 4 == 0
  {
    var k := reqsz / 4096;
    var w, v := 1024 * k, 512 * k;
    assert reqsz == 4 * w && w == 2 * v;
  }

  // last_set_bit: the position of the highest one bit.
  function LastSetBit(n: nat): nat
    requires n > 0
  {
    if n == 1 then 0 else 1 + LastSetBit(n / 2)
  }

  lemma {:induction false} LastSetBitBounds(n: nat)
    requires n > 0
    ensures Pow2(LastSetBit(n)) <= n < 2 * Pow2(LastSetBit(n))
  {
    if n != 1 {
      LastSetBitBounds(n / 2);
    }
  }

  lemma {:induction false} LastSetBitMonotone(a: nat, b: nat)
    requires 0 < a <= b
    ensures LastSetBit(a) <= LastSetBit(b)
  {
    if a != 1 {
      LastSetBitMonotone(a / 2, b / 2);
    }
  }

  // classof, for the sizes blocks have.
  function ClassOf(size: nat): (c: int)
    requires size >= MIN_ALLOC
    ensures 0 <= c < NCLASSES
  {
    LastSetBitMonotone(MIN_ALLOC, size);
    assert LastSetBit(16) == 4;
    Min(LastSetBit(size) - 4, 8)
  }

  lemma ClassMonotone(a: nat, b: nat)
    requires MIN_ALLOC <= a <= b
    ensures ClassOf(a) <= ClassOf(b)
  {
    LastSetBitMonotone(a, b);
  }

  /** Class c < 8 holds the sizes from 16 * 2^c up to twice that; the last class, 4096 and more. */
  lemma ClassBounds(size: nat)
    requires size >= MIN_ALLOC
    ensures var cls := MIN_ALLOC * Pow2(ClassOf(size));
            cls <= size && (size < 2 * cls || cls == CHUNKSIZE)
  {
    LastSetBitBounds(size);
    Pow2Add(4, ClassOf(size));
    assert Pow2(8) == 256;
    if LastSetBit(size) > 12 {
      Pow2Add(12, LastSetBit(size) - 12);
      assert Pow2(12) == 4096;
    }
  }

  /** The loop bound cls <= CHUNKSIZE stops the class walk after the ninth class. */
  lemma Pow2Class(c: nat)
    requires c <= NCLASSES
    ensures MIN_ALLOC * Pow2(c) <= CHUNKSIZE <==> c < NCLASSES
    ensures Pow2(c + 1) == 2 * Pow2(c)
  {
    assert Pow2(9) == 512;
    if c < 9 {
      Pow2Add(c, 8 - c);
      assert Pow2(8) == 256;
    }
  }
}
