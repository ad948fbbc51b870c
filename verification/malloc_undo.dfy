/** Undoing the merge of a failed realloc (uncoalesce_was_resvd): when the left neighbour had been
    merged the old tiling comes back; when it had not, an allocated neighbour loses its tag. */
module MallocUndo {
  import opened MallocSizes
  import opened Rings
  import opened HeapInvariant

  // ---------------------------------------------------------------- stores that may be wild

  // A store outside the memory is dropped.
  function Stored(m: Memory, p: int, v: Word): (m': Memory)
    ensures |m'| == |m|
  {
    if 0 <= p < |m| then m[p := v] else m
  }

  // META_PUT on a pointer that may be wrong; pointer sums wrap.
  function StoredMeta(m: Memory, bp: int, tag: Word): (m': Memory)
    requires 0 < bp <= |m|
    ensures |m'| == |m|
  {
    Stored(Stored(m, bp - 1, tag), (bp + SizeOf(tag) / 4 - 2) % (0x4000_0000), tag)
  }

  // free_node on a pointer that may be wrong
  function StoredFree(m: Memory, node: int): (m': Memory)
    requires 0 < node < 0x1_0000_0000 && node <= |m| && m[node - 1] >= MIN_ALLOC && 20 <= |m|
    ensures |m'| == |m|
  {
    var head := Head(ClassOf(m[node - 1]));
    var m1 := Stored(Stored(m, node, m[head]), node + 1, head);
    Stored(Stored(m1, m1[head] as int + 1, node), head, node)
  }

  lemma StoredMetaInv(m: Memory, h: Heap, X: set<int>, E: set<int>, r: int, tag: Word)
    requires Inv(m, h, X, E) && r in h.blk && (h.blk[r].used || r in X) && tag == TagOf(h.blk[r])
    ensures SizeOf(tag) == 4 * h.blk[r].words && FIRST <= r && r + h.blk[r].words <= |m|
    ensures StoredMeta(m, r, tag) == MetaPut(m, r, tag)
    ensures Inv(StoredMeta(m, r, tag), h, X, E - {r})
  {
    hide Spaced, Chained, Tags, Listed, Linked, Coalesced;
    BlockFits(h.blk, h.end, r);
    MetaPutInv(m, h, X, E, r, tag);
  }

  lemma StoredFreeInv(m: Memory, h: Heap, X: set<int>, E: set<int>, node: int)
    requires Inv(m, h, X, E) && node in h.blk && !h.blk[node].used && node in X && node !in E
    requires Coalesced(h.blk, X - {node}) && 20 <= |m|
    ensures 0 < node <= |m| && node < 0x1_0000_0000 && m[node - 1] >= MIN_ALLOC
    ensures Inv(StoredFree(m, node), Freed(h, Class(h.blk[node]), node), X - {node}, E)
    ensures OnlyLinksChange(m, StoredFree(m, node), h.blk)
  {
    assert m[node - 1] == TagOf(h.blk[node]) && Fits(h.blk[node], node, h.end) by {
      BlockFits(h.blk, h.end, node);
      assert Tagged(m, h.blk[node], node);
    }
    assert Class(h.blk[node]) == ClassOf(m[node - 1]);
    hide Spaced, Chained, Tags, Listed, Linked, Coalesced;
    FreeInv(m, h, X, E, node);
    assert StoredFree(m, node) == InsertLinks(m, Head(Class(h.blk[node])), node);
  }

  // ---------------------------------------------------------------- the left neighbour was merged

  /** The tiling before the merge fits the memory again, but for the tags of the three parts. */
  lemma RestoreInv(m: Memory, h: Heap, blk: Blocks, r: int, ptr: int, X: set<int>)
    requires Inv(m, h, {}, {}) && Tiled(blk, h.end) && Coalesced(blk, {})
    requires ptr in blk && blk[ptr].used && LeftEdge(blk, ptr, r) && r != ptr
    requires End(blk, ptr) != r && End(blk, ptr) != ptr
    requires r in h.blk && h.blk[r].used && h.blk == Merged(blk, r, ptr, NextFree(blk, ptr))[r := h.blk[r]]
    requires X == {r} + (if NextFree(blk, ptr) then {End(blk, ptr)} else {})
    ensures Inv(m, h.(blk := blk), X, X + {ptr})
  {
    hide Spaced, Chained, Tags, Listed, Linked, Merged;
    MergedBlocks(blk, h.end, r, ptr, NextFree(blk, ptr));
    BlockFits(blk, h.end, ptr);
    RetileListed(h.blk, blk, h.rings, {}, X);
    RetileTags(m, h, blk, {}, X + {ptr});
    hide LeftEdge;
  }

  /** Nothing the user can see changes: every other allocated block, and the payload of ptr. */
  ghost predicate UserKept(m: Memory, m': Memory, blk: Blocks, ptr: int)
    requires ptr in blk
  {
    |m'| == |m| && LiveKept(m, blk, m', blk, ptr) && PayloadKept(m, m', blk[ptr], ptr)
  }

  lemma UserKeptTrans(m: Memory, m1: Memory, m2: Memory, blk: Blocks, ptr: int)
    requires ptr in blk && UserKept(m, m1, blk, ptr) && UserKept(m1, m2, blk, ptr)
    ensures UserKept(m, m2, blk, ptr)
  {
    LiveKeptTrans(m, blk, m1, blk, m2, blk, ptr);
  }

  lemma MetaUserKept(m: Memory, blk: Blocks, end: int, ptr: int, r: int, tag: Word)
    requires Tiled(blk, end) && end <= |m| && ptr in blk && r in blk && (r == ptr || !blk[r].used)
    requires SizeOf(tag) == 4 * blk[r].words && FIRST <= r && r + blk[r].words <= |m|
    ensures UserKept(m, MetaPut(m, r, tag), blk, ptr)
  {
    var m' := MetaPut(m, r, tag);
    BlockFits(blk, end, r);
    BlockFits(blk, end, ptr);
    forall a | a in blk && blk[a].used && a != ptr ensures BlockKept(m, m', blk[a], a) {
      BlockFits(blk, end, a);
    }
  }

  lemma LinksUserKept(m: Memory, m': Memory, h: Heap, ptr: int)
    requires Tiled(h.blk, h.end) && ptr in h.blk && h.blk[ptr].used && OnlyLinksChange(m, m', h.blk)
    ensures UserKept(m, m', h.blk, ptr)
  {
    LiveFrame(m, m', h, NULL);
    BlockFits(h.blk, h.end, ptr);
    assert BlockKept(m, m', h.blk[ptr], ptr);
  }

  /** Retagging and listing one of the free parts again. */
  lemma PutBack(m: Memory, h: Heap, X: set<int>, E: set<int>, ptr: int, x: int, tag: Word)
    requires Inv(m, h, X, E) && x in h.blk && !h.blk[x].used && x in X && tag == TagOf(h.blk[x]) && 20 <= |m|
    requires Coalesced(h.blk, {}) && ptr in h.blk && h.blk[ptr].used
    ensures 0 < x <= |m| && x < 0x1_0000_0000 && StoredMeta(m, x, tag)[x - 1] >= MIN_ALLOC
    ensures var m' := StoredFree(StoredMeta(m, x, tag), x);
            && 0 <= Class(h.blk[x]) < |h.rings| && |h.rings[Class(h.blk[x])]| > 0
            && Inv(m', Freed(h, Class(h.blk[x]), x), X - {x}, E - {x})
            && UserKept(m, m', h.blk, ptr)
  {
    InvLists(m, h, X, E);
    BlockFits(h.blk, h.end, x);
    hide Spaced, Chained, Tags, Listed, Linked;
    StoredMetaInv(m, h, X, E, x, tag);
    var m1 := StoredMeta(m, x, tag);
    assert Coalesced(h.blk, X - {x});
    hide Coalesced, UserKept, OnlyLinksChange, MetaPut, StoredMeta, StoredFree;
    StoredFreeInv(m1, h, X, E - {x}, x);
    var m' := StoredFree(m1, x);
    MetaUserKept(m, h.blk, h.end, ptr, x, tag);
    LinksUserKept(m1, m', h, ptr);
    UserKeptTrans(m, m1, m', h.blk, ptr);
  }

  // ---------------------------------------------------------------- it was not

  /** No list head points two words below prev, where a store through it would hit prev's header. */
  ghost predicate HeadsAvoid(m: Memory, prev: int) {
    20 <= |m| && forall c :: 0 <= c < NCLASSES ==> m[Head(c)] != prev - 2
  }

  lemma HeadsAvoidStart(m: Memory, h: Heap, prev: int)
    requires Inv(m, h, {}, {}) && (prev == BASE || prev in h.blk) && 20 <= |m|
    ensures HeadsAvoid(m, prev)
  {
    forall c | 0 <= c < NCLASSES ensures m[Head(c)] != prev - 2 {
      WalkStep(m, h, {}, {}, c, 0);
      var ring := h.rings[c];
      var k := if 1 < |ring| then 1 else 0;
      WalkStep(m, h, {}, {}, c, k);
      if prev in h.blk { BlockFits(h.blk, h.end, prev); }
      if k == 1 { BlockFits(h.blk, h.end, ring[1]); }
    }
  }

  /** Parity keeps free_node away from the header at prev - 1. */
  lemma FreeMissesHeader(m: Memory, node: int, prev: int)
    requires HeadsAvoid(m, prev) && node % 2 == 0 && prev % 2 == 0 && BASE <= prev <= node <= |m| < 0x1_0000_0000
    requires m[node - 1] >= MIN_ALLOC
    ensures StoredFree(m, node)[prev - 1] == m[prev - 1]
    ensures HeadsAvoid(StoredFree(m, node), prev)
  {
  }

  lemma MetaMissesHeader(m: Memory, bp: int, tag: Word, prev: int)
    requires HeadsAvoid(m, prev) && bp % 2 == 0 && prev % 2 == 0 && BASE <= prev < bp <= |m| < 0x1_0000_0000
    requires tag % 8 == 0 && tag > 0
    requires (bp + SizeOf(tag) / 4 - 2) % (0x4000_0000) >= prev && (prev > BASE ==> prev >= FIRST)
    ensures StoredMeta(m, bp, tag)[prev - 1] == m[prev - 1] && StoredMeta(m, bp, tag)[bp - 1] == tag
    ensures HeadsAvoid(StoredMeta(m, bp, tag), prev)
  {
  }

  // ---------------------------------------------------------------- the whole of it

  // META_PUT and free_node of one part; a size below every class has no list to go to.
  function PutBackStores(m: Memory, x: int, sz: Word): (m': Memory)
    requires 0 < x <= |m| < 0x1_0000_0000 && 20 <= |m|
    ensures |m'| == |m|
  {
    var m1 := StoredMeta(m, x, sz);
    if sz >= MIN_ALLOC && m1[x - 1] >= MIN_ALLOC then StoredFree(m1, x) else m1
  }

  // PREVBLK
  function PrevAddr(m: Memory, a: int): (p: int)
    requires 2 <= a <= |m|
    ensures a - 0x4000_0000 < p <= a
  {
    a - SizeOf(m[a - 2]) / 4
  }

  ghost predicate UndoSafe(m: Memory, newblk: int, oldblk: int, oldsz: Word) {
    && 20 <= |m| < 0x4000_0000 && 0 < newblk <= |m| && 2 <= oldblk && oldsz % 8 == 0
    && oldblk + oldsz / 4 <= |m|
    && 0 < PrevAddr(StoredMeta(m, oldblk, oldsz + 1), oldblk)
  }

  /** The memory after uncoalesce_was_resvd. */
  function Undone(m: Memory, newblk: int, oldblk: int, oldsz: Word): (m': Memory)
    requires UndoSafe(m, newblk, oldblk, oldsz)
    ensures |m'| == |m|
  {
    var m1 := StoredMeta(m, oldblk, oldsz + 1);
    var prev := PrevAddr(m1, oldblk);
    var prevsz := 4 * (oldblk - prev);
    UndoneParts(m1, prev, prevsz, oldblk + oldsz / 4, NextSize(SizeOf(m[newblk - 1]), oldsz, prevsz))
  }

  // newsz - oldsz - prevsz, in size_t arithmetic
  function NextSize(newsz: Word, oldsz: Word, prevsz: int): Word {
    (newsz - oldsz - prevsz) % 0x1_0000_0000
  }

  function UndoneParts(m: Memory, prev: int, prevsz: Word, next: int, nextsz: Word): (m': Memory)
    requires 0 < prev <= |m| && 0 < next <= |m| && 20 <= |m| < 0x4000_0000
    ensures |m'| == |m|
  {
    var m2 := if prevsz > 0 then PutBackStores(m, prev, prevsz) else m;
    if nextsz > 0 then PutBackStores(m2, next, nextsz) else m2
  }

  lemma UndoneIs(m: Memory, newblk: int, oldblk: int, oldsz: Word, prev: int, newsz: Word)
    requires 20 <= |m| < 0x4000_0000 && 0 < newblk <= |m| && 2 <= oldblk && oldsz % 8 == 0
    requires oldblk + oldsz / 4 <= |m| && SizeOf(m[newblk - 1]) == newsz
    requires PrevAddr(StoredMeta(m, oldblk, oldsz + 1), oldblk) == prev && 0 < prev
    ensures UndoSafe(m, newblk, oldblk, oldsz)
    ensures 0 <= 4 * (oldblk - prev) < 0x1_0000_0000
    ensures Undone(m, newblk, oldblk, oldsz) ==
            UndoneParts(StoredMeta(m, oldblk, oldsz + 1), prev, 4 * (oldblk - prev), oldblk + oldsz / 4,
                        NextSize(newsz, oldsz, 4 * (oldblk - prev)))
  {
    hide StoredMeta, UndoneParts, SizeOf, NextSize, PrevAddr;
  }

  /** Undoing a merge that took in the left neighbour r brings back the tiling from before it, with
      every allocated block as it is. */
  lemma UndoGood(m: Memory, h: Heap, blk: Blocks, r: int, ptr: int) returns (h': Heap)
    requires Inv(m, h, {}, {}) && Tiled(blk, h.end) && Coalesced(blk, {}) && 20 <= |m|
    requires ptr in blk && blk[ptr].used && LeftEdge(blk, ptr, r) && r != ptr
    requires End(blk, ptr) != r && End(blk, ptr) != ptr
    requires r in h.blk && h.blk[r].used && h.blk == Merged(blk, r, ptr, NextFree(blk, ptr))[r := h.blk[r]]
    requires h.blk[r].words == MergedWords(blk, r, ptr, NextFree(blk, ptr))
    requires 2 <= ptr <= |m| && m[ptr - 2] == TagOf(blk[r])
    ensures 0 <= 4 * blk[ptr].words < 0x1_0000_0000 && UndoSafe(m, r, ptr, 4 * blk[ptr].words)
    ensures h'.blk == blk && h'.end == h.end
    ensures Inv(Undone(m, r, ptr, 4 * blk[ptr].words), h', {}, {})
    ensures UserKept(m, Undone(m, r, ptr, 4 * blk[ptr].words), blk, ptr)
  {
    hide Spaced, Chained, Tags, Listed, Linked, Coalesced, Merged, UserKept, PutBackStores;
    var take, next := NextFree(blk, ptr), End(blk, ptr);
    var X := {r} + (if take then {next} else {});
    BlockFits(blk, h.end, ptr);
    BlockFits(blk, h.end, r);
    BlockFits(h.blk, h.end, r);
    RestoreInv(m, h, blk, r, ptr, X);
    var h0 := h.(blk := blk);
    var oldsz: Word := 4 * blk[ptr].words;
    StoredMetaInv(m, h0, X, X + {ptr}, ptr, oldsz + 1);
    assert X + {ptr} - {ptr} == X;
    var m1 := StoredMeta(m, ptr, oldsz + 1);
    MetaUserKept(m, blk, h.end, ptr, ptr, oldsz + 1);
    NextBlock(m, h, r);
    hide Inv;
    h' := UndoParts(m1, h0, r, ptr);
    UserKeptTrans(m, m1, PutBackParts(m1, h0, r, ptr), blk, ptr);
    UndoneIsPutBack(m, blk, r, ptr, h.blk[r].words);
  }

  lemma UndoneIsPutBack(m: Memory, blk: Blocks, r: int, ptr: int, words: int)
    requires ptr in blk && r in blk && End(blk, r) == ptr && words == MergedWords(blk, r, ptr, NextFree(blk, ptr))
    requires 20 <= |m| < 0x4000_0000 && FIRST <= r && blk[r].words >= 4 && blk[r].words % 2 == 0
    requires blk[ptr].words >= 4 && blk[ptr].words % 2 == 0 && End(blk, ptr) <= |m| && words % 2 == 0
    requires NextFree(blk, ptr) ==> blk[End(blk, ptr)].words >= 4 && End(blk, End(blk, ptr)) <= |m|
    requires m[r - 1] == 4 * words + 1 && m[ptr - 2] == 4 * blk[r].words
    ensures UndoSafe(m, r, ptr, 4 * blk[ptr].words)
    ensures Undone(m, r, ptr, 4 * blk[ptr].words) ==
            PutBackParts(StoredMeta(m, ptr, 4 * blk[ptr].words + 1), Heap(blk, [], 0), r, ptr)
  {
    hide PutBackStores, StoredMeta, SizeOf, NextSize, Undone, UndoSafe, PrevAddr;
    var oldsz: Word := 4 * blk[ptr].words;
    TagBits(Block(words, true), m[r - 1]);
    OwnTagPrev(m, ptr, oldsz, blk[r].words);
    UndoneIs(m, r, ptr, oldsz, r, 4 * words);
    NextSizeIs(4 * words, oldsz, 4 * (ptr - r));
  }

  lemma OwnTagPrev(m: Memory, ptr: int, oldsz: Word, prevWords: int)
    requires |m| < 0x4000_0000 && 2 <= ptr && 16 <= oldsz && oldsz % 8 == 0 && ptr + oldsz / 4 <= |m|
    requires 0 <= 4 * prevWords < 0x1_0000_0000 && prevWords % 2 == 0 && m[ptr - 2] == 4 * prevWords
    ensures PrevAddr(StoredMeta(m, ptr, oldsz + 1), ptr) == ptr - prevWords
  {
    TagBits(Block(oldsz / 4, true), oldsz + 1);
    TagBits(Block(prevWords, false), m[ptr - 2]);
    assert StoredMeta(m, ptr, oldsz + 1) == m[ptr - 1 := oldsz + 1][ptr + oldsz / 4 - 2 := oldsz + 1];
  }

  lemma NextSizeIs(newsz: Word, oldsz: Word, prevsz: int)
    requires 0 <= newsz - oldsz - prevsz < 0x1_0000_0000
    ensures NextSize(newsz, oldsz, prevsz) == newsz - oldsz - prevsz
  {
  }

  /** The stores that put the free parts back, by the sizes they have. */
  ghost function PutBackParts(m: Memory, h: Heap, r: int, ptr: int): Memory
    requires r in h.blk && ptr in h.blk && 0 < r <= |m| < 0x1_0000_0000 && 20 <= |m| && 4 <= h.blk[r].words < 0x4000_0000
    requires NextFree(h.blk, ptr) ==> 0 < End(h.blk, ptr) <= |m| && 0 <= h.blk[End(h.blk, ptr)].words < 0x4000_0000
  {
    var m2 := PutBackStores(m, r, 4 * h.blk[r].words);
    if NextFree(h.blk, ptr) then PutBackStores(m2, End(h.blk, ptr), 4 * h.blk[End(h.blk, ptr)].words) else m2
  }

  lemma UndoParts(m: Memory, h: Heap, r: int, ptr: int) returns (h': Heap)
    requires r in h.blk && ptr in h.blk && !h.blk[r].used && h.blk[ptr].used && 20 <= |m|
    requires var X := {r} + (if NextFree(h.blk, ptr) then {End(h.blk, ptr)} else {}); Inv(m, h, X, X)
    requires Coalesced(h.blk, {}) && End(h.blk, ptr) != r
    ensures 0 < r <= |m| < 0x1_0000_0000 && 4 <= h.blk[r].words < 0x4000_0000
    ensures NextFree(h.blk, ptr) ==> 0 < End(h.blk, ptr) <= |m| && 4 <= h.blk[End(h.blk, ptr)].words < 0x4000_0000
    ensures h'.blk == h.blk && h'.end == h.end && Inv(PutBackParts(m, h, r, ptr), h', {}, {})
    ensures UserKept(m, PutBackParts(m, h, r, ptr), h.blk, ptr)
  {
    hide Spaced, Chained, Tags, Listed, Linked, Coalesced, UserKept, PutBackStores, StoredMeta, StoredFree;
    var take, next := NextFree(h.blk, ptr), End(h.blk, ptr);
    var X := {r} + (if take then {next} else {});
    BlockFits(h.blk, h.end, r);
    var prevsz: Word := 4 * h.blk[r].words;
    PutBack(m, h, X, X, ptr, r, prevsz);
    var m2 := PutBackStores(m, r, prevsz);
    PutBackIs(m, r, prevsz);
    var h1 := Freed(h, Class(h.blk[r]), r);
    if take {
      BlockFits(h.blk, h.end, next);
      var nextsz: Word := 4 * h.blk[next].words;
      assert X - {r} == {next} && {next} - {next} == {};
      PutBack(m2, h1, {next}, {next}, ptr, next, nextsz);
      PutBackIs(m2, next, nextsz);
      UserKeptTrans(m, m2, PutBackStores(m2, next, nextsz), h.blk, ptr);
      h' := Freed(h1, Class(h.blk[next]), next);
    } else {
      assert X - {r} == {};
      h' := h1;
    }
  }

  lemma PutBackIs(m: Memory, x: int, sz: Word)
    requires 0 < x <= |m| < 0x1_0000_0000 && 20 <= |m| && sz >= MIN_ALLOC
    requires StoredMeta(m, x, sz)[x - 1] >= MIN_ALLOC
    ensures PutBackStores(m, x, sz) == StoredFree(StoredMeta(m, x, sz), x)
  {
  }

  /** Undoing a merge that did not take in the left neighbour clears that neighbour's allocation
      bit, although the neighbour (or the prologue) was allocated and still is. */
  lemma UndoBad(m: Memory, h: Heap, ptr: int, oldsz: Word)
    requires Inv(m, h, {}, {}) && 20 <= |m| && ptr in h.blk && h.blk[ptr].used && !PrevFree(h.blk, ptr)
    requires oldsz % 8 == 0 && MIN_ALLOC <= oldsz <= 4 * h.blk[ptr].words
    requires 4 * h.blk[ptr].words - oldsz == 0 || 4 * h.blk[ptr].words - oldsz >= MIN_ALLOC
    ensures UndoSafe(m, ptr, ptr, oldsz) && 2 <= ptr <= |m|
    ensures var prev := PrevAddr(m, ptr);
            && 1 <= prev < ptr && Aloc(m[prev - 1])
            && !Aloc(Undone(m, ptr, ptr, oldsz)[prev - 1])
  {
    hide PutBackStores, HeadsAvoid, UndoSafe, Undone, PrevAddr, Aloc, SizeOf, Inv;
    OwnFacts(m, h, ptr);
    HeadsAvoidStart(m, h, PrevAddr(m, ptr));
    UndoBadStores(m, ptr, oldsz, PrevAddr(m, ptr), 4 * h.blk[ptr].words);
  }

  lemma OwnFacts(m: Memory, h: Heap, ptr: int)
    requires Inv(m, h, {}, {}) && ptr in h.blk && !PrevFree(h.blk, ptr)
    ensures 2 <= ptr < |m| < 0x4000_0000 && ptr % 2 == 0 && FIRST <= ptr && ptr + h.blk[ptr].words <= |m|
    ensures SizeOf(m[ptr - 1]) == 4 * h.blk[ptr].words && 4 * h.blk[ptr].words % 8 == 0
    ensures 0 <= 4 * h.blk[ptr].words < 0x1_0000_0000
    ensures var prev := PrevAddr(m, ptr);
            && prev % 2 == 0 && BASE <= prev <= ptr - 4 && (prev == BASE || (prev >= FIRST && prev in h.blk)) && Aloc(m[prev - 1])
  {
    hide Spaced, Chained, Tags, Listed, Linked, Coalesced, Aloc;
    PrevBlock(m, h, ptr);
    NextBlock(m, h, ptr);
    BlockFits(h.blk, h.end, ptr);
    PrevEven(m, h, ptr);
  }

  lemma PutBackMissesHeader(m: Memory, x: int, sz: Word, prev: int)
    requires HeadsAvoid(m, prev) && x % 2 == 0 && prev % 2 == 0 && BASE <= prev < x <= |m| < 0x1_0000_0000
    requires sz % 8 == 0 && sz > 0
    requires (x + SizeOf(sz) / 4 - 2) % (0x4000_0000) >= prev && (prev > BASE ==> prev >= FIRST)
    ensures PutBackStores(m, x, sz)[prev - 1] == m[prev - 1]
  {
    hide HeadsAvoid;
    MetaMissesHeader(m, x, sz, prev);
    if sz >= MIN_ALLOC { FreeMissesHeader(StoredMeta(m, x, sz), x, prev); }
  }

  /** Clearing the left neighbour's tag, and listing it. */
  lemma PrevLosesTag(m: Memory, ptr: int, prev: int)
    requires HeadsAvoid(m, prev) && ptr % 2 == 0 && prev % 2 == 0 && BASE <= prev <= ptr - 4 && ptr <= |m| < 0x4000_0000
    requires ptr >= FIRST
    ensures PutBackStores(m, prev, 4 * (ptr - prev))[prev - 1] == 4 * (ptr - prev)
    ensures HeadsAvoid(PutBackStores(m, prev, 4 * (ptr - prev)), prev)
  {
    var sz: Word := 4 * (ptr - prev);
    var m1 := StoredMeta(m, prev, sz);
    assert SizeOf(sz) == sz;
    assert m1 == m[prev - 1 := sz][ptr - 2 := sz];
    FreeMissesHeader(m1, prev, prev);
  }

  lemma OwnTagStores(m: Memory, ptr: int, oldsz: Word, prev: int)
    requires HeadsAvoid(m, prev) && ptr % 2 == 0 && FIRST <= ptr
    requires oldsz % 8 == 0 && MIN_ALLOC <= oldsz && ptr + oldsz / 4 <= |m| < 0x4000_0000
    ensures HeadsAvoid(StoredMeta(m, ptr, oldsz + 1), prev)
    ensures PrevAddr(StoredMeta(m, ptr, oldsz + 1), ptr) == PrevAddr(m, ptr)
  {
    assert SizeOf(oldsz + 1) == oldsz;
    assert StoredMeta(m, ptr, oldsz + 1) == m[ptr - 1 := oldsz + 1][ptr + oldsz / 4 - 2 := oldsz + 1];
  }

  lemma UndoBadStores(m: Memory, ptr: int, oldsz: Word, prev: int, newsz: Word)
    requires HeadsAvoid(m, prev) && ptr % 2 == 0 && prev % 2 == 0 && FIRST <= ptr
    requires BASE <= prev <= ptr - 4 && (prev > BASE ==> prev >= FIRST)
    requires oldsz % 8 == 0 && newsz % 8 == 0 && MIN_ALLOC <= oldsz <= newsz && ptr + newsz / 4 <= |m| < 0x4000_0000
    requires prev == PrevAddr(m, ptr) && SizeOf(m[ptr - 1]) == newsz
    ensures UndoSafe(m, ptr, ptr, oldsz) && !Aloc(Undone(m, ptr, ptr, oldsz)[prev - 1])
  {
    hide PutBackStores, HeadsAvoid, StoredMeta, SizeOf, NextSize, Undone, UndoSafe, UndoneParts, PrevAddr, Aloc;
    var next, nextsz := ptr + oldsz / 4, NextSize(newsz, oldsz, 4 * (ptr - prev));
    NextEven(ptr, oldsz, newsz, |m|);
    FooterWraps(ptr, oldsz, newsz, prev);
    OwnTagStores(m, ptr, oldsz, prev);
    FooterAfter(next, nextsz, prev, newsz);
    UndoBadParts(StoredMeta(m, ptr, oldsz + 1), ptr, prev, next, nextsz);
    UndoneIs(m, ptr, ptr, oldsz, prev, newsz);
  }

  lemma NextEven(ptr: int, oldsz: int, newsz: int, n: int)
    requires ptr % 2 == 0 && oldsz % 8 == 0 && 16 <= oldsz <= newsz && ptr + newsz / 4 <= n
    ensures (ptr + oldsz / 4) % 2 == 0 && ptr + 4 <= ptr + oldsz / 4 <= n && newsz / 4 >= 4
  {
  }

  lemma FooterAfter(next: int, nextsz: Word, prev: int, newsz: int)
    requires (next + SizeOf(nextsz) / 4 - 2) % (0x4000_0000) == prev + newsz / 4 - 2 && newsz / 4 >= 4
    ensures (next + SizeOf(nextsz) / 4 - 2) % (0x4000_0000) >= prev
  {
  }

  lemma UndoBadParts(m: Memory, ptr: int, prev: int, next: int, nextsz: Word)
    requires HeadsAvoid(m, prev) && ptr % 2 == 0 && prev % 2 == 0 && next % 2 == 0 && FIRST <= ptr < next <= |m|
    requires BASE <= prev <= ptr - 4 && (prev > BASE ==> prev >= FIRST) && |m| < 0x4000_0000 && 20 <= |m|
    requires nextsz % 8 == 0 && (next + SizeOf(nextsz) / 4 - 2) % (0x4000_0000) >= prev
    ensures !Aloc(UndoneParts(m, prev, 4 * (ptr - prev), next, nextsz)[prev - 1])
  {
    hide PutBackStores, HeadsAvoid, SizeOf;
    PrevLosesTag(m, ptr, prev);
    if nextsz > 0 { PutBackMissesHeader(PutBackStores(m, prev, 4 * (ptr - prev)), next, nextsz, prev); }
  }

  lemma FooterWraps(ptr: int, oldsz: Word, newsz: Word, prev: int)
    requires 0 < prev < ptr && prev % 2 == 0 && ptr % 2 == 0
    requires oldsz % 8 == 0 && newsz % 8 == 0 && MIN_ALLOC <= oldsz <= newsz && ptr + newsz / 4 < 0x4000_0000
    ensures var nextsz := NextSize(newsz, oldsz, 4 * (ptr - prev));
            && nextsz % 8 == 0
            && (ptr + oldsz / 4 + SizeOf(nextsz) / 4 - 2) % (0x4000_0000) == prev + newsz / 4 - 2
  {
    var k := newsz / 8 - oldsz / 8 - (ptr / 2 - prev / 2);
    assert -0x2000_0000 < k < 0x2000_0000 && newsz - oldsz - 4 * (ptr - prev) == 8 * k;
    FooterArith(k);
    FooterSum(ptr, oldsz / 8, newsz / 8, prev, k);
  }

  lemma FooterSum(ptr: int, o: int, n: int, prev: int, k: int)
    requires 0 < prev < ptr && ptr % 2 == 0 && prev % 2 == 0 && 2 <= o <= n && ptr + 2 * n < 0x4000_0000
    requires k == n - o - (ptr / 2 - prev / 2)
    ensures (ptr + 2 * o + (2 * k + if k >= 0 then 0 else 0x4000_0000) - 2) % (0x4000_0000) == prev + 2 * n - 2
  {
    assert ptr + 2 * o + 2 * k - 2 == prev + 2 * n - 2;
    if k < 0 { assert (prev + 2 * n - 2 + 0x4000_0000) % (0x4000_0000) == prev + 2 * n - 2; }
  }

  lemma FooterArith(k: int)
    requires -0x2000_0000 < k < 0x2000_0000
    ensures var s := (8 * k) % 0x1_0000_0000;
            && s == 8 * k + (if k >= 0 then 0 else 0x1_0000_0000) && s % 8 == 0 && SizeOf(s) == s
            && SizeOf(s) / 4 == 2 * k + (if k >= 0 then 0 else 0x4000_0000)
  {
    if k >= 0 {
      assert 0 <= 8 * k < 0x1_0000_0000;
    } else {
      assert 0 <= 8 * k + 0x1_0000_0000 < 0x1_0000_0000;
    }
  }

  lemma PrevEven(m: Memory, h: Heap, a: int)
    requires Inv(m, h, {}, {}) && a in h.blk
    ensures 2 <= a < |m| && a % 2 == 0
    ensures var prev := a - SizeOf(m[a - 2]) / 4; prev % 2 == 0 && prev + 4 <= a && (prev == BASE || prev >= FIRST)
  {
    hide Spaced, Chained, Tags, Listed, Linked, Coalesced;
    PrevBlock(m, h, a);
    BlockFits(h.blk, h.end, a);
    if a != FIRST { BlockFits(h.blk, h.end, a - SizeOf(m[a - 2]) / 4); }
  }
}
