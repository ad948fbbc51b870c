/** The allocator itself: mm_init, mm_malloc, mm_free and mm_realloc, over a memory that a bounded
    break grows into. */
module Malloc {
  import opened Bits
  import opened MallocSizes
  import opened Rings
  import opened HeapInvariant
  import opened MallocUndo
  import opened ReallocSpec

  const MAX_HEAP: Word := 20971520
  const LIMIT: int := BASE + MAX_HEAP / 4      // mem_max_addr

  /** The break cannot move far enough for a block of `size` bytes at the end of the heap. */
  ghost predicate BreakStuck(blk: Blocks, end: int, size: Word)
    requires 0 <= size - TailBytes(blk, end) < 0x1_0000_0000
  {
    end + RoundToChunks(size - TailBytes(blk, end)) / 4 > LIMIT
  }

  /** A reserved block r of at least `size` bytes has been found in, or added to, heap h0; whatever
      was allocated stays as it was, and whatever had no free neighbour gets none but r. */
  ghost predicate HandsOut(m0: Memory, h0: Heap, m: Memory, h: Heap, r: int, size: int) {
    && r in h.blk && !h.blk[r].used && 4 * h.blk[r].words >= size && Isolated(h.blk, r) && r >= FIRST
    && LiveKept(m0, h0.blk, m, h.blk, NULL) && Live(h.blk) == Live(h0.blk)
    && (forall a :: a in h0.blk && h0.blk[a].used && Isolated(h0.blk, a) ==> IsolatedBut(h.blk, a, r) && End(h.blk, r) != a)
  }

  lemma ExtendHandsOut(m0: Memory, h0: Heap, m1: Memory, h1: Heap, m: Memory, h: Heap, words: int, r: int, size: int)
    requires Inv(m0, h0, {}, {}) && words >= 4 && words % 2 == 0 && h1 == Extended(h0, words)
    requires h0.end in h1.blk && LeftEdge(h1.blk, h0.end, r) && size <= 4 * words + TailBytes(h0.blk, h0.end)
    requires End(h1.blk, h0.end) != r && End(h1.blk, h0.end) != h0.end
    requires h.blk == Merged(h1.blk, r, h0.end, NextFree(h1.blk, h0.end)) && r in h.blk && Isolated(h.blk, r)
    requires |m0| == |m1| == |m|
    requires LiveKept(m0, h0.blk, m1, h1.blk, NULL) && LiveKept(m1, h1.blk, m, h.blk, h0.end)
    requires Live(h1.blk) == Live(h0.blk)
    ensures HandsOut(m0, h0, m, h, r, size) && r != NULL
  {
    hide Merged, LiveKept, Live, Isolated, IsolatedBut, LeftEdge, Spaced, Chained, Listed, Linked, Tags, TailBytes;
    InvTiled(m0, h0, {}, {});
    ExtendResult(h0, h1, words, r, size);
    ExtendResultIsolation(h0, h1, words, r);
    LiveKeptNotUsed(m1, h1.blk, m, h.blk, h0.end);
    LiveKeptTrans(m0, h0.blk, m1, h1.blk, m, h.blk, NULL);
    forall a | a in h0.blk ensures a != End(h.blk, r) { BlockFits(h0.blk, h0.end, a); }
  }

  /** The heap has been given whole chunks, no more than its need of `bytes` bytes takes, and r is a free block to its
      end: with the free block that ended at the old break, if there was one. */
  ghost predicate Grew(h0: Heap, h: Heap, r: int, bytes: int) {
    && LeftEdge(h0.blk, h0.end, r) && r in h.blk && End(h.blk, r) == h.end && 4 * h.blk[r].words >= bytes
    && var chunks := h.end - h0.end;
       chunks % 1024 == 0 && 1024 <= chunks && (chunks == 1024 || 4 * (h.end - 1024 - r) < bytes)
  }

  lemma ExtendGrows(h0: Heap, h1: Heap, h: Heap, words: int, r: int, size: int)
    requires Tiled(h0.blk, h0.end) && words >= 1024 && words % 1024 == 0 && h1 == Extended(h0, words)
    requires h0.end in h1.blk && LeftEdge(h1.blk, h0.end, r) && size <= 4 * words + TailBytes(h0.blk, h0.end)
    requires words == 1024 || 4 * (words - 1024) + TailBytes(h0.blk, h0.end) < size
    requires h.blk == Merged(h1.blk, r, h0.end, NextFree(h1.blk, h0.end)) && h.end == h1.end
    ensures Grew(h0, h, r, size)
  {
    hide Merged, TailBytes;
    assert words % 2 == 0 by { assert words == 2 * (512 * (words / 1024)); }
    ExtendResult(h0, h1, words, r, size);
    ExtendTail(h0, words, r);
    ExtendEdge(h0, words, r);
    hide Spaced, Chained;
  }

  /** New memory past the break does not change what ends at the break. */
  lemma ExtendEdge(h0: Heap, words: int, r: int)
    requires Tiled(h0.blk, h0.end) && words >= 4 && words % 2 == 0 && LeftEdge(Extended(h0, words).blk, h0.end, r)
    ensures LeftEdge(h0.blk, h0.end, r) && (r != h0.end ==> End(h0.blk, r) == h0.end)
  {
    var b1 := Extended(h0, words).blk;
    ExtendTiled(h0.blk, h0.end, words);
    forall p | p in h0.blk ensures p in b1 && b1[p] == h0.blk[p] && End(b1, p) == End(h0.blk, p) {}
    hide Spaced, Chained;
  }

  /** Neither a free block nor the break can serve a block of `size` bytes. */
  ghost predicate CannotServe(blk: Blocks, end: int, size: Word) {
    NoFit(blk, size) && 0 <= size - TailBytes(blk, end) < 0x1_0000_0000 && BreakStuck(blk, end, size)
  }

  /** Block r of at least `size` bytes was free memory and is now allocated; every allocated block
      is as it was, and what had no free neighbour still has none. */
  ghost predicate Allocates(m0: Memory, h0: Heap, m: Memory, h: Heap, r: int, size: int) {
    && r >= FIRST && r !in Live(h0.blk) && r in h.blk && h.blk[r].used && 4 * h.blk[r].words >= size
    && Live(h.blk) == Live(h0.blk)[r := h.blk[r].words - 2]
    && LiveKept(m0, h0.blk, m, h.blk, NULL)
    && (forall a :: a in h0.blk && h0.blk[a].used && Isolated(h0.blk, a) ==> a in h.blk && Isolated(h.blk, a))
  }

  /** Taking a free block off its list hands it out. */
  lemma FoundHandsOut(m0: Memory, h0: Heap, m: Memory, h: Heap, r: int, size: int)
    requires Inv(m0, h0, {}, {}) && h.blk == h0.blk && OnlyLinksChange(m0, m, h0.blk)
    requires r in h0.blk && !h0.blk[r].used && 4 * h0.blk[r].words >= size
    ensures HandsOut(m0, h0, m, h, r, size)
  {
    hide Spaced, Chained, Tags, Listed, Linked;
    BlockFits(h0.blk, h0.end, r);
    FreeIsIsolated(h0.blk, r);
    LiveFrame(m0, m, h0, NULL);
  }

  /** Trimming the block handed out allocates it. */
  lemma TrimAllocates(m0: Memory, h0: Heap, m1: Memory, h1: Heap, m: Memory, h: Heap, r: int, size: int)
    requires HandsOut(m0, h0, m1, h1, r, size) && Tiled(h1.blk, h1.end) && size % 8 == 0 && size >= MIN_ALLOC
    requires h.blk == Trimmed(h1.blk, r, size / 4) && LiveKept(m1, h1.blk, m, h.blk, r)
    requires |m0| == |m1| == |m|
    ensures Allocates(m0, h0, m, h, r, size)
  {
    hide Spaced, Chained, Isolated, LiveKept, Trimmed, IsolatedBut, Live;
    LiveMembers(h0.blk);
    LiveMembers(h1.blk);
    TrimmedLive(h1.blk, h1.end, r, size / 4);
    LiveKeptNotUsed(m1, h1.blk, m, h.blk, r);
    LiveKeptTrans(m0, h0.blk, m1, h1.blk, m, h.blk, NULL);
    assert r !in Live(h1.blk);
    forall a | a in h0.blk && h0.blk[a].used && Isolated(h0.blk, a) ensures a in h.blk && Isolated(h.blk, a) {
      assert a in Live(h0.blk) && a in Live(h1.blk);
      TrimmedIsolation(h1.blk, h1.end, r, size / 4, a);
    }
  }

  /** Node k of list c is the first fit: nothing before it in class and list order is big enough. */
  ghost predicate FirstFitAt(h: Heap, size: int, c: int, k: int)
    requires |h.rings| == NCLASSES && size >= MIN_ALLOC
  {
    && ClassOf(size) <= c < NCLASSES && 0 < k < |h.rings[c]|
    && !TooSmall(h, size, c, k) && ScannedTo(h, size, c, k) && Scanned(h, size, c)
  }

  /** Block r is the first fit for a block of `size` bytes, and is used where it stands: its front is allocated,
      and its tail split off when that can hold a block. */
  ghost predicate Placed(h0: Heap, h: Heap, r: int, size: int)
    requires size >= MIN_ALLOC
  {
    && r in h0.blk && !h0.blk[r].used && 4 * h0.blk[r].words >= size
    && h.blk == Trimmed(h0.blk, r, size / 4) && h.end == h0.end && Carved(h.blk, r, h0.blk[r].words, size / 4)
    && |h0.rings| == NCLASSES && exists c, k :: FirstFitAt(h0, size, c, k) && h0.rings[c][k] == r
  }

  /** No block fitted: the heap grew by the fewest chunks for a block of `size` bytes, and block r is cut from the front
      of the memory at its end. */
  ghost predicate PlacedNew(h0: Heap, h: Heap, r: int, size: int) {
    && LeftEdge(h0.blk, h0.end, r) && Carved(h.blk, r, h.end - r, size / 4) && 4 * (h.end - r) >= size
    && var chunks := h.end - h0.end;
       chunks % 1024 == 0 && 1024 <= chunks && (chunks == 1024 || 4 * (h.end - 1024 - r) < size)
  }

  /** What mm_malloc promises about a block of `size` bytes it returns: 8-aligned (an even word
      index), not live before, live now with room for `size` bytes, and no other payload changed. */
  ghost predicate Granted(m0: Memory, h0: Heap, m: Memory, h: Heap, r: int, size: int) {
    && r % 2 == 0 && r !in Live(h0.blk) && r in Live(h.blk) && 4 * Live(h.blk)[r] >= size
    && Live(h.blk) == Live(h0.blk)[r := Live(h.blk)[r]]
    && LiveKept(m0, h0.blk, m, h.blk, NULL)
  }

  lemma AllocatesGrants(m0: Memory, h0: Heap, m: Memory, h: Heap, r: int, size: Word)
    requires Inv(m, h, {}, {}) && size <= MAX_REQUEST && Allocates(m0, h0, m, h, r, AllocSize(size))
    ensures Granted(m0, h0, m, h, r, size)
  {
    hide Spaced, Chained, Tags, Listed, Linked, Coalesced, LiveKept, Isolated;
    BlockFits(h.blk, h.end, r);
    AllocSizeExact(size);
  }

  /** Coalescing and listing a block takes exactly its payload out of the live ones. */
  lemma FreedLive(m0: Memory, h0: Heap, m1: Memory, h1: Heap, m: Memory, ptr: int, r: int)
    requires Inv(m0, h0, {}, {}) && ptr in h0.blk && LeftEdge(h0.blk, ptr, r)
    requires End(h0.blk, ptr) != r && End(h0.blk, ptr) != ptr
    requires h1.blk == Merged(h0.blk, r, ptr, NextFree(h0.blk, ptr)) && h1.end == h0.end
    requires LiveKept(m0, h0.blk, m1, h1.blk, ptr)
    requires Inv(m1, h1, {r}, {}) && OnlyLinksChange(m1, m, h1.blk) && |m0| == |m1|
    ensures Live(h1.blk) == Live(h0.blk) - {ptr}
    ensures LiveKept(m0, h0.blk, m, h1.blk, ptr)
  {
    hide Spaced, Chained, Tags, Listed, Linked, Coalesced, Merged, LiveKept, OnlyLinksChange, LeftEdge, Live;
    MergedLive(h0.blk, h0.end, r, ptr);
    LiveFrame(m1, m, h1, ptr);
    LengthKept(m1, m, h1.blk);
    LiveKeptTrans(m0, h0.blk, m1, h1.blk, m, h1.blk, ptr);
  }

  /** The block allocated while r is held lies beside r, and r keeps its words and neighbours. */
  lemma AllocatesBeside(m1: Memory, h1: Heap, m2: Memory, h2: Heap, newptr: int, r: int, size: Word)
    requires Allocates(m1, h1, m2, h2, newptr, size) && Inv(m1, h1, {}, {}) && Inv(m2, h2, {}, {}) && |m1| == |m2|
    requires r in h1.blk && h1.blk[r].used && Isolated(h1.blk, r)
    ensures newptr != NULL && newptr % 2 == 0 && newptr in h2.blk && h2.blk[newptr].used && newptr !in Live(h1.blk)
    ensures newptr in Live(h2.blk) && 4 * Live(h2.blk)[newptr] + 8 >= size && 4 * h2.blk[newptr].words >= size
    ensures Live(h2.blk) == Live(h1.blk)[newptr := Live(h2.blk)[newptr]]
    ensures r in h2.blk && h2.blk[r] == h1.blk[r] && Isolated(h2.blk, r) && newptr != r
    ensures newptr + h2.blk[newptr].words <= r || r + h2.blk[r].words <= newptr
    ensures 0 <= newptr && newptr + h2.blk[newptr].words <= |m2| && 0 <= r && r + h1.blk[r].words <= |m2|
    ensures LiveKept(m1, h1.blk, m2, h2.blk, NULL)
    ensures forall p :: r <= p < r + h1.blk[r].words - 2 && 0 <= p < |m1| ==> m2[p] == m1[p]
  {
    hide Isolated, Chained, Tags, Listed, Linked, Coalesced;
    BlockFits(h1.blk, h1.end, r);
    BlockFits(h2.blk, h2.end, newptr);
    assert r in h2.blk && h2.blk[r] == h1.blk[r] && BlockKept(m1, m2, h1.blk[r], r);
    assert newptr != r by { LiveMembers(h1.blk); }
    PairSpaced(h2.blk, h2.end, newptr, r);
    hide Spaced;
  }

  /** The memory and blocks after the move, as the caller sees them. */
  lemma MoveResult(m0: Memory, b0: Blocks, m1: Memory, b1: Blocks, m2: Memory, h2: Heap, m3: Memory, m4: Memory,
                   b4: Blocks, r: int, ptr: int, n: int, newptr: int)
    requires |m0| == |m1| == |m2| == |m3| == |m4| && r in b1 && newptr in h2.blk && newptr != r
    requires r !in Live(b0) && Live(b1) == Live(b0)[r := b1[r].words - 2] && LiveKept(m0, b0, m1, b1, NULL)
    requires newptr !in Live(b1) && newptr in Live(h2.blk) && Live(h2.blk) == Live(b1)[newptr := Live(h2.blk)[newptr]]
    requires LiveKept(m1, b1, m2, h2.blk, NULL) && LiveKept(m2, h2.blk, m3, h2.blk, newptr)
    requires Live(b4) == Live(h2.blk) - {r} && LiveKept(m3, h2.blk, m4, b4, r)
    requires 0 <= n && n <= h2.blk[newptr].words - 2 && 0 <= newptr && newptr + h2.blk[newptr].words <= |m0|
    requires 0 <= r <= ptr && ptr + n <= r + b1[r].words - 2 && r + b1[r].words <= |m0| && h2.blk[newptr].used
    requires forall p :: r <= p < r + b1[r].words - 2 && 0 <= p < |m0| ==> m1[p] == m0[p]
    requires forall p :: r <= p < r + b1[r].words - 2 && 0 <= p < |m0| ==> m2[p] == m1[p]
    requires forall p :: newptr <= p < newptr + n ==> m3[p] == m2[ptr + (p - newptr)]
    ensures newptr in Live(b4) && Live(b4)[newptr] == Live(h2.blk)[newptr]
    ensures newptr !in Live(b0) && Live(b4) == Live(b0)[newptr := Live(b4)[newptr]]
    ensures LiveKept(m0, b0, m4, b4, NULL) && Copied(m0, ptr, m4, newptr, n)
  {
    assert BlockKept(m3, m4, h2.blk[newptr], newptr);
    forall i | 0 <= i < n ensures SameWord(m0, ptr, m4, newptr, i) {
      assert m4[newptr + i] == m3[newptr + i];
      assert m3[newptr + i] == m2[ptr + (newptr + i - newptr)];
    }
    hide LiveKept, Live, BlockKept;
    LiveKeptFresh(m1, b1, m2, h2.blk, m3, h2.blk, newptr);
    LiveKeptTrans(m0, b0, m1, b1, m3, h2.blk, NULL);
    LiveKeptFresh(m0, b0, m3, h2.blk, m4, b4, r);
    assert Live(b4).Keys == (Live(b0)[newptr := Live(b4)[newptr]]).Keys;
  }

  /** mm_realloc of a live ptr to a block of `size` bytes fails: the merge with the free neighbours
      is too small, and with the merged block held nothing else can serve the request. */
  ghost predicate ReallocFails(h: Heap, ptr: int, size: Word)
    requires Tiled(h.blk, h.end) && ptr in h.blk
  {
    exists r :: FailsFrom(h, ptr, r, size)
  }

  /** The left edge of a merge is unique, so failing from it is failing. */
  lemma FailsIff(h: Heap, ptr: int, r: int, size: Word)
    requires Tiled(h.blk, h.end) && ptr in h.blk && LeftEdge(h.blk, ptr, r)
    requires End(h.blk, ptr) != r && End(h.blk, ptr) != ptr && r in Merged(h.blk, r, ptr, NextFree(h.blk, ptr))
    ensures ReallocFails(h, ptr, size) <==> FailsFrom(h, ptr, r, size)
  {
    hide Merged, CannotServe;
    forall q | FailsFrom(h, ptr, q, size) ensures q == r {
      if q != ptr && r != ptr { PrevUnique(h.blk, h.end, ptr, q, r); }
    }
  }

  ghost predicate FailsFrom(h: Heap, ptr: int, r: int, size: Word)
    requires Tiled(h.blk, h.end) && ptr in h.blk
  {
    && LeftEdge(h.blk, ptr, r) && End(h.blk, ptr) != r && End(h.blk, ptr) != ptr
    && r in Merged(h.blk, r, ptr, NextFree(h.blk, ptr))
    && 4 * MergedWords(h.blk, r, ptr, NextFree(h.blk, ptr)) < size
    && CannotServe(Held(Merged(h.blk, r, ptr, NextFree(h.blk, ptr)), r), h.end, size)
  }

  class Allocator {
    const mem: array<Word>
    var brk: int       // mem_brk
    var endHeap: int   // end_heap
    ghost var h: Heap

    ghost predicate Ok(X: set<int>, E: set<int>)
      reads this, mem
    {
      mem.Length == LIMIT && brk == endHeap == h.end && Inv(mem[..], h, X, E)
    }

    ghost predicate Valid()
      reads this, mem
    {
      Ok({}, {})
    }

    method Put(p: int, v: Word)
      requires 0 <= p < mem.Length
      modifies mem
      ensures mem[..] == old(mem[..])[p := v]
    {
      mem[p] := v;
    }

    // META_PUT
    method PutMeta(bp: int, tag: Word)
      requires 0 < bp && bp - 1 < mem.Length && 0 <= bp + SizeOf(tag) / 4 - 2 < mem.Length
      modifies mem
      ensures mem[..] == MetaPut(old(mem[..]), bp, tag)
    {
      Put(bp - 1, tag);
      Put(bp + SizeOf(mem[bp - 1]) / 4 - 2, tag);
    }

    method FreeListInsert(head: int, node: int)
      requires 0 <= head < mem.Length && 0 <= node && node + 1 < mem.Length < 0x1_0000_0000
      requires mem[head] < mem.Length - 1 && node != head && node + 1 != head
      modifies mem
      ensures mem[..] == InsertLinks(old(mem[..]), head, node)
    {
      Put(node, mem[head]);
      Put(node + 1, head);
      Put(mem[head] as int + 1, node);
      Put(head, node);
    }

    method FreeListRemove(node: int)
      requires 0 <= node && node + 1 < mem.Length && mem[node] < mem.Length - 1 && mem[node + 1] < mem.Length
      requires mem[node] != node
      requires mem[node] as int + 1 != node
      modifies mem
      ensures mem[..] == RemoveLinks(old(mem[..]), node)
    {
      Put(mem[node] as int + 1, mem[node + 1]);
      Put(mem[node + 1], mem[node]);
    }

    // resv_node
    method ResvNode(node: int, ghost X: set<int>)
      requires Ok(X, {}) && node in h.blk && !h.blk[node].used && node !in X
      modifies mem, `h
      ensures Ok(X + {node}, {}) && h.blk == old(h.blk) && h.end == old(h.end)
      ensures OnlyLinksChange(old(mem[..]), mem[..], h.blk)
    {
      hide Spaced, Chained, Tags, Linked, Coalesced, OnlyLinksChange;
      ghost var k := FindOnList(h, X, node);
      ghost var c := Class(h.blk[node]);
      ReserveInv(mem[..], h, X, {}, c, k);
      NodeLinks(mem[..], h, X, {}, c, k);
      hide Listed, RemoveLinks;
      FreeListRemove(node);
      h := Reserved(h, c, k);
    }

    // free_node: the size is read from the node's own header
    method FreeNode(node: int, ghost X: set<int>)
      requires Ok(X, {}) && node in h.blk && !h.blk[node].used && node in X
      requires Coalesced(h.blk, X - {node})
      modifies mem, `h
      ensures Ok(X - {node}, {}) && h.blk == old(h.blk) && h.end == old(h.end)
      ensures OnlyLinksChange(old(mem[..]), mem[..], h.blk)
    {
      NextBlock(mem[..], h, node);
      var size := mem[node - 1];
      assert size == 4 * h.blk[node].words;
      FreeInv(mem[..], h, X, {}, node);
      var head := Head(ClassOf(size));
      FreeListInsert(head, node);
      h := Freed(h, Class(h.blk[node]), node);
    }

    // The test of the left neighbour in coalesce_will_free: off its list if it is free
    method ReservePrev(ptr: int, ghost X: set<int>) returns (r: int, prevsz: int)
      requires X <= {ptr} && Ok(X, {}) && ptr in h.blk
      modifies mem, `h
      ensures Ok(X + (if r != ptr then {r} else {}), {}) && h.blk == old(h.blk) && h.end == old(h.end)
      ensures OnlyLinksChange(old(mem[..]), mem[..], h.blk) && LeftEdge(h.blk, ptr, r)
      ensures prevsz == if r != ptr then 4 * h.blk[r].words else 0
    {
      hide Inv, Spaced, Chained, Listed, Linked, Coalesced, OnlyLinksChange, SizeOf;
      InvTiled(mem[..], h, X, {});
      OnlyLinksRefl(mem[..], h.blk);
      PrevBlock(mem[..], h, ptr);
      var prev := ptr - SizeOf(mem[ptr - 2]) / 4;
      r, prevsz := ptr, 0;
      assert X + {} == X;
      if !Aloc(mem[prev - 1]) {
        ResvNode(prev, X);
        InvTiled(mem[..], h, X + {prev}, {});
        FooterOfPrev(mem[..], h, ptr, prev);
        r, prevsz := prev, mem[prev - 1];
      }
    }

    // The test of the right neighbour
    method ReserveNext(ptr: int, ghost X: set<int>) returns (nextsz: int)
      requires Ok(X, {}) && ptr in h.blk && End(h.blk, ptr) !in X
      modifies mem, `h
      ensures h.blk == old(h.blk) && h.end == old(h.end) && Ok(X + (if NextFree(h.blk, ptr) then {End(h.blk, ptr)} else {}), {})
      ensures OnlyLinksChange(old(mem[..]), mem[..], h.blk)
      ensures nextsz == if NextFree(h.blk, ptr) then 4 * h.blk[End(h.blk, ptr)].words else 0
    {
      hide Inv, Spaced, Chained, Tags, Listed, Linked, Coalesced, OnlyLinksChange, SizeOf;
      InvTiled(mem[..], h, X, {});
      OnlyLinksRefl(mem[..], h.blk);
      NextBlock(mem[..], h, ptr);
      var next := ptr + SizeOf(mem[ptr - 1]) / 4;
      nextsz := 0;
      assert X + {} == X;
      if !Aloc(mem[next - 1]) {
        ResvNode(next, X);
        InvTiled(mem[..], h, X + {next}, {});
        NextBlock(mem[..], h, ptr);
        nextsz := mem[next - 1];
      }
    }

    // The first half of coalesce_will_free: take the free neighbours of ptr off their lists and
    // add up the sizes.
    method ReserveNeighbours(ptr: int, ghost X: set<int>) returns (r: int, blksz: int, ghost X1: set<int>)
      requires X <= {ptr} && Ok(X, {}) && ptr in h.blk && (h.blk[ptr].used || ptr in X)
      modifies mem, `h
      ensures Ok(X1, {}) && h.blk == old(h.blk) && h.end == old(h.end)
      ensures OnlyLinksChange(old(mem[..]), mem[..], h.blk) && LeftEdge(h.blk, ptr, r)
      ensures X1 == X + (if r != ptr then {r} else {}) + (if NextFree(h.blk, ptr) then {End(h.blk, ptr)} else {})
      ensures blksz == 4 * MergedWords(h.blk, r, ptr, NextFree(h.blk, ptr))
    {
      hide Inv, Spaced, Chained, Tags, Listed, Linked, Coalesced, OnlyLinksChange, SizeOf, LeftEdge, NextFree;
      ghost var m0 := mem[..];
      InvTiled(m0, h, X, {});
      NextBlock(m0, h, ptr);
      var size := SizeOf(mem[ptr - 1]);
      var prevsz;
      r, prevsz := ReservePrev(ptr, X);
      X1 := X + (if r != ptr then {r} else {});
      ghost var m1 := mem[..];
      LeftEdgeApart(h.blk, h.end, ptr, r);
      var nextsz := ReserveNext(ptr, X1);
      X1 := X1 + (if NextFree(h.blk, ptr) then {End(h.blk, ptr)} else {});
      OnlyLinksTrans(m0, m1, mem[..], h.blk);
      blksz := size + prevsz + nextsz;
    }

    // coalesce_will_free: merge ptr (allocated, or reserved) with its free neighbours
    method CoalesceWillFree(ptr: int, ghost X: set<int>) returns (r: int)
      requires X <= {ptr} && Ok(X, {}) && ptr in h.blk && (h.blk[ptr].used || ptr in X)
      modifies mem, `h
      ensures Ok({r}, {}) && h.end == old(h.end)
      ensures LeftEdge(old(h.blk), ptr, r) && End(old(h.blk), ptr) != r && End(old(h.blk), ptr) != ptr
      ensures h.blk == Merged(old(h.blk), r, ptr, NextFree(old(h.blk), ptr))
      ensures r in h.blk && !h.blk[r].used && Isolated(h.blk, r)
      ensures LiveKept(old(mem[..]), old(h.blk), mem[..], h.blk, ptr)
      ensures old(h.blk)[ptr].used ==> PayloadKept(old(mem[..]), mem[..], old(h.blk)[ptr], ptr)
      ensures r != ptr ==> 2 <= ptr <= mem.Length && mem[ptr - 2] == old(mem[ptr - 2])
    {
      hide Spaced, Chained, Tags, Listed, Linked, Coalesced, LiveKept, PayloadKept, Merged, Isolated, MetaPut, OnlyLinksChange;
      ghost var m0, blk0 := mem[..], h.blk;
      var blksz;
      ghost var X1;
      r, blksz, X1 := ReserveNeighbours(ptr, X);
      LeftEdgeApart(h.blk, h.end, ptr, r);
      ghost var take := NextFree(h.blk, ptr);
      MergeInv(mem[..], h, X1, r, ptr, take);
      MergedIsolated(h.blk, h.end, X, r, ptr);
      MergedSize(h.blk, h.end, r, ptr, take);
      h := h.(blk := Merged(h.blk, r, ptr, take));
      BlockFits(h.blk, h.end, r);
      ghost var m1 := mem[..];
      MetaPutInv(m1, h, {r}, {r}, r, blksz);
      PutMeta(r, blksz);
      assert {r} - {r} == {};
      MergeFrame(m0, m1, mem[..], blk0, h.end, ptr, r, blksz);
    }

    // mem_sbrk: -1 when the increment is negative as an int or the break would pass its limit
    method MemSbrk(incr: Word) returns (p: int)
      requires incr % 4 == 0 && brk >= 0
      modifies `brk
      ensures p == -1 <==> old(brk) + incr / 4 > LIMIT || incr >= 0x8000_0000
      ensures p == -1 ==> brk == old(brk)
      ensures p != -1 ==> p == old(brk) && brk == old(brk) + incr / 4
    {
      if incr >= 0x8000_0000 || brk + incr / 4 > LIMIT {
        return -1;
      }
      p := brk;
      brk := brk + incr / 4;
    }

    // The part of extend_heap after the break has moved: the new epilogue and the new block's tags.
    method GrowHeap(reqsz: Word, oldend: int)
      requires mem.Length == LIMIT && Inv(mem[..], h, {}, {}) && oldend == endHeap == h.end
      requires reqsz % 4096 == 0 && reqsz >= CHUNKSIZE && brk == oldend + reqsz / 4 <= LIMIT
      modifies `endHeap, `h, mem
      ensures Ok({oldend}, {}) && h == Extended(old(h), reqsz / 4)
      ensures LiveKept(old(mem[..]), old(h.blk), mem[..], h.blk, NULL) && Live(h.blk) == Live(old(h.blk))
    {
      hide Spaced, Chained, Tags, Listed, Linked, Coalesced, LiveKept, Live;
      ChunkWords(reqsz);
      EndBounds(h.blk, h.end);
      ghost var m0, h0 := mem[..], h;
      endHeap := oldend + reqsz / 4;
      Put(endHeap - 1, EPILOGUE);
      ExtendInv(m0, h0, reqsz / 4, mem[..]);
      h := Extended(h, reqsz / 4);
      MetaPutInv(mem[..], h, {oldend}, {oldend}, oldend, reqsz);
      PutMeta(oldend, reqsz);
      assert {oldend} - {oldend} == {};
      ExtendLive(m0, h0, reqsz / 4, mem[..]);
    }

    // The first part of extend_heap: a free last block makes up for part of the wanted size.
    method WantedChunks(minsize: Word, oldend: int) returns (reqsz: Word)
      requires Valid() && oldend == endHeap && MIN_ALLOC <= minsize <= 0x1_0000_0000 - CHUNKSIZE
      requires NoFit(h.blk, minsize)
      ensures 0 <= TailBytes(h.blk, h.end) < minsize && reqsz == RoundToChunks(minsize - TailBytes(h.blk, h.end))
      ensures reqsz % 4096 == 0 && reqsz >= CHUNKSIZE && reqsz + TailBytes(h.blk, h.end) >= minsize && FIRST <= h.end
      ensures reqsz == CHUNKSIZE || reqsz - CHUNKSIZE + TailBytes(h.blk, h.end) < minsize
    {
      hide Listed, Linked, Coalesced, Spaced, Chained, Tags, NoFit, TailBytes;
      TailFooter(mem[..], h, minsize);
      EndBounds(h.blk, h.end);
      var want := minsize;
      if !Aloc(mem[oldend - 2]) {
        want := want - mem[oldend - 2];
      }
      RoundToChunksExact(want);
      reqsz := RoundToChunks(want);
    }

    // The last part of extend_heap: tag the new memory and merge it with a free last block.
    method MergeChunks(minsize: Word, reqsz: Word, oldend: int) returns (r: int)
      requires mem.Length == LIMIT && Inv(mem[..], h, {}, {}) && oldend == endHeap == h.end
      requires reqsz % 4096 == 0 && reqsz >= CHUNKSIZE && brk == oldend + reqsz / 4 <= LIMIT
      requires minsize <= reqsz + TailBytes(h.blk, h.end)
      requires reqsz == CHUNKSIZE || reqsz - CHUNKSIZE + TailBytes(h.blk, h.end) < minsize
      modifies `endHeap, `h, mem
      ensures r != NULL && Ok({r}, {}) && HandsOut(old(mem[..]), old(h), mem[..], h, r, minsize)
      ensures Grew(old(h), h, r, minsize)
    {
      hide Inv, LiveKept, Live, TailBytes, Merged, Isolated, LeftEdge, HandsOut, Grew;
      ghost var m0, h0 := mem[..], h;
      ChunkWords(reqsz);
      GrowHeap(reqsz, oldend);
      ghost var m1, h1 := mem[..], h;
      r := CoalesceWillFree(oldend, {oldend});
      ExtendHandsOut(m0, h0, m1, h1, mem[..], h, reqsz / 4, r, minsize);
      InvTiled(m0, h0, {}, {});
      ExtendGrows(h0, h1, h, reqsz / 4, r, minsize);
    }

    // extend_heap with an old end: move the break, retag, and merge with a free last block
    method ExtendHeap(minsize: Word, oldend: int) returns (r: int)
      requires Valid() && oldend == endHeap && MIN_ALLOC <= minsize <= 0x1_0000_0000 - CHUNKSIZE
      requires minsize % 8 == 0 && NoFit(h.blk, minsize)
      modifies this, mem
      ensures 0 <= TailBytes(old(h.blk), old(h.end)) < minsize
      ensures r == NULL <==> BreakStuck(old(h.blk), old(h.end), minsize)
      ensures r == NULL ==> Valid() && h == old(h) && mem[..] == old(mem[..])
      ensures r != NULL ==> Ok({r}, {}) && HandsOut(old(mem[..]), old(h), mem[..], h, r, minsize) && Grew(old(h), h, r, minsize)
    {
      hide Inv, TailBytes, NoFit, HandsOut, RoundToChunks, Grew;
      var reqsz := WantedChunks(minsize, oldend);
      ChunkWords(reqsz);
      assert BreakStuck(h.blk, h.end, minsize) <==> h.end + reqsz / 4 > LIMIT;
      hide BreakStuck;
      var beginp := MemSbrk(reqsz);
      if beginp == -1 {
        return NULL;
      }
      r := MergeChunks(minsize, reqsz, oldend);
    }

    // free_tail_was_resvd when the rest is too small for a block: allocate the whole
    method TakeWhole(r: int, size: Word)
      requires Ok({r}, {}) && r in h.blk && !h.blk[r].used
      requires size % 8 == 0 && MIN_ALLOC <= size <= 4 * h.blk[r].words && 4 * h.blk[r].words - size < MIN_ALLOC
      modifies mem, `h
      ensures Valid() && h.end == old(h.end) && h.blk == Trimmed(old(h.blk), r, size / 4)
      ensures LiveKept(old(mem[..]), old(h.blk), mem[..], h.blk, r)
      ensures forall p :: r <= p < r + size / 4 - 2 && 0 <= p < mem.Length ==> mem[p] == old(mem[p])
    {
      hide Inv, LiveKept, MetaPut, Trimmed, SizeOf;
      TakenWhole(mem[..], h, r, size);
      PutMeta(r, SizeOf(mem[r - 1]) + 1);
      h := h.(blk := h.blk[r := Block(h.blk[r].words, true)]);
    }

    // the two META_PUTs of free_tail_was_resvd
    method SplitTags(r: int, size: Word) returns (ghost m1: Memory)
      requires Ok({r}, {}) && r in h.blk && !h.blk[r].used && Isolated(h.blk, r)
      requires size % 8 == 0 && MIN_ALLOC <= size && 4 * h.blk[r].words - size >= MIN_ALLOC
      modifies mem, `h
      ensures var tail := r + size / 4;
              && h == old(h).(blk := Split(old(h.blk), r, size / 4)) && tail in h.blk && !h.blk[tail].used
              && Ok({tail}, {}) && Coalesced(h.blk, {})
      ensures |m1| == mem.Length
      ensures forall p :: 0 <= p < |m1| && m1[p] != old(mem[..])[p] ==> p == r - 1 || p == r + size / 4 - 2
      ensures forall p :: 0 <= p < |m1| && mem[..][p] != m1[p] ==> p == r + size / 4 - 1 || p == r + old(h.blk)[r].words - 2
    {
      hide Inv, Isolated, MetaPut, Split;
      ghost var m0, h0 := mem[..], h;
      InvTiled(m0, h0, {r}, {});
      NextBlock(mem[..], h, r);
      BlockFits(h.blk, h.end, r);
      hide Spaced, Chained, Tags, Coalesced, SizeOf;
      var second := SizeOf(mem[r - 1]) - size;
      SplitStores(m0, h0, r, size);
      SplitChanges(m0, r, size, h.blk[r].words);
      PutMeta(r, size + 1);
      m1 := mem[..];
      PutMeta(r + size / 4, second);
      h := h.(blk := Split(h.blk, r, size / 4));
    }

    // free_tail_was_resvd when the rest can hold a block: allocate the front, free the tail
    method SplitOff(r: int, size: Word)
      requires Ok({r}, {}) && r in h.blk && !h.blk[r].used && Isolated(h.blk, r)
      requires size % 8 == 0 && MIN_ALLOC <= size && 4 * h.blk[r].words - size >= MIN_ALLOC
      modifies mem, `h
      ensures Valid() && h.end == old(h.end) && h.blk == Trimmed(old(h.blk), r, size / 4)
      ensures LiveKept(old(mem[..]), old(h.blk), mem[..], h.blk, r)
      ensures forall p :: r <= p < r + size / 4 - 2 && 0 <= p < mem.Length ==> mem[p] == old(mem[p])
    {
      hide Inv, LiveKept, Isolated, OnlyLinksChange, MetaPut, Trimmed, Split, Coalesced;
      ghost var m0, h0 := mem[..], h;
      InvTiled(m0, h0, {r}, {});
      BlockFits(h.blk, h.end, r);
      hide Spaced, Chained;
      var tail := r + size / 4;
      ghost var m1 := SplitTags(r, size);
      ghost var m2 := mem[..];
      assert {tail} - {tail} == {};
      FreeNode(tail, {tail});
      SplitFrame(m0, m1, m2, mem[..], h0.blk, h0.end, r, size / 4);
    }

    // free_tail_was_resvd: allocate the front of a reserved block, free the rest if it can hold one
    method FreeTail(r: int, size: Word)
      requires Ok({r}, {}) && r in h.blk && !h.blk[r].used && Isolated(h.blk, r)
      requires size % 8 == 0 && MIN_ALLOC <= size <= 4 * h.blk[r].words
      modifies mem, `h
      ensures Valid() && h.end == old(h.end) && h.blk == Trimmed(old(h.blk), r, size / 4)
      ensures LiveKept(old(mem[..]), old(h.blk), mem[..], h.blk, r)
      ensures forall p :: r <= p < r + size / 4 - 2 && 0 <= p < mem.Length ==> mem[p] == old(mem[p])
    {
      hide Inv, LiveKept, Isolated, Trimmed;
      InvTiled(mem[..], h, {r}, {});
      NextBlock(mem[..], h, r);
      if SizeOf(mem[r - 1]) - size < MIN_ALLOC {
        TakeWhole(r, size);
      } else {
        SplitOff(r, size);
      }
    }

    // The inner loop of allocate_block: walk one class list up to the first node that fits.
    method ScanList(c: int, size: Word) returns (node: int, ghost k: int)
      requires Valid() && 0 <= c < NCLASSES
      ensures 0 < k <= |h.rings[c]| && ScannedTo(h, size, c, k)
      ensures node == NULL ==> k == |h.rings[c]|
      ensures node != NULL ==> k < |h.rings[c]| && h.rings[c][k] == node && !TooSmall(h, size, c, k)
      ensures node != NULL ==> node in h.blk && !h.blk[node].used && 4 * h.blk[node].words >= size
    {
      hide Inv, Spaced, Chained, Tags;
      InvTiled(mem[..], h, {}, {});
      InvLists(mem[..], h, {}, {});
      WalkStep(mem[..], h, {}, {}, c, 0);
      var list := mem[Head(c)];
      k := 1;
      while list != Head(c)
        invariant 1 <= k <= |h.rings[c]| && list == (if k < |h.rings[c]| then h.rings[c][k] else Head(c))
        invariant ScannedTo(h, size, c, k)
        decreases |h.rings[c]| - k
      {
        WalkStep(mem[..], h, {}, {}, c, k);
        NextBlock(mem[..], h, list);
        if mem[list - 1] >= size {
          return list, k;
        }
        assert TooSmall(h, size, c, k);
        list := mem[list];
        k := k + 1;
      }
      if k < |h.rings[c]| { WalkStep(mem[..], h, {}, {}, c, k); }
      node := NULL;
    }

    // The search of allocate_block: class lists from the size's own class up, first fit in each.
    method FirstFit(size: Word) returns (node: int)
      requires Valid() && size >= MIN_ALLOC
      ensures node == NULL ==> NoFit(h.blk, size)
      ensures node != NULL ==> node in h.blk && !h.blk[node].used && 4 * h.blk[node].words >= size
      ensures node != NULL ==> exists c, k :: FirstFitAt(h, size, c, k) && h.rings[c][k] == node
    {
      hide Spaced, Chained, Tags, Linked, Coalesced, TooSmall;
      node := NULL;
      var c := ClassOf(size);
      var cls := MIN_ALLOC * Pow2(c);
      while cls <= CHUNKSIZE
        invariant ClassOf(size) <= c <= NCLASSES && cls == MIN_ALLOC * Pow2(c) && node == NULL
        invariant Scanned(h, size, c)
        decreases NCLASSES - c
      {
        Pow2Class(c);
        ghost var k;
        node, k := ScanList(c, size);
        if node != NULL {
          assert FirstFitAt(h, size, c, k);
          return;
        }
        c := c + 1;
        cls := cls * 2;
      }
      Pow2Class(c);
      SearchComplete(h, size);
    }

    method AllocateBlock(size: Word) returns (node: int)
      requires Valid() && size % 8 == 0 && MIN_ALLOC <= size <= 0x1_0000_0000 - CHUNKSIZE
      modifies this, mem
      ensures Valid()
      ensures node == NULL <==> CannotServe(old(h.blk), old(h.end), size)
      ensures node == NULL ==> h == old(h) && mem[..] == old(mem[..])
      ensures node != NULL ==> Allocates(old(mem[..]), old(h), mem[..], h, node, size)
      ensures !NoFit(old(h.blk), size) ==> node != NULL && Placed(old(h), h, node, size)
      ensures NoFit(old(h.blk), size) && node != NULL ==> PlacedNew(old(h), h, node, size)
    {
      hide Inv, LiveKept, Live, OnlyLinksChange, Trimmed, BreakStuck, TailBytes, Isolated, FirstFitAt, Allocates, LeftEdge, Carved;
      ghost var m0, h0 := mem[..], h;
      InvLists(m0, h0, {}, {});
      node := FirstFit(size);
      if node != NULL {
        ResvNode(node, {});
        assert {} + {node} == {node};
        FoundHandsOut(m0, h0, mem[..], h, node, size);
      } else {
        node := ExtendHeap(size, endHeap);
        if node == NULL {
          return;
        }
      }
      ghost var m1, h1 := mem[..], h;
      InvTiled(m1, h1, {node}, {});
      FreeTail(node, size);
      TrimmedCarves(h1.blk, node, size / 4);
      TrimAllocates(m0, h0, m1, h1, mem[..], h, node, size);
    }

    method MmMalloc(size: Word) returns (r: int)
      requires Valid() && size <= MAX_REQUEST
      modifies this, mem
      ensures Valid()
      ensures r == NULL <==> size == 0 || CannotServe(old(h.blk), old(h.end), AllocSize(size))
      ensures r == NULL ==> h == old(h) && mem[..] == old(mem[..])
      ensures r != NULL ==> Granted(old(mem[..]), old(h), mem[..], h, r, size)
      ensures size > 0 ==> AllocSize(size) >= MIN_ALLOC
      ensures size > 0 && !NoFit(old(h.blk), AllocSize(size)) ==> Placed(old(h), h, r, AllocSize(size))
      ensures r != NULL && NoFit(old(h.blk), AllocSize(size)) ==> PlacedNew(old(h), h, r, AllocSize(size))
    {
      hide Inv, Placed, NoFit, Allocates, CannotServe, Granted, PlacedNew;
      r := NULL;
      if size == 0 {
        return;
      }
      AllocSizeExact(size);
      MaxRequestExact(size);
      r := AllocateBlock(AllocSize(size));
      if r != NULL { AllocatesGrants(old(mem[..]), old(h), mem[..], h, r, size); }
    }

    // mm_free, for a live pointer or NULL
    method MmFree(ptr: int)
      requires Valid() && (ptr == NULL || ptr in Live(h.blk))
      modifies mem, `h
      ensures Valid() && h.end == old(h.end)
      ensures Live(h.blk) == Live(old(h.blk)) - {ptr}
      ensures LiveKept(old(mem[..]), old(h.blk), mem[..], h.blk, ptr)
    {
      hide Inv, LiveKept, Merged, OnlyLinksChange, LeftEdge, Isolated;
      if ptr == NULL {
        NullNotLive(mem[..], h);
        return;
      }
      ghost var m0, h0 := mem[..], h;
      var r := CoalesceWillFree(ptr, {});
      ghost var m1, h1 := mem[..], h;
      IsolatedCoalesced(mem[..], h, r);
      FreeNode(r, {r});
      FreedLive(m0, h0, m1, h1, mem[..], ptr, r);
    }

    // A store through a pointer that may be wild: outside the memory it is dropped.
    method Store(p: int, v: Word)
      modifies mem
      ensures mem[..] == Stored(old(mem[..]), p, v)
    {
      if 0 <= p < mem.Length {
        mem[p] := v;
      }
    }

    // META_PUT on a pointer that may be wrong; pointer sums wrap.
    method StoreMeta(bp: int, tag: Word)
      requires 0 < bp <= mem.Length
      modifies mem
      ensures mem[..] == StoredMeta(old(mem[..]), bp, tag)
    {
      Store(bp - 1, tag);
      Store((bp + SizeOf(mem[bp - 1]) / 4 - 2) % (0x4000_0000), tag);
    }

    // free_node on a pointer that may be wrong
    method StoreFree(node: int)
      requires 0 < node < 0x1_0000_0000 && node <= mem.Length && mem[node - 1] >= MIN_ALLOC && 20 <= mem.Length
      modifies mem
      ensures mem[..] == StoredFree(old(mem[..]), node)
    {
      var head := Head(ClassOf(mem[node - 1]));
      Store(node, mem[head]);
      Store(node + 1, head);
      Store(mem[head] as int + 1, node);
      Store(head, node);
    }

    method PutBackAt(x: int, sz: Word)
      requires 0 < x <= mem.Length < 0x1_0000_0000 && 20 <= mem.Length
      modifies mem
      ensures mem[..] == PutBackStores(old(mem[..]), x, sz)
    {
      StoreMeta(x, sz);
      if sz >= MIN_ALLOC && mem[x - 1] >= MIN_ALLOC {
        StoreFree(x);
      }
    }

    // uncoalesce_was_resvd
    method UncoalesceWasResvd(newblk: int, oldblk: int, oldsz: Word)
      requires UndoSafe(mem[..], newblk, oldblk, oldsz)
      modifies mem
      ensures mem[..] == Undone(old(mem[..]), newblk, oldblk, oldsz)
    {
      hide StoredMeta, PutBackStores, SizeOf;
      assert SizeOf(mem[newblk - 1]) < 0x1_0000_0000;
      var newsz := SizeOf(mem[newblk - 1]);
      StoreMeta(oldblk, oldsz + 1);
      var prev := oldblk - SizeOf(mem[oldblk - 2]) / 4;
      var next := oldblk + oldsz / 4;
      var prevsz := 4 * (oldblk - prev);
      var nextsz := (newsz - oldsz - prevsz) % 0x1_0000_0000;
      if prevsz > 0 {
        PutBackAt(prev, prevsz);
      }
      if nextsz > 0 {
        PutBackAt(next, nextsz);
      }
    }

    constructor MemInit()
      ensures fresh(mem) && mem.Length == LIMIT && brk == BASE && endHeap == NULL
    {
      mem := new Word[LIMIT];
      brk, endHeap := BASE, NULL;
    }

    // class_list_init
    method ClassListInit()
      requires mem.Length == LIMIT
      modifies mem
      ensures forall p :: 0 <= p < LIMIT && !(BASE <= p < BASE + 2 * NCLASSES) ==> mem[p] == old(mem[p])
      ensures forall c :: 0 <= c < NCLASSES ==> mem[Head(c)] == Head(c) && mem[Head(c) + 1] == Head(c)
    {
      var c, cls := 0, MIN_ALLOC as int;
      while cls <= CHUNKSIZE
        invariant 0 <= c <= NCLASSES && cls == MIN_ALLOC * Pow2(c)
        invariant forall p :: 0 <= p < LIMIT && !(BASE <= p < BASE + 2 * c) ==> mem[p] == old(mem[p])
        invariant forall d :: 0 <= d < c ==> mem[Head(d)] == Head(d) && mem[Head(d) + 1] == Head(d)
        decreases NCLASSES - c
      {
        Pow2Class(c);
        mem[Head(c)] := Head(c);
        mem[Head(c) + 1] := Head(c);
        c := c + 1;
        cls := cls * 2;
      }
      Pow2Class(c);
    }

    // mm_init, right after mem_init: the heap is one free block
    method MmInit()
      requires mem.Length == LIMIT && brk == BASE
      modifies this, mem
      ensures Valid() && Live(h.blk) == map[] && h.end == BASE + CHUNKSIZE / 4
    {
      var beginp := MemSbrk(CHUNKSIZE);
      endHeap := beginp + CHUNKSIZE / 4;
      Put(endHeap - 1, EPILOGUE);
      var prosz, cls := 8, MIN_ALLOC as int;
      ghost var c := 0;
      while cls <= CHUNKSIZE
        modifies {}
        invariant 0 <= c <= NCLASSES && cls == MIN_ALLOC * Pow2(c) && prosz == 8 + 8 * c
        decreases NCLASSES - c
      {
        Pow2Class(c);
        prosz := prosz + 8;
        c := c + 1;
        cls := cls * 2;
      }
      Pow2Class(c);
      var blockp := beginp + prosz / 4;
      PutMeta(blockp - prosz / 4, prosz + 1);
      ClassListInit();
      var blksz := 4 * (endHeap - blockp);
      h := FirstHeap(blksz / 4);
      FirstHeapInv(mem[..], blksz / 4);
      assert {FIRST} - {FIRST} == {};
      MetaPutInv(mem[..], h, {FIRST}, {FIRST}, blockp, blksz);
      PutMeta(blockp, blksz);
      InvTiled(mem[..], h, {FIRST}, {});
      FreeNode(blockp, {FIRST});
    }

    // memmove and memcpy of whole words; the destination is not inside the source after its start
    method CopyWords(dst: int, src: int, n: int)
      requires 0 <= n && 0 <= dst && dst + n <= mem.Length && 0 <= src && src + n <= mem.Length
      requires dst <= src || src + n <= dst
      modifies mem
      ensures forall p :: 0 <= p < mem.Length && !(dst <= p < dst + n) ==> mem[p] == old(mem[p])
      ensures forall p :: dst <= p < dst + n ==> mem[p] == old(mem[src + (p - dst)])
    {
      var i := 0;
      while i < n
        invariant 0 <= i <= n
        invariant forall p :: 0 <= p < mem.Length && !(dst <= p < dst + i) ==> mem[p] == old(mem[p])
        invariant forall p :: dst <= p < dst + i ==> mem[p] == old(mem[src + (p - dst)])
      {
        mem[dst + i] := mem[src + i];
        i := i + 1;
      }
    }

    // The first path of mm_realloc: the merged block is big enough; slide the payload down.
    method SlideDown(r: int, ptr: int, n: int, size: Word)
      requires Ok({r}, {}) && r in h.blk && !h.blk[r].used && Isolated(h.blk, r)
      requires size % 8 == 0 && MIN_ALLOC <= size <= 4 * h.blk[r].words
      requires r <= ptr && 0 <= n <= size / 4 - 2 && ptr + n <= mem.Length
      modifies mem, `h
      ensures Valid() && h.end == old(h.end) && r in Live(h.blk) && Live(h.blk) == Live(old(h.blk))[r := Live(h.blk)[r]]
      ensures 4 * Live(h.blk)[r] + 8 >= size && r % 2 == 0 && r !in Live(old(h.blk))
      ensures LiveKept(old(mem[..]), old(h.blk), mem[..], h.blk, NULL)
      ensures Copied(old(mem[..]), ptr, mem[..], r, n) && Carved(h.blk, r, old(h.blk)[r].words, size / 4)
    {
      hide Inv, LiveKept, Isolated, Trimmed, Carved;
      ghost var m0, h0 := mem[..], h;
      InvTiled(m0, h0, {r}, {});
      BlockFits(h.blk, h.end, r);
      CopyWords(r, ptr, n);
      ghost var m1 := mem[..];
      PayloadWrite(m0, h, {r}, {}, r, m1);
      FreeTail(r, size);
      TrimmedCarves(h0.blk, r, size / 4);
      TrimmedLive(h0.blk, h0.end, r, size / 4);
      LiveKeptTrans(m0, h0.blk, m1, h0.blk, mem[..], h.blk, r);
      LiveKeptNotUsed(m0, h0.blk, mem[..], h.blk, r);
      forall i | 0 <= i < n ensures SameWord(m0, ptr, mem[..], r, i) {
        assert m1[r + i] == m0[ptr + i] && mem[r + i] == m1[r + i];
      }
    }

    // "prevent coalescing": mark the merged block allocated
    method HoldBlock(r: int)
      requires Ok({r}, {}) && r in h.blk && !h.blk[r].used && Isolated(h.blk, r)
      modifies mem, `h
      ensures Valid() && h == old(h).(blk := Held(old(h.blk), r)) && Isolated(h.blk, r)
      ensures r !in Live(old(h.blk)) && Live(h.blk) == Live(old(h.blk))[r := h.blk[r].words - 2]
      ensures LiveKept(old(mem[..]), old(h.blk), mem[..], h.blk, NULL)
      ensures forall p :: r <= p < r + h.blk[r].words - 2 && 0 <= p < mem.Length ==> mem[p] == old(mem[p])
    {
      hide Inv, LiveKept, Live, MetaPut, SizeOf;
      ghost var m0, h0 := mem[..], h;
      InvTiled(m0, h0, {r}, {});
      NextBlock(m0, h0, r);
      WholeStores(m0, h0, r);
      BlockFits(h.blk, h.end, r);
      TagBits(Block(h.blk[r].words, true), 4 * h.blk[r].words + 1);
      HeldLive(m0, h.blk, h.end, r, 4 * h.blk[r].words + 1);
      PutMeta(r, mem[r - 1] + 1);
      IsolatedMark(h.blk, r, true);
      h := h.(blk := Held(h.blk, r));
    }

    // META_PUT(ptr, SIZE(HDRP(ptr))); free_node(ptr)
    method ReleaseBlock(r: int)
      requires Valid() && r in h.blk && h.blk[r].used && Isolated(h.blk, r)
      modifies mem, `h
      ensures Valid() && h.end == old(h.end) && h.blk == old(h.blk)[r := Block(old(h.blk)[r].words, false)]
      ensures Live(h.blk) == Live(old(h.blk)) - {r}
      ensures LiveKept(old(mem[..]), old(h.blk), mem[..], h.blk, r)
    {
      hide Inv, LiveKept, Live, MetaPut, SizeOf, OnlyLinksChange, Isolated;
      ghost var m0, h0 := mem[..], h;
      InvTiled(m0, h0, {}, {});
      NextBlock(m0, h0, r);
      BlockFits(h.blk, h.end, r);
      var tag := SizeOf(mem[r - 1]);
      MarkInv(m0, h, {}, {}, r, false);
      assert {} + {r} == {r} && {r} - {r} == {};
      h := h.(blk := h.blk[r := Block(h.blk[r].words, false)]);
      MetaPutInv(m0, h, {r}, {r}, r, tag);
      PutMeta(r, tag);
      IsolatedMark(h0.blk, r, false);
      IsolatedCoalesced(mem[..], h, r);
      FreeNode(r, {r});
      ReleasedLive(m0, h0.blk, h0.end, r, tag, mem[..]);
    }

    // The last path of mm_realloc: hold the merged block, allocate elsewhere, copy, release.
    method MoveElsewhere(r: int, ptr: int, n: int, size: Word) returns (newptr: int)
      requires Ok({r}, {}) && r in h.blk && !h.blk[r].used && Isolated(h.blk, r)
      requires size % 8 == 0 && MIN_ALLOC <= size <= 0x1_0000_0000 - CHUNKSIZE
      requires r <= ptr && 0 <= n <= size / 4 - 2 && ptr + n <= r + h.blk[r].words - 2
      modifies this, mem
      ensures Valid()
      ensures newptr == NULL <==> CannotServe(Held(old(h.blk), r), old(h.end), size)
      ensures newptr == NULL ==> h == old(h).(blk := Held(old(h.blk), r))
      ensures newptr == NULL ==> LiveKept(old(mem[..]), old(h.blk), mem[..], h.blk, NULL)
      ensures newptr == NULL ==> forall p :: r <= p < r + h.blk[r].words - 2 && 0 <= p < mem.Length ==> mem[p] == old(mem[p])
      ensures newptr != NULL ==> newptr in Live(h.blk) && 4 * Live(h.blk)[newptr] + 8 >= size && newptr % 2 == 0 && newptr != r
      ensures newptr != NULL ==> newptr !in Live(old(h.blk)) && Live(h.blk) == Live(old(h.blk))[newptr := Live(h.blk)[newptr]]
      ensures newptr != NULL ==> LiveKept(old(mem[..]), old(h.blk), mem[..], h.blk, NULL)
      ensures newptr != NULL ==> Copied(old(mem[..]), ptr, mem[..], newptr, n)
    {
      hide Inv, LiveKept, Live, Isolated, Allocates, CannotServe, Copied;
      ghost var m0, h0 := mem[..], h;
      HoldBlock(r);
      ghost var m1, h1 := mem[..], h;
      newptr := AllocateBlock(size);
      if newptr == NULL {
        return;
      }
      ghost var m2, h2 := mem[..], h;
      AllocatesBeside(m1, h1, m2, h2, newptr, r, size);
      CopyWords(newptr, ptr, n);
      ghost var m3 := mem[..];
      PayloadWrite(m2, h2, {}, {}, newptr, m3);
      ReleaseBlock(r);
      MoveResult(m0, h0.blk, m1, h1.blk, m2, h2, m3, mem[..], h.blk, r, ptr, n, newptr);
    }

    // mm_realloc, for a live pointer or NULL. When it fails, the heap is whole again exactly if the
    // block to the left of ptr was free.
    method MmRealloc(ptr: int, size: Word) returns (r: int)
      requires Valid() && (ptr == NULL || ptr in Live(h.blk)) && size <= MAX_REQUEST
      modifies this, mem
      ensures r == NULL <==> if ptr == NULL then size == 0 || CannotServe(old(h.blk), old(h.end), AllocSize(size))
                             else size == 0 || ReallocFails(old(h), ptr, AllocSize(size))
      ensures ptr == NULL && r == NULL ==> Valid() && h == old(h) && mem[..] == old(mem[..])
      ensures ptr == NULL && r != NULL ==> Valid() && Granted(old(mem[..]), old(h), mem[..], h, r, size)
      ensures ptr == NULL && size > 0 ==> AllocSize(size) >= MIN_ALLOC
      ensures ptr == NULL && size > 0 && !NoFit(old(h.blk), AllocSize(size)) ==> Placed(old(h), h, r, AllocSize(size))
      ensures ptr == NULL && r != NULL && NoFit(old(h.blk), AllocSize(size)) ==> PlacedNew(old(h), h, r, AllocSize(size))
      ensures ptr != NULL && size == 0 ==> Valid() && Live(h.blk) == Live(old(h.blk)) - {ptr}
      ensures ptr != NULL && size == 0 ==> LiveKept(old(mem[..]), old(h.blk), mem[..], h.blk, ptr)
      ensures ptr != NULL && size > 0 && r != NULL ==> Valid() && Moved(old(mem[..]), old(h), mem[..], h, ptr, r, size)
      ensures ptr != NULL && size > 0 ==> ptr in old(h.blk) && InPlace(old(h.blk), ptr, h.blk, r, AllocSize(size))
      ensures ptr != NULL && size > 0 && r == NULL && PrevFree(old(h.blk), ptr) ==>
                Valid() && h.blk == old(h.blk) && LiveKept(old(mem[..]), old(h.blk), mem[..], h.blk, NULL)
      ensures ptr != NULL && size > 0 && r == NULL && !PrevFree(old(h.blk), ptr) ==>
                NoHeapFits(mem[..], Live(old(h.blk)).Keys)
    {
      if ptr == NULL {
        r := MmMalloc(size);
        return;
      }
      if size == 0 {
        MmFree(ptr);
        return NULL;
      }
      r := ReallocLive(ptr, size);
    }

    method ReallocLive(ptr: int, size: Word) returns (r: int)
      requires Valid() && ptr in Live(h.blk) && 0 < size <= MAX_REQUEST
      modifies this, mem
      ensures r == NULL <==> ReallocFails(old(h), ptr, AllocSize(size))
      ensures r != NULL ==> Valid() && Moved(old(mem[..]), old(h), mem[..], h, ptr, r, size)
      ensures ptr in old(h.blk) && InPlace(old(h.blk), ptr, h.blk, r, AllocSize(size))
      ensures r == NULL && PrevFree(old(h.blk), ptr) ==>
                Valid() && h.blk == old(h.blk) && LiveKept(old(mem[..]), old(h.blk), mem[..], h.blk, NULL)
      ensures r == NULL && !PrevFree(old(h.blk), ptr) ==>
                NoHeapFits(mem[..], Live(old(h.blk)).Keys)
    {
      hide Inv, LiveKept, Live, Isolated, CannotServe, Copied, Merged, PayloadKept, Moved, ReallocFails, NoFit, Undone, UndoSafe, NoHeapFits, AllocSize, MergedWords, Held, Spaced, Chained, Tags, Coalesced, StartsRun, Carved;
      ghost var m0, h0 := mem[..], h;
      LiveMembers(h.blk);
      InvTiled(m0, h0, {}, {});
      NextBlock(m0, h0, ptr);
      BlockFits(h0.blk, h0.end, ptr);
      AllocSizeExact(size);
      MaxRequestExact(size);
      var req := AllocSize(size);
      var oldsz := SizeOf(mem[ptr - 1]);
      var copysz := Min(oldsz, req) - 8;
      var newblk := CoalesceWillFree(ptr, {});
      ghost var m1, h1 := mem[..], h;
      MergedSize(h0.blk, h0.end, newblk, ptr, NextFree(h0.blk, ptr));
      MergedLive(h0.blk, h0.end, newblk, ptr);
      MergedRoom(h0.blk, h0.end, newblk, ptr);
      MergeIsRun(h0.blk, h0.end, ptr, newblk);
      InvTiled(m1, h1, {newblk}, {});
      NullNotBlock(h1.blk, h1.end);
      NextBlock(m1, h1, newblk);
      LeftEdgeApart(h0.blk, h0.end, ptr, newblk);
      if req <= mem[newblk - 1] {
        SlideDown(newblk, ptr, copysz / 4, req);
        JoinMoved(m0, h0, m1, h1.blk, mem[..], h, ptr, newblk, size, copysz / 4);
        FailsIff(h0, ptr, newblk, req);
        return newblk;
      }
      FailsIff(h0, ptr, newblk, req);
      r := MoveElsewhere(newblk, ptr, copysz / 4, req);
      if r == NULL {
        ghost var h' := UndoFailed(m0, h0, m1, h1.blk, mem[..], h, newblk, ptr);
        UncoalesceWasResvd(newblk, ptr, oldsz);
        h := h';
        return;
      }
      JoinMoved(m0, h0, m1, h1.blk, mem[..], h, ptr, r, size, copysz / 4);
    }

    // !ALOC(HDRP(PREVBLK(ptr))): what a caller can test before a realloc that may be refused
    method LeftFree(ptr: int) returns (b: bool)
      requires Valid() && (ptr == NULL || ptr in Live(h.blk))
      ensures b <==> ptr != NULL && PrevFree(h.blk, ptr)
    {
      if ptr == NULL {
        return false;
      }
      PrevBlock(mem[..], h, ptr);
      var prev := ptr - SizeOf(mem[ptr - 2]) / 4;
      b := !Aloc(mem[prev - 1]);
    }

    // The first half of mm_check: every node of a class list is free and of a size of that class.
    method CheckLists() returns (ok: bool)
      requires Valid()
      ensures ok
    {
      hide Inv, Spaced, Chained, Tags, Coalesced;
      InvTiled(mem[..], h, {}, {});
      InvLists(mem[..], h, {}, {});
      var c, cls := 0, MIN_ALLOC as int;
      while cls <= CHUNKSIZE
        invariant 0 <= c <= NCLASSES && cls == MIN_ALLOC * Pow2(c)
        decreases NCLASSES - c
      {
        Pow2Class(c);
        WalkStep(mem[..], h, {}, {}, c, 0);
        var node := mem[Head(c)];
        ghost var k := 1;
        while node != Head(c)
          invariant 1 <= k <= |h.rings[c]| && node == (if k < |h.rings[c]| then h.rings[c][k] else Head(c))
          decreases |h.rings[c]| - k
        {
          WalkStep(mem[..], h, {}, {}, c, k);
          NextBlock(mem[..], h, node);
          BlockFits(h.blk, h.end, node);
          ClassBounds(4 * h.blk[node].words);
          var size := SizeOf(mem[node - 1]);
          if Aloc(mem[node - 1]) || size < cls || (size >= 2 * cls && cls != CHUNKSIZE) {
            return false;
          }
          node := mem[node];
          k := k + 1;
        }
        c := c + 1;
        cls := cls * 2;
      }
      ok := true;
    }

    // The second half: header and footer of every block agree, and free blocks are linked both ways.
    method CheckBlocks() returns (ok: bool)
      requires Valid()
      ensures ok
    {
      hide Spaced, Tags, Coalesced, Listed, Linked;
      EndBounds(h.blk, h.end);
      var ptr := FIRST;
      while ptr < endHeap
        invariant ptr in h.blk || ptr == h.end
        decreases h.end - ptr
      {
        NextBlock(mem[..], h, ptr);
        FreeFooter(mem[..], h, ptr);
        BlockFits(h.blk, h.end, ptr);
        var size := SizeOf(mem[ptr - 1]);
        if mem[ptr - 1] != mem[ptr + size / 4 - 2] {
          return false;
        }
        if !Aloc(mem[ptr - 1]) {
          LinkedBothWays(mem[..], h, ptr);
          if mem[mem[ptr] as int + 1] != ptr || mem[mem[ptr + 1]] != ptr {
            return false;
          }
        }
        assert ptr + size / 4 == End(h.blk, ptr);
        ptr := ptr + size / 4;
      }
      ok := true;
    }
  }
}
