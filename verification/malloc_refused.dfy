/** A short run of the allocator in which a refused mm_realloc wrecks the heap (labs/08-malloc/mm.c). */
module MallocRefused {
  import opened MallocSizes
  import opened Rings
  import opened HeapInvariant
  import opened ReallocSpec
  import opened Malloc
  import opened MallocRuns

  /** A heap without a live block is one free block. */
  lemma EmptyHeapIsOneBlock(m: Memory, h: Heap)
    requires Inv(m, h, {}, {}) && Live(h.blk) == map[]
    ensures h.blk == map[FIRST := Block(h.end - FIRST, false)]
  {
    InvTiled(m, h, {}, {});
    LiveMembers(h.blk);
    hide Tags, Listed, Linked;
    assert End(h.blk, FIRST) == h.end;
    forall a | a in h.blk ensures a == FIRST {
      BlockFits(h.blk, h.end, a);
    }
  }

  /** Some free block outside the run of ptr is big enough. */
  ghost predicate OtherFits(blk: Blocks, ptr: int, p: int, size: int)
    requires ptr in blk
  {
    exists a :: a in blk && !blk[a].used && (a < p || a >= RunEnd(blk, ptr)) && 4 * blk[a].words >= size
  }

  /** The free bytes right before the break that are not in the run. */
  ghost function TailOutside(blk: Blocks, end: int, ptr: int): int
    requires ptr in blk
  {
    if RunEnd(blk, ptr) == end then 0 else TailBytes(blk, end)
  }

  /** The blocks with the run held: the run is one allocated block, the others are as they were. */
  lemma HeldRun(blk: Blocks, end: int, ptr: int, p: int)
    requires Tiled(blk, end) && ptr in blk && LeftEdge(blk, ptr, p) && End(blk, ptr) != p && End(blk, ptr) != ptr
    requires p in Merged(blk, p, ptr, NextFree(blk, ptr))
    ensures var b := Held(Merged(blk, p, ptr, NextFree(blk, ptr)), p);
            && p in b && b[p].used && End(b, p) == RunEnd(blk, ptr)
            && (forall a :: a in b && a != p ==> a in blk && b[a] == blk[a] && (a < p || a >= RunEnd(blk, ptr)))
            && (forall a :: a in blk && (a < p || a >= RunEnd(blk, ptr)) ==> a in b && b[a] == blk[a])
  {
    var take := NextFree(blk, ptr);
    MergedBlocks(blk, end, p, ptr, take);
    BlockFits(blk, end, ptr);
    BlockFits(blk, end, p);
    if take { BlockFits(blk, end, End(blk, ptr)); }
    var b := Held(Merged(blk, p, ptr, take), p);
    forall a | a in b && a != p ensures a in blk && b[a] == blk[a] && (a < p || a >= RunEnd(blk, ptr)) {
      BlockFits(blk, end, a);
      OutsideRun(blk, end, ptr, p, a);
    }
    hide Spaced, Chained, Merged;
  }

  lemma OutsideRun(blk: Blocks, end: int, ptr: int, p: int, a: int)
    requires Tiled(blk, end) && ptr in blk && LeftEdge(blk, ptr, p) && a in blk && a != p && a != ptr
    requires NextFree(blk, ptr) ==> a != End(blk, ptr)
    ensures a < p || a >= RunEnd(blk, ptr)
  {
    BlockFits(blk, end, ptr);
    BlockFits(blk, end, p);
    BlockFits(blk, end, a);
    if NextFree(blk, ptr) { BlockFits(blk, end, End(blk, ptr)); }
    hide Chained;
  }

  lemma HeldNoFit(blk: Blocks, b: Blocks, ptr: int, p: int, size: int)
    requires ptr in blk && p in b && b[p].used
    requires forall a :: a in b && a != p ==> a in blk && b[a] == blk[a] && (a < p || a >= RunEnd(blk, ptr))
    requires forall a :: a in blk && (a < p || a >= RunEnd(blk, ptr)) ==> a in b && b[a] == blk[a]
    ensures NoFit(b, size) <==> !OtherFits(blk, ptr, p, size)
  {
    if OtherFits(blk, ptr, p, size) {
      var a :| a in blk && !blk[a].used && (a < p || a >= RunEnd(blk, ptr)) && 4 * blk[a].words >= size;
      assert a in b && !b[a].used;
    }
  }

  lemma HeldTail(blk: Blocks, b: Blocks, end: int, ptr: int, p: int)
    requires Tiled(blk, end) && ptr in blk && p in b && b[p].used && End(b, p) == RunEnd(blk, ptr) && p <= ptr < RunEnd(blk, ptr) <= end
    requires p in blk && (p != ptr ==> End(blk, p) == ptr) && blk[ptr].used
    requires forall a :: a in b && a != p ==> a in blk && b[a] == blk[a] && (a < p || a >= RunEnd(blk, ptr))
    requires forall a :: a in blk && (a < p || a >= RunEnd(blk, ptr)) ==> a in b && b[a] == blk[a]
    ensures TailBytes(b, end) == TailOutside(blk, end, ptr)
  {
    if RunEnd(blk, ptr) == end {
      forall a | a in b && End(b, a) == end ensures b[a].used {
      }
    } else {
      forall a | a in b && End(b, a) == end && !b[a].used ensures a in blk && End(blk, a) == end && !blk[a].used && b[a] == blk[a] {
      }
      forall a | a in blk && End(blk, a) == end && !blk[a].used ensures a in b && End(b, a) == end && !b[a].used && b[a] == blk[a] {
        BlockFits(blk, end, a);
        BlockFits(blk, end, ptr);
        if !(a < p || a >= RunEnd(blk, ptr)) {
          RunHolds(blk, end, ptr, p, a);
        }
      }
      if PrevFree(blk, end) {
        var q :| q in blk && End(blk, q) == end && !blk[q].used;
        forall a | a in blk && End(blk, a) == end ensures a == q { PrevUnique(blk, end, end, a, q); }
        assert q in b && End(b, q) == end && !b[q].used;
      }
    }
  }

  /** A block inside the run ends inside it. */
  lemma RunHolds(blk: Blocks, end: int, ptr: int, p: int, a: int)
    requires Tiled(blk, end) && ptr in blk && p in blk && (p != ptr ==> End(blk, p) == ptr) && a in blk
    requires p <= a < RunEnd(blk, ptr) <= end
    ensures End(blk, a) <= RunEnd(blk, ptr)
  {
    BlockFits(blk, end, ptr);
    BlockFits(blk, end, p);
    BlockFits(blk, end, a);
    if NextFree(blk, ptr) { BlockFits(blk, end, End(blk, ptr)); }
    hide Chained;
  }

  /** mm_realloc of a live ptr is refused exactly if its run is too small, no other free block is big enough, and the
      break cannot move far enough for what the free end of the heap lacks. */
  lemma RefusedExactly(h: Heap, ptr: int, p: int, size: Word)
    requires Tiled(h.blk, h.end) && ptr in h.blk && h.blk[ptr].used && StartsRun(h.blk, ptr, p)
    ensures ReallocFails(h, ptr, size) <==>
              && 4 * (RunEnd(h.blk, ptr) - p) < size && !OtherFits(h.blk, ptr, p, size)
              && var tail := TailOutside(h.blk, h.end, ptr);
                 0 <= size - tail < 0x1_0000_0000 && h.end + RoundToChunks(size - tail) / 4 > LIMIT
  {
    var b := FailsOfRun(h, ptr, p, size);
    hide Tiled, StartsRun, RunEnd, RoundToChunks, OtherFits, NoFit, TailBytes, TailOutside, ReallocFails;
  }

  lemma FailsOfRun(h: Heap, ptr: int, p: int, size: Word) returns (b: Blocks)
    requires Tiled(h.blk, h.end) && ptr in h.blk && h.blk[ptr].used && StartsRun(h.blk, ptr, p)
    ensures ReallocFails(h, ptr, size) <==> 4 * (RunEnd(h.blk, ptr) - p) < size && CannotServe(b, h.end, size)
    ensures NoFit(b, size) <==> !OtherFits(h.blk, ptr, p, size)
    ensures TailBytes(b, h.end) == TailOutside(h.blk, h.end, ptr)
  {
    var take := NextFree(h.blk, ptr);
    RunFacts(h.blk, h.end, ptr, p);
    b := Held(Merged(h.blk, p, ptr, take), p);
    hide Merged, MergedWords, StartsRun, LeftEdge, Spaced, Chained, RunEnd, Held, OtherFits, NoFit, TailBytes, TailOutside, ReallocFails, CannotServe;
    HeldNoFit(h.blk, b, ptr, p, size);
    HeldTail(h.blk, b, h.end, ptr, p);
    FailsIff(h, ptr, p, size);
  }

  lemma StartIsEdge(blk: Blocks, ptr: int, p: int)
    requires StartsRun(blk, ptr, p)
    ensures p == ptr || (End(blk, p) == ptr && !blk[p].used) ==> LeftEdge(blk, ptr, p)
  {
  }

  lemma RunFacts(blk: Blocks, end: int, ptr: int, p: int)
    requires Tiled(blk, end) && ptr in blk && blk[ptr].used && StartsRun(blk, ptr, p)
    ensures LeftEdge(blk, ptr, p) && End(blk, ptr) != p && End(blk, ptr) != ptr && (p != ptr ==> End(blk, p) == ptr)
    ensures p <= ptr < RunEnd(blk, ptr) <= end && p + MergedWords(blk, p, ptr, NextFree(blk, ptr)) == RunEnd(blk, ptr)
    ensures p in Merged(blk, p, ptr, NextFree(blk, ptr))
    ensures var b := Held(Merged(blk, p, ptr, NextFree(blk, ptr)), p);
            && p in b && b[p].used && End(b, p) == RunEnd(blk, ptr)
            && (forall a :: a in b && a != p ==> a in blk && b[a] == blk[a] && (a < p || a >= RunEnd(blk, ptr)))
            && (forall a :: a in blk && (a < p || a >= RunEnd(blk, ptr)) ==> a in b && b[a] == blk[a])
  {
    StartIsEdge(blk, ptr, p);
    assert p != ptr ==> End(blk, p) == ptr && !blk[p].used;
    BlockFits(blk, end, ptr);
    BlockFits(blk, end, p);
    hide StartsRun, Merged, LeftEdge, MergedWords, Held, Spaced, Chained;
    LeftEdgeApart(blk, end, ptr, p);
    MergeIsRun(blk, end, ptr, p);
    MergedSize(blk, end, p, ptr, NextFree(blk, ptr));
    HeldRun(blk, end, ptr, p);
    var q := RunOfBlock(blk, end, ptr);
    assert q == p;
  }

  const SMALL: Blocks := map[22 := Block(4, true), 26 := Block(1000, false)]
  const WHOLE: Blocks := map[22 := Block(1004, false)]

  /** The heap after one small request: the realloc of its block to all of MAX_HEAP is refused, and on its left
      is the prologue, which is never merged. */
  lemma SmallHeapRefuses(h: Heap)
    requires h.blk == SMALL && h.end == 1026
    ensures Tiled(h.blk, h.end) && ReallocFails(h, 22, AllocSize(MAX_HEAP)) && !PrevFree(h.blk, 22)
  {
    SmallTiled(h);
    FirstHasNoPrev(h.blk, h.end);
    AllocSizeExact(MAX_HEAP);
    hide AllocSize;
    assert AllocSize(MAX_HEAP) == 20971528;
    SmallMerges(h);
    WholeCannotServe();
    assert FailsFrom(h, 22, 22, AllocSize(MAX_HEAP));
  }

  lemma SmallTiled(h: Heap)
    requires h.blk == SMALL && h.end == 1026
    ensures Tiled(h.blk, h.end)
  {
    assert End(h.blk, 22) == 26 && End(h.blk, 26) == 1026;
    assert HasPrev(h.blk, 26);
  }

  lemma SmallMerges(h: Heap)
    requires h.blk == SMALL && h.end == 1026
    ensures NextFree(h.blk, 22) && Merged(h.blk, 22, 22, true) == WHOLE
    ensures MergedWords(h.blk, 22, 22, true) == 1004
  {
  }

  lemma WholeCannotServe()
    ensures CannotServe(Held(WHOLE, 22), 1026, 20971528)
  {
    var b := Held(WHOLE, 22);
    assert !PrevFree(b, 1026);
    RoundToChunksExact(20971528);
    hide RoundToChunks;
  }

  /** The first small request is cut off the front of the one free block. */
  lemma SmallPlaced(h0: Heap, h: Heap, p: int)
    requires h0.blk == map[FIRST := Block(1004, false)] && h0.end == 1026 && Placed(h0, h, p, 16)
    ensures h.blk == SMALL && h.end == 1026 && p == FIRST && Live(h.blk).Keys == {p}
  {
    hide FirstFitAt;
    LiveMembers(h.blk);
  }

  lemma EmptyFits(h0: Heap)
    requires h0.blk == map[FIRST := Block(1004, false)]
    ensures AllocSize(8) == 16 && !NoFit(h0.blk, 16)
  {
    assert FIRST in h0.blk;
    AllocSizeExact(8);
    hide AllocSize;
  }

  const REQUESTS: seq<Request> := [AllocId(0, 8), ReallocId(0, MAX_HEAP)]

  /** After mm_init and mm_malloc(8) the heap is the small one, and the client's block is its first. */
  lemma SmallServed(p: Moment, p': Moment)
    requires Start(p) && Served(p, AllocId(0, 8), p')
    ensures p'.h.blk == SMALL && p'.h.end == 1026 && SlotOf(p'.table, 0).ptr == FIRST
    ensures Sound(p') && Payloads(p'.m, p'.h).Keys == {FIRST}
  {
    EmptyHeapIsOneBlock(p.m, p.h);
    EmptyFits(p.h);
    var r :| CallServed(p, AllocId(0, 8), p', r);
    assert FirstFits(p.h, Alloc(8), p'.h, r);
    hide Inv, NoFit, Placed, AllocSize, Returned, Owns;
    SmallPlaced(p.h, p'.h, r);
  }

  lemma SmallSpoils(p: Moment)
    requires Sound(p) && p.h.blk == SMALL && p.h.end == 1026 && SlotOf(p.table, 0).ptr == FIRST
    ensures Tiled(p.h.blk, p.h.end) && Spoils(p.h, CallOf(p.table, ReallocId(0, MAX_HEAP)))
    ensures forall p' :: !Served(p, ReallocId(0, MAX_HEAP), p')
  {
    hide Inv, ReallocFails, AllocSize, Owns;
    SmallHeapRefuses(p.h);
  }

  lemma AllocSpoilsNothing(p: Moment)
    requires Sound(p)
    ensures Tiled(p.h.blk, p.h.end) && !Spoils(p.h, CallOf(p.table, AllocId(0, 8)))
  {
    hide Owns;
  }

  /** Every run of mm_malloc(8) and mm_realloc of its pointer to MAX_HEAP bytes on a fresh heap ends with the realloc
      refused and a memory no valid heap with that block fits. */
  lemma RefusedRun(trail: seq<Moment>, ok: bool, m: Memory)
    requires Ran(REQUESTS, trail, ok, m)
    ensures !ok && NoHeapFits(m, {FIRST})
  {
    hide Inv, NoHeapFits, Returned, Owns, Spoils, Answered, Payloads, Legal;
    AllocSpoilsNothing(trail[0]);
    if |trail| > 1 {
      assert Served(trail[0], REQUESTS[0], trail[1]);
      SmallServed(trail[0], trail[1]);
      SmallSpoils(trail[1]);
    }
  }

  /** Such a run. */
  method RefusedRealloc() returns (a: Allocator, ok: bool)
    ensures fresh(a) && fresh(a.mem) && !ok && NoHeapFits(a.mem[..], {FIRST})
  {
    hide Ran, NoHeapFits;
    a := new Allocator.MemInit();
    var table;
    ghost var trail;
    ok, table, trail := Run(a, REQUESTS);
    RefusedRun(trail, ok, a.mem[..]);
  }
}
