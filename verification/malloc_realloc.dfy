/** What mm_realloc promises, and the reasoning that joins its steps. */
module ReallocSpec {
  import opened MallocSizes
  import opened Rings
  import opened HeapInvariant
  import opened MallocUndo

  /** mm_realloc has moved payload ptr to r with room for `size` bytes: every word that holds one of
      the first min(old, new) bytes is the old one, and no other live payload has changed. */
  ghost predicate Moved(m0: Memory, h0: Heap, m: Memory, h: Heap, ptr: int, r: int, size: int) {
    && r % 2 == 0 && ptr in Live(h0.blk) && r in Live(h.blk) && 4 * Live(h.blk)[r] >= size
    && (r == ptr || r !in Live(h0.blk))
    && Live(h.blk) == (Live(h0.blk) - {ptr})[r := Live(h.blk)[r]]
    && LiveKept(m0, h0.blk, m, h.blk, ptr)
    && SameWords(m0, ptr, m, r, Live(h0.blk)[ptr], size)
  }

  /** Block p starts the run of ptr: the free block that ends at ptr, or ptr itself when there is none. */
  ghost predicate StartsRun(blk: Blocks, ptr: int, p: int) {
    p in blk && if p == ptr then forall q :: q in blk && End(blk, q) == ptr ==> blk[q].used else End(blk, p) == ptr && !blk[p].used
  }

  /** Where that run ends: after the free block that starts at the end of ptr, or there. */
  ghost function RunEnd(blk: Blocks, ptr: int): int
    requires ptr in blk
  {
    var end := End(blk, ptr);
    if end in blk && !blk[end].used then End(blk, end) else end
  }

  /** Of `words` words from p on, the first n are an allocated block and the rest a free one, if it can be one. */
  ghost predicate Carved(blk: Blocks, p: int, words: int, n: int) {
    p in blk && if words - n >= 4 then blk[p] == Block(n, true) && p + n in blk && blk[p + n] == Block(words - n, false)
                else blk[p] == Block(words, true)
  }

  /** mm_realloc of ptr to a block of `size` bytes gives the start of its run exactly if the run holds it, and then
      that block is cut from the front of the run. */
  ghost predicate InPlace(b0: Blocks, ptr: int, b: Blocks, r: int, size: int)
    requires ptr in b0
  {
    forall p :: StartsRun(b0, ptr, p) ==>
      var words := RunEnd(b0, ptr) - p;
      (r == p <==> 4 * words >= size) && (r == p ==> Carved(b, p, words, size / 4))
  }

  /** Every block has a run, and it holds the block. */
  lemma RunOfBlock(blk: Blocks, end: int, ptr: int) returns (p: int)
    requires Tiled(blk, end) && ptr in blk
    ensures StartsRun(blk, ptr, p) && p <= ptr && End(blk, ptr) <= RunEnd(blk, ptr) <= end
  {
    p := ptr;
    if q :| q in blk && End(blk, q) == ptr && !blk[q].used {
      p := q;
      BlockFits(blk, end, q);
    }
    BlockFits(blk, end, ptr);
    if NextFree(blk, ptr) { BlockFits(blk, end, End(blk, ptr)); }
    hide Spaced, Chained;
  }

  /** The merge of ptr is its run. */
  lemma MergeIsRun(blk: Blocks, end: int, ptr: int, r: int)
    requires Tiled(blk, end) && ptr in blk && LeftEdge(blk, ptr, r)
    ensures StartsRun(blk, ptr, r) && forall p :: StartsRun(blk, ptr, p) ==> p == r
    ensures FIRST <= r && r + MergedWords(blk, r, ptr, NextFree(blk, ptr)) == RunEnd(blk, ptr)
  {
    BlockFits(blk, end, ptr);
    if r != ptr { BlockFits(blk, end, r); }
    forall p | StartsRun(blk, ptr, p) ensures p == r {
      if p != ptr && r != ptr { PrevUnique(blk, end, ptr, p, r); }
    }
  }

  lemma TrimmedCarves(blk: Blocks, r: int, n: int)
    requires r in blk && n > 0
    ensures Carved(Trimmed(blk, r, n), r, blk[r].words, n)
  {
  }

  ghost predicate SameWord(m0: Memory, ptr: int, m: Memory, r: int, i: int) {
    0 <= ptr + i < |m0| && 0 <= r + i < |m| && m[r + i] == m0[ptr + i]
  }

  ghost predicate SameWords(m0: Memory, ptr: int, m: Memory, r: int, n: int, size: int) {
    forall i :: 0 <= i < n && 4 * i < size ==> SameWord(m0, ptr, m, r, i)
  }

  ghost predicate Copied(m0: Memory, ptr: int, m: Memory, r: int, n: int) {
    forall i :: 0 <= i < n ==> SameWord(m0, ptr, m, r, i)
  }

  lemma LiveKeptWeaken(m: Memory, b: Blocks, m': Memory, b': Blocks, x: int)
    requires LiveKept(m, b, m', b', NULL) && NULL !in b
    ensures LiveKept(m, b, m', b', x)
  {
  }

  /** What happens to a block that is not live yet does not matter to the live ones. */
  lemma LiveKeptFresh(m: Memory, b: Blocks, m1: Memory, b1: Blocks, m2: Memory, b2: Blocks, x: int)
    requires |m| == |m1| == |m2| && x !in Live(b)
    requires LiveKept(m, b, m1, b1, NULL) && LiveKept(m1, b1, m2, b2, x)
    ensures LiveKept(m, b, m2, b2, NULL)
  {
    forall a | a in b && b[a].used && a != NULL ensures a in b2 && b2[a] == b[a] && BlockKept(m, m2, b[a], a) {
      assert a in Live(b);
      assert BlockKept(m, m1, b[a], a) && BlockKept(m1, m2, b1[a], a);
    }
  }

  /** Joining the merge with what came after it. */
  lemma JoinMoved(m0: Memory, h0: Heap, m1: Memory, b1: Blocks, m: Memory, h: Heap, ptr: int, r: int, size: Word, n: int)
    requires Tiled(h0.blk, h0.end) && ptr in Live(h0.blk) && size <= MAX_REQUEST && |m0| == |m1| == |m|
    requires Live(b1) == Live(h0.blk) - {ptr} && LiveKept(m0, h0.blk, m1, b1, ptr)
    requires PayloadKept(m0, m1, h0.blk[ptr], ptr) && NULL !in b1
    requires r % 2 == 0 && r in Live(h.blk) && 4 * Live(h.blk)[r] + 8 >= AllocSize(size)
    requires r !in Live(b1) && Live(h.blk) == Live(b1)[r := Live(h.blk)[r]] && LiveKept(m1, b1, m, h.blk, NULL)
    requires Copied(m1, ptr, m, r, n) && n == Min(4 * h0.blk[ptr].words, AllocSize(size)) / 4 - 2
    ensures Moved(m0, h0, m, h, ptr, r, size)
  {
    BlockFits(h0.blk, h0.end, ptr);
    AllocSizeExact(size);
    LiveKeptWeaken(m1, b1, m, h.blk, ptr);
    LiveKeptTrans(m0, h0.blk, m1, b1, m, h.blk, ptr);
    assert r == ptr || r !in Live(h0.blk);
    hide LiveKept, Spaced, Chained;
    forall i | 0 <= i < Live(h0.blk)[ptr] && 4 * i < size ensures SameWord(m0, ptr, m, r, i) {
      assert i < n;
      assert SameWord(m1, ptr, m, r, i);
    }
  }

  /** Marking the merged block allocated keeps it away from the allocator. */
  lemma HeldLive(m: Memory, b: Blocks, end: int, r: int, tag: Word)
    requires Tiled(b, end) && end <= |m| && r in b && !b[r].used && 0 < r && r + b[r].words <= |m|
    requires SizeOf(tag) == 4 * b[r].words
    ensures var b' := b[r := Block(b[r].words, true)];
            && Live(b') == Live(b)[r := b[r].words - 2] && r !in Live(b)
            && LiveKept(m, b, MetaPut(m, r, tag), b', NULL)
            && (forall p :: r <= p < r + b[r].words - 2 && 0 <= p < |m| ==> MetaPut(m, r, tag)[p] == m[p])
  {
    var b' := b[r := Block(b[r].words, true)];
    LivePut(b', b, r);
    BlockFits(b, end, r);
    var m' := MetaPut(m, r, tag);
    forall a | a in b && b[a].used && a != NULL ensures a in b' && b'[a] == b[a] && BlockKept(m, m', b[a], a) {
      BlockFits(b, end, a);
    }
  }

  /** Freeing the held block: every live block but it is as before. */
  lemma ReleasedLive(m: Memory, b: Blocks, end: int, r: int, tag: Word, m2: Memory)
    requires Tiled(b, end) && end <= |m| && r in b && b[r].used && 0 < r && r + b[r].words <= |m|
    requires SizeOf(tag) == 4 * b[r].words
    requires OnlyLinksChange(MetaPut(m, r, tag), m2, b[r := Block(b[r].words, false)])
    ensures var b' := b[r := Block(b[r].words, false)];
            && Live(b') == Live(b) - {r} && LiveKept(m, b, m2, b', r)
  {
    var b' := b[r := Block(b[r].words, false)];
    LiveEqual(b', b, r);
    BlockFits(b, end, r);
    var m1 := MetaPut(m, r, tag);
    MarkTiled(b, end, r, false);
    forall a | a in b && b[a].used && a != r ensures a in b' && b'[a] == b[a] && BlockKept(m, m2, b[a], a) {
      BlockFits(b, end, a);
      forall p | a - 1 <= p < a - 1 + b[a].words && 0 <= p < |m| ensures m2[p] == m[p] {
        if m2[p] != m1[p] { LinkWordsAreNotTags(b', end, a, p); }
      }
    }
  }

  // ---------------------------------------------------------------- the failing path

  /** After a failed realloc that could be undone, every live block is as it was. */
  lemma UndoneLive(m0: Memory, h0: Heap, m1: Memory, b1: Blocks, m2: Memory, b2: Blocks, m: Memory, h: Heap, ptr: int)
    requires Inv(m0, h0, {}, {}) && ptr in h0.blk && h0.blk[ptr].used && |m0| == |m1| == |m2|
    requires LiveKept(m0, h0.blk, m1, b1, ptr) && LiveKept(m1, b1, m2, b2, NULL)
    requires PayloadKept(m0, m1, h0.blk[ptr], ptr) && PayloadKept(m1, m2, h0.blk[ptr], ptr)
    requires UserKept(m2, m, h0.blk, ptr) && Inv(m, h, {}, {}) && h.blk == h0.blk && h.end == h0.end
    ensures LiveKept(m0, h0.blk, m, h.blk, NULL)
  {
    hide Spaced, Chained, Listed, Linked, Coalesced;
    forall a | a in h0.blk && h0.blk[a].used && a != NULL ensures BlockKept(m0, m, h0.blk[a], a) {
      BlockFits(h0.blk, h0.end, a);
      if a != ptr {
        assert a in b1 && b1[a] == h0.blk[a] && BlockKept(m0, m1, h0.blk[a], a);
        assert BlockKept(m1, m2, b1[a], a) && BlockKept(m2, m, h0.blk[a], a);
      } else {
        assert Tagged(m0, h0.blk[a], a) && Tagged(m, h.blk[a], a);
      }
    }
  }

  /** No well-formed heap has exactly these live payloads in this memory. */
  ghost predicate NoHeapFits(m: Memory, live: set<int>) {
    forall g: Heap :: Live(g.blk).Keys == live ==> !Inv(m, g, {}, {})
  }

  /** With the allocation bit of ptr's left neighbour gone, no heap with the same live payloads
      fits the memory. */
  lemma BrokenHeap(m0: Memory, h0: Heap, m: Memory, ptr: int)
    requires Inv(m0, h0, {}, {}) && ptr in h0.blk && !PrevFree(h0.blk, ptr) && |m| == |m0|
    requires 2 <= ptr <= |m0| && 1 <= PrevAddr(m0, ptr) && !Aloc(m[PrevAddr(m0, ptr) - 1])
    ensures NoHeapFits(m, Live(h0.blk).Keys)
  {
    hide Spaced, Chained, Listed, Linked, Coalesced;
    PrevBlock(m0, h0, ptr);
    var prev := PrevAddr(m0, ptr);
    LiveMembers(h0.blk);
    forall h: Heap | Live(h.blk).Keys == Live(h0.blk).Keys ensures !Inv(m, h, {}, {}) {
      if Inv(m, h, {}, {}) {
        if ptr != FIRST {
          assert prev in Live(h0.blk).Keys;
          assert prev in Live(h.blk).Keys;
          LiveMembers(h.blk);
          NextBlock(m, h, prev);
        }
        assert false;
      }
    }
  }

  /** uncoalesce_was_resvd after a failed allocation: the heap is whole again exactly if the block to
      the left of ptr had been merged. */
  lemma UndoFailed(m0: Memory, h0: Heap, m1: Memory, b1: Blocks, m: Memory, h: Heap, r: int, ptr: int) returns (h': Heap)
    requires Inv(m0, h0, {}, {}) && ptr in h0.blk && h0.blk[ptr].used && LeftEdge(h0.blk, ptr, r)
    requires |m0| == |m1| == |m| && 20 <= |m|
    requires End(h0.blk, ptr) != r && End(h0.blk, ptr) != ptr
    requires b1 == Merged(h0.blk, r, ptr, NextFree(h0.blk, ptr)) && r in b1 && !b1[r].used
    requires b1[r].words == MergedWords(h0.blk, r, ptr, NextFree(h0.blk, ptr)) && Live(b1) == Live(h0.blk) - {ptr}
    requires LiveKept(m0, h0.blk, m1, b1, ptr) && PayloadKept(m0, m1, h0.blk[ptr], ptr)
    requires r != ptr ==> 2 <= ptr <= |m| && m1[ptr - 2] == m0[ptr - 2]
    requires Inv(m, h, {}, {}) && h.blk == Held(b1, r) && h.end == h0.end && LiveKept(m1, b1, m, h.blk, NULL)
    requires forall p :: r <= p < r + h.blk[r].words - 2 && 0 <= p < |m| ==> m[p] == m1[p]
    ensures 0 <= 4 * h0.blk[ptr].words < 0x1_0000_0000 && UndoSafe(m, r, ptr, 4 * h0.blk[ptr].words)
    ensures var m' := Undone(m, r, ptr, 4 * h0.blk[ptr].words);
            && (PrevFree(h0.blk, ptr) ==> Inv(m', h', {}, {}) && h'.blk == h0.blk && h'.end == h0.end &&
                                          LiveKept(m0, h0.blk, m', h'.blk, NULL))
            && (!PrevFree(h0.blk, ptr) ==> NoHeapFits(m', Live(h0.blk).Keys))
  {
    hide Inv, Merged, LiveKept, Live, PayloadKept, UndoSafe, Undone, Held, MergedWords, NoHeapFits;
    if PrevFree(h0.blk, ptr) {
      h' := UndoneMerge(m0, h0, m1, b1, m, h, r, ptr);
    } else {
      h' := h;
      BrokenMerge(m0, h0, b1, m, h, ptr);
    }
  }

  lemma UndoneMerge(m0: Memory, h0: Heap, m1: Memory, b1: Blocks, m: Memory, h: Heap, r: int, ptr: int) returns (h': Heap)
    requires Inv(m0, h0, {}, {}) && ptr in h0.blk && h0.blk[ptr].used && LeftEdge(h0.blk, ptr, r) && PrevFree(h0.blk, ptr)
    requires |m0| == |m1| == |m| && 20 <= |m|
    requires End(h0.blk, ptr) != r && End(h0.blk, ptr) != ptr
    requires b1 == Merged(h0.blk, r, ptr, NextFree(h0.blk, ptr)) && r in b1 && !b1[r].used
    requires b1[r].words == MergedWords(h0.blk, r, ptr, NextFree(h0.blk, ptr))
    requires LiveKept(m0, h0.blk, m1, b1, ptr) && PayloadKept(m0, m1, h0.blk[ptr], ptr)
    requires r != ptr ==> 2 <= ptr <= |m| && m1[ptr - 2] == m0[ptr - 2]
    requires Inv(m, h, {}, {}) && h.blk == Held(b1, r) && h.end == h0.end && LiveKept(m1, b1, m, h.blk, NULL)
    requires forall p :: r <= p < r + h.blk[r].words - 2 && 0 <= p < |m| ==> m[p] == m1[p]
    ensures 0 <= 4 * h0.blk[ptr].words < 0x1_0000_0000 && UndoSafe(m, r, ptr, 4 * h0.blk[ptr].words)
    ensures var m' := Undone(m, r, ptr, 4 * h0.blk[ptr].words);
            Inv(m', h', {}, {}) && h'.blk == h0.blk && h'.end == h0.end && LiveKept(m0, h0.blk, m', h'.blk, NULL)
  {
    hide Inv, Merged, LiveKept, UndoSafe, Undone;
    InvTiled(m0, h0, {}, {});
    InvTiled(m, h, {}, {});
    BlockFits(h0.blk, h0.end, ptr);
    BlockFits(h0.blk, h0.end, r);
    FreeFooter(m0, h0, r);
    assert r <= ptr - 2 < r + h.blk[r].words - 2;
    assert m[ptr - 2] == m1[ptr - 2];
    hide Spaced, Chained, Tags, Coalesced;
    h' := UndoGood(m, h, h0.blk, r, ptr);
    UndoneLive(m0, h0, m1, b1, m, h.blk, Undone(m, r, ptr, 4 * h0.blk[ptr].words), h', ptr);
  }

  lemma BrokenMerge(m0: Memory, h0: Heap, b1: Blocks, m: Memory, h: Heap, ptr: int)
    requires Inv(m0, h0, {}, {}) && ptr in h0.blk && h0.blk[ptr].used && !PrevFree(h0.blk, ptr)
    requires |m0| == |m| && 20 <= |m| && End(h0.blk, ptr) != ptr
    requires b1 == Merged(h0.blk, ptr, ptr, NextFree(h0.blk, ptr)) && ptr in b1 && Live(b1) == Live(h0.blk) - {ptr}
    requires b1[ptr].words == MergedWords(h0.blk, ptr, ptr, NextFree(h0.blk, ptr))
    requires Inv(m, h, {}, {}) && h.blk == Held(b1, ptr)
    ensures 0 <= 4 * h0.blk[ptr].words < 0x1_0000_0000 && UndoSafe(m, ptr, ptr, 4 * h0.blk[ptr].words)
    ensures var m' := Undone(m, ptr, ptr, 4 * h0.blk[ptr].words);
            NoHeapFits(m', Live(h0.blk).Keys)
  {
    hide Inv, Merged, Live, UndoSafe, Undone, PrevAddr, Aloc, NoHeapFits, MergedWords, Held, PrevFree;
    HeldSize(m0, h0, b1, ptr);
    HeldNoPrev(h0.blk, h0.end, ptr);
    UndoBad(m, h, ptr, 4 * h0.blk[ptr].words);
    BrokenHeap(m, h, Undone(m, ptr, ptr, 4 * h0.blk[ptr].words), ptr);
    HeldKeys(h0.blk, b1, ptr);
  }

  lemma HeldSize(m0: Memory, h0: Heap, b1: Blocks, ptr: int)
    requires Inv(m0, h0, {}, {}) && ptr in h0.blk && ptr in b1
    requires b1[ptr].words == MergedWords(h0.blk, ptr, ptr, NextFree(h0.blk, ptr))
    ensures Tiled(h0.blk, h0.end) && ptr in Held(b1, ptr) && Held(b1, ptr)[ptr].used
    ensures var words, w := h0.blk[ptr].words, Held(b1, ptr)[ptr].words;
            16 <= 4 * words <= 4 * w && 4 * words % 8 == 0 && 4 * words < 0x1_0000_0000 && (w == words || 4 * w - 4 * words >= 16)
  {
    hide Tags, Listed, Linked, Coalesced;
    BlockFits(h0.blk, h0.end, ptr);
    if NextFree(h0.blk, ptr) { BlockFits(h0.blk, h0.end, End(h0.blk, ptr)); }
    hide Spaced, Chained;
  }

  lemma FreeFooter(m: Memory, h: Heap, r: int)
    requires Tiled(h.blk, h.end) && h.end <= |m| && Tags(m, h, {}) && r in h.blk
    ensures 0 <= End(h.blk, r) - 2 < |m| && m[End(h.blk, r) - 2] == TagOf(h.blk[r])
  {
    BlockFits(h.blk, h.end, r);
    assert Tagged(m, h.blk[r], r);
  }

  lemma HeldNoPrev(blk: Blocks, end: int, ptr: int)
    requires Tiled(blk, end) && ptr in blk && !PrevFree(blk, ptr)
    ensures NextFree(blk, ptr) ==> End(blk, ptr) != ptr
    ensures ptr in Merged(blk, ptr, ptr, NextFree(blk, ptr))
    ensures !PrevFree(Held(Merged(blk, ptr, ptr, NextFree(blk, ptr)), ptr), ptr)
  {
    hide Spaced, Chained, Merged;
    MergedBlocks(blk, end, ptr, ptr, NextFree(blk, ptr));
    var b := Held(Merged(blk, ptr, ptr, NextFree(blk, ptr)), ptr);
    forall p | p in b && End(b, p) == ptr ensures b[p].used {
      if p != ptr { assert End(blk, p) == ptr; }
    }
  }

  lemma HeldKeys(blk: Blocks, b1: Blocks, ptr: int)
    requires ptr in blk && blk[ptr].used && ptr in b1 && Live(b1) == Live(blk) - {ptr}
    ensures Live(Held(b1, ptr)).Keys == Live(blk).Keys
  {
    LiveMembers(blk);
    LiveMembers(b1);
    LiveMembers(Held(b1, ptr));
    forall a ensures a in Live(Held(b1, ptr)).Keys <==> a in Live(blk).Keys {
      assert a != ptr ==> (a in Live(b1) <==> a in Live(blk));
    }
  }
}
