/** The state of the allocator's heap and its invariant. Addresses are word indices (a byte address
    divided by WSIZE): index 0 is NULL, index 1 is the word below the break start where the prologue
    header goes, and the heap proper starts at BASE. Tags hold sizes in bytes, as in the source. */
module HeapInvariant {
  import opened MallocSizes
  import opened Rings

  const NULL: int := 0
  const BASE: int := 2         // begin_heap, right after mem_init
  const FIRST: int := 22       // the first block: BASE plus a prologue of 80 bytes
  const PROLOGUE: Word := 81   // PACK(80, 1)
  const EPILOGUE: Word := 5    // PACK(WSIZE, 1)

  /** A block: its size in words, and whether its tags say it is allocated. */
  datatype Block = Block(words: int, used: bool)

  type Blocks = map<int, Block>

  /** The blocks by payload address, the nine free lists (each with its head), the break. */
  datatype Heap = Heap(blk: Blocks, rings: seq<seq<int>>, end: int)

  function End(blk: Blocks, a: int): int
    requires a in blk
  {
    a + blk[a].words
  }

  ghost predicate HasPrev(blk: Blocks, a: int) {
    exists p :: p in blk && End(blk, p) == a
  }

  ghost predicate Fits(b: Block, a: int, end: int) {
    FIRST <= a && a % 2 == 0 && b.words % 2 == 0 && b.words >= 4 && a + b.words <= end
  }

  ghost predicate Spaced(blk: Blocks, end: int) {
    && FIRST in blk
    && (forall a :: a in blk ==> Fits(blk[a], a, end))
    && (forall a, b :: a in blk && b in blk && a < b ==> a + blk[a].words <= b)
  }

  ghost predicate Chained(blk: Blocks, end: int) {
    && (forall a {:trigger End(blk, a)} :: a in blk ==> End(blk, a) == end || End(blk, a) in blk)
    && (forall a {:trigger HasPrev(blk, a)} :: a in blk && a != FIRST ==> HasPrev(blk, a))
  }

  /** The blocks tile the heap from the prologue to the epilogue. */
  ghost predicate Tiled(blk: Blocks, end: int) {
    Spaced(blk, end) && Chained(blk, end)
  }

  function TagOf(b: Block): int {
    4 * b.words + if b.used then 1 else 0
  }

  function Class(b: Block): int {
    if b.words >= 4 then ClassOf(4 * b.words) else 0
  }

  function Head(c: int): int {
    BASE + 2 * c
  }

  ghost predicate Tagged(m: Memory, b: Block, a: int)
    requires 0 < a && 4 <= b.words && a + b.words <= |m|
  {
    m[a - 1] == TagOf(b) && m[a + b.words - 2] == TagOf(b)
  }

  /** Every block outside E has its tag in its header and its footer. */
  ghost predicate Tags(m: Memory, h: Heap, E: set<int>)
    requires Tiled(h.blk, h.end) && h.end <= |m|
  {
    && m[1] == PROLOGUE && m[FIRST - 2] == PROLOGUE && m[h.end - 1] == EPILOGUE
    && (forall a :: a in h.blk && a !in E ==> Tagged(m, h.blk[a], a))
  }

  ghost predicate OnList(blk: Blocks, X: set<int>, c: int, x: int) {
    x in blk && !blk[x].used && x !in X && Class(blk[x]) == c
  }

  /** The lists hold exactly the free blocks outside X, each on the list of its class. */
  ghost predicate Listed(blk: Blocks, rings: seq<seq<int>>, X: set<int>) {
    && |rings| == NCLASSES
    && (forall c :: 0 <= c < NCLASSES ==> |rings[c]| > 0 && rings[c][0] == Head(c))
    && (forall c, k :: 0 <= c < NCLASSES && 1 <= k < |rings[c]| ==> OnList(blk, X, c, rings[c][k]))
    && (forall a :: a in blk && !blk[a].used && a !in X ==> a in rings[Class(blk[a])])
  }

  ghost predicate Linked(m: Memory, rings: seq<seq<int>>) {
    forall c :: 0 <= c < |rings| ==> Ring(m, rings[c])
  }

  /** No two neighbours outside X are both free. */
  ghost predicate Coalesced(blk: Blocks, X: set<int>) {
    forall a {:trigger End(blk, a)} ::
      a in blk && End(blk, a) in blk && a !in X && End(blk, a) !in X ==> blk[a].used || blk[End(blk, a)].used
  }

  /** The invariant, while the blocks of X are off the lists and the tags of those in E are stale. */
  ghost predicate Inv(m: Memory, h: Heap, X: set<int>, E: set<int>) {
    && h.end <= |m| < 0x4000_0000
    && Tiled(h.blk, h.end)
    && Tags(m, h, E)
    && Listed(h.blk, h.rings, X)
    && Linked(m, h.rings)
    && Coalesced(h.blk, X)
  }

  /** The neighbours of r are allocated. */
  ghost predicate Isolated(blk: Blocks, r: int)
    requires r in blk
  {
    && (End(blk, r) in blk ==> blk[End(blk, r)].used)
    && (forall p {:trigger End(blk, p)} :: p in blk && End(blk, p) == r ==> blk[p].used)
  }

  // ---------------------------------------------------------------- frames

  /** p is a link word: of a list head or of a free block. */
  ghost predicate LinkWord(blk: Blocks, p: int) {
    || BASE <= p < BASE + 2 * NCLASSES
    || (p in blk && !blk[p].used)
    || (p - 1 in blk && !blk[p - 1].used)
  }

  ghost predicate OnlyLinksChange(m: Memory, m': Memory, blk: Blocks) {
    |m'| == |m| && forall p :: 0 <= p < |m| && m'[p] != m[p] ==> LinkWord(blk, p)
  }

  lemma LinkWordsAreNotTags(blk: Blocks, end: int, a: int, p: int)
    requires Tiled(blk, end) && a in blk && LinkWord(blk, p)
    ensures p != a - 1 && p != a + blk[a].words - 2 && p != end - 1 && p != 1 && p != FIRST - 2
    ensures blk[a].used ==> !(a - 1 <= p < a + blk[a].words - 1)
    ensures !(a + 2 <= p < a + blk[a].words - 1)
  {
    assert Fits(blk[a], a, end);
    if p in blk && !blk[p].used {
      assert Fits(blk[p], p, end);
    } else if p - 1 in blk && !blk[p - 1].used {
      assert Fits(blk[p - 1], p - 1, end);
    }
  }

  lemma TagsFrame(m: Memory, m': Memory, h: Heap, E: set<int>)
    requires Tiled(h.blk, h.end) && h.end <= |m| && Tags(m, h, E) && OnlyLinksChange(m, m', h.blk)
    ensures Tags(m', h, E)
  {
    assert Fits(h.blk[FIRST], FIRST, h.end);
    forall p | 0 <= p < |m| && LinkWord(h.blk, p) ensures p != h.end - 1 && p != 1 && p != FIRST - 2 {
      LinkWordsAreNotTags(h.blk, h.end, FIRST, p);
    }
    forall a | a in h.blk && a !in E ensures Tagged(m', h.blk[a], a) {
      assert Tagged(m, h.blk[a], a);
      if m'[a - 1] != m[a - 1] { LinkWordsAreNotTags(h.blk, h.end, a, a - 1); }
      var f := a + h.blk[a].words - 2;
      if m'[f] != m[f] { LinkWordsAreNotTags(h.blk, h.end, a, f); }
    }
  }

  /** Block a keeps every word it has, tags included. */
  ghost predicate BlockKept(m: Memory, m': Memory, b: Block, a: int) {
    forall p :: a - 1 <= p < a - 1 + b.words && 0 <= p < |m| && p < |m'| ==> m'[p] == m[p]
  }

  /** Every allocated block other than x stays allocated, with every word it had. */
  ghost predicate LiveKept(m: Memory, blk: Blocks, m': Memory, blk': Blocks, x: int) {
    forall a :: a in blk && blk[a].used && a != x ==> a in blk' && blk'[a] == blk[a] && BlockKept(m, m', blk[a], a)
  }

  lemma LiveFrame(m: Memory, m': Memory, h: Heap, x: int)
    requires Tiled(h.blk, h.end) && OnlyLinksChange(m, m', h.blk)
    ensures LiveKept(m, h.blk, m', h.blk, x)
  {
    forall a, p | a in h.blk && h.blk[a].used && a - 1 <= p < a - 1 + h.blk[a].words && 0 <= p < |m|
      ensures m'[p] == m[p]
    {
      if m'[p] != m[p] { LinkWordsAreNotTags(h.blk, h.end, a, p); }
    }
  }

  // ---------------------------------------------------------------- list steps

  /** The nodes of two different lists differ. */
  lemma RingsApart(h: Heap, X: set<int>, c: int, j: int, d: int, k: int)
    requires Tiled(h.blk, h.end) && Listed(h.blk, h.rings, X)
    requires 0 <= c < NCLASSES && 0 <= d < NCLASSES && c != d && 0 <= j < |h.rings[c]| && 0 <= k < |h.rings[d]|
    ensures h.rings[c][j] != h.rings[d][k]
  {
    if j > 0 {
      assert OnList(h.blk, X, c, h.rings[c][j]);
      assert Fits(h.blk[h.rings[c][j]], h.rings[c][j], h.end);
    }
    if k > 0 {
      assert OnList(h.blk, X, d, h.rings[d][k]);
      assert Fits(h.blk[h.rings[d][k]], h.rings[d][k], h.end);
    }
  }

  /** Stores into link words of list c (or of a node outside every list) leave list d alone. */
  lemma OtherRings(m: Memory, m': Memory, h: Heap, X: set<int>, c: int, d: int, node: int)
    requires Tiled(h.blk, h.end) && Listed(h.blk, h.rings, X) && Linked(m, h.rings)
    requires 0 <= c < NCLASSES && 0 <= d < NCLASSES && c != d && |m'| == |m|
    requires node % 2 == 0 && node !in h.rings[d]
    requires forall p :: 0 <= p < |m| && m'[p] != m[p] ==>
               p == node || p == node + 1 || p in h.rings[c] || p - 1 in h.rings[c]
    ensures Ring(m', h.rings[d])
  {
    assert Ring(m, h.rings[d]) && Ring(m, h.rings[c]);
    forall k | 0 <= k < |h.rings[d]|
      ensures m'[h.rings[d][k]] == m[h.rings[d][k]] && m'[h.rings[d][k] + 1] == m[h.rings[d][k] + 1]
    {
      var x := h.rings[d][k];
      forall j | 0 <= j < |h.rings[c]| ensures h.rings[c][j] != x {
        RingsApart(h, X, c, j, d, k);
      }
      assert x !in h.rings[c];
      assert x - 1 !in h.rings[c] && x + 1 !in h.rings[c];
    }
    RingFrame(m, m', h.rings[d]);
  }

  lemma RingNodeIsLink(h: Heap, X: set<int>, c: int, k: int)
    requires Listed(h.blk, h.rings, X) && 0 <= c < NCLASSES && 0 <= k < |h.rings[c]|
    ensures LinkWord(h.blk, h.rings[c][k]) && LinkWord(h.blk, h.rings[c][k] + 1)
  {
    if k > 0 { assert OnList(h.blk, X, c, h.rings[c][k]); }
  }

  ghost function Reserved(h: Heap, c: int, k: int): Heap
    requires 0 <= c < |h.rings| && 0 < k < |h.rings[c]|
  {
    h.(rings := h.rings[c := Removed(h.rings[c], k)])
  }

  ghost function Freed(h: Heap, c: int, node: int): Heap
    requires 0 <= c < |h.rings| && |h.rings[c]| > 0
  {
    h.(rings := h.rings[c := Inserted(h.rings[c], node)])
  }

  /** A free block outside X sits on its list, behind the head. */
  lemma FindOnList(h: Heap, X: set<int>, node: int) returns (k: int)
    requires Tiled(h.blk, h.end) && Listed(h.blk, h.rings, X)
    requires node in h.blk && !h.blk[node].used && node !in X
    ensures var c := Class(h.blk[node]); 0 <= c < NCLASSES && 0 < k < |h.rings[c]| && h.rings[c][k] == node
  {
    var c := Class(h.blk[node]);
    assert Fits(h.blk[node], node, h.end);
    k :| 0 <= k < |h.rings[c]| && h.rings[c][k] == node;
  }

  lemma ReserveListed(h: Heap, X: set<int>, c: int, k: int)
    requires Tiled(h.blk, h.end) && Listed(h.blk, h.rings, X)
    requires 0 <= c < NCLASSES && 0 < k < |h.rings[c]| && OnList(h.blk, X, c, h.rings[c][k])
    requires forall i :: 0 <= i < |h.rings[c]| && i != k ==> h.rings[c][i] != h.rings[c][k]
    ensures Listed(h.blk, Reserved(h, c, k).rings, X + {h.rings[c][k]})
  {
    var node := h.rings[c][k];
    var rings := Reserved(h, c, k).rings;
    var r := Removed(h.rings[c], k);
    assert forall i :: 0 <= i < |r| ==> r[i] == h.rings[c][if i < k then i else i + 1];
    forall d, i | 0 <= d < NCLASSES && 1 <= i < |rings[d]|
      ensures OnList(h.blk, X + {node}, d, rings[d][i])
    {
      if d == c {
        assert OnList(h.blk, X, c, h.rings[c][if i < k then i else i + 1]);
      } else {
        assert OnList(h.blk, X, d, h.rings[d][i]);
      }
    }
    forall a | a in h.blk && !h.blk[a].used && a !in X + {node}
      ensures a in rings[Class(h.blk[a])]
    {
      var i := FindOnList(h, X, a);
      if Class(h.blk[a]) == c {
        assert r[if i < k then i else i - 1] == a;
      }
    }
  }

  lemma RingOf(m: Memory, h: Heap, X: set<int>, c: int)
    requires Listed(h.blk, h.rings, X) && Linked(m, h.rings) && 0 <= c < NCLASSES
    ensures |h.rings| == NCLASSES && |h.rings[c]| > 0 && Ring(m, h.rings[c]) && h.rings[c][0] == Head(c)
  {
  }

  lemma ReserveLinks(m: Memory, h: Heap, X: set<int>, c: int, k: int)
    requires Tiled(h.blk, h.end) && Listed(h.blk, h.rings, X) && Linked(m, h.rings)
    requires 0 <= c < NCLASSES && 0 < k < |h.rings[c]|
    ensures m[h.rings[c][k]] < |m| - 1 && m[h.rings[c][k] + 1] < |m|
    ensures OnlyLinksChange(m, RemoveLinks(m, h.rings[c][k]), h.blk)
    ensures Ring(RemoveLinks(m, h.rings[c][k]), Removed(h.rings[c], k))
    ensures forall p :: 0 <= p < |m| && RemoveLinks(m, h.rings[c][k])[p] != m[p] ==> p in h.rings[c] || p - 1 in h.rings[c]
  {
    RingOf(m, h, X, c);
    var ring := h.rings[c];
    RemoveRing(m, ring, k);
    assert LinkOk(m, ring, k);
    RingNodeIsLink(h, X, c, if k + 1 < |ring| then k + 1 else 0);
    RingNodeIsLink(h, X, c, k - 1);
    assert NextOf(ring, k) in ring && PrevOf(ring, k) in ring;
    hide Spaced, Chained, Listed, Ring;
  }

  lemma ReserveLinked(m: Memory, h: Heap, X: set<int>, c: int, k: int)
    requires Tiled(h.blk, h.end) && Listed(h.blk, h.rings, X) && Linked(m, h.rings)
    requires 0 <= c < NCLASSES && 0 < k < |h.rings[c]|
    ensures m[h.rings[c][k]] < |m| - 1 && m[h.rings[c][k] + 1] < |m|
    ensures Linked(RemoveLinks(m, h.rings[c][k]), Reserved(h, c, k).rings)
    ensures OnlyLinksChange(m, RemoveLinks(m, h.rings[c][k]), h.blk)
  {
    ReserveLinks(m, h, X, c, k);
    RingOf(m, h, X, c);
    var node := h.rings[c][k];
    assert OnList(h.blk, X, c, node) && node % 2 == 0;
    var m' := RemoveLinks(m, node);
    hide Spaced, Chained, RemoveLinks, OnlyLinksChange, Ring, LinkWord;
    forall d | 0 <= d < NCLASSES && d != c ensures Ring(m', h.rings[d]) {
      RingOf(m, h, X, d);
      forall i | 0 <= i < |h.rings[d]| ensures h.rings[d][i] != node { RingsApart(h, X, c, k, d, i); }
      OtherRings(m, m', h, X, c, d, node);
    }
    hide Listed;
  }

  /** resv_node takes a free block off its list; every tag and every allocated block stays. */
  lemma ReserveInv(m: Memory, h: Heap, X: set<int>, E: set<int>, c: int, k: int)
    requires Inv(m, h, X, E) && 0 <= c < NCLASSES && 0 < k < |h.rings[c]|
    ensures var node := h.rings[c][k];
            && 0 <= node < |m| - 1 && m[node] < |m| - 1 && m[node + 1] < |m|
            && Inv(RemoveLinks(m, node), Reserved(h, c, k), X + {node}, E)
            && OnlyLinksChange(m, RemoveLinks(m, node), h.blk)
  {
    var node := h.rings[c][k];
    assert Ring(m, h.rings[c]) && OnList(h.blk, X, c, node);
    ReserveLinked(m, h, X, c, k);
    TagsFrame(m, RemoveLinks(m, node), h, E);
    ReserveListed(h, X, c, k);
  }

  lemma FreeListed(h: Heap, X: set<int>, node: int)
    requires Tiled(h.blk, h.end) && Listed(h.blk, h.rings, X)
    requires node in h.blk && !h.blk[node].used && node in X
    ensures Listed(h.blk, Freed(h, Class(h.blk[node]), node).rings, X - {node})
  {
    var c := Class(h.blk[node]);
    var rings := Freed(h, c, node).rings;
    var r := Inserted(h.rings[c], node);
    assert forall i :: 2 <= i < |r| ==> r[i] == h.rings[c][i - 1];
    forall d, i | 0 <= d < NCLASSES && 1 <= i < |rings[d]|
      ensures OnList(h.blk, X - {node}, d, rings[d][i])
    {
      if d != c {
        assert OnList(h.blk, X, d, h.rings[d][i]);
      } else if i >= 2 {
        assert OnList(h.blk, X, c, h.rings[c][i - 1]);
      }
    }
    forall a | a in h.blk && !h.blk[a].used && a !in X - {node}
      ensures a in rings[Class(h.blk[a])]
    {
      if a == node {
        assert r[1] == node;
      } else {
        var i := FindOnList(h, X, a);
        if Class(h.blk[a]) == c { assert r[i + 1] == a; }
      }
    }
  }

  lemma FreeLinked(m: Memory, h: Heap, X: set<int>, node: int)
    requires Tiled(h.blk, h.end) && Listed(h.blk, h.rings, X) && Linked(m, h.rings)
    requires h.end <= |m| < 0x4000_0000 && node in h.blk && !h.blk[node].used && node in X
    ensures var c := Class(h.blk[node]);
            && Head(c) < |m| && m[Head(c)] < |m| - 1 && node + 1 < |m|
            && Linked(InsertLinks(m, Head(c), node), Freed(h, c, node).rings)
            && OnlyLinksChange(m, InsertLinks(m, Head(c), node), h.blk)
  {
    var c := Class(h.blk[node]);
    var ring := h.rings[c];
    assert Fits(h.blk[node], node, h.end) && Ring(m, ring) && ring[0] == Head(c);
    forall d, i | 0 <= d < NCLASSES && 0 <= i < |h.rings[d]| ensures h.rings[d][i] != node {
      if i > 0 { assert OnList(h.blk, X, d, h.rings[d][i]); }
    }
    InsertRing(m, ring, node);
    assert LinkOk(m, ring, 0);
    var m' := InsertLinks(m, Head(c), node);
    RingNodeIsLink(h, X, c, 0);
    RingNodeIsLink(h, X, c, if 1 < |ring| then 1 else 0);
    assert NextOf(ring, 0) in ring && Head(c) in ring;
    forall d | 0 <= d < NCLASSES && d != c ensures Ring(m', h.rings[d]) {
      OtherRings(m, m', h, X, c, d, node);
    }
  }

  /** free_node puts a reserved block on the list of its class; nothing else changes. */
  lemma FreeInv(m: Memory, h: Heap, X: set<int>, E: set<int>, node: int)
    requires Inv(m, h, X, E) && node in h.blk && !h.blk[node].used && node in X
    requires Coalesced(h.blk, X - {node})
    ensures var c := Class(h.blk[node]);
            && Head(c) < |m| && m[Head(c)] < |m| - 1 && node + 1 < |m|
            && Inv(InsertLinks(m, Head(c), node), Freed(h, c, node), X - {node}, E)
            && OnlyLinksChange(m, InsertLinks(m, Head(c), node), h.blk)
  {
    hide Spaced, Chained;
    BlockFits(h.blk, h.end, node);
    FreeLinked(m, h, X, node);
    TagsFrame(m, InsertLinks(m, Head(Class(h.blk[node])), node), h, E);
    FreeListed(h, X, node);
    hide Linked;
  }

  // ---------------------------------------------------------------- tag steps

  // META_PUT: the same tag into the header and the footer its size points at.
  function MetaPut(m: Memory, bp: int, tag: Word): (m': Memory)
    requires 0 < bp && bp - 1 < |m| && 0 <= bp + SizeOf(tag) / 4 - 2 < |m|
    ensures |m'| == |m|
  {
    m[bp - 1 := tag][bp + SizeOf(tag) / 4 - 2 := tag]
  }

  lemma MetaPutLinks(m: Memory, h: Heap, X: set<int>, r: int, m': Memory)
    requires Tiled(h.blk, h.end) && Listed(h.blk, h.rings, X) && Linked(m, h.rings)
    requires r in h.blk && (h.blk[r].used || r in X) && |m'| == |m|
    requires forall p :: 0 <= p < |m| && m'[p] != m[p] ==> p == r - 1 || p == r + h.blk[r].words - 2
    ensures Linked(m', h.rings)
  {
    assert Fits(h.blk[r], r, h.end);
    forall d | 0 <= d < NCLASSES ensures Ring(m', h.rings[d]) {
      assert Ring(m, h.rings[d]);
      forall k | 0 <= k < |h.rings[d]|
        ensures m'[h.rings[d][k]] == m[h.rings[d][k]] && m'[h.rings[d][k] + 1] == m[h.rings[d][k] + 1]
      {
        RingNodeIsLink(h, X, d, k);
        LinkWordsAreNotTags(h.blk, h.end, r, h.rings[d][k]);
        LinkWordsAreNotTags(h.blk, h.end, r, h.rings[d][k] + 1);
      }
      RingFrame(m, m', h.rings[d]);
    }
  }

  /** META_PUT of a block's own tag makes it good; only the block's two tag words change. */
  lemma MetaPutInv(m: Memory, h: Heap, X: set<int>, E: set<int>, r: int, tag: Word)
    requires Inv(m, h, X, E) && r in h.blk && (h.blk[r].used || r in X) && tag == TagOf(h.blk[r])
    ensures SizeOf(tag) == 4 * h.blk[r].words && 0 < r && r + h.blk[r].words <= |m|
    ensures Inv(MetaPut(m, r, tag), h, X, E - {r})
  {
    assert Fits(h.blk[r], r, h.end);
    assert SizeOf(tag) == 4 * h.blk[r].words;
    var m' := MetaPut(m, r, tag);
    MetaPutLinks(m, h, X, r, m');
    forall a | a in h.blk && a !in E - {r} ensures Tagged(m', h.blk[a], a) {
      assert Fits(h.blk[a], a, h.end);
      if a != r { assert Tagged(m, h.blk[a], a); }
    }
  }

  // ---------------------------------------------------------------- changing the tiling

  /** A new tiling with the same free blocks outside X and X' fits the same lists. */
  lemma RetileListed(blk: Blocks, blk': Blocks, rings: seq<seq<int>>, X: set<int>, X': set<int>)
    requires Listed(blk, rings, X)
    requires forall a :: a in blk && !blk[a].used && a !in X ==> a in blk' && blk'[a] == blk[a] && a !in X'
    requires forall a :: a in blk' && !blk'[a].used && a !in X' ==> a in blk && blk[a] == blk'[a] && a !in X
    ensures Listed(blk', rings, X')
  {
    forall c, k | 0 <= c < NCLASSES && 1 <= k < |rings[c]| ensures OnList(blk', X', c, rings[c][k]) {
      assert OnList(blk, X, c, rings[c][k]);
    }
  }

  lemma RetileTags(m: Memory, h: Heap, blk': Blocks, E: set<int>, E': set<int>)
    requires Tiled(h.blk, h.end) && h.end <= |m| && Tags(m, h, E) && Tiled(blk', h.end)
    requires forall a :: a in blk' && a !in E' ==> a in h.blk && h.blk[a] == blk'[a] && a !in E
    ensures Tags(m, h.(blk := blk'), E')
  {
    hide Spaced, Chained;
    forall x | x in blk' && x !in E' ensures FIRST <= x && 4 <= blk'[x].words && x + blk'[x].words <= |m| && Tagged(m, blk'[x], x) {
      BlockFits(blk', h.end, x);
      assert Tagged(m, h.blk[x], x);
    }
  }

  lemma BlockFits(blk: Blocks, end: int, a: int)
    requires Tiled(blk, end) && a in blk
    ensures Fits(blk[a], a, end)
  {
  }

  function Join(blk: Blocks, a: int, b: int): Blocks
    requires a in blk && b in blk
  {
    (blk - {b})[a := Block(blk[a].words + blk[b].words, false)]
  }

  lemma JoinBlocks(blk: Blocks, a: int, b: int)
    requires a in blk && b in blk && a != b
    ensures var blk' := Join(blk, a, b);
            && a in blk' && b !in blk' && blk'[a].words == blk[a].words + blk[b].words
            && (forall x :: x in blk' && x != a ==> x in blk && blk'[x] == blk[x])
            && (forall x :: x in blk && x != a && x != b ==> x in blk' && blk'[x] == blk[x])
  {
  }

  lemma PairSpaced(blk: Blocks, end: int, a: int, b: int)
    requires Spaced(blk, end) && a in blk && b in blk && a != b
    ensures a + blk[a].words <= b || b + blk[b].words <= a
  {
  }

  lemma JoinSpaced(blk: Blocks, end: int, a: int, b: int)
    requires Spaced(blk, end) && a in blk && b in blk && End(blk, a) == b
    ensures Spaced(Join(blk, a, b), end)
  {
    hide Join;
    var blk' := Join(blk, a, b);
    assert Fits(blk[a], a, end) && Fits(blk[b], b, end);
    JoinBlocks(blk, a, b);
    forall x | x in blk' ensures Fits(blk'[x], x, end) {
      assert Fits(blk[x], x, end);
    }
    forall x, y | x in blk' && y in blk' && x < y ensures x + blk'[x].words <= y {
      assert x + blk[x].words <= y && y != b;
      if x == a { PairSpaced(blk, end, b, y); }
    }
  }

  lemma JoinTiled(blk: Blocks, end: int, a: int, b: int)
    requires Tiled(blk, end) && a in blk && b in blk && End(blk, a) == b
    ensures Tiled(Join(blk, a, b), end)
  {
    hide Join, Spaced;
    var blk' := Join(blk, a, b);
    BlockFits(blk, end, a);
    BlockFits(blk, end, b);
    JoinBlocks(blk, a, b);
    JoinSpaced(blk, end, a, b);
    assert End(blk, b) == End(blk', a);
    forall x | x in blk' ensures End(blk', x) == end || End(blk', x) in blk' {
      JoinEnd(blk, end, a, b, x);
    }
    forall x | x in blk' && x != FIRST ensures HasPrev(blk', x) {
      var p := PrevOfBlock(blk, end, x);
      var p' := if p == b then a else p;
      assert p' in blk' && End(blk', p') == x;
    }
  }

  lemma JoinEnd(blk: Blocks, end: int, a: int, b: int, x: int)
    requires Tiled(blk, end) && a in blk && b in blk && End(blk, a) == b && x in blk && x != b
    ensures x != a ==> End(blk, x) != b
    ensures End(blk, b) == end || End(blk, b) in blk
    ensures End(blk, b) != b
    ensures x != a ==> End(blk, x) == end || End(blk, x) in blk
  {
    BlockFits(blk, end, b);
    if x != a && End(blk, x) == b { PrevUnique(blk, end, b, x, a); }
  }

  /** Merging two reserved or allocated neighbours keeps everything but the merged block's tags. */
  lemma JoinInv(m: Memory, h: Heap, X: set<int>, E: set<int>, a: int, b: int)
    requires Inv(m, h, X, E) && a in h.blk && b in h.blk && End(h.blk, a) == b
    requires (h.blk[a].used || a in X) && (h.blk[b].used || b in X)
    ensures Inv(m, h.(blk := Join(h.blk, a, b)), X - {b} + {a}, E + {a})
  {
    BlockFits(h.blk, h.end, a);
    hide Spaced, Chained, Tags, Listed, Linked, Join;
    JoinBlocks(h.blk, a, b);
    var blk' := Join(h.blk, a, b);
    var X' := X - {b} + {a};
    JoinTiled(h.blk, h.end, a, b);
    RetileListed(h.blk, blk', h.rings, X, X');
    RetileTags(m, h, blk', E, E + {a});
    forall x {:trigger End(blk', x)} | x in blk' && End(blk', x) in blk' && x !in X' && End(blk', x) !in X'
      ensures blk'[x].used || blk'[End(blk', x)].used
    {
      assert End(blk', x) == End(h.blk, x);
    }
  }

  /** Splitting block r at `words`: the front is allocated, the tail is free. */
  function Split(blk: Blocks, r: int, words: int): Blocks
    requires r in blk
  {
    blk[r := Block(words, true)][r + words := Block(blk[r].words - words, false)]
  }

  lemma SplitBlocks(blk: Blocks, r: int, words: int)
    requires r in blk && words != 0
    ensures var blk', t := Split(blk, r, words), r + words;
            && r in blk' && blk'[r] == Block(words, true)
            && t in blk' && blk'[t] == Block(blk[r].words - words, false)
            && (forall x :: x in blk' && x != r && x != t ==> x in blk && blk'[x] == blk[x])
            && (forall x :: x in blk && x != r && x != t ==> x in blk' && blk'[x] == blk[x])
  {
  }

  /** No block starts strictly inside another. */
  lemma NoneInside(blk: Blocks, end: int, r: int, t: int)
    requires Spaced(blk, end) && r in blk && r < t < r + blk[r].words
    ensures t !in blk
  {
  }

  lemma SplitSpaced(blk: Blocks, end: int, r: int, words: int)
    requires Spaced(blk, end) && r in blk && 4 <= words <= blk[r].words - 4 && words % 2 == 0
    ensures Spaced(Split(blk, r, words), end) && r + words !in blk
  {
    hide Split;
    var blk' := Split(blk, r, words);
    var t := r + words;
    SplitBlocks(blk, r, words);
    SplitFits(blk, end, r, words);
    NoneInside(blk, end, r, t);
    forall a, b | a in blk' && b in blk' && a < b ensures a + blk'[a].words <= b {
      SplitPair(blk, end, r, t, a, b);
    }
  }

  lemma SplitFits(blk: Blocks, end: int, r: int, words: int)
    requires r in blk && 4 <= words <= blk[r].words - 4 && words % 2 == 0
    requires forall x :: x in blk ==> Fits(blk[x], x, end)
    ensures forall x :: x in Split(blk, r, words) ==> Fits(Split(blk, r, words)[x], x, end)
    ensures r >= FIRST
  {
    hide Split;
    SplitBlocks(blk, r, words);
    assert Fits(blk[r], r, end);
    forall x | x in Split(blk, r, words) ensures Fits(Split(blk, r, words)[x], x, end) {
      if x != r + words && x != r { assert Fits(blk[x], x, end); }
    }
  }

  lemma SplitPair(blk: Blocks, end: int, r: int, t: int, a: int, b: int)
    requires Spaced(blk, end) && r in blk && r < t < r + blk[r].words
    requires (a in blk || a == t) && (b in blk || b == t) && a < b
    ensures (if a == r then t else if a == t then r + blk[r].words else a + blk[a].words) <= b
  {
    NoneInside(blk, end, r, t);
    if a in blk && b in blk {
      assert a + blk[a].words <= b;
    } else if a in blk {
      if a != r { PairSpaced(blk, end, a, r); }
    } else {
      assert r + blk[r].words <= b;
    }
  }

  lemma SplitTiled(blk: Blocks, end: int, r: int, words: int)
    requires Tiled(blk, end) && r in blk && 4 <= words <= blk[r].words - 4 && words % 2 == 0
    ensures Tiled(Split(blk, r, words), end) && r + words !in blk
  {
    hide Split, Spaced;
    var blk' := Split(blk, r, words);
    var t := r + words;
    SplitBlocks(blk, r, words);
    SplitSpaced(blk, end, r, words);
    BlockFits(blk, end, r);
    assert End(blk', t) == End(blk, r) && End(blk', r) == t;
    forall x | x in blk' ensures End(blk', x) == end || End(blk', x) in blk' {
      if x != r && x != t { assert End(blk', x) == End(blk, x); }
    }
    forall x | x in blk' && x != FIRST ensures HasPrev(blk', x) {
      if x == t {
        assert r in blk' && End(blk', r) == t;
      } else {
        assert HasPrev(blk, x);
        var p :| p in blk && End(blk, p) == x;
        var p' := if p == r then t else p;
        assert p' in blk' && End(blk', p') == x;
      }
    }
  }

  lemma SplitInv(m: Memory, h: Heap, X: set<int>, E: set<int>, r: int, words: int)
    requires Inv(m, h, X, E) && r in h.blk && (h.blk[r].used || r in X)
    requires 4 <= words <= h.blk[r].words - 4 && words % 2 == 0
    ensures Inv(m, h.(blk := Split(h.blk, r, words)), X - {r} + {r + words}, E + {r, r + words})
  {
    hide Spaced, Chained, Tags, Listed, Linked, Split;
    SplitBlocks(h.blk, r, words);
    var blk' := Split(h.blk, r, words);
    var t := r + words;
    var X' := X - {r} + {t};
    SplitTiled(h.blk, h.end, r, words);
    RetileListed(h.blk, blk', h.rings, X, X');
    RetileTags(m, h, blk', E, E + {r, t});
    forall x {:trigger End(blk', x)} | x in blk' && End(blk', x) in blk' && x !in X' && End(blk', x) !in X'
      ensures blk'[x].used || blk'[End(blk', x)].used
    {
      if x != r { assert End(blk', x) == End(h.blk, x); }
    }
  }

  lemma MarkTiled(blk: Blocks, end: int, r: int, used: bool)
    requires Tiled(blk, end) && r in blk
    ensures Tiled(blk[r := Block(blk[r].words, used)], end)
  {
    var blk' := blk[r := Block(blk[r].words, used)];
    forall x | x in blk' ensures Fits(blk'[x], x, end) {
      assert Fits(blk[x], x, end);
    }
    forall x | x in blk' ensures End(blk', x) == end || End(blk', x) in blk' {
      assert End(blk', x) == End(blk, x);
    }
    forall x | x in blk' && x != FIRST ensures HasPrev(blk', x) {
      assert HasPrev(blk, x);
      var p :| p in blk && End(blk, p) == x;
      assert p in blk' && End(blk', p) == x;
    }
  }

  /** Changing only the allocation bit of an unlisted block. */
  lemma MarkInv(m: Memory, h: Heap, X: set<int>, E: set<int>, r: int, used: bool)
    requires Inv(m, h, X, E) && r in h.blk && (h.blk[r].used || r in X)
    ensures Inv(m, h.(blk := h.blk[r := Block(h.blk[r].words, used)]), if used then X - {r} else X + {r}, E + {r})
  {
    hide Spaced, Chained, Tags, Listed, Linked;
    var blk' := h.blk[r := Block(h.blk[r].words, used)];
    var X' := if used then X - {r} else X + {r};
    MarkTiled(h.blk, h.end, r, used);
    RetileListed(h.blk, blk', h.rings, X, X');
    RetileTags(m, h, blk', E, E + {r});
    forall x {:trigger End(blk', x)} | x in blk' && End(blk', x) in blk' && x !in X' && End(blk', x) !in X'
      ensures blk'[x].used || blk'[End(blk', x)].used
    {
      assert End(blk', x) == End(h.blk, x);
    }
  }

  /** The heap with a reserved block of `words` added at its old end. */
  function Extended(h: Heap, words: int): Heap {
    h.(blk := h.blk[h.end := Block(words, false)], end := h.end + words)
  }

  lemma ExtendSpaced(blk: Blocks, end: int, words: int)
    requires Spaced(blk, end) && end % 2 == 0 && words >= 4 && words % 2 == 0
    ensures end !in blk && Spaced(blk[end := Block(words, false)], end + words)
  {
    var blk' := blk[end := Block(words, false)];
    assert Fits(blk[FIRST], FIRST, end);
    assert forall x :: x in blk ==> Fits(blk[x], x, end);
    forall x | x in blk' ensures Fits(blk'[x], x, end + words) {
      if x in blk { assert Fits(blk[x], x, end); }
    }
  }

  lemma ExtendTiled(blk: Blocks, end: int, words: int)
    requires Tiled(blk, end) && words >= 4 && words % 2 == 0
    ensures end !in blk && Tiled(blk[end := Block(words, false)], end + words)
  {
    var blk' := blk[end := Block(words, false)];
    LastBlock(blk, end);
    var last :| last in blk && End(blk, last) == end;
    assert Fits(blk[last], last, end);
    ExtendSpaced(blk, end, words);
    forall x | x in blk' ensures End(blk', x) == end + words || End(blk', x) in blk' {
      if x in blk { assert End(blk', x) == End(blk, x); }
    }
    forall x | x in blk' && x != FIRST ensures HasPrev(blk', x) {
      if x == end {
        assert last in blk' && End(blk', last) == end;
      } else {
        assert HasPrev(blk, x);
        var p :| p in blk && End(blk, p) == x;
        assert p in blk' && End(blk', p) == x;
      }
    }
  }

  /** Some block ends at the break. */
  lemma LastBlock(blk: Blocks, end: int)
    requires Tiled(blk, end)
    ensures HasPrev(blk, end)
  {
    LastFrom(blk, end, FIRST);
  }

  lemma {:induction false} LastFrom(blk: Blocks, end: int, a: int)
    requires Tiled(blk, end) && a in blk
    ensures HasPrev(blk, end)
    decreases end - a
  {
    assert Fits(blk[a], a, end);
    if End(blk, a) != end { LastFrom(blk, end, End(blk, a)); }
  }

  lemma EndBounds(blk: Blocks, end: int)
    requires Tiled(blk, end)
    ensures FIRST in blk && FIRST + 4 <= end && end % 2 == 0
  {
    BlockFits(blk, end, FIRST);
    LastBlock(blk, end);
    var p :| p in blk && End(blk, p) == end;
    BlockFits(blk, end, p);
  }

  lemma ExtendLinked(m: Memory, h: Heap, m': Memory)
    requires Tiled(h.blk, h.end) && Listed(h.blk, h.rings, {}) && Linked(m, h.rings) && |m'| == |m|
    requires forall p :: 0 <= p < h.end - 1 && p < |m| ==> m'[p] == m[p]
    ensures Linked(m', h.rings)
  {
    EndBounds(h.blk, h.end);
    hide Spaced, Chained;
    forall d | 0 <= d < NCLASSES ensures Ring(m', h.rings[d]) {
      assert Ring(m, h.rings[d]);
      forall k | 0 <= k < |h.rings[d]|
        ensures m'[h.rings[d][k]] == m[h.rings[d][k]] && m'[h.rings[d][k] + 1] == m[h.rings[d][k] + 1]
      {
        if k > 0 {
          assert OnList(h.blk, {}, d, h.rings[d][k]);
          BlockFits(h.blk, h.end, h.rings[d][k]);
        }
      }
      RingFrame(m, m', h.rings[d]);
    }
  }

  lemma ExtendInv(m: Memory, h: Heap, words: int, m': Memory)
    requires Inv(m, h, {}, {}) && words >= 4 && words % 2 == 0 && h.end + words <= |m|
    requires m' == m[h.end + words - 1 := EPILOGUE]
    ensures Inv(m', Extended(h, words), {h.end}, {h.end})
  {
    hide Spaced, Chained, Linked;
    var h' := Extended(h, words);
    EndBounds(h.blk, h.end);
    ExtendTiled(h.blk, h.end, words);
    ExtendLinked(m, h, m');
    RetileListed(h.blk, h'.blk, h.rings, {}, {h.end});
    hide Listed;
    forall x | x in h'.blk && x !in {h.end}
      ensures FIRST <= x && 4 <= h'.blk[x].words && x + h'.blk[x].words <= |m| && Tagged(m', h'.blk[x], x)
    {
      BlockFits(h.blk, h.end, x);
      assert Tagged(m, h.blk[x], x);
    }
    forall x {:trigger End(h'.blk, x)} | x in h'.blk && End(h'.blk, x) in h'.blk && x !in {h.end} && End(h'.blk, x) !in {h.end}
      ensures h'.blk[x].used || h'.blk[End(h'.blk, x)].used
    {
      assert End(h'.blk, x) == End(h.blk, x);
    }
  }

  // ---------------------------------------------------------------- neighbours

  ghost predicate PrevFree(blk: Blocks, a: int) {
    exists p :: p in blk && End(blk, p) == a && !blk[p].used
  }

  ghost predicate NextFree(blk: Blocks, a: int)
    requires a in blk
  {
    End(blk, a) in blk && !blk[End(blk, a)].used
  }

  lemma PrevUnique(blk: Blocks, end: int, a: int, p: int, q: int)
    requires Tiled(blk, end) && p in blk && q in blk && End(blk, p) == a && End(blk, q) == a
    ensures p == q
  {
    assert Fits(blk[p], p, end) && Fits(blk[q], q, end);
  }

  lemma TagBits(b: Block, tag: Word)
    requires b.words % 2 == 0 && tag == TagOf(b)
    ensures SizeOf(tag) == 4 * b.words && (Aloc(tag) <==> b.used)
  {
    assert tag / 8 == b.words / 2;
  }

  lemma FooterOfPrev(m: Memory, h: Heap, a: int, p: int)
    requires Tiled(h.blk, h.end) && h.end <= |m| && Tags(m, h, {}) && p in h.blk && End(h.blk, p) == a
    ensures 2 <= a <= |m| && FIRST <= p < a && a - SizeOf(m[a - 2]) / 4 == p
    ensures m[p - 1] == TagOf(h.blk[p]) && (Aloc(m[p - 1]) <==> h.blk[p].used)
    ensures PrevFree(h.blk, a) <==> !h.blk[p].used
  {
    assert Fits(h.blk[p], p, h.end) && Tagged(m, h.blk[p], p);
    TagBits(h.blk[p], m[a - 2]);
    forall q | q in h.blk && End(h.blk, q) == a ensures q == p { PrevUnique(h.blk, h.end, a, p, q); }
  }

  /** PREVBLK and the bit test on its header see the left neighbour through its footer; at the
      first block they see the prologue, which is allocated. */
  lemma PrevBlock(m: Memory, h: Heap, a: int)
    requires Tiled(h.blk, h.end) && h.end <= |m| && Tags(m, h, {}) && a in h.blk
    ensures 2 <= a < |m|
    ensures var prev := a - SizeOf(m[a - 2]) / 4;
            && 1 <= prev < a
            && (Aloc(m[prev - 1]) <==> !PrevFree(h.blk, a))
            && (a != FIRST ==> prev in h.blk && End(h.blk, prev) == a && m[prev - 1] == TagOf(h.blk[prev]))
            && (a == FIRST ==> prev == BASE && !PrevFree(h.blk, a))
  {
    hide Spaced, Chained;
    BlockFits(h.blk, h.end, a);
    if a == FIRST {
      FirstHasNoPrev(h.blk, h.end);
      assert SizeOf(PROLOGUE) == 80;
    } else {
      hide Tags;
      var p := PrevOfBlock(h.blk, h.end, a);
      FooterOfPrev(m, h, a, p);
    }
  }

  lemma FirstHasNoPrev(blk: Blocks, end: int)
    requires Tiled(blk, end)
    ensures !PrevFree(blk, FIRST)
  {
    forall p | p in blk ensures End(blk, p) != FIRST { assert Fits(blk[p], p, end); }
  }

  lemma PrevOfBlock(blk: Blocks, end: int, a: int) returns (p: int)
    requires Tiled(blk, end) && a in blk && a != FIRST
    ensures p in blk && End(blk, p) == a
  {
    assert HasPrev(blk, a);
    p :| p in blk && End(blk, p) == a;
  }

  /** NEXTBLK and the bit test on its header see the right neighbour, or the epilogue. */
  lemma NextBlock(m: Memory, h: Heap, a: int)
    requires Tiled(h.blk, h.end) && h.end <= |m| && Tags(m, h, {}) && a in h.blk
    ensures 0 < a && a + h.blk[a].words <= |m| && m[a - 1] == TagOf(h.blk[a])
    ensures SizeOf(m[a - 1]) == 4 * h.blk[a].words && (Aloc(m[a - 1]) <==> h.blk[a].used)
    ensures var next := End(h.blk, a);
            && next - 1 < |m|
            && (Aloc(m[next - 1]) <==> !NextFree(h.blk, a))
            && (next in h.blk ==> m[next - 1] == TagOf(h.blk[next]))
  {
    assert Fits(h.blk[a], a, h.end) && Tagged(m, h.blk[a], a);
    TagBits(h.blk[a], m[a - 1]);
    var next := End(h.blk, a);
    if next in h.blk {
      assert Fits(h.blk[next], next, h.end) && Tagged(m, h.blk[next], next);
      TagBits(h.blk[next], m[next - 1]);
    } else {
      assert next == h.end;
    }
  }

  /** The neighbours of a are allocated, or are r. */
  ghost predicate IsolatedBut(blk: Blocks, a: int, r: int) {
    && a in blk
    && (End(blk, a) in blk && End(blk, a) != r ==> blk[End(blk, a)].used)
    && (forall p {:trigger End(blk, p)} :: p in blk && End(blk, p) == a && p != r ==> blk[p].used)
  }

  /** The merge of ptr with its free neighbours: r is the left one, or ptr itself. */
  ghost function Merged(blk: Blocks, r: int, ptr: int, takeNext: bool): Blocks
    requires ptr in blk && (r != ptr ==> r in blk && End(blk, r) == ptr)
    requires takeNext ==> End(blk, ptr) in blk && End(blk, ptr) != r && End(blk, ptr) != ptr
  {
    var b1 := if r == ptr then blk else Join(blk, r, ptr);
    var b2 := if takeNext then Join(b1, r, End(blk, ptr)) else b1;
    b2[r := Block(b2[r].words, false)]
  }

  lemma MergeInv(m: Memory, h: Heap, X: set<int>, r: int, ptr: int, takeNext: bool)
    requires Inv(m, h, X, {}) && ptr in h.blk && (r != ptr ==> r in h.blk && End(h.blk, r) == ptr)
    requires takeNext ==> End(h.blk, ptr) in h.blk && End(h.blk, ptr) in X
    requires (h.blk[ptr].used || ptr in X) && (r != ptr ==> r in X)
    requires X <= {r, ptr} + (if takeNext then {End(h.blk, ptr)} else {})
    ensures takeNext ==> End(h.blk, ptr) != r && End(h.blk, ptr) != ptr
    ensures Inv(m, h.(blk := Merged(h.blk, r, ptr, takeNext)), {r}, {r})
  {
    hide Spaced, Chained, Tags, Listed, Linked, Coalesced;
    BlockFits(h.blk, h.end, ptr);
    var next := End(h.blk, ptr);
    var h1, X1, E1 := h, X, {};
    if r != ptr {
      BlockFits(h.blk, h.end, r);
      JoinInv(m, h, X, {}, r, ptr);
      h1, X1, E1 := h.(blk := Join(h.blk, r, ptr)), X - {ptr} + {r}, {r};
      assert {} + {r} == E1;
    }
    var h2, X2, E2 := h1, X1, E1;
    if takeNext {
      BlockFits(h.blk, h.end, next);
      assert End(h1.blk, r) == next;
      JoinInv(m, h1, X1, E1, r, next);
      h2, X2, E2 := h1.(blk := Join(h1.blk, r, next)), X1 - {next} + {r}, E1 + {r};
    }
    MarkInv(m, h2, X2, E2, r, false);
    assert X2 + {r} == {r} && E2 + {r} == {r};
  }

  lemma MergedBlocks(blk: Blocks, end: int, r: int, ptr: int, takeNext: bool)
    requires Tiled(blk, end) && ptr in blk && (r != ptr ==> r in blk && End(blk, r) == ptr)
    requires takeNext ==> End(blk, ptr) in blk
    ensures takeNext ==> End(blk, ptr) != r && End(blk, ptr) != ptr
    ensures var blk' := Merged(blk, r, ptr, takeNext);
            && r in blk' && !blk'[r].used
            && End(blk', r) == (if takeNext then End(blk, End(blk, ptr)) else End(blk, ptr))
            && (forall a :: a in blk' && a != r ==> a in blk && blk'[a] == blk[a])
            && (forall a :: a in blk && a != r && a != ptr && !(takeNext && a == End(blk, ptr)) ==> a in blk')
            && (r != ptr ==> ptr !in blk')
            && (takeNext ==> End(blk, ptr) !in blk')
  {
    BlockFits(blk, end, ptr);
    BlockFits(blk, end, r);
    hide Spaced, Chained, Join;
    var b1 := if r == ptr then blk else Join(blk, r, ptr);
    if r != ptr { JoinBlocks(blk, r, ptr); }
    if takeNext { JoinBlocks(b1, r, End(blk, ptr)); }
  }

  function MergedWords(blk: Blocks, r: int, ptr: int, takeNext: bool): int
    requires ptr in blk && (r != ptr ==> r in blk) && (takeNext ==> End(blk, ptr) in blk)
  {
    (if r != ptr then blk[r].words else 0) + blk[ptr].words + (if takeNext then blk[End(blk, ptr)].words else 0)
  }

  lemma MergedSize(blk: Blocks, end: int, r: int, ptr: int, takeNext: bool)
    requires Tiled(blk, end) && ptr in blk && (r != ptr ==> r in blk && End(blk, r) == ptr)
    requires takeNext ==> End(blk, ptr) in blk
    ensures takeNext ==> End(blk, ptr) != r && End(blk, ptr) != ptr
    ensures r in Merged(blk, r, ptr, takeNext) && !Merged(blk, r, ptr, takeNext)[r].used
    ensures Merged(blk, r, ptr, takeNext)[r].words == MergedWords(blk, r, ptr, takeNext)
  {
    assert Fits(blk[ptr], ptr, end) && Fits(blk[r], r, end);
    if takeNext { assert Fits(blk[End(blk, ptr)], End(blk, ptr), end); }
  }

  lemma MergedRoom(blk: Blocks, end: int, r: int, ptr: int)
    requires Tiled(blk, end) && ptr in blk && LeftEdge(blk, ptr, r)
    ensures ptr + blk[ptr].words <= r + MergedWords(blk, r, ptr, NextFree(blk, ptr)) && blk[ptr].words >= 4
  {
    BlockFits(blk, end, ptr);
    if NextFree(blk, ptr) { BlockFits(blk, end, End(blk, ptr)); }
  }

  lemma NullNotBlock(blk: Blocks, end: int)
    requires Tiled(blk, end)
    ensures NULL !in blk
  {
    if NULL in blk { BlockFits(blk, end, NULL); }
  }

  /** After merging with every free neighbour, the result has no free neighbour. */
  lemma MergedIsolated(blk: Blocks, end: int, X: set<int>, r: int, ptr: int)
    requires Tiled(blk, end) && ptr in blk && X <= {ptr} && Coalesced(blk, X)
    requires PrevFree(blk, ptr) ==> r in blk && End(blk, r) == ptr && !blk[r].used && r != ptr
    requires !PrevFree(blk, ptr) ==> r == ptr
    ensures NextFree(blk, ptr) ==> End(blk, ptr) != r && End(blk, ptr) != ptr
    ensures r in Merged(blk, r, ptr, NextFree(blk, ptr))
    ensures Isolated(Merged(blk, r, ptr, NextFree(blk, ptr)), r)
  {
    var take := NextFree(blk, ptr);
    MergedBlocks(blk, end, r, ptr, take);
    var blk' := Merged(blk, r, ptr, take);
    assert Fits(blk[ptr], ptr, end) && Fits(blk[r], r, end);
    if take {
      var next := End(blk, ptr);
      assert Fits(blk[next], next, end);
      if End(blk, next) in blk { assert Fits(blk[End(blk, next)], End(blk, next), end); }
    }
    forall p | p in blk' && End(blk', p) == r ensures blk'[p].used {
      assert blk'[r].words > 0;
      assert End(blk, p) == End(blk', p);
      assert Fits(blk[p], p, end);
    }
  }

  lemma MergedKeepsIsolation(blk: Blocks, end: int, r: int, ptr: int, a: int)
    requires Tiled(blk, end) && ptr in blk
    requires PrevFree(blk, ptr) ==> r in blk && End(blk, r) == ptr && !blk[r].used && r != ptr
    requires !PrevFree(blk, ptr) ==> r == ptr
    requires a in blk && a != ptr && blk[a].used && IsolatedBut(blk, a, ptr)
    ensures NextFree(blk, ptr) ==> End(blk, ptr) != r && End(blk, ptr) != ptr
    ensures IsolatedBut(Merged(blk, r, ptr, NextFree(blk, ptr)), a, r)
  {
    var take := NextFree(blk, ptr);
    MergedBlocks(blk, end, r, ptr, take);
    var blk' := Merged(blk, r, ptr, take);
    assert a in blk' && End(blk', a) == End(blk, a);
    forall p | p in blk' && End(blk', p) == a && p != r ensures blk'[p].used {
      assert End(blk, p) == End(blk', p);
      assert p != ptr;
    }
  }

  lemma NextOfSplit(blk: Blocks, end: int, r: int, words: int, a: int)
    requires Tiled(blk, end) && r in blk && 4 <= words <= blk[r].words - 4
    requires a in blk && a != r
    ensures a != r + words && End(blk, a) != r + words
  {
    NoneInside(blk, end, r, r + words);
    BlockFits(blk, end, a);
    BlockFits(blk, end, r);
  }

  lemma SplitKeepsIsolation(blk: Blocks, end: int, r: int, words: int, a: int)
    requires Tiled(blk, end) && r in blk && 4 <= words <= blk[r].words - 4 && words % 2 == 0
    requires Isolated(blk, r) && a in blk && a != r && blk[a].used && IsolatedBut(blk, a, r)
    requires !(End(blk, r) == a)
    ensures a in Split(blk, r, words) && Isolated(Split(blk, r, words), a)
  {
    hide Split, Spaced, Chained;
    var blk' := Split(blk, r, words);
    SplitBlocks(blk, r, words);
    BlockFits(blk, end, r);
    NextOfSplit(blk, end, r, words, a);
    forall p | p in blk' && End(blk', p) == a ensures blk'[p].used {
      if p != r && p != r + words { assert End(blk, p) == End(blk', p); }
    }
  }

  /** r is where the merge of ptr with its free neighbours starts. */
  ghost predicate LeftEdge(blk: Blocks, ptr: int, r: int) {
    if PrevFree(blk, ptr) then r != ptr && r in blk && End(blk, r) == ptr && !blk[r].used else r == ptr
  }

  /** The payload of block a, without its tags, is unchanged. */
  ghost predicate PayloadKept(m: Memory, m': Memory, b: Block, a: int) {
    |m'| == |m| && forall p :: a <= p < a + b.words - 2 && 0 <= p < |m| ==> m'[p] == m[p]
  }

  lemma LeftEdgeApart(blk: Blocks, end: int, ptr: int, r: int)
    requires Tiled(blk, end) && ptr in blk && LeftEdge(blk, ptr, r)
    ensures r <= ptr && End(blk, ptr) != r && End(blk, ptr) != ptr
  {
    assert Fits(blk[ptr], ptr, end) && (r in blk ==> Fits(blk[r], r, end));
  }

  /** What storing the tags of the merged block leaves alone. */
  lemma MergeFrame(m: Memory, m1: Memory, m2: Memory, blk: Blocks, end: int, ptr: int, r: int, tag: Word)
    requires Tiled(blk, end) && end <= |m| && ptr in blk && LeftEdge(blk, ptr, r) && OnlyLinksChange(m, m1, blk)
    requires End(blk, ptr) != r && End(blk, ptr) != ptr
    requires r in Merged(blk, r, ptr, NextFree(blk, ptr))
    requires SizeOf(tag) == 4 * Merged(blk, r, ptr, NextFree(blk, ptr))[r].words
    requires 0 < r && r + SizeOf(tag) / 4 <= |m| && m2 == MetaPut(m1, r, tag)
    ensures LiveKept(m, blk, m2, Merged(blk, r, ptr, NextFree(blk, ptr)), ptr)
    ensures blk[ptr].used ==> PayloadKept(m, m2, blk[ptr], ptr)
    ensures r != ptr ==> 2 <= ptr <= |m| && m2[ptr - 2] == m[ptr - 2]
  {
    hide Spaced, Chained, Merged, OnlyLinksChange;
    var take := NextFree(blk, ptr);
    var words := MergedWords(blk, r, ptr, take);
    MergedSize(blk, end, r, ptr, take);
    MergedBlocks(blk, end, r, ptr, take);
    BlockFits(blk, end, ptr);
    BlockFits(blk, end, r);
    if take { BlockFits(blk, end, End(blk, ptr)); }
    LengthKept(m, m1, blk);
    MetaPutChanges(m1, r, words, tag);
    hide MetaPut, SizeOf;
    var last := r + words - 2;
    forall a | a in blk && blk[a].used && a != ptr
      ensures a in Merged(blk, r, ptr, take) && Merged(blk, r, ptr, take)[a] == blk[a] && BlockKept(m, m2, blk[a], a)
    {
      MergeLive(m, m1, m2, blk, end, ptr, r, last, a);
    }
    MergePayload(m, m1, m2, blk, end, ptr, r, last);
  }

  lemma OnlyLinksTrans(m: Memory, m1: Memory, m2: Memory, blk: Blocks)
    requires OnlyLinksChange(m, m1, blk) && OnlyLinksChange(m1, m2, blk)
    ensures OnlyLinksChange(m, m2, blk)
  {
  }

  lemma OnlyLinksRefl(m: Memory, blk: Blocks)
    ensures OnlyLinksChange(m, m, blk)
  {
  }

  lemma LengthKept(m: Memory, m': Memory, blk: Blocks)
    requires OnlyLinksChange(m, m', blk)
    ensures |m'| == |m|
  {
  }

  lemma MergePayload(m: Memory, m1: Memory, m2: Memory, blk: Blocks, end: int, ptr: int, r: int, last: int)
    requires Tiled(blk, end) && end <= |m| && ptr in blk && LeftEdge(blk, ptr, r) && OnlyLinksChange(m, m1, blk) && |m2| == |m|
    requires last == r + MergedWords(blk, r, ptr, NextFree(blk, ptr)) - 2
    requires forall p :: 0 <= p < |m| && m2[p] != m1[p] ==> p == r - 1 || p == last
    ensures blk[ptr].used ==> PayloadKept(m, m2, blk[ptr], ptr)
    ensures r != ptr ==> 2 <= ptr <= |m| && m2[ptr - 2] == m[ptr - 2]
  {
    BlockFits(blk, end, ptr);
    BlockFits(blk, end, r);
    if NextFree(blk, ptr) { BlockFits(blk, end, End(blk, ptr)); }
    hide Spaced, Chained;
    if blk[ptr].used {
      forall p | ptr <= p < ptr + blk[ptr].words - 2 && 0 <= p < |m| ensures m2[p] == m[p] {
        if m1[p] != m[p] { LinkWordsAreNotTags(blk, end, ptr, p); }
      }
    }
    if r != ptr && m1[ptr - 2] != m[ptr - 2] { LinkWordsAreNotTags(blk, end, r, ptr - 2); }
  }

  lemma MergeLive(m: Memory, m1: Memory, m2: Memory, blk: Blocks, end: int, ptr: int, r: int, last: int, a: int)
    requires Tiled(blk, end) && ptr in blk && LeftEdge(blk, ptr, r) && OnlyLinksChange(m, m1, blk) && |m2| == |m|
    requires last == r + MergedWords(blk, r, ptr, NextFree(blk, ptr)) - 2
    requires forall p :: 0 <= p < |m| && m2[p] != m1[p] ==> p == r - 1 || p == last
    requires a in blk && blk[a].used && a != ptr
    ensures BlockKept(m, m2, blk[a], a)
  {
    BlockFits(blk, end, a);
    BlockFits(blk, end, ptr);
    BlockFits(blk, end, r);
    if NextFree(blk, ptr) { BlockFits(blk, end, End(blk, ptr)); }
    forall p | a - 1 <= p < a - 1 + blk[a].words && 0 <= p < |m| ensures m2[p] == m[p] {
      if m1[p] != m[p] { LinkWordsAreNotTags(blk, end, a, p); }
    }
  }

  // ---------------------------------------------------------------- what the caller sees

  /** The live payloads: address to size in words, the two tags not counted. */
  ghost function Live(blk: Blocks): map<int, int> {
    map a | a in blk && blk[a].used :: blk[a].words - 2
  }

  ghost predicate NoFit(blk: Blocks, size: int) {
    forall a :: a in blk && !blk[a].used ==> 4 * blk[a].words < size
  }

  /** The size of the free block that ends at the break, if there is one. */
  ghost function TailBytes(blk: Blocks, end: int): int {
    if PrevFree(blk, end) then
      var p :| p in blk && End(blk, p) == end && !blk[p].used;
      4 * blk[p].words
    else 0
  }

  /** The footer before the break tells whether the last block is free, and how big it is. */
  lemma InvTiled(m: Memory, h: Heap, X: set<int>, E: set<int>)
    requires Inv(m, h, X, E)
    ensures Tiled(h.blk, h.end) && h.end <= |m| && Tags(m, h, E) && Coalesced(h.blk, X)
  {
  }

  lemma InvLists(m: Memory, h: Heap, X: set<int>, E: set<int>)
    requires Inv(m, h, X, E)
    ensures |h.rings| == NCLASSES && forall c :: 0 <= c < NCLASSES ==> |h.rings[c]| > 0
  {
  }

  lemma TailFooter(m: Memory, h: Heap, size: int)
    requires Inv(m, h, {}, {}) && NoFit(h.blk, size) && size >= MIN_ALLOC
    ensures 2 <= h.end <= |m| && (Aloc(m[h.end - 2]) <==> !PrevFree(h.blk, h.end))
    ensures TailBytes(h.blk, h.end) == (if Aloc(m[h.end - 2]) then 0 else m[h.end - 2]) && 0 <= TailBytes(h.blk, h.end) < size
  {
    LastBlock(h.blk, h.end);
    var p :| p in h.blk && End(h.blk, p) == h.end;
    FooterOfPrev(m, h, h.end, p);
    assert Tagged(m, h.blk[p], p);
    BlockFits(h.blk, h.end, p);
    TagBits(h.blk[p], m[h.end - 2]);
    forall q | q in h.blk && End(h.blk, q) == h.end ensures q == p { PrevUnique(h.blk, h.end, h.end, p, q); }
  }

  lemma LiveMembers(blk: Blocks)
    ensures forall a :: a in Live(blk) <==> a in blk && blk[a].used
    ensures forall a :: a in Live(blk) ==> Live(blk)[a] == blk[a].words - 2
  {
  }

  lemma LiveKeptTrans(m: Memory, b: Blocks, m1: Memory, b1: Blocks, m2: Memory, b2: Blocks, x: int)
    requires |m| == |m1| == |m2| && LiveKept(m, b, m1, b1, x) && LiveKept(m1, b1, m2, b2, x)
    ensures LiveKept(m, b, m2, b2, x)
  {
    forall a | a in b && b[a].used && a != x ensures a in b2 && b2[a] == b[a] && BlockKept(m, m2, b[a], a) {
      assert a in b1 && b1[a] == b[a] && BlockKept(m, m1, b[a], a);
      assert BlockKept(m1, m2, b1[a], a);
    }
  }

  /** Writing the new epilogue and the tags of the new block touches no block there was. */
  lemma ExtendLive(m: Memory, h: Heap, words: int, m': Memory)
    requires Tiled(h.blk, h.end) && words >= 4 && h.end + words <= |m| && |m'| == |m|
    requires forall p :: 0 <= p < h.end - 1 ==> m'[p] == m[p]
    ensures LiveKept(m, h.blk, m', Extended(h, words).blk, NULL)
    ensures Live(Extended(h, words).blk) == Live(h.blk)
  {
    forall a | a in h.blk ensures a != h.end && BlockKept(m, m', h.blk[a], a) { BlockFits(h.blk, h.end, a); }
  }

  lemma ExtendIsolation(blk: Blocks, end: int, words: int, a: int)
    requires Tiled(blk, end) && words >= 4 && a in blk && Isolated(blk, a)
    ensures IsolatedBut(blk[end := Block(words, false)], a, end)
  {
    var blk' := blk[end := Block(words, false)];
    BlockFits(blk, end, a);
    assert End(blk', a) == End(blk, a) by { if a == end { assert false; } }
    forall p | p in blk' && End(blk', p) == a && p != end ensures blk'[p].used { assert End(blk, p) == a; }
  }

  lemma MergedLive(blk: Blocks, end: int, r: int, ptr: int)
    requires Tiled(blk, end) && ptr in blk && LeftEdge(blk, ptr, r)
    ensures NextFree(blk, ptr) ==> End(blk, ptr) != r && End(blk, ptr) != ptr
    ensures Live(Merged(blk, r, ptr, NextFree(blk, ptr))) == Live(blk) - {ptr}
  {
    hide Merged, Spaced, Chained;
    MergedBlocks(blk, end, r, ptr, NextFree(blk, ptr));
    LiveEqual(Merged(blk, r, ptr, NextFree(blk, ptr)), blk, ptr);
  }

  lemma LiveEqual(blk': Blocks, blk: Blocks, x: int)
    requires forall a :: a in blk' && blk'[a].used ==> a != x && a in blk && blk'[a] == blk[a]
    requires forall a :: a in blk && blk[a].used && a != x ==> a in blk' && blk'[a] == blk[a]
    ensures Live(blk') == Live(blk) - {x}
  {
    assert forall a :: a in Live(blk') <==> a in Live(blk) && a != x;
    assert Live(blk').Keys == (Live(blk) - {x}).Keys;
  }

  lemma LiveKeptNotUsed(m: Memory, b: Blocks, m': Memory, b': Blocks, x: int)
    requires LiveKept(m, b, m', b', x) && x in b && !b[x].used
    ensures LiveKept(m, b, m', b', NULL)
  {
  }

  /** The block that extend_heap hands out: the new memory, with the free block before it. */
  lemma ExtendResult(h: Heap, h1: Heap, words: int, r: int, minsize: int)
    requires Tiled(h.blk, h.end) && words >= 4 && words % 2 == 0 && h1 == Extended(h, words)
    requires h.end in h1.blk && LeftEdge(h1.blk, h.end, r) && minsize <= 4 * words + TailBytes(h.blk, h.end)
    ensures Tiled(h1.blk, h1.end) && !NextFree(h1.blk, h.end) && r >= FIRST
    ensures var blk' := Merged(h1.blk, r, h.end, NextFree(h1.blk, h.end));
            && r in blk' && !blk'[r].used && 4 * blk'[r].words >= minsize && End(blk', r) == h1.end
            && Live(blk') == Live(h1.blk)
  {
    hide Merged, Spaced, Chained, TailBytes;
    ExtendTiled(h.blk, h.end, words);
    var b1 := h1.blk;
    assert End(b1, h.end) == h1.end;
    if h1.end in b1 { BlockFits(b1, h1.end, h1.end); }
    BlockFits(b1, h1.end, r);
    MergedSize(b1, h1.end, r, h.end, false);
    MergedBlocks(b1, h1.end, r, h.end, false);
    MergedLive(b1, h1.end, r, h.end);
    ExtendTail(h, words, r);
  }

  lemma ExtendResultIsolation(h: Heap, h1: Heap, words: int, r: int)
    requires Tiled(h.blk, h.end) && words >= 4 && words % 2 == 0 && h1 == Extended(h, words)
    requires h.end in h1.blk && LeftEdge(h1.blk, h.end, r) && !NextFree(h1.blk, h.end)
    ensures forall a :: a in h.blk && h.blk[a].used && Isolated(h.blk, a) ==>
                          IsolatedBut(Merged(h1.blk, r, h.end, false), a, r)
  {
    hide Merged, Isolated;
    ExtendTiled(h.blk, h.end, words);
    forall a | a in h.blk && h.blk[a].used && Isolated(h.blk, a)
      ensures IsolatedBut(Merged(h1.blk, r, h.end, false), a, r)
    {
      ExtendIsolation(h.blk, h.end, words, a);
      MergedKeepsIsolation(h1.blk, h1.end, r, h.end, a);
    }
  }

  lemma ExtendTail(h: Heap, words: int, r: int)
    requires Tiled(h.blk, h.end) && words >= 4 && words % 2 == 0
    requires LeftEdge(Extended(h, words).blk, h.end, r)
    ensures r != h.end ==> r in h.blk && TailBytes(h.blk, h.end) == 4 * h.blk[r].words
    ensures r == h.end ==> TailBytes(h.blk, h.end) == 0
  {
    var b1 := Extended(h, words).blk;
    ExtendTiled(h.blk, h.end, words);
    forall p | p in h.blk ensures p in b1 && b1[p] == h.blk[p] && End(b1, p) == End(h.blk, p) {}
    if r != h.end {
      assert End(h.blk, r) == h.end;
      forall q | q in h.blk && End(h.blk, q) == h.end ensures q == r { PrevUnique(h.blk, h.end, h.end, q, r); }
    }
  }

  /** The blocks after free_tail_was_resvd: the tail is split off when it can hold a block. */
  function Trimmed(blk: Blocks, r: int, words: int): Blocks
    requires r in blk
  {
    if blk[r].words - words < 4 then blk[r := Block(blk[r].words, true)] else Split(blk, r, words)
  }

  lemma LivePut(blk': Blocks, blk: Blocks, r: int)
    requires r in blk' && blk'[r].used
    requires forall a :: a in blk' && blk'[a].used && a != r ==> a in blk && blk'[a] == blk[a]
    requires forall a :: a in blk && blk[a].used && a != r ==> a in blk' && blk'[a] == blk[a]
    ensures Live(blk') == Live(blk)[r := blk'[r].words - 2]
  {
    var l := Live(blk)[r := blk'[r].words - 2];
    assert forall a :: a in Live(blk') <==> a in l;
    assert forall a :: a in l ==> Live(blk')[a] == l[a];
  }

  lemma TrimmedLive(blk: Blocks, end: int, r: int, words: int)
    requires Tiled(blk, end) && r in blk && 4 <= words <= blk[r].words && words % 2 == 0
    ensures r in Trimmed(blk, r, words) && Trimmed(blk, r, words)[r].used && Trimmed(blk, r, words)[r].words >= words
    ensures Live(Trimmed(blk, r, words)) == Live(blk)[r := Trimmed(blk, r, words)[r].words - 2]
  {
    hide Spaced, Chained, Live;
    TrimmedTiled(blk, end, r, words);
    LivePut(Trimmed(blk, r, words), blk, r);
  }

  lemma TrimmedIsolation(blk: Blocks, end: int, r: int, words: int, a: int)
    requires Tiled(blk, end) && r in blk && 4 <= words <= blk[r].words && words % 2 == 0
    requires Isolated(blk, r) && a in blk && a != r && blk[a].used && IsolatedBut(blk, a, r) && End(blk, r) != a
    ensures a in Trimmed(blk, r, words) && Isolated(Trimmed(blk, r, words), a)
  {
    if blk[r].words - words >= 4 {
      SplitKeepsIsolation(blk, end, r, words, a);
    } else {
      var blk' := Trimmed(blk, r, words);
      assert End(blk', a) == End(blk, a);
      forall p | p in blk' && End(blk', p) == a ensures blk'[p].used { assert End(blk, p) == End(blk', p); }
    }
  }

  lemma SplitCoalesced(blk: Blocks, end: int, r: int, words: int, X: set<int>)
    requires Tiled(blk, end) && r in blk && 4 <= words <= blk[r].words - 4 && words % 2 == 0
    requires Isolated(blk, r) && Coalesced(Split(blk, r, words), {r + words})
    ensures Coalesced(Split(blk, r, words), {})
  {
    var blk' := Split(blk, r, words);
    SplitTiled(blk, end, r, words);
    forall x {:trigger End(blk', x)} | x in blk' && End(blk', x) in blk'
      ensures blk'[x].used || blk'[End(blk', x)].used
    {
      if x == r + words {
        assert End(blk', x) == End(blk, r);
      } else if End(blk', x) == r + words {
        PrevUnique(blk', end, r + words, x, r);
      }
    }
  }

  /** Stores into tags of block r of the new tiling, or into link words, keep the other allocated
      blocks, and the payload of r up to the new size. */
  lemma TrimFrame(m: Memory, m': Memory, blk: Blocks, end: int, r: int, words: int)
    requires Tiled(blk, end) && r in blk && 4 <= words <= blk[r].words && words % 2 == 0 && |m'| == |m|
    requires var blk' := Trimmed(blk, r, words);
             forall p :: 0 <= p < |m| && m'[p] != m[p] ==>
               p == r - 1 || r + words - 2 <= p < r + blk[r].words - 1 || LinkWord(blk', p)
    ensures LiveKept(m, blk, m', Trimmed(blk, r, words), r)
    ensures forall p :: r <= p < r + words - 2 && 0 <= p < |m| ==> m'[p] == m[p]
  {
    var blk' := Trimmed(blk, r, words);
    BlockFits(blk, end, r);
    TrimmedTiled(blk, end, r, words);
    forall a | a in blk && blk[a].used && a != r ensures a in blk' && blk'[a] == blk[a] && BlockKept(m, m', blk[a], a) {
      BlockFits(blk, end, a);
      assert a != r + words || blk[r].words - words < 4;
      forall p | a - 1 <= p < a - 1 + blk[a].words && 0 <= p < |m| ensures m'[p] == m[p] {
        if LinkWord(blk', p) { LinkWordsAreNotTags(blk', end, a, p); }
      }
    }
    forall p | r <= p < r + words - 2 && 0 <= p < |m| ensures m'[p] == m[p] {
      if LinkWord(blk', p) { LinkWordsAreNotTags(blk', end, r, p); }
    }
  }

  lemma TrimmedTiled(blk: Blocks, end: int, r: int, words: int)
    requires Tiled(blk, end) && r in blk && 4 <= words <= blk[r].words && words % 2 == 0
    ensures Tiled(Trimmed(blk, r, words), end) && (blk[r].words - words >= 4 ==> r + words !in blk)
  {
    if blk[r].words - words >= 4 { SplitTiled(blk, end, r, words); } else { MarkTiled(blk, end, r, true); }
  }

  lemma WholeStores(m: Memory, h: Heap, r: int)
    requires Inv(m, h, {r}, {}) && r in h.blk && !h.blk[r].used
    ensures 4 * h.blk[r].words + 1 < 0x1_0000_0000 && 0 < r && r - 1 < |m|
    ensures var tag: Word := 4 * h.blk[r].words + 1;
            && 0 <= r + SizeOf(tag) / 4 - 2 < |m|
            && Inv(MetaPut(m, r, tag), h.(blk := h.blk[r := Block(h.blk[r].words, true)]), {}, {})
  {
    hide Spaced, Chained, Tags, Listed, Linked, Coalesced, MetaPut;
    BlockFits(h.blk, h.end, r);
    var tag: Word := 4 * h.blk[r].words + 1;
    MarkInv(m, h, {r}, {}, r, true);
    assert {r} - {r} == {} && {} + {r} == {r};
    MetaPutInv(m, h.(blk := h.blk[r := Block(h.blk[r].words, true)]), {}, {r}, r, tag);
  }

  /** The two tags of a split make the tail a block that can be listed. */
  ghost predicate SplitRight(m: Memory, h: Heap, r: int, req: int)
    requires r in h.blk && 16 <= req <= 4 * h.blk[r].words - 16
    requires 4 * h.blk[r].words < 0x1_0000_0000 && 0 < r && r + h.blk[r].words <= |m|
    requires 0 <= r + SizeOf(req + 1) / 4 - 2 < |m| && 0 <= r + req / 4 + SizeOf(4 * h.blk[r].words - req) / 4 - 2 < |m|
  {
    var h', tail := h.(blk := Split(h.blk, r, req / 4)), r + req / 4;
    && Inv(MetaPut(MetaPut(m, r, req + 1), tail, 4 * h.blk[r].words - req), h', {tail}, {})
    && Coalesced(h'.blk, {})
    && tail in h'.blk && !h'.blk[tail].used
  }

  lemma SplitStores(m: Memory, h: Heap, r: int, req: int)
    requires Inv(m, h, {r}, {}) && r in h.blk && !h.blk[r].used && Isolated(h.blk, r)
    requires req % 8 == 0 && 16 <= req <= 4 * h.blk[r].words - 16
    ensures 4 * h.blk[r].words < 0x1_0000_0000 && 0 < r && r + h.blk[r].words <= |m|
    ensures 0 <= r + SizeOf(req + 1) / 4 - 2 < |m|
    ensures 0 <= r + req / 4 + SizeOf(4 * h.blk[r].words - req) / 4 - 2 < |m|
    ensures SplitRight(m, h, r, req)
  {
    hide Spaced, Chained, Tags, Listed, Linked, Coalesced, MetaPut, Isolated;
    BlockFits(h.blk, h.end, r);
    var h' := h.(blk := Split(h.blk, r, req / 4));
    var tail, second := r + req / 4, 4 * h.blk[r].words - req;
    SplitInv(m, h, {r}, {}, r, req / 4);
    assert {r} - {r} + {tail} == {tail} && {} + {r, tail} == {r, tail};
    MetaPutInv(m, h', {tail}, {r, tail}, r, req + 1);
    assert {r, tail} - {r} == {tail} && {tail} - {tail} == {};
    MetaPutInv(MetaPut(m, r, req + 1), h', {tail}, {tail}, tail, second);
    SplitCoalesced(h.blk, h.end, r, req / 4, {tail});
  }

  lemma WholeFrame(m: Memory, blk: Blocks, end: int, r: int, words: int, m': Memory)
    requires Tiled(blk, end) && end <= |m| && r in blk && 4 <= words <= blk[r].words && words % 2 == 0
    requires blk[r].words - words < 4 && 4 * blk[r].words + 1 < 0x1_0000_0000 && 0 < r && r + blk[r].words <= |m|
    requires 0 <= r + SizeOf(4 * blk[r].words + 1) / 4 - 2 < |m|
    requires m' == MetaPut(m, r, 4 * blk[r].words + 1)
    ensures Trimmed(blk, r, words) == blk[r := Block(blk[r].words, true)]
    ensures LiveKept(m, blk, m', Trimmed(blk, r, words), r)
    ensures forall p :: r <= p < r + words - 2 && 0 <= p < |m| ==> m'[p] == m[p]
  {
    hide Spaced, Chained, LiveKept, MetaPut;
    BlockFits(blk, end, r);
    TagBits(Block(blk[r].words, true), 4 * blk[r].words + 1);
    MetaPutChanges(m, r, blk[r].words, 4 * blk[r].words + 1);
    TrimFrame(m, m', blk, end, r, words);
  }

  /** free_tail_was_resvd on a block taken whole. */
  lemma TakenWhole(m: Memory, h: Heap, r: int, size: int)
    requires Inv(m, h, {r}, {}) && r in h.blk && !h.blk[r].used
    requires size % 8 == 0 && 16 <= size <= 4 * h.blk[r].words && 4 * h.blk[r].words - size < 16
    ensures 0 < r && r - 1 < |m| && SizeOf(m[r - 1]) == 4 * h.blk[r].words && 4 * h.blk[r].words + 1 < 0x1_0000_0000
    ensures 0 <= r + SizeOf(4 * h.blk[r].words + 1) / 4 - 2 < |m|
    ensures var m', blk' := MetaPut(m, r, 4 * h.blk[r].words + 1), h.blk[r := Block(h.blk[r].words, true)];
            && Inv(m', h.(blk := blk'), {}, {}) && blk' == Trimmed(h.blk, r, size / 4) && LiveKept(m, h.blk, m', blk', r)
            && forall p :: r <= p < r + size / 4 - 2 && 0 <= p < |m| ==> m'[p] == m[p]
  {
    hide LiveKept, MetaPut, Trimmed, Listed, Linked;
    NextBlock(m, h, r);
    BlockFits(h.blk, h.end, r);
    hide Spaced, Chained, Tags, Coalesced;
    WholeStores(m, h, r);
    WholeFrame(m, h.blk, h.end, r, size / 4, MetaPut(m, r, 4 * h.blk[r].words + 1));
  }

  lemma MetaPutChanges(m: Memory, r: int, words: int, tag: Word)
    requires 0 < r && r + words <= |m| && words >= 2 && SizeOf(tag) == 4 * words
    ensures forall p :: 0 <= p < |m| && MetaPut(m, r, tag)[p] != m[p] ==> p == r - 1 || p == r + words - 2
  {
  }

  lemma SplitChanges(m: Memory, r: int, size: int, words: int)
    requires 0 < r && r + words <= |m| && 16 <= size <= 4 * words - 16 && size % 8 == 0 && words % 2 == 0
    requires 4 * words < 0x1_0000_0000
    ensures SizeOf(size + 1) == size && SizeOf(4 * words - size) == 4 * words - size
    ensures var m1 := MetaPut(m, r, size + 1);
            var m2 := MetaPut(m1, r + size / 4, 4 * words - size);
            && (forall p :: 0 <= p < |m| && m1[p] != m[p] ==> p == r - 1 || p == r + size / 4 - 2)
            && (forall p :: 0 <= p < |m| && m2[p] != m1[p] ==> p == r + size / 4 - 1 || p == r + words - 2)
  {
    TagBits(Block(size / 4, true), size + 1);
    TagBits(Block(words - size / 4, false), 4 * words - size);
    hide SizeOf;
    MetaPutChanges(m, r, size / 4, size + 1);
    MetaPutChanges(MetaPut(m, r, size + 1), r + size / 4, words - size / 4, 4 * words - size);
    hide MetaPut;
  }

  lemma SplitFrame(m: Memory, m1: Memory, m2: Memory, m': Memory, blk: Blocks, end: int, r: int, words: int)
    requires Tiled(blk, end) && r in blk && 4 <= words <= blk[r].words - 4 && words % 2 == 0
    requires |m| == |m1| == |m2|
    requires forall p :: 0 <= p < |m| && m1[p] != m[p] ==> p == r - 1 || p == r + words - 2
    requires forall p :: 0 <= p < |m| && m2[p] != m1[p] ==> p == r + words - 1 || p == r + blk[r].words - 2
    requires OnlyLinksChange(m2, m', Split(blk, r, words))
    ensures Trimmed(blk, r, words) == Split(blk, r, words)
    ensures LiveKept(m, blk, m', Trimmed(blk, r, words), r)
    ensures forall p :: r <= p < r + words - 2 && 0 <= p < |m| ==> m'[p] == m[p]
  {
    hide Spaced, Chained, LiveKept, Split, LinkWord;
    forall p | 0 <= p < |m| && m'[p] != m[p]
      ensures p == r - 1 || r + words - 2 <= p < r + blk[r].words - 1 || LinkWord(Split(blk, r, words), p)
    {
      assert m1[p] != m[p] || m2[p] != m1[p] || m'[p] != m2[p];
    }
    TrimFrame(m, m', blk, end, r, words);
  }

  /** A listed node's links lead to other nodes of its ring. */
  lemma NodeLinks(m: Memory, h: Heap, X: set<int>, E: set<int>, c: int, k: int)
    requires Inv(m, h, X, E) && 0 <= c < NCLASSES && 0 < k < |h.rings[c]|
    ensures var node := h.rings[c][k];
            && 0 <= node < |m| - 1 && m[node] < |m| - 1 && m[node + 1] < |m|
            && m[node] != node && m[node] as int + 1 != node
  {
    assert Ring(m, h.rings[c]);
    assert LinkOk(m, h.rings[c], k);
  }

  lemma LinkedBothWays(m: Memory, h: Heap, node: int)
    requires Inv(m, h, {}, {}) && node in h.blk && !h.blk[node].used
    ensures 0 <= node < |m| - 1 && m[node] < |m| - 1 && m[node + 1] < |m|
    ensures m[m[node] as int + 1] == node && m[m[node + 1]] == node
  {
    hide Tags, Coalesced, Spaced, Chained;
    var k := FindOnList(h, {}, node);
    var ring := h.rings[Class(h.blk[node])];
    assert Ring(m, ring);
    hide Linked, Listed;
    assert LinkOk(m, ring, k);
    assert LinkOk(m, ring, if k + 1 < |ring| then k + 1 else 0);
    assert LinkOk(m, ring, k - 1);
  }

  /** One step of the list walk: from node k to its successor in the ring. */
  lemma WalkStep(m: Memory, h: Heap, X: set<int>, E: set<int>, c: int, k: int)
    requires Inv(m, h, X, E) && 0 <= c < NCLASSES && 0 <= k < |h.rings[c]|
    ensures 0 < h.rings[c][k] < |m| && m[h.rings[c][k]] == NextOf(h.rings[c], k)
    ensures h.rings[c][k] == Head(c) <==> k == 0
    ensures k > 0 ==> OnList(h.blk, X, c, h.rings[c][k])
  {
    assert Ring(m, h.rings[c]);
    assert LinkOk(m, h.rings[c], k);
  }

  /** Node j of list d is too small. */
  ghost predicate TooSmall(h: Heap, size: int, d: int, j: int)
    requires 0 <= d < |h.rings| && 0 <= j < |h.rings[d]|
  {
    h.rings[d][j] in h.blk && 4 * h.blk[h.rings[d][j]].words < size
  }

  /** The nodes of list d before position k are too small. */
  ghost predicate ScannedTo(h: Heap, size: int, d: int, k: int)
    requires 0 <= d < |h.rings| && k <= |h.rings[d]|
  {
    forall j :: 0 < j < k ==> TooSmall(h, size, d, j)
  }

  /** Every node of the lists from the class of `size` up to c is too small. */
  ghost predicate Scanned(h: Heap, size: int, c: int)
    requires size >= MIN_ALLOC && |h.rings| == NCLASSES && c <= NCLASSES
  {
    forall d :: ClassOf(size) <= d < c ==> ScannedTo(h, size, d, |h.rings[d]|)
  }

  /** If no list from the class of `size` up has a node that fits, no free block fits at all. */
  lemma SearchComplete(h: Heap, size: int)
    requires Tiled(h.blk, h.end) && Listed(h.blk, h.rings, {}) && size >= MIN_ALLOC
    requires Scanned(h, size, NCLASSES)
    ensures NoFit(h.blk, size)
  {
    forall a | a in h.blk && !h.blk[a].used ensures 4 * h.blk[a].words < size {
      var j := FindOnList(h, {}, a);
      BlockFits(h.blk, h.end, a);
      var d := Class(h.blk[a]);
      assert ClassOf(size) <= d ==> ScannedTo(h, size, d, |h.rings[d]|) && TooSmall(h, size, d, j);
      if 4 * h.blk[a].words >= size { ClassMonotone(size, 4 * h.blk[a].words); }
    }
  }

  lemma FreeIsIsolated(blk: Blocks, a: int)
    requires Coalesced(blk, {}) && a in blk && !blk[a].used
    ensures Isolated(blk, a)
  {
  }

  lemma IsolatedCoalesced(m: Memory, h: Heap, r: int)
    requires Inv(m, h, {r}, {}) && r in h.blk && Isolated(h.blk, r)
    ensures {r} - {r} == {} && Coalesced(h.blk, {r} - {r})
  {
  }

  lemma NullNotLive(m: Memory, h: Heap)
    requires Inv(m, h, {}, {})
    ensures NULL !in Live(h.blk) && Live(h.blk) - {NULL} == Live(h.blk)
    ensures LiveKept(m, h.blk, m, h.blk, NULL)
  {
    if NULL in h.blk { BlockFits(h.blk, h.end, NULL); }
  }

  // ---------------------------------------------------------------- writing payloads

  /** Writing inside the payload of an unlisted block breaks nothing. */
  lemma PayloadWrite(m: Memory, h: Heap, X: set<int>, E: set<int>, r: int, m': Memory)
    requires Inv(m, h, X, E) && r in h.blk && (h.blk[r].used || r in X) && |m'| == |m|
    requires forall p :: 0 <= p < |m| && m'[p] != m[p] ==> r <= p < r + h.blk[r].words - 2
    ensures Inv(m', h, X, E) && LiveKept(m, h.blk, m', h.blk, r)
  {
    EndBounds(h.blk, h.end);
    BlockFits(h.blk, h.end, r);
    PayloadLinked(m, h, X, r, m');
    hide Listed, Linked, Coalesced;
    forall a | a in h.blk ensures a != r ==> BlockKept(m, m', h.blk[a], a) {
      BlockFits(h.blk, h.end, a);
    }
    forall a | a in h.blk && a !in E ensures Tagged(m', h.blk[a], a) {
      BlockFits(h.blk, h.end, a);
      assert Tagged(m, h.blk[a], a);
    }
  }

  lemma PayloadLinked(m: Memory, h: Heap, X: set<int>, r: int, m': Memory)
    requires Tiled(h.blk, h.end) && Listed(h.blk, h.rings, X) && Linked(m, h.rings)
    requires r in h.blk && (h.blk[r].used || r in X) && |m'| == |m|
    requires forall p :: 0 <= p < |m| && m'[p] != m[p] ==> r <= p < r + h.blk[r].words - 2
    ensures Linked(m', h.rings)
  {
    forall d | 0 <= d < NCLASSES ensures Ring(m', h.rings[d]) {
      assert Ring(m, h.rings[d]);
      forall k | 0 <= k < |h.rings[d]|
        ensures m'[h.rings[d][k]] == m[h.rings[d][k]] && m'[h.rings[d][k] + 1] == m[h.rings[d][k] + 1]
      {
        if k > 0 {
          assert OnList(h.blk, X, d, h.rings[d][k]);
          BlockFits(h.blk, h.end, h.rings[d][k]);
        }
        BlockFits(h.blk, h.end, r);
      }
      RingFrame(m, m', h.rings[d]);
    }
  }

  // ---------------------------------------------------------------- the first heap

  /** The heap mm_init builds: one free block of `words`, nine empty lists. */
  ghost function FirstHeap(words: int): Heap {
    Heap(map[FIRST := Block(words, false)], seq(NCLASSES, c => [Head(c)]), FIRST + words)
  }

  lemma FirstHeapInv(m: Memory, words: int)
    requires words >= 4 && words % 2 == 0 && FIRST + words <= |m| < 0x4000_0000
    requires m[1] == PROLOGUE && m[FIRST - 2] == PROLOGUE && m[FIRST + words - 1] == EPILOGUE
    requires forall c :: 0 <= c < NCLASSES ==> m[Head(c)] == Head(c) && m[Head(c) + 1] == Head(c)
    ensures Inv(m, FirstHeap(words), {FIRST}, {FIRST}) && Isolated(FirstHeap(words).blk, FIRST)
    ensures FirstHeap(words).blk[FIRST] == Block(words, false) && Live(FirstHeap(words).blk) == map[]
  {
    var h := FirstHeap(words);
    assert End(h.blk, FIRST) == h.end;
    forall c | 0 <= c < NCLASSES ensures Ring(m, h.rings[c]) {
      assert LinkOk(m, h.rings[c], 0);
    }
  }

  function Held(blk: Blocks, r: int): Blocks
    requires r in blk
  {
    blk[r := Block(blk[r].words, true)]
  }

  lemma IsolatedMark(blk: Blocks, r: int, used: bool)
    requires r in blk && Isolated(blk, r) && blk[r].words > 0
    ensures Isolated(blk[r := Block(blk[r].words, used)], r)
  {
    var blk' := blk[r := Block(blk[r].words, used)];
    assert End(blk', r) == End(blk, r);
    forall p | p in blk' && End(blk', p) == r ensures blk'[p].used { assert End(blk, p) == r; }
  }
}
