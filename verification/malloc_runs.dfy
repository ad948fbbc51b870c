/** The allocator as its clients see it: a finite map from pointers to payloads, over any run. */
module MallocRuns {
  import opened MallocSizes
  import opened Rings
  import opened HeapInvariant
  import opened ReallocSpec
  import opened Malloc

  /** What the client owns: for each pointer, the words of its payload. */
  type Client = map<int, seq<Word>>

  datatype Op =
    | Alloc(size: Word)
    | Free(ptr: int)
    | Realloc(ptr: int, size: Word)
    | Write(ptr: int, i: int, v: Word)

  /** A call the client may make: on a pointer it owns, or NULL, and not too large. */
  ghost predicate Legal(c: Client, op: Op) {
    match op
    case Alloc(size) => size <= MAX_REQUEST
    case Free(p) => p == NULL || p in c
    case Realloc(p, size) => (p == NULL || p in c) && size <= MAX_REQUEST
    case Write(p, i, v) => p in c && 0 <= i < |c[p]|
  }

  /** A new pointer, 8-aligned, with a payload of at least `size` bytes. */
  ghost predicate Gained(c: Client, c': Client, r: int, size: int) {
    r % 2 == 0 && r !in c && r in c' && c' == c[r := c'[r]] && 4 * |c'[r]| >= size
  }

  /** The abstract effect of a call together with the pointer it returned (NULL for free and write). */
  ghost predicate Returned(c: Client, op: Op, c': Client, r: int) {
    match op
    case Alloc(size) => if r == NULL then c' == c else Gained(c, c', r, size)
    case Free(p) => r == NULL && c' == c - {p}
    case Realloc(p, size) =>
      if p == NULL then if r == NULL then c' == c else Gained(c, c', r, size)
      else p in c && (if size == 0 then r == NULL && c' == c - {p}
                      else if r == NULL then c' == c
                      else Gained(c - {p}, c', r, size) && SameStart(c[p], c'[r], size))
    case Write(p, i, v) => r == NULL && p in c && 0 <= i < |c[p]| && c' == c[p := SetWord(c[p], i, v)]
  }

  /** The calls that give NULL: those that return nothing, and requests that nothing can serve. */
  ghost predicate Refuses(h: Heap, op: Op)
    requires Tiled(h.blk, h.end)
  {
    match op
    case Alloc(size) => size == 0 || CannotServe(h.blk, h.end, AllocSize(size))
    case Realloc(p, size) =>
      size == 0 || (if p == NULL then CannotServe(h.blk, h.end, AllocSize(size))
                    else p in h.blk && ReallocFails(h, p, AllocSize(size)))
    case _ => true
  }

  /** The calls after which the heap is beyond repair. */
  ghost predicate Spoils(h: Heap, op: Op)
    requires Tiled(h.blk, h.end)
  {
    op.Realloc? && op.ptr != NULL && op.size > 0 && Refuses(h, op) && !PrevFree(h.blk, op.ptr)
  }

  /** A request for new memory that a free block fits gets the first fit; any other that is served, memory at the end. */
  ghost predicate FirstFits(h: Heap, op: Op, h': Heap, r: int) {
    (op.Alloc? || (op.Realloc? && op.ptr == NULL)) && op.size > 0 ==>
      && AllocSize(op.size) >= MIN_ALLOC
      && if NoFit(h.blk, AllocSize(op.size)) then r == NULL || PlacedNew(h, h', r, AllocSize(op.size))
         else Placed(h, h', r, AllocSize(op.size))
  }

  ghost predicate Answered(h: Heap, op: Op, h': Heap, r: int)
    requires Tiled(h.blk, h.end)
  {
    && (r == NULL <==> Refuses(h, op)) && FirstFits(h, op, h', r)
    && (op.Realloc? && op.ptr in h.blk && op.ptr != NULL && op.size > 0 ==> InPlace(h.blk, op.ptr, h'.blk, r, AllocSize(op.size)))
  }

  function SetWord(s: seq<Word>, i: int, v: Word): seq<Word>
    requires 0 <= i < |s|
  {
    s[i := v]
  }

  /** The words that hold the first min(old, new) bytes agree. */
  ghost predicate SameStart(s: seq<Word>, t: seq<Word>, size: int) {
    forall i :: 0 <= i < |s| && 4 * i < size ==> i < |t| && t[i] == s[i]
  }

  ghost function Payloads(m: Memory, h: Heap): Client
    requires Inv(m, h, {}, {})
  {
    map a | a in Live(h.blk) :: PayloadAt(m, h, a)
  }

  ghost function PayloadAt(m: Memory, h: Heap, a: int): seq<Word>
    requires Inv(m, h, {}, {}) && a in Live(h.blk)
  {
    BlockFits(h.blk, h.end, a);
    m[a..a + Live(h.blk)[a]]
  }

  /** Live payloads are 8-aligned, inside the heap, and disjoint. */
  lemma PayloadsDisjoint(m: Memory, h: Heap, a: int, b: int)
    requires Inv(m, h, {}, {}) && a in Payloads(m, h) && b in Payloads(m, h)
    ensures a % 2 == 0 && FIRST <= a && a + |Payloads(m, h)[a]| <= h.end - 2
    ensures a < b ==> a + |Payloads(m, h)[a]| <= b - 2
  {
    BlockFits(h.blk, h.end, a);
    BlockFits(h.blk, h.end, b);
  }

  lemma PayloadLength(m: Memory, h: Heap, a: int)
    requires Inv(m, h, {}, {}) && a in Payloads(m, h)
    ensures a in Live(h.blk) && |Payloads(m, h)[a]| == Live(h.blk)[a] && FIRST <= a && a + Live(h.blk)[a] <= |m|
  {
    BlockFits(h.blk, h.end, a);
  }

  /** Blocks that keep their words keep their payloads. */
  lemma PayloadKeptAt(m0: Memory, h0: Heap, m: Memory, h: Heap, x: int, a: int)
    requires Inv(m0, h0, {}, {}) && Inv(m, h, {}, {}) && |m| == |m0|
    requires LiveKept(m0, h0.blk, m, h.blk, x) && a in Live(h0.blk) && a != x
    ensures a in Live(h.blk) && PayloadAt(m, h, a) == PayloadAt(m0, h0, a)
  {
    BlockFits(h0.blk, h0.end, a);
    assert h.blk[a] == h0.blk[a] && BlockKept(m0, m, h0.blk[a], a);
  }

  lemma AllPayloadsKept(m0: Memory, h0: Heap, m: Memory, h: Heap, x: int)
    requires Inv(m0, h0, {}, {}) && Inv(m, h, {}, {}) && |m| == |m0|
    requires LiveKept(m0, h0.blk, m, h.blk, x)
    ensures forall a :: a in Payloads(m0, h0) && a != x ==> a in Payloads(m, h) && Payloads(m, h)[a] == Payloads(m0, h0)[a]
  {
    hide Inv, LiveKept, PayloadAt, Live;
    forall a | a in Payloads(m0, h0) && a != x
      ensures a in Payloads(m, h) && Payloads(m, h)[a] == Payloads(m0, h0)[a]
    {
      PayloadKeptAt(m0, h0, m, h, x, a);
    }
  }

  /** A block granted shows up as exactly one new pointer. */
  lemma ClientPut(c: Client, c': Client, r: int)
    requires r in c' && (forall a :: a in c' <==> a in c || a == r)
    requires forall a :: a in c && a != r ==> a in c' && c'[a] == c[a]
    ensures c' == c[r := c'[r]]
  {
    var d := c[r := c'[r]];
    assert forall a :: a in c' <==> a in d;
    assert forall a :: a in d ==> c'[a] == d[a];
  }

  lemma GrantGained(m0: Memory, h0: Heap, m: Memory, h: Heap, r: int, size: int)
    requires Inv(m0, h0, {}, {}) && Inv(m, h, {}, {}) && |m| == |m0| && Granted(m0, h0, m, h, r, size)
    ensures Gained(Payloads(m0, h0), Payloads(m, h), r, size)
  {
    hide Inv, LiveKept, PayloadAt, Live;
    var c, c' := Payloads(m0, h0), Payloads(m, h);
    PayloadLength(m, h, r);
    InvTiled(m0, h0, {}, {});
    NullNotBlock(h0.blk, h0.end);
    LiveMembers(h0.blk);
    AllPayloadsKept(m0, h0, m, h, NULL);
    hide Spaced, Chained, Tags, Coalesced, Granted;
    hide Payloads;
    ClientPut(c, c', r);
  }

  lemma FreeDrops(m0: Memory, h0: Heap, m: Memory, h: Heap, p: int)
    requires Inv(m0, h0, {}, {}) && Inv(m, h, {}, {}) && |m| == |m0|
    requires Live(h.blk) == Live(h0.blk) - {p} && LiveKept(m0, h0.blk, m, h.blk, p)
    ensures Payloads(m, h) == Payloads(m0, h0) - {p}
  {
    hide LiveKept, PayloadAt, Inv, Live;
    AllPayloadsKept(m0, h0, m, h, p);
    var c, c' := Payloads(m0, h0), Payloads(m, h);
    assert c'.Keys == c.Keys - {p};
  }

  lemma MoveWords(m0: Memory, h0: Heap, m: Memory, h: Heap, p: int, r: int, size: int)
    requires Inv(m0, h0, {}, {}) && Inv(m, h, {}, {}) && |m| == |m0| && size > 0
    requires p in Live(h0.blk) && r in Live(h.blk) && 4 * Live(h.blk)[r] >= size
    requires SameWords(m0, p, m, r, Live(h0.blk)[p], size)
    ensures SameStart(PayloadAt(m0, h0, p), PayloadAt(m, h, r), size)
  {
    var s, t := PayloadAt(m0, h0, p), PayloadAt(m, h, r);
    BlockFits(h0.blk, h0.end, p);
    BlockFits(h.blk, h.end, r);
    hide Inv, Spaced, Chained;
    forall i | 0 <= i < |s| && 4 * i < size ensures i < |t| && t[i] == s[i] {
      assert SameWord(m0, p, m, r, i);
    }
  }

  lemma MoveEffect(m0: Memory, h0: Heap, m: Memory, h: Heap, p: int, r: int, size: int)
    requires Inv(m0, h0, {}, {}) && Inv(m, h, {}, {}) && |m| == |m0| && Moved(m0, h0, m, h, p, r, size) && size > 0
    ensures p in Payloads(m0, h0) && r in Payloads(m, h)
    ensures Gained(Payloads(m0, h0) - {p}, Payloads(m, h), r, size)
    ensures SameStart(Payloads(m0, h0)[p], Payloads(m, h)[r], size)
  {
    hide Inv, LiveKept, PayloadAt, Live, SameWords;
    var c, c' := Payloads(m0, h0), Payloads(m, h);
    LiveMembers(h0.blk);
    LiveMembers(h.blk);
    PayloadLength(m, h, r);
    MoveWords(m0, h0, m, h, p, r, size);
    AllPayloadsKept(m0, h0, m, h, p);
    assert forall a :: a in c' <==> a in c - {p} || a == r;
    ClientPut(c - {p}, c', r);
  }

  lemma SamePayloads(m0: Memory, h0: Heap, m: Memory, h: Heap)
    requires Inv(m0, h0, {}, {}) && Inv(m, h, {}, {}) && |m| == |m0|
    requires Live(h.blk) == Live(h0.blk) && LiveKept(m0, h0.blk, m, h.blk, NULL)
    ensures Payloads(m, h) == Payloads(m0, h0)
  {
    NullNotBlock(h0.blk, h0.end);
    AllPayloadsKept(m0, h0, m, h, NULL);
    hide Inv, LiveKept, PayloadAt;
    assert Payloads(m, h).Keys == Payloads(m0, h0).Keys;
  }

  lemma WriteEffect(m0: Memory, h: Heap, m: Memory, p: int, i: int, v: Word)
    requires Inv(m0, h, {}, {}) && p in Live(h.blk) && 0 <= i < Live(h.blk)[p]
    requires p + i < |m0| && 0 <= p + i && m == m0[p + i := v]
    ensures Inv(m, h, {}, {}) && p in Payloads(m0, h) && i < |Payloads(m0, h)[p]|
    ensures Payloads(m, h) == Payloads(m0, h)[p := SetWord(Payloads(m0, h)[p], i, v)]
  {
    PayloadWrite(m0, h, {}, {}, p, m);
    BlockFits(h.blk, h.end, p);
    assert PayloadAt(m, h, p) == SetWord(PayloadAt(m0, h, p), i, v);
    hide Inv, LiveKept, PayloadAt, Live;
    AllPayloadsKept(m0, h, m, h, p);
    ClientPut(Payloads(m0, h), Payloads(m, h), p);
  }

  /** One call by the client. It returns NULL exactly when it must, has its abstract effect and keeps the heap well
      formed, unless it is a refused realloc whose left neighbour was allocated. */
  method Step(a: Allocator, op: Op) returns (ok: bool, r: int)
    requires a.Valid() && Legal(Payloads(a.mem[..], a.h), op)
    modifies a, a.mem
    ensures old(a.Valid()) && Answered(old(a.h), op, a.h, r)
    ensures ok <==> !Spoils(old(a.h), op)
    ensures ok ==> a.Valid() && Returned(Payloads(old(a.mem[..]), old(a.h)), op, Payloads(a.mem[..], a.h), r)
    ensures !ok ==> NoHeapFits(a.mem[..], Payloads(old(a.mem[..]), old(a.h)).Keys)
  {
    hide Inv, LiveKept, Live, Granted, Moved, PayloadAt, ReallocFails, Gained, SameStart, CannotServe, NoFit, Placed, PlacedNew, NoHeapFits, AllocSize;
    ghost var m0, h0 := a.mem[..], a.h;
    InvTiled(m0, h0, {}, {});
    ok, r := true, NULL;
    match op {
      case Alloc(size) =>
        r := a.MmMalloc(size);
        if r != NULL { GrantGained(m0, h0, a.mem[..], a.h, r, size); }
      case Free(p) =>
        a.MmFree(p);
        FreeDrops(m0, h0, a.mem[..], a.h, p);
      case Realloc(p, size) =>
        ok, r := StepRealloc(a, p, size);
      case Write(p, i, v) =>
        PayloadLength(m0, h0, p);
        WriteEffect(m0, a.h, m0[p + i := v], p, i, v);
        a.mem[p + i] := v;
    }
  }

  method StepRealloc(a: Allocator, p: int, size: Word) returns (ok: bool, r: int)
    requires a.Valid() && Legal(Payloads(a.mem[..], a.h), Realloc(p, size))
    modifies a, a.mem
    ensures old(a.Valid()) && Answered(old(a.h), Realloc(p, size), a.h, r)
    ensures ok <==> !Spoils(old(a.h), Realloc(p, size))
    ensures ok ==> a.Valid() && Returned(Payloads(old(a.mem[..]), old(a.h)), Realloc(p, size), Payloads(a.mem[..], a.h), r)
    ensures !ok ==> NoHeapFits(a.mem[..], Payloads(old(a.mem[..]), old(a.h)).Keys)
  {
    hide Inv, LiveKept, Granted, Moved, PayloadAt, ReallocFails, Gained, SameStart, CannotServe, NoFit, Placed, PlacedNew, NoHeapFits, AllocSize, Live;
    ghost var m0, h0 := a.mem[..], a.h;
    InvTiled(m0, h0, {}, {});
    LiveMembers(h0.blk);
    var leftFree := a.LeftFree(p);
    r := a.MmRealloc(p, size);
    ok := !(p != NULL && size > 0 && r == NULL && !leftFree);
    if ok {
      if p == NULL {
        if r != NULL { GrantGained(m0, h0, a.mem[..], a.h, r, size); }
      } else if size == 0 {
        FreeDrops(m0, h0, a.mem[..], a.h, p);
      } else if r != NULL {
        MoveEffect(m0, h0, a.mem[..], a.h, p, r, size);
      } else {
        SamePayloads(m0, h0, a.mem[..], a.h);
      }
    } else {
      assert Payloads(m0, h0).Keys == Live(h0.blk).Keys;
    }
  }

  /** The requests of a trace file: they name blocks by id, not by pointer. */
  datatype Request =
    | AllocId(id: nat, size: Word)
    | FreeId(id: nat)
    | ReallocId(id: nat, size: Word)
    | WriteId(id: nat, i: nat, v: Word)

  /** What the client remembers of an id: its pointer (or NULL) and how many words it asked for. */
  datatype Slot = Slot(ptr: int, words: int)

  ghost predicate Owns(table: map<nat, Slot>, c: Client) {
    && (forall id :: id in table && table[id].ptr != NULL ==>
          table[id].ptr in c && 0 <= table[id].words <= |c[table[id].ptr]|)
    && (forall i, j :: i in table && j in table && i != j && table[i].ptr != NULL ==> table[i].ptr != table[j].ptr)
  }

  function SlotOf(table: map<nat, Slot>, id: nat): Slot {
    if id in table then table[id] else Slot(NULL, 0)
  }

  function CallOf(table: map<nat, Slot>, q: Request): Op {
    match q
    case AllocId(_, size) => Alloc(size)
    case FreeId(id) => Free(SlotOf(table, id).ptr)
    case ReallocId(id, size) => Realloc(SlotOf(table, id).ptr, size)
    case WriteId(id, i, v) => Write(SlotOf(table, id).ptr, i, v)
  }

  // A write outside what the client asked for is not made.
  predicate Skips(table: map<nat, Slot>, q: Request) {
    q.WriteId? && (SlotOf(table, q.id).ptr == NULL || q.i >= SlotOf(table, q.id).words)
  }

  predicate Sane(q: Request) {
    (q.AllocId? || q.ReallocId?) ==> q.size <= MAX_REQUEST
  }

  // The table after a call that returned r.
  function Noted(table: map<nat, Slot>, q: Request, r: int): map<nat, Slot> {
    match q
    case AllocId(id, size) => table[id := Slot(r, size / 4)]
    case FreeId(id) => table[id := Slot(NULL, 0)]
    case ReallocId(id, size) => if r == NULL && size > 0 then table else table[id := Slot(r, size / 4)]
    case WriteId(_, _, _) => table
  }

  /** Requests by id only ever name pointers the client owns. */
  lemma CallLegal(table: map<nat, Slot>, c: Client, q: Request)
    requires Owns(table, c) && Sane(q) && !Skips(table, q)
    ensures Legal(c, CallOf(table, q))
  {
  }

  lemma TakenOwns(table: map<nat, Slot>, c: Client, id: nat, c': Client, r: int, size: int)
    requires Owns(table, c) && (r == NULL ==> c' == c) && (r != NULL ==> Gained(c, c', r, size)) && size >= 0
    ensures Owns(table[id := Slot(r, size / 4)], c')
  {
  }

  lemma DroppedOwns(table: map<nat, Slot>, c: Client, id: nat)
    requires Owns(table, c) && NULL !in c
    ensures Owns(table[id := Slot(NULL, 0)], c - {SlotOf(table, id).ptr})
  {
  }

  lemma WrittenOwns(table: map<nat, Slot>, c: Client, p: int, i: int, v: Word)
    requires Owns(table, c) && p in c && 0 <= i < |c[p]|
    ensures Owns(table, c[p := SetWord(c[p], i, v)])
  {
  }

  /** A table without the pointer of id owns what is left of the client. */
  lemma MovedOwns(table: map<nat, Slot>, c: Client, id: nat, p: int, c': Client, r: int, size: int)
    requires Owns(table, c) && NULL !in c && SlotOf(table, id).ptr == p != NULL
    requires size >= 0 && r != NULL && Gained(c - {p}, c', r, size)
    ensures Owns(table[id := Slot(r, size / 4)], c')
  {
    hide Gained, Owns;
    DroppedOwns(table, c, id);
    var dropped := table[id := Slot(NULL, 0)];
    TakenOwns(dropped, c - {p}, id, c', r, size);
    assert dropped[id := Slot(r, size / 4)] == table[id := Slot(r, size / 4)];
  }

  lemma NotedOwns(table: map<nat, Slot>, c: Client, q: Request, c': Client, r: int)
    requires Owns(table, c) && !Skips(table, q) && NULL !in c && Returned(c, CallOf(table, q), c', r)
    ensures Owns(Noted(table, q, r), c')
  {
    hide Owns, Gained, SameStart;
    var p := SlotOf(table, q.id).ptr;
    match q
    case AllocId(id, size) => TakenOwns(table, c, id, c', r, size);
    case FreeId(id) => DroppedOwns(table, c, id);
    case ReallocId(id, size) =>
      if p == NULL {
        if r != NULL || size == 0 { TakenOwns(table, c, id, c', r, size); }
      } else if size == 0 {
        DroppedOwns(table, c, id);
      } else if r != NULL {
        MovedOwns(table, c, id, p, c', r, size);
      }
    case WriteId(id, i, v) => WrittenOwns(table, c, p, i, v);
  }

  lemma EmptyOwns(m: Memory, h: Heap)
    requires Inv(m, h, {}, {}) && Live(h.blk) == map[]
    ensures Payloads(m, h) == map[] && Owns(map[], map[])
  {
  }

  lemma NullNotOwned(m: Memory, h: Heap)
    requires Inv(m, h, {}, {})
    ensures NULL !in Payloads(m, h)
  {
    NullNotBlock(h.blk, h.end);
  }

  /** A moment between two requests: the memory, the heap in it, and the client's table. */
  datatype Moment = Moment(m: Memory, h: Heap, table: map<nat, Slot>)

  ghost predicate Sound(p: Moment) {
    Inv(p.m, p.h, {}, {}) && Owns(p.table, Payloads(p.m, p.h))
  }

  /** Right after mm_init. */
  ghost predicate Start(p: Moment) {
    Sound(p) && Live(p.h.blk) == map[] && p.h.end == BASE + CHUNKSIZE / 4 && p.table == map[]
  }

  /** A request that has been served between p and p': its call returned r. */
  ghost predicate CallServed(p: Moment, q: Request, p': Moment, r: int)
    requires Sound(p) && Sound(p')
  {
    var op := CallOf(p.table, q);
    && Legal(Payloads(p.m, p.h), op) && !Spoils(p.h, op) && Answered(p.h, op, p'.h, r)
    && Returned(Payloads(p.m, p.h), op, Payloads(p'.m, p'.h), r) && p'.table == Noted(p.table, q, r)
  }

  ghost predicate Served(p: Moment, q: Request, p': Moment) {
    Sound(p) && Sound(p') && if Skips(p.table, q) then p' == p else exists r :: CallServed(p, q, p', r)
  }

  /** A request that makes a call beyond repair; m is the memory it leaves. */
  ghost predicate Spoiled(p: Moment, q: Request, m: Memory) {
    && Sound(p) && !Skips(p.table, q) && Spoils(p.h, CallOf(p.table, q))
    && NoHeapFits(m, Payloads(p.m, p.h).Keys)
  }

  /** The moments of serving these requests one after the other. */
  ghost predicate Trail(reqs: seq<Request>, trail: seq<Moment>) {
    && 1 <= |trail| <= |reqs| + 1 && Start(trail[0])
    && forall i :: 0 <= i < |trail| - 1 ==> Served(trail[i], reqs[i], trail[i + 1])
  }

  /** The requests have been served, all of them or up to the first that spoils the heap; m is the memory at the end. */
  ghost predicate Ran(reqs: seq<Request>, trail: seq<Moment>, ok: bool, m: Memory) {
    && Trail(reqs, trail)
    && var n := |trail| - 1;
       if ok then n == |reqs| && trail[n].m == m else n < |reqs| && Spoiled(trail[n], reqs[n], m)
  }

  lemma TrailExtends(reqs: seq<Request>, trail: seq<Moment>, p: Moment)
    requires Trail(reqs, trail) && |trail| <= |reqs| && Served(trail[|trail| - 1], reqs[|trail| - 1], p)
    ensures Trail(reqs, trail + [p])
  {
    hide Served, Start;
    var longer := trail + [p];
    forall i | 0 <= i < |longer| - 1 ensures Served(longer[i], reqs[i], longer[i + 1]) {
      assert longer[i] == trail[i];
    }
  }

  /** What one request does, from one moment to the next. */
  method Serve(a: Allocator, q: Request, table: map<nat, Slot>) returns (ok: bool, table': map<nat, Slot>)
    requires a.Valid() && Sound(Moment(a.mem[..], a.h, table)) && Sane(q)
    modifies a, a.mem
    ensures ok ==> a.Valid() && Served(Moment(old(a.mem[..]), old(a.h), table), q, Moment(a.mem[..], a.h, table'))
    ensures !ok ==> Spoiled(Moment(old(a.mem[..]), old(a.h), table), q, a.mem[..])
  {
    hide Inv, Live, PayloadAt, Returned, Owns, Legal, Noted, Spoils, Answered, NoHeapFits, Payloads;
    ghost var p := Moment(a.mem[..], a.h, table);
    ghost var c := Payloads(p.m, p.h);
    table' := table;
    if Skips(table, q) {
      return true, table;
    }
    var op := CallOf(table, q);
    CallLegal(table, c, q);
    NullNotOwned(p.m, p.h);
    var r;
    ok, r := Step(a, op);
    if ok {
      NotedOwns(table, c, q, Payloads(a.mem[..], a.h), r);
      table' := Noted(table, q, r);
      hide CallOf;
      assert CallServed(p, q, Moment(a.mem[..], a.h, table'), r);
    }
  }

  /** Any sequence of sane requests on a fresh heap is served one after the other, up to the first that spoils it. */
  method Run(a: Allocator, reqs: seq<Request>) returns (ok: bool, table: map<nat, Slot>, ghost trail: seq<Moment>)
    requires a.mem.Length == LIMIT && a.brk == BASE && forall q :: q in reqs ==> Sane(q)
    modifies a, a.mem
    ensures Ran(reqs, trail, ok, a.mem[..])
    ensures ok ==> a.Valid() && trail[|reqs|] == Moment(a.mem[..], a.h, table)
  {
    hide Sound, Served, Spoiled;
    a.MmInit();
    StartOf(a.mem[..], a.h);
    table := map[];
    trail := [Moment(a.mem[..], a.h, table)];
    var i := 0;
    ok := true;
    while i < |reqs|
      invariant 0 <= i <= |reqs| && |trail| == i + 1 && Trail(reqs, trail) && ok
      invariant a.Valid() && trail[i] == Moment(a.mem[..], a.h, table) && Sound(trail[i])
    {
      assert Sane(reqs[i]);
      ok, table := Serve(a, reqs[i], table);
      if !ok {
        return;
      }
      ServedSound(trail[i], reqs[i], Moment(a.mem[..], a.h, table));
      TrailExtends(reqs, trail, Moment(a.mem[..], a.h, table));
      trail := trail + [Moment(a.mem[..], a.h, table)];
      i := i + 1;
    }
  }

  lemma StartOf(m: Memory, h: Heap)
    requires Inv(m, h, {}, {}) && Live(h.blk) == map[] && h.end == BASE + CHUNKSIZE / 4
    ensures Start(Moment(m, h, map[])) && Sound(Moment(m, h, map[]))
  {
    EmptyOwns(m, h);
    hide Inv, Owns;
  }

  lemma ServedSound(p: Moment, q: Request, p': Moment)
    requires Served(p, q, p')
    ensures Sound(p')
  {
  }
}
