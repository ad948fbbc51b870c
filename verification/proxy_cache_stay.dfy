/** What a put leaves in the cache: entries go only for want of room, those longest untouched first. */
module ProxyCacheStay {
  import opened ProxyCache

  /** x stands nearer the front than y. */
  ghost predicate Before(es: seq<Entry>, x: Entry, y: Entry) {
    exists i, j :: 0 <= i < j < |es| && es[i] == x && es[j] == y
  }

  /** The list behind index i has been passed without making all the room: nothing is there, or room was enough. */
  ghost predicate Passed(c: Cache, i: int, size: nat) {
    c.free >= size || |c.entries| == i + 1 || (i == -1 && |c.entries| == 1)
  }

  // ---------------------------------------------------------------- one visit

  lemma WithoutBefore(es: seq<Entry>, i: nat, x: Entry, y: Entry)
    requires i < |es| && Before(es, x, y) && es[i] != x && es[i] != y
    ensures Before(Without(es, i), x, y)
  {
    var a, b :| 0 <= a < b < |es| && es[a] == x && es[b] == y;
    var w := Without(es, i);
    var a', b' := if a < i then a else a - 1, if b < i then b else b - 1;
    assert w[a'] == x && w[b'] == y;
  }

  lemma FrontBefore(z: Entry, es: seq<Entry>, x: Entry, y: Entry)
    requires Before(es, x, y)
    ensures Before([z] + es, x, y)
  {
    var a, b :| 0 <= a < b < |es| && es[a] == x && es[b] == y;
    assert ([z] + es)[a + 1] == x && ([z] + es)[b + 1] == y;
  }

  lemma VisitBefore(c: Cache, i: nat, evict: bool, x: Entry, y: Entry)
    requires i < |c.entries| && Before(c.entries, x, y)
    requires c.entries[i].patience <= 0 || evict ==> c.entries[i] != x && c.entries[i] != y
    ensures Before(Visit(c, i, evict).0.entries, x, y)
  {
    if c.entries[i].patience <= 0 {
      WithoutBefore(c.entries, i, x, y);
      FrontBefore(Promoted(c.entries[i]), Without(c.entries, i), x, y);
    } else if evict {
      WithoutBefore(c.entries, i, x, y);
    }
  }

  lemma VisitPassed(c: Cache, i: nat, size: nat)
    requires i < |c.entries| && Passed(c, i, size)
    ensures var (d, k) := Visit(c, i, c.free < size); Passed(d, k, size)
  {
  }

  lemma KeyWithout(es: seq<Entry>, i: nat, k: string)
    requires i < |es|
    ensures Has(es, k) <==> es[i].uri == k || Has(Without(es, i), k)
  {
    var w := Without(es, i);
    if Has(es, k) && es[i].uri != k {
      var a :| 0 <= a < |es| && es[a].uri == k;
      assert w[if a < i then a else a - 1].uri == k;
    }
    if Has(w, k) {
      var a :| 0 <= a < |w| && w[a].uri == k;
      assert es[if a < i then a else a + 1].uri == k;
    }
  }

  /** Moving an entry to the front keeps every key. */
  lemma FrontKeys(c: Cache, i: nat, x: Entry, k: string)
    requires i < |c.entries| && x.uri == c.entries[i].uri
    ensures Has(ToFront(c, i, x).entries, k) <==> Has(c.entries, k)
  {
    KeyWithout(c.entries, i, k);
    HasFront(Without(c.entries, i), x, k);
    hide Has;
  }

  lemma GoneAfter(c: Cache, i: nat)
    requires i < |c.entries| && Unique(c.entries)
    ensures !Has(Evicted(c, i).entries, c.entries[i].uri)
  {
    UniqueMoved(c.entries, i, c.entries[i]);
    var w := Without(c.entries, i);
    forall a | 0 <= a < |w| ensures w[a].uri != c.entries[i].uri {
      assert ([c.entries[i]] + w)[a + 1] == w[a] && ([c.entries[i]] + w)[0] == c.entries[i];
    }
  }

  // ---------------------------------------------------------------- the first loop

  /** A key that is gone stays gone. */
  lemma NeverBack(c: Cache, i: int, u: string, size: nat, k: string)
    requires -1 <= i < |c.entries| && k != u && !Has(c.entries, k)
    ensures !Has(Scan(c, i, u, size).0.entries, k)
  {
    ScanSurvives(c, i, u, size);
    var d := Scan(c, i, u, size).0;
    hide Scan, Unique, Size;
    forall a | 0 <= a < |d.entries| && d.entries[a].uri != u ensures Has(c.entries, d.entries[a].uri) {
      assert d.entries[a] in d.entries && Descends(c.entries, d.entries[a]);
      var e :| e in c.entries && Same(e, d.entries[a]);
      var b :| 0 <= b < |c.entries| && c.entries[b] == e;
    }
  }

  /** With room enough every key stays, and the free bytes are as they were. */
  lemma {:induction false} RoomyKeys(c: Cache, i: int, u: string, size: nat, k: string)
    requires -1 <= i < |c.entries| && c.free >= size
    ensures var d := Scan(c, i, u, size).0; d.free == c.free && (Has(c.entries, k) <==> Has(d.entries, k))
    decreases AllChances(c.entries), i + 1
  {
    if i >= 0 {
      if c.entries[i].uri == u {
        FrontKeys(c, i, c.entries[i].(patience := DEFAULT_PATIENCE), k);
      } else {
        VisitDrops(c, i, c.free < size);
        if c.entries[i].patience <= 0 { FrontKeys(c, i, Promoted(c.entries[i]), k); }
        var v := Visit(c, i, c.free < size);
        assert v.0.free == c.free && (Has(c.entries, k) <==> Has(v.0.entries, k));
        hide AllChances, Visit, Has;
        RoomyKeys(v.0, v.1, u, size, k);
      }
    }
  }

  /** An entry x nearer the front goes only if y, with patience left, goes too; if both have patience left they keep
      their order. */
  lemma {:induction false} ScanStays(c: Cache, i: int, u: string, size: nat, x: Entry, y: Entry)
    requires -1 <= i < |c.entries| && Unique(c.entries) && Passed(c, i, size)
    requires Before(c.entries, x, y) && x.uri != u && y.uri != u && y.patience > 0
    ensures var d := Scan(c, i, u, size).0;
            && (c.free >= size || Has(d.entries, y.uri) ==> Has(d.entries, x.uri))
            && (x.patience > 0 && (c.free >= size || Has(d.entries, y.uri)) ==> Before(d.entries, x, y))
    decreases AllChances(c.entries), i + 1
  {
    HasBoth(c.entries, x, y);
    if i >= 0 {
      var z, evict := c.entries[i], c.free < size;
      if z.uri == u {
        FrontKeys(c, i, z.(patience := DEFAULT_PATIENCE), x.uri);
        WithoutBefore(c.entries, i, x, y);
        FrontBefore(z.(patience := DEFAULT_PATIENCE), Without(c.entries, i), x, y);
      } else if evict && z == y && z.patience > 0 {
        GoneAfter(c, i);
        NeverBack(Evicted(c, i), i - 1, u, size, y.uri);
      } else if c.free >= size && z == x && x.patience <= 0 {
        RoomyKeys(c, i, u, size, x.uri);
      } else {
        LastIsNot(c.entries, i, x, y);
        VisitDrops(c, i, evict);
        VisitPassed(c, i, size);
        VisitBefore(c, i, evict, x, y);
        VisitSurvives(c, i, evict);
        var v := Visit(c, i, evict);
        StaysUnique(c, v.0);
        assert evict || v.0.free == c.free;
        hide AllChances, Visit, Has, Before, Unique, Passed, Survives;
        ScanStays(v.0, v.1, u, size, x, y);
      }
    }
  }

  lemma HasBoth(es: seq<Entry>, x: Entry, y: Entry)
    requires Before(es, x, y)
    ensures Has(es, x.uri) && Has(es, y.uri)
  {
  }

  /** The last entry stands in front of nothing. */
  lemma LastIsNot(es: seq<Entry>, i: nat, x: Entry, y: Entry)
    requires i < |es| && Unique(es) && Before(es, x, y)
    ensures |es| == i + 1 ==> es[i] != x
  {
    var a, b :| 0 <= a < b < |es| && es[a] == x && es[b] == y;
    if es[i] == x { assert a == i; }
  }

  /** e was there and is gone, and without its bytes there was not enough room. */
  ghost predicate LastToGo(c: Cache, d: Cache, free: int, size: nat) {
    exists e :: e in c.entries && !Has(d.entries, e.uri) && free - |e.data| < size
  }

  ghost predicate NoneGone(c: Cache, d: Cache) {
    forall k :: Has(c.entries, k) ==> Has(d.entries, k)
  }

  /** Either nothing is gone or the last entry to go was needed. */
  lemma {:induction false} ScanNeeds(c: Cache, i: int, u: string, size: nat)
    requires -1 <= i < |c.entries| && Unique(c.entries)
    ensures var d := Scan(c, i, u, size).0; (NoneGone(c, d) && d.free == c.free) || LastToGo(c, d, d.free, size)
    decreases AllChances(c.entries), i + 1
  {
    var d := Scan(c, i, u, size).0;
    if c.free >= size {
      forall k ensures Has(c.entries, k) <==> Has(d.entries, k) { RoomyKeys(c, i, u, size, k); }
      RoomyKeys(c, i, u, size, u);
    } else if i >= 0 && c.entries[i].uri == u {
      forall k ensures Has(c.entries, k) <==> Has(d.entries, k) {
        FrontKeys(c, i, c.entries[i].(patience := DEFAULT_PATIENCE), k);
      }
    } else if i >= 0 {
      var z := c.entries[i];
      VisitDrops(c, i, true);
      VisitSurvives(c, i, true);
      var v := Visit(c, i, true);
      StaysUnique(c, v.0);
      ScanNeeds(v.0, v.1, u, size);
      if z.patience <= 0 {
        forall k ensures Has(c.entries, k) <==> Has(v.0.entries, k) { FrontKeys(c, i, Promoted(z), k); }
      } else {
        GoneAfter(c, i);
        NeverBack(v.0, v.1, u, size, z.uri);
        assert z in c.entries && c.free == v.0.free - |z.data|;
      }
      assert v.0.free == if z.patience <= 0 then c.free else c.free + |z.data|;
      hide AllChances, Visit, Has, Unique, Scan;
      if LastToGo(v.0, d, d.free, size) { NeedsBefore(c, v.0, d, size); }
      if z.patience > 0 && d.free == v.0.free {
        assert LastToGo(c, d, d.free, size);
      }
    }
  }

  lemma NeedsBefore(c: Cache, v: Cache, d: Cache, size: nat)
    requires Survives(c, v) && LastToGo(v, d, d.free, size)
    ensures LastToGo(c, d, d.free, size)
  {
    var e :| e in v.entries && !Has(d.entries, e.uri) && d.free - |e.data| < size;
    assert Descends(c.entries, e);
    var x :| x in c.entries && Same(x, e);
  }

  /** An unsuccessful scan that has not made room has left one entry at most. */
  lemma {:induction false} ScanEnds(c: Cache, i: int, u: string, size: nat)
    requires -1 <= i < |c.entries| && Passed(c, i, size) && !Scan(c, i, u, size).1
    ensures Passed(Scan(c, i, u, size).0, -1, size)
    decreases AllChances(c.entries), i + 1
  {
    if i >= 0 {
      VisitDrops(c, i, c.free < size);
      VisitPassed(c, i, size);
      hide AllChances, Visit, Passed;
      var v := Visit(c, i, c.free < size);
      ScanEnds(v.0, v.1, u, size);
    }
  }

  // ---------------------------------------------------------------- the second loop

  /** From one entry at most, the second loop makes room by evicting it. */
  lemma {:induction false} RoomEmpties(c: Cache, size: nat)
    requires |c.entries| <= 1 && c.free < size <= c.free + Size(c.entries)
    ensures |c.entries| == 1 && Room(c, size) == Cache(c.free + |c.entries[0].data|, [])
    decreases |c.entries| + AllChances(c.entries)
  {
    assert |c.entries| == 1;
    var x := c.entries[0];
    assert c.entries[1..] == [];
    SweepProgress(c, 0);
    SweepSurvives(c, 0);
    VisitDrops(c, 0, true);
    var d := Sweep(c, 0);
    SurvivesSizes(c, d);
    if x.patience <= 0 {
      assert Without(c.entries, 0) == [];
      assert d == Cache(c.free, [Promoted(x)]);
      RoomEmpties(d, size);
    } else {
      assert d == Cache(c.free + |x.data|, []);
    }
  }

  lemma RoomEnough(c: Cache, size: nat)
    requires size <= c.free + Size(c.entries)
    ensures c.free >= size ==> Room(c, size) == c
  {
  }

  // ---------------------------------------------------------------- a put

  /** The free bytes after a put, before the new object takes its own. */
  function FreedBy(c: Cache, d: Cache, u: string, data: seq<Byte>): int {
    if Has(c.entries, u) then d.free else d.free + |data|
  }

  /** The entries that stay: none goes while one behind it that had patience left stays, and those with patience left
      keep their order. */
  ghost predicate BackFirst(c: Cache, d: Cache, u: string, roomy: bool) {
    forall x, y :: Before(c.entries, x, y) && x.uri != u && y.uri != u && y.patience > 0 && (roomy || Has(d.entries, y.uri)) ==>
      Has(d.entries, x.uri) && (x.patience > 0 ==> Before(d.entries, x, y))
  }

  lemma ScanKeeps(c: Cache, u: string, data: seq<Byte>) returns (s: Cache, found: bool)
    requires Unique(c.entries)
    ensures (s, found) == Scan(c, |c.entries| - 1, u, |data|) && (found <==> Has(c.entries, u))
    ensures |data| <= c.free ==> NoneGone(c, s) && s.free == c.free
    ensures NoneGone(c, s) || LastToGo(c, s, s.free, |data|)
    ensures BackFirst(c, s, u, |data| <= c.free)
    ensures !found ==> Survives(c, s) && Passed(s, -1, |data|)
  {
    var n := |c.entries| - 1;
    s, found := Scan(c, n, u, |data|).0, Scan(c, n, u, |data|).1;
    ScanFinds(c, n, u, |data|);
    assert c.entries[..n + 1] == c.entries;
    ScanNeeds(c, n, u, |data|);
    ScanSurvives(c, n, u, |data|);
    if !found { ScanEnds(c, n, u, |data|); }
    assert Passed(c, n, |data|);
    hide Scan, Has, Before, Passed, Survives, SurvivesBut, Reset, Unique, LastToGo;
    if |data| <= c.free {
      RoomyKeys(c, n, u, |data|, u);
      forall k ensures Has(c.entries, k) <==> Has(s.entries, k) { RoomyKeys(c, n, u, |data|, k); }
    }
    forall x, y | Before(c.entries, x, y) && x.uri != u && y.uri != u && y.patience > 0 && (|data| <= c.free || Has(s.entries, y.uri))
      ensures Has(s.entries, x.uri) && (x.patience > 0 ==> Before(s.entries, x, y))
    {
      ScanStays(c, n, u, |data|, x, y);
    }
  }

  /** With room for the object no key goes and the free bytes stay; otherwise, without the last entry to go there was
      not enough room; and the entries go from the back. */
  ghost predicate WellKept(c: Cache, d: Cache, u: string, free: int, size: nat) {
    && (size <= c.free ==> NoneGone(c, d) && free == c.free)
    && (NoneGone(c, d) || LastToGo(c, d, free, size))
    && BackFirst(c, d, u, size <= c.free)
  }

  /** A put drops no key when there is room for the object. Otherwise the entries go from the back, and without the last
      one to go there was not enough room. */
  lemma PutKeeps(c: Cache, capacity: nat, u: string, data: seq<Byte>)
    requires Balanced(c, capacity) && |data| <= capacity
    ensures var d := Put(c, u, data); WellKept(c, d, u, FreedBy(c, d, u, data), |data|)
  {
    hide Scan, Room, Has, Survives, Unique, Size, AllChances, BackFirst, NoneGone, LastToGo, Before;
    var s, found := ScanKeeps(c, u, data);
    assert WellKept(c, s, u, s.free, |data|);
    hide WellKept;
    if !found {
      SurvivesSizes(c, s);
      if s.free >= |data| {
        RoomEnough(s, |data|);
        RoomyPut(c, s, u, data);
      } else {
        RoomEmpties(s, |data|);
        EmptiedPut(c, s, u, data);
        var x := Entry(u, data, DEFAULT_PATIENCE);
        assert [x] + [] == [x];
      }
    }
  }

  lemma RoomyPut(c: Cache, s: Cache, u: string, data: seq<Byte>)
    requires s.free >= |data| && !Has(c.entries, u) && WellKept(c, s, u, s.free, |data|)
    ensures WellKept(c, Cache(s.free - |data|, [Entry(u, data, DEFAULT_PATIENCE)] + s.entries), u, s.free, |data|)
  {
    var x := Entry(u, data, DEFAULT_PATIENCE);
    var d := Cache(s.free - |data|, [x] + s.entries);
    forall k ensures Has(d.entries, k) <==> k == u || Has(s.entries, k) { HasFront(s.entries, x, k); }
    forall y, z | Before(s.entries, y, z) ensures Before(d.entries, y, z) { FrontBefore(x, s.entries, y, z); }
    hide Before;
    assert BackFirst(c, d, u, |data| <= c.free);
    if LastToGo(c, s, s.free, |data|) {
      var e :| e in c.entries && !Has(s.entries, e.uri) && s.free - |e.data| < |data|;
      MemberHas(c.entries, e);
    }
    hide BackFirst, Has;
  }

  lemma MemberHas(es: seq<Entry>, e: Entry)
    requires e in es
    ensures Has(es, e.uri)
  {
    var a :| 0 <= a < |es| && es[a] == e;
  }

  lemma EmptiedPut(c: Cache, s: Cache, u: string, data: seq<Byte>)
    requires |s.entries| == 1 && Survives(c, s) && !Has(c.entries, u) && c.free <= s.free < |data|
    ensures var free := s.free + |s.entries[0].data|;
            WellKept(c, Cache(free - |data|, [Entry(u, data, DEFAULT_PATIENCE)]), u, free, |data|)
  {
    var z := s.entries[0];
    assert z in s.entries && Descends(c.entries, z);
    var e :| e in c.entries && Same(e, z);
    MemberHas(c.entries, e);
    var d := Cache(s.free + |z.data| - |data|, [Entry(u, data, DEFAULT_PATIENCE)]);
    assert forall k :: Has(d.entries, k) ==> k == u;
    hide Survives, Before;
    assert LastToGo(c, d, s.free + |z.data|, |data|);
    assert BackFirst(c, d, u, false);
  }
}
