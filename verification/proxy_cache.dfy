/** The proxy's object cache (labs/09-proxy/cache.c): a list from most to least recently placed, byte
    accounting, and a second chance for entries whose patience has run out. */
module ProxyCache {
  type Byte = b: int | 0 <= b < 256

  const DEFAULT_PATIENCE: int := 3

  datatype Entry = Entry(uri: string, data: seq<Byte>, patience: int)

  /** freesz and the list from head.next to head.prev. */
  datatype Cache = Cache(free: int, entries: seq<Entry>)

  // uri_gen
  function UriGen(host: string, loc: string): string {
    host + "/" + loc
  }

  function BeforeSlash(u: string): string {
    if u == "" || u[0] == '/' then "" else [u[0]] + BeforeSlash(u[1..])
  }

  lemma {:induction false} HostOf(host: string, loc: string)
    requires '/' !in host
    ensures BeforeSlash(UriGen(host, loc)) == host
  {
    if host != "" {
      HostOf(host[1..], loc);
      assert UriGen(host, loc)[1..] == UriGen(host[1..], loc);
      assert host == [host[0]] + host[1..];
    }
  }

  /** Different objects get different keys, hosts having no slash in them. */
  lemma UriInjective(h1: string, l1: string, h2: string, l2: string)
    requires '/' !in h1 && '/' !in h2
    ensures UriGen(h1, l1) == UriGen(h2, l2) <==> h1 == h2 && l1 == l2
  {
    HostOf(h1, l1);
    HostOf(h2, l2);
    assert UriGen(h1, l1)[|h1| + 1..] == l1 && UriGen(h2, l2)[|h2| + 1..] == l2;
  }

  // ---------------------------------------------------------------- sizes

  function Size(es: seq<Entry>): (n: nat) {
    if es == [] then 0 else |es[0].data| + Size(es[1..])
  }

  lemma {:induction false} SizeAppend(a: seq<Entry>, b: seq<Entry>)
    ensures Size(a + b) == Size(a) + Size(b)
  {
    if a == [] {
      assert a + b == b;
    } else {
      SizeAppend(a[1..], b);
      assert (a + b)[1..] == a[1..] + b;
    }
  }

  function Without(es: seq<Entry>, i: nat): (r: seq<Entry>)
    requires i < |es|
    ensures |r| == |es| - 1
  {
    es[..i] + es[i + 1..]
  }

  lemma SizeWithout(es: seq<Entry>, i: nat)
    requires i < |es|
    ensures Size(Without(es, i)) == Size(es) - |es[i].data|
  {
    SizeAppend(es[..i], es[i + 1..]);
    SizeAppend(es[..i], es[i..]);
    assert es == es[..i] + es[i..] && es[i..][1..] == es[i + 1..];
  }

  lemma SizeFront(x: Entry, es: seq<Entry>)
    ensures Size([x] + es) == |x.data| + Size(es)
  {
    assert ([x] + es)[1..] == es;
  }

  ghost predicate Unique(es: seq<Entry>) {
    forall i, j :: 0 <= i < j < |es| ==> es[i].uri != es[j].uri
  }

  /** Nothing is lost or counted twice, and no two entries have the same key. */
  ghost predicate Balanced(c: Cache, capacity: nat) {
    c.free >= 0 && c.free + Size(c.entries) == capacity && Unique(c.entries)
  }

  predicate Has(es: seq<Entry>, u: string) {
    exists i :: 0 <= i < |es| && es[i].uri == u
  }

  // ---------------------------------------------------------------- promotion and eviction

  function Promoted(e: Entry): Entry {
    e.(patience := e.patience + DEFAULT_PATIENCE)
  }

  /** Entry i moved to the front as x. */
  function ToFront(c: Cache, i: nat, x: Entry): Cache
    requires i < |c.entries|
  {
    c.(entries := [x] + Without(c.entries, i))
  }

  // cache_evict
  function Evicted(c: Cache, i: nat): Cache
    requires i < |c.entries|
  {
    Cache(c.free + |c.entries[i].data|, Without(c.entries, i))
  }

  /** Promotions until an entry's patience is positive. */
  function Chances(p: int): (n: nat) {
    if p > 0 then 0 else (-p) / 3 + 1
  }

  function AllChances(es: seq<Entry>): (n: nat) {
    if es == [] then 0 else Chances(es[0].patience) + AllChances(es[1..])
  }

  lemma {:induction false} ChancesAppend(a: seq<Entry>, b: seq<Entry>)
    ensures AllChances(a + b) == AllChances(a) + AllChances(b)
  {
    if a == [] {
      assert a + b == b;
    } else {
      ChancesAppend(a[1..], b);
      assert (a + b)[1..] == a[1..] + b;
    }
  }

  lemma ChancesWithout(es: seq<Entry>, i: nat)
    requires i < |es|
    ensures AllChances(Without(es, i)) == AllChances(es) - Chances(es[i].patience)
  {
    ChancesAppend(es[..i], es[i + 1..]);
    ChancesAppend(es[..i], es[i..]);
    assert es == es[..i] + es[i..] && es[i..][1..] == es[i + 1..];
  }

  /** Promoting an exhausted entry uses up one chance; evicting never adds any. */
  lemma ChancesDrop(c: Cache, i: nat)
    requires i < |c.entries|
    ensures c.entries[i].patience <= 0 ==> AllChances(ToFront(c, i, Promoted(c.entries[i])).entries) == AllChances(c.entries) - 1
    ensures AllChances(Evicted(c, i).entries) <= AllChances(c.entries)
  {
    ChancesWithout(c.entries, i);
    var x := Promoted(c.entries[i]);
    assert ([x] + Without(c.entries, i))[1..] == Without(c.entries, i);
  }

  /** Passing entry i, counting from the back: a second chance, an eviction if one is wanted, or nothing. Gives
      the index of the next entry; -1 is the list head. */
  function Visit(c: Cache, i: nat, evict: bool): (r: (Cache, int))
    requires i < |c.entries|
    ensures -1 <= r.1 < |r.0.entries|
  {
    var x := c.entries[i];
    if x.patience <= 0 then (ToFront(c, i, Promoted(x)), if i == 0 then -1 else i)
    else if evict then (Evicted(c, i), i - 1)
    else (c, i - 1)
  }

  lemma VisitDrops(c: Cache, i: nat, evict: bool)
    requires i < |c.entries|
    ensures var (d, k) := Visit(c, i, evict);
            AllChances(d.entries) < AllChances(c.entries) || (AllChances(d.entries) <= AllChances(c.entries) && k < i)
  {
    ChancesDrop(c, i);
  }

  /** The first loop of cache_bookkeeping with node at index i. */
  function Scan(c: Cache, i: int, u: string, size: nat): (Cache, bool)
    requires -1 <= i < |c.entries|
    decreases AllChances(c.entries), i + 1
  {
    if i < 0 then (c, false)
    else if c.entries[i].uri == u then (ToFront(c, i, c.entries[i].(patience := DEFAULT_PATIENCE)), true)
    else
      VisitDrops(c, i, c.free < size);
      var v := Visit(c, i, c.free < size);
      Scan(v.0, v.1, u, size)
  }

  /** One pass of the second loop of cache_bookkeeping. */
  function Sweep(c: Cache, i: int): Cache
    requires -1 <= i < |c.entries|
    decreases AllChances(c.entries), i + 1
  {
    if i < 0 then c
    else
      VisitDrops(c, i, true);
      var v := Visit(c, i, true);
      Sweep(v.0, v.1)
  }

  // ---------------------------------------------------------------- what a pass keeps

  /** Patience after any number of promotions: unchanged, or raised by threes from zero or below to at most three. */
  predicate Aged(p: int, q: int) {
    q == p || (p <= 0 && p < q <= DEFAULT_PATIENCE && (q - p) % 3 == 0)
  }

  predicate Same(e: Entry, f: Entry) {
    e.uri == f.uri && e.data == f.data && Aged(e.patience, f.patience)
  }

  ghost predicate Descends(es: seq<Entry>, f: Entry) {
    exists e :: e in es && Same(e, f)
  }

  /** c' holds some of c's entries, the rest turned into free bytes. */
  ghost predicate Survives(c: Cache, c': Cache) {
    && c'.free >= c.free && c'.free + Size(c'.entries) == c.free + Size(c.entries)
    && (Unique(c.entries) ==> Unique(c'.entries))
    && forall f :: f in c'.entries ==> Descends(c.entries, f)
  }

  lemma SurvivesTrans(c: Cache, d: Cache, e: Cache)
    requires Survives(c, d) && Survives(d, e)
    ensures Survives(c, e)
  {
    hide Size, Unique;
    forall f | f in e.entries ensures Descends(c.entries, f) {
      assert Descends(d.entries, f);
      var g :| g in d.entries && Same(g, f);
      assert Descends(c.entries, g);
      var h :| h in c.entries && Same(h, g);
      assert Same(h, f);
    }
  }

  lemma SurvivesSelf(c: Cache)
    ensures Survives(c, c)
  {
    hide Size, Unique;
    forall f | f in c.entries ensures Descends(c.entries, f) {
      assert Same(f, f);
    }
  }

  lemma UniqueMoved(es: seq<Entry>, i: nat, x: Entry)
    requires i < |es| && Unique(es) && x.uri == es[i].uri
    ensures Unique([x] + Without(es, i)) && Unique(Without(es, i))
  {
    var w := Without(es, i);
    forall j, k | 0 <= j < k < |w| ensures w[j].uri != w[k].uri {
      assert w[j] == es[if j < i then j else j + 1] && w[k] == es[if k < i then k else k + 1];
    }
    forall k | 0 <= k < |w| ensures w[k].uri != x.uri {
      assert w[k] == es[if k < i then k else k + 1];
    }
  }

  lemma StepSurvives(c: Cache, i: nat)
    requires i < |c.entries|
    ensures Survives(c, Evicted(c, i))
    ensures c.entries[i].patience <= 0 ==> Survives(c, ToFront(c, i, Promoted(c.entries[i])))
  {
    var es := c.entries;
    var x := Promoted(es[i]);
    SizeWithout(es, i);
    SizeFront(x, Without(es, i));
    if Unique(es) {
      UniqueMoved(es, i, x);
    }
    forall f | f in Without(es, i) ensures Descends(es, f) {
      assert f in es && Same(f, f);
    }
    if es[i].patience <= 0 {
      assert Same(es[i], x) && Descends(es, x);
    }
  }

  lemma VisitSurvives(c: Cache, i: nat, evict: bool)
    requires i < |c.entries|
    ensures Survives(c, Visit(c, i, evict).0)
  {
    StepSurvives(c, i);
    SurvivesSelf(c);
    hide Survives;
  }

  lemma {:induction false} SweepSurvives(c: Cache, i: int)
    requires -1 <= i < |c.entries|
    ensures Survives(c, Sweep(c, i))
    decreases AllChances(c.entries), i + 1
  {
    SurvivesSelf(c);
    hide Survives, AllChances, Visit;
    if i >= 0 {
      VisitDrops(c, i, true);
      VisitSurvives(c, i, true);
      var v := Visit(c, i, true);
      SweepSurvives(v.0, v.1);
      SurvivesTrans(c, v.0, Sweep(v.0, v.1));
    }
  }

  /** A pass over a non-empty list evicts something or uses up a chance. */
  lemma {:induction false} SweepProgress(c: Cache, i: int)
    requires -1 <= i < |c.entries|
    ensures var d := Sweep(c, i);
            |d.entries| + AllChances(d.entries) <= |c.entries| + AllChances(c.entries) - (if i >= 0 then 1 else 0)
    decreases AllChances(c.entries), i + 1
  {
    if i >= 0 {
      VisitDrops(c, i, true);
      ChancesDrop(c, i);
      hide AllChances;
      var v := Visit(c, i, true);
      SweepProgress(v.0, v.1);
    }
  }

  /** The entry with key u when the scan finds it: its data as before, patience reset, in front. */
  ghost predicate Reset(c: Cache, c': Cache, u: string) {
    && c'.entries != [] && c'.entries[0].uri == u && c'.entries[0].patience == DEFAULT_PATIENCE
    && exists e :: e in c.entries && e.uri == u && e.data == c'.entries[0].data
  }

  /** Everything else descends as in Survives. */
  ghost predicate SurvivesBut(c: Cache, c': Cache, u: string) {
    && c'.free >= c.free && c'.free + Size(c'.entries) == c.free + Size(c.entries)
    && (Unique(c.entries) ==> Unique(c'.entries))
    && forall f :: f in c'.entries && f.uri != u ==> Descends(c.entries, f)
  }

  lemma ResetSurvives(c: Cache, i: nat)
    requires i < |c.entries|
    ensures var x := c.entries[i].(patience := DEFAULT_PATIENCE);
            var d := ToFront(c, i, x);
            Reset(c, d, x.uri) && SurvivesBut(c, d, x.uri)
  {
    var es := c.entries;
    var x := es[i].(patience := DEFAULT_PATIENCE);
    SizeWithout(es, i);
    SizeFront(x, Without(es, i));
    if Unique(es) {
      UniqueMoved(es, i, x);
    }
    forall f | f in Without(es, i) ensures Descends(es, f) {
      assert f in es && Same(f, f);
    }
    assert es[i] in es;
  }

  lemma ThenReset(c: Cache, d: Cache, e: Cache, u: string)
    requires Survives(c, d) && Reset(d, e, u) && SurvivesBut(d, e, u)
    ensures Reset(c, e, u) && SurvivesBut(c, e, u)
  {
    hide Size, Unique;
    var x :| x in d.entries && x.uri == u && x.data == e.entries[0].data;
    assert Descends(c.entries, x);
    var y :| y in c.entries && Same(y, x);
    forall f | f in e.entries && f.uri != u ensures Descends(c.entries, f) {
      assert Descends(d.entries, f);
      var g :| g in d.entries && Same(g, f);
      assert Descends(c.entries, g);
      var h :| h in c.entries && Same(h, g);
      assert Same(h, f);
    }
  }

  /** What the first loop does: with no entry for u, entries survive; otherwise the entry for u is reset. */
  lemma {:induction false} ScanSurvives(c: Cache, i: int, u: string, size: nat)
    requires -1 <= i < |c.entries|
    ensures var (d, found) := Scan(c, i, u, size);
            if found then Reset(c, d, u) && SurvivesBut(c, d, u) else Survives(c, d)
    decreases AllChances(c.entries), i + 1
  {
    SurvivesSelf(c);
    hide Survives, AllChances, Reset, SurvivesBut, Visit;
    if i >= 0 {
      if c.entries[i].uri == u {
        ResetSurvives(c, i);
      } else {
        VisitDrops(c, i, c.free < size);
        VisitSurvives(c, i, c.free < size);
        var v := Visit(c, i, c.free < size);
        ScanSurvives(v.0, v.1, u, size);
        var (e, found) := Scan(v.0, v.1, u, size);
        if found {
          ThenReset(c, v.0, e, u);
        } else {
          SurvivesTrans(c, v.0, e);
        }
      }
    }
  }

  /** The first loop finds u exactly when the part of the list it has yet to visit holds it. */
  lemma {:induction false} ScanFinds(c: Cache, i: int, u: string, size: nat)
    requires -1 <= i < |c.entries|
    ensures Scan(c, i, u, size).1 <==> Has(c.entries[..i + 1], u)
    decreases AllChances(c.entries), i + 1
  {
    if i >= 0 {
      VisitDrops(c, i, c.free < size);
      ScanUnfolds(c, i, u, size);
      hide AllChances, Visit, Has, Scan;
      if c.entries[i].uri != u {
        var (d, k) := Visit(c, i, c.free < size);
        ScanFinds(d, k, u, size);
        VisitHas(c, i, c.free < size, u);
      } else {
        HasLast(c.entries, i, u);
      }
    }
  }

  lemma ScanUnfolds(c: Cache, i: nat, u: string, size: nat)
    requires i < |c.entries|
    ensures var (d, k) := Visit(c, i, c.free < size);
            Scan(c, i, u, size).1 <==> c.entries[i].uri == u || Scan(d, k, u, size).1
  {
    hide Visit, AllChances;
  }

  lemma HasLast(es: seq<Entry>, i: nat, u: string)
    requires i < |es|
    ensures Has(es[..i + 1], u) <==> Has(es[..i], u) || es[i].uri == u
  {
    assert es[..i + 1] == es[..i] + [es[i]];
    HasAppend(es[..i], es[i], u);
    hide Has;
  }

  lemma VisitHas(c: Cache, i: nat, evict: bool, u: string)
    requires i < |c.entries| && c.entries[i].uri != u
    ensures var (d, k) := Visit(c, i, evict); Has(d.entries[..k + 1], u) <==> Has(c.entries[..i + 1], u)
  {
    HasLast(c.entries, i, u);
    VisitRest(c, i, evict);
    HasFront(c.entries[..i], Promoted(c.entries[i]), u);
    hide Visit, Has;
  }

  /** What is left to visit after an entry: what stood before it, with the entry itself in front if it was promoted. */
  lemma VisitRest(c: Cache, i: nat, evict: bool)
    requires i < |c.entries|
    ensures var (d, k) := Visit(c, i, evict);
            d.entries[..k + 1] == (if c.entries[i].patience <= 0 && i > 0 then [Promoted(c.entries[i])] else []) + c.entries[..i]
  {
  }

  lemma HasAppend(es: seq<Entry>, x: Entry, u: string)
    ensures Has(es + [x], u) <==> Has(es, u) || x.uri == u
  {
    if Has(es, u) {
      var i :| 0 <= i < |es| && es[i].uri == u;
      assert (es + [x])[i].uri == u;
    }
    if x.uri == u {
      assert (es + [x])[|es|].uri == u;
    }
  }

  lemma HasFront(es: seq<Entry>, x: Entry, u: string)
    ensures Has([x] + es, u) <==> Has(es, u) || x.uri == u
  {
    if Has(es, u) {
      var i :| 0 <= i < |es| && es[i].uri == u;
      assert ([x] + es)[i + 1].uri == u;
    }
    if x.uri == u {
      assert ([x] + es)[0].uri == u;
    }
    if Has([x] + es, u) && x.uri != u {
      var i :| 0 <= i < |[x] + es| && ([x] + es)[i].uri == u;
      assert es[i - 1].uri == u;
    }
  }

  /** After an unsuccessful scan only the entry in front can still be out of patience. */
  lemma {:induction false} ScanLeavesPatient(c: Cache, i: int, u: string, size: nat)
    requires -1 <= i < |c.entries| && !Scan(c, i, u, size).1
    requires forall k :: i < k < |c.entries| && k > 0 ==> c.entries[k].patience > 0
    ensures var d := Scan(c, i, u, size).0;
            forall k :: 0 < k < |d.entries| ==> d.entries[k].patience > 0
    decreases AllChances(c.entries), i + 1
  {
    if i >= 0 {
      VisitDrops(c, i, c.free < size);
      VisitLeavesPatient(c, i, c.free < size);
      hide AllChances, Visit;
      var (d, k) := Visit(c, i, c.free < size);
      ScanLeavesPatient(d, k, u, size);
    }
  }

  lemma VisitLeavesPatient(c: Cache, i: nat, evict: bool)
    requires i < |c.entries| && forall k :: i < k < |c.entries| && k > 0 ==> c.entries[k].patience > 0
    ensures var (d, j) := Visit(c, i, evict);
            forall k :: j < k < |d.entries| && k > 0 ==> d.entries[k].patience > 0
  {
    var (d, j) := Visit(c, i, evict);
    assert c.entries[i].patience <= 0 ==> forall k :: i < k < |d.entries| ==> d.entries[k] == c.entries[k];
    assert d == Evicted(c, i) ==> forall k :: i <= k < |d.entries| ==> d.entries[k] == c.entries[k + 1];
  }

  // ---------------------------------------------------------------- making room

  /** n passes of the second loop. */
  function Rounds(c: Cache, n: nat): Cache
    decreases n
  {
    if n == 0 then c else Rounds(Sweep(c, |c.entries| - 1), n - 1)
  }

  /** The second loop: passes until there is room. */
  function Room(c: Cache, size: nat): (d: Cache)
    requires size <= c.free + Size(c.entries)
    ensures d.free >= size && Survives(c, d)
    decreases |c.entries| + AllChances(c.entries)
  {
    hide Survives, AllChances, Visit;
    SurvivesSelf(c);
    if c.free >= size then c
    else
      SweepProgress(c, |c.entries| - 1);
      SweepSurvives(c, |c.entries| - 1);
      var d := Sweep(c, |c.entries| - 1);
      SurvivesSizes(c, d);
      SurvivesTrans(c, d, Room(d, size));
      Room(d, size)
  }

  lemma SurvivesSizes(c: Cache, d: Cache)
    requires Survives(c, d)
    ensures d.free >= c.free && d.free + Size(d.entries) == c.free + Size(c.entries)
  {
  }

  lemma {:induction false} RoundsToRoom(c: Cache, size: nat) returns (n: nat)
    requires size <= c.free + Size(c.entries)
    ensures Rounds(c, n).free >= size
    decreases |c.entries| + AllChances(c.entries)
  {
    hide Survives, AllChances, Visit;
    if c.free >= size {
      n := 0;
    } else {
      SweepProgress(c, |c.entries| - 1);
      SweepSurvives(c, |c.entries| - 1);
      var d := Sweep(c, |c.entries| - 1);
      SurvivesSizes(c, d);
      n := RoundsToRoom(d, size);
      n := n + 1;
    }
  }

  lemma {:induction false} RoundsFree(c: Cache, n: nat)
    ensures Rounds(c, n).free <= c.free + Size(c.entries)
    decreases n
  {
    hide Survives, Visit;
    if n > 0 {
      SweepSurvives(c, |c.entries| - 1);
      var d := Sweep(c, |c.entries| - 1);
      SurvivesSizes(c, d);
      RoundsFree(d, n - 1);
    }
  }

  /** The second loop ends exactly when the object is no larger than the whole cache. */
  lemma LoopEndsExactly(c: Cache, size: nat)
    ensures (exists n: nat :: Rounds(c, n).free >= size) <==> size <= c.free + Size(c.entries)
  {
    if size <= c.free + Size(c.entries) {
      var n := RoundsToRoom(c, size);
    }
    forall n: nat | Rounds(c, n).free >= size ensures size <= c.free + Size(c.entries) {
      RoundsFree(c, n);
    }
  }

  // ---------------------------------------------------------------- the operations

  // cache_put
  function Put(c: Cache, u: string, data: seq<Byte>): Cache
    requires |data| <= c.free + Size(c.entries)
  {
    var scan := Scan(c, |c.entries| - 1, u, |data|);
    ScanSurvives(c, |c.entries| - 1, u, |data|);
    if scan.1 then scan.0
    else
      SurvivesSizes(c, scan.0);
      var d := Room(scan.0, |data|);
      Cache(d.free - |data|, [Entry(u, data, DEFAULT_PATIENCE)] + d.entries)
  }

  /** A put keeps the accounting and the uniqueness of keys. For a new key it puts the object in front; for a live
      key it keeps the old object in front and only resets its patience. Every other entry left is one that was
      there, with its data, its patience raised only if it had run out. */
  lemma PutEffect(c: Cache, capacity: nat, u: string, data: seq<Byte>)
    requires Balanced(c, capacity) && |data| <= capacity
    ensures var d := Put(c, u, data);
            && Balanced(d, capacity) && d.entries != []
            && d.entries[0].uri == u && d.entries[0].patience == DEFAULT_PATIENCE
            && (!Has(c.entries, u) ==> d.entries[0].data == data)
            && (Has(c.entries, u) ==> exists e :: e in c.entries && e.uri == u && e.data == d.entries[0].data)
            && forall f :: f in d.entries && f.uri != u ==> Descends(c.entries, f)
  {
    var n := |c.entries|;
    ScanSurvives(c, n - 1, u, |data|);
    ScanFinds(c, n - 1, u, |data|);
    assert c.entries[..n] == c.entries;
    var (d, found) := Scan(c, n - 1, u, |data|);
    if !found {
      SurvivesSizes(c, d);
      var e := Room(d, |data|);
      SurvivesTrans(c, d, e);
      InsertNew(c, e, u, data);
    }
  }

  lemma InsertNew(c: Cache, e: Cache, u: string, data: seq<Byte>)
    requires Survives(c, e) && Unique(c.entries) && !Has(c.entries, u)
    ensures var es := [Entry(u, data, DEFAULT_PATIENCE)] + e.entries;
            Unique(es) && Size(es) == |data| + Size(e.entries) && forall f :: f in es && f.uri != u ==> Descends(c.entries, f)
  {
    SizeFront(Entry(u, data, DEFAULT_PATIENCE), e.entries);
    forall k | 0 <= k < |e.entries| ensures e.entries[k].uri != u {
      assert e.entries[k] in e.entries;
      assert Descends(c.entries, e.entries[k]);
      var x :| x in c.entries && Same(x, e.entries[k]);
    }
  }

  // ---------------------------------------------------------------- promotions

  /** The promotions of a pass, by key, in order. */
  function VisitLog(c: Cache, i: nat): seq<string>
    requires i < |c.entries|
  {
    if c.entries[i].patience <= 0 then [c.entries[i].uri] else []
  }

  function ScanLog(c: Cache, i: int, u: string, size: nat): seq<string>
    requires -1 <= i < |c.entries|
    decreases AllChances(c.entries), i + 1
  {
    if i < 0 || c.entries[i].uri == u then []
    else
      VisitDrops(c, i, c.free < size);
      var v := Visit(c, i, c.free < size);
      VisitLog(c, i) + ScanLog(v.0, v.1, u, size)
  }

  function SweepLog(c: Cache, i: int): seq<string>
    requires -1 <= i < |c.entries|
    decreases AllChances(c.entries), i + 1
  {
    if i < 0 then []
    else
      VisitDrops(c, i, true);
      var v := Visit(c, i, true);
      VisitLog(c, i) + SweepLog(v.0, v.1)
  }

  function RoomLog(c: Cache, size: nat): seq<string>
    requires size <= c.free + Size(c.entries)
    decreases |c.entries| + AllChances(c.entries)
  {
    if c.free >= size then []
    else
      SweepProgress(c, |c.entries| - 1);
      SweepSurvives(c, |c.entries| - 1);
      var d := Sweep(c, |c.entries| - 1);
      SurvivesSizes(c, d);
      SweepLog(c, |c.entries| - 1) + RoomLog(d, size)
  }

  /** The promotions a put makes. */
  function PutLog(c: Cache, u: string, data: seq<Byte>): seq<string>
    requires |data| <= c.free + Size(c.entries)
  {
    var n := |c.entries| - 1;
    var scan := Scan(c, n, u, |data|);
    ScanSurvives(c, n, u, |data|);
    if scan.1 then ScanLog(c, n, u, |data|)
    else
      SurvivesSizes(c, scan.0);
      ScanLog(c, n, u, |data|) + RoomLog(scan.0, |data|)
  }

  function Occurs(log: seq<string>, v: string): (n: nat)
    ensures n > 0 <==> v in log
  {
    if log == [] then 0 else (if log[0] == v then 1 else 0) + Occurs(log[1..], v)
  }

  lemma {:induction false} OccursAppend(a: seq<string>, b: seq<string>, v: string)
    ensures Occurs(a + b, v) == Occurs(a, v) + Occurs(b, v)
  {
    if a == [] {
      assert a + b == b;
    } else {
      OccursAppend(a[1..], b, v);
      assert (a + b)[1..] == a[1..] + b;
    }
  }

  /** f's patience is that of the entry it was, plus three for each promotion. */
  ghost predicate TalliedTo(es: seq<Entry>, f: Entry, log: seq<string>) {
    exists e :: e in es && e.uri == f.uri && f.patience == e.patience + DEFAULT_PATIENCE * Occurs(log, f.uri)
  }

  /** The entries of c' other than the one for u. */
  ghost predicate Tallied(c: Cache, c': Cache, log: seq<string>, u: string) {
    forall f :: f in c'.entries && f.uri != u ==> TalliedTo(c.entries, f, log)
  }

  lemma TalliedSelf(c: Cache, u: string)
    ensures Tallied(c, c, [], u)
  {
    forall f | f in c.entries ensures TalliedTo(c.entries, f, []) {
      assert f.patience == f.patience + DEFAULT_PATIENCE * Occurs([], f.uri);
    }
  }

  lemma TalliedTrans(c: Cache, d: Cache, e: Cache, l1: seq<string>, l2: seq<string>, u: string)
    requires Tallied(c, d, l1, u) && Tallied(d, e, l2, u)
    ensures Tallied(c, e, l1 + l2, u)
  {
    forall f | f in e.entries && f.uri != u ensures TalliedTo(c.entries, f, l1 + l2) {
      assert TalliedTo(d.entries, f, l2);
      var g :| g in d.entries && g.uri == f.uri && f.patience == g.patience + DEFAULT_PATIENCE * Occurs(l2, f.uri);
      assert TalliedTo(c.entries, g, l1);
      OccursAppend(l1, l2, f.uri);
    }
  }

  lemma VisitTallied(c: Cache, i: nat, evict: bool, u: string)
    requires i < |c.entries| && Unique(c.entries)
    ensures Tallied(c, Visit(c, i, evict).0, VisitLog(c, i), u)
  {
    var d, log := Visit(c, i, evict).0, VisitLog(c, i);
    var x := c.entries[i];
    forall f | f in d.entries && f.uri != u ensures TalliedTo(c.entries, f, log) {
      var k :| 0 <= k < |d.entries| && d.entries[k] == f;
      if x.patience <= 0 && k == 0 {
        assert x in c.entries && Occurs(log, x.uri) == 1 + Occurs(log[1..], x.uri) && log[1..] == [];
      } else {
        var j := if x.patience <= 0 then (if k - 1 < i then k - 1 else k) else if evict then (if k < i then k else k + 1) else k;
        assert c.entries[j] == f;
        assert x.patience <= 0 ==> j != i && f.uri != x.uri;
        assert Occurs(log, f.uri) == 0;
      }
    }
  }

  lemma {:induction false} ScanTallied(c: Cache, i: int, u: string, size: nat)
    requires -1 <= i < |c.entries| && Unique(c.entries)
    ensures Tallied(c, Scan(c, i, u, size).0, ScanLog(c, i, u, size), u)
    decreases AllChances(c.entries), i + 1
  {
    hide AllChances, Visit, Tallied;
    if i < 0 {
      TalliedSelf(c, u);
    } else if c.entries[i].uri == u {
      FrontTallied(c, i);
    } else {
      VisitDrops(c, i, c.free < size);
      VisitTallied(c, i, c.free < size, u);
      VisitSurvives(c, i, c.free < size);
      var v := Visit(c, i, c.free < size);
      StaysUnique(c, v.0);
      ScanTallied(v.0, v.1, u, size);
      TalliedTrans(c, v.0, Scan(v.0, v.1, u, size).0, VisitLog(c, i), ScanLog(v.0, v.1, u, size), u);
    }
  }

  lemma FrontTallied(c: Cache, i: nat)
    requires i < |c.entries|
    ensures var x := c.entries[i]; Tallied(c, ToFront(c, i, x.(patience := DEFAULT_PATIENCE)), [], x.uri)
  {
    TalliedSelf(c, c.entries[i].uri);
    forall f | f in Without(c.entries, i) ensures f in c.entries {
    }
  }

  lemma StaysUnique(c: Cache, d: Cache)
    requires Survives(c, d) && Unique(c.entries)
    ensures Unique(d.entries)
  {
  }

  lemma {:induction false} SweepTallied(c: Cache, i: int, u: string)
    requires -1 <= i < |c.entries| && Unique(c.entries)
    ensures Tallied(c, Sweep(c, i), SweepLog(c, i), u)
    decreases AllChances(c.entries), i + 1
  {
    hide AllChances, Visit, Tallied;
    if i < 0 {
      TalliedSelf(c, u);
    } else {
      VisitDrops(c, i, true);
      VisitTallied(c, i, true, u);
      VisitSurvives(c, i, true);
      var v := Visit(c, i, true);
      StaysUnique(c, v.0);
      SweepTallied(v.0, v.1, u);
      TalliedTrans(c, v.0, Sweep(v.0, v.1), VisitLog(c, i), SweepLog(v.0, v.1), u);
    }
  }

  lemma {:induction false} RoomTallied(c: Cache, size: nat, u: string)
    requires size <= c.free + Size(c.entries) && Unique(c.entries)
    ensures Tallied(c, Room(c, size), RoomLog(c, size), u)
    decreases |c.entries| + AllChances(c.entries)
  {
    hide AllChances, Visit, Tallied, Survives;
    if c.free >= size {
      TalliedSelf(c, u);
    } else {
      var i := |c.entries| - 1;
      SweepProgress(c, i);
      SweepSurvives(c, i);
      SweepTallied(c, i, u);
      var d := Sweep(c, i);
      SurvivesSizes(c, d);
      StaysUnique(c, d);
      RoomTallied(d, size, u);
      TalliedTrans(c, d, Room(d, size), SweepLog(c, i), RoomLog(d, size), u);
    }
  }

  lemma TalliedFront(c: Cache, d: Cache, x: Entry, free: nat, log: seq<string>)
    requires Tallied(c, d, log, x.uri)
    ensures Tallied(c, Cache(free, [x] + d.entries), log, x.uri)
  {
    hide TalliedTo;
  }

  /** After a put every other entry has its old patience plus three for each of its promotions. */
  lemma PutTallied(c: Cache, u: string, data: seq<Byte>)
    requires |data| <= c.free + Size(c.entries) && Unique(c.entries)
    ensures Tallied(c, Put(c, u, data), PutLog(c, u, data), u)
  {
    var n := |c.entries| - 1;
    hide Tallied;
    ScanTallied(c, n, u, |data|);
    ScanSurvives(c, n, u, |data|);
    var scan := Scan(c, n, u, |data|);
    if !scan.1 {
      SurvivesSizes(c, scan.0);
      StaysUnique(c, scan.0);
      RoomTallied(scan.0, |data|, u);
      TalliedTrans(c, scan.0, Room(scan.0, |data|), ScanLog(c, n, u, |data|), RoomLog(scan.0, |data|), u);
      TalliedFront(c, Room(scan.0, |data|), Entry(u, data, DEFAULT_PATIENCE), Put(c, u, data).free, PutLog(c, u, data));
    }
    hide Scan, ScanLog, Room, RoomLog, TalliedTo;
  }

  /** Where the first entry with key u is; the length of the list when there is none. */
  function Index(es: seq<Entry>, u: string): (i: nat)
    ensures i <= |es| && (i < |es| ==> es[i].uri == u) && forall j :: 0 <= j < i ==> es[j].uri != u
  {
    if es == [] || es[0].uri == u then 0 else 1 + Index(es[1..], u)
  }

  // the decrement in cache_get
  function Served(c: Cache, u: string): (d: Cache)
    ensures |d.entries| == |c.entries|
  {
    var i := Index(c.entries, u);
    if i < |c.entries| then c.(entries := c.entries[i := c.entries[i].(patience := c.entries[i].patience - 1)]) else c
  }

  lemma SizeUpdate(es: seq<Entry>, i: nat, x: Entry)
    requires i < |es| && x.data == es[i].data
    ensures Size(es[i := x]) == Size(es)
  {
    SizeAppend(es[..i], [x] + es[i + 1..]);
    SizeAppend(es[..i], [es[i]] + es[i + 1..]);
    SizeFront(x, es[i + 1..]);
    SizeFront(es[i], es[i + 1..]);
    hide Size;
    UpdateParts(es, i, x);
    UpdateParts(es, i, es[i]);
    assert es[i := es[i]] == es;
  }

  lemma UpdateParts(es: seq<Entry>, i: nat, x: Entry)
    requires i < |es|
    ensures es[i := x] == es[..i] + ([x] + es[i + 1..])
  {
    var a, b := es[i := x], es[..i] + ([x] + es[i + 1..]);
    forall k | 0 <= k < |es| ensures a[k] == b[k] {
      if k > i {
        assert b[k] == es[i + 1..][k - i - 1];
      }
    }
  }

  lemma ServedBalanced(c: Cache, capacity: nat, u: string)
    requires Balanced(c, capacity)
    ensures Balanced(Served(c, u), capacity)
  {
    var i := Index(c.entries, u);
    if i < |c.entries| {
      SizeUpdate(c.entries, i, c.entries[i].(patience := c.entries[i].patience - 1));
    }
  }

  class ProxyStore {
    var free: nat
    var entries: seq<Entry>
    ghost const capacity: nat

    ghost predicate Valid()
      reads this
    {
      Balanced(View(), capacity)
    }

    ghost function View(): Cache
      reads this
    {
      Cache(free, entries)
    }

    // cache_init
    constructor (maxsize: nat)
      ensures Valid() && capacity == maxsize && View() == Cache(maxsize, [])
    {
      free, entries, capacity := maxsize, [], maxsize;
    }

    // cache_get
    method CacheGet(host: string, loc: string) returns (hit: bool, data: seq<Byte>)
      requires Valid()
      modifies this`entries
      ensures Valid() && View() == Served(old(View()), UriGen(host, loc))
      ensures hit <==> Has(old(entries), UriGen(host, loc))
      ensures hit ==> exists e :: e in old(entries) && e.uri == UriGen(host, loc) && e.data == data
    {
      var uri := UriGen(host, loc);
      var node := 0;
      while node < |entries| && entries[node].uri != uri
        invariant 0 <= node <= |entries| && forall j :: 0 <= j < node ==> entries[j].uri != uri
      {
        node := node + 1;
      }
      hit, data := node < |entries|, [];
      ServedBalanced(View(), capacity, uri);
      if hit {
        data := entries[node].data;
        entries := entries[node := entries[node].(patience := entries[node].patience - 1)];
      }
    }

    // cache_promote, the part that moves the node
    method Promote(node: nat, patience: int)
      requires node < |entries|
      modifies this`entries
      ensures View() == ToFront(old(View()), node, old(entries)[node].(patience := patience))
    {
      entries := [entries[node].(patience := patience)] + Without(entries, node);
    }

    // one turn of either loop of cache_bookkeeping
    method Pass(node: nat, evict: bool) returns (next: int)
      requires node < |entries|
      modifies this`free, this`entries
      ensures (View(), next) == Visit(old(View()), node, evict)
    {
      var x := entries[node];
      next := node - 1;
      if x.patience <= 0 {
        Promote(node, x.patience + DEFAULT_PATIENCE);
        if node > 0 {
          next := node;
        }
      } else if evict {
        free := free + |x.data|;
        entries := Without(entries, node);
      }
    }

    // cache_bookkeeping
    method Bookkeeping(uri: string, size: nat) returns (found: bool)
      requires size <= free + Size(entries)
      modifies this`free, this`entries
      ensures var scan := Scan(old(View()), old(|entries|) - 1, uri, size);
              found == scan.1 && View() == if found then scan.0 else RoomAfter(scan.0, size)
    {
      hide AllChances, Visit, Survives;
      ghost var c := View();
      var node: int := |entries| - 1;
      SurvivesSelf(c);
      while node >= 0
        invariant -1 <= node < |entries|
        invariant Scan(View(), node, uri, size) == Scan(c, |c.entries| - 1, uri, size)
        invariant free + Size(entries) == c.free + Size(c.entries)
        decreases AllChances(entries), node
      {
        if entries[node].uri == uri {
          Promote(node, DEFAULT_PATIENCE);
          return true;
        }
        VisitDrops(View(), node, free < size);
        VisitSurvives(View(), node, free < size);
        SurvivesSizes(View(), Visit(View(), node, free < size).0);
        node := Pass(node, free < size);
      }
      ghost var d := View();
      while free < size
        invariant size <= free + Size(entries) && Room(View(), size) == Room(d, size)
        decreases |entries| + AllChances(entries)
      {
        SweepProgress(View(), |entries| - 1);
        SweepSurvives(View(), |entries| - 1);
        SurvivesSizes(View(), Sweep(View(), |entries| - 1));
        SweepList();
      }
      found := false;
    }

    // the inner loop of the second loop
    method SweepList()
      modifies this`free, this`entries
      ensures View() == Sweep(old(View()), old(|entries|) - 1)
    {
      hide AllChances, Visit;
      ghost var c := View();
      var node: int := |entries| - 1;
      while node >= 0
        invariant -1 <= node < |entries| && Sweep(View(), node) == Sweep(c, |c.entries| - 1)
        decreases AllChances(entries), node
      {
        VisitDrops(View(), node, true);
        node := Pass(node, true);
      }
    }

    // cache_put
    method CachePut(host: string, loc: string, buf: seq<Byte>)
      requires Valid() && |buf| <= capacity
      modifies this`free, this`entries
      ensures Valid() && View() == Put(old(View()), UriGen(host, loc), buf)
    {
      hide AllChances, Visit, Scan, Size;
      PutEffect(View(), capacity, UriGen(host, loc), buf);
      var node := Entry(UriGen(host, loc), buf, DEFAULT_PATIENCE);
      ScanSurvives(View(), |entries| - 1, node.uri, |buf|);
      var found := Bookkeeping(node.uri, |buf|);
      if found {
        return;
      }
      free := free - |buf|;
      entries := [node] + entries;
    }
  }

  /** Room, where there is that much to be had. */
  ghost function RoomAfter(c: Cache, size: nat): Cache {
    if size <= c.free + Size(c.entries) then Room(c, size) else c
  }
}
