/** Gets and puts of any number of threads under the cache's readers-writer lock (labs/09-proxy/cache.c). */
module ProxyCacheRuns {
  import opened ProxyCache

  /** A thread inside cache_get: it holds the read lock, and has or has not copied the object yet. */
  datatype Reader = Searching(uri: string) | Copied(uri: string)

  datatype Event = Event(uri: string, data: seq<Byte>)

  /** origin, base and hits are history: the bytes of the put that created the live entry of a key; the patience it
      was last given, which is 3 by a put of the same key and three more than it had by a promotion; and the hits
      since. */
  datatype State = State(cache: Cache, capacity: nat, readers: map<nat, Reader>, results: seq<Event>,
                         ghost origin: string -> seq<Byte>, ghost base: string -> int, ghost hits: string -> nat)

  datatype Action = LockRead(uri: string) | CopyHit | Miss | Decrement | PutLocked(uri: string, data: seq<Byte>)

  function PatienceOf(c: Cache, u: string): int {
    var i := Index(c.entries, u);
    if i < |c.entries| then c.entries[i].patience else 0
  }

  ghost predicate Init(s: State) {
    s.cache == Cache(s.capacity, []) && s.readers == map[] && s.results == []
  }

  ghost predicate SameHistory(s: State, s': State) {
    s'.origin == s.origin && s'.base == s.base && s'.hits == s.hits
  }

  /** A put gives patience to its own key, and to the keys it promotes. */
  ghost predicate PutHistory(s: State, s': State, u: string, data: seq<Byte>)
    requires |data| <= s.cache.free + Size(s.cache.entries)
  {
    forall v: string ::
      && s'.origin(v) == (if v == u && !Has(s.cache.entries, u) then data else s.origin(v))
      && var n := Occurs(PutLog(s.cache, u, data), v);
         && s'.base(v) == (if v == u then DEFAULT_PATIENCE
                           else if n > 0 then PatienceOf(s.cache, v) + DEFAULT_PATIENCE * n else s.base(v))
         && s'.hits(v) == (if v == u || n > 0 then 0 else s.hits(v))
  }

  ghost predicate Step(s: State, s': State, t: nat, a: Action) {
    && s'.capacity == s.capacity
    && match a
       case LockRead(u) =>
         t !in s.readers && s'.cache == s.cache && s'.readers == s.readers[t := Searching(u)] && s'.results == s.results
         && SameHistory(s, s')
       case CopyHit =>
         && t in s.readers && s.readers[t].Searching? && Has(s.cache.entries, s.readers[t].uri) && SameHistory(s, s')
         && s'.cache == s.cache && s'.readers == s.readers[t := Copied(s.readers[t].uri)]
         && Index(s.cache.entries, s.readers[t].uri) < |s.cache.entries|
         && s'.results == s.results + [Event(s.readers[t].uri, s.cache.entries[Index(s.cache.entries, s.readers[t].uri)].data)]
       case Miss =>
         && t in s.readers && s.readers[t].Searching? && !Has(s.cache.entries, s.readers[t].uri)
         && s'.cache == s.cache && s'.readers == s.readers - {t} && s'.results == s.results && SameHistory(s, s')
       case Decrement =>
         && t in s.readers && s.readers[t].Copied? && s'.cache == Served(s.cache, s.readers[t].uri)
         && s'.readers == s.readers - {t} && s'.results == s.results && s'.origin == s.origin && s'.base == s.base
         && forall v: string :: s'.hits(v) == s.hits(v) + (if v == s.readers[t].uri then 1 else 0)
       case PutLocked(u, data) =>
         && s.readers == map[] && s'.readers == map[] && |data| <= s.capacity && s'.results == s.results
         && |data| <= s.cache.free + Size(s.cache.entries) && s'.cache == Put(s.cache, u, data)
         && PutHistory(s, s', u, data)
  }

  ghost predicate Next(s: State, s': State) {
    exists t: nat, a: Action :: Step(s, s', t, a)
  }

  ghost predicate Run(r: seq<State>) {
    r != [] && Init(r[0]) && forall i :: 0 <= i < |r| - 1 ==> Next(r[i], r[i + 1])
  }

  /** Every live entry holds the bytes of the put that created it, and its patience is what it was last given
      minus the hits since. */
  ghost predicate Accounted(s: State) {
    forall e :: e in s.cache.entries ==>
      e.data == s.origin(e.uri) && e.patience == s.base(e.uri) - s.hits(e.uri) && s.base(e.uri) <= DEFAULT_PATIENCE
  }

  ghost predicate Inv(s: State) {
    && Balanced(s.cache, s.capacity) && Accounted(s)
    && forall t :: t in s.readers && s.readers[t].Copied? ==> Has(s.cache.entries, s.readers[t].uri)
  }

  lemma IndexOf(es: seq<Entry>, i: nat)
    requires Unique(es) && i < |es|
    ensures Index(es, es[i].uri) == i
  {
  }

  lemma HasIndex(es: seq<Entry>, u: string)
    ensures Has(es, u) <==> Index(es, u) < |es|
  {
  }

  /** What a put does to an entry of another key: it is promoted only while out of patience, to at most three. */
  lemma PutKept(s: State, s': State, u: string, data: seq<Byte>, f: Entry)
    requires Balanced(s.cache, s.capacity) && |data| <= s.capacity && s'.cache == Put(s.cache, u, data)
    requires f in s'.cache.entries && f.uri != u
    ensures var i := Index(s.cache.entries, f.uri);
            var n := Occurs(PutLog(s.cache, u, data), f.uri);
            && i < |s.cache.entries| && s.cache.entries[i].data == f.data
            && f.patience == s.cache.entries[i].patience + DEFAULT_PATIENCE * n
            && (n > 0 ==> s.cache.entries[i].patience <= 0 && f.patience <= DEFAULT_PATIENCE)
  {
    var es, log := s.cache.entries, PutLog(s.cache, u, data);
    PutEffect(s.cache, s.capacity, u, data);
    PutTallied(s.cache, u, data);
    assert Descends(es, f) && TalliedTo(es, f, log);
    hide Put, PutLog, Size;
    var e :| e in es && Same(e, f);
    var g :| g in es && g.uri == f.uri && f.patience == g.patience + DEFAULT_PATIENCE * Occurs(log, f.uri);
    var j :| 0 <= j < |es| && es[j] == e;
    var k :| 0 <= k < |es| && es[k] == g;
    IndexOf(es, j);
    IndexOf(es, k);
  }

  lemma PutAccounted(s: State, s': State, u: string, data: seq<Byte>)
    requires Inv(s) && Step(s, s', 0, PutLocked(u, data))
    ensures Inv(s')
  {
    PutEffect(s.cache, s.capacity, u, data);
    var es, fs := s.cache.entries, s'.cache.entries;
    assert Unique(es) && Unique(fs);
    if Has(es, u) {
      var e :| e in es && e.uri == u && e.data == fs[0].data;
    }
    assert fs[0].data == s'.origin(u) && fs[0].patience == s'.base(u) - s'.hits(u) && s'.base(u) <= DEFAULT_PATIENCE;
    hide Put, PutLog, Size, Index, Descends, Balanced;
    forall f | f in fs
      ensures f.data == s'.origin(f.uri) && f.patience == s'.base(f.uri) - s'.hits(f.uri) && s'.base(f.uri) <= DEFAULT_PATIENCE
    {
      var k :| 0 <= k < |fs| && fs[k] == f;
      if f.uri == u {
        assert k == 0;
      } else {
        PutKept(s, s', u, data, f);
        assert es[Index(es, f.uri)] in es;
        assert PatienceOf(s.cache, f.uri) == es[Index(es, f.uri)].patience;
        IndexHas(es, f.uri);
      }
    }
  }

  lemma IndexHas(es: seq<Entry>, u: string)
    ensures Index(es, u) < |es| ==> es[Index(es, u)].uri == u
  {
  }

  lemma ServedEntries(c: Cache, u: string)
    requires Has(c.entries, u)
    ensures var i := Index(c.entries, u);
            i < |c.entries| && c.entries[i].uri == u
            && Served(c, u).entries == c.entries[i := c.entries[i].(patience := c.entries[i].patience - 1)]
  {
    HasIndex(c.entries, u);
  }

  lemma ServedAccounted(s: State, s': State, t: nat)
    requires Inv(s) && Step(s, s', t, Decrement)
    ensures Inv(s')
  {
    ServedBalanced(s.cache, s.capacity, s.readers[t].uri);
    ServedBases(s, s', t);
    ServedReaders(s, s', t);
    hide Size, Served, Has, Balanced, Index, Accounted;
  }

  lemma ServedBases(s: State, s': State, t: nat)
    requires Inv(s) && Step(s, s', t, Decrement)
    ensures Accounted(s')
  {
    ServedEntries(s.cache, s.readers[t].uri);
    var es, fs := s.cache.entries, s'.cache.entries;
    assert Unique(es);
    hide Size, Served, Has, Balanced, Index;
    forall f | f in fs ensures f.data == s'.origin(f.uri) && f.patience == s'.base(f.uri) - s'.hits(f.uri) {
      var k :| 0 <= k < |fs| && fs[k] == f;
      assert es[k] in es;
    }
  }

  lemma ServedReaders(s: State, s': State, t: nat)
    requires Inv(s) && Step(s, s', t, Decrement)
    ensures forall r :: r in s'.readers && s'.readers[r].Copied? ==> Has(s'.cache.entries, s'.readers[r].uri)
  {
    ServedEntries(s.cache, s.readers[t].uri);
    var es, i := s.cache.entries, Index(s.cache.entries, s.readers[t].uri);
    hide Size, Served, Has, Balanced, Index, Accounted;
    forall r | r in s'.readers && s'.readers[r].Copied? ensures Has(s'.cache.entries, s'.readers[r].uri) {
      StillHas(es, i, es[i].patience - 1, s.readers[r].uri);
    }
  }

  lemma StillHas(es: seq<Entry>, i: nat, patience: int, v: string)
    requires i < |es| && Has(es, v)
    ensures Has(es[i := es[i].(patience := patience)], v)
  {
    var k :| 0 <= k < |es| && es[k].uri == v;
    assert es[i := es[i].(patience := patience)][k].uri == v;
  }

  /** The base of another key changes only by promotions of an entry out of patience. */
  ghost predicate OnlyPromoted(s: State, s': State, u: string) {
    forall f :: f in s'.cache.entries && f.uri != u && s'.base(f.uri) != s.base(f.uri) ==>
      PatienceOf(s.cache, f.uri) <= 0 < s'.base(f.uri) - PatienceOf(s.cache, f.uri)
  }

  lemma PutOnlyPromotes(s: State, s': State, u: string, data: seq<Byte>)
    requires Inv(s) && Step(s, s', 0, PutLocked(u, data))
    ensures OnlyPromoted(s, s', u)
  {
    hide Put, PutLog, Size, Index;
    forall f | f in s'.cache.entries && f.uri != u && s'.base(f.uri) != s.base(f.uri)
      ensures PatienceOf(s.cache, f.uri) <= 0 < s'.base(f.uri) - PatienceOf(s.cache, f.uri)
    {
      PutKept(s, s', u, data, f);
    }
  }

  lemma NextInv(s: State, s': State, t: nat, a: Action)
    requires Inv(s) && Step(s, s', t, a)
    ensures Inv(s')
    ensures a.CopyHit? ==> s'.results[|s'.results| - 1] == Event(s.readers[t].uri, s.origin(s.readers[t].uri))
    ensures a.PutLocked? ==> s'.base(a.uri) == DEFAULT_PATIENCE && OnlyPromoted(s, s', a.uri)
    ensures !a.PutLocked? ==> s'.base == s.base
  {
    if a.PutLocked? {
      PutAccounted(s, s', a.uri, a.data);
      PutOnlyPromotes(s, s', a.uri, a.data);
    } else if a.Decrement? {
      ServedAccounted(s, s', t);
    }
  }

  /** In every interleaving: keys are unique and bytes accounted for, every live entry holds the bytes of the put
      that created it and the patience due to it, and every hit was served those bytes. */
  lemma {:induction false} RunInv(r: seq<State>, i: nat)
    requires Run(r) && i < |r|
    ensures Inv(r[i])
    ensures i > 0 && |r[i].results| > |r[i - 1].results| ==>
            var e := r[i].results[|r[i].results| - 1];
            r[i].results == r[i - 1].results + [e] && Has(r[i].cache.entries, e.uri) && e.data == r[i - 1].origin(e.uri)
  {
    if i > 0 {
      RunInv(r, i - 1);
      assert Next(r[i - 1], r[i]);
      var t: nat, a :| Step(r[i - 1], r[i], t, a);
      NextInv(r[i - 1], r[i], t, a);
    }
  }
}
