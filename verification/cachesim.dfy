/** The cache simulator (labs/05-cache/cache.c): lines with timestamps, against a queue of tags per set. */
module CacheSim {
  import opened CacheMasks
  import Bits

  const K_HIT: int := 1
  const K_MISS: int := 2
  const K_EVICT: int := 4

  // ---------------------------------------------------------------- least recently used, as a queue

  function Remove(q: seq<int>, t: int): (r: seq<int>)
    ensures |r| == if t in q then |q| - 1 else |q|
  {
    if q == [] then [] else if q[0] == t then q[1..] else [q[0]] + Remove(q[1..], t)
  }

  /** The tags of a set, most recently used first, after using t. */
  function Touch(ways: nat, q: seq<int>, t: int): (r: seq<int>)
    requires ways >= 1
    ensures |q| <= ways ==> |r| <= ways
  {
    if t in q then [t] + Remove(q, t)
    else if |q| < ways then [t] + q
    else [t] + q[..ways - 1]
  }

  function Outcome(ways: nat, q: seq<int>, t: int): int {
    if t in q then K_HIT else if |q| < ways then K_MISS else K_MISS + K_EVICT
  }

  // ---------------------------------------------------------------- lines and timestamps

  datatype Line = Line(tag: int, ts: int)

  predicate Increasing(row: seq<Line>, order: seq<nat>) {
    && (forall i :: 0 <= i < |order| ==> order[i] < |row|)
    && forall i, j :: 0 <= i < j < |order| ==> row[order[i]].ts > row[order[j]].ts
  }

  /** The lines of a set, in the given order of use: valid lines form a prefix, each once in the order, with
      distinct tags and timestamps that fall along it and never exceed the clock. */
  ghost predicate Represents(row: seq<Line>, order: seq<nat>, tick: int) {
    && |order| <= |row| && Increasing(row, order) && tick >= 0
    && (forall i :: 0 <= i < |order| ==> order[i] < |order|)
    && (forall k: nat :: k < |order| ==> k in order)
    && (forall k :: 0 <= k < |order| ==> row[k].tag >= 0 && 1 <= row[k].ts <= tick)
    && (forall k :: |order| <= k < |row| ==> row[k].tag < 0)
    && (forall j, k :: 0 <= j < k < |order| ==> row[j].tag != row[k].tag)
  }

  function Queue(row: seq<Line>, order: seq<nat>): (q: seq<int>)
    requires forall i :: 0 <= i < |order| ==> order[i] < |row|
    ensures |q| == |order|
  {
    seq(|order|, i requires 0 <= i < |order| => row[order[i]].tag)
  }

  function Drop(order: seq<nat>, k: nat): (r: seq<nat>)
    ensures |r| == if k in order then |order| - 1 else |order|
    ensures forall j :: j in r ==> j in order
  {
    if order == [] then [] else if order[0] == k then order[1..] else [order[0]] + Drop(order[1..], k)
  }

  lemma {:induction false} DropOne(row: seq<Line>, order: seq<nat>, k: nat)
    requires Increasing(row, order)
    ensures Increasing(row, Drop(order, k)) && k !in Drop(order, k)
    ensures forall j :: j in order && j != k ==> j in Drop(order, k)
  {
    if order != [] {
      var rest := order[1..];
      forall i, j | 0 <= i < j < |rest| ensures row[rest[i]].ts > row[rest[j]].ts {
        assert order[i + 1] == rest[i] && order[j + 1] == rest[j];
      }
      forall j | 0 <= j < |rest| ensures row[order[0]].ts > row[rest[j]].ts {
        assert order[j + 1] == rest[j];
      }
      DropOne(row, rest, k);
      var d := Drop(rest, k);
      assert order == [order[0]] + rest;
      forall j | 0 <= j < |d| ensures row[order[0]].ts > row[d[j]].ts {
        assert d[j] in rest;
      }
      if order[0] == k {
        assert forall j :: 0 <= j < |rest| ==> rest[j] != k;
      } else {
        PutFirst(row, order[0], d);
      }
    }
  }

  lemma PutFirst(row: seq<Line>, k: nat, d: seq<nat>)
    requires k < |row| && Increasing(row, d) && forall j :: 0 <= j < |d| ==> row[k].ts > row[d[j]].ts
    ensures Increasing(row, [k] + d)
  {
    forall i, j | 0 <= i < j < |d| + 1 ensures row[([k] + d)[i]].ts > row[([k] + d)[j]].ts {
      assert ([k] + d)[j] == d[j - 1];
      assert i > 0 ==> ([k] + d)[i] == d[i - 1];
    }
  }

  /** Dropping k's tag from the queue is dropping k from the order. */
  lemma {:induction false} QueueDrop(row: seq<Line>, order: seq<nat>, k: nat)
    requires forall i :: 0 <= i < |order| ==> order[i] < |row|
    requires k in order && forall j :: j in order && j != k ==> row[j].tag != row[k].tag
    ensures forall i :: 0 <= i < |Drop(order, k)| ==> Drop(order, k)[i] < |row|
    ensures Queue(row, Drop(order, k)) == Remove(Queue(row, order), row[k].tag)
    ensures row[k].tag in Queue(row, order)
  {
    var rest := order[1..];
    assert Queue(row, order) == [row[order[0]].tag] + Queue(row, rest);
    if order[0] != k {
      QueueDrop(row, rest, k);
      assert order[0] in order;
      assert Queue(row, [order[0]] + Drop(rest, k)) == [row[order[0]].tag] + Queue(row, Drop(rest, k));
    } else {
      assert Queue(row, order)[0] == row[k].tag;
    }
  }

  /** A line stamped with the new time goes to the front. */
  lemma Stamped(row: seq<Line>, rest: seq<nat>, k: nat, x: Line, tick: int)
    requires Increasing(row, rest) && k < |row| && k !in rest && x.ts == tick + 1
    requires forall j :: j in rest ==> row[j].ts <= tick
    ensures var row', order := row[k := x], [k] + rest;
            Increasing(row', order) && Queue(row', order) == [x.tag] + Queue(row, rest)
  {
    var row', order := row[k := x], [k] + rest;
    forall i | 0 <= i < |order| ensures order[i] < |row| && (i > 0 ==> row'[order[i]] == row[rest[i - 1]]) {
      assert i > 0 ==> order[i] == rest[i - 1] && rest[i - 1] in rest;
    }
    forall i, j | 0 <= i < j < |order| ensures row'[order[i]].ts > row'[order[j]].ts {
      assert order[j] == rest[j - 1] && rest[j - 1] in rest;
    }
    assert Queue(row', order) == [x.tag] + Queue(row, rest);
  }

  /** A hit on line k. */
  lemma Hit(row: seq<Line>, order: seq<nat>, tick: int, k: nat)
    requires Represents(row, order, tick) && k < |order|
    ensures var row', order' := row[k := Line(row[k].tag, tick + 1)], [k] + Drop(order, k);
            && row[k].tag in Queue(row, order) && Represents(row', order', tick + 1)
            && Queue(row', order') == [row[k].tag] + Remove(Queue(row, order), row[k].tag)
  {
    assert k in order;
    forall j | j in order && j != k ensures row[j].tag != row[k].tag {
    }
    QueueDrop(row, order, k);
    DropOne(row, order, k);
    var x := Line(row[k].tag, tick + 1);
    var order' := [k] + Drop(order, k);
    assert forall j :: j in order' <==> j in order;
    Bounded(row, order, tick);
    hide Represents, Increasing, Queue, Drop, Remove;
    Stamped(row, Drop(order, k), k, x, tick);
    Renewed(row, order, order', k, x, tick);
  }

  /** A miss with a line to spare: the first invalid one is filled. */
  lemma Fill(row: seq<Line>, order: seq<nat>, tick: int, t: int)
    requires Represents(row, order, tick) && |order| < |row| && t >= 0 && t !in Queue(row, order)
    ensures var k := |order|;
            var row', order' := row[k := Line(t, tick + 1)], [k] + order;
            Represents(row', order', tick + 1) && Queue(row', order') == [t] + Queue(row, order)
  {
    var k := |order|;
    Stamped(row, order, k, Line(t, tick + 1), tick);
    NotCached(row, order, tick, t);
    var order' := [k] + order;
    forall j: nat | j < |order'| ensures j in order' {
      if j == k {
        assert order'[0] == k;
      } else {
        assert j in order;
      }
    }
  }

  lemma NotCached(row: seq<Line>, order: seq<nat>, tick: int, t: int)
    requires Represents(row, order, tick)
    ensures t in Queue(row, order) <==> exists k :: 0 <= k < |order| && row[k].tag == t
  {
    if k :| 0 <= k < |order| && row[k].tag == t {
      var n: nat := k;
      assert n in order;
      var i :| 0 <= i < |order| && order[i] == n;
      assert Queue(row, order)[i] == t;
    }
    if t in Queue(row, order) {
      var i :| 0 <= i < |order| && Queue(row, order)[i] == t;
      assert row[order[i]].tag == t;
    }
  }

  lemma LastIsLeast(row: seq<Line>, order: seq<nat>, p: nat)
    requires Increasing(row, order) && p < |order|
    ensures p == |order| - 1 || row[order[p]].ts > row[order[|order| - 1]].ts
  {
  }

  /** A miss in a full set: the line with the least timestamp is last in the order, and is replaced. */
  lemma Replace(row: seq<Line>, order: seq<nat>, tick: int, k: nat, t: int)
    requires Represents(row, order, tick) && |order| == |row| && k < |row| && t >= 0 && t !in Queue(row, order)
    requires forall j :: 0 <= j < |row| ==> row[k].ts <= row[j].ts
    ensures var n := |order| - 1;
            var row', order' := row[k := Line(t, tick + 1)], [k] + order[..n];
            && order[n] == k && Represents(row', order', tick + 1)
            && Queue(row', order') == [t] + Queue(row, order)[..n]
  {
    var n := |order| - 1;
    assert k in order;
    var p :| 0 <= p < |order| && order[p] == k;
    LastIsLeast(row, order, p);
    var rest := order[..n];
    Distinct(row, order);
    NotCached(row, order, tick, t);
    assert Queue(row, rest) == Queue(row, order)[..n];
    Rotated(order, rest, k);
    Bounded(row, order, tick);
    hide Represents, Increasing, Queue;
    Stamped(row, rest, k, Line(t, tick + 1), tick);
    Renewed(row, order, [k] + rest, k, Line(t, tick + 1), tick);
  }

  lemma Bounded(row: seq<Line>, order: seq<nat>, tick: int)
    requires Represents(row, order, tick)
    ensures forall j :: j in order ==> j < |order| && row[j].ts <= tick
  {
  }

  /** A line of a set given a new stamp, and a tag no other line has. */
  lemma Renewed(row: seq<Line>, order: seq<nat>, order': seq<nat>, k: nat, x: Line, tick: int)
    requires Represents(row, order, tick) && k < |order| && x.tag >= 0 && x.ts == tick + 1
    requires Increasing(row[k := x], order') && |order'| == |order| && forall j :: j in order' <==> j in order
    requires forall j :: 0 <= j < |order| && j != k ==> row[j].tag != x.tag
    ensures Represents(row[k := x], order', tick + 1)
  {
    forall i | 0 <= i < |order'| ensures order'[i] < |order'| {
      assert order'[i] in order;
    }
  }

  lemma Distinct(row: seq<Line>, order: seq<nat>)
    requires Increasing(row, order)
    ensures forall i, j :: 0 <= i < j < |order| ==> order[i] != order[j]
    ensures order != [] ==> Increasing(row, order[..|order| - 1])
  {
  }

  /** Moving the last line to the front leaves the same lines. */
  lemma Rotated(order: seq<nat>, rest: seq<nat>, k: nat)
    requires order == rest + [k]
    ensures |[k] + rest| == |order| && (forall j :: j in [k] + rest <==> j in order)
    ensures forall i :: 0 <= i < |order| ==> ([k] + rest)[i] in order
  {
  }

  // ---------------------------------------------------------------- traces

  /** The tags of a set after using the given tags one after the other. */
  function AfterAll(ways: nat, tags: seq<int>): (q: seq<int>)
    requires ways >= 1
    ensures |q| <= ways
  {
    if tags == [] then [] else Touch(ways, AfterAll(ways, tags[..|tags| - 1]), tags[|tags| - 1])
  }

  /** The tags of the accesses of a trace that go to one set. */
  function SetTags(s: nat, b: nat, trace: seq<U64>, set_: int): seq<int> {
    if trace == [] then []
    else
      var n := |trace| - 1;
      var before := SetTags(s, b, trace[..n], set_);
      if SetOf(s, b, trace[n]) == set_ then before + [TagOf(s, b, trace[n])] else before
  }

  /** What access i of a trace should give. */
  function Expected(ways: nat, s: nat, b: nat, trace: seq<U64>, i: nat): int
    requires ways >= 1 && i < |trace|
  {
    Outcome(ways, AfterAll(ways, SetTags(s, b, trace[..i], SetOf(s, b, trace[i]))), TagOf(s, b, trace[i]))
  }

  lemma {:induction false} RemoveTake(q: seq<int>, k: nat, t: int)
    requires k <= |q|
    ensures t in q[..k] ==> Remove(q[..k], t) == Remove(q, t)[..k - 1]
    ensures t in q && t !in q[..k] ==> Remove(q, t)[..k] == q[..k]
  {
    if k > 0 {
      var tail := q[1..];
      assert q[..k][1..] == tail[..k - 1];
      RemoveTake(tail, k - 1, t);
      assert q == [q[0]] + tail && q[..k] == [q[0]] + tail[..k - 1];
    }
  }

  function Cut(q: seq<int>, ways: nat): seq<int> {
    if |q| <= ways then q else q[..ways]
  }

  /** The most recent entries of a larger set are a smaller set. */
  lemma TouchCut(ways: nat, q: seq<int>, t: int)
    requires ways >= 1 && |q| <= ways + 1
    ensures Touch(ways, Cut(q, ways), t) == Cut(Touch(ways + 1, q, t), ways)
  {
    var c := Cut(q, ways);
    RemoveTake(q, |c|, t);
    assert q[..|c|] == c;
    if t in q && t !in c {
      assert [t] + Remove(q, t) == [t] + (Remove(q, t)[..ways] + Remove(q, t)[ways..]);
    }
    if t !in q {
      assert t !in c;
    }
  }

  lemma {:induction false} SmallerIsPrefix(ways: nat, tags: seq<int>)
    requires ways >= 1
    ensures AfterAll(ways, tags) == Cut(AfterAll(ways + 1, tags), ways)
  {
    if tags != [] {
      var n := |tags| - 1;
      SmallerIsPrefix(ways, tags[..n]);
      TouchCut(ways, AfterAll(ways + 1, tags[..n]), tags[n]);
    }
  }

  /** For any trace, every set of the smaller cache holds a part of what the set of the cache with one more line
      holds, and every hit in the smaller one is a hit in the larger one. */
  lemma Inclusion(ways: nat, s: nat, b: nat, trace: seq<U64>)
    requires ways >= 1
    ensures forall set_, t :: t in AfterAll(ways, SetTags(s, b, trace, set_)) ==> t in AfterAll(ways + 1, SetTags(s, b, trace, set_))
    ensures forall i :: 0 <= i < |trace| && Expected(ways, s, b, trace, i) == K_HIT ==> Expected(ways + 1, s, b, trace, i) == K_HIT
  {
    forall set_, t | t in AfterAll(ways, SetTags(s, b, trace, set_))
      ensures t in AfterAll(ways + 1, SetTags(s, b, trace, set_))
    {
      SmallerIsPrefix(ways, SetTags(s, b, trace, set_));
    }
    forall i | 0 <= i < |trace| && Expected(ways, s, b, trace, i) == K_HIT ensures Expected(ways + 1, s, b, trace, i) == K_HIT {
      SmallerIsPrefix(ways, SetTags(s, b, trace[..i], SetOf(s, b, trace[i])));
    }
  }

  // ---------------------------------------------------------------- the simulator

  lemma Used(row: seq<Line>, order: seq<nat>, tick: int, k: nat, t: int, ret: int) returns (next: seq<nat>)
    requires Represents(row, order, tick) && k < |row| && t >= 0 && ret == Outcome(|row|, Queue(row, order), t)
    requires ret == K_HIT ==> k < |order| && row[k].tag == t
    requires ret == K_MISS ==> k == |order|
    requires ret == K_MISS + K_EVICT ==> forall j :: 0 <= j < |row| ==> row[k].ts <= row[j].ts
    ensures Represents(row[k := Line(t, tick + 1)], next, tick + 1)
    ensures Queue(row[k := Line(t, tick + 1)], next) == Touch(|row|, Queue(row, order), t)
  {
    hide Represents, Remove;
    Length(row, order, tick);
    if ret == K_HIT {
      Hit(row, order, tick, k);
      next := [k] + Drop(order, k);
    } else if ret == K_MISS {
      Fill(row, order, tick, t);
      next := [k] + order;
    } else {
      Replace(row, order, tick, k, t);
      next := [k] + order[..|order| - 1];
    }
  }

  lemma Length(row: seq<Line>, order: seq<nat>, tick: int)
    requires Represents(row, order, tick)
    ensures |order| <= |row| && forall i :: 0 <= i < |order| ==> order[i] < |row|
  {
  }

  lemma Later(row: seq<Line>, order: seq<nat>, tick: int)
    requires Represents(row, order, tick)
    ensures Represents(row, order, tick + 1)
  {
  }

  lemma TraceStep(ways: nat, s: nat, b: nat, trace: seq<U64>, addr: U64, set_: int)
    requires ways >= 1
    ensures (trace + [addr])[..|trace|] == trace && (trace + [addr])[|trace|] == addr
    ensures AfterAll(ways, SetTags(s, b, trace + [addr], set_))
            == if SetOf(s, b, addr) == set_ then Touch(ways, AfterAll(ways, SetTags(s, b, trace, set_)), TagOf(s, b, addr))
               else AfterAll(ways, SetTags(s, b, trace, set_))
  {
    hide TagOf, SetOf, Touch;
    assert (trace + [addr])[..|trace|] == trace;
    var tags := SetTags(s, b, trace, set_);
    assert (tags + [TagOf(s, b, addr)])[..|tags|] == tags;
  }

  class Simulator {
    const s: nat
    const b: nat
    const lines: array2<Line>
    var tick: int
    ghost var order: seq<seq<nat>>
    ghost var trace: seq<U64>

    ghost function Row(set_: nat): (row: seq<Line>)
      requires set_ < lines.Length0
      reads lines
    {
      seq(lines.Length1, k requires 0 <= k < lines.Length1 reads lines => lines[set_, k])
    }

    /** The lines of a set stand for the queue q. */
    ghost predicate Holds(set_: nat, q: seq<int>)
      requires set_ < lines.Length0
      reads this`tick, this`order, lines
    {
      set_ < |order| && Represents(Row(set_), order[set_], tick) && Queue(Row(set_), order[set_]) == q
    }

    ghost predicate SetValid(set_: nat)
      requires set_ < lines.Length0 && lines.Length1 >= 1
      reads this, lines
    {
      Holds(set_, AfterAll(lines.Length1, SetTags(s, b, trace, set_)))
    }

    ghost predicate Valid()
      reads this, lines
    {
      && Geometry(s, b) && lines.Length0 == Bits.Pow2(s) && lines.Length1 >= 1 && |order| == lines.Length0
      && tick == |trace|
      && forall set_: nat :: set_ < lines.Length0 ==> SetValid(set_)
    }

    // init_cache
    constructor (s: nat, b: nat, ways: nat)
      requires Geometry(s, b) && ways >= 1
      ensures Valid() && trace == [] && lines.Length1 == ways && this.s == s && this.b == b && fresh(lines)
    {
      this.s, this.b, tick, trace := s, b, 0, [];
      order := seq(Bits.Pow2(s), _ => []);
      lines := new Line[Bits.Pow2(s), ways]((i, j) => Line(0, 0));
      new;
      var i := 0;
      while i < lines.Length0
        modifies lines
        invariant 0 <= i <= lines.Length0
        invariant forall p, q :: 0 <= p < i && 0 <= q < lines.Length1 ==> lines[p, q].tag == -1
      {
        var j := 0;
        while j < lines.Length1
          modifies lines
          invariant 0 <= j <= lines.Length1
          invariant forall p, q :: 0 <= p < i && 0 <= q < lines.Length1 ==> lines[p, q].tag == -1
          invariant forall q :: 0 <= q < j ==> lines[i, q].tag == -1
        {
          lines[i, j] := lines[i, j].(tag := -1);
          j := j + 1;
        }
        i := i + 1;
      }
      forall set_: nat | set_ < lines.Length0 ensures SetValid(set_) {
        assert order[set_] == [];
      }
    }

    // access_cache
    method AccessCache(addr: U64) returns (ret: int)
      requires Valid() && tick < 0xFFFF_FFFF_FFFF_FFFE
      modifies this, lines
      ensures Valid() && trace == old(trace) + [addr]
      ensures ret == Expected(lines.Length1, s, b, trace, |old(trace)|)
    {
      hide TagOf, SetOf, AfterAll, SetTags, Touch, Outcome, Simulator.Holds, Bits.Pow2;
      assert 0 <= SetOf(s, b, addr) < lines.Length0 && TagOf(s, b, addr) >= 0 by {
        SetOfValue(s, b, addr);
        TagOfValue(s, b, addr);
      }
      var tag, set_ := TagOf(s, b, addr), SetOf(s, b, addr);
      assert SetValid(set_);
      ghost var was, ways := trace, lines.Length1;
      ret := Use(set_, tag, AfterAll(ways, SetTags(s, b, trace, set_)));
      trace := trace + [addr];
      assert trace[..|was|] == was;
      forall other: nat | other < lines.Length0 ensures SetValid(other) {
        assert old(SetValid(other));
        assert old(Holds(other, AfterAll(ways, SetTags(s, b, was, other))));
        TraceStep(ways, s, b, was, addr, other);
      }
    }

    // access_cache after the address has been split
    method Use(set_: nat, tag: int, ghost q: seq<int>) returns (ret: int)
      requires set_ < lines.Length0 && lines.Length1 >= 1 && Holds(set_, q) && tag >= 0 && tick < 0xFFFF_FFFF_FFFF_FFFE
      modifies this`tick, this`order, lines
      ensures ret == Outcome(lines.Length1, q, tag) && Holds(set_, Touch(lines.Length1, q, tag))
      ensures |order| == old(|order|) && tick == old(tick) + 1
      ensures forall other: nat, p :: other < lines.Length0 && other != set_ && old(Holds(other, p)) ==> Holds(other, p)
    {
      hide Represents, Queue, Touch;
      ghost var row, ord := Row(set_), order[set_];
      var k;
      k, ret := Choose(set_, tag);
      ghost var next := Used(row, ord, tick, k, tag, ret);
      label before:
      lines[set_, k] := Line(tag, tick + 1);
      tick := tick + 1;
      order := order[set_ := next];
      assert Row(set_) == row[k := Line(tag, tick)];
      forall other: nat, p | other < lines.Length0 && other != set_ && old(Holds(other, p)) ensures Holds(other, p) {
        assert Row(other) == old(Row(other));
        Later(Row(other), order[other], tick - 1);
      }
    }

    /** The line access_cache uses for a tag, and its result. */
    method Choose(set_: nat, tag: int) returns (k: nat, ret: int)
      requires set_ < lines.Length0 && lines.Length1 >= 1 && set_ < |order| && Represents(Row(set_), order[set_], tick)
      requires tag >= 0 && tick < 0xFFFF_FFFF_FFFF_FFFE
      ensures k < lines.Length1
      ensures ret == Outcome(lines.Length1, Queue(Row(set_), order[set_]), tag)
      ensures ret == K_HIT ==> k < |order[set_]| && Row(set_)[k].tag == tag
      ensures ret == K_MISS ==> k == |order[set_]|
      ensures ret == K_MISS + K_EVICT ==> forall j :: 0 <= j < lines.Length1 ==> Row(set_)[k].ts <= Row(set_)[j].ts
    {
      ghost var row, ord := Row(set_), order[set_];
      NotCached(row, ord, tick, tag);
      var minTs := 0xFFFF_FFFF_FFFF_FFFF;
      k := 0;
      var i := 0;
      while i < lines.Length1
        invariant 0 <= i <= |ord| && k < lines.Length1
        invariant forall j :: 0 <= j < i ==> row[j].tag != tag && minTs <= row[j].ts
        invariant i > 0 ==> k < i && minTs == row[k].ts
        invariant i == 0 ==> minTs == 0xFFFF_FFFF_FFFF_FFFF
      {
        var line := lines[set_, i];
        assert line == row[i];
        if line.tag == tag {
          return i, K_HIT;
        }
        if line.tag < 0 {
          minTs, k := 0, i;
          break;
        }
        if minTs > line.ts {
          minTs, k := line.ts, i;
        }
        i := i + 1;
      }
      ret := K_MISS;
      if minTs != 0 {
        ret := ret + K_EVICT;
      }
    }
  }
}
