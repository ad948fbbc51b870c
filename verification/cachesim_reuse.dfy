/** Hits, misses and evictions of the cache simulator by what happened since a block was last used. */
module CacheReuse {
  import opened CacheMasks
  import opened CacheSim

  function Elems(s: seq<int>): set<int> {
    set x | x in s
  }

  lemma ElemsCons(x: int, s: seq<int>)
    ensures Elems([x] + s) == {x} + Elems(s)
  {
  }

  predicate Distinct(q: seq<int>) {
    forall i, j :: 0 <= i < j < |q| ==> q[i] != q[j]
  }

  lemma {:induction false} DistinctCount(q: seq<int>)
    requires Distinct(q)
    ensures |Elems(q)| == |q|
  {
    if q != [] {
      DistinctCount(q[1..]);
      assert Elems(q) == {q[0]} + Elems(q[1..]) && q[0] !in Elems(q[1..]);
    }
  }

  // ---------------------------------------------------------------- the tags used, most recent first

  function Recent(h: seq<int>): seq<int> {
    if h == [] then [] else [h[|h| - 1]] + Remove(Recent(h[..|h| - 1]), h[|h| - 1])
  }

  lemma {:induction false} RemoveAbsent(q: seq<int>, t: int)
    requires t !in q
    ensures Remove(q, t) == q
  {
    if q != [] { RemoveAbsent(q[1..], t); }
  }

  /** A set keeps the most recent tags. */
  lemma {:induction false} RecentCut(ways: nat, h: seq<int>)
    requires ways >= 1
    ensures AfterAll(ways, h) == Cut(Recent(h), ways)
  {
    if h != [] {
      var n := |h| - 1;
      RecentCut(ways, h[..n]);
      TouchRecent(ways, Recent(h[..n]), h[n]);
    }
  }

  lemma TouchRecent(ways: nat, r: seq<int>, t: int)
    requires ways >= 1
    ensures Touch(ways, Cut(r, ways), t) == Cut([t] + Remove(r, t), ways)
  {
    var c := Cut(r, ways);
    RemoveTake(r, |c|, t);
    assert r[..|c|] == c;
    if t !in r { RemoveAbsent(r, t); }
    if t !in c && |r| > ways {
      assert Remove(r, t)[..ways - 1] == r[..ways - 1];
    }
  }

  /** Where an entry comes from, and what stands in front of it. */
  lemma {:induction false} RemoveFrom(q: seq<int>, x: int, p: nat) returns (p': nat)
    requires Distinct(q) && p < |Remove(q, x)|
    ensures p' < |q| && q[p'] == Remove(q, x)[p] && q[p'] != x && Elems(Remove(q, x)[..p]) == Elems(q[..p']) - {x}
  {
    if q[0] == x {
      p' := p + 1;
      assert q[..p'] == [x] + q[1..][..p];
      assert x !in q[1..][..p];
    } else if p == 0 {
      p' := 0;
    } else {
      var tail := RemoveFrom(q[1..], x, p - 1);
      p' := tail + 1;
      assert q[..p'] == [q[0]] + q[1..][..tail];
      assert Remove(q, x)[..p] == [q[0]] + Remove(q[1..], x)[..p - 1];
      ElemsCons(q[0], q[1..][..tail]);
      ElemsCons(q[0], Remove(q[1..], x)[..p - 1]);
    }
  }

  lemma {:induction false} RemoveElems(q: seq<int>, x: int)
    requires Distinct(q)
    ensures Distinct(Remove(q, x)) && Elems(Remove(q, x)) == Elems(q) - {x}
  {
    if q != [] {
      RemoveElems(q[1..], x);
      assert q == [q[0]] + q[1..];
      if q[0] != x {
        var r := Remove(q[1..], x);
        assert q[0] !in Elems(r);
        assert Elems([q[0]] + r) == {q[0]} + Elems(r);
      }
    }
  }

  // ---------------------------------------------------------------- since the last use

  /** j is the last use of t. */
  predicate LastUse(h: seq<int>, t: int, j: int) {
    0 <= j < |h| && h[j] == t && t !in h[j + 1..]
  }

  /** r holds the tags of h once each, each behind those used since. */
  ghost predicate Ordered(r: seq<int>, h: seq<int>) {
    && Distinct(r) && Elems(r) == Elems(h)
    && forall p, j :: 0 <= p < |r| && LastUse(h, r[p], j) ==> Elems(r[..p]) == Elems(h[j + 1..])
  }

  lemma {:induction false} RecentOrdered(h: seq<int>)
    ensures Ordered(Recent(h), h)
  {
    if h != [] {
      var n := |h| - 1;
      RecentOrdered(h[..n]);
      OrderedStep(Recent(h[..n]), h[..n], h[n]);
      assert h[..n] + [h[n]] == h;
    }
  }

  lemma StillThere(h: seq<int>, x: int, j: nat)
    requires j < |h|
    ensures x in (h + [x])[j + 1..]
  {
    assert (h + [x])[j + 1..][|h| - j - 1] == x;
  }

  lemma OrderedStep(r: seq<int>, h: seq<int>, x: int)
    requires Ordered(r, h)
    ensures Ordered([x] + Remove(r, x), h + [x])
  {
    var s, h' := [x] + Remove(r, x), h + [x];
    RemoveElems(r, x);
    assert x !in Elems(Remove(r, x));
    assert Elems(s) == {x} + Elems(Remove(r, x)) && Elems(h') == {x} + Elems(h);
    forall p, j | 0 <= p < |s| && LastUse(h', s[p], j) ensures Elems(s[..p]) == Elems(h'[j + 1..]) {
      if p == 0 {
        if j < |h| { StillThere(h, x, j); }
        assert s[..0] == [] && h'[j + 1..] == [];
      } else {
        var q := RemoveFrom(r, x, p - 1);
        assert s[p] == r[q] && s[..p] == [x] + Remove(r, x)[..p - 1];
        assert h'[j + 1..] == h[j + 1..] + [x];
        assert LastUse(h, r[q], j);
        assert Elems(h'[j + 1..]) == Elems(h[j + 1..]) + {x};
        assert Elems(s[..p]) == {x} + Elems(Remove(r, x)[..p - 1]);
      }
    }
  }

  lemma {:induction false} LastUseExists(h: seq<int>, t: int) returns (j: nat)
    requires t in h
    ensures LastUse(h, t, j)
  {
    var n := |h| - 1;
    if h[n] == t { return n; }
    assert h == h[..n] + [h[n]];
    j := LastUseExists(h[..n], t);
    assert h[j + 1..] == h[..n][j + 1..] + [h[n]];
  }

  /** A tag is in its set exactly if fewer different tags than the set has lines were used since; and a set is full
      exactly if that many were used at all. */
  lemma KeptExactly(ways: nat, h: seq<int>, t: int)
    requires ways >= 1
    ensures t in AfterAll(ways, h) <==> exists j :: LastUse(h, t, j) && |Elems(h[j + 1..])| < ways
    ensures |AfterAll(ways, h)| < ways <==> |Elems(h)| < ways
  {
    var r := Recent(h);
    RecentCut(ways, h);
    RecentOrdered(h);
    DistinctCount(r);
    forall j | LastUse(h, t, j) ensures t in Cut(r, ways) <==> |Elems(h[j + 1..])| < ways {
      assert t in Elems(h);
      var p :| 0 <= p < |r| && r[p] == t;
      DistinctCount(r[..p]);
    }
    if t in Cut(r, ways) {
      assert t in Elems(r);
      var j := LastUseExists(h, t);
    }
  }

  // ---------------------------------------------------------------- traces

  lemma {:induction false} SetTagsAppend(s: nat, b: nat, x: seq<U64>, y: seq<U64>, set_: int)
    ensures SetTags(s, b, x + y, set_) == SetTags(s, b, x, set_) + SetTags(s, b, y, set_)
  {
    if y == [] {
      assert x + y == x;
    } else {
      var n := |y| - 1;
      SetTagsAppend(s, b, x, y[..n], set_);
      assert (x + y)[..|x + y| - 1] == x + y[..n] && (x + y)[|x + y| - 1] == y[n];
    }
  }

  /** The tags of accesses j up to i that go to a set. */
  ghost function Used(s: nat, b: nat, trace: seq<U64>, j: int, i: int, set_: int): set<int>
    requires 0 <= j <= i <= |trace|
  {
    set k | j <= k < i && SetOf(s, b, trace[k]) == set_ :: TagOf(s, b, trace[k])
  }

  lemma {:induction false} UsedTags(s: nat, b: nat, trace: seq<U64>, j: nat, i: nat, set_: int)
    requires j <= i <= |trace|
    ensures Used(s, b, trace, j, i, set_) == Elems(SetTags(s, b, trace[j..i], set_))
    decreases i
  {
    hide SetOf, TagOf;
    if i > j {
      UsedTags(s, b, trace, j, i - 1, set_);
      var part := trace[j..i];
      assert part[..|part| - 1] == trace[j..i - 1] && part[|part| - 1] == trace[i - 1];
      var before, t := SetTags(s, b, trace[j..i - 1], set_), TagOf(s, b, trace[i - 1]);
      assert Elems(before + [t]) == Elems(before) + {t};
    }
  }

  /** Access j was the last one before access i to the same block. */
  ghost predicate Previous(s: nat, b: nat, trace: seq<U64>, j: int, i: int) {
    && 0 <= j < i < |trace| && SetOf(s, b, trace[j]) == SetOf(s, b, trace[i]) && TagOf(s, b, trace[j]) == TagOf(s, b, trace[i])
    && TagOf(s, b, trace[i]) !in Used(s, b, trace, j + 1, i, SetOf(s, b, trace[i]))
  }

  /** The block of access i was used before, and since then fewer other blocks of its set than the set has lines. */
  ghost predicate Reused(ways: nat, s: nat, b: nat, trace: seq<U64>, i: int) {
    exists j :: Previous(s, b, trace, j, i) && |Used(s, b, trace, j + 1, i, SetOf(s, b, trace[i]))| < ways
  }

  lemma SplitAt(s: nat, b: nat, trace: seq<U64>, j: nat, i: nat, set_: int)
    requires j < i <= |trace| && SetOf(s, b, trace[j]) == set_
    ensures SetTags(s, b, trace[..i], set_) == SetTags(s, b, trace[..j], set_) + [TagOf(s, b, trace[j])] + SetTags(s, b, trace[j + 1..i], set_)
  {
    hide SetOf, TagOf;
    assert trace[..i] == trace[..j] + ([trace[j]] + trace[j + 1..i]);
    SetTagsAppend(s, b, trace[..j], [trace[j]] + trace[j + 1..i], set_);
    SetTagsAppend(s, b, [trace[j]], trace[j + 1..i], set_);
    assert SetTags(s, b, [], set_) == [] && [trace[j]][..0] == [];
    assert SetTags(s, b, [trace[j]], set_) == [TagOf(s, b, trace[j])];
  }

  /** Use j of a set is some access to it, and the later uses are the accesses after that. */
  lemma {:induction false} UseToAccess(s: nat, b: nat, trace: seq<U64>, i: nat, set_: int, j: nat) returns (k: nat)
    requires i <= |trace| && j < |SetTags(s, b, trace[..i], set_)|
    ensures k < i && SetOf(s, b, trace[k]) == set_ && TagOf(s, b, trace[k]) == SetTags(s, b, trace[..i], set_)[j]
    ensures SetTags(s, b, trace[..i], set_)[j + 1..] == SetTags(s, b, trace[k + 1..i], set_)
  {
    hide SetOf, TagOf;
    var h := SetTags(s, b, trace[..i], set_);
    assert trace[..i][..i - 1] == trace[..i - 1];
    var before := SetTags(s, b, trace[..i - 1], set_);
    if j == |before| {
      k := i - 1;
      assert trace[k + 1..i] == [];
    } else {
      k := UseToAccess(s, b, trace, i - 1, set_, j);
      var part := trace[k + 1..i];
      assert part[..|part| - 1] == trace[k + 1..i - 1] && part[|part| - 1] == trace[i - 1];
      assert SetOf(s, b, trace[i - 1]) == set_ ==> h[j + 1..] == before[j + 1..] + [TagOf(s, b, trace[i - 1])];
    }
  }

  /** An access hits exactly if its block was used before and fewer other blocks of its set since than the set has
      lines; a miss evicts exactly if at least that many blocks of the set have been used at all. */
  lemma OutcomeExactly(ways: nat, s: nat, b: nat, trace: seq<U64>, i: nat)
    requires ways >= 1 && i < |trace|
    ensures Expected(ways, s, b, trace, i)
            == if Reused(ways, s, b, trace, i) then 1
               else if |Used(s, b, trace, 0, i, SetOf(s, b, trace[i]))| < ways then 2 else 6
  {
    hide SetOf, TagOf, AfterAll, SetTags, Used;
    var set_, t := SetOf(s, b, trace[i]), TagOf(s, b, trace[i]);
    var h := SetTags(s, b, trace[..i], set_);
    KeptExactly(ways, h, t);
    UsedTags(s, b, trace, 0, i, set_);
    assert trace[0..i] == trace[..i];
    if t in AfterAll(ways, h) {
      var j :| LastUse(h, t, j) && |Elems(h[j + 1..])| < ways;
      var k := UseToAccess(s, b, trace, i, set_, j);
      UsedTags(s, b, trace, k + 1, i, set_);
      assert Previous(s, b, trace, k, i);
    }
    if Reused(ways, s, b, trace, i) {
      var k :| Previous(s, b, trace, k, i) && |Used(s, b, trace, k + 1, i, set_)| < ways;
      SplitAt(s, b, trace, k, i, set_);
      UsedTags(s, b, trace, k + 1, i, set_);
      var j := |SetTags(s, b, trace[..k], set_)|;
      assert h[j + 1..] == SetTags(s, b, trace[k + 1..i], set_);
      assert LastUse(h, t, j);
    }
  }
}
