/** Cache-blocked matrix transposes (labs/05-cache/trans.c). */
module Transpose {
  import opened Arith

  // get_set_idx: the set of element (i, j) of a matrix with rows of m ints, in a 1 KB cache of 32-byte blocks
  function SetIdx(base: nat, i: nat, j: nat, m: nat): int {
    (base + 4 * (i * m + j)) % 1024 / 32
  }

  /** Whether reading A[i][j] and writing B[j][i] fight for one set. */
  predicate Conflict(baseA: nat, baseB: nat, i: nat, j: nat, m: nat, n: nat) {
    SetIdx(baseA, i, j, m) == SetIdx(baseB, j, i, n)
  }

  ghost predicate Shapes(a: array2<int>, b: array2<int>, m: nat, n: nat) {
    a != b && a.Length0 == n && a.Length1 == m && b.Length0 == m && b.Length1 == n
  }

  ghost predicate IsTranspose(a: array2<int>, b: array2<int>)
    requires a.Length0 == b.Length1 && a.Length1 == b.Length0
    reads a, b
  {
    forall i, j :: 0 <= i < a.Length0 && 0 <= j < a.Length1 ==> b[j, i] == a[i, j]
  }

  /** The cells a blocked loop has done when it is about to start the block at (ii, jj). */
  predicate Before(i: int, j: int, ii: int, jj: int, rows: int) {
    j < jj || (j < jj + rows && i < ii)
  }

  // trans_odds
  method TransOdds(bsize: nat, m: nat, n: nat, a: array2<int>, b: array2<int>)
    requires bsize > 0 && Shapes(a, b, m, n)
    modifies b
    ensures IsTranspose(a, b)
  {
    var en, em := bsize * (n / bsize + 1), bsize * (m / bsize + 1);
    assert en > n && em > m by {
      Rounded(n, bsize);
      Rounded(m, bsize);
    }
    var jj := 0;
    while jj < em
      invariant 0 <= jj
      invariant forall i, j :: 0 <= i < n && 0 <= j < m && j < jj ==> b[j, i] == a[i, j]
      decreases em - jj
    {
      var ii := 0;
      while ii < en
        invariant 0 <= ii
        invariant forall i, j :: 0 <= i < n && 0 <= j < m && Before(i, j, ii, jj, bsize) ==> b[j, i] == a[i, j]
        decreases en - ii
      {
        var i := ii;
        while i < ii + bsize && i < n
          invariant ii <= i <= ii + bsize
          invariant forall p, q :: 0 <= p < n && 0 <= q < m && (Before(p, q, ii, jj, bsize) || (ii <= p < i && jj <= q < jj + bsize))
                      ==> b[q, p] == a[p, q]
        {
          var j := jj;
          while j < jj + bsize && j < m
            invariant jj <= j <= jj + bsize
            invariant forall p, q :: 0 <= p < n && 0 <= q < m
                        && (Before(p, q, ii, jj, bsize) || (ii <= p < i && jj <= q < jj + bsize) || (p == i && jj <= q < j))
                        ==> b[q, p] == a[p, q]
          {
            b[j, i] := a[i, j];
            j := j + 1;
          }
          i := i + 1;
        }
        ii := ii + bsize;
      }
      jj := jj + bsize;
    }
  }

  lemma Rounded(n: nat, s: nat)
    requires s > 0
    ensures s * (n / s + 1) > n
  {
    assert n == s * (n / s) + n % s;
  }

  /** A multiple of s below a multiple of s leaves room for s more. */
  lemma Room(x: nat, n: nat, s: nat)
    requires s > 0 && x % s == 0 && n % s == 0 && x < n
    ensures x + s <= n && (x + s) % s == 0
  {
    var p, q := x / s, n / s;
    assert x == s * p && n == s * q;
    MulMono(q, p, s);
    MulMono(p + 1, q, s);
    assert (p + 1) * s == x + s;
    DivUnique(x + s, s, p + 1, 0);
  }

  // trans_32, for any element addresses
  method Trans32(bsize: nat, m: nat, n: nat, a: array2<int>, b: array2<int>, baseA: nat, baseB: nat)
    requires bsize > 0 && n % bsize == 0 && m % bsize == 0 && Shapes(a, b, m, n)
    modifies b
    ensures IsTranspose(a, b)
  {
    var jj := 0;
    while jj < m
      invariant 0 <= jj <= m && jj % bsize == 0
      invariant forall i, j :: 0 <= i < n && 0 <= j < jj ==> b[j, i] == a[i, j]
    {
      Room(jj, m, bsize);
      var ii := 0;
      while ii < n
        invariant 0 <= ii <= n && ii % bsize == 0
        invariant forall i, j :: 0 <= i < n && 0 <= j < m && Before(i, j, ii, jj, bsize) ==> b[j, i] == a[i, j]
      {
        Room(ii, n, bsize);
        var i := ii;
        while i < ii + bsize
          invariant ii <= i <= ii + bsize
          invariant forall p, q :: 0 <= p < n && 0 <= q < m && (Before(p, q, ii, jj, bsize) || (ii <= p < i && jj <= q < jj + bsize))
                      ==> b[q, p] == a[p, q]
        {
          Row32(bsize, m, n, a, b, baseA, baseB, i, jj);
          i := i + 1;
        }
        ii := ii + bsize;
      }
      jj := jj + bsize;
    }
  }

  /** One row of a block: first the elements without a conflict, then the others. */
  method Row32(bsize: nat, m: nat, n: nat, a: array2<int>, b: array2<int>, baseA: nat, baseB: nat, i: nat, jj: nat)
    requires Shapes(a, b, m, n) && i < n && jj + bsize <= m
    modifies b
    ensures forall q :: jj <= q < jj + bsize ==> b[q, i] == a[i, q]
    ensures forall p, q :: 0 <= p < n && 0 <= q < m && !(p == i && jj <= q < jj + bsize) ==> b[q, p] == old(b[q, p])
  {
    var j := jj;
    while j < jj + bsize
      invariant jj <= j <= jj + bsize
      invariant forall q :: jj <= q < j && !Conflict(baseA, baseB, i, q, m, n) ==> b[q, i] == a[i, q]
      invariant forall p, q :: 0 <= p < n && 0 <= q < m && !(p == i && jj <= q < jj + bsize) ==> b[q, p] == old(b[q, p])
    {
      if SetIdx(baseA, i, j, m) != SetIdx(baseB, j, i, n) {
        b[j, i] := a[i, j];
      }
      j := j + 1;
    }
    j := jj;
    while j < jj + bsize
      invariant jj <= j <= jj + bsize
      invariant forall q :: jj <= q < jj + bsize && (q < j || !Conflict(baseA, baseB, i, q, m, n)) ==> b[q, i] == a[i, q]
      invariant forall p, q :: 0 <= p < n && 0 <= q < m && !(p == i && jj <= q < jj + bsize) ==> b[q, p] == old(b[q, p])
    {
      if SetIdx(baseA, i, j, m) == SetIdx(baseB, j, i, n) {
        b[j, i] := a[i, j];
      }
      j := j + 1;
    }
  }

  // ---------------------------------------------------------------- trans_64

  /** The eight cells of a pass of trans_64, in the order it visits them. */
  function CellRow(ii: nat, k: nat, p: nat): nat { ii + k + 4 * (p / 4) }
  function CellCol(jj: nat, p: nat): nat { jj + p % 4 }

  /** Which of the eight cells of a pass conflict. */
  function Marks(baseA: nat, baseB: nat, m: nat, n: nat, ii: nat, jj: nat, k: nat): (c: seq<bool>)
    ensures |c| == 8
  {
    seq(8, p requires 0 <= p < 8 => Conflict(baseA, baseB, CellRow(ii, k, p), CellCol(jj, p), m, n))
  }

  function FirstMark(c: seq<bool>): (p: nat)
    ensures p <= |c| && (p < |c| ==> c[p]) && forall q :: 0 <= q < p ==> !c[q]
  {
    if c == [] || c[0] then 0 else 1 + FirstMark(c[1..])
  }

  function LastMark(c: seq<bool>): (p: int)
    ensures -1 <= p < |c| && (p >= 0 ==> c[p]) && forall q :: p < q < |c| ==> !c[q]
  {
    if c == [] then -1 else if c[|c| - 1] then |c| - 1 else LastMark(c[..|c| - 1])
  }

  /** The cell whose value ends up in cell p: its own, unless it is a conflicting cell after the first, which gets
      what tmp2 held last. */
  function Source(c: seq<bool>, p: nat): (q: nat)
    requires p < |c|
    ensures q < |c|
  {
    if c[p] && p != FirstMark(c) then LastMark(c) else p
  }

  predicate InPass(i: int, j: int, ii: nat, jj: nat, k: nat) {
    ii <= i < ii + 8 && (i - ii) % 4 == k && jj <= j < jj + 4
  }

  lemma LastStep(c: seq<bool>, d: nat)
    requires d < |c|
    ensures LastMark(c[..d + 1]) == if c[d] then d else LastMark(c[..d])
    ensures FirstMark(c) < d ==> 0 <= LastMark(c[..d])
    ensures c[..|c|] == c
  {
    assert c[..d + 1][..d] == c[..d] && c[..d + 1][d] == c[d];
    var f := FirstMark(c);
    MarkedBefore(c, f, d);
    hide FirstMark;
  }

  lemma MarkedBefore(c: seq<bool>, f: nat, d: nat)
    requires d <= |c|
    ensures f < d && c[f] ==> 0 <= LastMark(c[..d])
  {
    if f < d {
      assert c[..d][f] == c[f];
    }
    var l := LastMark(c[..d]);
    hide LastMark;
    assert f < d && c[f] ==> l >= f;
  }

  /** What the first half of a pass has done after d cells. */
  ghost predicate Gathered(c: seq<bool>, d: nat, set1: bool, tmp1: int, tmp2: int, v: seq<int>)
    requires |v| == |c| == 8 && d <= 8
  {
    && (set1 <==> FirstMark(c) < d)
    && (set1 ==> tmp1 == v[FirstMark(c)])
    && (set1 && LastMark(c[..d]) > FirstMark(c) ==> tmp2 == v[LastMark(c[..d])])
  }

  lemma GatheredStep(c: seq<bool>, d: nat, set1: bool, tmp1: int, tmp2: int, v: seq<int>)
    requires |v| == |c| == 8 && d < 8 && Gathered(c, d, set1, tmp1, tmp2, v)
    ensures !c[d] ==> Gathered(c, d + 1, set1, tmp1, tmp2, v)
    ensures c[d] && set1 ==> Gathered(c, d + 1, true, tmp1, v[d], v)
    ensures c[d] && !set1 ==> Gathered(c, d + 1, true, v[d], tmp2, v)
  {
    LastStep(c, d);
    hide LastMark;
  }

  /** The values of the eight cells of a pass, read from A. */
  ghost function Values(a: array2<int>, ii: nat, jj: nat, k: nat): (v: seq<int>)
    requires ii + 8 <= a.Length0 && jj + 4 <= a.Length1 && k < 4
    reads a
    ensures |v| == 8
  {
    seq(8, p requires 0 <= p < 8 && ii + 8 <= a.Length0 && jj + 4 <= a.Length1 && k < 4 reads a => a[CellRow(ii, k, p), CellCol(jj, p)])
  }

  /** The values of the same cells in B. */
  ghost function Cells(b: array2<int>, ii: nat, jj: nat, k: nat): (v: seq<int>)
    requires ii + 8 <= b.Length1 && jj + 4 <= b.Length0 && k < 4
    reads b
    ensures |v| == 8
  {
    seq(8, p requires 0 <= p < 8 && ii + 8 <= b.Length1 && jj + 4 <= b.Length0 && k < 4 reads b => b[CellCol(jj, p), CellRow(ii, k, p)])
  }

  // B[j][i] = x
  method PutCell(b: array2<int>, ii: nat, jj: nat, k: nat, ghost d: nat, i: nat, j: nat, x: int)
    requires ii + 8 <= b.Length1 && jj + 4 <= b.Length0 && k < 4 && d < 8 && i == CellRow(ii, k, d) && j == CellCol(jj, d)
    modifies b
    ensures Cells(b, ii, jj, k) == old(Cells(b, ii, jj, k))[d := x]
    ensures forall p, q :: 0 <= p < b.Length1 && 0 <= q < b.Length0 && !InPass(p, q, ii, jj, k) ==> b[q, p] == old(b[q, p])
  {
    b[j, i] := x;
    hide CellRow, CellCol, InPass;
    forall p | 0 <= p < 8 ensures Cells(b, ii, jj, k)[p] == old(Cells(b, ii, jj, k))[d := x][p] {
      CellsApart(ii, jj, k, p, d);
    }
    CellInPass(ii, jj, k, d);
  }

  lemma CellsApart(ii: nat, jj: nat, k: nat, p: nat, d: nat)
    requires k < 4 && p < 8 && d < 8
    ensures CellRow(ii, k, p) == CellRow(ii, k, d) && CellCol(jj, p) == CellCol(jj, d) <==> p == d
    ensures CellRow(ii, k, p) < ii + 8 && CellCol(jj, p) < jj + 4
  {
  }

  lemma CellInPass(ii: nat, jj: nat, k: nat, d: nat)
    requires k < 4 && d < 8
    ensures InPass(CellRow(ii, k, d), CellCol(jj, d), ii, jj, k)
  {
  }

  // the first half of a pass of trans_64
  method Gather(m: nat, n: nat, a: array2<int>, b: array2<int>, baseA: nat, baseB: nat, ii: nat, jj: nat, k: nat)
    returns (set1: bool, tmp1: int, tmp2: int)
    requires Shapes(a, b, m, n) && ii + 8 <= n && jj + 4 <= m && k < 4
    modifies b
    ensures Gathered(Marks(baseA, baseB, m, n, ii, jj, k), 8, set1, tmp1, tmp2, Values(a, ii, jj, k))
    ensures forall p :: 0 <= p < 8 && !Marks(baseA, baseB, m, n, ii, jj, k)[p]
              ==> Cells(b, ii, jj, k)[p] == Values(a, ii, jj, k)[p]
    ensures forall i, j :: 0 <= i < n && 0 <= j < m && !InPass(i, j, ii, jj, k) ==> b[j, i] == old(b[j, i])
  {
    hide SetIdx, FirstMark, LastMark, Gathered, Marks, Values, Cells, InPass, CellRow, CellCol;
    ghost var c, v := Marks(baseA, baseB, m, n, ii, jj, k), Values(a, ii, jj, k);
    set1, tmp1, tmp2 := false, 0, 0;
    assert Gathered(c, 0, set1, tmp1, tmp2, v) by {
      GatheredNone(c, tmp1, tmp2, v);
    }
    var i := ii + k;
    ghost var r := 0;
    while i < ii + 8
      invariant r <= 2 && i == ii + k + 4 * r && Gathered(c, 4 * r, set1, tmp1, tmp2, v)
      invariant forall p :: 0 <= p < 4 * r && !c[p] ==> Cells(b, ii, jj, k)[p] == v[p]
      invariant forall p, q :: 0 <= p < n && 0 <= q < m && !InPass(p, q, ii, jj, k) ==> b[q, p] == old(b[q, p])
    {
      var j := jj;
      while j < jj + 4
        invariant jj <= j <= jj + 4 && Gathered(c, 4 * r + j - jj, set1, tmp1, tmp2, v)
        invariant forall p :: 0 <= p < 4 * r + j - jj && !c[p] ==> Cells(b, ii, jj, k)[p] == v[p]
        invariant forall p, q :: 0 <= p < n && 0 <= q < m && !InPass(p, q, ii, jj, k) ==> b[q, p] == old(b[q, p])
      {
        ghost var d := 4 * r + j - jj;
        MarkAt(baseA, baseB, m, n, ii, jj, k, r, j - jj);
        ValueAt(a, ii, jj, k, d);
        GatheredStep(c, d, set1, tmp1, tmp2, v);
        if SetIdx(baseA, i, j, m) != SetIdx(baseB, j, i, n) {
          PutCell(b, ii, jj, k, d, i, j, a[i, j]);
        } else if set1 {
          tmp2 := a[i, j];
        } else {
          tmp1, set1 := a[i, j], true;
        }
        j := j + 1;
      }
      i := i + 4;
      r := r + 1;
    }
  }

  lemma ValueAt(a: array2<int>, ii: nat, jj: nat, k: nat, d: nat)
    requires ii + 8 <= a.Length0 && jj + 4 <= a.Length1 && k < 4 && d < 8
    ensures CellRow(ii, k, d) < a.Length0 && CellCol(jj, d) < a.Length1
    ensures Values(a, ii, jj, k)[d] == a[CellRow(ii, k, d), CellCol(jj, d)]
  {
  }

  lemma GatheredNone(c: seq<bool>, tmp1: int, tmp2: int, v: seq<int>)
    requires |v| == |c| == 8
    ensures Gathered(c, 0, false, tmp1, tmp2, v)
  {
  }

  /** The values trans_64 leaves in the cells of a pass, from those of A. */
  function Sourced(c: seq<bool>, v: seq<int>): (w: seq<int>)
    requires |c| == |v| == 8
    ensures |w| == 8
  {
    seq(8, p requires 0 <= p < 8 => v[Source(c, p)])
  }

  /** What each cell is to get, by whether it conflicts and comes first. */
  lemma SourcesFrom(c: seq<bool>, v: seq<int>, set1: bool, tmp1: int, tmp2: int)
    requires |v| == |c| == 8 && Gathered(c, 8, set1, tmp1, tmp2, v)
    ensures set1 <==> FirstMark(c) < 8
    ensures forall p :: 0 <= p < 8 ==> Sourced(c, v)[p] == if !c[p] then v[p] else if p == FirstMark(c) then tmp1 else tmp2
    ensures forall p :: 0 <= p < 8 && c[p] ==> FirstMark(c) <= p
  {
    assert c[..8] == c;
    var f, l := FirstMark(c), LastMark(c);
    hide FirstMark, LastMark;
    forall p | 0 <= p < 8 && c[p] && p != f ensures Sourced(c, v)[p] == tmp2 {
      assert f <= p <= l;
    }
  }

  lemma MarkAt(baseA: nat, baseB: nat, m: nat, n: nat, ii: nat, jj: nat, k: nat, r: nat, t: nat)
    requires k < 4 && r < 2 && t < 4
    ensures var i, j, d := ii + k + 4 * r, jj + t, 4 * r + t;
            && CellRow(ii, k, d) == i && CellCol(jj, d) == j && InPass(i, j, ii, jj, k)
            && Marks(baseA, baseB, m, n, ii, jj, k)[d] == (SetIdx(baseA, i, j, m) == SetIdx(baseB, j, i, n))
  {
    hide SetIdx;
    ColOf(r, t);
  }

  // the second half of a pass of trans_64
  method Scatter(m: nat, n: nat, a: array2<int>, b: array2<int>, baseA: nat, baseB: nat, ii: nat, jj: nat, k: nat,
                 set0: bool, tmp1: int, tmp2: int)
    requires Shapes(a, b, m, n) && ii + 8 <= n && jj + 4 <= m && k < 4
    requires Gathered(Marks(baseA, baseB, m, n, ii, jj, k), 8, set0, tmp1, tmp2, Values(a, ii, jj, k))
    requires forall p :: 0 <= p < 8 && !Marks(baseA, baseB, m, n, ii, jj, k)[p]
               ==> Cells(b, ii, jj, k)[p] == Values(a, ii, jj, k)[p]
    modifies b
    ensures Cells(b, ii, jj, k) == Sourced(Marks(baseA, baseB, m, n, ii, jj, k), Values(a, ii, jj, k))
    ensures forall i, j :: 0 <= i < n && 0 <= j < m && !InPass(i, j, ii, jj, k) ==> b[j, i] == old(b[j, i])
  {
    hide SetIdx, FirstMark, LastMark, Gathered, Source, Sourced, Marks, Values, Cells, InPass, CellRow, CellCol;
    ghost var c, v := Marks(baseA, baseB, m, n, ii, jj, k), Values(a, ii, jj, k);
    ghost var f, w := FirstMark(c), Sourced(c, v);
    SourcesFrom(c, v, set0, tmp1, tmp2);
    var set1 := set0;
    var i := ii + k;
    ghost var r := 0;
    while i < ii + 8
      invariant r <= 2 && i == ii + k + 4 * r && (set1 <==> 4 * r <= f < 8)
      invariant forall p :: 0 <= p < 8 && (p < 4 * r || !c[p]) ==> Cells(b, ii, jj, k)[p] == w[p]
      invariant forall p, q :: 0 <= p < n && 0 <= q < m && !InPass(p, q, ii, jj, k) ==> b[q, p] == old(b[q, p])
    {
      var j := jj;
      while j < jj + 4
        invariant jj <= j <= jj + 4 && (set1 <==> 4 * r + j - jj <= f < 8)
        invariant forall p :: 0 <= p < 8 && (p < 4 * r + j - jj || !c[p]) ==> Cells(b, ii, jj, k)[p] == w[p]
        invariant forall p, q :: 0 <= p < n && 0 <= q < m && !InPass(p, q, ii, jj, k) ==> b[q, p] == old(b[q, p])
      {
        ghost var d := 4 * r + j - jj;
        MarkAt(baseA, baseB, m, n, ii, jj, k, r, j - jj);
        if SetIdx(baseA, i, j, m) == SetIdx(baseB, j, i, n) {
          if set1 {
            PutCell(b, ii, jj, k, d, i, j, tmp1);
            set1 := false;
          } else {
            PutCell(b, ii, jj, k, d, i, j, tmp2);
          }
        }
        j := j + 1;
      }
      i := i + 4;
      r := r + 1;
    }
  }

  function BlockRow(i: nat): nat { i / 8 * 8 }
  function BlockCol(j: nat): nat { j / 4 * 4 }

  /** The marks of the pass that writes B[j][i], and the place of that cell in it. */
  function MarksOf(baseA: nat, baseB: nat, m: nat, n: nat, i: nat, j: nat): (c: seq<bool>)
    ensures |c| == 8
  {
    Marks(baseA, baseB, m, n, BlockRow(i), BlockCol(j), i % 4)
  }

  function Place(i: nat, j: nat): (p: nat)
    ensures p < 8
  {
    4 * (i % 8 / 4) + j % 4
  }

  /** The element of A that trans_64 leaves in B[j][i]. */
  ghost predicate Filled(a: array2<int>, b: array2<int>, baseA: nat, baseB: nat, i: nat, j: nat)
    requires a.Length0 == b.Length1 && a.Length1 == b.Length0 && a.Length0 % 8 == 0 && a.Length1 % 4 == 0
    requires i < a.Length0 && j < a.Length1
    reads a, b
  {
    InBlock(i, a.Length0, j, a.Length1);
    var v := Values(a, BlockRow(i), BlockCol(j), i % 4);
    b[j, i] == Sourced(MarksOf(baseA, baseB, a.Length1, a.Length0, i, j), v)[Place(i, j)]
  }

  lemma RowOf(x: nat, k: nat, r: nat)
    requires k < 4 && r < 2
    ensures var i := 8 * x + k + 4 * r; i / 8 == x && i % 8 == k + 4 * r && i % 8 / 4 == r && i % 4 == k
  {
    assert 8 * x + k + 4 * r == 4 * (2 * x + r) + k;
  }

  lemma ColOf(y: nat, t: nat)
    requires t < 4
    ensures (4 * y + t) / 4 == y && (4 * y + t) % 4 == t
  {
  }

  lemma RowParts(i: nat)
    ensures i == 8 * (i / 8) + i % 4 + 4 * (i % 8 / 4) && i % 8 / 4 < 2
  {
    assert i % 4 == i % 8 % 4;
  }

  lemma InBlock(i: nat, n: nat, j: nat, m: nat)
    requires n % 8 == 0 && m % 4 == 0 && i < n && j < m
    ensures BlockRow(i) + 8 <= n && BlockCol(j) + 4 <= m
    ensures CellRow(BlockRow(i), i % 4, Place(i, j)) == i && CellCol(BlockCol(j), Place(i, j)) == j
  {
    hide CellRow, CellCol, Place;
    Room8(i, n);
    Room4(j, m);
    AtPlace(i, j);
  }

  lemma PlaceParts(i: nat, j: nat)
    ensures Place(i, j) / 4 == i % 8 / 4 && Place(i, j) % 4 == j % 4
  {
    ColOf(i % 8 / 4, j % 4);
  }

  lemma AtPlace(i: nat, j: nat)
    ensures CellRow(BlockRow(i), i % 4, Place(i, j)) == i && CellCol(BlockCol(j), Place(i, j)) == j
  {
    PlaceParts(i, j);
    hide Place;
    RowParts(i);
  }

  lemma Room8(i: nat, n: nat)
    requires n % 8 == 0 && i < n
    ensures BlockRow(i) + 8 <= n
  {
  }

  lemma Room4(j: nat, m: nat)
    requires m % 4 == 0 && j < m
    ensures BlockCol(j) + 4 <= m
  {
  }

  predicate Done(i: int, j: int, ii: int, jj: int, k: int) {
    Before(i, j, ii, jj, 4) || (ii <= i < ii + 8 && jj <= j < jj + 4 && i % 4 < k)
  }

  lemma OfPass(i: nat, j: nat, ii: nat, jj: nat, k: nat)
    requires ii % 8 == 0 && jj % 4 == 0 && k < 4 && ii <= i < ii + 8 && jj <= j < jj + 4
    ensures InPass(i, j, ii, jj, k) <==> i % 4 == k
    ensures BlockRow(i) == ii && BlockCol(j) == jj
  {
    Offset(ii / 8, i - ii);
    ColOf(jj / 4, j - jj);
  }

  lemma Offset(x: nat, d: nat)
    requires d < 8
    ensures (8 * x + d) / 8 == x && (8 * x + d) % 4 == d % 4
  {
    ColOf(2 * x + d / 4, d % 4);
    EightOf(x, d);
  }

  lemma EightOf(x: nat, d: nat)
    requires d < 8
    ensures (8 * x + d) / 8 == x
  {
  }

  // one turn of the k loop of trans_64
  method Pass(m: nat, n: nat, a: array2<int>, b: array2<int>, baseA: nat, baseB: nat, ii: nat, jj: nat, k: nat)
    requires Shapes(a, b, m, n) && n % 8 == 0 && m % 4 == 0
    requires ii + 8 <= n && jj + 4 <= m && k < 4 && ii % 8 == 0 && jj % 4 == 0
    requires forall i, j :: 0 <= i < n && 0 <= j < m && Done(i, j, ii, jj, k) ==> Filled(a, b, baseA, baseB, i, j)
    modifies b
    ensures forall i, j :: 0 <= i < n && 0 <= j < m && Done(i, j, ii, jj, k + 1) ==> Filled(a, b, baseA, baseB, i, j)
  {
    hide Conflict, Sourced, Marks, Values, Gathered;
    var set1, tmp1, tmp2 := Gather(m, n, a, b, baseA, baseB, ii, jj, k);
    Scatter(m, n, a, b, baseA, baseB, ii, jj, k, set1, tmp1, tmp2);
    forall i, j | 0 <= i < n && 0 <= j < m && Done(i, j, ii, jj, k + 1) ensures Filled(a, b, baseA, baseB, i, j) {
      InBlock(i, n, j, m);
      if ii <= i < ii + 8 && jj <= j < jj + 4 {
        OfPass(i, j, ii, jj, k);
      }
      if InPass(i, j, ii, jj, k) {
        var p := Place(i, j);
        assert Cells(b, ii, jj, k)[p] == b[j, i];
      } else {
        assert old(Filled(a, b, baseA, baseB, i, j));
      }
    }
  }

  // trans_64
  method Trans64(m: nat, n: nat, a: array2<int>, b: array2<int>, baseA: nat, baseB: nat)
    requires Shapes(a, b, m, n) && n % 8 == 0 && m % 4 == 0
    modifies b
    ensures forall i, j :: 0 <= i < n && 0 <= j < m ==> Filled(a, b, baseA, baseB, i, j)
  {
    hide Filled;
    var jj := 0;
    while jj < m
      invariant 0 <= jj <= m && jj % 4 == 0
      invariant forall i, j :: 0 <= i < n && 0 <= j < m && j < jj ==> Filled(a, b, baseA, baseB, i, j)
    {
      var ii := 0;
      while ii < n
        invariant 0 <= ii <= n && ii % 8 == 0
        invariant forall i, j :: 0 <= i < n && 0 <= j < m && Before(i, j, ii, jj, 4) ==> Filled(a, b, baseA, baseB, i, j)
      {
        var k := 0;
        while k < 4
          invariant k <= 4
          invariant forall i, j :: 0 <= i < n && 0 <= j < m && Done(i, j, ii, jj, k) ==> Filled(a, b, baseA, baseB, i, j)
        {
          Pass(m, n, a, b, baseA, baseB, ii, jj, k);
          k := k + 1;
        }
        ii := ii + 8;
      }
      jj := jj + 4;
    }
  }

  /** Every pass's conflicting cells after the first hold one value. */
  ghost predicate LateConflictsAgree(a: array2<int>, baseA: nat, baseB: nat)
    requires a.Length0 % 8 == 0 && a.Length1 % 4 == 0
    reads a
  {
    forall i: nat, j: nat, p: nat, q: nat ::
      i < a.Length0 && j < a.Length1 && i % 8 == 0 && j % 4 == 0 && p < 4 && q < 8 ==> AgreesAt(a, baseA, baseB, i, j, p, q)
  }

  ghost predicate AgreesAt(a: array2<int>, baseA: nat, baseB: nat, ii: nat, jj: nat, k: nat, p: nat)
    requires a.Length0 % 8 == 0 && a.Length1 % 4 == 0
    requires ii < a.Length0 && jj < a.Length1 && ii % 8 == 0 && jj % 4 == 0 && k < 4 && p < 8
    reads a
  {
    var c, v := Marks(baseA, baseB, a.Length1, a.Length0, ii, jj, k), Values(a, ii, jj, k);
    c[p] && p != FirstMark(c) ==> v[p] == v[LastMark(c)]
  }

  lemma FilledRight(a: array2<int>, b: array2<int>, baseA: nat, baseB: nat, i: nat, j: nat)
    requires a.Length0 == b.Length1 && a.Length1 == b.Length0 && a.Length0 % 8 == 0 && a.Length1 % 4 == 0
    requires i < a.Length0 && j < a.Length1 && Filled(a, b, baseA, baseB, i, j)
    ensures BlockRow(i) < a.Length0 && BlockCol(j) < a.Length1 && BlockRow(i) % 8 == 0 && BlockCol(j) % 4 == 0 && i % 4 < 4
    ensures b[j, i] == a[i, j] <==> AgreesAt(a, baseA, baseB, BlockRow(i), BlockCol(j), i % 4, Place(i, j))
  {
    InBlock(i, a.Length0, j, a.Length1);
    RowOf(i / 8, 0, 0);
    ColOf(j / 4, 0);
    hide Conflict, FirstMark, LastMark, Place, Marks, CellRow, CellCol;
    var v := Values(a, BlockRow(i), BlockCol(j), i % 4);
    assert v[Place(i, j)] == a[i, j];
  }

  lemma CellOf(ii: nat, jj: nat, k: nat, p: nat)
    requires ii % 8 == 0 && jj % 4 == 0 && k < 4 && p < 8
    ensures var i, j := CellRow(ii, k, p), CellCol(jj, p);
            BlockRow(i) == ii && BlockCol(j) == jj && i % 4 == k && Place(i, j) == p && i < ii + 8 && j < jj + 4
  {
    RowOf(ii / 8, k, p / 4);
    ColOf(jj / 4, p % 4);
  }

  /** What trans_64 leaves is the transpose exactly when the conflicting cells of every pass agree from the second on. */
  lemma Trans64Exactly(a: array2<int>, b: array2<int>, baseA: nat, baseB: nat)
    requires a.Length0 == b.Length1 && a.Length1 == b.Length0 && a.Length0 % 8 == 0 && a.Length1 % 4 == 0
    requires forall i, j :: 0 <= i < a.Length0 && 0 <= j < a.Length1 ==> Filled(a, b, baseA, baseB, i, j)
    ensures IsTranspose(a, b) <==> LateConflictsAgree(a, baseA, baseB)
  {
    hide AgreesAt, Filled, CellRow, CellCol, Place;
    if LateConflictsAgree(a, baseA, baseB) {
      forall i, j | 0 <= i < a.Length0 && 0 <= j < a.Length1 ensures b[j, i] == a[i, j] {
        FilledRight(a, b, baseA, baseB, i, j);
        assert AgreesAt(a, baseA, baseB, BlockRow(i), BlockCol(j), i % 4, Place(i, j));
      }
    }
    if IsTranspose(a, b) {
      forall ii: nat, jj: nat, k: nat, p: nat
        | ii < a.Length0 && jj < a.Length1 && ii % 8 == 0 && jj % 4 == 0 && k < 4 && p < 8
        ensures AgreesAt(a, baseA, baseB, ii, jj, k, p)
      {
        CellOf(ii, jj, k, p);
        FilledRight(a, b, baseA, baseB, CellRow(ii, k, p), CellCol(jj, p));
      }
    }
  }

  ghost predicate AtMostTwo(c: seq<bool>) {
    forall p, q, r :: 0 <= p < q < r < |c| ==> !(c[p] && c[q] && c[r])
  }

  /** No pass trans_64 makes over matrices of this shape at these addresses meets more than two conflicts. */
  ghost predicate FewConflicts(m: nat, n: nat, baseA: nat, baseB: nat) {
    forall ii: nat, jj: nat, k: nat ::
      ii < n && jj < m && ii % 8 == 0 && jj % 4 == 0 && k < 4 ==> AtMostTwo(Marks(baseA, baseB, m, n, ii, jj, k))
  }

  /** Two conflicts a pass are always harmless. */
  lemma TwoConflictsAgree(a: array2<int>, baseA: nat, baseB: nat)
    requires a.Length0 % 8 == 0 && a.Length1 % 4 == 0 && FewConflicts(a.Length1, a.Length0, baseA, baseB)
    ensures LateConflictsAgree(a, baseA, baseB)
  {
    forall ii: nat, jj: nat, k: nat, p: nat
      | ii < a.Length0 && jj < a.Length1 && ii % 8 == 0 && jj % 4 == 0 && k < 4 && p < 8
      ensures AgreesAt(a, baseA, baseB, ii, jj, k, p)
    {
      var c := Marks(baseA, baseB, a.Length1, a.Length0, ii, jj, k);
      assert AtMostTwo(c);
      hide Marks, FirstMark, LastMark;
      TwoLate(c, p);
    }
  }

  lemma TwoLate(c: seq<bool>, p: nat)
    requires AtMostTwo(c) && p < |c|
    ensures c[p] && p != FirstMark(c) ==> p == LastMark(c)
  {
    var f, l := FirstMark(c), LastMark(c);
    hide FirstMark, LastMark;
    if f < p < l {
      NoThird(c, f, p, l);
    }
  }

  lemma NoThird(c: seq<bool>, f: nat, p: nat, l: nat)
    requires AtMostTwo(c) && f < p < l < |c| && c[f] && c[l]
    ensures !c[p]
  {
  }

  // ---------------------------------------------------------------- for which shapes and addresses

  /** What a matrix holds. */
  type Content = (nat, nat) -> int

  ghost predicate HoldsContent(a: array2<int>, f: Content)
    reads a
  {
    forall i: nat, j: nat :: i < a.Length0 && j < a.Length1 ==> a[i, j] == f(i, j)
  }

  function ContentValues(f: Content, ii: nat, jj: nat, k: nat): (v: seq<int>)
    ensures |v| == 8
  {
    seq(8, p requires 0 <= p < 8 => f(CellRow(ii, k, p), CellCol(jj, p)))
  }

  ghost predicate ContentAgreesAt(f: Content, c: seq<bool>, ii: nat, jj: nat, k: nat, p: nat)
    requires |c| == 8 && p < 8
  {
    c[p] && p != FirstMark(c) ==> ContentValues(f, ii, jj, k)[p] == ContentValues(f, ii, jj, k)[LastMark(c)]
  }

  /** trans_64 transposes a matrix of this shape with this content at these addresses. */
  ghost predicate Transposed(f: Content, m: nat, n: nat, baseA: nat, baseB: nat) {
    forall ii: nat, jj: nat, k: nat, p: nat ::
      ii < n && jj < m && ii % 8 == 0 && jj % 4 == 0 && k < 4 && p < 8 ==>
        ContentAgreesAt(f, Marks(baseA, baseB, m, n, ii, jj, k), ii, jj, k, p)
  }

  lemma SameValues(a: array2<int>, f: Content, ii: nat, jj: nat, k: nat)
    requires HoldsContent(a, f) && ii + 8 <= a.Length0 && jj + 4 <= a.Length1 && k < 4
    ensures Values(a, ii, jj, k) == ContentValues(f, ii, jj, k)
  {
    hide CellRow, CellCol;
    forall p | 0 <= p < 8 ensures Values(a, ii, jj, k)[p] == ContentValues(f, ii, jj, k)[p] {
      CellsApart(ii, jj, k, p, p);
    }
  }

  lemma Room84(ii: nat, jj: nat, n: nat, m: nat)
    requires ii < n && jj < m && n % 8 == 0 && m % 4 == 0 && ii % 8 == 0 && jj % 4 == 0
    ensures ii + 8 <= n && jj + 4 <= m
  {
  }

  /** Transposed says what trans_64 does with an array of that content. */
  lemma Trans64Content(a: array2<int>, b: array2<int>, f: Content, baseA: nat, baseB: nat)
    requires a.Length0 == b.Length1 && a.Length1 == b.Length0 && a.Length0 % 8 == 0 && a.Length1 % 4 == 0
    requires forall i, j :: 0 <= i < a.Length0 && 0 <= j < a.Length1 ==> Filled(a, b, baseA, baseB, i, j)
    requires HoldsContent(a, f)
    ensures IsTranspose(a, b) <==> Transposed(f, a.Length1, a.Length0, baseA, baseB)
  {
    Trans64Exactly(a, b, baseA, baseB);
    forall ii: nat, jj: nat, k: nat, p: nat
      | ii < a.Length0 && jj < a.Length1 && ii % 8 == 0 && jj % 4 == 0 && k < 4 && p < 8
      ensures AgreesAt(a, baseA, baseB, ii, jj, k, p)
              <==> ContentAgreesAt(f, Marks(baseA, baseB, a.Length1, a.Length0, ii, jj, k), ii, jj, k, p)
    {
      Room84(ii, jj, a.Length0, a.Length1);
      hide Values, ContentValues, Marks, FirstMark, LastMark, HoldsContent;
      SameValues(a, f, ii, jj, k);
    }
    hide AgreesAt, ContentAgreesAt, IsTranspose, Filled, Marks;
  }

  /** trans_64 transposes every matrix of a shape at given addresses exactly when no pass meets three conflicts. */
  lemma TransposesAllExactly(m: nat, n: nat, baseA: nat, baseB: nat)
    ensures (forall f: Content :: Transposed(f, m, n, baseA, baseB)) <==> FewConflicts(m, n, baseA, baseB)
  {
    hide Marks, FirstMark, LastMark, ContentValues;
    if FewConflicts(m, n, baseA, baseB) {
      forall f: Content ensures Transposed(f, m, n, baseA, baseB) {
        forall ii: nat, jj: nat, k: nat, p: nat | ii < n && jj < m && ii % 8 == 0 && jj % 4 == 0 && k < 4 && p < 8
          ensures ContentAgreesAt(f, Marks(baseA, baseB, m, n, ii, jj, k), ii, jj, k, p)
        {
          TwoLate(Marks(baseA, baseB, m, n, ii, jj, k), p);
        }
      }
    } else {
      var ii: nat, jj: nat, k: nat :| ii < n && jj < m && ii % 8 == 0 && jj % 4 == 0 && k < 4
                                      && !AtMostTwo(Marks(baseA, baseB, m, n, ii, jj, k));
      var c := Marks(baseA, baseB, m, n, ii, jj, k);
      var p, q, r :| 0 <= p < q < r < |c| && c[p] && c[q] && c[r];
      var f := OneAt(CellRow(ii, k, LastMark(c)), CellCol(jj, LastMark(c)));
      ThreeMarks(c, p, q, r);
      CellsApart(ii, jj, k, q, LastMark(c));
      ValuesOfOne(ii, jj, k, q, LastMark(c));
      assert !ContentAgreesAt(f, c, ii, jj, k, q);
      assert !Transposed(f, m, n, baseA, baseB);
    }
  }

  /** A matrix with a single one in it. */
  function OneAt(i: nat, j: nat): Content {
    (x: nat, y: nat) => if x == i && y == j then 1 else 0
  }

  lemma ThreeMarks(c: seq<bool>, p: nat, q: nat, r: nat)
    requires p < q < r < |c| && c[p] && c[q] && c[r]
    ensures 0 <= FirstMark(c) < q < LastMark(c) && c[q]
  {
  }

  lemma ValuesOfOne(ii: nat, jj: nat, k: nat, q: nat, l: nat)
    requires k < 4 && q < 8 && l < 8 && q != l
    ensures var v := ContentValues(OneAt(CellRow(ii, k, l), CellCol(jj, l)), ii, jj, k); v[q] == 0 && v[l] == 1
  {
    CellsApart(ii, jj, k, q, l);
  }

  // ---------------------------------------------------------------- a shape on which it fails

  /** In 256 by 256 matrices that start a cache apart, all eight cells of the first pass conflict. */
  lemma AllConflict256(baseA: nat, baseB: nat, p: nat)
    requires baseA % 1024 == 0 && baseB % 1024 == 0 && p < 8
    ensures Marks(baseA, baseB, 256, 256, 0, 0, 0)[p]
  {
    var i, j := CellRow(0, 0, p), CellCol(0, p);
    assert i in {0, 4} && j < 4;
    InFirstSet(baseA, i, j);
    InFirstSet(baseB, j, i);
  }

  lemma InFirstSet(base: nat, i: nat, j: nat)
    requires base % 1024 == 0 && j <= 4
    ensures SetIdx(base, i, j, 256) == 0
  {
    assert base + 4 * (i * 256 + j) == 1024 * (base / 1024 + i) + 4 * j;
    DivUnique(base + 4 * (i * 256 + j), 1024, base / 1024 + i, 4 * j);
  }

  /** There trans_64 leaves a[4][3] where a[0][1] belongs, so it fails on every matrix in which they differ. */
  lemma Fails256(a: array2<int>, b: array2<int>, baseA: nat, baseB: nat)
    requires a.Length0 == a.Length1 == b.Length0 == b.Length1 == 256 && baseA % 1024 == 0 && baseB % 1024 == 0
    requires forall i, j :: 0 <= i < 256 && 0 <= j < 256 ==> Filled(a, b, baseA, baseB, i, j)
    ensures b[1, 0] == a[4, 3] && !FewConflicts(256, 256, baseA, baseB)
    ensures a[0, 1] != a[4, 3] ==> !IsTranspose(a, b)
  {
    var c := Marks(baseA, baseB, 256, 256, 0, 0, 0);
    forall p | 0 <= p < 8 ensures c[p] {
      AllConflict256(baseA, baseB, p);
    }
    hide Marks, Conflict, FewConflicts;
    AllMarked(c);
    assert c[0] && c[1] && c[2];
    TooMany(256, 256, baseA, baseB);
    assert Filled(a, b, baseA, baseB, 0, 1);
    LateTakesLast(a, b, baseA, baseB);
  }

  lemma TooMany(m: nat, n: nat, baseA: nat, baseB: nat)
    requires m > 0 && n > 0 && !AtMostTwo(Marks(baseA, baseB, m, n, 0, 0, 0))
    ensures !FewConflicts(m, n, baseA, baseB)
  {
    hide AtMostTwo, Marks;
  }

  lemma LateTakesLast(a: array2<int>, b: array2<int>, baseA: nat, baseB: nat)
    requires a.Length0 == a.Length1 == b.Length0 == b.Length1 == 256 && Filled(a, b, baseA, baseB, 0, 1)
    requires var c := Marks(baseA, baseB, 256, 256, 0, 0, 0); c[1] && FirstMark(c) == 0 && LastMark(c) == 7
    ensures b[1, 0] == a[4, 3]
  {
    hide Marks, FirstMark, LastMark, Values;
    assert Place(0, 1) == 1 && BlockRow(0) == 0 && BlockCol(1) == 0;
    ValueAt(a, 0, 0, 0, 7);
    assert CellRow(0, 0, 7) == 4 && CellCol(0, 7) == 3;
  }

  lemma AllMarked(c: seq<bool>)
    requires |c| == 8 && forall p :: 0 <= p < 8 ==> c[p]
    ensures FirstMark(c) == 0 && LastMark(c) == 7
  {
  }

  // ---------------------------------------------------------------- the 64 by 64 case

  /** With block-aligned matrices at the same offset in the cache, elements conflict only on the diagonals of the
      8 by 4 blocks. */
  lemma Conflict64(baseA: nat, baseB: nat, i: nat, j: nat)
    requires baseA % 32 == 0 && baseB % 32 == 0 && baseA % 1024 == baseB % 1024 && i < 64 && j < 64
    ensures Conflict(baseA, baseB, i, j, 64, 64) ==> i / 8 == j / 8 && i % 4 == j % 4
  {
    var x := baseA % 1024 / 32;
    SetIdx64(baseA, x, i, j);
    SetIdx64(baseB, x, j, i);
    Diagonal(x, i, j, i / 8, j / 8);
  }

  lemma Apart32(u: int, v: int) returns (t: int)
    requires u % 32 == v % 32
    ensures u - v == 32 * t
  {
    t := u / 32 - v / 32;
  }

  lemma Diagonal(x: int, i: int, j: int, p: int, q: int)
    requires 0 <= p < 8 && 0 <= q < 8
    ensures (x + 8 * i + q) % 32 == (x + 8 * j + p) % 32 ==> p == q && i % 4 == j % 4
  {
    if (x + 8 * i + q) % 32 == (x + 8 * j + p) % 32 {
      var t := Apart32(x + 8 * i + q, x + 8 * j + p);
      assert q - p == 8 * (4 * t - (i - j));
      assert i == j + 4 * t;
    }
  }

  lemma SetIdx64(base: nat, x: int, i: nat, j: nat)
    requires base % 1024 == 32 * x && 0 <= x < 32 && i < 64 && j < 64
    ensures SetIdx(base, i, j, 64) == (x + 8 * i + j / 8) % 32
  {
    var y := x + 8 * i + j / 8;
    assert base + 4 * (i * 64 + j) == 1024 * (base / 1024) + 32 * y + 4 * (j % 8);
    Scaled(base / 1024, y, 4 * (j % 8));
  }

  lemma Scaled(q: int, y: int, r: int)
    requires 0 <= r < 32
    ensures (1024 * q + 32 * y + r) % 1024 / 32 == y % 32
  {
    var t := y / 32;
    assert 1024 * q + 32 * y + r == 1024 * (q + t) + (32 * (y % 32) + r);
    DivUnique(1024 * q + 32 * y + r, 1024, q + t, 32 * (y % 32) + r);
    DivUnique(32 * (y % 32) + r, 32, y % 32, r);
  }

  /** So each pass of trans_64 meets at most two conflicts, whatever the matrix holds. */
  lemma Agrees64(a: array2<int>, baseA: nat, baseB: nat)
    requires a.Length0 == 64 && a.Length1 == 64
    requires baseA % 32 == 0 && baseB % 32 == 0 && baseA % 1024 == baseB % 1024
    ensures FewConflicts(64, 64, baseA, baseB) && LateConflictsAgree(a, baseA, baseB)
  {
    forall ii: nat, jj: nat, k: nat | ii < 64 && jj < 64 && ii % 8 == 0 && jj % 4 == 0 && k < 4
      ensures AtMostTwo(Marks(baseA, baseB, 64, 64, ii, jj, k))
    {
      MarksOfPass64(baseA, baseB, ii, jj, k);
      var c := Marks(baseA, baseB, 64, 64, ii, jj, k);
      hide Marks;
      OneColumn(c, k);
    }
    TwoConflictsAgree(a, baseA, baseB);
  }

  /** A pass of the 64 by 64 case meets conflicts in one column at most. */
  lemma MarksOfPass64(baseA: nat, baseB: nat, ii: nat, jj: nat, k: nat)
    requires baseA % 32 == 0 && baseB % 32 == 0 && baseA % 1024 == baseB % 1024
    requires ii < 64 && jj < 64 && ii % 8 == 0 && jj % 4 == 0 && k < 4
    ensures forall q :: 0 <= q < 8 && Marks(baseA, baseB, 64, 64, ii, jj, k)[q] ==> q % 4 == k
  {
    hide Conflict;
    forall q | 0 <= q < 8 && Marks(baseA, baseB, 64, 64, ii, jj, k)[q] ensures q % 4 == k {
      CellOf(ii, jj, k, q);
      var i, j := CellRow(ii, k, q), CellCol(jj, q);
      assert Conflict(baseA, baseB, i, j, 64, 64);
      hide CellRow, CellCol, Place;
      Within64(i, ii);
      Within64(j, jj);
      Conflict64(baseA, baseB, i, j);
      ColOf(jj / 4, q % 4);
      assert j == jj + q % 4 by {
        CellColumn(jj, q);
      }
    }
  }

  lemma CellColumn(jj: nat, q: nat)
    ensures CellCol(jj, q) == jj + q % 4
  {
  }

  lemma Within64(i: nat, ii: nat)
    requires ii < 64 && (ii % 8 == 0 || ii % 4 == 0)
    ensures ii % 8 == 0 && i < ii + 8 ==> i < 64
    ensures ii % 4 == 0 && i < ii + 4 ==> i < 64
  {
  }

  lemma OneColumn(c: seq<bool>, k: nat)
    requires |c| == 8 && k < 4 && forall q :: 0 <= q < 8 && c[q] ==> q % 4 == k
    ensures AtMostTwo(c)
  {
  }

  // trans_opt
  method TransOpt(m: nat, n: nat, a: array2<int>, b: array2<int>, baseA: nat, baseB: nat)
    requires Shapes(a, b, m, n)
    requires n % 8 == 0 ==> if n == 32 then m % 8 == 0 else m % 4 == 0
    modifies b
    ensures IsTranspose(a, b) <==> n % 8 != 0 || n == 32 || LateConflictsAgree(a, baseA, baseB)
    ensures n % 8 != 0 || n == 32 || FewConflicts(m, n, baseA, baseB) ==> IsTranspose(a, b)
  {
    if n % 8 != 0 {
      TransOdds(8, m, n, a, b);
    } else if n == 32 {
      Trans32(8, m, n, a, b, baseA, baseB);
    } else {
      Trans64(m, n, a, b, baseA, baseB);
      Trans64Exactly(a, b, baseA, baseB);
      if FewConflicts(m, n, baseA, baseB) {
        TwoConflictsAgree(a, baseA, baseB);
      }
    }
  }
}
