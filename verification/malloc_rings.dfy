/** Circular doubly linked lists threaded through memory words: word x of a node holds `next`,
    word x + 1 holds `prev`. A ring is the sequence of its nodes, the list head first. */
module Rings {
  import opened MallocSizes

  type Memory = seq<Word>

  function NextOf(ring: seq<int>, k: int): int
    requires 0 <= k < |ring|
  {
    if k + 1 < |ring| then ring[k + 1] else ring[0]
  }

  function PrevOf(ring: seq<int>, k: int): int
    requires 0 <= k < |ring|
  {
    if k > 0 then ring[k - 1] else ring[|ring| - 1]
  }

  /** Nodes are even word indices inside memory, so the links of two nodes never overlap. */
  ghost predicate Nodes(m: Memory, ring: seq<int>) {
    && |ring| > 0
    && (forall k :: 0 <= k < |ring| ==> 0 < ring[k] && ring[k] + 1 < |m| && ring[k] % 2 == 0)
    && (forall j, k :: 0 <= j < k < |ring| ==> ring[j] != ring[k])
  }

  ghost predicate LinkOk(m: Memory, ring: seq<int>, k: int)
    requires 0 <= k < |ring| && 0 <= ring[k] && ring[k] + 1 < |m|
  {
    m[ring[k]] == NextOf(ring, k) && m[ring[k] + 1] == PrevOf(ring, k)
  }

  ghost predicate Ring(m: Memory, ring: seq<int>) {
    && Nodes(m, ring)
    && (forall k :: 0 <= k < |ring| ==> LinkOk(m, ring, k))
  }

  function Inserted(ring: seq<int>, node: int): seq<int>
    requires |ring| > 0
  {
    [ring[0], node] + ring[1..]
  }

  function Removed(ring: seq<int>, k: int): seq<int>
    requires 0 < k < |ring|
  {
    ring[..k] + ring[k + 1..]
  }

  // The four stores of free_list_insert, in order.
  function InsertLinks(m: Memory, head: int, node: int): (m': Memory)
    requires 0 <= head < |m| && 0 <= node && node + 1 < |m| && head < 0x1_0000_0000 && node < 0x1_0000_0000
    requires m[head] < |m| - 1 && node != head && node + 1 != head
    ensures |m'| == |m|
  {
    m[node := m[head]][node + 1 := head][m[head] as int + 1 := node][head := node]
  }

  // The two stores of free_list_remove, in order.
  function RemoveLinks(m: Memory, node: int): (m': Memory)
    requires 0 <= node && node + 1 < |m| && m[node] < |m| - 1 && m[node + 1] < |m|
    ensures |m'| == |m|
  {
    m[m[node] as int + 1 := m[node + 1]][m[node + 1] := m[node]]
  }

  ghost predicate SameLinks(m: Memory, m': Memory, ring: seq<int>)
    requires Nodes(m, ring)
  {
    && |m'| == |m|
    && (forall k :: 0 <= k < |ring| ==> m'[ring[k]] == m[ring[k]] && m'[ring[k] + 1] == m[ring[k] + 1])
  }

  lemma RingFrame(m: Memory, m': Memory, ring: seq<int>)
    requires Ring(m, ring) && SameLinks(m, m', ring)
    ensures Ring(m', ring)
  {
    forall k | 0 <= k < |ring| ensures LinkOk(m', ring, k) {
      assert LinkOk(m, ring, k);
    }
  }

  lemma InsertNodes(m: Memory, ring: seq<int>, node: int)
    requires Nodes(m, ring)
    requires 0 < node && node % 2 == 0 && node + 1 < |m| && node !in ring
    ensures Nodes(m, Inserted(ring, node))
  {
    var r := Inserted(ring, node);
    assert forall k :: 2 <= k < |r| ==> r[k] == ring[k - 1];
  }

  /** free_list_insert puts the node right after the head and keeps everything else in order. */
  lemma InsertRing(m: Memory, ring: seq<int>, node: int)
    requires Ring(m, ring) && |m| < 0x1_0000_0000
    requires 0 < node && node % 2 == 0 && node + 1 < |m| && node !in ring
    ensures m[ring[0]] < |m| - 1 && node + 1 != ring[0]
    ensures Ring(InsertLinks(m, ring[0], node), Inserted(ring, node))
  {
    assert LinkOk(m, ring, 0);
    InsertNodes(m, ring, node);
    var m' := InsertLinks(m, ring[0], node);
    var r := Inserted(ring, node);
    forall k | 0 <= k < |r| ensures LinkOk(m', r, k) {
      InsertLinkOk(m, ring, node, k);
    }
  }

  lemma InsertLinkOk(m: Memory, ring: seq<int>, node: int, k: int)
    requires Nodes(m, ring) && |m| < 0x1_0000_0000 && Nodes(m, Inserted(ring, node))
    requires LinkOk(m, ring, 0) && 0 <= k <= |ring| && (k >= 2 ==> LinkOk(m, ring, k - 1))
    ensures m[ring[0]] < |m| - 1 && node < |m| - 1 && 0 <= node && node != ring[0] && node + 1 != ring[0]
    ensures LinkOk(InsertLinks(m, ring[0], node), Inserted(ring, node), k)
  {
    var r := Inserted(ring, node);
    assert r[0] == ring[0] && r[1] == node;
    if k >= 2 {
      assert r[k] == ring[k - 1];
      assert k + 1 < |r| ==> r[k + 1] == ring[k];
    }
    if |ring| > 1 { assert r[2] == ring[1]; }
  }

  lemma RemoveNodes(m: Memory, ring: seq<int>, k: int)
    requires Nodes(m, ring) && 0 < k < |ring|
    ensures Nodes(m, Removed(ring, k))
  {
    var r := Removed(ring, k);
    assert forall i :: 0 <= i < |r| ==> r[i] == ring[if i < k then i else i + 1];
  }

  lemma RemovedAt(ring: seq<int>, k: int, i: int)
    requires 0 < k < |ring| && 0 <= i < |ring| - 1
    ensures |Removed(ring, k)| == |ring| - 1 && Removed(ring, k)[i] == ring[if i < k then i else i + 1]
  {
  }

  lemma RemoveNextOk(m: Memory, ring: seq<int>, k: int, i: int)
    requires Nodes(m, ring) && 0 < k < |ring| && LinkOk(m, ring, k)
    requires 0 <= i < |ring| - 1 && LinkOk(m, ring, if i < k then i else i + 1)
    ensures m[ring[k]] < |m| - 1 && m[ring[k] + 1] < |m|
    ensures RemoveLinks(m, ring[k])[Removed(ring, k)[i]] == NextOf(Removed(ring, k), i)
  {
    hide Removed;
    RemovedAt(ring, k, i);
    RemovedAt(ring, k, if i + 1 < |ring| - 1 then i + 1 else 0);
    var i0 := if i < k then i else i + 1;
    assert m[ring[i0]] == NextOf(ring, i0);
  }

  lemma RemovePrevOk(m: Memory, ring: seq<int>, k: int, i: int)
    requires Nodes(m, ring) && 0 < k < |ring| && LinkOk(m, ring, k)
    requires 0 <= i < |ring| - 1 && LinkOk(m, ring, if i < k then i else i + 1)
    ensures m[ring[k]] < |m| - 1 && m[ring[k] + 1] < |m| && 0 <= Removed(ring, k)[i] < |m| - 1
    ensures RemoveLinks(m, ring[k])[Removed(ring, k)[i] + 1] == PrevOf(Removed(ring, k), i)
  {
    hide Removed;
    RemovedAt(ring, k, i);
    RemovedAt(ring, k, if i > 0 then i - 1 else |ring| - 2);
    var i0 := if i < k then i else i + 1;
    assert m[ring[i0] + 1] == PrevOf(ring, i0);
  }

  lemma RemoveLinkOk(m: Memory, ring: seq<int>, k: int, i: int)
    requires Nodes(m, ring) && 0 < k < |ring| && LinkOk(m, ring, k) && Nodes(m, Removed(ring, k))
    requires 0 <= i < |ring| - 1 && LinkOk(m, ring, if i < k then i else i + 1)
    ensures m[ring[k]] < |m| - 1 && m[ring[k] + 1] < |m|
    ensures LinkOk(RemoveLinks(m, ring[k]), Removed(ring, k), i)
  {
    hide RemoveLinks, Removed, NextOf, PrevOf, Nodes;
    RemoveNextOk(m, ring, k, i);
    RemovePrevOk(m, ring, k, i);
    RemovedAt(ring, k, i);
  }

  /** free_list_remove takes exactly its node out of the ring. */
  lemma RemoveRing(m: Memory, ring: seq<int>, k: int)
    requires Ring(m, ring) && 0 < k < |ring|
    ensures m[ring[k]] < |m| - 1 && m[ring[k] + 1] < |m|
    ensures Ring(RemoveLinks(m, ring[k]), Removed(ring, k))
  {
    assert LinkOk(m, ring, k);
    RemoveNodes(m, ring, k);
    var r := Removed(ring, k);
    var m' := RemoveLinks(m, ring[k]);
    forall i | 0 <= i < |r| ensures LinkOk(m', r, i) {
      assert LinkOk(m, ring, if i < k then i else i + 1);
      RemoveLinkOk(m, ring, k, i);
    }
  }
}
