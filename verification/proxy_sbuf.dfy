/** The bounded buffer between the accepting thread and the workers of the proxy (labs/09-proxy/sbuf.c), as
    atomic steps of any number of threads over two semaphores and a mutex. */
module ProxySbuf {
  import opened Arith

  type Byte = b: int | 0 <= b < 256
  type Item = seq<Byte>

  /** Where a thread is in sbuf_enq or sbuf_deq. */
  datatype Phase =
    | Idle
    | EnqWait(item: Item)   // before sem_wait(slots)
    | EnqLock(item: Item)   // holds a slot, before pthread_mutex_lock
    | EnqIn(item: Item)     // holds the mutex, before the copy
    | EnqOut                // holds the mutex, after the copy
    | EnqPost               // before sem_post(items)
    | DeqWait               // before sem_wait(items)
    | DeqLock
    | DeqIn
    | DeqOut
    | DeqPost               // before sem_post(slots)

  datatype State = State(
    n: nat, sz: nat, data: seq<Byte>, front: nat, rear: nat, slots: nat, items: nat, locked: bool,
    threads: seq<Phase>,
    enqueued: seq<Item>,   // what was copied in, in order
    dequeued: seq<Item>)   // what was copied out, in order

  // sbuf_create
  ghost predicate Init(s: State) {
    && s.sz > 0 && s.data == seq(s.n * s.sz, _ => 0) && s.front == s.rear == 0 && s.slots == s.n && s.items == 0 && !s.locked
    && s.enqueued == s.dequeued == []
    && forall t :: 0 <= t < |s.threads| ==> s.threads[t] == Idle
  }

  /** The byte offset of a slot: the index is not scaled by the element size. */
  function Slot(k: nat, n: nat): nat {
    if n == 0 then 0 else k % n
  }

  function Copied(data: seq<Byte>, at: nat, item: Item): (d: seq<Byte>)
    requires at + |item| <= |data|
    ensures |d| == |data|
  {
    data[..at] + item + data[at + |item|..]
  }

  datatype Action = CallEnq(item: Item) | CallDeq | WaitSlots | WaitItems | Lock | CopyIn | CopyOut | Unlock | PostItems | PostSlots

  /** One atomic step of thread t. */
  ghost predicate Step(s: State, s': State, t: nat, a: Action) {
    t < |s.threads| &&
    var p := s.threads[t];
    match a
    case CallEnq(item) =>
      p == Idle && |item| == s.sz && s' == s.(threads := s.threads[t := EnqWait(item)])
    case CallDeq =>
      p == Idle && s' == s.(threads := s.threads[t := DeqWait])
    case WaitSlots =>
      p.EnqWait? && s.slots > 0 && s' == s.(slots := s.slots - 1, threads := s.threads[t := EnqLock(p.item)])
    case WaitItems =>
      p.DeqWait? && s.items > 0 && s' == s.(items := s.items - 1, threads := s.threads[t := DeqLock])
    case Lock =>
      && !s.locked && (p.EnqLock? || p.DeqLock?)
      && s' == s.(locked := true, threads := s.threads[t := if p.EnqLock? then EnqIn(p.item) else DeqIn])
    case CopyIn =>
      && p.EnqIn? && Slot(s.rear, s.n) + |p.item| <= |s.data|
      && s' == s.(data := Copied(s.data, Slot(s.rear, s.n), p.item), rear := s.rear + 1,
                  threads := s.threads[t := EnqOut], enqueued := s.enqueued + [p.item])
    case CopyOut =>
      && p.DeqIn? && Slot(s.front, s.n) + s.sz <= |s.data|
      && s' == s.(front := s.front + 1, threads := s.threads[t := DeqOut],
                  dequeued := s.dequeued + [s.data[Slot(s.front, s.n)..Slot(s.front, s.n) + s.sz]])
    case Unlock =>
      && (p.EnqOut? || p.DeqOut?)
      && s' == s.(locked := false, threads := s.threads[t := if p.EnqOut? then EnqPost else DeqPost])
    case PostItems =>
      p.EnqPost? && s' == s.(items := s.items + 1, threads := s.threads[t := Idle])
    case PostSlots =>
      p.DeqPost? && s' == s.(slots := s.slots + 1, threads := s.threads[t := Idle])
  }

  ghost predicate Next(s: State, s': State) {
    exists t: nat, a: Action :: Step(s, s', t, a)
  }

  ghost predicate Run(r: seq<State>) {
    r != [] && Init(r[0]) && forall i :: 0 <= i < |r| - 1 ==> Next(r[i], r[i + 1])
  }

  // ---------------------------------------------------------------- counting threads

  predicate InEnq(p: Phase) { p.EnqLock? || p.EnqIn? || p.EnqOut? || p.EnqPost? }
  predicate InDeq(p: Phase) { p.DeqLock? || p.DeqIn? || p.DeqOut? || p.DeqPost? }
  predicate Entered(p: Phase) { p.EnqIn? || p.EnqOut? || p.DeqIn? || p.DeqOut? }

  /** Threads that stored an item not yet announced on items. */
  predicate Stored(p: Phase) { p.EnqOut? || p.EnqPost? }

  /** Threads that took an item from the semaphore and have not copied it out yet. */
  predicate Claimed(p: Phase) { p.DeqLock? || p.DeqIn? }

  function Count(ts: seq<Phase>, P: Phase -> bool): (c: nat) {
    if ts == [] then 0 else (if P(ts[0]) then 1 else 0) + Count(ts[1..], P)
  }

  lemma {:induction false} CountUpdate(ts: seq<Phase>, t: nat, p: Phase, P: Phase -> bool)
    requires t < |ts|
    ensures Count(ts[t := p], P) == Count(ts, P) - (if P(ts[t]) then 1 else 0) + (if P(p) then 1 else 0)
    ensures P(ts[t]) ==> Count(ts, P) > 0
  {
    if t == 0 {
      assert ts[t := p][1..] == ts[1..];
    } else {
      CountUpdate(ts[1..], t - 1, p, P);
      assert ts[t := p][1..] == ts[1..][t - 1 := p];
    }
  }

  lemma {:induction false} CountNone(ts: seq<Phase>, P: Phase -> bool)
    requires forall t :: 0 <= t < |ts| ==> !P(ts[t])
    ensures Count(ts, P) == 0
  {
    if ts != [] {
      CountNone(ts[1..], P);
    }
  }

  // ---------------------------------------------------------------- invariants for every element size

  /** Semaphore counts plus threads in flight are conserved, the indices differ by what is stored, and the
      mutex admits one thread. */
  ghost predicate Counted(s: State) {
    && s.slots + Count(s.threads, InEnq) + s.items + Count(s.threads, InDeq) == s.n
    && s.rear - s.front == s.items + Count(s.threads, Stored) + Count(s.threads, Claimed)
    && Count(s.threads, Entered) == (if s.locked then 1 else 0)
  }

  ghost predicate Sized(s: State) {
    && s.sz > 0 && |s.data| == s.n * s.sz && |s.enqueued| == s.rear && |s.dequeued| == s.front
    && (forall t :: 0 <= t < |s.threads| && (s.threads[t].EnqWait? || s.threads[t].EnqLock? || s.threads[t].EnqIn?)
          ==> |s.threads[t].item| == s.sz)
    && (forall k :: 0 <= k < |s.enqueued| ==> |s.enqueued[k]| == s.sz)
    && (forall k :: 0 <= k < |s.dequeued| ==> |s.dequeued[k]| == s.sz)
  }

  ghost predicate Inv(s: State) {
    Counted(s) && Sized(s)
  }

  lemma InitInv(s: State)
    requires Init(s)
    ensures Inv(s)
  {
    CountNone(s.threads, InEnq);
    CountNone(s.threads, InDeq);
    CountNone(s.threads, Stored);
    CountNone(s.threads, Claimed);
    CountNone(s.threads, Entered);
  }

  lemma CountsAfter(s: State, t: nat, p: Phase)
    requires t < |s.threads|
    ensures Count(s.threads[t := p], InEnq) == Count(s.threads, InEnq) - (if InEnq(s.threads[t]) then 1 else 0) + (if InEnq(p) then 1 else 0)
    ensures Count(s.threads[t := p], InDeq) == Count(s.threads, InDeq) - (if InDeq(s.threads[t]) then 1 else 0) + (if InDeq(p) then 1 else 0)
    ensures Count(s.threads[t := p], Stored) == Count(s.threads, Stored) - (if Stored(s.threads[t]) then 1 else 0) + (if Stored(p) then 1 else 0)
    ensures Count(s.threads[t := p], Claimed) == Count(s.threads, Claimed) - (if Claimed(s.threads[t]) then 1 else 0) + (if Claimed(p) then 1 else 0)
    ensures Count(s.threads[t := p], Entered) == Count(s.threads, Entered) - (if Entered(s.threads[t]) then 1 else 0) + (if Entered(p) then 1 else 0)
    ensures InEnq(s.threads[t]) ==> Count(s.threads, InEnq) > 0
    ensures InDeq(s.threads[t]) ==> Count(s.threads, InDeq) > 0
    ensures Claimed(s.threads[t]) ==> Count(s.threads, Claimed) > 0
    ensures Entered(s.threads[t]) ==> Count(s.threads, Entered) > 0
  {
    CountUpdate(s.threads, t, p, InEnq);
    CountUpdate(s.threads, t, p, InDeq);
    CountUpdate(s.threads, t, p, Stored);
    CountUpdate(s.threads, t, p, Claimed);
    CountUpdate(s.threads, t, p, Entered);
  }

  lemma NextCounted(s: State, s': State, t: nat, a: Action)
    requires Counted(s) && Step(s, s', t, a)
    ensures Counted(s')
  {
    var p := s'.threads[t];
    assert s'.threads == s.threads[t := p];
    CountsAfter(s, t, p);
    hide Count, Slot, Copied;
  }

  lemma NextSized(s: State, s': State, t: nat, a: Action)
    requires Sized(s) && Step(s, s', t, a)
    ensures Sized(s')
  {
    hide Slot, Copied;
    var size := s.n * s.sz;
    assert |s.data| == size && s'.n == s.n && s'.sz == s.sz && |s'.data| == |s.data|;
  }

  lemma NextInv(s: State, s': State, t: nat, a: Action)
    requires Inv(s) && Step(s, s', t, a)
    ensures Inv(s')
  {
    hide Step, Counted, Sized;
    NextCounted(s, s', t, a);
    NextSized(s, s', t, a);
  }

  // ---------------------------------------------------------------- what no step does

  lemma {:induction false} CountBelow(ts: seq<Phase>, P: Phase -> bool, Q: Phase -> bool)
    requires forall p :: P(p) ==> Q(p)
    ensures Count(ts, P) <= Count(ts, Q)
    ensures (exists t :: 0 <= t < |ts| && Q(ts[t]) && !P(ts[t])) ==> Count(ts, P) < Count(ts, Q)
  {
    if ts != [] {
      CountBelow(ts[1..], P, Q);
      if t :| 0 <= t < |ts| && Q(ts[t]) && !P(ts[t]) {
        if t > 0 {
          assert Q(ts[1..][t - 1]) && !P(ts[1..][t - 1]);
        }
      }
    }
  }

  /** The buffer never holds fewer than no items or more than n. */
  lemma IndicesBounded(s: State)
    requires Inv(s)
    ensures 0 <= s.rear - s.front <= s.n
  {
    CountBelow(s.threads, Stored, InEnq);
    CountBelow(s.threads, Claimed, InDeq);
  }

  lemma ModDiffers(k: nat, r: nat, n: nat)
    requires k < r < k + n
    ensures k % n != r % n
  {
    if k % n == r % n {
      assert r - k == n * (r / n - k / n);
      NotBetween(n, r / n - k / n);
      assert false;
    }
  }

  /** A producer about to copy has a slot no unread item occupies, a consumer about to copy has an item to read,
      and both copies stay inside the buffer. */
  lemma CopiesAreSafe(s: State, t: nat)
    requires Inv(s) && t < |s.threads|
    ensures s.threads[t].EnqIn? ==> s.rear - s.front < s.n && Slot(s.rear, s.n) + |s.threads[t].item| <= |s.data|
    ensures s.threads[t].EnqIn? ==> forall k :: s.front <= k < s.rear ==> Slot(k, s.n) != Slot(s.rear, s.n)
    ensures s.threads[t].DeqIn? ==> s.front < s.rear && Slot(s.front, s.n) + s.sz <= |s.data|
  {
    CountBelow(s.threads, Stored, InEnq);
    CountBelow(s.threads, Claimed, InDeq);
    if s.threads[t].EnqIn? {
      assert InEnq(s.threads[t]) && !Stored(s.threads[t]);
      InBounds(s.rear, s.n, s.sz);
      forall k | s.front <= k < s.rear ensures Slot(k, s.n) != Slot(s.rear, s.n) {
        ModDiffers(k, s.rear, s.n);
      }
    }
    if s.threads[t].DeqIn? {
      CountUpdate(s.threads, t, Idle, Claimed);
      InBounds(s.front, s.n, s.sz);
    }
  }

  lemma InBounds(k: nat, n: nat, sz: nat)
    requires n > 0 && sz > 0
    ensures Slot(k, n) + sz <= n * sz
  {
    Grows(n, sz);
    var at := Slot(k, n);
    assert at <= n - 1;
  }

  lemma Grows(n: nat, sz: nat)
    requires n > 0 && sz > 0
    ensures n - 1 + sz <= n * sz
  {
    MinusOne(n, sz);
    MulMono(1, sz, n - 1);
    assert (n - 1) * sz == sz * (n - 1);
  }

  /** A producer and a consumer are never both blocked on the semaphores once nobody is in between. */
  lemma NotBothBlocked(s: State)
    requires Inv(s) && s.n > 0
    requires forall t :: 0 <= t < |s.threads| ==> !InEnq(s.threads[t]) && !InDeq(s.threads[t])
    ensures s.slots > 0 || s.items > 0
  {
    CountNone(s.threads, InEnq);
    CountNone(s.threads, InDeq);
  }

  /** Thread t can take the next step of the call it is in. */
  ghost predicate CanMove(s: State, t: nat) {
    exists s': State, a: Action :: !a.CallEnq? && !a.CallDeq? && Step(s, s', t, a)
  }

  /** Outside both calls, or in front of a semaphore. */
  predicate Quiet(p: Phase) { p.Idle? || p.EnqWait? || p.DeqWait? }

  ghost predicate Stuck(s: State) {
    forall t: nat :: t < |s.threads| ==> !CanMove(s, t)
  }

  lemma NotQuietMoves(s: State, t: nat)
    requires Inv(s) && t < |s.threads| && !Quiet(s.threads[t]) && (s.locked ==> Entered(s.threads[t]))
    ensures CanMove(s, t)
  {
    var p := s.threads[t];
    CopiesAreSafe(s, t);
    var at, from := Slot(s.rear, s.n), Slot(s.front, s.n);
    match p {
      case EnqLock(item) => assert Step(s, s.(locked := true, threads := s.threads[t := EnqIn(item)]), t, Lock);
      case DeqLock => assert Step(s, s.(locked := true, threads := s.threads[t := DeqIn]), t, Lock);
      case EnqIn(item) =>
        assert Step(s, s.(data := Copied(s.data, at, item), rear := s.rear + 1, threads := s.threads[t := EnqOut],
                          enqueued := s.enqueued + [item]), t, CopyIn);
      case DeqIn =>
        assert Step(s, s.(front := s.front + 1, threads := s.threads[t := DeqOut],
                          dequeued := s.dequeued + [s.data[from..from + s.sz]]), t, CopyOut);
      case EnqOut => assert Step(s, s.(locked := false, threads := s.threads[t := EnqPost]), t, Unlock);
      case DeqOut => assert Step(s, s.(locked := false, threads := s.threads[t := DeqPost]), t, Unlock);
      case EnqPost => assert Step(s, s.(items := s.items + 1, threads := s.threads[t := Idle]), t, PostItems);
      case DeqPost => assert Step(s, s.(slots := s.slots + 1, threads := s.threads[t := Idle]), t, PostSlots);
    }
  }

  lemma {:induction false} SomeEntered(ts: seq<Phase>)
    requires Count(ts, Entered) > 0
    ensures exists t: nat :: t < |ts| && Entered(ts[t])
  {
    if !Entered(ts[0]) {
      SomeEntered(ts[1..]);
      var t: nat :| t < |ts[1..]| && Entered(ts[1..][t]);
      assert Entered(ts[t + 1]);
    }
  }

  lemma StuckIsQuiet(s: State)
    requires Inv(s) && Stuck(s)
    ensures forall t :: 0 <= t < |s.threads| ==> Quiet(s.threads[t])
  {
    hide CanMove, Sized;
    if s.locked {
      SomeEntered(s.threads);
      var t: nat :| t < |s.threads| && Entered(s.threads[t]);
      NotQuietMoves(s, t);
    }
    forall t: nat | t < |s.threads| ensures Quiet(s.threads[t]) {
      if !Quiet(s.threads[t]) { NotQuietMoves(s, t); }
    }
  }

  lemma QuietMoves(s: State, t: nat)
    requires t < |s.threads| && Quiet(s.threads[t])
    ensures CanMove(s, t) <==> (s.threads[t].EnqWait? && s.slots > 0) || (s.threads[t].DeqWait? && s.items > 0)
  {
    var p := s.threads[t];
    if p.EnqWait? && s.slots > 0 {
      assert Step(s, s.(slots := s.slots - 1, threads := s.threads[t := EnqLock(p.item)]), t, WaitSlots);
    }
    if p.DeqWait? && s.items > 0 {
      assert Step(s, s.(items := s.items - 1, threads := s.threads[t := DeqLock]), t, WaitItems);
    }
  }

  lemma QuietCounts(s: State)
    requires Inv(s) && forall t :: 0 <= t < |s.threads| ==> Quiet(s.threads[t])
    ensures s.slots + s.items == s.n && s.items == s.rear - s.front
  {
    CountNone(s.threads, InEnq);
    CountNone(s.threads, InDeq);
    CountNone(s.threads, Stored);
    CountNone(s.threads, Claimed);
  }

  /** Nobody inside a call can go on exactly if all of them are producers in front of a full buffer, or all of them
      consumers in front of an empty one. */
  lemma StuckExactly(s: State)
    requires Inv(s) && s.n > 0
    ensures Stuck(s) <==>
      || (forall t :: 0 <= t < |s.threads| ==> s.threads[t] == Idle)
      || (s.rear - s.front == s.n && forall t :: 0 <= t < |s.threads| ==> s.threads[t].Idle? || s.threads[t].EnqWait?)
      || (s.rear == s.front && forall t :: 0 <= t < |s.threads| ==> s.threads[t].Idle? || s.threads[t].DeqWait?)
  {
    hide CanMove, Sized, Counted;
    if Stuck(s) {
      StuckIsQuiet(s);
    }
    if forall t :: 0 <= t < |s.threads| ==> Quiet(s.threads[t]) {
      QuietCounts(s);
      forall t: nat | t < |s.threads|
        ensures CanMove(s, t) <==> (s.threads[t].EnqWait? && s.slots > 0) || (s.threads[t].DeqWait? && s.items > 0)
      {
        QuietMoves(s, t);
      }
    }
  }

  /** All of this in every state of every run. */
  lemma {:induction false} RunInv(r: seq<State>, i: nat)
    requires Run(r) && i < |r|
    ensures Inv(r[i]) && r[i].n == r[0].n && r[i].sz == r[0].sz && 0 <= r[i].rear - r[i].front <= r[i].n
  {
    if i == 0 {
      InitInv(r[0]);
    } else {
      RunInv(r, i - 1);
      assert Next(r[i - 1], r[i]);
      var t: nat, a :| Step(r[i - 1], r[i], t, a);
      NextInv(r[i - 1], r[i], t, a);
    }
    IndicesBounded(r[i]);
  }

  // ---------------------------------------------------------------- order

  /** Items that fit the unscaled slot index: the condition under which the buffer is a queue. */
  predicate SlotsHoldItems(n: nat, sz: nat) {
    n <= 1 || sz == 1
  }

  ghost predicate Ordered(s: State) {
    && Inv(s) && s.dequeued == s.enqueued[..s.front]
    && forall k :: s.front <= k < s.rear ==> Slot(k, s.n) + s.sz <= |s.data| && s.data[Slot(k, s.n)..Slot(k, s.n) + s.sz] == s.enqueued[k]
  }

  lemma NextOrdered(s: State, s': State, t: nat, a: Action)
    requires Ordered(s) && SlotsHoldItems(s.n, s.sz) && Step(s, s', t, a)
    ensures Ordered(s')
  {
    NextInv(s, s', t, a);
    IndicesBounded(s);
    hide Count, Slot, Copied;
    if a.CopyIn? {
      CopyInOrdered(s, s', t);
    } else if a.CopyOut? {
      CopiesAreSafe(s, t);
    }
  }

  lemma CopyInOrdered(s: State, s': State, t: nat)
    requires Ordered(s) && SlotsHoldItems(s.n, s.sz) && Step(s, s', t, CopyIn) && Inv(s')
    ensures Ordered(s')
  {
    CopiesAreSafe(s, t);
    var item := s.threads[t].item;
    hide Count, Slot, Copied;
    forall k | s'.front <= k < s'.rear
      ensures Slot(k, s.n) + s.sz <= |s'.data| && s'.data[Slot(k, s.n)..Slot(k, s.n) + s.sz] == s'.enqueued[k]
    {
      OtherSlot(s, item, Slot(s.rear, s.n), k);
    }
  }

  lemma OtherSlot(s: State, item: Item, at: nat, k: nat)
    requires SlotsHoldItems(s.n, s.sz) && |item| == s.sz && at == Slot(s.rear, s.n) && at + s.sz <= |s.data|
    requires s.front <= k <= s.rear && s.rear - s.front < s.n
    requires k < s.rear ==> Slot(k, s.n) + s.sz <= |s.data| && Slot(k, s.n) != at
    ensures Slot(k, s.n) + s.sz <= |s.data|
    ensures Copied(s.data, at, item)[Slot(k, s.n)..Slot(k, s.n) + s.sz]
            == if k == s.rear then item else s.data[Slot(k, s.n)..Slot(k, s.n) + s.sz]
  {
  }

  /** With one-byte items, or a single slot, what has been dequeued is always a prefix of what has been enqueued. */
  lemma {:induction false} FifoPrefix(r: seq<State>, i: nat)
    requires Run(r) && i < |r| && SlotsHoldItems(r[0].n, r[0].sz)
    ensures Ordered(r[i]) && r[i].dequeued <= r[i].enqueued
  {
    RunInv(r, i);
    if i > 0 {
      FifoPrefix(r, i - 1);
      RunInv(r, i - 1);
      assert Next(r[i - 1], r[i]);
      var t: nat, a :| Step(r[i - 1], r[i], t, a);
      NextOrdered(r[i - 1], r[i], t, a);
    }
  }

  // ---------------------------------------------------------------- when the slots overlap

  function Filled(sz: nat, b: Byte): (item: Item)
    ensures |item| == sz
  {
    seq(sz, _ => b)
  }

  /** The steps of one call of sbuf_enq, uncontended, by the only thread. */
  function EnqTrace(s: State, item: Item): (tr: seq<State>)
    requires s.slots > 0 && Slot(s.rear, s.n) + |item| <= |s.data|
    ensures |tr| == 6
  {
    var a1 := s.(threads := [EnqWait(item)]);
    var a2 := a1.(slots := s.slots - 1, threads := [EnqLock(item)]);
    var a3 := a2.(locked := true, threads := [EnqIn(item)]);
    var a4 := a3.(data := Copied(s.data, Slot(s.rear, s.n), item), rear := s.rear + 1,
                  threads := [EnqOut], enqueued := s.enqueued + [item]);
    var a5 := a4.(locked := false, threads := [EnqPost]);
    [a1, a2, a3, a4, a5, a5.(items := s.items + 1, threads := [Idle])]
  }

  /** The steps of a call of sbuf_deq up to the copy. */
  function DeqTrace(s: State): (tr: seq<State>)
    requires s.items > 0 && Slot(s.front, s.n) + s.sz <= |s.data|
    ensures |tr| == 4
  {
    var c1 := s.(threads := [DeqWait]);
    var c2 := c1.(items := s.items - 1, threads := [DeqLock]);
    var c3 := c2.(locked := true, threads := [DeqIn]);
    [c1, c2, c3, c3.(front := s.front + 1, threads := [DeqOut],
                     dequeued := s.dequeued + [s.data[Slot(s.front, s.n)..Slot(s.front, s.n) + s.sz]])]
  }

  ghost predicate Chain(s: State, tr: seq<State>) {
    tr != [] && Next(s, tr[0]) && forall i :: 0 <= i < |tr| - 1 ==> Next(tr[i], tr[i + 1])
  }

  lemma EnqChain(s: State, item: Item)
    requires s.threads == [Idle] && !s.locked && s.slots > 0 && |item| == s.sz && Slot(s.rear, s.n) + |item| <= |s.data|
    ensures Chain(s, EnqTrace(s, item))
  {
    hide Slot, Copied;
    var tr := EnqTrace(s, item);
    assert Step(s, tr[0], 0, CallEnq(item));
    assert Step(tr[0], tr[1], 0, WaitSlots);
    assert Step(tr[1], tr[2], 0, Lock);
    assert Step(tr[2], tr[3], 0, CopyIn);
    assert Step(tr[3], tr[4], 0, Unlock);
    assert Step(tr[4], tr[5], 0, PostItems);
    hide Step;
  }

  lemma DeqChain(s: State)
    requires s.threads == [Idle] && !s.locked && s.items > 0 && Slot(s.front, s.n) + s.sz <= |s.data|
    ensures Chain(s, DeqTrace(s))
  {
    hide Slot, Copied;
    var tr := DeqTrace(s);
    assert Step(s, tr[0], 0, CallDeq);
    assert Step(tr[0], tr[1], 0, WaitItems);
    assert Step(tr[1], tr[2], 0, Lock);
    assert Step(tr[2], tr[3], 0, CopyOut);
    hide Step;
  }

  lemma RunOn(r: seq<State>, tr: seq<State>)
    requires Run(r) && Chain(r[|r| - 1], tr)
    ensures Run(r + tr)
  {
    var q := r + tr;
    forall i | 0 <= i < |q| - 1 ensures Next(q[i], q[i + 1]) {
      if i >= |r| {
        assert q[i] == tr[i - |r|] && q[i + 1] == tr[i - |r| + 1];
      }
    }
  }

  /** A run of one thread that puts zeros, then ones, and takes the first item back with a one in it. */
  lemma Overlapping(n: nat, sz: nat) returns (r: seq<State>)
    requires n >= 2 && sz >= 2
    ensures Run(r) && r[0].n == n && r[0].sz == sz
    ensures var s := r[|r| - 1]; |s.dequeued| == 1 && |s.enqueued| == 2 && s.dequeued[0] != s.enqueued[0]
  {
    var zeros, ones := Filled(sz, 0), Filled(sz, 1);
    Grows(n, sz);
    assert Slot(0, n) == 0 && Slot(1, n) == 1;
    var s0 := State(n, sz, seq(n * sz, _ => 0), 0, 0, n, 0, false, [Idle], [], []);
    hide Step, Next, Slot;
    var t1 := EnqTrace(s0, zeros);
    EnqChain(s0, zeros);
    var s1 := t1[5];
    var t2 := EnqTrace(s1, ones);
    EnqChain(s1, ones);
    var s2 := t2[5];
    var t3 := DeqTrace(s2);
    DeqChain(s2);
    var got := t3[3].dequeued[0];
    assert got[1] == 1 && zeros[1] == 0;
    hide Chain, Run, Copied, EnqTrace, DeqTrace;
    assert Run([s0]) by {
      Starts(s0);
    }
    RunOn([s0], t1);
    RunOn([s0] + t1, t2);
    RunOn([s0] + t1 + t2, t3);
    r := [s0] + t1 + t2 + t3;
  }

  lemma Starts(s: State)
    requires Init(s)
    ensures Run([s])
  {
  }

  ghost predicate AlwaysFifo(n: nat, sz: nat) {
    forall r: seq<State>, i: nat :: Run(r) && i < |r| && r[0].n == n && r[0].sz == sz ==> r[i].dequeued <= r[i].enqueued
  }

  /** The buffer delivers items unchanged and in order in every run exactly when the slots do not overlap. */
  lemma FifoExactly(n: nat, sz: nat)
    requires sz > 0
    ensures AlwaysFifo(n, sz) <==> SlotsHoldItems(n, sz)
  {
    if SlotsHoldItems(n, sz) {
      forall r: seq<State>, i: nat | Run(r) && i < |r| && r[0].n == n && r[0].sz == sz
        ensures r[i].dequeued <= r[i].enqueued
      {
        FifoPrefix(r, i);
      }
    } else {
      var r := Overlapping(n, sz);
      var s := r[|r| - 1];
      assert !(s.dequeued <= s.enqueued);
    }
  }
}
