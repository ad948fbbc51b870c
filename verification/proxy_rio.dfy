/** The robust buffered reader of the proxy (labs/09-proxy/csapp.c) over a descriptor whose reads may be short,
    interrupted or failing. */
module ProxyRio {
  type Byte = b: int | 0 <= b < 256

  const RIO_BUFSIZE: int := 8192
  const NEWLINE: Byte := 10

  /** What one call of read gives, for as long as the script lasts; after it, end of file. */
  datatype Outcome = Short(bytes: seq<Byte>) | Interrupted | Failed

  ghost predicate Plausible(script: seq<Outcome>) {
    forall o :: o in script && o.Short? ==> 1 <= |o.bytes| <= RIO_BUFSIZE
  }

  ghost predicate NoHardErrors(script: seq<Outcome>) {
    Failed !in script
  }

  /** The bytes still to come from the descriptor. */
  function Stream(script: seq<Outcome>): seq<Byte> {
    if script == [] then []
    else if script[0].Short? then script[0].bytes + Stream(script[1..]) else Stream(script[1..])
  }

  // ---------------------------------------------------------------- what the calls are for

  function Min(a: int, b: int): int {
    if a < b then a else b
  }

  /** Bytes up to and including the first newline; all of p when there is none. */
  function LineEnd(p: seq<Byte>): (k: nat)
    ensures k <= |p|
    ensures forall i :: 0 <= i < k - 1 ==> p[i] != NEWLINE
    ensures k < |p| ==> k > 0 && p[k - 1] == NEWLINE
  {
    if p == [] then 0 else if p[0] == NEWLINE then 1 else 1 + LineEnd(p[1..])
  }

  datatype Call = ReadN(n: nat) | ReadLine(maxlen: nat)

  /** How many of the bytes to come a call takes. */
  function Taken(c: Call, p: seq<Byte>): (k: nat)
    ensures k <= |p|
  {
    match c
    case ReadN(n) => Min(n, |p|)
    case ReadLine(maxlen) => if maxlen == 0 then 0 else Min(maxlen - 1, LineEnd(p))
  }

  function Results(cs: seq<Call>, p: seq<Byte>): (r: seq<seq<Byte>>)
    ensures |r| == |cs|
  {
    if cs == [] then [] else [p[..Taken(cs[0], p)]] + Results(cs[1..], p[Taken(cs[0], p)..])
  }

  function Concat(r: seq<seq<Byte>>): seq<Byte> {
    if r == [] then [] else r[0] + Concat(r[1..])
  }

  /** A line ends at a newline, at maxlen - 1 bytes or at the end of the stream, and has no newline before its end. */
  ghost predicate LineCut(maxlen: nat, line: seq<Byte>, atEnd: bool) {
    && (forall i :: 0 <= i < |line| - 1 ==> line[i] != NEWLINE)
    && |line| <= (if maxlen == 0 then 0 else maxlen - 1)
    && (atEnd || |line| + 1 >= maxlen || (line != [] && line[|line| - 1] == NEWLINE))
  }

  /** A numeric read is short only at the end of the stream. */
  ghost predicate RightlyCut(c: Call, bytes: seq<Byte>, atEnd: bool) {
    match c
    case ReadN(n) => |bytes| == n || (|bytes| < n && atEnd)
    case ReadLine(maxlen) => LineCut(maxlen, bytes, atEnd)
  }

  lemma OneCall(c: Call, p: seq<Byte>)
    ensures RightlyCut(c, p[..Taken(c, p)], Taken(c, p) == |p|)
  {
  }

  lemma ConcatHead(r: seq<seq<Byte>>, i: nat)
    requires i < |r|
    ensures Concat(r[..i + 1]) == r[0] + Concat(r[1..][..i])
  {
    assert r[..i + 1][1..] == r[1..][..i];
  }

  ghost predicate AllCut(cs: seq<Call>, r: seq<seq<Byte>>, p: seq<Byte>)
    requires |r| == |cs|
  {
    forall i :: 0 <= i < |cs| ==> CutAt(cs, r, p, i)
  }

  ghost predicate CutAt(cs: seq<Call>, r: seq<seq<Byte>>, p: seq<Byte>, i: nat)
    requires i < |r| == |cs|
  {
    |Concat(r[..i + 1])| <= |p| && RightlyCut(cs[i], r[i], |Concat(r[..i + 1])| == |p|)
  }

  lemma AllCutBefore(cs: seq<Call>, r: seq<seq<Byte>>, p: seq<Byte>, k: nat)
    requires |r| == |cs| > 0 && k <= |p| && r[0] == p[..k] && RightlyCut(cs[0], r[0], k == |p|)
    requires AllCut(cs[1..], r[1..], p[k..])
    ensures AllCut(cs, r, p)
  {
    hide RightlyCut;
    forall i | 0 <= i < |cs| ensures CutAt(cs, r, p, i) {
      ConcatHead(r, i);
      if i == 0 {
        assert Concat(r[1..][..0]) == [];
      } else {
        assert CutAt(cs[1..], r[1..], p[k..], i - 1);
        assert cs[1..][i - 1] == cs[i] && r[1..][i - 1] == r[i];
        assert r[1..][..(i - 1) + 1] == r[1..][..i];
      }
    }
  }

  /** The results of a run of calls, put together, are exactly the next bytes of the stream, and each is cut only
      where it may be. */
  lemma {:induction false} ResultsAreTheStream(cs: seq<Call>, p: seq<Byte>)
    ensures Concat(Results(cs, p)) <= p
    ensures AllCut(cs, Results(cs, p), p)
  {
    if cs != [] {
      var k := Taken(cs[0], p);
      var r, rest := Results(cs, p), Results(cs[1..], p[k..]);
      ResultsAreTheStream(cs[1..], p[k..]);
      OneCall(cs[0], p);
      assert r == [p[..k]] + rest;
      hide Taken, RightlyCut, Results, AllCut;
      assert r[1..] == rest;
      assert p == p[..k] + p[k..];
      AllCutBefore(cs, r, p, k);
    }
  }

  // ---------------------------------------------------------------- the reader

  class Rio {
    var cnt: int
    var ptr: nat
    const buf: array<Byte>
    var script: seq<Outcome>

    ghost predicate Valid()
      reads this, buf
    {
      buf.Length == RIO_BUFSIZE && cnt <= RIO_BUFSIZE && (cnt > 0 ==> ptr + cnt <= RIO_BUFSIZE) && Plausible(script)
    }

    /** Unread bytes: those in the buffer, then those of the descriptor. */
    ghost function Pending(): seq<Byte>
      requires Valid()
      reads this, buf
    {
      (if cnt > 0 then buf[ptr..ptr + cnt] else []) + Stream(script)
    }

    // rio_readinitb
    constructor (script: seq<Outcome>)
      requires Plausible(script)
      ensures Valid() && Pending() == Stream(script) && this.script == script && fresh(buf)
    {
      cnt, ptr, this.script := 0, 0, script;
      buf := new Byte[RIO_BUFSIZE](_ => 0);
    }

    // read(2): the next outcome of the script
    method Read() returns (rc: int, interrupted: bool)
      requires Valid() && cnt <= 0
      modifies buf, this`script
      ensures buf.Length == RIO_BUFSIZE && Plausible(script) && (NoHardErrors(old(script)) ==> NoHardErrors(script))
      ensures rc <= RIO_BUFSIZE && (rc >= 0 ==> Stream(old(script)) == buf[..rc] + Stream(script))
      ensures rc < 0 ==> Stream(old(script)) == Stream(script) && (!interrupted ==> !NoHardErrors(old(script)))
      ensures rc == 0 ==> Stream(script) == []
      ensures rc != 0 ==> |script| < |old(script)|
    {
      interrupted := false;
      if script == [] {
        return 0, false;
      }
      var o := script[0];
      script := script[1..];
      match o {
        case Interrupted => return -1, true;
        case Failed => return -1, false;
        case Short(bytes) =>
          forall i | 0 <= i < |bytes| {
            buf[i] := bytes[i];
          }
          assert buf[..|bytes|] == bytes;
          return |bytes|, false;
      }
    }

    // the refill loop of rio_read
    method Refill() returns (rc: int)
      requires Valid()
      modifies this`cnt, this`ptr, this`script, buf
      ensures Valid() && (NoHardErrors(old(script)) ==> NoHardErrors(script)) && Pending() == old(Pending())
      ensures rc < 0 ==> !NoHardErrors(old(script))
      ensures rc == 0 ==> Pending() == []
      ensures rc > 0 ==> cnt > 0
    {
      hide Stream, NoHardErrors, Plausible;
      while cnt <= 0
        invariant Valid() && Pending() == old(Pending())
        invariant NoHardErrors(old(script)) ==> NoHardErrors(script)
        decreases |script|, if cnt <= 0 then 1 else 0
      {
        var interrupted;
        rc, interrupted := Read();
        cnt := rc;
        if rc < 0 {
          if !interrupted {
            return -1;
          }
        } else if rc == 0 {
          return 0;
        } else {
          ptr := 0;
        }
      }
      rc := 1;
    }

    // rio_read
    method RioRead(usr: array<Byte>, off: nat, n: nat) returns (rc: int)
      requires Valid() && off + n <= usr.Length && usr != buf
      modifies this`cnt, this`ptr, this`script, buf, usr
      ensures Valid() && (NoHardErrors(old(script)) ==> NoHardErrors(script))
      ensures rc < 0 ==> !NoHardErrors(old(script)) && Pending() == old(Pending()) && usr[..] == old(usr[..])
      ensures 0 <= rc ==> rc <= n && old(Pending()) == usr[off..off + rc] + Pending()
      ensures 0 <= rc ==> usr[..off] == old(usr[..off])
      ensures rc == 0 ==> n == 0 || Pending() == []
    {
      hide Stream, NoHardErrors, Plausible;
      rc := Refill();
      if rc <= 0 {
        return;
      }
      rc := CopyOut(usr, off, n);
    }

    // memcpy(usrbuf, rp->rio_bufptr, cnt)
    method Memcpy(usr: array<Byte>, off: nat, c: nat)
      requires off + c <= usr.Length && usr != buf && ptr + c <= buf.Length
      modifies usr
      ensures usr[off..off + c] == buf[ptr..ptr + c] && usr[..off] == old(usr[..off])
    {
      var i := 0;
      while i < c
        invariant 0 <= i <= c && usr[off..off + i] == buf[ptr..ptr + i] && usr[..off] == old(usr[..off])
      {
        usr[off + i] := buf[ptr + i];
        assert usr[off..off + i + 1] == usr[off..off + i] + [buf[ptr + i]];
        i := i + 1;
      }
    }

    // the end of rio_read
    method CopyOut(usr: array<Byte>, off: nat, n: nat) returns (rc: int)
      requires Valid() && off + n <= usr.Length && usr != buf && cnt > 0
      modifies this`cnt, this`ptr, usr
      ensures Valid() && 0 <= rc <= n && old(Pending()) == usr[off..off + rc] + Pending()
      ensures usr[..off] == old(usr[..off]) && (rc == 0 ==> n == 0)
    {
      hide Stream, Plausible;
      ghost var rest := Stream(script);
      var c := if cnt < n then cnt else n;
      ghost var p, k := ptr, cnt;
      assert Pending() == buf[p..p + k] + rest;
      Memcpy(usr, off, c);
      ptr := ptr + c;
      cnt := cnt - c;
      assert buf[p..p + k] == buf[..][p..p + k] && buf[p..p + c] == buf[..][p..p + c];
      Split3(buf[..], p, k, c, rest);
      if c < k {
        assert buf[ptr..ptr + cnt] == buf[..][p + c..p + k];
        assert Pending() == buf[..][p + c..p + k] + rest;
      } else {
        assert Pending() == [] + rest;
      }
      rc := c;
    }

    // rio_readnb
    method ReadNB(usr: array<Byte>, n: nat) returns (rc: int)
      requires Valid() && n <= usr.Length && usr != buf
      modifies this`cnt, this`ptr, this`script, buf, usr
      ensures Valid() && (NoHardErrors(old(script)) ==> NoHardErrors(script) && rc >= 0)
      ensures rc < 0 ==> exists lost: seq<Byte> :: old(Pending()) == lost + Pending()
      ensures rc >= 0 ==> rc == Taken(ReadN(n), old(Pending())) && usr[..rc] == old(Pending())[..rc]
                          && Pending() == old(Pending())[rc..]
    {
      hide Stream, NoHardErrors, Plausible, Pending;
      ghost var all := Pending();
      var got := 0;
      while got < n
        invariant 0 <= got <= n && Valid() && all == usr[..got] + Pending()
        invariant NoHardErrors(old(script)) ==> NoHardErrors(script)
        decreases n - got
      {
        ghost var before, was := usr[..got], Pending();
        var k := RioRead(usr, got, n - got);
        if k < 0 {
          assert all == before + Pending();
          return -1;
        }
        assert usr[..got] == before;
        assert usr[..got + k] == before + usr[got..got + k];
        if k == 0 {
          break;
        }
        got := got + k;
      }
      rc := got;
      assert usr[..rc] == all[..rc] && Pending() == all[rc..];
    }

    // rio_readlineb
    method ReadLineB(usr: array<Byte>, maxlen: nat) returns (rc: int)
      requires Valid() && 0 < usr.Length && maxlen <= usr.Length && usr != buf
      modifies this`cnt, this`ptr, this`script, buf, usr
      ensures Valid() && (NoHardErrors(old(script)) ==> NoHardErrors(script) && rc >= 0)
      ensures rc < 0 ==> exists lost: seq<Byte> :: old(Pending()) == lost + Pending()
      ensures rc >= 0 ==> rc == Taken(ReadLine(maxlen), old(Pending())) && usr[..rc] == old(Pending())[..rc]
                          && Pending() == old(Pending())[rc..] && (rc > 0 ==> rc < usr.Length && usr[rc] == 0)
    {
      hide Stream, NoHardErrors, Plausible, Pending, LineEnd, Taken;
      ghost var all, line := Pending(), [];
      NothingTaken(maxlen, all);
      var n, done := 1, false;
      while n < maxlen && !done
        invariant 1 <= n && (n <= maxlen || n == 1) && Valid() && |line| == n - 1
        invariant usr[..n - 1] == line && all == line + Pending()
        invariant if done then LineEnd(all) == n - 1 else LineEnd(all) == n - 1 + LineEnd(Pending())
        invariant NoHardErrors(old(script)) ==> NoHardErrors(script)
        decreases maxlen - n, if done then 0 else 1
      {
        var k, c := ReadOne(usr);
        if k < 0 {
          return -1;
        }
        if k == 0 {
          if n == 1 {
            return 0;
          }
          done := true;
        } else {
          SetChar(usr, n - 1, c, line);
          Shift(line, c, Pending());
          line := line + [c];
          n := n + 1;
          done := c == NEWLINE;
        }
      }
      LineTaken(maxlen, line, Pending(), done);
      SetChar(usr, n - 1, 0, line);
      assert usr[..n - 1] == usr[..n][..n - 1] == line;
      rc := n - 1;
    }

    // *bufp = c
    method SetChar(usr: array<Byte>, at: nat, c: Byte, ghost line: seq<Byte>)
      requires at < usr.Length && usr[..at] == line && usr != buf
      modifies usr
      ensures usr[..at + 1] == line + [c] && usr[at] == c
    {
      usr[at] := c;
      assert usr[..at] == line;
    }

    // rio_read(rp, &c, 1)
    method ReadOne(ghost usr: array<Byte>) returns (k: int, c: Byte)
      requires Valid() && usr != buf
      modifies this`cnt, this`ptr, this`script, buf
      ensures Valid() && (NoHardErrors(old(script)) ==> NoHardErrors(script) && k >= 0)
      ensures k <= 1 && (k <= 0 ==> Pending() == old(Pending())) && (k == 0 ==> Pending() == [] && LineEnd(Pending()) == 0)
      ensures k == 1 ==> old(Pending()) == [c] + Pending()
      ensures k == 1 ==> LineEnd(old(Pending())) == if c == NEWLINE then 1 else 1 + LineEnd(Pending())
    {
      hide Stream, NoHardErrors, Plausible, Pending, LineEnd;
      var cell := new Byte[1];
      ghost var was := Pending();
      LineEndStep(was);
      k := RioRead(cell, 0, 1);
      c := cell[0];
      if k == 1 {
        assert was == [c] + Pending() && was[1..] == Pending();
      }
    }
  }

  lemma Shift(a: seq<Byte>, c: Byte, b: seq<Byte>)
    ensures a + ([c] + b) == (a + [c]) + b
  {
  }

  lemma Split3(a: seq<Byte>, p: nat, k: nat, c: nat, rest: seq<Byte>)
    requires c <= k && p + k <= |a|
    ensures a[p..p + k] + rest == a[p..p + c] + ((if c < k then a[p + c..p + k] else []) + rest)
  {
    assert a[p..p + k] == a[p..p + c] + a[p + c..p + k];
  }

  lemma Halves(a: seq<Byte>, b: seq<Byte>)
    ensures (a + b)[..|a|] == a && (a + b)[|a|..] == b
  {
  }

  lemma NothingTaken(maxlen: nat, p: seq<Byte>)
    ensures p == [] ==> Taken(ReadLine(maxlen), p) == 0
  {
  }

  /** The loop of rio_readlineb ends with the line taken. */
  lemma LineTaken(maxlen: nat, line: seq<Byte>, rest: seq<Byte>, done: bool)
    requires LineEnd(line + rest) == if done then |line| else |line| + LineEnd(rest)
    requires |line| + 1 <= maxlen || line == []
    requires done || |line| + 1 >= maxlen
    ensures Taken(ReadLine(maxlen), line + rest) == |line|
    ensures (line + rest)[..|line|] == line && (line + rest)[|line|..] == rest
  {
    Halves(line, rest);
    hide LineEnd;
  }

  lemma LineEndStep(p: seq<Byte>)
    ensures p == [] ==> LineEnd(p) == 0
    ensures p != [] ==> LineEnd(p) == if p[0] == NEWLINE then 1 else 1 + LineEnd(p[1..])
  {
  }

  method OneOf(rio: Rio, usr: array<Byte>, c: Call) returns (bytes: seq<Byte>)
    requires rio.Valid() && NoHardErrors(rio.script) && usr != rio.buf
    requires 0 < usr.Length && (if c.ReadN? then c.n else c.maxlen) <= usr.Length
    modifies rio, rio.buf, usr
    ensures rio.Valid() && NoHardErrors(rio.script)
    ensures var p, k := old(rio.Pending()), Taken(c, old(rio.Pending())); bytes == p[..k] && rio.Pending() == p[k..]
  {
    hide Stream, NoHardErrors, Plausible, LineEnd;
    var rc;
    match c {
      case ReadN(n) => rc := rio.ReadNB(usr, n);
      case ReadLine(maxlen) => rc := rio.ReadLineB(usr, maxlen);
    }
    bytes := usr[..rc];
  }

  /** Calls made one after the other on a reader. */
  method Session(rio: Rio, usr: array<Byte>, cs: seq<Call>) returns (results: seq<seq<Byte>>)
    requires rio.Valid() && NoHardErrors(rio.script) && usr != rio.buf
    requires forall c :: c in cs ==> 0 < usr.Length && (if c.ReadN? then c.n else c.maxlen) <= usr.Length
    modifies rio, rio.buf, usr
    ensures rio.Valid() && results == Results(cs, old(rio.Pending()))
    ensures old(rio.Pending()) == Concat(results) + rio.Pending()
  {
    hide Stream, NoHardErrors, Plausible, Taken, Results, Concat, Rio.Pending;
    SessionStart(cs, rio.Pending());
    results := [];
    var i := 0;
    ghost var all := rio.Pending();
    while i < |cs|
      invariant 0 <= i <= |cs| && rio.Valid() && NoHardErrors(rio.script) && |results| == i
      invariant results + Results(cs[i..], rio.Pending()) == Results(cs, all)
      invariant all == Concat(results) + rio.Pending()
    {
      SessionStep(results, cs, i, rio.Pending(), all);
      assert cs[i] in cs;
      var bytes := OneOf(rio, usr, cs[i]);
      results := results + [bytes];
      i := i + 1;
    }
    assert cs[i..] == [];
    SessionStart([], rio.Pending());
  }

  /** One more call: its result goes from what is still to come to what has been returned. */
  lemma SessionStep(results: seq<seq<Byte>>, cs: seq<Call>, i: nat, p: seq<Byte>, all: seq<Byte>)
    requires i < |cs| && results + Results(cs[i..], p) == Results(cs, all) && all == Concat(results) + p
    ensures var k := Taken(cs[i], p);
            && (results + [p[..k]]) + Results(cs[i + 1..], p[k..]) == Results(cs, all)
            && all == Concat(results + [p[..k]]) + p[k..]
  {
    hide Results, Concat, Taken;
    var k := Taken(cs[i], p);
    ResultsStep(cs, i, p);
    ConcatAppend(results, p[..k]);
    assert results + ([p[..k]] + Results(cs[i + 1..], p[k..])) == (results + [p[..k]]) + Results(cs[i + 1..], p[k..]);
  }

  lemma SessionStart(cs: seq<Call>, p: seq<Byte>)
    ensures cs[0..] == cs && [] + Results(cs, p) == Results(cs, p) && Concat([]) + p == p && Results([], p) == []
  {
  }

  lemma ResultsStep(cs: seq<Call>, i: nat, p: seq<Byte>)
    requires i < |cs|
    ensures var k := Taken(cs[i], p);
            Results(cs[i..], p) == [p[..k]] + Results(cs[i + 1..], p[k..]) && p == p[..k] + p[k..]
  {
    assert cs[i] == cs[i..][0] && cs[i..][1..] == cs[i + 1..];
  }

  lemma {:induction false} ConcatAppend(r: seq<seq<Byte>>, x: seq<Byte>)
    ensures Concat(r + [x]) == Concat(r) + x
  {
    if r == [] {
      assert r + [x] == [x] && [x][1..] == [];
    } else {
      ConcatAppend(r[1..], x);
      assert (r + [x])[1..] == r[1..] + [x];
    }
  }
}
