/** Reading the emitted tokens back by C's precedence rules. */
module HclParse {
  import opened CText
  import opened HclGenerator

  /** `ts` is one unary expression with tree `c`, whatever follows. */
  ghost predicate IsUnary(ts: seq<Tok>, c: C) {
    forall rest: seq<Tok> :: ParseUnary(ts + rest) == Got(c, rest)
  }

  /** Tokens that end an operand list: nothing, or no binary operator. */
  ghost predicate Stops(rest: seq<Tok>, min: nat) {
    rest == [] || !rest[0].Op? || Prec(rest[0].o) < min
  }

  lemma Assoc<T>(a: seq<T>, b: seq<T>, c: seq<T>)
    ensures (a + b) + c == a + (b + c)
  {
  }

  lemma Behead<T>(x: T, s: seq<T>)
    ensures ([x] + s)[1..] == s && ([x] + s)[0] == x
  {
  }

  // One step of the parser each.

  lemma ClimbStop(c: C, min: nat, rest: seq<Tok>)
    requires Stops(rest, min)
    ensures Climb(c, min, rest) == Got(c, rest)
  {
  }

  lemma ClimbStep(lhs: C, min: nat, o: BinOp, ts: seq<Tok>, c: C, rest: seq<Tok>)
    requires Prec(o) >= min && ParseBin(Prec(o) + 1, ts) == Got(c, rest)
    ensures Climb(lhs, min, [Op(o)] + ts) == Climb(CBin(o, lhs, c), min, rest)
  {
    Behead(Op(o), ts);
  }

  lemma BinStart(min: nat, a: seq<Tok>, c: C, ts: seq<Tok>)
    requires IsUnary(a, c)
    ensures ParseBin(min, a + ts) == Climb(c, min, ts)
  {
    assert ParseUnary(a + ts) == Got(c, ts);
  }

  lemma CondPlain(ts: seq<Tok>, c: C, rest: seq<Tok>)
    requires ParseBin(1, ts) == Got(c, rest) && (rest == [] || rest[0] != Ques)
    ensures ParseCond(ts) == Got(c, rest)
  {
  }

  lemma CondStep(ts: seq<Tok>, c: C, ts1: seq<Tok>, t: C, ts2: seq<Tok>, e: C, rest: seq<Tok>)
    requires ParseBin(1, ts) == Got(c, [Ques] + ts1) && ParseCond(ts1) == Got(t, [Colon] + ts2)
    requires ParseCond(ts2) == Got(e, rest)
    ensures ParseCond(ts) == Got(CCond(c, t, e), rest)
  {
    Behead(Ques, ts1);
    Behead(Colon, ts2);
  }

  lemma Parens(inner: seq<Tok>, c: C)
    requires forall rest: seq<Tok> :: ParseCond(inner + ([RP] + rest)) == Got(c, [RP] + rest)
    ensures IsUnary([LP] + (inner + [RP]), c)
  {
    forall rest: seq<Tok> ensures ParseUnary(([LP] + (inner + [RP])) + rest) == Got(c, rest) {
      Assoc([LP], inner + [RP], rest);
      Assoc(inner, [RP], rest);
      Behead(LP, inner + ([RP] + rest));
      Behead(RP, rest);
    }
  }

  lemma ParseOperand(a: seq<Tok>, c: C, min: nat, rest: seq<Tok>)
    requires IsUnary(a, c) && Stops(rest, min)
    ensures ParseBin(min, a + rest) == Got(c, rest)
  {
    hide ParseBin, ParseUnary, Climb;
    BinStart(min, a, c, rest);
    ClimbStop(c, min, rest);
  }

  lemma ParseOne(a: seq<Tok>, c: C, rest: seq<Tok>)
    requires IsUnary(a, c) && Stops(rest, 1) && (rest == [] || rest[0] != Ques)
    ensures ParseCond(a + rest) == Got(c, rest)
  {
    hide ParseBin, ParseUnary, Climb, ParseCond;
    ParseOperand(a, c, 1, rest);
    CondPlain(a + rest, c, rest);
  }

  /** Two operands around an operator. */
  lemma ParseTwo(a: seq<Tok>, ca: C, o: BinOp, b: seq<Tok>, cb: C, min: nat, rest: seq<Tok>)
    requires IsUnary(a, ca) && IsUnary(b, cb) && min <= Prec(o) && Stops(rest, Prec(o) + 1)
    ensures ParseBin(min, (a + ([Op(o)] + b)) + rest) == Climb(CBin(o, ca, cb), min, rest)
  {
    hide ParseBin, ParseUnary, Climb;
    assert (a + ([Op(o)] + b)) + rest == a + ([Op(o)] + (b + rest));
    BinStart(min, a, ca, [Op(o)] + (b + rest));
    ParseOperand(b, cb, Prec(o) + 1, rest);
    ClimbStep(ca, min, o, b + rest, cb, rest);
  }

  lemma ParenBin(a: seq<Tok>, ca: C, o: BinOp, b: seq<Tok>, cb: C)
    requires IsUnary(a, ca) && IsUnary(b, cb)
    ensures IsUnary([LP] + (a + ([Op(o)] + (b + [RP]))), CBin(o, ca, cb))
  {
    var inner := a + ([Op(o)] + b);
    forall rest: seq<Tok> ensures ParseCond(inner + ([RP] + rest)) == Got(CBin(o, ca, cb), [RP] + rest) {
      hide ParseBin, ParseUnary, Climb, ParseCond;
      ParseTwo(a, ca, o, b, cb, 1, [RP] + rest);
      ClimbStop(CBin(o, ca, cb), 1, [RP] + rest);
      CondPlain(inner + ([RP] + rest), CBin(o, ca, cb), [RP] + rest);
    }
    Parens(inner, CBin(o, ca, cb));
    assert [LP] + (inner + [RP]) == [LP] + (a + ([Op(o)] + (b + [RP])));
  }

  lemma NotUnary(a: seq<Tok>, c: C)
    requires IsUnary(a, c)
    ensures IsUnary([Bang] + a, CNot(c))
  {
    forall rest: seq<Tok> ensures ParseUnary([Bang] + a + rest) == Got(CNot(c), rest) {
      Assoc([Bang], a, rest);
      Behead(Bang, a + rest);
    }
  }

  lemma NumUnary(s: string)
    ensures IsUnary(NumToks(s), if s != "" && s[0] == '-' then CNeg(CLit(s[1..])) else CLit(s))
  {
    forall rest: seq<Tok>
      ensures ParseUnary(NumToks(s) + rest) == Got(if s != "" && s[0] == '-' then CNeg(CLit(s[1..])) else CLit(s), rest)
    {
      var ts := NumToks(s) + rest;
      if s != "" && s[0] == '-' {
        assert ts[1..] == [Lit(s[1..])] + rest;
        assert ([Lit(s[1..])] + rest)[1..] == rest;
      } else {
        assert ts[1..] == rest;
      }
    }
  }

  lemma TextUnary(s: string)
    ensures IsUnary([LP, Text(s), RP], CText(s))
  {
    forall rest: seq<Tok> ensures ParseUnary([Text(s)] + rest) == Got(CText(s), rest) {
      assert ([Text(s)] + rest)[1..] == rest;
    }
    forall rest: seq<Tok> ensures ParseCond([Text(s)] + ([RP] + rest)) == Got(CText(s), [RP] + rest) {
      ParseOne([Text(s)], CText(s), [RP] + rest);
    }
    Parens([Text(s)], CText(s));
    assert [LP] + ([Text(s)] + [RP]) == [LP, Text(s), RP];
  }

  // ---------------------------------------------------------------- sets

  /** The tests of a set, joined to the left by ||. */
  function MembersTree(a: C, cs: seq<C>): C {
    if cs == [] then CLit("0")
    else
      var last := CBin(Eq, a, cs[|cs| - 1]);
      if |cs| == 1 then last else CBin(LOr, MembersTree(a, cs[..|cs| - 1]), last)
  }

  /** The tokens of the tests of a set, given those of its members. */
  function MemberToks(a: seq<Tok>, ts: seq<seq<Tok>>): seq<Tok> {
    if ts == [] then []
    else
      var test := a + ([Op(Eq)] + ts[0]);
      if |ts| == 1 then test else test + ([Op(LOr)] + MemberToks(a, ts[1..]))
  }

  /** The tests as one left-grouped chain after `acc`. */
  function Chain(acc: C, a: C, cs: seq<C>): C
    decreases |cs|
  {
    if cs == [] then acc else Chain(CBin(LOr, acc, CBin(Eq, a, cs[0])), a, cs[1..])
  }

  lemma {:induction false} ChainIsTree(acc: C, a: C, init: seq<C>, cs: seq<C>)
    requires init != [] && acc == MembersTree(a, init)
    ensures Chain(acc, a, cs) == MembersTree(a, init + cs)
    decreases |cs|
  {
    if cs == [] {
      assert init + cs == init;
    } else {
      var init' := init + [cs[0]];
      assert init'[..|init'| - 1] == init;
      ChainIsTree(CBin(LOr, acc, CBin(Eq, a, cs[0])), a, init', cs[1..]);
      assert init' + cs[1..] == init + cs;
    }
  }

  /** What follows the first test of a set: nothing more, or the other tests. */
  function MoreToks(a: seq<Tok>, ts: seq<seq<Tok>>): seq<Tok> {
    if ts == [] then [] else [Op(LOr)] + MemberToks(a, ts)
  }

  lemma MemberSplit(a: seq<Tok>, ts: seq<seq<Tok>>, rest: seq<Tok>)
    requires ts != []
    ensures MemberToks(a, ts) + rest == (a + ([Op(Eq)] + ts[0])) + (MoreToks(a, ts[1..]) + rest)
  {
    var test := a + ([Op(Eq)] + ts[0]);
    Assoc(test, MoreToks(a, ts[1..]), rest);
    if |ts| == 1 { assert MoreToks(a, ts[1..]) + rest == rest; }
  }

  lemma MoreStops(a: seq<Tok>, ts: seq<seq<Tok>>, rest: seq<Tok>)
    requires Stops(rest, 1)
    ensures Stops(MoreToks(a, ts) + rest, 2)
  {
    if ts == [] { assert MoreToks(a, ts) + rest == rest; }
  }

  ghost predicate AllUnary(ts: seq<seq<Tok>>, cs: seq<C>) {
    |ts| == |cs| && forall k :: 0 <= k < |ts| ==> IsUnary(ts[k], cs[k])
  }

  lemma {:induction false} ParseMore(a: seq<Tok>, ca: C, ts: seq<seq<Tok>>, cs: seq<C>, acc: C, rest: seq<Tok>)
    requires IsUnary(a, ca) && AllUnary(ts, cs) && Stops(rest, 1)
    ensures Climb(acc, 1, MoreToks(a, ts) + rest) == Got(Chain(acc, ca, cs), rest)
    decreases |ts|
  {
    hide ParseBin, ParseUnary, Climb, IsUnary;
    if ts == [] {
      ClimbStop(acc, 1, rest);
      assert MoreToks(a, ts) + rest == rest;
    } else {
      var tail := MoreToks(a, ts[1..]) + rest;
      MemberSplit(a, ts, rest);
      assert MoreToks(a, ts) + rest == [Op(LOr)] + (MemberToks(a, ts) + rest);
      ParseTwo(a, ca, Eq, ts[0], cs[0], 2, tail);
      MoreStops(a, ts[1..], rest);
      ClimbStop(CBin(Eq, ca, cs[0]), 2, tail);
      ClimbStep(acc, 1, LOr, MemberToks(a, ts) + rest, CBin(Eq, ca, cs[0]), tail);
      ParseMore(a, ca, ts[1..], cs[1..], CBin(LOr, acc, CBin(Eq, ca, cs[0])), rest);
    }
  }

  lemma ParseMembers(a: seq<Tok>, ca: C, ts: seq<seq<Tok>>, cs: seq<C>)
    requires IsUnary(a, ca) && ts != [] && AllUnary(ts, cs)
    ensures IsUnary([LP] + (MemberToks(a, ts) + [RP]), MembersTree(ca, cs))
  {
    var first := CBin(Eq, ca, cs[0]);
    ChainIsTree(first, ca, [cs[0]], cs[1..]);
    assert [cs[0]] + cs[1..] == cs;
    assert AllUnary(ts[1..], cs[1..]);
    forall rest: seq<Tok> ensures ParseCond(MemberToks(a, ts) + ([RP] + rest)) == Got(MembersTree(ca, cs), [RP] + rest) {
      hide ParseBin, ParseUnary, Climb, ParseCond, IsUnary, MemberToks, MoreToks, Chain, MembersTree, AllUnary;
      var close := [RP] + rest;
      var tail := MoreToks(a, ts[1..]) + close;
      MemberSplit(a, ts, close);
      MoreStops(a, ts[1..], close);
      assert IsUnary(ts[0], cs[0]) by { UnaryAt(ts, cs, 0); }
      ParseTwo(a, ca, Eq, ts[0], cs[0], 1, tail);
      ParseMore(a, ca, ts[1..], cs[1..], first, close);
      CondPlain(MemberToks(a, ts) + close, MembersTree(ca, cs), close);
    }
    Parens(MemberToks(a, ts), MembersTree(ca, cs));
  }

  lemma UnaryAt(ts: seq<seq<Tok>>, cs: seq<C>, k: nat)
    requires AllUnary(ts, cs) && k < |ts|
    ensures IsUnary(ts[k], cs[k])
  {
  }

  // ---------------------------------------------------------------- case lists

  /** One arm of a case list and what the rest of it parses as. */
  lemma ParseArm(c: seq<Tok>, cc: C, v: seq<Tok>, cv: C, more: seq<Tok>, e: C, rest: seq<Tok>)
    requires IsUnary(c, cc) && IsUnary(v, cv) && ParseCond(more + rest) == Got(e, rest)
    ensures ParseCond((c + ([Ques] + (v + ([Colon] + more)))) + rest) == Got(CCond(cc, cv, e), rest)
  {
    hide ParseBin, ParseUnary, Climb, ParseCond, IsUnary;
    var ts2 := more + rest;
    var ts1 := v + ([Colon] + ts2);
    assert (c + ([Ques] + (v + ([Colon] + more)))) + rest == c + ([Ques] + ts1);
    ParseOperand(c, cc, 1, [Ques] + ts1);
    ParseOne(v, cv, [Colon] + ts2);
    CondStep(c + ([Ques] + ts1), cc, ts1, cv, ts2, e, rest);
  }

  // ---------------------------------------------------------------- nothing between parentheses

  ghost predicate VoidAt(ts: seq<Tok>, i: int) {
    0 <= i < |ts| - 1 && ts[i] == LP && ts[i + 1] == RP
  }

  /** Somewhere a parenthesis is closed right after it was opened. */
  ghost predicate HasVoid(ts: seq<Tok>) {
    exists i :: VoidAt(ts, i)
  }

  lemma VoidLeft(a: seq<Tok>, b: seq<Tok>)
    requires HasVoid(a)
    ensures HasVoid(a + b)
  {
    var i :| VoidAt(a, i);
    assert VoidAt(a + b, i);
  }

  lemma VoidRight(a: seq<Tok>, b: seq<Tok>)
    requires HasVoid(b)
    ensures HasVoid(a + b)
  {
    var i :| VoidAt(b, i);
    assert VoidAt(a + b, |a| + i);
  }

  lemma VoidMiddle(a: seq<Tok>, b: seq<Tok>, c: seq<Tok>)
    requires HasVoid(b)
    ensures HasVoid(a + (b + c))
  {
    VoidLeft(b, c);
    VoidRight(a, b + c);
  }

  /** What the parser took before `rest` has no such place. */
  ghost predicate Took(ts: seq<Tok>, rest: seq<Tok>) {
    |rest| <= |ts| && ts[|ts| - |rest|..] == rest && forall i :: 0 <= i < |ts| - |rest| ==> !VoidAt(ts, i)
  }

  lemma TookThen(ts: seq<Tok>, mid: seq<Tok>, rest: seq<Tok>)
    requires Took(ts, mid) && Took(mid, rest)
    ensures Took(ts, rest)
  {
    var n := |ts| - |mid|;
    assert ts[n..][|mid| - |rest|..] == ts[|ts| - |rest|..];
    forall i | 0 <= i < |ts| - |rest| ensures !VoidAt(ts, i) {
      if i >= n {
        assert mid[i - n] == ts[i] && !VoidAt(mid, i - n);
      }
    }
  }

  lemma TookOne(ts: seq<Tok>)
    requires ts != [] && (ts[0] == LP ==> |ts| == 1 || ts[1] != RP)
    ensures Took(ts, ts[1..])
  {
  }

  lemma {:induction false} UnaryTook(ts: seq<Tok>)
    ensures var p := ParseUnary(ts); p.Got? ==> Took(ts, p.rest) && ts[0] != RP
    decreases |ts|, 0
  {
    var p := ParseUnary(ts);
    if p.Got? {
      hide Took;
      if ts[0] == LP {
        CondTook(ts[1..]);
        var q := ParseCond(ts[1..]);
        TookOne(ts);
        TookOne(q.rest);
        TookThen(ts, ts[1..], q.rest);
        TookThen(ts, q.rest, p.rest);
      } else {
        TookOne(ts);
        if ts[0] == Bang || ts[0] == Minus {
          UnaryTook(ts[1..]);
          TookThen(ts, ts[1..], p.rest);
        }
      }
    }
  }

  lemma {:induction false} BinTook(min: nat, ts: seq<Tok>)
    ensures var p := ParseBin(min, ts); p.Got? ==> Took(ts, p.rest) && ts != [] && ts[0] != RP
    decreases |ts|, 2
  {
    hide Took;
    UnaryTook(ts);
    var p := ParseUnary(ts);
    if p.Got? {
      ClimbTook(p.c, min, p.rest);
      if ParseBin(min, ts).Got? {
        TookThen(ts, p.rest, ParseBin(min, ts).rest);
      }
    }
  }

  lemma {:induction false} ClimbTook(lhs: C, min: nat, ts: seq<Tok>)
    ensures var p := Climb(lhs, min, ts); p.Got? ==> Took(ts, p.rest)
    decreases |ts|, 1
  {
    if ts == [] || !ts[0].Op? || Prec(ts[0].o) < min {
      assert ts[0..] == ts;
    } else {
      hide Took;
      BinTook(Prec(ts[0].o) + 1, ts[1..]);
      var p := ParseBin(Prec(ts[0].o) + 1, ts[1..]);
      if p.Got? {
        var lhs' := CBin(ts[0].o, lhs, p.c);
        ClimbTook(lhs', min, p.rest);
        TookOne(ts);
        TookThen(ts, ts[1..], p.rest);
        if Climb(lhs', min, p.rest).Got? {
          TookThen(ts, p.rest, Climb(lhs', min, p.rest).rest);
        }
      }
    }
  }

  lemma {:induction false} CondTook(ts: seq<Tok>)
    ensures var p := ParseCond(ts); p.Got? ==> Took(ts, p.rest) && ts != [] && ts[0] != RP
    decreases |ts|, 3
  {
    hide Took, ParseBin, ParseUnary, Climb;
    BinTook(1, ts);
    var p := ParseBin(1, ts);
    if p.Got? && p.rest != [] && p.rest[0] == Ques {
      CondTook(p.rest[1..]);
      var q := ParseCond(p.rest[1..]);
      TookOne(p.rest);
      TookThen(ts, p.rest, p.rest[1..]);
      if q.Got? && q.rest != [] && q.rest[0] == Colon {
        CondTook(q.rest[1..]);
        TookOne(q.rest);
        TookThen(ts, p.rest[1..], q.rest);
        TookThen(ts, q.rest, q.rest[1..]);
        var r := ParseCond(q.rest[1..]);
        if r.Got? { TookThen(ts, q.rest[1..], r.rest); }
      }
    }
  }

  /** Tokens with nothing between some parentheses are no expression. */
  lemma VoidFails(ts: seq<Tok>)
    requires HasVoid(ts)
    ensures var p := ParseCond(ts); !(p.Got? && p.rest == [])
  {
    CondTook(ts);
    var i :| VoidAt(ts, i);
  }

  lemma {:induction false} MembersVoid(a: seq<Tok>, ts: seq<seq<Tok>>, k: nat)
    requires k < |ts| && (HasVoid(a) || HasVoid(ts[k]))
    ensures HasVoid(MemberToks(a, ts))
  {
    var test := a + ([Op(Eq)] + ts[0]);
    if HasVoid(a) || k == 0 {
      if HasVoid(a) {
        VoidLeft(a, [Op(Eq)] + ts[0]);
      } else {
        VoidRight([Op(Eq)], ts[0]);
        VoidRight(a, [Op(Eq)] + ts[0]);
      }
      VoidLeft(test, [Op(LOr)] + MemberToks(a, ts[1..]));
    } else {
      MembersVoid(a, ts[1..], k - 1);
      VoidRight([Op(LOr)], MemberToks(a, ts[1..]));
      VoidRight(test, [Op(LOr)] + MemberToks(a, ts[1..]));
    }
  }
}
