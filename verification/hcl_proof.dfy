/** The emitted C means what the HCL expression means. */
module HclCorrect {
  import opened Numerals
  import opened HclLanguage
  import opened CText
  import opened HclGenerator
  import opened HclParse
  import opened HclSets
  import Bits

  // ---------------------------------------------------------------- trees

  /** The C syntax tree of an expression. */
  function Tree(syms: seq<Signal>, e: Expr): C
    decreases e, 1
  {
    match e
    case Var(name) => var k := Find(syms, name); if k < 0 then CLit("0") else CText(syms[k].text)
    case Num(s) => if s != "" && s[0] == '-' then CNeg(CLit(s[1..])) else CLit(s)
    case Not(a) => CNot(Tree(syms, a))
    case And(a, b) => CBin(BAnd, Tree(syms, a), Tree(syms, b))
    case Or(a, b) => CBin(BOr, Tree(syms, a), Tree(syms, b))
    case Comp(op, a, b) => CBin(COp(op), Tree(syms, a), Tree(syms, b))
    case Ele(a, ms) => MembersTree(Tree(syms, a), seq(|ms|, k requires 0 <= k < |ms| => Tree(syms, ms[k])))
    case Case(arms) => ArmsTree(syms, arms)
  }

  function Trees(syms: seq<Signal>, ms: seq<Expr>): (cs: seq<C>)
    ensures |cs| == |ms|
  {
    seq(|ms|, k requires 0 <= k < |ms| => Tree(syms, ms[k]))
  }

  function ArmsTree(syms: seq<Signal>, arms: seq<Arm>): C
    decreases arms, 0
  {
    if arms == [] then CLit("0")
    else if (assert arms decreases to arms[0]; IsDefault(arms[0])) then Tree(syms, arms[0].val)
    else CCond(Tree(syms, arms[0].cond), Tree(syms, arms[0].val), ArmsTree(syms, arms[1..]))
  }

  lemma EleTree(syms: seq<Signal>, a: Expr, ms: seq<Expr>)
    ensures Tree(syms, Ele(a, ms)) == MembersTree(Tree(syms, a), Trees(syms, ms))
  {
    assert Trees(syms, ms) == seq(|ms|, k requires 0 <= k < |ms| => Tree(syms, ms[k]));
  }

  // ---------------------------------------------------------------- empty sets

  /** No set is empty, as far as the case loop goes: to the first default arm of a case list. */
  ghost predicate Filled(e: Expr)
    decreases e, 1
  {
    match e
    case Var(_) => true
    case Num(_) => true
    case Not(a) => Filled(a)
    case And(a, b) => Filled(a) && Filled(b)
    case Or(a, b) => Filled(a) && Filled(b)
    case Comp(_, a, b) => Filled(a) && Filled(b)
    case Ele(a, ms) => Filled(a) && ms != [] && forall k :: 0 <= k < |ms| ==> Filled(ms[k])
    case Case(arms) => FilledArms(arms)
  }

  ghost predicate FilledArms(arms: seq<Arm>)
    decreases arms, 0
  {
    arms == [] || (assert arms decreases to arms[0];
      Filled(arms[0].val) && (IsDefault(arms[0]) || (Filled(arms[0].cond) && FilledArms(arms[1..]))))
  }

  lemma FilledFront(arm: Arm, arms: seq<Arm>)
    ensures FilledArms([arm] + arms) <==> Filled(arm.val) && (IsDefault(arm) || (Filled(arm.cond) && FilledArms(arms)))
  {
    assert ([arm] + arms)[1..] == arms;
  }

  /** These tokens are one unary expression with that tree, unless an empty set makes them none at all. */
  ghost predicate ReadsAs(ts: seq<Tok>, filled: bool, c: C) {
    if filled then IsUnary(ts, c) else HasVoid(ts)
  }

  // ---------------------------------------------------------------- reading a chain of links

  /** How node n is emitted without error, if it is; e is the spread of what it was built for. */
  ghost predicate Reads(syms: seq<Signal>, n: Node, e: Expr) {
    Gen(syms, n).ok ==> ReadsAs(Gen(syms, n).toks, Filled(e), Tree(syms, e))
  }

  /** The same for a link, as a member and as an arm; l' is what it is spread to. */
  ghost predicate LinkReads(syms: seq<Signal>, l: Link, l': Link) {
    var n := NodeOf(l);
    && l.AsMember? == l'.AsMember?
    && (l.AsMember? ==> !l.e.Case? && Reads(syms, n, l'.e))
    && (!n.arg1.Null? && !n.arg2.Null? ==>
          && HasArm(l') && Reads(syms, n.arg1, ArmOf(l').cond) && Reads(syms, n.arg2, ArmOf(l').val)
          && (n.arg1.kind == N_NUM && NumValue(n.arg1.sval) == 1 <==> IsDefault(ArmOf(l'))))
  }

  ghost predicate ChainReads(syms: seq<Signal>, ls: seq<Link>, ls': seq<Link>) {
    |ls| == |ls'| && forall j :: 0 <= j < |ls| ==> LinkReads(syms, ls[j], ls'[j])
  }

  lemma ChainRest(syms: seq<Signal>, ls: seq<Link>, ls': seq<Link>)
    requires ChainReads(syms, ls, ls') && ls != []
    ensures LinkReads(syms, ls[0], ls'[0]) && ChainReads(syms, ls[1..], ls'[1..])
  {
    hide LinkReads;
  }

  /** One turn of the case loop. */
  lemma ArmStep(syms: seq<Signal>, l: Link, next: Node)
    requires var n := NodeOf(l); GenArms(syms, n.(next := next)).ok
    ensures var n := NodeOf(l);
            && !n.arg1.Null? && !n.arg2.Null? && Gen(syms, n.arg2).ok
            && (if n.arg1.kind == N_NUM && NumValue(n.arg1.sval) == 1
                then GenArms(syms, n.(next := next)).toks == Gen(syms, n.arg2).toks
                else Gen(syms, n.arg1).ok && GenArms(syms, next).ok
                     && GenArms(syms, n.(next := next)).toks ==
                        Gen(syms, n.arg1).toks + ([Ques] + (Gen(syms, n.arg2).toks + ([Colon] + GenArms(syms, next).toks))))
  {
  }

  /** What the case loop emits parses, before a closing parenthesis, as this tree, unless an empty set is in it. */
  ghost predicate ArmsReadAs(ts: seq<Tok>, filled: bool, c: C) {
    if filled then forall rest: seq<Tok> :: ParseCond(ts + ([RP] + rest)) == Got(c, [RP] + rest) else HasVoid(ts)
  }

  lemma ZeroReadsAs()
    ensures ArmsReadAs([Lit("0")], true, CLit("0"))
  {
    forall rest: seq<Tok> ensures ParseCond([Lit("0")] + ([RP] + rest)) == Got(CLit("0"), [RP] + rest) {
      NumUnary("0");
      ParseOne([Lit("0")], CLit("0"), [RP] + rest);
    }
  }

  lemma ValueReadsAs(ts: seq<Tok>, filled: bool, c: C)
    requires ReadsAs(ts, filled, c)
    ensures ArmsReadAs(ts, filled, c)
  {
    if filled {
      hide ParseCond, IsUnary;
      forall rest: seq<Tok> ensures ParseCond(ts + ([RP] + rest)) == Got(c, [RP] + rest) {
        ParseOne(ts, c, [RP] + rest);
      }
    }
  }

  lemma ArmReadsAs(c: seq<Tok>, f: bool, cc: C, v: seq<Tok>, g: bool, cv: C, more: seq<Tok>, h: bool, e: C)
    requires ReadsAs(c, f, cc) && ReadsAs(v, g, cv) && ArmsReadAs(more, h, e)
    ensures ArmsReadAs(c + ([Ques] + (v + ([Colon] + more))), f && g && h, CCond(cc, cv, e))
  {
    hide ParseCond, IsUnary, HasVoid;
    if !f {
      VoidLeft(c, [Ques] + (v + ([Colon] + more)));
    } else if !g {
      VoidMiddle([Ques], v, [Colon] + more);
      VoidRight(c, [Ques] + (v + ([Colon] + more)));
    } else if !h {
      VoidRight([Colon], more);
      VoidRight(v, [Colon] + more);
      VoidRight([Ques], v + ([Colon] + more));
      VoidRight(c, [Ques] + (v + ([Colon] + more)));
    } else {
      var ts := c + ([Ques] + (v + ([Colon] + more)));
      forall rest: seq<Tok> ensures ParseCond(ts + ([RP] + rest)) == Got(CCond(cc, cv, e), [RP] + rest) {
        ParseArm(c, cc, v, cv, more, e, [RP] + rest);
      }
    }
  }

  /** The case loop from a link on reads the arms from there to the end of the chain, or to a default arm. */
  lemma {:induction false} ArmsRead(syms: seq<Signal>, ls: seq<Link>, ls': seq<Link>)
    requires ChainReads(syms, ls, ls') && GenArms(syms, Chained(ls)).ok
    ensures var arms := ArmsFrom(ls'); ArmsReadAs(GenArms(syms, Chained(ls)).toks, FilledArms(arms), ArmsTree(syms, arms))
    decreases |ls|
  {
    if ls == [] {
      ZeroReadsAs();
    } else {
      ChainRest(syms, ls, ls');
      ArmStep(syms, ls[0], Chained(ls[1..]));
      var n, arm := NodeOf(ls[0]), ArmOf(ls'[0]);
      hide ParseCond, IsUnary, Gen, GenArms, Tree, IsDefault, NodeOf, ArmOf, ChainReads, HasArm, ReadsAs, ArmsReadAs, Filled, FilledArms;
      if IsDefault(arm) {
        ValueReadsAs(Gen(syms, n.arg2).toks, Filled(arm.val), Tree(syms, arm.val));
        DefaultTree(syms, arm, []);
        FilledFront(arm, []);
        assert [arm] + [] == [arm];
      } else {
        ArmsRead(syms, ls[1..], ls'[1..]);
        var more := ArmsFrom(ls'[1..]);
        ArmReadsAs(Gen(syms, n.arg1).toks, Filled(arm.cond), Tree(syms, arm.cond),
                   Gen(syms, n.arg2).toks, Filled(arm.val), Tree(syms, arm.val),
                   GenArms(syms, Chained(ls[1..])).toks, FilledArms(more), ArmsTree(syms, more));
        DefaultTree(syms, arm, more);
        FilledFront(arm, more);
      }
    }
  }

  lemma DefaultTree(syms: seq<Signal>, arm: Arm, arms: seq<Arm>)
    ensures ArmsTree(syms, [arm] + arms) == if IsDefault(arm) then Tree(syms, arm.val)
                                           else CCond(Tree(syms, arm.cond), Tree(syms, arm.val), ArmsTree(syms, arms))
  {
    assert ([arm] + arms)[1..] == arms;
  }

  lemma CaseReads(syms: seq<Signal>, ls: seq<Link>, ls': seq<Link>)
    requires ChainReads(syms, ls, ls') && GenArms(syms, Chained(ls)).ok
    ensures var arms := ArmsFrom(ls');
            ReadsAs([LP] + (GenArms(syms, Chained(ls)).toks + [RP]), FilledArms(arms), ArmsTree(syms, arms))
  {
    hide ParseCond, IsUnary, ArmsTree, GenArms, ChainReads, ArmsFrom, Chained, HasVoid;
    ArmsRead(syms, ls, ls');
    var ts, arms := GenArms(syms, Chained(ls)).toks, ArmsFrom(ls');
    if FilledArms(arms) {
      Parens(ts, ArmsTree(syms, arms));
    } else {
      VoidMiddle([LP], ts, [RP]);
    }
  }

  lemma GenIgnoresNext(syms: seq<Signal>, n: Node, next: Node)
    requires !n.Null? && n.kind != N_CASE
    ensures Gen(syms, n.(next := next)) == Gen(syms, n)
  {
  }

  lemma FirstMember(ls: seq<Link>)
    requires ls != []
    ensures Members(ls)[0] == if ls[0].AsMember? then ls[0].e else Case(ArmsFrom(ls))
  {
  }

  /** The first node of a chain reads as the first member of the spread. */
  lemma FirstReads(syms: seq<Signal>, ls: seq<Link>, ls': seq<Link>)
    requires ChainReads(syms, ls, ls') && ls != []
    ensures Reads(syms, Chained(ls), Members(ls')[0])
  {
    ChainRest(syms, ls, ls');
    FirstMember(ls');
    hide ChainReads, Members, ArmsFrom, IsUnary, HasVoid;
    if ls[0].AsMember? {
      FreshNode(ls[0].e);
      GenIgnoresNext(syms, NodeOf(ls[0]), Chained(ls[1..]));
      hide Gen, Tree, Filled, ReadsAs;
    } else if Gen(syms, Chained(ls)).ok {
      CaseNode(syms, ls);
      CaseReads(syms, ls, ls');
      CaseTree(syms, Case(ArmsFrom(ls')));
      assert Filled(Case(ArmsFrom(ls'))) == FilledArms(ArmsFrom(ls'));
      hide Gen, GenArms, Tree, Filled, ReadsAs, LinkReads;
    }
  }

  lemma CaseNode(syms: seq<Signal>, ls: seq<Link>)
    requires ls != [] && ls[0].AsArm?
    ensures Gen(syms, Chained(ls)).ok ==> GenArms(syms, Chained(ls)).ok
    ensures Gen(syms, Chained(ls)).toks == [LP] + (GenArms(syms, Chained(ls)).toks + [RP])
  {
    hide GenArms;
  }

  /** The tokens of each member of a chain. */
  function ChainToks(syms: seq<Signal>, ls: seq<Link>): (ts: seq<seq<Tok>>)
    ensures |ts| == |ls|
  {
    if ls == [] then [] else [Gen(syms, Chained(ls)).toks] + ChainToks(syms, ls[1..])
  }

  ghost predicate ChainOk(syms: seq<Signal>, ls: seq<Link>) {
    ls == [] || (Gen(syms, Chained(ls)).ok && ChainOk(syms, ls[1..]))
  }

  /** The loop over a set emits one test for each link. */
  lemma {:induction false} MembersGen(syms: seq<Signal>, arg: Node, ls: seq<Link>)
    ensures GenMembers(syms, arg, Chained(ls)).toks == MemberToks(Gen(syms, arg).toks, ChainToks(syms, ls))
    ensures GenMembers(syms, arg, Chained(ls)).ok ==> (ls != [] ==> Gen(syms, arg).ok) && ChainOk(syms, ls)
  {
    if ls != [] {
      var n := Chained(ls);
      assert n.next == Chained(ls[1..]);
      if ls[1..] != [] {
        MembersGen(syms, arg, ls[1..]);
      }
      hide Gen;
      assert ChainToks(syms, ls)[1..] == ChainToks(syms, ls[1..]);
    }
  }

  ghost predicate MembersRead(syms: seq<Signal>, ts: seq<seq<Tok>>, ms: seq<Expr>) {
    |ts| == |ms| && forall k :: 0 <= k < |ts| ==> ReadsAs(ts[k], Filled(ms[k]), Tree(syms, ms[k]))
  }

  lemma {:induction false} ChainMembers(syms: seq<Signal>, ls: seq<Link>, ls': seq<Link>)
    requires ChainReads(syms, ls, ls') && ChainOk(syms, ls)
    ensures MembersRead(syms, ChainToks(syms, ls), Members(ls'))
  {
    if ls != [] {
      ChainRest(syms, ls, ls');
      FirstReads(syms, ls, ls');
      hide ChainReads, ReadsAs, Gen, Tree, LinkReads, Filled;
      ChainMembers(syms, ls[1..], ls'[1..]);
      assert Members(ls')[1..] == Members(ls'[1..]);
    }
  }

  /** A set reads as the test of its members, unless it is empty or an empty set is in it. */
  lemma SetReadsAs(syms: seq<Signal>, arg: seq<Tok>, a: Expr, ts: seq<seq<Tok>>, ms: seq<Expr>)
    requires MembersRead(syms, ts, ms) && (ms != [] ==> ReadsAs(arg, Filled(a), Tree(syms, a)))
    ensures ms == [] || (Filled(a) && forall k :: 0 <= k < |ms| ==> Filled(ms[k])) || HasVoid(MemberToks(arg, ts))
    ensures ms != [] && Filled(a) && (forall k :: 0 <= k < |ms| ==> Filled(ms[k])) ==>
              IsUnary([LP] + (MemberToks(arg, ts) + [RP]), MembersTree(Tree(syms, a), Trees(syms, ms)))
  {
    hide IsUnary, Filled, Tree, MemberToks, HasVoid;
    if ms != [] {
      if !Filled(a) {
        MembersVoid(arg, ts, 0);
      } else if k :| 0 <= k < |ms| && !Filled(ms[k]) {
        assert ReadsAs(ts[k], Filled(ms[k]), Tree(syms, ms[k]));
        MembersVoid(arg, ts, k);
      } else {
        assert AllUnary(ts, Trees(syms, ms));
        ParseMembers(arg, Tree(syms, a), ts, Trees(syms, ms));
      }
    }
  }

  // ---------------------------------------------------------------- every expression

  lemma NumberNode(e: Expr)
    ensures Build(e).Node? && Build(e).kind == N_NUM <==> e.Num?
    ensures Build(e).Node? && Build(e).kind == N_NUM ==> Build(e).sval == e.sval
  {
    if e.Case? { BuildOwn(e); }
  }

  lemma SpreadDefault(e: Expr)
    ensures Spread(e).Num? <==> e.Num?
    ensures e.Num? ==> Spread(e) == e
  {
  }

  lemma ArmReads(syms: seq<Signal>, arm: Arm)
    ensures LinkReads(syms, AsArm(arm), SpreadLink(AsArm(arm)))
    decreases arm
  {
    GenIsUnary(syms, arm.cond);
    GenIsUnary(syms, arm.val);
    hide ReadsAs, Gen, Tree, Filled;
    NumberNode(arm.cond);
    SpreadDefault(arm.cond);
  }

  lemma MemberReads(syms: seq<Signal>, e: Expr)
    requires !e.Case?
    ensures LinkReads(syms, AsMember(e), SpreadLink(AsMember(e)))
    decreases e, 2
  {
    GenIsUnary(syms, e);
    hide ReadsAs, Gen, Tree, Filled;
    match e {
      case And(a, b) => PairReads(syms, e, a, b);
      case Or(a, b) => PairReads(syms, e, a, b);
      case Comp(_, a, b) => PairReads(syms, e, a, b);
      case Ele(a, ms) => FirstOfSetReads(syms, e, a, ms);
      case _ =>
    }
  }

  lemma FirstOfSetReads(syms: seq<Signal>, e: Expr, a: Expr, ms: seq<Expr>)
    requires e == Ele(a, ms) && Reads(syms, Build(e), Spread(e))
    ensures LinkReads(syms, AsMember(e), SpreadLink(AsMember(e)))
    decreases e, 0
  {
    hide Reads;
    GenIsUnary(syms, a);
    NumberNode(a);
    SpreadDefault(a);
    SetReads(syms, ms);
    BuildSetLinks(ms);
    SpreadLinks(ms);
    SpreadSet(a, ms);
    if Links(ms) != [] {
      FirstReads(syms, Links(ms), Links(SpreadEach(ms)));
    }
    hide Links, Members, ChainReads, SpreadEach;
  }

  lemma PairReads(syms: seq<Signal>, e: Expr, a: Expr, b: Expr)
    requires (e.And? || e.Or? || e.Comp?) && e.arg1 == a && e.arg2 == b && Reads(syms, Build(e), Spread(e))
    ensures LinkReads(syms, AsMember(e), SpreadLink(AsMember(e)))
    decreases e, 0
  {
    GenIsUnary(syms, a);
    GenIsUnary(syms, b);
    hide ReadsAs, Gen, Tree, Filled;
    NumberNode(a);
    SpreadDefault(a);
  }

  lemma SetReads(syms: seq<Signal>, ms: seq<Expr>)
    ensures ChainReads(syms, Links(ms), Links(SpreadEach(ms)))
    decreases ms, 0
  {
    hide LinkReads, Links, Spread, SpreadEach;
    LinksFromMembers(ms);
    SpreadLinks(ms);
    forall j | 0 <= j < |Links(ms)| ensures LinkReads(syms, Links(ms)[j], Links(SpreadEach(ms))[j]) {
      var l := Links(ms)[j];
      assert l in Links(ms) && FromMembers(ms, l);
      if l.AsMember? {
        var k :| 0 <= k < |ms| && ms[k] == l.e;
        assert ms decreases to ms[k];
        MemberReads(syms, l.e);
      } else {
        var k, i :| 0 <= k < |ms| && ms[k].Case? && 0 <= i < |ms[k].arms| && ms[k].arms[i] == l.arm;
        assert ms decreases to ms[k];
        assert ms[k].arms decreases to ms[k].arms[i];
        ArmReads(syms, l.arm);
      }
    }
  }

  /** Whatever is emitted without error is one unary expression of C, with the tree of the spread expression; an
      empty set in it leaves nothing between two parentheses. */
  lemma {:induction false} GenIsUnary(syms: seq<Signal>, e: Expr)
    ensures Reads(syms, Build(e), Spread(e))
    decreases e, 1
  {
    hide IsUnary, HasVoid;
    if Gen(syms, Build(e)).ok {
      match e {
        case Var(name) => TextUnary(syms[Find(syms, name)].text);
        case Num(s) => NumUnary(s);
        case Not(a) =>
          GenIsUnary(syms, a);
          NotReadsAs(Gen(syms, Build(a)).toks, Filled(Spread(a)), Tree(syms, Spread(a)));
        case And(a, b) => BinaryReads(syms, e, a, b, BAnd);
        case Or(a, b) => BinaryReads(syms, e, a, b, BOr);
        case Comp(op, a, b) => BinaryReads(syms, e, a, b, COp(op));
        case Ele(a, ms) => EleReads(syms, e, a, ms);
        case Case(arms) => CaseListReads(syms, e, arms);
      }
    }
  }

  lemma NotReadsAs(ts: seq<Tok>, filled: bool, c: C)
    requires ReadsAs(ts, filled, c)
    ensures ReadsAs([Bang] + ts, filled, CNot(c))
  {
    hide IsUnary, HasVoid;
    if filled {
      NotUnary(ts, c);
    } else {
      VoidRight([Bang], ts);
    }
  }

  lemma BinReadsAs(a: seq<Tok>, f: bool, ca: C, o: BinOp, b: seq<Tok>, g: bool, cb: C)
    requires ReadsAs(a, f, ca) && ReadsAs(b, g, cb)
    ensures ReadsAs([LP] + (a + ([Op(o)] + (b + [RP]))), f && g, CBin(o, ca, cb))
  {
    hide IsUnary, HasVoid;
    if !f {
      VoidMiddle([LP], a, [Op(o)] + (b + [RP]));
    } else if !g {
      VoidMiddle([Op(o)], b, [RP]);
      VoidRight(a, [Op(o)] + (b + [RP]));
      VoidRight([LP], a + ([Op(o)] + (b + [RP])));
    } else {
      ParenBin(a, ca, o, b, cb);
    }
  }

  lemma BinaryReads(syms: seq<Signal>, e: Expr, a: Expr, b: Expr, o: BinOp)
    requires (e == And(a, b) && o == BAnd) || (e == Or(a, b) && o == BOr) || (e.Comp? && e.arg1 == a && e.arg2 == b && o == COp(e.op))
    requires Gen(syms, Build(e)).ok
    ensures Reads(syms, Build(e), Spread(e))
    decreases e, 0
  {
    hide ReadsAs;
    GenIsUnary(syms, a);
    GenIsUnary(syms, b);
    BinReadsAs(Gen(syms, Build(a)).toks, Filled(Spread(a)), Tree(syms, Spread(a)), o,
               Gen(syms, Build(b)).toks, Filled(Spread(b)), Tree(syms, Spread(b)));
  }

  lemma EleReads(syms: seq<Signal>, e: Expr, a: Expr, ms: seq<Expr>)
    requires e == Ele(a, ms) && Gen(syms, Build(e)).ok
    ensures Reads(syms, Build(e), Spread(e))
    decreases e, 0
  {
    var ls, ls' := Links(ms), Links(SpreadEach(ms));
    var arg, ts, sms := Gen(syms, Build(a)).toks, ChainToks(syms, ls), Members(ls');
    assert Gen(syms, Build(e)).toks == [LP] + (GenMembers(syms, Build(a), BuildSet(ms)).toks + [RP]);
    EleParts(syms, a, ms);
    hide IsUnary, HasVoid, Gen, GenMembers, Tree, ChainReads, Filled;
    BuildSetLinks(ms);
    GenIsUnary(syms, a);
    SetReads(syms, ms);
    MembersGen(syms, Build(a), ls);
    ChainMembers(syms, ls, ls');
    SpreadSet(a, ms);
    hide Links, Members, MemberToks, ChainToks, MembersRead, SpreadEach, Spread, Build, ChainOk;
    SetReadsAs(syms, arg, Spread(a), ts, sms);
    EleReadsAs(syms, Spread(a), sms, MemberToks(arg, ts));
  }

  lemma EleReadsAs(syms: seq<Signal>, a: Expr, ms: seq<Expr>, tests: seq<Tok>)
    requires ms == [] ==> tests == []
    requires ms == [] || (Filled(a) && forall k :: 0 <= k < |ms| ==> Filled(ms[k])) || HasVoid(tests)
    requires ms != [] && Filled(a) && (forall k :: 0 <= k < |ms| ==> Filled(ms[k])) ==>
               IsUnary([LP] + (tests + [RP]), MembersTree(Tree(syms, a), Trees(syms, ms)))
    ensures ReadsAs([LP] + (tests + [RP]), Filled(Ele(a, ms)), Tree(syms, Ele(a, ms)))
  {
    hide IsUnary;
    EleTree(syms, a, ms);
    if ms == [] {
      assert VoidAt([LP] + (tests + [RP]), 0);
    } else if HasVoid(tests) {
      VoidMiddle([LP], tests, [RP]);
      hide HasVoid;
    }
  }

  lemma EleParts(syms: seq<Signal>, a: Expr, ms: seq<Expr>)
    ensures Gen(syms, Build(Ele(a, ms))).ok ==> GenMembers(syms, Build(a), BuildSet(ms)).ok
  {
  }

  lemma CaseListReads(syms: seq<Signal>, e: Expr, arms: seq<Arm>)
    requires e == Case(arms) && Gen(syms, Build(e)).ok
    ensures Reads(syms, Build(e), Spread(e))
    decreases e, 0
  {
    var ls, ls' := Own(e), Own(Spread(e));
    BuildOwn(e);
    forall j | 0 <= j < |ls| ensures LinkReads(syms, ls[j], ls'[j]) {
      assert arms decreases to arms[j];
      ArmReads(syms, arms[j]);
    }
    hide LinkReads, ReadsAs, Gen, Tree, Build, Spread, ChainReads, Filled;
    assert ls != [] by {
      NothingOk(syms, e);
    }
    CaseNode(syms, ls);
    CaseReads(syms, ls, ls');
    OwnArms(syms, Spread(e).arms);
    CaseTree(syms, Spread(e));
  }

  lemma NothingOk(syms: seq<Signal>, e: Expr)
    requires Gen(syms, Build(e)).ok && e.Case?
    ensures Own(e) != [] && Spread(e).Case?
  {
    BuildOwn(e);
  }

  lemma CaseTree(syms: seq<Signal>, e: Expr)
    requires e.Case?
    ensures Tree(syms, e) == ArmsTree(syms, e.arms) && Filled(e) == FilledArms(e.arms)
  {
  }

  /** Reading a case list's own links up to a default arm gives the tree of all its arms. */
  lemma {:induction false} OwnArms(syms: seq<Signal>, arms: seq<Arm>)
    ensures ArmsTree(syms, ArmsFrom(Own(Case(arms)))) == ArmsTree(syms, arms)
    ensures FilledArms(ArmsFrom(Own(Case(arms)))) <==> FilledArms(arms)
  {
    if arms != [] {
      var ls := Own(Case(arms));
      assert ls[1..] == Own(Case(arms[1..]));
      OwnArms(syms, arms[1..]);
      assert arms == [arms[0]] + arms[1..];
      hide IsDefault, Tree, Filled, FilledArms;
      FilledFront(arms[0], arms[1..]);
      FilledFront(arms[0], ArmsFrom(ls[1..]));
      FilledFront(arms[0], []);
      DefaultTree(syms, arms[0], arms[1..]);
      DefaultTree(syms, arms[0], ArmsFrom(ls[1..]));
      DefaultTree(syms, arms[0], []);
      assert [arms[0]] + [] == [arms[0]];
    }
  }

  // ---------------------------------------------------------------- numbers and Booleans

  ghost predicate Digits(s: string) {
    s != "" && forall k :: 0 <= k < |s| ==> '0' <= s[k] <= '9'
  }

  /** A literal C reads as written: no leading zero, or nothing but zeros before a last octal digit. */
  ghost predicate PlainNumber(s: string) {
    |s| <= 1 || s[0] != '0' || ((forall k :: 0 <= k < |s| - 1 ==> s[k] == '0') && s[|s| - 1] <= '7')
  }

  /** A literal with a leading zero has octal digits only. */
  ghost predicate ValidLit(s: string) {
    |s| > 1 && s[0] == '0' ==> forall k :: 0 <= k < |s| ==> s[k] <= '7'
  }

  lemma {:induction false} ZeroNumeral(s: string, base: int)
    requires (base == 8 || base == 10) && forall k :: 0 <= k < |s| ==> '0' <= s[k] <= '9'
    ensures Numeral(s, base) >= 0
    ensures Numeral(s, base) == 0 <==> forall k :: 0 <= k < |s| ==> s[k] == '0'
  {
    if s != "" {
      var init := s[..|s| - 1];
      ZeroNumeral(init, base);
      assert forall k :: 0 <= k < |init| ==> init[k] == s[k];
      assert base * Numeral(init, base) == if base == 8 then 8 * Numeral(init, 8) else 10 * Numeral(init, 10);
    }
  }

  lemma {:induction false} OctalBelow(s: string)
    requires forall k :: 0 <= k < |s| ==> '0' <= s[k] <= '9'
    ensures Numeral(s, 8) <= Numeral(s, 10)
  {
    if s != "" {
      OctalBelow(s[..|s| - 1]);
      ZeroNumeral(s[..|s| - 1], 10);
    }
  }

  /** C gives a numeral its decimal value exactly when it is plain. */
  lemma LitExact(s: string)
    requires Digits(s)
    ensures ValidLit(s) && LitValue(s) == Numeral(s, 10) <==> PlainNumber(s)
  {
    if |s| > 1 && s[0] == '0' {
      var init := s[..|s| - 1];
      assert forall k :: 0 <= k < |init| ==> init[k] == s[k];
      ZeroNumeral(init, 10);
      ZeroNumeral(init, 8);
      OctalBelow(init);
      if Numeral(init, 10) != 0 {
        assert Numeral(s, 8) < Numeral(s, 10);
      }
    }
  }

  ghost predicate NumberText(s: string) {
    if s != "" && s[0] == '-' then Digits(s[1..]) && PlainNumber(s[1..]) else Digits(s) && PlainNumber(s)
  }

  /** Every number in the expression is written plainly. */
  ghost predicate PlainNumbers(e: Expr)
    decreases e
  {
    match e
    case Var(_) => true
    case Num(s) => NumberText(s)
    case Not(a) => PlainNumbers(a)
    case And(a, b) => PlainNumbers(a) && PlainNumbers(b)
    case Or(a, b) => PlainNumbers(a) && PlainNumbers(b)
    case Comp(_, a, b) => PlainNumbers(a) && PlainNumbers(b)
    case Ele(a, ms) => PlainNumbers(a) && forall k :: 0 <= k < |ms| ==> PlainNumbers(ms[k])
    case Case(arms) =>
      forall k :: 0 <= k < |arms| ==> (assert arms decreases to arms[k]; PlainNumbers(arms[k].cond) && PlainNumbers(arms[k].val))
  }

  /** The C text of every boolsig is worth 0 or 1. */
  ghost predicate BoolSignals(syms: seq<Signal>, env: Env) {
    forall k :: 0 <= k < |syms| && syms[k].isbool ==> 0 <= env(syms[k].text) <= 1
  }

  lemma BitsAreLogic(x: int, y: int)
    requires 0 <= x <= 1 && 0 <= y <= 1
    ensures Bits.And(x, y) == Bits.Truth(x != 0 && y != 0)
    ensures Bits.Or(x, y) == Bits.Truth(x != 0 || y != 0)
  {
    assert Bits.And(-1, -1) == -1 && Bits.And(-1, -2) == -2 && Bits.And(-2, -1) == -2;
    assert Bits.And(-2, -2) == -2 by { assert Bits.And(-1, -1) == -1; }
    assert Bits.And(1, 1) == 1 by { assert Bits.And(0, 0) == 0; }
  }

  /** A node check_arg takes for a Boolean, told by the expression alone. */
  predicate Bit(syms: seq<Signal>, e: Expr) {
    match e
    case Var(name) => var k := Find(syms, name); k >= 0 && syms[k].isbool
    case Num(s) => s == "0" || s == "1"
    case Case(_) => false
    case _ => true
  }

  lemma CheckedBit(syms: seq<Signal>, e: Expr)
    requires CheckArg(syms, Build(e), true)
    ensures Bit(syms, e) && Bit(syms, Spread(e))
  {
    if e.Case? { BuildOwn(e); }
  }

  lemma BitIsBit(syms: seq<Signal>, env: Env, e: Expr)
    requires BoolSignals(syms, env) && Bit(syms, e)
    ensures 0 <= Meaning(e, syms, env) <= 1
  {
    match e {
      case Num(s) => assert "0"[..0] == "" && "1"[..0] == "";
      case _ =>
    }
  }

  /** What check_arg takes for a Boolean is worth 0 or 1, and so is its spread. */
  lemma BooleansAreBits(syms: seq<Signal>, env: Env, e: Expr)
    requires BoolSignals(syms, env) && CheckArg(syms, Build(e), true)
    ensures 0 <= Meaning(e, syms, env) <= 1 && 0 <= Meaning(Spread(e), syms, env) <= 1
  {
    CheckedBit(syms, e);
    BitIsBit(syms, env, e);
    BitIsBit(syms, env, Spread(e));
  }

  /** Operands of & and | are Booleans and numbers are plain, all the way down. */
  ghost predicate Good(syms: seq<Signal>, e: Expr)
    decreases e
  {
    match e
    case Var(_) => true
    case Num(s) => NumberText(s)
    case Not(a) => Good(syms, a)
    case And(a, b) => Good(syms, a) && Good(syms, b) && Bit(syms, a) && Bit(syms, b)
    case Or(a, b) => Good(syms, a) && Good(syms, b) && Bit(syms, a) && Bit(syms, b)
    case Comp(_, a, b) => Good(syms, a) && Good(syms, b)
    case Ele(a, ms) => Good(syms, a) && forall k :: 0 <= k < |ms| ==> Good(syms, ms[k])
    case Case(arms) =>
      forall k :: 0 <= k < |arms| ==> (assert arms decreases to arms[k]; Good(syms, arms[k].cond) && Good(syms, arms[k].val))
  }

  ghost predicate GoodArm(syms: seq<Signal>, arm: Arm) {
    Good(syms, arm.cond) && Good(syms, arm.val)
  }

  ghost predicate GoodLink(syms: seq<Signal>, l: Link) {
    match l
    case AsArm(arm) => GoodArm(syms, arm)
    case AsMember(e) => Good(syms, e)
  }

  /** What a set is spread to is as good as its links. */
  lemma {:induction false} ArmsFromGood(syms: seq<Signal>, ls: seq<Link>)
    requires forall j :: 0 <= j < |ls| ==> GoodLink(syms, ls[j])
    ensures forall k :: 0 <= k < |ArmsFrom(ls)| ==> GoodArm(syms, ArmsFrom(ls)[k])
  {
    if ls != [] && HasArm(ls[0]) {
      ArmsFromGood(syms, ls[1..]);
      assert GoodLink(syms, ls[0]);
      assert GoodArm(syms, ArmOf(ls[0]));
    }
  }

  lemma {:induction false} MembersGood(syms: seq<Signal>, ls: seq<Link>)
    requires forall j :: 0 <= j < |ls| ==> GoodLink(syms, ls[j])
    ensures forall k :: 0 <= k < |Members(ls)| ==> Good(syms, Members(ls)[k])
  {
    if ls != [] {
      ArmsFromGood(syms, ls);
      assert GoodLink(syms, ls[0]);
      MembersGood(syms, ls[1..]);
    }
  }

  lemma {:induction false} SpreadGood(syms: seq<Signal>, e: Expr)
    requires Checked(syms, e) && PlainNumbers(e)
    ensures Good(syms, Spread(e))
    decreases e
  {
    match e {
      case Var(_) =>
      case Num(_) =>
      case Not(a) => SpreadGood(syms, a);
      case And(a, b) => PairGood(syms, e, a, b);
      case Or(a, b) => PairGood(syms, e, a, b);
      case Comp(_, a, b) =>
        SpreadGood(syms, a);
        SpreadGood(syms, b);
      case Ele(a, ms) =>
        SpreadGood(syms, a);
        forall k | 0 <= k < |ms| ensures Good(syms, Spread(ms[k])) {
          SpreadGood(syms, ms[k]);
        }
        SpreadSet(a, ms);
        LinksGood(syms, SpreadEach(ms));
        MembersGood(syms, Links(SpreadEach(ms)));
      case Case(arms) =>
        forall k | 0 <= k < |arms| ensures Good(syms, Spread(arms[k].cond)) && Good(syms, Spread(arms[k].val)) {
          assert arms decreases to arms[k];
          SpreadGood(syms, arms[k].cond);
          SpreadGood(syms, arms[k].val);
        }
    }
  }

  lemma PairGood(syms: seq<Signal>, e: Expr, a: Expr, b: Expr)
    requires (e == And(a, b) || e == Or(a, b)) && Checked(syms, e) && PlainNumbers(e)
    ensures Good(syms, Spread(e))
    decreases e, 0
  {
    SpreadGood(syms, a);
    SpreadGood(syms, b);
    CheckedBit(syms, a);
    CheckedBit(syms, b);
  }

  lemma {:induction false} LinksGood(syms: seq<Signal>, ms: seq<Expr>)
    requires forall k :: 0 <= k < |ms| ==> Good(syms, ms[k])
    ensures forall j :: 0 <= j < |Links(ms)| ==> GoodLink(syms, Links(ms)[j])
  {
    LinksFromMembers(ms);
    forall j | 0 <= j < |Links(ms)| ensures GoodLink(syms, Links(ms)[j]) {
      var l := Links(ms)[j];
      assert l in Links(ms) && FromMembers(ms, l);
      if l.AsArm? {
        var k, i :| 0 <= k < |ms| && ms[k].Case? && 0 <= i < |ms[k].arms| && ms[k].arms[i] == l.arm;
        assert Good(syms, ms[k]);
      }
    }
  }

  // ---------------------------------------------------------------- what a tree is worth

  lemma LogicMeans(syms: seq<Signal>, env: Env, a: Expr, b: Expr)
    requires BoolSignals(syms, env) && Bit(syms, a) && Bit(syms, b)
    ensures var x, y := Meaning(a, syms, env), Meaning(b, syms, env);
            && Bits.And(x, y) == Meaning(And(a, b), syms, env)
            && Bits.Or(x, y) == Meaning(Or(a, b), syms, env)
  {
    BitIsBit(syms, env, a);
    BitIsBit(syms, env, b);
    hide Bit, BoolSignals, Bits.And, Bits.Or;
    BitsAreLogic(Meaning(a, syms, env), Meaning(b, syms, env));
  }

  /** The tree of an expression with Boolean operands of & and | is worth what the expression means. */
  lemma {:induction false} TreeMeans(syms: seq<Signal>, env: Env, e: Expr)
    requires Good(syms, e) && BoolSignals(syms, env)
    ensures Eval(Tree(syms, e), env) == Meaning(e, syms, env)
    decreases e, 1
  {
    hide BoolSignals, Bits.And, Bits.Or, LitValue, Numeral;
    match e {
      case Var(_) => ZeroLit();
      case Num(s) => LitExact(if s[0] == '-' then s[1..] else s);
      case Not(a) => TreeMeans(syms, env, a);
      case And(a, b) => PairMeans(syms, env, e, a, b);
      case Or(a, b) => PairMeans(syms, env, e, a, b);
      case Comp(op, a, b) =>
        TreeMeans(syms, env, a);
        TreeMeans(syms, env, b);
      case Ele(a, ms) => SetMeans(syms, env, e, a, ms);
      case Case(arms) => ArmsMean(syms, env, arms);
    }
  }

  lemma PairMeans(syms: seq<Signal>, env: Env, e: Expr, a: Expr, b: Expr)
    requires (e == And(a, b) || e == Or(a, b)) && Good(syms, e) && BoolSignals(syms, env)
    ensures Eval(Tree(syms, e), env) == Meaning(e, syms, env)
    decreases e, 0
  {
    hide BoolSignals, Bits.And, Bits.Or;
    TreeMeans(syms, env, a);
    TreeMeans(syms, env, b);
    LogicMeans(syms, env, a, b);
  }

  lemma SetMeans(syms: seq<Signal>, env: Env, e: Expr, a: Expr, ms: seq<Expr>)
    requires e == Ele(a, ms) && Good(syms, e) && BoolSignals(syms, env)
    ensures Eval(Tree(syms, e), env) == Meaning(e, syms, env)
    decreases e, 0
  {
    TreeMeans(syms, env, a);
    forall k | 0 <= k < |ms| ensures Eval(Tree(syms, ms[k]), env) == Meaning(ms[k], syms, env) {
      TreeMeans(syms, env, ms[k]);
    }
    EleTree(syms, a, ms);
    hide BoolSignals, Eval, Tree, Meaning, SomeWorth, SomeEqual;
    MembersMean(env, Tree(syms, a), Trees(syms, ms));
    SetMeaning(syms, env, a, ms);
  }

  ghost predicate SomeWorth(env: Env, cs: seq<C>, v: int) {
    exists k :: 0 <= k < |cs| && Eval(cs[k], env) == v
  }

  lemma {:induction false} MembersMean(env: Env, a: C, cs: seq<C>)
    ensures Eval(MembersTree(a, cs), env) == Bits.Truth(SomeWorth(env, cs, Eval(a, env)))
  {
    if cs == [] {
      ZeroLit();
    } else {
      var n, v := |cs| - 1, Eval(a, env);
      var init := cs[..n];
      hide LitValue;
      assert SomeWorth(env, cs, v) <==> SomeWorth(env, init, v) || Eval(cs[n], env) == v by {
        WorthLast(env, cs, v);
      }
      if n > 0 {
        MembersMean(env, a, init);
      } else {
        assert !SomeWorth(env, init, v);
      }
      hide SomeWorth;
    }
  }

  lemma WorthLast(env: Env, cs: seq<C>, v: int)
    requires cs != []
    ensures SomeWorth(env, cs, v) <==> SomeWorth(env, cs[..|cs| - 1], v) || Eval(cs[|cs| - 1], env) == v
  {
    hide Eval;
    var init := cs[..|cs| - 1];
    if SomeWorth(env, init, v) {
      var k :| 0 <= k < |init| && Eval(init[k], env) == v;
      assert cs[k] == init[k];
    }
    if SomeWorth(env, cs, v) {
      var k :| 0 <= k < |cs| && Eval(cs[k], env) == v;
      assert k < |init| ==> init[k] == cs[k];
    }
  }

  ghost predicate SomeEqual(syms: seq<Signal>, env: Env, ms: seq<Expr>, v: int) {
    exists k :: 0 <= k < |ms| && Meaning(ms[k], syms, env) == v
  }

  lemma SetMeaning(syms: seq<Signal>, env: Env, a: Expr, ms: seq<Expr>)
    requires forall k :: 0 <= k < |ms| ==> Eval(Tree(syms, ms[k]), env) == Meaning(ms[k], syms, env)
    ensures Meaning(Ele(a, ms), syms, env) == Bits.Truth(SomeEqual(syms, env, ms, Meaning(a, syms, env)))
    ensures forall v :: SomeWorth(env, Trees(syms, ms), v) <==> SomeEqual(syms, env, ms, v)
  {
    hide Tree, Eval;
    forall v ensures SomeWorth(env, Trees(syms, ms), v) <==> SomeEqual(syms, env, ms, v) {
      if SomeWorth(env, Trees(syms, ms), v) {
        var k :| 0 <= k < |ms| && Eval(Trees(syms, ms)[k], env) == v;
        assert Meaning(ms[k], syms, env) == v;
      }
      if SomeEqual(syms, env, ms, v) {
        var k :| 0 <= k < |ms| && Meaning(ms[k], syms, env) == v;
        assert Eval(Trees(syms, ms)[k], env) == v;
      }
    }
  }

  lemma {:induction false} ArmsMean(syms: seq<Signal>, env: Env, arms: seq<Arm>)
    requires BoolSignals(syms, env) && forall k :: 0 <= k < |arms| ==> GoodArm(syms, arms[k])
    ensures Eval(ArmsTree(syms, arms), env) == FirstTrue(arms, syms, env)
    decreases arms, 0
  {
    if arms != [] {
      assert arms decreases to arms[0];
      assert GoodArm(syms, arms[0]);
      TreeMeans(syms, env, arms[0].cond);
      TreeMeans(syms, env, arms[0].val);
      ArmsMean(syms, env, arms[1..]);
    } else {
      ZeroLit();
    }
  }

  lemma ZeroLit()
    ensures LitValue("0") == 0
  {
    assert "0"[..0] == "";
  }

  /** An accepted definition: no error while parsing, checking (check_arg in gen_funct) or emitting. */
  ghost predicate Accepted(syms: seq<Signal>, e: Expr, isbool: bool) {
    Checked(syms, e) && CheckArg(syms, Build(e), isbool) && Gen(syms, Build(e)).ok
  }

  /** What is emitted without error is a C expression exactly when no empty set is emitted. */
  lemma ParsesExactly(syms: seq<Signal>, e: Expr)
    requires Gen(syms, Build(e)).ok
    ensures var p := ParseCond(Gen(syms, Build(e)).toks);
            && (p.Got? && p.rest == [] <==> Filled(Spread(e)))
            && (Filled(Spread(e)) ==> p.c == Tree(syms, Spread(e)))
  {
    hide ParseCond, IsUnary, HasVoid, Tree, Filled;
    GenIsUnary(syms, e);
    var ts := Gen(syms, Build(e)).toks;
    if Filled(Spread(e)) {
      ParseOne(ts, Tree(syms, Spread(e)), []);
      assert ts + [] == ts;
    } else {
      VoidFails(ts);
    }
  }

  /** The C text emitted for an accepted definition, read by C's precedence rules, is an expression exactly when no
      empty set is emitted; then it has the value of the definition spread: of the definition itself, but for case
      lists inside sets. */
  lemma GeneratedMeaning(syms: seq<Signal>, env: Env, e: Expr, isbool: bool)
    requires Accepted(syms, e, isbool) && PlainNumbers(e) && BoolSignals(syms, env)
    ensures var p := ParseCond(Gen(syms, Build(e)).toks);
            && (p.Got? && p.rest == [] <==> Filled(Spread(e)))
            && (Filled(Spread(e)) ==> Eval(p.c, env) == Meaning(Spread(e), syms, env))
    ensures isbool ==> 0 <= Meaning(Spread(e), syms, env) <= 1
  {
    hide ParseCond, Filled, Tree, Spread, BoolSignals, CheckArg, PlainNumbers, Good;
    ParsesExactly(syms, e);
    SpreadGood(syms, e);
    TreeMeans(syms, env, Spread(e));
    if isbool {
      BooleansAreBits(syms, env, e);
    }
  }
}
