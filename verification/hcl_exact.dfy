/** When the emitted C means what was written, and what goes wrong otherwise. */
module HclExact {
  import opened HclLanguage
  import opened CText
  import opened HclGenerator
  import opened HclParse
  import opened HclSets
  import opened HclCorrect
  import Bits

  // ---------------------------------------------------------------- a set as the case loop reads it

  /** Whether the case loop can take a link of a set for an arm. */
  predicate HasOperands(l: Link) {
    l.AsArm? || l.e.And? || l.e.Or? || l.e.Comp? || (l.e.Ele? && Spread(l.e).members != [])
  }

  /** The arm it takes it for, as written; of a set, the second operand is its first member as that is emitted. */
  function ReadArm(l: Link): Arm
    requires HasOperands(l)
  {
    match l
    case AsArm(arm) => arm
    case AsMember(e) => if e.Ele? then Arm(e.arg, Spread(e).members[0]) else Arm(e.arg1, e.arg2)
  }

  /** The arms read from a link on: to the end of the set, or to a default arm. */
  function ReadFrom(ls: seq<Link>): seq<Arm> {
    if ls == [] || !HasOperands(ls[0]) then []
    else if IsDefault(ReadArm(ls[0])) then [ReadArm(ls[0])]
    else [ReadArm(ls[0])] + ReadFrom(ls[1..])
  }

  function ReadLinks(ls: seq<Link>): (ms: seq<Expr>)
    ensures |ms| == |ls|
  {
    if ls == [] then []
    else [if ls[0].AsMember? then ls[0].e else Case(ReadFrom(ls))] + ReadLinks(ls[1..])
  }

  /** Some member of the set, as the case loop reads it, is worth v. */
  ghost predicate ReadWorth(syms: seq<Signal>, env: Env, ms: seq<Expr>, v: int) {
    SomeEqual(syms, env, ReadLinks(Links(ms)), v)
  }

  /** Spreading does not change what an expression is worth. */
  ghost predicate Kept(syms: seq<Signal>, env: Env, e: Expr) {
    Meaning(Spread(e), syms, env) == Meaning(e, syms, env)
  }

  /** Nor what the parts of a link are worth. */
  ghost predicate LinkKept(syms: seq<Signal>, env: Env, l: Link) {
    match l
    case AsArm(arm) => Kept(syms, env, arm.cond) && Kept(syms, env, arm.val)
    case AsMember(e) =>
      && Kept(syms, env, e)
      && (e.And? || e.Or? || e.Comp? ==> Kept(syms, env, e.arg1) && Kept(syms, env, e.arg2))
      && (e.Ele? ==> Kept(syms, env, e.arg))
  }

  ghost predicate ChainKept(syms: seq<Signal>, env: Env, ls: seq<Link>, ls': seq<Link>) {
    |ls| == |ls'| && forall j :: 0 <= j < |ls| ==> ls'[j] == SpreadLink(ls[j]) && LinkKept(syms, env, ls[j])
  }

  lemma ReadOne(syms: seq<Signal>, env: Env, l: Link)
    requires LinkKept(syms, env, l)
    ensures HasOperands(l) <==> HasArm(SpreadLink(l))
    ensures HasOperands(l) ==>
              var arm, arm' := ReadArm(l), ArmOf(SpreadLink(l));
              && (IsDefault(arm) <==> IsDefault(arm'))
              && Meaning(arm'.cond, syms, env) == Meaning(arm.cond, syms, env)
              && Meaning(arm'.val, syms, env) == Meaning(arm.val, syms, env)
  {
    hide Meaning;
    if HasOperands(l) { SpreadDefault(ReadArm(l).cond); }
  }

  lemma FirstTrueFront(syms: seq<Signal>, env: Env, arm: Arm, arms: seq<Arm>)
    ensures FirstTrue([arm] + arms, syms, env) ==
            if Meaning(arm.cond, syms, env) != 0 then Meaning(arm.val, syms, env) else FirstTrue(arms, syms, env)
  {
    assert ([arm] + arms)[1..] == arms;
  }

  lemma {:induction false} ReadFromKept(syms: seq<Signal>, env: Env, ls: seq<Link>, ls': seq<Link>)
    requires ChainKept(syms, env, ls, ls')
    ensures FirstTrue(ArmsFrom(ls'), syms, env) == FirstTrue(ReadFrom(ls), syms, env)
  {
    if ls != [] {
      ReadOne(syms, env, ls[0]);
      if HasOperands(ls[0]) {
        ReadFromKept(syms, env, ls[1..], ls'[1..]);
        var arm, arm' := ReadArm(ls[0]), ArmOf(ls'[0]);
        hide Meaning, FirstTrue, IsDefault, ReadArm, ArmOf, SpreadLink, LinkKept, HasArm, HasOperands;
        FirstTrueFront(syms, env, arm, ReadFrom(ls[1..]));
        FirstTrueFront(syms, env, arm', ArmsFrom(ls'[1..]));
        FirstTrueFront(syms, env, arm, []);
        FirstTrueFront(syms, env, arm', []);
        assert [arm] + [] == [arm] && [arm'] + [] == [arm'];
      }
    }
  }

  lemma {:induction false} ReadLinksKept(syms: seq<Signal>, env: Env, ls: seq<Link>, ls': seq<Link>, v: int)
    requires ChainKept(syms, env, ls, ls')
    ensures SomeEqual(syms, env, Members(ls'), v) <==> SomeEqual(syms, env, ReadLinks(ls), v)
  {
    if ls != [] {
      ReadFromKept(syms, env, ls, ls');
      ReadLinksKept(syms, env, ls[1..], ls'[1..], v);
      var m := if ls[0].AsMember? then ls[0].e else Case(ReadFrom(ls));
      var m' := Members(ls')[0];
      FirstMember(ls');
      assert Meaning(m', syms, env) == Meaning(m, syms, env) by {
        if ls[0].AsArm? {
          CaseMeans(syms, env, m);
          CaseMeans(syms, env, m');
        }
        hide Meaning;
      }
      assert Members(ls') == [m'] + Members(ls'[1..]) && ReadLinks(ls) == [m] + ReadLinks(ls[1..]);
      hide Meaning, SomeEqual, Members, ReadLinks, ChainKept;
      EqualFront(syms, env, m, ReadLinks(ls[1..]), v);
      EqualFront(syms, env, m', Members(ls'[1..]), v);
    }
  }

  /** The emitted test of a set is worth what the set means exactly when the argument equals a member as written
      if and only if it equals a member as the case loop reads it. */
  lemma SetExact(syms: seq<Signal>, env: Env, a: Expr, ms: seq<Expr>)
    requires Kept(syms, env, a) && forall l :: l in Links(ms) ==> LinkKept(syms, env, l)
    ensures var v := Meaning(a, syms, env);
            Kept(syms, env, Ele(a, ms)) <==> (SomeEqual(syms, env, ms, v) <==> ReadWorth(syms, env, ms, v))
  {
    var v, ls, ls' := Meaning(a, syms, env), Links(ms), Links(SpreadEach(ms));
    SpreadSet(a, ms);
    SpreadLinks(ms);
    hide Meaning, Spread, SomeEqual, Members, Links, LinkKept, SpreadLink, ReadLinks;
    ReadLinksKept(syms, env, ls, ls', v);
    EleMeans(syms, env, a, ms);
    EleMeans(syms, env, Spread(a), Members(ls'));
  }

  lemma EleMeans(syms: seq<Signal>, env: Env, a: Expr, ms: seq<Expr>)
    ensures Meaning(Ele(a, ms), syms, env) == Bits.Truth(SomeEqual(syms, env, ms, Meaning(a, syms, env)))
  {
  }

  lemma CaseMeans(syms: seq<Signal>, env: Env, m: Expr)
    requires m.Case?
    ensures Meaning(m, syms, env) == FirstTrue(m.arms, syms, env)
  {
  }

  // ---------------------------------------------------------------- sets whose case lists end

  /** Every case list in the set has an arm, and ends the set or ends with a default arm. */
  predicate Closed(ms: seq<Expr>) {
    forall k :: 0 <= k < |ms| && ms[k].Case? ==>
      ms[k].arms != [] && (k == |ms| - 1 || IsDefault(ms[k].arms[|ms[k].arms| - 1]))
  }

  /** Some proper suffix of a case list in the set is worth v. */
  ghost predicate SuffixWorth(syms: seq<Signal>, env: Env, ms: seq<Expr>, v: int) {
    exists k, i :: 0 <= k < |ms| && ms[k].Case? && 1 <= i < |ms[k].arms| && FirstTrue(ms[k].arms[i..], syms, env) == v
  }

  function ArmLinks(arms: seq<Arm>): seq<Link> {
    Own(Case(arms))
  }

  lemma {:induction false} LinksFront(m: Expr, rest: seq<Expr>)
    ensures Links([m] + rest) == Own(m) + Links(rest)
  {
    var ms := [m] + rest;
    if rest == [] {
      assert ms[..0] == [] && ms[|ms| - 1] == m;
      assert Own(m) + [] == Own(m);
    } else {
      var n := |rest| - 1;
      assert ms[..|ms| - 1] == [m] + rest[..n] && ms[|ms| - 1] == rest[n];
      LinksFront(m, rest[..n]);
      hide Own;
      Assoc(Own(m), Links(rest[..n]), Own(rest[n]));
    }
  }

  /** A case list that ends is read by the case loop as written. */
  lemma {:induction false} ClosedArms(syms: seq<Signal>, env: Env, arms: seq<Arm>, tail: seq<Link>)
    requires arms != [] && (tail == [] || IsDefault(arms[|arms| - 1]))
    ensures FirstTrue(ReadFrom(ArmLinks(arms) + tail), syms, env) == FirstTrue(arms, syms, env)
  {
    var ls := ArmLinks(arms) + tail;
    assert ls[0] == AsArm(arms[0]) && ls[1..] == ArmLinks(arms[1..]) + tail;
    if IsDefault(arms[0]) {
      assert Meaning(arms[0].cond, syms, env) == 1;
    } else {
      if |arms| == 1 {
        assert ls[1..] == [];
      } else {
        ClosedArms(syms, env, arms[1..], tail);
      }
      var more := ReadFrom(ls[1..]);
      assert ([arms[0]] + more)[1..] == more;
    }
  }

  ghost predicate ArmsWorth(syms: seq<Signal>, env: Env, arms: seq<Arm>, v: int) {
    exists i :: 0 <= i < |arms| && FirstTrue(arms[i..], syms, env) == v
  }

  lemma ArmsWorthFront(syms: seq<Signal>, env: Env, arms: seq<Arm>, v: int)
    requires arms != []
    ensures ArmsWorth(syms, env, arms, v) <==> FirstTrue(arms, syms, env) == v || ArmsWorth(syms, env, arms[1..], v)
  {
    hide FirstTrue;
    assert arms[0..] == arms;
    var rest := arms[1..];
    if ArmsWorth(syms, env, rest, v) {
      var i :| 0 <= i < |rest| && FirstTrue(rest[i..], syms, env) == v;
      assert rest[i..] == arms[i + 1..];
    }
    if ArmsWorth(syms, env, arms, v) {
      var i :| 0 <= i < |arms| && FirstTrue(arms[i..], syms, env) == v;
      assert i > 0 ==> arms[i..] == rest[i - 1..];
    }
  }

  lemma EqualFront(syms: seq<Signal>, env: Env, m: Expr, ms: seq<Expr>, v: int)
    ensures SomeEqual(syms, env, [m] + ms, v) <==> Meaning(m, syms, env) == v || SomeEqual(syms, env, ms, v)
  {
    hide Meaning;
    var all := [m] + ms;
    if SomeEqual(syms, env, ms, v) {
      var k :| 0 <= k < |ms| && Meaning(ms[k], syms, env) == v;
      assert all[k + 1] == ms[k];
    }
    if SomeEqual(syms, env, all, v) {
      var k :| 0 <= k < |all| && Meaning(all[k], syms, env) == v;
      assert k > 0 ==> all[k] == ms[k - 1];
    }
    if Meaning(m, syms, env) == v {
      assert all[0] == m;
    }
  }

  /** The members a closed case list makes: itself and each of its suffixes. */
  lemma {:induction false} ArmsMembers(syms: seq<Signal>, env: Env, arms: seq<Arm>, tail: seq<Link>, v: int)
    requires arms == [] || tail == [] || IsDefault(arms[|arms| - 1])
    ensures SomeEqual(syms, env, ReadLinks(ArmLinks(arms) + tail), v)
            <==> ArmsWorth(syms, env, arms, v) || SomeEqual(syms, env, ReadLinks(tail), v)
  {
    var ls := ArmLinks(arms) + tail;
    if arms == [] {
      assert ls == tail;
    } else {
      assert ls[0] == AsArm(arms[0]) && ls[1..] == ArmLinks(arms[1..]) + tail;
      ClosedArms(syms, env, arms, tail);
      ArmsMembers(syms, env, arms[1..], tail, v);
      var m := Case(ReadFrom(ls));
      assert ReadLinks(ls) == [m] + ReadLinks(ls[1..]);
      assert Meaning(m, syms, env) == FirstTrue(arms, syms, env);
      hide ReadLinks, FirstTrue, ReadFrom, ArmsWorth, SomeEqual;
      EqualFront(syms, env, m, ReadLinks(ls[1..]), v);
      ArmsWorthFront(syms, env, arms, v);
    }
  }

  lemma SuffixFront(syms: seq<Signal>, env: Env, m: Expr, ms: seq<Expr>, v: int)
    ensures SuffixWorth(syms, env, [m] + ms, v) <==>
              (m.Case? && m.arms != [] && ArmsWorth(syms, env, m.arms[1..], v)) || SuffixWorth(syms, env, ms, v)
  {
    hide FirstTrue;
    var all := [m] + ms;
    if SuffixWorth(syms, env, ms, v) {
      var k, i :| 0 <= k < |ms| && ms[k].Case? && 1 <= i < |ms[k].arms| && FirstTrue(ms[k].arms[i..], syms, env) == v;
      assert all[k + 1] == ms[k];
    }
    if m.Case? && m.arms != [] && ArmsWorth(syms, env, m.arms[1..], v) {
      var rest := m.arms[1..];
      var i :| 0 <= i < |rest| && FirstTrue(rest[i..], syms, env) == v;
      assert rest[i..] == m.arms[i + 1..] && all[0] == m;
    }
    if SuffixWorth(syms, env, all, v) {
      var k, i :| 0 <= k < |all| && all[k].Case? && 1 <= i < |all[k].arms| && FirstTrue(all[k].arms[i..], syms, env) == v;
      if k == 0 {
        assert m.arms[i..] == m.arms[1..][i - 1..];
      } else {
        assert all[k] == ms[k - 1];
      }
    }
  }

  /** A closed set is emitted as its members and the proper suffixes of its case lists. */
  lemma {:induction false} ClosedMembers(syms: seq<Signal>, env: Env, ms: seq<Expr>, v: int)
    requires Closed(ms)
    ensures ReadWorth(syms, env, ms, v) <==> SomeEqual(syms, env, ms, v) || SuffixWorth(syms, env, ms, v)
  {
    if ms != [] {
      var m, rest := ms[0], ms[1..];
      assert ms == [m] + rest;
      LinksFront(m, rest);
      ClosedRest(ms);
      ClosedMembers(syms, env, rest, v);
      EqualFront(syms, env, m, rest, v);
      SuffixFront(syms, env, m, rest, v);
      if m.Case? {
        LinksOfNone();
        ArmsMembers(syms, env, m.arms, Links(rest), v);
        CaseMeans(syms, env, m);
        hide FirstTrue, ReadLinks, Links, Meaning, SomeEqual, SuffixWorth, ArmsWorth, Closed;
        ArmsWorthFront(syms, env, m.arms, v);
      } else {
        var tail := Links(rest);
        assert (Own(m) + tail)[1..] == tail && (Own(m) + tail)[0] == AsMember(m);
        assert ReadLinks(Own(m) + tail) == [m] + ReadLinks(tail);
        hide ReadLinks, Links, Meaning, SomeEqual, SuffixWorth, Closed;
        EqualFront(syms, env, m, ReadLinks(tail), v);
      }
    }
  }

  lemma ClosedRest(ms: seq<Expr>)
    requires Closed(ms) && ms != []
    ensures Closed(ms[1..])
    ensures ms[0].Case? ==> ms[0].arms != [] && (ms[1..] == [] || IsDefault(ms[0].arms[|ms[0].arms| - 1]))
  {
    forall k | 0 <= k < |ms[1..]| && ms[1..][k].Case?
      ensures ms[1..][k].arms != [] && (k == |ms[1..]| - 1 || IsDefault(ms[1..][k].arms[|ms[1..][k].arms| - 1]))
    {
      assert ms[1..][k] == ms[k + 1];
    }
  }

  lemma LinksOfNone()
    ensures Links([]) == []
  {
  }

  /** When every case list in the set ends, that is: the argument equals a member, or no proper suffix of a case
      list among them. */
  lemma ClosedExact(syms: seq<Signal>, env: Env, a: Expr, ms: seq<Expr>)
    requires Closed(ms) && Kept(syms, env, a) && forall l :: l in Links(ms) ==> LinkKept(syms, env, l)
    ensures var v := Meaning(a, syms, env);
            Kept(syms, env, Ele(a, ms)) <==> SomeEqual(syms, env, ms, v) || !SuffixWorth(syms, env, ms, v)
  {
    SetExact(syms, env, a, ms);
    ClosedMembers(syms, env, ms, Meaning(a, syms, env));
    hide Closed, SomeEqual, SuffixWorth, ReadWorth, LinkKept, Links, Meaning, Kept;
  }

  // ---------------------------------------------------------------- what is emitted and what is meant

  ghost predicate ArmsKept(syms: seq<Signal>, env: Env, arms: seq<Arm>) {
    forall i :: 0 <= i < |arms| ==> Kept(syms, env, arms[i].cond) && Kept(syms, env, arms[i].val)
  }

  function SpreadArms(arms: seq<Arm>): seq<Arm> {
    seq(|arms|, k requires 0 <= k < |arms| => Arm(Spread(arms[k].cond), Spread(arms[k].val)))
  }

  lemma SpreadCase(arms: seq<Arm>)
    ensures Spread(Case(arms)) == Case(SpreadArms(arms))
  {
  }

  lemma {:induction false} ArmsKeptMean(syms: seq<Signal>, env: Env, arms: seq<Arm>, i: nat)
    requires ArmsKept(syms, env, arms) && i <= |arms|
    ensures FirstTrue(SpreadArms(arms)[i..], syms, env) == FirstTrue(arms[i..], syms, env)
    decreases |arms| - i
  {
    if i < |arms| {
      ArmsKeptMean(syms, env, arms, i + 1);
      assert arms[i..][1..] == arms[i + 1..] && SpreadArms(arms)[i..][1..] == SpreadArms(arms)[i + 1..];
      assert Kept(syms, env, arms[i].cond);
    }
  }

  lemma CaseKept(syms: seq<Signal>, env: Env, arms: seq<Arm>)
    requires ArmsKept(syms, env, arms)
    ensures Kept(syms, env, Case(arms))
  {
    ArmsKeptMean(syms, env, arms, 0);
    SpreadCase(arms);
    assert SpreadArms(arms)[0..] == SpreadArms(arms) && arms[0..] == arms;
  }

  /** Every set of the expression meets the condition of SetExact. */
  ghost predicate Agrees(syms: seq<Signal>, env: Env, e: Expr)
    decreases e
  {
    match e
    case Var(_) => true
    case Num(_) => true
    case Not(a) => Agrees(syms, env, a)
    case And(a, b) => Agrees(syms, env, a) && Agrees(syms, env, b)
    case Or(a, b) => Agrees(syms, env, a) && Agrees(syms, env, b)
    case Comp(_, a, b) => Agrees(syms, env, a) && Agrees(syms, env, b)
    case Ele(a, ms) =>
      && Agrees(syms, env, a) && (forall k :: 0 <= k < |ms| ==> Agrees(syms, env, ms[k]))
      && var v := Meaning(a, syms, env); SomeEqual(syms, env, ms, v) <==> ReadWorth(syms, env, ms, v)
    case Case(arms) =>
      forall k :: 0 <= k < |arms| ==>
        (assert arms decreases to arms[k]; Agrees(syms, env, arms[k].cond) && Agrees(syms, env, arms[k].val))
  }

  lemma {:induction false} AgreesKept(syms: seq<Signal>, env: Env, e: Expr)
    requires Agrees(syms, env, e)
    ensures Kept(syms, env, e)
    decreases e, 1
  {
    match e {
      case Var(_) =>
      case Num(_) =>
      case Not(a) => AgreesKept(syms, env, a);
      case And(a, b) =>
        AgreesKept(syms, env, a);
        AgreesKept(syms, env, b);
      case Or(a, b) =>
        AgreesKept(syms, env, a);
        AgreesKept(syms, env, b);
      case Comp(_, a, b) =>
        AgreesKept(syms, env, a);
        AgreesKept(syms, env, b);
      case Ele(a, ms) =>
        AgreesKept(syms, env, a);
        MembersAgree(syms, env, ms);
        hide Kept, SomeEqual, ReadWorth, LinkKept;
        SetExact(syms, env, a, ms);
      case Case(arms) =>
        ArmsAgree(syms, env, e);
        CaseKept(syms, env, arms);
    }
  }

  lemma ArmsAgree(syms: seq<Signal>, env: Env, e: Expr)
    requires e.Case? && Agrees(syms, env, e)
    ensures ArmsKept(syms, env, e.arms)
    decreases e, 0
  {
    forall k | 0 <= k < |e.arms| ensures Kept(syms, env, e.arms[k].cond) && Kept(syms, env, e.arms[k].val) {
      assert e.arms decreases to e.arms[k];
      AgreesKept(syms, env, e.arms[k].cond);
      AgreesKept(syms, env, e.arms[k].val);
    }
  }

  lemma MembersAgree(syms: seq<Signal>, env: Env, ms: seq<Expr>)
    requires forall k :: 0 <= k < |ms| ==> Agrees(syms, env, ms[k])
    ensures forall l :: l in Links(ms) ==> LinkKept(syms, env, l)
    decreases ms, 0
  {
    LinksFromMembers(ms);
    hide Kept, Links;
    forall l | l in Links(ms) ensures LinkKept(syms, env, l) {
      assert FromMembers(ms, l);
      if l.AsArm? {
        var k, i :| 0 <= k < |ms| && ms[k].Case? && 0 <= i < |ms[k].arms| && ms[k].arms[i] == l.arm;
        ArmsAgree(syms, env, ms[k]);
      } else {
        MemberAgrees(syms, env, l.e);
      }
    }
  }

  lemma MemberAgrees(syms: seq<Signal>, env: Env, e: Expr)
    requires Agrees(syms, env, e) && !e.Case?
    ensures LinkKept(syms, env, AsMember(e))
    decreases e, 2
  {
    hide Kept;
    AgreesKept(syms, env, e);
    if e.And? || e.Or? || e.Comp? {
      AgreesKept(syms, env, e.arg1);
      AgreesKept(syms, env, e.arg2);
    } else if e.Ele? {
      AgreesKept(syms, env, e.arg);
    }
  }

  /** The emitted text, when it is an expression, means what was written whenever every set in it meets the
      condition. */
  lemma EmittedAsWritten(syms: seq<Signal>, env: Env, e: Expr, isbool: bool)
    requires Accepted(syms, e, isbool) && PlainNumbers(e) && BoolSignals(syms, env) && Agrees(syms, env, e)
    ensures var p := ParseCond(Gen(syms, Build(e)).toks);
            && (p.Got? && p.rest == [] <==> Filled(Spread(e)))
            && (Filled(Spread(e)) ==> Eval(p.c, env) == Meaning(e, syms, env))
  {
    AgreesKept(syms, env, e);
    hide Agrees, ParseCond, Gen, Build, Accepted, PlainNumbers, BoolSignals, Filled;
    GeneratedMeaning(syms, env, e, isbool);
  }

  /** A set whose parts mean what they were written to mean is emitted as an expression with its meaning exactly when
      no empty set is in it and it meets the condition. */
  lemma SetEmittedExactly(syms: seq<Signal>, env: Env, a: Expr, ms: seq<Expr>)
    requires Accepted(syms, Ele(a, ms), true) && PlainNumbers(Ele(a, ms)) && BoolSignals(syms, env)
    requires Agrees(syms, env, a) && forall k :: 0 <= k < |ms| ==> Agrees(syms, env, ms[k])
    ensures var p := ParseCond(Gen(syms, Build(Ele(a, ms))).toks);
            var v := Meaning(a, syms, env);
            p.Got? && p.rest == [] && Eval(p.c, env) == Meaning(Ele(a, ms), syms, env) <==>
            Filled(Spread(Ele(a, ms))) && (SomeEqual(syms, env, ms, v) <==> ReadWorth(syms, env, ms, v))
  {
    hide ParseCond, Gen, Build, SomeEqual, ReadWorth, BoolSignals, Accepted, PlainNumbers, Meaning, Eval, Filled;
    AgreesKept(syms, env, a);
    MembersAgree(syms, env, ms);
    SetExact(syms, env, a, ms);
    GeneratedMeaning(syms, env, Ele(a, ms), true);
  }

  // ---------------------------------------------------------------- sets without empty ones

  /** No set is empty as written: it has a member other than an empty case list. */
  ghost predicate SetsFilled(e: Expr)
    decreases e
  {
    match e
    case Var(_) => true
    case Num(_) => true
    case Not(a) => SetsFilled(a)
    case And(a, b) => SetsFilled(a) && SetsFilled(b)
    case Or(a, b) => SetsFilled(a) && SetsFilled(b)
    case Comp(_, a, b) => SetsFilled(a) && SetsFilled(b)
    case Ele(a, ms) => SetsFilled(a) && Links(ms) != [] && forall k :: 0 <= k < |ms| ==> SetsFilled(ms[k])
    case Case(arms) =>
      forall k :: 0 <= k < |arms| ==> (assert arms decreases to arms[k]; SetsFilled(arms[k].cond) && SetsFilled(arms[k].val))
  }

  ghost predicate FilledLink(l: Link) {
    match l
    case AsArm(arm) => Filled(arm.cond) && Filled(arm.val)
    case AsMember(e) => Filled(e)
  }

  lemma {:induction false} ArmsFromFilled(ls: seq<Link>)
    requires forall j :: 0 <= j < |ls| ==> FilledLink(ls[j])
    ensures FilledArms(ArmsFrom(ls))
  {
    if ls != [] && HasArm(ls[0]) {
      var arm := ArmOf(ls[0]);
      assert FilledLink(ls[0]) && Filled(arm.cond) && Filled(arm.val);
      ArmsFromFilled(ls[1..]);
      hide Filled, FilledArms, IsDefault, ArmOf;
      FilledFront(arm, ArmsFrom(ls[1..]));
      FilledFront(arm, []);
      assert [arm] + [] == [arm];
      NoArmsFilled();
    }
  }

  lemma NoArmsFilled()
    ensures FilledArms([])
  {
  }

  lemma {:induction false} MembersFilled(ls: seq<Link>)
    requires forall j :: 0 <= j < |ls| ==> FilledLink(ls[j])
    ensures forall k :: 0 <= k < |Members(ls)| ==> Filled(Members(ls)[k])
  {
    if ls != [] {
      ArmsFromFilled(ls);
      assert FilledLink(ls[0]);
      MembersFilled(ls[1..]);
    }
  }

  lemma {:induction false} ArmsFilled(arms: seq<Arm>)
    requires forall k :: 0 <= k < |arms| ==> Filled(arms[k].cond) && Filled(arms[k].val)
    ensures FilledArms(arms)
  {
    if arms != [] { ArmsFilled(arms[1..]); }
  }

  lemma LinksFilled(ms: seq<Expr>)
    requires forall k :: 0 <= k < |ms| ==> SetsFilled(ms[k])
    ensures forall j :: 0 <= j < |Links(SpreadEach(ms))| ==> FilledLink(Links(SpreadEach(ms))[j])
    decreases ms, 0
  {
    LinksFromMembers(ms);
    SpreadLinks(ms);
    hide Links, SpreadEach;
    forall j | 0 <= j < |Links(ms)| ensures FilledLink(Links(SpreadEach(ms))[j]) {
      var l := Links(ms)[j];
      assert l in Links(ms) && FromMembers(ms, l);
      if l.AsArm? {
        var k, i :| 0 <= k < |ms| && ms[k].Case? && 0 <= i < |ms[k].arms| && ms[k].arms[i] == l.arm;
        assert ms decreases to ms[k];
        assert ms[k].arms decreases to ms[k].arms[i];
        assert SetsFilled(ms[k]);
        SetsFilledEmits(l.arm.cond);
        SetsFilledEmits(l.arm.val);
      } else {
        SetsFilledEmits(l.e);
      }
    }
  }

  /** Then no empty set is emitted. */
  lemma {:induction false} SetsFilledEmits(e: Expr)
    requires SetsFilled(e)
    ensures Filled(Spread(e))
    decreases e
  {
    match e {
      case Var(_) =>
      case Num(_) =>
      case Not(a) => SetsFilledEmits(a);
      case And(a, b) =>
        SetsFilledEmits(a);
        SetsFilledEmits(b);
      case Or(a, b) =>
        SetsFilledEmits(a);
        SetsFilledEmits(b);
      case Comp(_, a, b) =>
        SetsFilledEmits(a);
        SetsFilledEmits(b);
      case Ele(a, ms) =>
        SetsFilledEmits(a);
        SpreadSet(a, ms);
        SpreadLinks(ms);
        LinksFilled(ms);
        MembersFilled(Links(SpreadEach(ms)));
      case Case(arms) =>
        SpreadCase(arms);
        forall k | 0 <= k < |arms| ensures Filled(Spread(arms[k].cond)) && Filled(Spread(arms[k].val)) {
          assert arms decreases to arms[k];
          SetsFilledEmits(arms[k].cond);
          SetsFilledEmits(arms[k].val);
        }
        ArmsFilled(SpreadArms(arms));
    }
  }

  /** The usual form of a set, whatever the signals are worth: no case lists but one-arm ones that end it or are
      a default. */
  ghost predicate Plain(e: Expr)
    decreases e
  {
    match e
    case Var(_) => true
    case Num(_) => true
    case Not(a) => Plain(a)
    case And(a, b) => Plain(a) && Plain(b)
    case Or(a, b) => Plain(a) && Plain(b)
    case Comp(_, a, b) => Plain(a) && Plain(b)
    case Ele(a, ms) =>
      && Plain(a) && (forall k :: 0 <= k < |ms| ==> Plain(ms[k]))
      && forall k :: 0 <= k < |ms| && ms[k].Case? ==> |ms[k].arms| == 1 && (k == |ms| - 1 || IsDefault(ms[k].arms[0]))
    case Case(arms) =>
      forall k :: 0 <= k < |arms| ==> (assert arms decreases to arms[k]; Plain(arms[k].cond) && Plain(arms[k].val))
  }

  lemma {:induction false} PlainAgrees(syms: seq<Signal>, env: Env, e: Expr)
    requires Plain(e)
    ensures Agrees(syms, env, e)
    decreases e
  {
    match e {
      case Var(_) =>
      case Num(_) =>
      case Not(a) => PlainAgrees(syms, env, a);
      case And(a, b) =>
        PlainAgrees(syms, env, a);
        PlainAgrees(syms, env, b);
      case Or(a, b) =>
        PlainAgrees(syms, env, a);
        PlainAgrees(syms, env, b);
      case Comp(_, a, b) =>
        PlainAgrees(syms, env, a);
        PlainAgrees(syms, env, b);
      case Ele(a, ms) =>
        PlainAgrees(syms, env, a);
        forall k | 0 <= k < |ms| ensures Agrees(syms, env, ms[k]) {
          PlainAgrees(syms, env, ms[k]);
        }
        ClosedMembers(syms, env, ms, Meaning(a, syms, env));
      case Case(arms) =>
        forall k | 0 <= k < |arms| ensures Agrees(syms, env, arms[k].cond) && Agrees(syms, env, arms[k].val) {
          assert arms decreases to arms[k];
          PlainAgrees(syms, env, arms[k].cond);
          PlainAgrees(syms, env, arms[k].val);
        }
    }
  }

  // ---------------------------------------------------------------- a case list at the end of a set

  /** The trees of a case list and of its suffixes. */
  function SuffixTrees(syms: seq<Signal>, arms: seq<Arm>): seq<C> {
    if arms == [] then [] else [Tree(syms, Case(arms))] + SuffixTrees(syms, arms[1..])
  }

  predicate NoCase(ms: seq<Expr>) {
    forall k :: 0 <= k < |ms| ==> !ms[k].Case?
  }

  lemma MembersFront(e: Expr, ls: seq<Link>)
    ensures Members([AsMember(e)] + ls) == [e] + Members(ls)
  {
    assert ([AsMember(e)] + ls)[1..] == ls;
  }

  lemma {:induction false} MembersFirst(ms: seq<Expr>, tail: seq<Link>)
    requires NoCase(ms)
    ensures Members(Links(ms) + tail) == ms + Members(tail)
  {
    if ms == [] {
      assert Links(ms) + tail == tail;
    } else {
      var m, rest := ms[0], ms[1..];
      assert ms == [m] + rest && Own(m) == [AsMember(m)] && NoCase(rest);
      LinksFront(m, rest);
      hide Links, Members, Own, NoCase;
      MembersFirst(rest, tail);
      Assoc([AsMember(m)], Links(rest), tail);
      MembersFront(m, Links(rest) + tail);
      Assoc([m], rest, Members(tail));
    }
  }

  lemma {:induction false} SuffixMembers(syms: seq<Signal>, arms: seq<Arm>)
    ensures Trees(syms, Members(ArmLinks(arms))) == SuffixTrees(syms, arms)
  {
    var ls := ArmLinks(arms);
    if arms != [] {
      assert ls[1..] == ArmLinks(arms[1..]);
      SuffixMembers(syms, arms[1..]);
      OwnArms(syms, arms);
      CaseTree(syms, Case(arms));
      CaseTree(syms, Case(ArmsFrom(ls)));
      hide Tree, ArmsFrom;
      assert Members(ls) == [Case(ArmsFrom(ls))] + Members(ls[1..]);
    }
  }

  /** A set that ends with a case list is emitted as the test of the other members, of the case list, and of each
      of its proper suffixes. */
  lemma LastCaseTree(syms: seq<Signal>, a: Expr, ms: seq<Expr>, arms: seq<Arm>)
    requires NoCase(ms)
    ensures Tree(syms, Spread(Ele(a, ms + [Case(arms)]))) ==
            MembersTree(Tree(syms, Spread(a)), Trees(syms, SpreadEach(ms)) + SuffixTrees(syms, SpreadArms(arms)))
  {
    var all, last := ms + [Case(arms)], ArmLinks(SpreadArms(arms));
    var ss := SpreadEach(ms);
    SpreadSet(a, all);
    LastLinks(ms, arms);
    hide Spread, Links, Members, SpreadArms, Tree;
    SuffixMembers(syms, SpreadArms(arms));
    EleTree(syms, Spread(a), ss + Members(last));
    TreesAppend(syms, ss, Members(last));
  }

  lemma LastLinks(ms: seq<Expr>, arms: seq<Arm>)
    requires NoCase(ms)
    ensures Members(Links(SpreadEach(ms + [Case(arms)]))) == SpreadEach(ms) + Members(ArmLinks(SpreadArms(arms)))
  {
    var all, ss := SpreadEach(ms + [Case(arms)]), SpreadEach(ms);
    SpreadCase(arms);
    assert NoCase(ss);
    assert all[..|all| - 1] == ss && all[|all| - 1] == Case(SpreadArms(arms));
    MembersFirst(ss, ArmLinks(SpreadArms(arms)));
  }

  lemma TreesAppend(syms: seq<Signal>, a: seq<Expr>, b: seq<Expr>)
    ensures Trees(syms, a + b) == Trees(syms, a) + Trees(syms, b)
  {
    hide Tree;
  }

  // ---------------------------------------------------------------- a case list that runs on

  /** The case loop goes through a null pointer at a link without two operands. */
  lemma {:induction false} RunsIntoNull(syms: seq<Signal>, arms: seq<Arm>, m: Expr, tail: seq<Link>)
    requires m.Var? || m.Num? || m.Not?
    requires forall i :: 0 <= i < |arms| ==> !IsDefault(arms[i])
    ensures !GenArms(syms, Chained(ArmLinks(arms) + ([AsMember(m)] + tail))).ok
  {
    var ls := ArmLinks(arms) + ([AsMember(m)] + tail);
    if arms == [] {
      assert ls[0] == AsMember(m);
    } else {
      assert ls[0] == AsArm(arms[0]) && ls[1..] == ArmLinks(arms[1..]) + ([AsMember(m)] + tail);
      RunsIntoNull(syms, arms[1..], m, tail);
      NumberNode(arms[0].cond);
    }
  }

  lemma {:induction false} ChainOkEnd(syms: seq<Signal>, a: seq<Link>, b: seq<Link>)
    requires ChainOk(syms, a + b)
    ensures ChainOk(syms, b)
  {
    if a == [] {
      assert a + b == b;
    } else {
      assert (a + b)[1..] == a[1..] + b;
      ChainOkEnd(syms, a[1..], b);
    }
  }

  lemma {:induction false} LinksAppend(a: seq<Expr>, b: seq<Expr>)
    ensures Links(a + b) == Links(a) + Links(b)
  {
    if b == [] {
      assert a + b == a && Links(a) + [] == Links(a);
    } else {
      var n := |b| - 1;
      assert (a + b)[..|a| + n] == a + b[..n] && (a + b)[|a| + n] == b[n];
      LinksAppend(a, b[..n]);
      hide Own;
      Assoc(Links(a), Links(b[..n]), Own(b[n]));
    }
  }

  /** A set in which a signal, a number or a negation follows a case list without a default arm is never emitted. */
  lemma OpenCaseRejected(syms: seq<Signal>, a: Expr, before: seq<Expr>, arms: seq<Arm>, m: Expr, after: seq<Expr>, isbool: bool)
    requires m.Var? || m.Num? || m.Not?
    requires arms != [] && forall i :: 0 <= i < |arms| ==> !IsDefault(arms[i])
    ensures !Accepted(syms, Ele(a, before + ([Case(arms)] + ([m] + after))), isbool)
  {
    var ms := before + ([Case(arms)] + ([m] + after));
    var end := ArmLinks(arms) + ([AsMember(m)] + Links(after));
    LinksFront(m, after);
    LinksFront(Case(arms), [m] + after);
    LinksAppend(before, [Case(arms)] + ([m] + after));
    assert Links(ms) == Links(before) + end;
    RunsIntoNull(syms, arms, m, Links(after));
    BuildSetLinks(ms);
    EleParts(syms, a, ms);
    hide GenMembers, Links;
    assert end != [] && end[0] == AsArm(arms[0]);
    CaseNode(syms, end);
    hide Gen, GenArms;
    MembersGen(syms, Build(a), Links(ms));
    if ChainOk(syms, Links(ms)) {
      ChainOkEnd(syms, Links(before), end);
    }
  }

  lemma VarArgChecked(syms: seq<Signal>, name: string, ms: seq<Expr>)
    requires Find(syms, name) >= 0 && !syms[Find(syms, name)].isbool && forall k :: 0 <= k < |ms| ==> Checked(syms, ms[k])
    ensures Checked(syms, Ele(Var(name), ms)) && CheckArg(syms, Build(Ele(Var(name), ms)), true)
  {
    var n := Build(Var(name));
    assert CheckArg(syms, n, false);
    assert CheckLinks(syms, n.next);
    assert CheckLinks(syms, n);
  }

  const EMPTY_SET: seq<Expr> := [Case([])]

  lemma EmptySetLinks()
    ensures Links(EMPTY_SET) == [] && BuildSet(EMPTY_SET) == Null
  {
    BuildSetLinks(EMPTY_SET);
    assert EMPTY_SET[..0] == [] && Own(Case([])) == [];
  }

  lemma EmptySetSpread(name: string)
    ensures !SetsFilled(Ele(Var(name), EMPTY_SET)) && Spread(Ele(Var(name), EMPTY_SET)) == Ele(Var(name), [])
  {
    EmptySetLinks();
    hide Links;
    SpreadSet(Var(name), EMPTY_SET);
    SpreadLinks(EMPTY_SET);
  }

  lemma EmptySetGenerated(syms: seq<Signal>, name: string)
    requires Find(syms, name) >= 0 && !syms[Find(syms, name)].isbool
    ensures var e := Ele(Var(name), EMPTY_SET);
            && Accepted(syms, e, true) && !SetsFilled(e) && !Filled(Spread(e)) && Gen(syms, Build(e)).toks == [LP, RP]
  {
    EmptySetLinks();
    EmptySetSpread(name);
    VarArgChecked(syms, name, EMPTY_SET);
    hide Links, SetsFilled, Spread;
    var n := Build(Ele(Var(name), EMPTY_SET));
    assert n.kind == N_ELE && n.arg2 == Null;
    assert GenMembers(syms, n.arg1, n.arg2) == Emit([]);
    hide Build, Checked, CheckArg;
  }

  /** A set of nothing but an empty case list is accepted, and emitted as nothing between parentheses. */
  lemma EmptyCaseUnreadable(syms: seq<Signal>, name: string)
    requires Find(syms, name) >= 0 && !syms[Find(syms, name)].isbool
    ensures var e := Ele(Var(name), EMPTY_SET);
            Accepted(syms, e, true) && !Filled(Spread(e)) && ParseCond(Gen(syms, Build(e)).toks).Fail?
  {
    EmptySetGenerated(syms, name);
    CondTook([LP, RP]);
    assert VoidAt([LP, RP], 0);
  }

  /** [1: 5; empty: 6;] */
  function Skipping(empty: Expr): Expr {
    Case([Arm(Num("1"), Num("5")), Arm(empty, Num("6"))])
  }

  lemma SkippedMeans(syms: seq<Signal>, env: Env, empty: Expr)
    ensures Meaning(Skipping(empty), syms, env) == 5 && Filled(Skipping(empty))
    ensures Spread(Skipping(empty)) == Skipping(Spread(empty))
  {
    NumberFacts();
    var e := Skipping(empty);
    CaseMeans(syms, env, e);
    SpreadCase(e.arms);
    assert IsDefault(e.arms[0]) && FilledArms(e.arms);
    assert Meaning(e.arms[0].cond, syms, env) == 1 && Meaning(e.arms[0].val, syms, env) == 5;
  }

  lemma SkippedPlain(empty: Expr)
    ensures PlainNumbers(empty) ==> PlainNumbers(Skipping(empty))
    ensures SetsFilled(Skipping(empty)) ==> SetsFilled(empty)
  {
    NumberFacts();
    var e := Skipping(empty);
    assert SetsFilled(e) ==> SetsFilled(e.arms[1].cond);
    assert PlainNumbers(Num("1")) && PlainNumbers(Num("5")) && PlainNumbers(Num("6"));
    forall k | 0 <= k < 2 && PlainNumbers(empty) ensures PlainNumbers(e.arms[k].cond) && PlainNumbers(e.arms[k].val) {
    }
  }

  /** After a default arm such a set does no harm: it is not emitted. */
  lemma SkippedEmptyReads(syms: seq<Signal>, env: Env, name: string)
    requires Find(syms, name) >= 0 && !syms[Find(syms, name)].isbool && BoolSignals(syms, env)
    ensures var e := Skipping(Ele(Var(name), EMPTY_SET));
            var p := ParseCond(Gen(syms, Build(e)).toks);
            && Accepted(syms, e, false) && !SetsFilled(e) && Filled(Spread(e))
            && p.Got? && p.rest == [] && Eval(p.c, env) == Meaning(e, syms, env) == 5
  {
    var empty := Ele(Var(name), EMPTY_SET);
    EmptySetGenerated(syms, name);
    assert PlainNumbers(empty);
    hide Gen, Build, Filled, Accepted, Meaning, Spread, PlainNumbers, ParseCond, Eval, SetsFilled;
    SkippedMeans(syms, env, empty);
    SkippedMeans(syms, env, Spread(empty));
    SkippedPlain(empty);
    SkippedAccepted(syms, empty);
    GeneratedMeaning(syms, env, Skipping(empty), false);
  }

  lemma SkippedAccepted(syms: seq<Signal>, empty: Expr)
    requires Accepted(syms, empty, true)
    ensures Accepted(syms, Skipping(empty), false)
  {
    var arms := Skipping(empty).arms;
    NumberFacts();
    BuildOwn(Case(arms));
    var ls := Own(Case(arms));
    assert ls[0] == AsArm(arms[0]);
    CaseNode(syms, ls);
    assert Chained(ls).arg1 == Build(Num("1")) && Chained(ls).arg2 == Build(Num("5"));
    assert GenArms(syms, Chained(ls)).ok;
    assert Gen(syms, Chained(ls)).ok;
    forall k | 0 <= k < 2
      ensures Checked(syms, arms[k].cond) && Checked(syms, arms[k].val)
      ensures CheckArg(syms, Build(arms[k].cond), true) && CheckArg(syms, Build(arms[k].val), false)
    {
    }
  }

  lemma NumberFacts()
    ensures NumValue("1") == 1 && NumValue("5") == 5 && NumValue("6") == 6
    ensures NumberText("1") && NumberText("5") && NumberText("6")
  {
    assert "1"[..0] == "" && "5"[..0] == "" && "6"[..0] == "";
  }

  // ---------------------------------------------------------------- a misread set, and a signal that is no Boolean

  // Three signals, and a case list [c: 5; d: 6;].
  const DEMO_SYMS: seq<Signal> := [Signal("c", "c", true), Signal("d", "d", true), Signal("x", "x", false)]
  const DEMO_ARMS: seq<Arm> := [Arm(Var("c"), Num("5")), Arm(Var("d"), Num("6"))]

  function DemoEnv(t: string): int {
    if t == "x" then 6 else 1
  }

  // and a set of two open case lists { [c: 5;], [d: 6;] }, with only d true
  const OPEN_SET: seq<Expr> := [Case([DEMO_ARMS[0]]), Case([DEMO_ARMS[1]])]

  function OpenEnv(t: string): int {
    if t == "d" then 1 else 0
  }

  lemma DemoFacts()
    ensures Find(DEMO_SYMS, "c") == 0 && Find(DEMO_SYMS, "d") == 1 && Find(DEMO_SYMS, "x") == 2
    ensures NumValue("5") == 5 && NumValue("6") == 6 && NumberText("5") && NumberText("6")
    ensures "c" != "x" && "d" != "x" && "c" != "d" && DEMO_ARMS[1..] == [Arm(Var("d"), Num("6"))]
  {
    assert DEMO_SYMS[1..][0].name == "d" && DEMO_SYMS[1..][1..][0].name == "x";
    assert "c" != "d" && "c" != "x" && "d" != "x" by { assert "c"[0] != "d"[0] && "c"[0] != "x"[0] && "d"[0] != "x"[0]; }
    NumberFacts();
  }

  /** The chain of both sets is the two arms. */
  lemma DemoLinks()
    ensures var ls := Links([Case(DEMO_ARMS)]);
            && ls == Links(OPEN_SET) == [AsArm(DEMO_ARMS[0]), AsArm(DEMO_ARMS[1])]
            && ls[1..] == [AsArm(DEMO_ARMS[1])] && ls[1..][1..] == []
  {
    assert [Case(DEMO_ARMS)][..0] == [] && OPEN_SET[..1] == [OPEN_SET[0]] && OPEN_SET[..1][..0] == [];
    assert Links(OPEN_SET[..1]) == Own(OPEN_SET[0]);
  }

  lemma ArmGenerated(syms: seq<Signal>, arm: Arm, ls: seq<Link>)
    requires arm.cond.Var? && Find(syms, arm.cond.name) >= 0 && arm.val.Num? && GenArms(syms, Chained(ls)).ok
    ensures GenArms(syms, Chained([AsArm(arm)] + ls)).ok && Gen(syms, Chained([AsArm(arm)] + ls)).ok
  {
    var all := [AsArm(arm)] + ls;
    assert all[1..] == ls;
    var n := Chained(all);
    assert n.kind == N_CASE && n.arg1 == Build(arm.cond) && n.arg2 == Build(arm.val) && n.next == Chained(ls);
    assert Gen(syms, n.arg1).ok && Gen(syms, n.arg2).ok;
    hide Chained, Build;
  }

  lemma DemoGenerated(ms: seq<Expr>)
    requires Links(ms) == [AsArm(DEMO_ARMS[0]), AsArm(DEMO_ARMS[1])]
    ensures Gen(DEMO_SYMS, Build(Ele(Var("x"), ms))).ok
  {
    var syms, l0, l1 := DEMO_SYMS, AsArm(DEMO_ARMS[0]), AsArm(DEMO_ARMS[1]);
    DemoFacts();
    BuildSetLinks(ms);
    assert [l1] == [l1] + [] && Links(ms) == [l0] + [l1];
    ArmGenerated(syms, DEMO_ARMS[1], []);
    ArmGenerated(syms, DEMO_ARMS[0], [l1]);
    assert ([l0] + [l1])[1..] == [l1] && [l1][1..] == [];
    var n0, n1, x := Chained([l0] + [l1]), Chained([l1]), Build(Var("x"));
    assert n0.next == n1 && n1.next == Null && Gen(syms, x).ok;
    hide Chained, Build, Links, GenArms;
    assert GenMembers(syms, x, n1).ok;
    assert GenMembers(syms, x, n0).ok;
    EleGenerated(syms, Var("x"), ms);
  }

  lemma EleGenerated(syms: seq<Signal>, a: Expr, ms: seq<Expr>)
    requires GenMembers(syms, Build(a), BuildSet(ms)).ok
    ensures Gen(syms, Build(Ele(a, ms))).ok
  {
    hide GenMembers;
  }

  lemma DemoArm(arm: Arm)
    requires arm in DEMO_ARMS
    ensures arm.cond.Var? && arm.val.Num? && NumberText(arm.val.sval)
    ensures CheckArg(DEMO_SYMS, Build(arm.cond), true) && CheckArg(DEMO_SYMS, Build(arm.val), false)
  {
    DemoFacts();
  }

  lemma DemoChecked(arms: seq<Arm>)
    requires forall k :: 0 <= k < |arms| ==> arms[k] in DEMO_ARMS
    ensures var c := Case(arms); Checked(DEMO_SYMS, c) && PlainNumbers(c) && SetsFilled(c)
  {
    hide CheckArg, Build;
    forall k | 0 <= k < |arms|
      ensures arms[k].cond.Var? && arms[k].val.Num? && NumberText(arms[k].val.sval)
      ensures CheckArg(DEMO_SYMS, Build(arms[k].cond), true) && CheckArg(DEMO_SYMS, Build(arms[k].val), false)
    {
      DemoArm(arms[k]);
    }
  }

  predicate Demo(ms: seq<Expr>) {
    ms == [Case(DEMO_ARMS)] || ms == OPEN_SET
  }

  lemma DemoMember(ms: seq<Expr>, k: nat, env: Env)
    requires Demo(ms) && k < |ms|
    ensures Checked(DEMO_SYMS, ms[k]) && PlainNumbers(ms[k]) && SetsFilled(ms[k]) && Agrees(DEMO_SYMS, env, ms[k])
  {
    DemoChecked(ms[k].arms);
    forall i | 0 <= i < |ms[k].arms| ensures ms[k].arms[i].cond.Var? && ms[k].arms[i].val.Num? {
      DemoArm(ms[k].arms[i]);
    }
    hide Checked, PlainNumbers, SetsFilled;
  }

  lemma DemoAccepted(ms: seq<Expr>, env: Env)
    requires Demo(ms)
    ensures var e := Ele(Var("x"), ms); Accepted(DEMO_SYMS, e, true) && PlainNumbers(e) && Filled(Spread(e))
    ensures forall k :: 0 <= k < |ms| ==> Agrees(DEMO_SYMS, env, ms[k])
  {
    DemoFacts();
    DemoLinks();
    forall k | 0 <= k < |ms|
      ensures Checked(DEMO_SYMS, ms[k]) && PlainNumbers(ms[k]) && SetsFilled(ms[k]) && Agrees(DEMO_SYMS, env, ms[k])
    {
      DemoMember(ms, k, env);
    }
    hide Agrees, Links, Filled, Spread, Gen, CheckArg;
    DemoGenerated(ms);
    VarArgChecked(DEMO_SYMS, "x", ms);
    SetsFilledEmits(Ele(Var("x"), ms));
    hide Checked, Build;
  }

  lemma DemoWorths(env: Env)
    ensures Meaning(Var("x"), DEMO_SYMS, env) == env("x")
    ensures FirstTrue([DEMO_ARMS[1]], DEMO_SYMS, env) == if env("d") != 0 then 6 else 0
    ensures FirstTrue([DEMO_ARMS[0]], DEMO_SYMS, env) == if env("c") != 0 then 5 else 0
    ensures FirstTrue(DEMO_ARMS, DEMO_SYMS, env) == if env("c") != 0 then 5 else if env("d") != 0 then 6 else 0
  {
    DemoFacts();
    assert [DEMO_ARMS[1]] == [DEMO_ARMS[1]] + [] && [DEMO_ARMS[0]] == [DEMO_ARMS[0]] + [];
    assert DEMO_ARMS == [DEMO_ARMS[0]] + [DEMO_ARMS[1]];
    FirstTrueFront(DEMO_SYMS, env, DEMO_ARMS[0], []);
    FirstTrueFront(DEMO_SYMS, env, DEMO_ARMS[1], []);
    FirstTrueFront(DEMO_SYMS, env, DEMO_ARMS[0], [DEMO_ARMS[1]]);
  }

  /** As the case loop reads it, either set holds the whole case list and its second arm. */
  lemma DemoRead(ms: seq<Expr>, env: Env, v: int)
    requires Demo(ms)
    ensures ReadWorth(DEMO_SYMS, env, ms, v) <==>
              FirstTrue(DEMO_ARMS, DEMO_SYMS, env) == v || FirstTrue([DEMO_ARMS[1]], DEMO_SYMS, env) == v
  {
    DemoLinks();
    var ls, m0, m1 := Links(ms), Case(DEMO_ARMS), Case([DEMO_ARMS[1]]);
    assert ReadFrom(ls[1..]) == [DEMO_ARMS[1]];
    assert ReadFrom(ls) == DEMO_ARMS;
    assert ReadLinks(ls[1..]) == [m1] + [] && ReadLinks(ls) == [m0] + [m1];
    CaseMeans(DEMO_SYMS, env, m0);
    CaseMeans(DEMO_SYMS, env, m1);
    hide FirstTrue, Meaning, Links, ReadLinks, ReadFrom;
    EqualFront(DEMO_SYMS, env, m0, [m1], v);
    EqualFront(DEMO_SYMS, env, m1, [], v);
    assert [m1] + [] == [m1];
  }

  /** With c and d both 1, the member [c: 5; d: 6;] is 5, but x = 6 is found in { [c: 5; d: 6;] }. */
  lemma CaseInSetMisread()
    ensures var e := Ele(Var("x"), [Case(DEMO_ARMS)]);
            var p := ParseCond(Gen(DEMO_SYMS, Build(e)).toks);
            && Accepted(DEMO_SYMS, e, true) && PlainNumbers(e) && BoolSignals(DEMO_SYMS, DemoEnv)
            && p.Got? && p.rest == [] && Eval(p.c, DemoEnv) == 1 && Meaning(e, DEMO_SYMS, DemoEnv) == 0
  {
    var ms := [Case(DEMO_ARMS)];
    DemoFacts();
    DemoWorths(DemoEnv);
    DemoRead(ms, DemoEnv, 6);
    CaseMeans(DEMO_SYMS, DemoEnv, ms[0]);
    hide ParseCond, Gen, Build, Accepted, PlainNumbers, Filled, ReadWorth, Spread, Eval, Meaning, FirstTrue;
    assert !SomeEqual(DEMO_SYMS, DemoEnv, ms, 6);
    DemoAccepted(ms, DemoEnv);
    DemoDiffers(DemoEnv, ms);
    EleMeans(DEMO_SYMS, DemoEnv, Var("x"), ms);
  }

  /** With only d 1, x = 0 is the member [c: 5;], but is not found in { [c: 5;], [d: 6;] }: the first case list is
      read on into the second. */
  lemma CaseInSetMissed()
    ensures var e := Ele(Var("x"), OPEN_SET);
            var p := ParseCond(Gen(DEMO_SYMS, Build(e)).toks);
            && Accepted(DEMO_SYMS, e, true) && PlainNumbers(e) && BoolSignals(DEMO_SYMS, OpenEnv)
            && p.Got? && p.rest == [] && Eval(p.c, OpenEnv) == 0 && Meaning(e, DEMO_SYMS, OpenEnv) == 1
  {
    var ms := OPEN_SET;
    DemoFacts();
    DemoWorths(OpenEnv);
    DemoRead(ms, OpenEnv, 0);
    CaseMeans(DEMO_SYMS, OpenEnv, ms[0]);
    hide ParseCond, Gen, Build, Accepted, PlainNumbers, Filled, ReadWorth, Spread, Eval, Meaning, FirstTrue;
    assert SomeEqual(DEMO_SYMS, OpenEnv, ms, 0);
    DemoAccepted(ms, OpenEnv);
    DemoDiffers(OpenEnv, ms);
    EleMeans(DEMO_SYMS, OpenEnv, Var("x"), ms);
  }

  lemma DemoDiffers(env: Env, ms: seq<Expr>)
    requires BoolSignals(DEMO_SYMS, env) && Demo(ms)
    requires var v := Meaning(Var("x"), DEMO_SYMS, env); SomeEqual(DEMO_SYMS, env, ms, v) != ReadWorth(DEMO_SYMS, env, ms, v)
    ensures var e := Ele(Var("x"), ms);
            var p := ParseCond(Gen(DEMO_SYMS, Build(e)).toks);
            && p.Got? && p.rest == [] && Eval(p.c, env) == 1 - Meaning(e, DEMO_SYMS, env)
  {
    var e := Ele(Var("x"), ms);
    DemoAccepted(ms, env);
    assert Agrees(DEMO_SYMS, env, Var("x"));
    hide ParseCond, Gen, Build, Accepted, PlainNumbers, BoolSignals, Filled, SomeEqual, ReadWorth, Spread, Eval, Meaning;
    SetEmittedExactly(DEMO_SYMS, env, Var("x"), ms);
    GeneratedMeaning(DEMO_SYMS, env, e, true);
    EleMeans(DEMO_SYMS, env, Var("x"), ms);
  }

  /** A boolsig whose C text is worth anything but 0 or 1 already breaks `b || 0`, and only then. */
  lemma BoolSignalExact(syms: seq<Signal>, env: Env, name: string)
    requires Find(syms, name) >= 0 && syms[Find(syms, name)].isbool
    ensures var e, v := Or(Var(name), Num("0")), env(syms[Find(syms, name)].text);
            && Accepted(syms, e, true) && Plain(e) && PlainNumbers(e) && Spread(e) == e
            && (Eval(Tree(syms, e), env) == Meaning(e, syms, env) <==> 0 <= v <= 1)
  {
    var e := Or(Var(name), Num("0"));
    ZeroLit();
    assert Build(e).arg1 == Build(Var(name)) && Build(e).arg2 == Build(Num("0"));
    assert "0"[..0] == "";
    assert NumberText("0");
  }
}
