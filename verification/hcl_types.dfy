/** Which HCL definitions are accepted: the types the parse actions check, on the expression itself. */
module HclTypes {
  import opened HclLanguage
  import opened CText
  import opened HclGenerator
  import opened HclSets
  import opened HclCorrect

  /** The first declaration of a name is a boolsig or a wordsig. */
  ghost predicate Declared(syms: seq<Signal>, name: string, isbool: bool) {
    exists k :: 0 <= k < |syms| && syms[k].name == name && syms[k].isbool == isbool && forall j :: 0 <= j < k ==> syms[j].name != name
  }

  /** A signal has its declared type, 0 and 1 have both types and every other number is a word; negations, connectives,
      comparisons and set tests are Boolean; a case list with an arm is a word, and one without has no type. */
  ghost predicate HasType(syms: seq<Signal>, e: Expr, isbool: bool) {
    match e
    case Var(name) => Declared(syms, name, isbool)
    case Num(s) => isbool ==> s == "0" || s == "1"
    case Case(arms) => arms != [] && !isbool
    case _ => isbool
  }

  /** Every operand has the type it is used at; the members of a set are not looked at. */
  ghost predicate WellTyped(syms: seq<Signal>, e: Expr)
    decreases e
  {
    match e
    case Var(_) => true
    case Num(_) => true
    case Not(a) => WellTyped(syms, a) && HasType(syms, a, true)
    case And(a, b) => WellTyped(syms, a) && WellTyped(syms, b) && HasType(syms, a, true) && HasType(syms, b, true)
    case Or(a, b) => WellTyped(syms, a) && WellTyped(syms, b) && HasType(syms, a, true) && HasType(syms, b, true)
    case Comp(_, a, b) => WellTyped(syms, a) && WellTyped(syms, b) && HasType(syms, a, false) && HasType(syms, b, false)
    case Ele(a, ms) => WellTyped(syms, a) && HasType(syms, a, false) && forall k :: 0 <= k < |ms| ==> WellTyped(syms, ms[k])
    case Case(arms) =>
      forall k :: 0 <= k < |arms| ==> (assert arms decreases to arms[k];
        && WellTyped(syms, arms[k].cond) && HasType(syms, arms[k].cond, true)
        && WellTyped(syms, arms[k].val) && HasType(syms, arms[k].val, false))
  }

  lemma {:induction false} FoundFirst(syms: seq<Signal>, name: string)
    ensures var k := Find(syms, name);
            if k < 0 then forall j :: 0 <= j < |syms| ==> syms[j].name != name
            else syms[k].name == name && forall j :: 0 <= j < k ==> syms[j].name != name
  {
    if syms != [] {
      FoundFirst(syms[1..], name);
      forall j | 1 <= j < |syms| && (Find(syms[1..], name) < 0 || j - 1 < Find(syms[1..], name)) ensures syms[j].name != name {
        assert syms[j] == syms[1..][j - 1];
      }
    }
  }

  lemma {:induction false} ArmsAreWords(syms: seq<Signal>, ls: seq<Link>)
    requires forall j :: 0 <= j < |ls| ==> ls[j].AsArm?
    ensures CheckLinks(syms, Chained(ls))
    ensures ls != [] ==> CheckArg(syms, Chained(ls), false) && !CheckArg(syms, Chained(ls), true)
  {
    if ls != [] { ArmsAreWords(syms, ls[1..]); }
  }

  /** check_arg accepts exactly what has the wanted type. */
  lemma CheckArgExactly(syms: seq<Signal>, e: Expr, isbool: bool)
    ensures CheckArg(syms, Build(e), isbool) <==> HasType(syms, e, isbool)
    ensures CheckLinks(syms, Build(e)) <==> CheckArg(syms, Build(e), false) || (e.Case? && e.arms == [])
  {
    match e {
      case Var(name) => FoundFirst(syms, name);
      case Case(arms) =>
        BuildOwn(e);
        ArmsAreWords(syms, Own(e));
        assert |Own(e)| == |arms|;
      case _ =>
    }
    if !e.Case? {
      FreshNode(e);
      assert CheckLinks(syms, Build(e).next);
    }
  }

  /** No parse action reports an error exactly for the well-typed expressions. */
  lemma {:induction false} CheckedExactly(syms: seq<Signal>, e: Expr)
    ensures Checked(syms, e) <==> WellTyped(syms, e)
    decreases e
  {
    hide CheckArg, CheckLinks, HasType, Build;
    match e {
      case Var(_) =>
      case Num(_) =>
      case Not(a) => PartExactly(syms, e, a, true);
      case And(a, b) =>
        PartExactly(syms, e, a, true);
        PartExactly(syms, e, b, true);
      case Or(a, b) =>
        PartExactly(syms, e, a, true);
        PartExactly(syms, e, b, true);
      case Comp(_, a, b) =>
        PartExactly(syms, e, a, false);
        PartExactly(syms, e, b, false);
      case Ele(a, ms) =>
        PartExactly(syms, e, a, false);
        forall k | 0 <= k < |ms| ensures Checked(syms, ms[k]) <==> WellTyped(syms, ms[k]) {
          CheckedExactly(syms, ms[k]);
        }
      case Case(arms) =>
        forall k | 0 <= k < |arms|
          ensures Checked(syms, arms[k].cond) <==> WellTyped(syms, arms[k].cond)
          ensures Checked(syms, arms[k].val) <==> WellTyped(syms, arms[k].val)
          ensures CheckArg(syms, Build(arms[k].cond), true) <==> HasType(syms, arms[k].cond, true)
          ensures CheckArg(syms, Build(arms[k].val), false) <==> HasType(syms, arms[k].val, false)
        {
          assert arms decreases to arms[k];
          PartExactly(syms, e, arms[k].cond, true);
          PartExactly(syms, e, arms[k].val, false);
        }
    }
  }

  ghost predicate PartOf(a: Expr, e: Expr) {
    e decreases to a
  }

  lemma PartExactly(syms: seq<Signal>, e: Expr, a: Expr, isbool: bool)
    requires PartOf(a, e)
    ensures Checked(syms, a) <==> WellTyped(syms, a)
    ensures CheckArg(syms, Build(a), isbool) <==> HasType(syms, a, isbool)
    ensures CheckArg(syms, Build(a), false) ==> CheckLinks(syms, Build(a))
    decreases e, 0
  {
    hide CheckArg, CheckLinks, HasType, Build;
    CheckedExactly(syms, a);
    CheckArgExactly(syms, a, isbool);
  }

  // ---------------------------------------------------------------- what is accepted

  /** Every signal is declared, every case list has an arm, and no set has a case list for a member. */
  ghost predicate Usual(syms: seq<Signal>, e: Expr)
    decreases e
  {
    match e
    case Var(name) => Declared(syms, name, true) || Declared(syms, name, false)
    case Num(_) => true
    case Not(a) => Usual(syms, a)
    case And(a, b) => Usual(syms, a) && Usual(syms, b)
    case Or(a, b) => Usual(syms, a) && Usual(syms, b)
    case Comp(_, a, b) => Usual(syms, a) && Usual(syms, b)
    case Ele(a, ms) => Usual(syms, a) && forall k :: 0 <= k < |ms| ==> Usual(syms, ms[k]) && !ms[k].Case?
    case Case(arms) =>
      arms != [] && forall k :: 0 <= k < |arms| ==> (assert arms decreases to arms[k]; Usual(syms, arms[k].cond) && Usual(syms, arms[k].val))
  }

  lemma {:induction false} ArmsEmit(syms: seq<Signal>, ls: seq<Link>)
    requires forall j :: 0 <= j < |ls| ==> ls[j].AsArm? && Gen(syms, Build(ls[j].arm.cond)).ok && Gen(syms, Build(ls[j].arm.val)).ok
    requires forall j :: 0 <= j < |ls| ==> !Build(ls[j].arm.cond).Null?
    ensures GenArms(syms, Chained(ls)).ok
    decreases |ls|
  {
    if ls != [] {
      ArmsEmit(syms, ls[1..]);
      hide Gen;
      var n := Chained(ls);
      assert n.arg1 == Build(ls[0].arm.cond) && n.arg2 == Build(ls[0].arm.val) && n.next == Chained(ls[1..]);
    }
  }

  lemma {:induction false} MembersEmit(syms: seq<Signal>, arg: Node, ls: seq<Link>)
    requires Gen(syms, arg).ok
    requires forall j :: 0 <= j < |ls| ==> ls[j].AsMember? && !ls[j].e.Case? && Gen(syms, Build(ls[j].e)).ok
    ensures GenMembers(syms, arg, Chained(ls)).ok
    decreases |ls|
  {
    if ls != [] {
      MembersEmit(syms, arg, ls[1..]);
      FreshNode(ls[0].e);
      GenIgnoresNext(syms, Build(ls[0].e), Chained(ls[1..]));
      hide Gen;
      assert Chained(ls).next == Chained(ls[1..]);
    }
  }

  /** Such expressions are emitted without error. */
  lemma {:induction false} UsualEmits(syms: seq<Signal>, e: Expr)
    requires Usual(syms, e)
    ensures Gen(syms, Build(e)).ok && !Build(e).Null?
    decreases e
  {
    match e {
      case Var(name) => FoundFirst(syms, name);
      case Num(_) =>
      case Not(a) => UsualEmits(syms, a);
      case And(a, b) =>
        UsualEmits(syms, a);
        UsualEmits(syms, b);
      case Or(a, b) =>
        UsualEmits(syms, a);
        UsualEmits(syms, b);
      case Comp(_, a, b) =>
        UsualEmits(syms, a);
        UsualEmits(syms, b);
      case Ele(a, ms) => UsualSetEmits(syms, e, a, ms);
      case Case(arms) => UsualCaseEmits(syms, e, arms);
    }
  }

  lemma UsualSetEmits(syms: seq<Signal>, e: Expr, a: Expr, ms: seq<Expr>)
    requires e == Ele(a, ms) && Usual(syms, e)
    ensures Gen(syms, Build(e)).ok
    decreases e, 0
  {
    UsualEmits(syms, a);
    BuildSetLinks(ms);
    LinksFromMembers(ms);
    var ls := Links(ms);
    forall j | 0 <= j < |ls| ensures ls[j].AsMember? && !ls[j].e.Case? && Gen(syms, Build(ls[j].e)).ok {
      assert ls[j] in ls && FromMembers(ms, ls[j]);
      if ls[j].AsMember? {
        var k :| 0 <= k < |ms| && ms[k] == ls[j].e;
        UsualEmits(syms, ms[k]);
      }
    }
    MembersEmit(syms, Build(a), ls);
    hide GenMembers;
  }

  lemma UsualCaseEmits(syms: seq<Signal>, e: Expr, arms: seq<Arm>)
    requires e == Case(arms) && Usual(syms, e)
    ensures Gen(syms, Build(e)).ok && !Build(e).Null?
    decreases e, 0
  {
    var ls := Own(e);
    BuildOwn(e);
    forall j | 0 <= j < |ls|
      ensures ls[j].AsArm? && Gen(syms, Build(ls[j].arm.cond)).ok && Gen(syms, Build(ls[j].arm.val)).ok
      ensures !Build(ls[j].arm.cond).Null?
    {
      assert arms decreases to arms[j];
      UsualEmits(syms, arms[j].cond);
      UsualEmits(syms, arms[j].val);
    }
    ArmsEmit(syms, ls);
    assert ls != [] && Chained(ls).kind == N_CASE;
    hide GenArms;
  }

  /** An accepted definition is well-typed and of its declared type; a usual one is accepted exactly then. */
  lemma AcceptedExactly(syms: seq<Signal>, e: Expr, isbool: bool)
    ensures Accepted(syms, e, isbool) ==> WellTyped(syms, e) && HasType(syms, e, isbool)
    ensures Usual(syms, e) ==> (Accepted(syms, e, isbool) <==> WellTyped(syms, e) && HasType(syms, e, isbool))
  {
    CheckedExactly(syms, e);
    CheckArgExactly(syms, e, isbool);
    if Usual(syms, e) { UsualEmits(syms, e); }
    hide Checked, CheckArg, Gen, WellTyped, HasType, Usual;
  }
}
