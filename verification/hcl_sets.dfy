/** How the links of case lists run into the sets that hold them. */
module HclSets {
  import opened HclLanguage
  import opened HclGenerator

  /** A node of a set's chain of links: an arm of a case list that is a member, or another member. */
  datatype Link = AsArm(arm: Arm) | AsMember(e: Expr)

  function Own(e: Expr): seq<Link> {
    if e.Case? then seq(|e.arms|, k requires 0 <= k < |e.arms| => AsArm(e.arms[k])) else [AsMember(e)]
  }

  /** The chain of a set. */
  function Links(ms: seq<Expr>): seq<Link> {
    if ms == [] then [] else Links(ms[..|ms| - 1]) + Own(ms[|ms| - 1])
  }

  function IsDefault(arm: Arm): bool {
    arm.cond.Num? && NumValue(arm.cond.sval) == 1
  }

  /** Whether the case loop can take a link for an arm: it has two operands. */
  predicate HasArm(l: Link) {
    l.AsArm? || l.e.And? || l.e.Or? || l.e.Comp? || (l.e.Ele? && l.e.members != [])
  }

  /** The arm the case loop takes it for; of a set, the operands are its argument and its first member. */
  function ArmOf(l: Link): Arm
    requires HasArm(l)
  {
    match l
    case AsArm(arm) => arm
    case AsMember(e) => if e.Ele? then Arm(e.arg, e.members[0]) else Arm(e.arg1, e.arg2)
  }

  /** The arms the case loop reads from a link on: to the end of the chain, or to a default arm. */
  function ArmsFrom(ls: seq<Link>): seq<Arm> {
    if ls == [] || !HasArm(ls[0]) then []
    else if IsDefault(ArmOf(ls[0])) then [ArmOf(ls[0])]
    else [ArmOf(ls[0])] + ArmsFrom(ls[1..])
  }

  /** What each link is emitted as: a member as itself, an arm as the case list that starts there. */
  function Members(ls: seq<Link>): (ms: seq<Expr>)
    ensures |ms| == |ls|
  {
    if ls == [] then []
    else [if ls[0].AsMember? then ls[0].e else Case(ArmsFrom(ls))] + Members(ls[1..])
  }

  /** The expression that is emitted for e: in every set, each member as the case loop reads it. */
  function Spread(e: Expr): Expr
    decreases e
  {
    match e
    case Var(_) => e
    case Num(_) => e
    case Not(a) => Not(Spread(a))
    case And(a, b) => And(Spread(a), Spread(b))
    case Or(a, b) => Or(Spread(a), Spread(b))
    case Comp(op, a, b) => Comp(op, Spread(a), Spread(b))
    case Ele(a, ms) => Ele(Spread(a), Members(Links(seq(|ms|, k requires 0 <= k < |ms| => Spread(ms[k])))))
    case Case(arms) => Case(seq(|arms|, k requires 0 <= k < |arms| =>
                              (assert arms decreases to arms[k]; Arm(Spread(arms[k].cond), Spread(arms[k].val)))))
  }

  function SpreadEach(ms: seq<Expr>): seq<Expr> {
    seq(|ms|, k requires 0 <= k < |ms| => Spread(ms[k]))
  }

  function SpreadLink(l: Link): Link {
    match l
    case AsArm(arm) => AsArm(Arm(Spread(arm.cond), Spread(arm.val)))
    case AsMember(e) => AsMember(Spread(e))
  }

  lemma SpreadSet(a: Expr, ms: seq<Expr>)
    ensures Spread(Ele(a, ms)) == Ele(Spread(a), Members(Links(SpreadEach(ms))))
  {
    assert SpreadEach(ms) == seq(|ms|, k requires 0 <= k < |ms| => Spread(ms[k]));
  }

  /** Spreading the members spreads the links. */
  lemma {:induction false} SpreadLinks(ms: seq<Expr>)
    ensures |Links(SpreadEach(ms))| == |Links(ms)|
    ensures forall j :: 0 <= j < |Links(ms)| ==> Links(SpreadEach(ms))[j] == SpreadLink(Links(ms)[j])
  {
    if ms != [] {
      var n := |ms| - 1;
      SpreadLinks(ms[..n]);
      assert SpreadEach(ms)[..n] == SpreadEach(ms[..n]);
      OwnSpread(ms[n]);
    }
  }

  lemma OwnSpread(e: Expr)
    ensures |Own(Spread(e))| == |Own(e)|
    ensures forall j :: 0 <= j < |Own(e)| ==> Own(Spread(e))[j] == SpreadLink(Own(e)[j])
  {
  }

  // ---------------------------------------------------------------- the chain of nodes

  function NodeOf(l: Link): (n: Node)
    ensures n.Node?
  {
    match l
    case AsArm(arm) => New(N_CASE, false, ":", Build(arm.cond), Build(arm.val))
    case AsMember(e) => if e.Case? then New(N_CASE, false, ":", Null, Null) else Build(e)
  }

  function Chained(ls: seq<Link>): (n: Node)
    ensures n.Null? <==> ls == []
  {
    if ls == [] then Null
    else
      var n := NodeOf(ls[0]);
      n.(next := Chained(ls[1..]))
  }

  lemma FreshNode(e: Expr)
    requires !e.Case?
    ensures !Build(e).Null? && Build(e).next == Null && Build(e).kind != N_CASE
  {
  }

  lemma {:induction false} ChainedAppend(a: seq<Link>, b: seq<Link>)
    ensures Chained(a + b) == Concat(Chained(a), Chained(b))
  {
    if a == [] {
      assert a + b == b;
    } else {
      ChainedAppend(a[1..], b);
      assert (a + b)[1..] == a[1..] + b;
    }
  }

  /** Building a case list or any other member builds the chain of its own links. */
  lemma {:induction false} BuildOwn(e: Expr)
    ensures Build(e) == Chained(Own(e))
  {
    if e.Case? {
      BuildArmsOwn(e.arms);
    } else {
      FreshNode(e);
      assert Own(e)[1..] == [];
    }
  }

  lemma {:induction false} BuildArmsOwn(arms: seq<Arm>)
    ensures BuildArms(arms) == Chained(Own(Case(arms)))
  {
    if arms != [] {
      var n := |arms| - 1;
      var last := [AsArm(arms[n])];
      BuildArmsOwn(arms[..n]);
      assert Own(Case(arms)) == Own(Case(arms[..n])) + last;
      ChainedAppend(Own(Case(arms[..n])), last);
      assert last[1..] == [];
    }
  }

  /** The set node's second operand is the chain of its links. */
  lemma {:induction false} BuildSetLinks(ms: seq<Expr>)
    ensures BuildSet(ms) == Chained(Links(ms))
  {
    if ms != [] {
      var n := |ms| - 1;
      BuildSetLinks(ms[..n]);
      BuildOwn(ms[n]);
      ChainedAppend(Links(ms[..n]), Own(ms[n]));
    }
  }

  /** Every link comes from a member. */
  predicate FromMembers(ms: seq<Expr>, l: Link) {
    match l
    case AsMember(e) => e in ms && !e.Case?
    case AsArm(arm) => exists k, i :: 0 <= k < |ms| && ms[k].Case? && 0 <= i < |ms[k].arms| && ms[k].arms[i] == arm
  }

  lemma {:induction false} LinksFromMembers(ms: seq<Expr>)
    ensures forall l :: l in Links(ms) ==> FromMembers(ms, l)
  {
    if ms != [] {
      var n := |ms| - 1;
      var init := ms[..n];
      LinksFromMembers(init);
      forall l | l in Links(ms) ensures FromMembers(ms, l) {
        if l in Own(ms[n]) {
          OwnFrom(ms, n, l);
        } else if l.AsArm? {
          assert FromMembers(init, l);
          var k, i :| 0 <= k < |init| && init[k].Case? && 0 <= i < |init[k].arms| && init[k].arms[i] == l.arm;
          assert ms[k] == init[k];
        } else {
          assert FromMembers(init, l);
        }
      }
    }
  }

  lemma OwnFrom(ms: seq<Expr>, n: nat, l: Link)
    requires n < |ms| && l in Own(ms[n])
    ensures FromMembers(ms, l)
  {
    var i :| 0 <= i < |Own(ms[n])| && Own(ms[n])[i] == l;
    if l.AsArm? {
      assert ms[n].arms[i] == l.arm;
    }
  }
}
