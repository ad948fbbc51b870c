/** The HCL-to-C generator (labs/04-architecture/sim/misc/node.c): the parse actions that build and
    check nodes, and gen_expr in its C form. */
module HclGenerator {
  import opened HclLanguage
  import opened CText

  datatype Kind = N_VAR | N_NUM | N_AND | N_OR | N_NOT | N_COMP | N_ELE | N_CASE

  /** A parse node, or NULL. `next` links the members of a set and the arms of a case list. */
  datatype Node =
    | Null
    | Node(kind: Kind, isbool: bool, sval: string, op: CompOp, arg1: Node, arg2: Node, next: Node)

  function Size(n: Node): (k: nat)
    ensures k >= 1
  {
    if n.Null? then 1 else 1 + Size(n.arg1) + Size(n.arg2) + Size(n.next)
  }

  function New(kind: Kind, isbool: bool, sval: string, arg1: Node, arg2: Node): Node {
    Node(kind, isbool, sval, EQ, arg1, arg2, Null)
  }

  // concat: hang n2 on the last link of n1
  function Concat(n1: Node, n2: Node): Node {
    if n1.Null? then n2 else n1.(next := Concat(n1.next, n2))
  }

  // check_arg
  function CheckArg(syms: seq<Signal>, arg: Node, wantbool: bool): bool {
    if arg.Null? then false
    else if arg.kind == N_VAR then
      var k := Find(syms, arg.sval); k >= 0 && syms[k].isbool == wantbool
    else if arg.kind == N_NUM then
      !wantbool || arg.sval == "0" || arg.sval == "1"
    else
      arg.isbool == wantbool
  }

  // The loop of make_ele walks the links of its first argument, not of the set.
  function CheckLinks(syms: seq<Signal>, n: Node): bool {
    n.Null? || (CheckArg(syms, n, false) && CheckLinks(syms, n.next))
  }

  /** The node the parse actions build for an expression. */
  function Build(e: Expr): Node
    decreases e, 1
  {
    match e
    case Var(name) => New(N_VAR, false, name, Null, Null)
    case Num(s) => New(N_NUM, false, s, Null, Null)
    case Not(a) => New(N_NOT, true, "!", Build(a), Null)
    case And(a, b) => New(N_AND, true, "&", Build(a), Build(b))
    case Or(a, b) => New(N_OR, true, "|", Build(a), Build(b))
    case Comp(op, a, b) => New(N_COMP, true, "", Build(a), Build(b)).(op := op)
    case Ele(a, ms) => New(N_ELE, true, "in", Build(a), BuildSet(ms))
    case Case(arms) => BuildArms(arms)
  }

  // exprlist: each member is concatenated to the list before it
  function BuildSet(ms: seq<Expr>): Node
    decreases ms, 0
  {
    if ms == [] then Null else Concat(BuildSet(ms[..|ms| - 1]), Build(ms[|ms| - 1]))
  }

  // caselist
  function BuildArms(arms: seq<Arm>): Node
    decreases arms, 0
  {
    if arms == [] then Null
    else
      var arm := arms[|arms| - 1];
      assert arms decreases to arm;
      Concat(BuildArms(arms[..|arms| - 1]), New(N_CASE, false, ":", Build(arm.cond), Build(arm.val)))
  }

  /** No parse action reports an error. */
  function Checked(syms: seq<Signal>, e: Expr): bool
    decreases e
  {
    match e
    case Var(_) => true
    case Num(_) => true
    case Not(a) => Checked(syms, a) && CheckArg(syms, Build(a), true)
    case And(a, b) => Checked(syms, a) && Checked(syms, b) && CheckArg(syms, Build(a), true) && CheckArg(syms, Build(b), true)
    case Or(a, b) => Checked(syms, a) && Checked(syms, b) && CheckArg(syms, Build(a), true) && CheckArg(syms, Build(b), true)
    case Comp(_, a, b) => Checked(syms, a) && Checked(syms, b) && CheckArg(syms, Build(a), false) && CheckArg(syms, Build(b), false)
    case Ele(a, ms) =>
      Checked(syms, a) && CheckArg(syms, Build(a), false) && CheckLinks(syms, Build(a)) &&
      forall k :: 0 <= k < |ms| ==> Checked(syms, ms[k])
    case Case(arms) =>
      forall k :: 0 <= k < |arms| ==> (assert arms decreases to arms[k];
        Checked(syms, arms[k].cond) && Checked(syms, arms[k].val) &&
        CheckArg(syms, Build(arms[k].cond), true) && CheckArg(syms, Build(arms[k].val), false))
  }

  /** Emitted tokens, and whether emission reported an error or went through a null pointer. */
  datatype Out = Out(toks: seq<Tok>, ok: bool)

  function Cat(a: Out, b: Out): Out {
    Out(a.toks + b.toks, a.ok && b.ok)
  }

  function Emit(toks: seq<Tok>): Out {
    Out(toks, true)
  }

  // A number is one literal, after a sign if it has one.
  function NumToks(s: string): seq<Tok> {
    if s != "" && s[0] == '-' then [Minus, Lit(s[1..])] else [Lit(s)]
  }

  function COp(op: CompOp): BinOp {
    match op
    case EQ => Eq
    case NE => Ne
    case LT => Lt
    case LE => Le
    case GT => Gt
    case GE => Ge
  }

  // gen_expr
  function Gen(syms: seq<Signal>, n: Node): Out
    decreases Size(n), 1
  {
    if n.Null? then Out([], false) else
    match n.kind
    case N_VAR =>
      var k := Find(syms, n.sval);
      if k >= 0 then Emit([LP, Text(syms[k].text), RP]) else Out([], false)
    case N_NUM => Emit(NumToks(n.sval))
    case N_AND => Cat(Emit([LP]), Cat(Gen(syms, n.arg1), Cat(Emit([Op(BAnd)]), Cat(Gen(syms, n.arg2), Emit([RP])))))
    case N_OR => Cat(Emit([LP]), Cat(Gen(syms, n.arg1), Cat(Emit([Op(BOr)]), Cat(Gen(syms, n.arg2), Emit([RP])))))
    case N_NOT => Cat(Emit([Bang]), Gen(syms, n.arg1))
    case N_COMP => Cat(Emit([LP]), Cat(Gen(syms, n.arg1), Cat(Emit([Op(COp(n.op))]), Cat(Gen(syms, n.arg2), Emit([RP])))))
    case N_ELE => Cat(Emit([LP]), Cat(GenMembers(syms, n.arg1, n.arg2), Emit([RP])))
    case N_CASE => Cat(Emit([LP]), Cat(GenArms(syms, n), Emit([RP])))
  }

  function GenMembers(syms: seq<Signal>, arg: Node, ele: Node): Out
    decreases Size(arg) + Size(ele), 0
  {
    if ele.Null? then Emit([])
    else
      var test := Cat(Gen(syms, arg), Cat(Emit([Op(Eq)]), Gen(syms, ele)));
      if ele.next.Null? then test else Cat(test, Cat(Emit([Op(LOr)]), GenMembers(syms, arg, ele.next)))
  }

  // The case loop; it stops at an arm whose condition is the number 1.
  function GenArms(syms: seq<Signal>, ele: Node): Out
    decreases Size(ele), 0
  {
    if ele.Null? then Emit([Lit("0")])
    else if ele.arg1.Null? then Out([], false)
    else if ele.arg1.kind == N_NUM && NumValue(ele.arg1.sval) == 1 then Gen(syms, ele.arg2)
    else
      Cat(Gen(syms, ele.arg1), Cat(Emit([Ques]), Cat(Gen(syms, ele.arg2), Cat(Emit([Colon]), GenArms(syms, ele.next)))))
  }
}
