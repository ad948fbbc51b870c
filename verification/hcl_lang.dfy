/** Positional numerals, most significant digit first. */
module Numerals {

  function DigitOf(c: char): int {
    c as int - '0' as int
  }

  function Numeral(s: string, base: int): int {
    if s == "" then 0 else base * Numeral(s[..|s| - 1], base) + DigitOf(s[|s| - 1])
  }
}

/** The hardware control language: expressions as the grammar produces them, and what they mean. */
module HclLanguage {
  import opened Numerals
  import Bits

  datatype CompOp = EQ | NE | LT | LE | GT | GE

  datatype Expr =
    | Var(name: string)
    | Num(sval: string)
    | And(arg1: Expr, arg2: Expr)
    | Or(arg1: Expr, arg2: Expr)
    | Not(arg: Expr)
    | Comp(op: CompOp, arg1: Expr, arg2: Expr)
    | Ele(arg: Expr, members: seq<Expr>)
    | Case(arms: seq<Arm>)

  datatype Arm = Arm(cond: Expr, val: Expr)

  /** A declared signal: its name, the quoted C text it stands for, and boolsig or wordsig. */
  datatype Signal = Signal(name: string, text: string, isbool: bool)

  /** The value of each quoted C text. */
  type Env = string -> int

  // find_symbol: the first declaration of the name
  function Find(syms: seq<Signal>, name: string): int
    ensures -1 <= Find(syms, name) < |syms|
    ensures Find(syms, name) >= 0 ==> syms[Find(syms, name)].name == name
  {
    if syms == [] then -1
    else if syms[0].name == name then 0
    else var k := Find(syms[1..], name); if k < 0 then -1 else k + 1
  }

  function Compare(op: CompOp, x: int, y: int): bool {
    match op
    case EQ => x == y
    case NE => x != y
    case LT => x < y
    case LE => x <= y
    case GT => x > y
    case GE => x >= y
  }

  /** HCL numbers are decimal, with an optional sign. */
  function NumValue(s: string): int {
    if s != "" && s[0] == '-' then -Numeral(s[1..], 10) else Numeral(s, 10)
  }

  /** Logic on truth values, sets as equality with some member, case lists as the first true arm. */
  function Meaning(e: Expr, syms: seq<Signal>, env: Env): int
    decreases e, 1
  {
    match e
    case Var(name) => var k := Find(syms, name); if k < 0 then 0 else env(syms[k].text)
    case Num(s) => NumValue(s)
    case And(a, b) => Bits.Truth(Meaning(a, syms, env) != 0 && Meaning(b, syms, env) != 0)
    case Or(a, b) => Bits.Truth(Meaning(a, syms, env) != 0 || Meaning(b, syms, env) != 0)
    case Not(a) => Bits.Truth(Meaning(a, syms, env) == 0)
    case Comp(op, a, b) => Bits.Truth(Compare(op, Meaning(a, syms, env), Meaning(b, syms, env)))
    case Ele(a, ms) => Bits.Truth(exists k :: 0 <= k < |ms| && Meaning(ms[k], syms, env) == Meaning(a, syms, env))
    case Case(arms) => FirstTrue(arms, syms, env)
  }

  function FirstTrue(arms: seq<Arm>, syms: seq<Signal>, env: Env): int
    decreases arms, 0
  {
    if arms == [] then 0
    else if (assert arms decreases to arms[0]; Meaning(arms[0].cond, syms, env)) != 0 then Meaning(arms[0].val, syms, env)
    else FirstTrue(arms[1..], syms, env)
  }
}

/** The C the generator emits: tokens, a parser by C's operator precedence, and evaluation. */
module CText {
  import opened Bits
  import opened Numerals

  datatype Tok = LP | RP | Lit(s: string) | Text(s: string) | Op(o: BinOp) | Bang | Minus | Ques | Colon

  datatype BinOp = LOr | LAnd | BOr | BXor | BAnd | Eq | Ne | Lt | Le | Gt | Ge

  // From loosest to tightest.
  function Prec(o: BinOp): nat {
    match o
    case LOr => 1
    case LAnd => 2
    case BOr => 3
    case BXor => 4
    case BAnd => 5
    case Eq => 6
    case Ne => 6
    case Lt => 7
    case Le => 7
    case Gt => 7
    case Ge => 7
  }

  datatype C =
    | CLit(s: string)
    | CText(s: string)
    | CNot(c: C)
    | CNeg(c: C)
    | CBin(o: BinOp, l: C, r: C)
    | CCond(c: C, t: C, e: C)

  datatype Parse = Fail | Got(c: C, rest: seq<Tok>)

  // unary-expression
  function ParseUnary(ts: seq<Tok>): (p: Parse)
    ensures p.Got? ==> |p.rest| < |ts|
    decreases |ts|, 0
  {
    if ts == [] then Fail else
    match ts[0]
    case Lit(s) => Got(CLit(s), ts[1..])
    case Text(s) => Got(CText(s), ts[1..])
    case Bang =>
      var p := ParseUnary(ts[1..]);
      if p.Fail? then Fail else Got(CNot(p.c), p.rest)
    case Minus =>
      var p := ParseUnary(ts[1..]);
      if p.Fail? then Fail else Got(CNeg(p.c), p.rest)
    case LP =>
      var p := ParseCond(ts[1..]);
      if p.Fail? || p.rest == [] || p.rest[0] != RP then Fail else Got(p.c, p.rest[1..])
    case _ => Fail
  }

  // Operators of precedence min and tighter, grouping to the left.
  function ParseBin(min: nat, ts: seq<Tok>): (p: Parse)
    ensures p.Got? ==> |p.rest| < |ts|
    decreases |ts|, 2
  {
    var p := ParseUnary(ts);
    if p.Fail? then Fail else Climb(p.c, min, p.rest)
  }

  function Climb(lhs: C, min: nat, ts: seq<Tok>): (p: Parse)
    ensures p.Got? ==> |p.rest| <= |ts|
    decreases |ts|, 1
  {
    if ts == [] || !ts[0].Op? || Prec(ts[0].o) < min then Got(lhs, ts)
    else
      var p := ParseBin(Prec(ts[0].o) + 1, ts[1..]);
      if p.Fail? then Fail else Climb(CBin(ts[0].o, lhs, p.c), min, p.rest)
  }

  // conditional-expression, grouping to the right
  function ParseCond(ts: seq<Tok>): (p: Parse)
    ensures p.Got? ==> |p.rest| < |ts|
    decreases |ts|, 3
  {
    var p := ParseBin(1, ts);
    if p.Fail? || p.rest == [] || p.rest[0] != Ques then p
    else
      var q := ParseCond(p.rest[1..]);
      if q.Fail? || q.rest == [] || q.rest[0] != Colon then Fail
      else
        var r := ParseCond(q.rest[1..]);
        if r.Fail? then Fail else Got(CCond(p.c, q.c, r.c), r.rest)
  }

  // A C integer literal with a leading zero is octal.
  function LitValue(s: string): int {
    if |s| > 1 && s[0] == '0' then Numeral(s, 8) else Numeral(s, 10)
  }

  function Apply(o: BinOp, x: int, y: int): int {
    match o
    case LOr => Truth(x != 0 || y != 0)
    case LAnd => Truth(x != 0 && y != 0)
    case BOr => Or(x, y)
    case BXor => Xor(x, y)
    case BAnd => And(x, y)
    case Eq => Truth(x == y)
    case Ne => Truth(x != y)
    case Lt => Truth(x < y)
    case Le => Truth(x <= y)
    case Gt => Truth(x > y)
    case Ge => Truth(x >= y)
  }

  function Eval(c: C, env: string -> int): int {
    match c
    case CLit(s) => LitValue(s)
    case CText(s) => env(s)
    case CNot(a) => Truth(Eval(a, env) == 0)
    case CNeg(a) => -Eval(a, env)
    case CBin(o, l, r) => Apply(o, Eval(l, env), Eval(r, env))
    case CCond(a, t, e) => if Eval(a, env) != 0 then Eval(t, env) else Eval(e, env)
  }
}
