/** Which programs the assembler takes: statements as the language has them, and no complaint about any of them. */
module Y86Legal {
  import opened Y86Words
  import opened Y86Isa
  import opened Y86Asm
  import opened Y86Yo
  import opened Y86Lines

  datatype Stmt =
    | Two(name: string, a: string, b: string)
    | One(name: string, a: string)
    | Plain(name: string)
    | Dest(name: string, tok: Token)
    | Const(name: string, tok: Token, b: string)
    | Store(a: string, o: Operand)
    | Load(o: Operand, a: string)
    | Data(name: string, tok: Token)
    | Pos(n: Word)
    | Align(n: Word)

  function Text(st: Stmt): Line {
    match st
    case Two(name, a, b) => [TokInstr(name), TokReg(a), COMMA, TokReg(b)]
    case One(name, a) => [TokInstr(name), TokReg(a)]
    case Plain(name) => [TokInstr(name)]
    case Dest(name, tok) => [TokInstr(name), tok]
    case Const(name, tok, b) => [TokInstr(name), tok, COMMA, TokReg(b)]
    case Store(a, o) => [TokInstr("rmmovq"), TokReg(a), COMMA] + Written(o)
    case Load(o, a) => [TokInstr("mrmovq")] + Written(o) + [COMMA, TokReg(a)]
    case Data(name, tok) => [TokInstr(name), tok]
    case Pos(n) => [TokInstr(".pos"), TokNum(n)]
    case Align(n) => [TokInstr(".align"), TokNum(n)]
  }

  ghost predicate IsRegister(a: string) {
    exists r :: Names(a, r)
  }

  /** A number, or a label that some line defines. */
  ghost predicate Known(lines: seq<Line>, tok: Token) {
    exists v :: Denotes(lines, tok, v)
  }

  ghost predicate OperandOk(lines: seq<Line>, o: Operand) {
    (o.disp.Some? ==> Known(lines, o.disp.value)) && (o.base.Some? ==> IsRegister(o.base.value))
  }

  ghost predicate Legal(lines: seq<Line>, st: Stmt) {
    match st
    case Two(name, a, b) =>
      && name in ["addq", "subq", "andq", "xorq", "rrmovq", "cmovle", "cmovl", "cmove", "cmovne", "cmovge", "cmovg"]
      && IsRegister(a) && IsRegister(b)
    case One(name, a) => name in ["pushq", "popq"] && IsRegister(a)
    case Plain(name) => name in ["halt", "nop", "ret"]
    case Dest(name, tok) => name in ["jmp", "jle", "jl", "je", "jne", "jge", "jg", "call"] && Known(lines, tok)
    case Const(name, tok, b) => name in ["irmovq", "iaddq"] && Known(lines, tok) && IsRegister(b)
    case Store(a, o) => IsRegister(a) && OperandOk(lines, o)
    case Load(o, a) => IsRegister(a) && OperandOk(lines, o)
    case Data(name, tok) => name in [".byte", ".word", ".long", ".quad"] && Known(lines, tok)
    case Pos(_) => true
    case Align(n) => 0 < n < 0x8000_0000
  }

  /** An empty line, a label, or a statement with or without a label. */
  ghost predicate LegalLine(lines: seq<Line>, i: nat) {
    i < |lines| && (lines[i] == [] || (LabelOf(lines[i]).Some? && |lines[i]| == 2)
                    || exists st :: LineSays(lines, i, Text(st)) && Legal(lines, st))
  }

  ghost predicate Passes(lines: seq<Line>, i: nat) {
    i < |lines| && !FormOf(lines[i]).Malformed?
    && (AddrAt(lines, i) <= MAX_ADDRESS && AddrAt(lines, i + 1) <= MAX_ADDRESS
        ==> Emits(lines[i], AddrAt(lines, i), SymbolsAt(lines, |lines|)).Some?)
  }

  lemma StandsTaken(lines: seq<Line>, i: nat, name: string, icode: int, fun: int, o: Operands)
    requires Stands(lines, i, name, icode, fun, o) && RegsInRange(o)
    ensures Passes(lines, i)
  {
    hide Emits, FormOf, Parse, SymbolsAt, Coherent, InstructionSet, AddrAt, CodeBytes, Start, Row;
    if AddrAt(lines, i) <= MAX_ADDRESS {
      LineEmitted(lines, i, name, icode, fun, o, AddrAt(lines, i));
    }
  }

  lemma CodeOf(name: string) returns (icode: int, fun: int)
    requires name in ["addq", "subq", "andq", "xorq", "rrmovq", "cmovle", "cmovl", "cmove", "cmovne", "cmovge", "cmovg"]
    ensures Mnemonic(name, icode, fun) && icode in {2, 6}
  {
    icode := if name in ["addq", "subq", "andq", "xorq"] then 6 else 2;
    fun := if name in ["addq", "rrmovq"] then 0 else if name in ["subq", "cmovle"] then 1 else if name in ["andq", "cmovl"] then 2
           else if name in ["xorq", "cmove"] then 3 else if name == "cmovne" then 4 else if name == "cmovge" then 5 else 6;
  }

  lemma JumpOf(name: string) returns (icode: int, fun: int)
    requires name in ["jmp", "jle", "jl", "je", "jne", "jge", "jg", "call"]
    ensures Mnemonic(name, icode, fun) && icode in {7, 8}
  {
    icode := if name == "call" then 8 else 7;
    fun := if name in ["jmp", "call"] then 0 else if name == "jle" then 1 else if name == "jl" then 2 else if name == "je" then 3
           else if name == "jne" then 4 else if name == "jge" then 5 else 6;
  }

  lemma TwoTaken(lines: seq<Line>, i: nat, st: Stmt)
    requires LineSays(lines, i, Text(st)) && Legal(lines, st) && st.Two?
    ensures Passes(lines, i)
  {
    hide Says, Mnemonic, Names, Stands, Passes;
    var icode, fun := CodeOf(st.name);
    var ra :| Names(st.a, ra);
    var rb :| Names(st.b, rb);
    LineTwo(lines, i, st.name, icode, fun, st.a, ra, st.b, rb);
    StandsTaken(lines, i, st.name, icode, fun, Operands(ra, rb, 0));
  }

  lemma OneTaken(lines: seq<Line>, i: nat, st: Stmt)
    requires LineSays(lines, i, Text(st)) && Legal(lines, st) && (st.One? || st.Plain?)
    ensures Passes(lines, i)
  {
    hide Says, Names, Stands, Passes;
    match st {
      case One(name, a) =>
        var ra :| Names(a, ra);
        var icode := if name == "pushq" then 10 else 11;
        assert Mnemonic(name, icode, 0);
        LineOne(lines, i, name, icode, a, ra);
        StandsTaken(lines, i, name, icode, 0, Operands(ra, 15, 0));
      case Plain(name) =>
        var icode := if name == "halt" then 0 else if name == "nop" then 1 else 9;
        assert Mnemonic(name, icode, 0);
        LineNone(lines, i, name, icode);
        StandsTaken(lines, i, name, icode, 0, NO_OPERANDS);
    }
  }

  lemma DestTaken(lines: seq<Line>, i: nat, st: Stmt)
    requires LineSays(lines, i, Text(st)) && Legal(lines, st) && st.Dest?
    ensures Passes(lines, i)
  {
    hide Says, Mnemonic, Denotes, Stands, Passes;
    var icode, fun := JumpOf(st.name);
    var v :| Denotes(lines, st.tok, v);
    LineDest(lines, i, st.name, icode, fun, st.tok, v);
    StandsTaken(lines, i, st.name, icode, fun, Operands(15, 15, v));
  }

  lemma ConstTaken(lines: seq<Line>, i: nat, st: Stmt)
    requires LineSays(lines, i, Text(st)) && Legal(lines, st) && st.Const?
    ensures Passes(lines, i)
  {
    hide Says, Denotes, Names, Stands, Passes;
    var icode := if st.name == "irmovq" then 3 else 12;
    assert Mnemonic(st.name, icode, 0);
    var v :| Denotes(lines, st.tok, v);
    var rb :| Names(st.b, rb);
    LineConst(lines, i, st.name, icode, st.tok, v, st.b, rb);
    StandsTaken(lines, i, st.name, icode, 0, Operands(15, rb, v));
  }

  lemma OperandMeans(lines: seq<Line>, o: Operand) returns (disp: int, rb: int)
    requires OperandOk(lines, o)
    ensures Means(lines, o, disp, rb)
  {
    hide Denotes, Names;
    disp, rb := 0, 15;
    if o.disp.Some? { disp :| Denotes(lines, o.disp.value, disp); }
    if o.base.Some? { rb :| Names(o.base.value, rb); }
  }

  lemma MemoryTaken(lines: seq<Line>, i: nat, st: Stmt)
    requires LineSays(lines, i, Text(st)) && Legal(lines, st) && (st.Store? || st.Load?)
    ensures Passes(lines, i)
  {
    hide Says, Names, Means, OperandOk, Stands, Written, Passes;
    var ra :| Names(st.a, ra);
    var disp, rb := OperandMeans(lines, st.o);
    if st.Store? {
      LineStore(lines, i, st.a, ra, st.o, disp, rb);
      StandsTaken(lines, i, "rmmovq", 4, 0, Operands(ra, rb, disp));
    } else {
      LineLoad(lines, i, st.a, ra, st.o, disp, rb);
      StandsTaken(lines, i, "mrmovq", 5, 0, Operands(ra, rb, disp));
    }
  }

  lemma DataTaken(lines: seq<Line>, i: nat, st: Stmt)
    requires LineSays(lines, i, Text(st)) && Legal(lines, st) && st.Data?
    ensures Passes(lines, i)
  {
    hide Coherent, InstructionSet, Says, FormOf, Denotes, Parse, Tok, Start, NumAt, SymbolsAt, FindInstr, AddrAt, Emits;
    var n := if st.name == ".byte" then 1 else if st.name == ".word" then 2 else if st.name == ".long" then 4 else 8;
    var v :| Denotes(lines, st.tok, v);
    var x := Instr(st.name, 0, n, IArg(0, n), NoArg);
    DirectiveFound(st.name, n);
    LineTokens(lines[i], Text(st), x);
    TokIn(Text(st), 1);
    DenotesNum(lines, lines[i], Start(lines[i]) + 1, v);
    ParseData(x, n, lines[i], Start(lines[i]) + 1, SymbolsAt(lines, |lines|), v);
    if AddrAt(lines, i) <= MAX_ADDRESS {
      EmitsIs(lines[i], x, Start(lines[i]) + 1, SymbolsAt(lines, |lines|), Operands(15, 15, v), AddrAt(lines, i));
    }
  }

  lemma PlaceTaken(lines: seq<Line>, i: nat, st: Stmt)
    requires LineSays(lines, i, Text(st)) && Legal(lines, st) && (st.Pos? || st.Align?)
    ensures Passes(lines, i)
  {
    hide Coherent, InstructionSet, FindInstr, SymbolsAt, Int32, Says, Parse, Encode;
    SaysTwo(lines[i], Text(st)[0], Text(st)[1]);
    if st.Align? { assert Int32(st.n) == st.n by { SmallInt(st.n); } }
    assert AddrAt(lines, i + 1) == NextPos(FormOf(lines[i]), AddrAt(lines, i));
    hide AddrAt;
  }

  lemma SmallInt(n: int)
    requires 0 < n < 0x8000_0000
    ensures Int32(n) == n
  {
  }

  lemma LineTaken(lines: seq<Line>, i: nat)
    requires LegalLine(lines, i)
    ensures Passes(lines, i)
  {
    if lines[i] == [] || (LabelOf(lines[i]).Some? && |lines[i]| == 2) {
      BareTaken(lines, i);
    } else {
      hide LineSays, Text, Passes, LabelOf;
      var st :| LineSays(lines, i, Text(st)) && Legal(lines, st);
      hide Legal;
      match st {
        case Two(_, _, _) => TwoTaken(lines, i, st);
        case One(_, _) => OneTaken(lines, i, st);
        case Plain(_) => OneTaken(lines, i, st);
        case Dest(_, _) => DestTaken(lines, i, st);
        case Const(_, _, _) => ConstTaken(lines, i, st);
        case Store(_, _) => MemoryTaken(lines, i, st);
        case Load(_, _) => MemoryTaken(lines, i, st);
        case Data(_, _) => DataTaken(lines, i, st);
        case Pos(_) => PlaceTaken(lines, i, st);
        case Align(_) => PlaceTaken(lines, i, st);
      }
    }
  }

  lemma BareTaken(lines: seq<Line>, i: nat)
    requires i < |lines| && (lines[i] == [] || (LabelOf(lines[i]).Some? && |lines[i]| == 2))
    ensures Passes(lines, i)
  {
    hide Coherent, InstructionSet, FindInstr, SymbolsAt, AddrAt, Parse, Encode;
  }

  /** A program of legal lines that stays within the addresses is accepted, whatever its labels and operands. */
  lemma LegalAccepted(lines: seq<Line>)
    requires forall i :: 0 <= i < |lines| ==> LegalLine(lines, i)
    requires forall i :: 0 <= i <= |lines| ==> AddrAt(lines, i) <= MAX_ADDRESS
    ensures Accepted(lines)
  {
    hide LegalLine, FormOf, Emits, AddrAt, SymbolsAt;
    forall i | 0 <= i < |lines|
      ensures !FormOf(lines[i]).Malformed? && Emits(lines[i], AddrAt(lines, i), SymbolsAt(lines, |lines|)).Some?
    {
      LineTaken(lines, i);
    }
  }
}
