/** What a source line stands for, by its mnemonic and the names of its registers, and what is fetched at it once the
    program is loaded. */
module Y86Lines {
  import opened Arith
  import opened Y86Words
  import opened Y86Isa
  import opened Y86Asm
  import opened Y86Yo
  import opened Y86Effects

  // ---------------------------------------------------------------- names

  /** The number of a register, by its name. */
  predicate Names(name: string, r: int) {
    || (name == "%rax" && r == 0) || (name == "%rcx" && r == 1) || (name == "%rdx" && r == 2) || (name == "%rbx" && r == 3)
    || (name == "%rsp" && r == 4) || (name == "%rbp" && r == 5) || (name == "%rsi" && r == 6) || (name == "%rdi" && r == 7)
    || (name == "%r8" && r == 8) || (name == "%r9" && r == 9) || (name == "%r10" && r == 10) || (name == "%r11" && r == 11)
    || (name == "%r12" && r == 12) || (name == "%r13" && r == 13) || (name == "%r14" && r == 14)
  }

  lemma Least<T>(s: seq<T>, P: T -> bool, i: nat)
    requires i < |s| && P(s[i]) && forall j :: 0 <= j < i ==> !P(s[j])
    ensures First(s, P) == i
  {
  }

  lemma RegisterFound(name: string, r: int)
    requires Names(name, r)
    ensures FindRegister(name) == r
  {
    Least(Registers(), (s: string) => s == name, r);
  }

  /** The code byte of an instruction, by its name: the operation, and its variant. */
  predicate Mnemonic(name: string, icode: int, fun: int) {
    match icode
    case 0 => name == "halt" && fun == 0
    case 1 => name == "nop" && fun == 0
    case 2 =>
      || (name == "rrmovq" && fun == 0) || (name == "cmovle" && fun == 1) || (name == "cmovl" && fun == 2)
      || (name == "cmove" && fun == 3) || (name == "cmovne" && fun == 4) || (name == "cmovge" && fun == 5)
      || (name == "cmovg" && fun == 6)
    case 3 => name == "irmovq" && fun == 0
    case 4 => name == "rmmovq" && fun == 0
    case 5 => name == "mrmovq" && fun == 0
    case 6 =>
      || (name == "addq" && fun == 0) || (name == "subq" && fun == 1) || (name == "andq" && fun == 2)
      || (name == "xorq" && fun == 3)
    case 7 =>
      || (name == "jmp" && fun == 0) || (name == "jle" && fun == 1) || (name == "jl" && fun == 2) || (name == "je" && fun == 3)
      || (name == "jne" && fun == 4) || (name == "jge" && fun == 5) || (name == "jg" && fun == 6)
    case 8 => name == "call" && fun == 0
    case 9 => name == "ret" && fun == 0
    case 10 => name == "pushq" && fun == 0
    case 11 => name == "popq" && fun == 0
    case 12 => name == "iaddq" && fun == 0
    case _ => false
  }

  /** Where the rows of the table stand. */
  function RowOf(icode: int, fun: int): int {
    match icode
    case 0 => 1
    case 1 => 0
    case 2 => 2 + fun
    case 3 => 9
    case 4 => 10
    case 5 => 11
    case 6 => 12 + fun
    case 7 => 16 + fun
    case 8 => 23
    case 9 => 24
    case 10 => 25
    case 11 => 26
    case _ => 27
  }

  /** The operands of an operation. */
  function Row(name: string, icode: int, fun: int): Instr
    requires 0 <= icode <= 12 && 0 <= fun <= 6
  {
    var code := 16 * icode + fun;
    match icode
    case 2 => Instr(name, code, 2, RArg(1, true), RArg(1, false))
    case 3 => Instr(name, code, 10, IArg(2, 8), RArg(1, false))
    case 4 => Instr(name, code, 10, RArg(1, true), MArg(1))
    case 5 => Instr(name, code, 10, MArg(1), RArg(1, true))
    case 6 => Instr(name, code, 2, RArg(1, true), RArg(1, false))
    case 7 => Instr(name, code, 9, IArg(1, 8), NoArg)
    case 8 => Instr(name, code, 9, IArg(1, 8), NoArg)
    case 10 => Instr(name, code, 2, RArg(1, true), NoArg)
    case 11 => Instr(name, code, 2, RArg(1, true), NoArg)
    case 12 => Instr(name, code, 10, IArg(2, 8), RArg(1, false))
    case _ => Instr(name, code, 1, NoArg, NoArg)
  }

  lemma RowsStand(name: string, icode: int, fun: int)
    requires Mnemonic(name, icode, fun)
    ensures 0 <= icode <= 12 && 0 <= fun <= 6 && 0 <= RowOf(icode, fun) < |InstructionSet()|
    ensures InstructionSet()[RowOf(icode, fun)] == Row(name, icode, fun)
  {
  }

  function NameAt(i: int): string
    requires 0 <= i < 33
  {
    ["nop", "halt", "rrmovq", "cmovle", "cmovl", "cmove", "cmovne", "cmovge", "cmovg", "irmovq", "rmmovq", "mrmovq", "addq",
     "subq", "andq", "xorq", "jmp", "jle", "jl", "je", "jne", "jge", "jg", "call", "ret", "pushq", "popq", "iaddq",
     "pop2", ".byte", ".word", ".long", ".quad"][i]
  }

  lemma Sizes()
    ensures |Simple()| == 2 && |Moves()| == 7 && |Memory()| == 3 && |Operations()| == 4 && |Jumps()| == 7 && |Stack()| == 6
    ensures |Allocs()| == 4
  {
  }

  lemma MoveNames(i: int)
    requires 0 <= i < 9
    ensures if i < 2 then Simple()[i].name == NameAt(i) else Moves()[i - 2].name == NameAt(i)
  {
  }

  lemma OperationNames(i: int)
    requires 9 <= i < 16
    ensures if i < 12 then Memory()[i - 9].name == NameAt(i) else Operations()[i - 12].name == NameAt(i)
  {
  }

  lemma JumpNames(i: int)
    requires 16 <= i < 23
    ensures Jumps()[i - 16].name == NameAt(i)
  {
  }

  lemma LastNames(i: int)
    requires 23 <= i < 33
    ensures if i < 29 then Stack()[i - 23].name == NameAt(i) else Allocs()[i - 29].name == NameAt(i)
  {
  }

  lemma NamesStand(i: int)
    requires 0 <= i < 33
    ensures i < |InstructionSet()| && InstructionSet()[i].name == NameAt(i)
  {
    hide Simple, Moves, Memory, Operations, Jumps, Stack, Allocs, NameAt;
    Sizes();
    if i < 9 { MoveNames(i); } else if i < 16 { OperationNames(i); } else if i < 23 { JumpNames(i); } else { LastNames(i); }
  }

  lemma NamesDiffer(i: int, j: int)
    requires 0 <= j < i < 33
    ensures NameAt(i) != NameAt(j)
  {
  }

  /** Looking a mnemonic up finds its operation, and no earlier row of the table. */
  lemma MnemonicFound(name: string, icode: int, fun: int)
    requires Mnemonic(name, icode, fun)
    ensures 0 <= icode <= 12 && 0 <= fun <= 6 && FindInstr(name) == Some(Row(name, icode, fun))
  {
    var t, i := InstructionSet(), RowOf(icode, fun);
    RowsStand(name, icode, fun);
    NamesStand(i);
    hide Simple, Moves, Memory, Operations, Jumps, Stack, Allocs, Mnemonic, InstructionSet;
    forall j | 0 <= j < i ensures t[j].name != name {
      NamesStand(j);
      NamesDiffer(i, j);
    }
    hide NameAt;
    Least(t, (x: Instr) => x.name == name, i);
  }

  /** The data directives, by the number of bytes they put down. */
  predicate Directive(name: string, n: nat) {
    (name == ".byte" && n == 1) || (name == ".word" && n == 2) || (name == ".long" && n == 4) || (name == ".quad" && n == 8)
  }

  lemma DirectiveFound(name: string, n: nat)
    requires Directive(name, n)
    ensures FindInstr(name) == Some(Instr(name, 0, n, IArg(0, n), NoArg))
  {
    var t, i := InstructionSet(), if n == 1 then 29 else if n == 2 then 30 else if n == 4 then 31 else 32;
    assert t[i] == Instr(name, 0, n, IArg(0, n), NoArg);
    hide Simple, Moves, Memory, Operations, Jumps, Stack, Allocs, InstructionSet;
    NamesStand(i);
    forall j | 0 <= j < i ensures t[j].name != name {
      NamesStand(j);
      NamesDiffer(i, j);
    }
    hide NameAt;
    Least(t, (x: Instr) => x.name == name, i);
  }

  // ---------------------------------------------------------------- lines

  function Start(l: Line): nat {
    if LabelOf(l).Some? then 2 else 0
  }

  /** The line says this, after its label if it has one. */
  predicate Says(l: Line, toks: Line) {
    Start(l) <= |l| && l[Start(l)..] == toks
  }

  lemma LineTokens(l: Line, toks: Line, x: Instr)
    requires Says(l, toks) && toks != [] && toks[0].TokInstr? && toks[0].instr != ".pos" && toks[0].instr != ".align"
    requires FindInstr(toks[0].instr) == Some(x)
    ensures FormOf(l) == Insn(x, Start(l) + 1)
    ensures forall k: nat :: Tok(l, Start(l) + k) == Tok(toks, k)
  {
    hide FindInstr, Coherent, InstructionSet;
    forall k: nat ensures Tok(l, Start(l) + k) == Tok(toks, k) {
      assert k < |toks| ==> l[Start(l) + k] == l[Start(l)..][k];
    }
    assert Tok(l, Start(l)) == toks[0];
  }

  lemma NotDirectives(name: string, i: int)
    requires 0 <= i < 33 && name == NameAt(i)
    ensures name != ".pos" && name != ".align"
  {
  }

  lemma OperationLine(l: Line, toks: Line, name: string, icode: int, fun: int)
    requires Says(l, toks) && toks != [] && toks[0] == TokInstr(name) && Mnemonic(name, icode, fun)
    ensures 0 <= icode <= 12 && 0 <= fun <= 6 && FormOf(l) == Insn(Row(name, icode, fun), Start(l) + 1)
    ensures forall k: nat :: Tok(l, Start(l) + k) == Tok(toks, k)
  {
    RowsStand(name, icode, fun);
    NamesStand(RowOf(icode, fun));
    NotDirectives(name, RowOf(icode, fun));
    MnemonicFound(name, icode, fun);
    hide Mnemonic, InstructionSet, NameAt, Row, Says, FormOf;
    LineTokens(l, toks, Row(name, icode, fun));
  }

  /** The memory holds the bytes of line i of an accepted program. */
  ghost predicate There(m: seq<Byte>, lines: seq<Line>, outs: seq<Out>, i: nat) {
    && i < |lines| && Accepted(lines) && Listing(lines, |lines|, SymbolsAt(lines, |lines|), outs)
    && 0 <= AddrAt(lines, i) && AddrAt(lines, i) + |outs[i].bytes| <= |m|
    && m[AddrAt(lines, i)..AddrAt(lines, i) + |outs[i].bytes|] == outs[i].bytes
  }

  /** The machine is at that line. */
  ghost predicate At(s: Machine, lines: seq<Line>, outs: seq<Out>, i: nat) {
    WellFormed(s) && There(s.mem, lines, outs, i) && s.pc == AddrAt(lines, i)
  }

  /** A program just loaded is in memory, each of its lines that no later line lies over. */
  lemma LoadedIsThere(m: seq<Byte>, lines: seq<Line>, outs: seq<Out>, i: nat)
    requires i < |lines| && Accepted(lines) && Listing(lines, |lines|, SymbolsAt(lines, |lines|), outs)
    requires AllInMemory(outs, |m|) && FormOf(lines[i]).Insn?
    requires FormOf(lines[i]).x.bytes > 0 && forall j :: i < j < |outs| ==> Apart(outs[i], outs[j])
    ensures There(Image(m, outs, |outs|), lines, outs, i)
  {
    hide Parse, Encode, Coherent, Image, InstructionSet, SymbolsAt, AddrAt, Accepted, AllInMemory;
    var e := Emits(lines[i], AddrAt(lines, i), SymbolsAt(lines, |lines|));
    assert e == Some(outs[i]);
    EmitsInsn(lines[i], AddrAt(lines, i), SymbolsAt(lines, |lines|));
    hide FormOf, Emits;
    ImageHolds(m, outs, |outs|, i);
  }

  lemma FetchLine(s: Machine, lines: seq<Line>, outs: seq<Out>, i: nat, x: Instr, t: nat)
    requires At(s, lines, outs, i) && FormOf(lines[i]) == Insn(x, t) && !IsData(x) && x.bytes > 0
    ensures var p := Parse(x, lines[i], t, SymbolsAt(lines, |lines|));
            var regs, imm := NeedRegids(x.code / 16), NeedImm(x.code / 16);
            && p.Some?
            && Fetches(s, Decoded(x.code / 16, x.code % 16, if regs then p.value.ra else 15, if regs then p.value.rb else 15,
                                  if imm then Wrap(p.value.val) else 0, s.pc + x.bytes, true, true))
  {
    hide Parse, Encode, Coherent, Decode, InstructionSet, SymbolsAt, AddrAt, Wrap, Accepted, WellFormed;
    var syms, pc := SymbolsAt(lines, |lines|), AddrAt(lines, i);
    var e := Emits(lines[i], pc, syms);
    assert e == Some(outs[i]);
    EmitsInsn(lines[i], pc, syms);
    hide FormOf, Emits;
    DecodeEncode(x, Parse(x, lines[i], t, syms).value, s.mem, pc);
  }

  /** What a number or a label stands for: itself, or the address of the first line that defines it. */
  ghost predicate Denotes(lines: seq<Line>, tok: Token, v: int) {
    match tok
    case TokNum(n) => v == n
    case TokIdent(name) =>
      exists k :: 0 <= k < |lines| && LabelOf(lines[k]) == Some(name) && v == AddrAt(lines, k) &&
                  forall j :: 0 <= j < k ==> LabelOf(lines[j]) != Some(name)
    case _ => false
  }

  lemma DenotesNum(lines: seq<Line>, l: Line, t: nat, v: int)
    requires Denotes(lines, Tok(l, t), v)
    ensures NumAt(l, t, SymbolsAt(lines, |lines|)) == Some(v)
  {
    if Tok(l, t).TokIdent? {
      var name := Tok(l, t).name;
      var k :| 0 <= k < |lines| && LabelOf(lines[k]) == Some(name) && v == AddrAt(lines, k) &&
               forall j :: 0 <= j < k ==> LabelOf(lines[j]) != Some(name);
      LabelResolves(lines, |lines|, k, name);
    }
  }

  const COMMA := TokPunct(',')

  lemma AtIs(s: Machine, lines: seq<Line>, outs: seq<Out>, i: nat)
    requires At(s, lines, outs, i)
    ensures |s.mem| < 0x8000_0000 && WellFormed(s) && There(s.mem, lines, outs, i) && s.pc == AddrAt(lines, i)
  {
  }

  lemma RowFields(name: string, icode: int, fun: int)
    requires 0 <= icode <= 12 && 0 <= fun <= 6
    ensures var x := Row(name, icode, fun); x.code == 16 * icode + fun && x.code / 16 == icode && x.code % 16 == fun && !IsData(x) && x.bytes > 0
  {
  }

  /** The machine is about to execute this instruction, the next line after it. */
  ghost predicate Fetched(s: Machine, lines: seq<Line>, i: nat, icode: int, fun: int, ra: int, rb: int, val: Word) {
    && i < |lines| && 0 <= AddrAt(lines, i + 1) < 0x8000_0000
    && Fetches(s, Whole(icode, fun, ra, rb, val, AddrAt(lines, i + 1)))
  }

  lemma NextLine(s: Machine, lines: seq<Line>, outs: seq<Out>, i: nat, x: Instr, t: nat)
    requires At(s, lines, outs, i) && FormOf(lines[i]) == Insn(x, t)
    ensures AddrAt(lines, i + 1) == s.pc + x.bytes <= |s.mem|
  {
    hide Parse, Encode, Coherent, InstructionSet, SymbolsAt, Accepted;
    var e := Emits(lines[i], AddrAt(lines, i), SymbolsAt(lines, |lines|));
    assert e == Some(outs[i]);
    EmitsInsn(lines[i], AddrAt(lines, i), SymbolsAt(lines, |lines|));
    assert AddrAt(lines, i + 1) == NextPos(FormOf(lines[i]), AddrAt(lines, i));
  }

  /** The line is this operation with these operands. */
  ghost predicate Stands(lines: seq<Line>, i: nat, name: string, icode: int, fun: int, o: Operands) {
    && i < |lines| && 0 <= icode <= 12 && 0 <= fun <= 6
    && FormOf(lines[i]) == Insn(Row(name, icode, fun), Start(lines[i]) + 1)
    && Parse(Row(name, icode, fun), lines[i], Start(lines[i]) + 1, SymbolsAt(lines, |lines|)) == Some(o)
  }

  /** The fields fetched at such a line. */
  lemma FetchAs(s: Machine, lines: seq<Line>, outs: seq<Out>, i: nat, name: string, icode: int, fun: int, o: Operands)
    requires At(s, lines, outs, i) && Stands(lines, i, name, icode, fun, o)
    ensures Fetched(s, lines, i, icode, fun, if NeedRegids(icode) then o.ra else 15, if NeedRegids(icode) then o.rb else 15,
                    if NeedImm(icode) then Wrap(o.val) else 0)
  {
    hide At, FormOf, Parse, SymbolsAt, Start, Fetches, AddrAt, WellFormed, NeedRegids, NeedImm, Wrap, Row, Coherent, InstructionSet;
    var x := Row(name, icode, fun);
    RowFields(name, icode, fun);
    FetchLine(s, lines, outs, i, x, Start(lines[i]) + 1);
    NextLine(s, lines, outs, i, x, Start(lines[i]) + 1);
    AtIs(s, lines, outs, i);
  }

  // ---------------------------------------------------------------- operands

  predicate RegAt(l: Line, t: nat, r: int) {
    Tok(l, t).TokReg? && FindRegister(Tok(l, t).reg) == r
  }

  lemma ParseTwo(name: string, icode: int, fun: int, l: Line, t: nat, syms: Symbols, ra: int, rb: int)
    requires icode in {2, 6} && 0 <= fun <= 6 && RegAt(l, t, ra) && Tok(l, t + 1) == COMMA && RegAt(l, t + 2, rb)
    ensures Parse(Row(name, icode, fun), l, t, syms) == Some(Operands(ra, rb, 0))
  {
    hide FindRegister, Tok;
    assert ParseArg(RArg(1, true), l, t, syms, NO_OPERANDS) == Some((Operands(ra, 15, 0), t + 1));
    assert ParseArg(RArg(1, false), l, t + 2, syms, Operands(ra, 15, 0)) == Some((Operands(ra, rb, 0), t + 3));
    hide ParseArg;
  }

  lemma ParseOne(name: string, icode: int, l: Line, t: nat, syms: Symbols, ra: int)
    requires icode in {10, 11} && RegAt(l, t, ra)
    ensures Parse(Row(name, icode, 0), l, t, syms) == Some(Operands(ra, 15, 0))
  {
    hide FindRegister, Tok;
    assert ParseArg(RArg(1, true), l, t, syms, NO_OPERANDS) == Some((Operands(ra, 15, 0), t + 1));
    hide ParseArg;
  }

  lemma ParseDest(name: string, icode: int, fun: int, l: Line, t: nat, syms: Symbols, v: int)
    requires icode in {7, 8} && 0 <= fun <= 6 && NumAt(l, t, syms) == Some(v)
    ensures Parse(Row(name, icode, fun), l, t, syms) == Some(Operands(15, 15, v))
  {
    hide NumAt, Tok;
    assert ParseArg(IArg(1, 8), l, t, syms, NO_OPERANDS) == Some((Operands(15, 15, v), t + 1));
    hide ParseArg;
  }

  lemma ParseConst(name: string, icode: int, l: Line, t: nat, syms: Symbols, v: int, rb: int)
    requires icode in {3, 12} && NumAt(l, t, syms) == Some(v) && Tok(l, t + 1) == COMMA && RegAt(l, t + 2, rb)
    ensures Parse(Row(name, icode, 0), l, t, syms) == Some(Operands(15, rb, v))
  {
    hide NumAt, FindRegister, Tok;
    assert ParseArg(IArg(2, 8), l, t, syms, NO_OPERANDS) == Some((Operands(15, 15, v), t + 1));
    assert ParseArg(RArg(1, false), l, t + 2, syms, Operands(15, 15, v)) == Some((Operands(15, rb, v), t + 3));
    hide ParseArg;
  }

  lemma ParseStore(name: string, l: Line, t: nat, syms: Symbols, ra: int, rb: int, v: int, t': nat)
    requires RegAt(l, t, ra) && Tok(l, t + 1) == COMMA && ParseMem(l, t + 2, syms) == Some((rb, v, t'))
    ensures Parse(Row(name, 4, 0), l, t, syms) == Some(Operands(ra, rb, v))
  {
    hide NumAt, FindRegister, Tok, ParseMem;
    assert ParseArg(RArg(1, true), l, t, syms, NO_OPERANDS) == Some((Operands(ra, 15, 0), t + 1));
    assert ParseArg(MArg(1), l, t + 2, syms, Operands(ra, 15, 0)) == Some((Operands(ra, rb, v), t'));
    hide ParseArg;
  }

  lemma ParseLoad(name: string, l: Line, t: nat, syms: Symbols, ra: int, rb: int, v: int, t': nat)
    requires ParseMem(l, t, syms) == Some((rb, v, t')) && Tok(l, t') == COMMA && RegAt(l, t' + 1, ra)
    ensures Parse(Row(name, 5, 0), l, t, syms) == Some(Operands(ra, rb, v))
  {
    hide NumAt, FindRegister, Tok, ParseMem;
    assert ParseArg(MArg(1), l, t, syms, NO_OPERANDS) == Some((Operands(15, rb, v), t'));
    assert ParseArg(RArg(1, true), l, t' + 1, syms, Operands(15, rb, v)) == Some((Operands(ra, rb, v), t' + 2));
    hide ParseArg;
  }

  /** A register token at offset k of what the line says. */
  lemma RegToken(l: Line, toks: Line, k: nat, name: string, r: int)
    requires Tok(l, Start(l) + k) == Tok(toks, k) && k < |toks| && toks[k] == TokReg(name) && Names(name, r)
    ensures RegAt(l, Start(l) + k, r) && 0 <= r < 15
  {
    RegisterFound(name, r);
    hide FindRegister;
  }

  // ---------------------------------------------------------------- what lines stand for

  lemma TokIn(l: Line, t: nat)
    requires t < |l|
    ensures Tok(l, t) == l[t]
  {
  }

  lemma TokOut(l: Line)
    ensures Tok(l, |l|) == TokErr
  {
  }

  ghost predicate LineSays(lines: seq<Line>, i: nat, toks: Line) {
    i < |lines| && Says(lines[i], toks)
  }

  /** An operation on two registers. */
  lemma LineTwo(lines: seq<Line>, i: nat, name: string, icode: int, fun: int, a: string, ra: int, b: string, rb: int)
    requires LineSays(lines, i, [TokInstr(name), TokReg(a), COMMA, TokReg(b)])
    requires Mnemonic(name, icode, fun) && icode in {2, 6} && Names(a, ra) && Names(b, rb)
    ensures Stands(lines, i, name, icode, fun, Operands(ra, rb, 0)) && 0 <= ra < 15 && 0 <= rb < 15
  {
    hide Coherent, InstructionSet, Mnemonic, Says, FormOf, RegAt, Names, Parse, Tok, Start;
    var toks := [TokInstr(name), TokReg(a), COMMA, TokReg(b)];
    var l := lines[i];
    var t := Start(l);
    OperationLine(l, toks, name, icode, fun);
    assert Tok(l, t + 2) == Tok(toks, 2) == COMMA by { TokIn(toks, 2); }
    RegToken(l, toks, 1, a, ra);
    RegToken(l, toks, 3, b, rb);
    ParseTwo(name, icode, fun, l, t + 1, SymbolsAt(lines, |lines|), ra, rb);
  }

  /** An operation on one register. */
  lemma LineOne(lines: seq<Line>, i: nat, name: string, icode: int, a: string, ra: int)
    requires LineSays(lines, i, [TokInstr(name), TokReg(a)])
    requires Mnemonic(name, icode, 0) && icode in {10, 11} && Names(a, ra)
    ensures Stands(lines, i, name, icode, 0, Operands(ra, 15, 0)) && 0 <= ra < 15
  {
    hide Coherent, InstructionSet, Mnemonic, Says, FormOf, RegAt, Names, Parse, Tok, Start;
    var toks := [TokInstr(name), TokReg(a)];
    OperationLine(lines[i], toks, name, icode, 0);
    RegToken(lines[i], toks, 1, a, ra);
    ParseOne(name, icode, lines[i], Start(lines[i]) + 1, SymbolsAt(lines, |lines|), ra);
  }

  lemma ParseNone(name: string, icode: int, l: Line, t: nat, syms: Symbols)
    requires icode in {0, 1, 9}
    ensures Parse(Row(name, icode, 0), l, t, syms) == Some(NO_OPERANDS)
  {
  }

  /** An operation without operands. */
  lemma LineNone(lines: seq<Line>, i: nat, name: string, icode: int)
    requires LineSays(lines, i, [TokInstr(name)]) && Mnemonic(name, icode, 0) && icode in {0, 1, 9}
    ensures Stands(lines, i, name, icode, 0, NO_OPERANDS)
  {
    hide Coherent, InstructionSet, Mnemonic, Says, FormOf, Parse, Tok, Start;
    OperationLine(lines[i], [TokInstr(name)], name, icode, 0);
    ParseNone(name, icode, lines[i], Start(lines[i]) + 1, SymbolsAt(lines, |lines|));
  }

  /** A jump or call to a number or label. */
  lemma LineDest(lines: seq<Line>, i: nat, name: string, icode: int, fun: int, tok: Token, v: int)
    requires LineSays(lines, i, [TokInstr(name), tok])
    requires Mnemonic(name, icode, fun) && icode in {7, 8} && Denotes(lines, tok, v)
    ensures Stands(lines, i, name, icode, fun, Operands(15, 15, v))
  {
    hide Coherent, InstructionSet, Mnemonic, Says, FormOf, Denotes, Parse, Tok, Start, NumAt;
    var toks := [TokInstr(name), tok];
    var l := lines[i];
    OperationLine(l, toks, name, icode, fun);
    TokIn(toks, 1);
    DenotesNum(lines, l, Start(l) + 1, v);
    ParseDest(name, icode, fun, l, Start(l) + 1, SymbolsAt(lines, |lines|), v);
  }

  /** A constant and a register. */
  lemma LineConst(lines: seq<Line>, i: nat, name: string, icode: int, tok: Token, v: int, b: string, rb: int)
    requires LineSays(lines, i, [TokInstr(name), tok, COMMA, TokReg(b)])
    requires Mnemonic(name, icode, 0) && icode in {3, 12} && Denotes(lines, tok, v) && Names(b, rb)
    ensures Stands(lines, i, name, icode, 0, Operands(15, rb, v)) && 0 <= rb < 15
  {
    hide Coherent, InstructionSet, Mnemonic, Says, FormOf, Denotes, Parse, Tok, Start, NumAt, RegAt, Names;
    var toks := [TokInstr(name), tok, COMMA, TokReg(b)];
    var l := lines[i];
    OperationLine(l, toks, name, icode, 0);
    TokIn(toks, 1);
    TokIn(toks, 2);
    DenotesNum(lines, l, Start(l) + 1, v);
    assert Tok(l, Start(l) + 2) == COMMA;
    RegToken(l, toks, 3, b, rb);
    ParseConst(name, icode, l, Start(l) + 1, SymbolsAt(lines, |lines|), v, rb);
  }

  /** A memory operand as written: an optional displacement and an optional base register. */
  datatype Operand = Operand(disp: Option<Token>, base: Option<string>)

  function Written(o: Operand): Line {
    (if o.disp.Some? then [o.disp.value] else []) + (if o.base.Some? then [TokPunct('('), TokReg(o.base.value), TokPunct(')')] else [])
  }

  /** Its displacement, and its base register's number, or 15. */
  ghost predicate Means(lines: seq<Line>, o: Operand, disp: int, rb: int) {
    && (if o.disp.Some? then Denotes(lines, o.disp.value, disp) else disp == 0)
    && (if o.base.Some? then Names(o.base.value, rb) else rb == 15)
  }

  lemma DispRead(lines: seq<Line>, l: Line, t: nat, disp: int)
    requires Denotes(lines, Tok(l, t), disp)
    ensures (Tok(l, t).TokNum? || Tok(l, t).TokIdent?) && NumAt(l, t, SymbolsAt(lines, |lines|)) == Some(disp)
  {
    DenotesNum(lines, l, t, disp);
  }

  lemma OperandRead(lines: seq<Line>, l: Line, t: nat, o: Operand, disp: int, rb: int)
    requires Means(lines, o, disp, rb) && forall k :: 0 <= k < |Written(o)| ==> Tok(l, t + k) == Written(o)[k]
    requires Tok(l, t + |Written(o)|) in {TokErr, COMMA}
    ensures ParseMem(l, t, SymbolsAt(lines, |lines|)) == Some((rb, disp, t + |Written(o)|)) && 0 <= rb <= 15
  {
    hide FindRegister, NumAt, SymbolsAt, Denotes, Names, Tok;
    var d := if o.disp.Some? then 1 else 0;
    if o.disp.Some? {
      assert Tok(l, t + 0) == Written(o)[0];
      DispRead(lines, l, t, disp);
    }
    if o.base.Some? {
      assert Tok(l, t + d) == Written(o)[d] && Tok(l, t + (d + 1)) == Written(o)[d + 1] && Tok(l, t + (d + 2)) == Written(o)[d + 2];
      RegisterFound(o.base.value, rb);
    }
  }

  /** What the line says from offset at on, read off the line. */
  lemma Inside(l: Line, toks: Line, at: nat, part: Line)
    requires at + |part| <= |toks| && toks[at..at + |part|] == part && forall k: nat :: Tok(l, Start(l) + k) == Tok(toks, k)
    ensures forall k :: 0 <= k < |part| ==> Tok(l, Start(l) + at + k) == part[k]
  {
    forall k | 0 <= k < |part| ensures Tok(l, Start(l) + at + k) == part[k] {
      assert Tok(l, Start(l) + (at + k)) == Tok(toks, at + k) == toks[at + k] == part[k];
    }
  }

  lemma LineStore(lines: seq<Line>, i: nat, a: string, ra: int, o: Operand, disp: int, rb: int)
    requires LineSays(lines, i, [TokInstr("rmmovq"), TokReg(a), COMMA] + Written(o))
    requires Names(a, ra) && Means(lines, o, disp, rb)
    ensures Stands(lines, i, "rmmovq", 4, 0, Operands(ra, rb, disp)) && 0 <= ra < 15 && 0 <= rb <= 15
  {
    hide Coherent, InstructionSet, Says, FormOf, Parse, Tok, Start, RegAt, Names, Written, Means, ParseMem;
    var toks := [TokInstr("rmmovq"), TokReg(a), COMMA] + Written(o);
    var l := lines[i];
    var t := Start(l);
    OperationLine(l, toks, "rmmovq", 4, 0);
    hide Mnemonic;
    RegToken(l, toks, 1, a, ra);
    TokIn(toks, 2);
    assert Tok(l, t + 2) == COMMA;
    Inside(l, toks, 3, Written(o));
    assert Tok(l, t + |toks|) == TokErr by { TokOut(toks); }
    OperandRead(lines, l, t + 3, o, disp, rb);
    ParseStore("rmmovq", l, t + 1, SymbolsAt(lines, |lines|), ra, rb, disp, t + |toks|);
  }

  lemma LineLoad(lines: seq<Line>, i: nat, a: string, ra: int, o: Operand, disp: int, rb: int)
    requires LineSays(lines, i, [TokInstr("mrmovq")] + Written(o) + [COMMA, TokReg(a)])
    requires Names(a, ra) && Means(lines, o, disp, rb)
    ensures Stands(lines, i, "mrmovq", 5, 0, Operands(ra, rb, disp)) && 0 <= ra < 15 && 0 <= rb <= 15
  {
    hide Coherent, InstructionSet, Says, FormOf, Parse, Tok, Start, RegAt, Names, Written, Means, ParseMem;
    var toks := [TokInstr("mrmovq")] + Written(o) + [COMMA, TokReg(a)];
    var n := |Written(o)|;
    var l := lines[i];
    var t := Start(l);
    OperationLine(l, toks, "mrmovq", 5, 0);
    hide Mnemonic;
    RegToken(l, toks, 2 + n, a, ra);
    TokIn(toks, 1 + n);
    assert Tok(l, t + (1 + n)) == COMMA;
    Inside(l, toks, 1, Written(o));
    OperandRead(lines, l, t + 1, o, disp, rb);
    ParseLoad("mrmovq", l, t + 1, SymbolsAt(lines, |lines|), ra, rb, disp, t + (1 + n));
  }

  /** A data directive. */
  lemma LineData(lines: seq<Line>, outs: seq<Out>, i: nat, name: string, n: nat, tok: Token, v: int)
    requires LineSays(lines, i, [TokInstr(name), tok]) && Directive(name, n) && Denotes(lines, tok, v)
    requires Listing(lines, |lines|, SymbolsAt(lines, |lines|), outs)
    ensures outs[i].bytes == ToBytes(v, n) && AddrAt(lines, i + 1) == AddrAt(lines, i) + n
  {
    hide Coherent, InstructionSet, Says, FormOf, Denotes, Parse, Tok, Start, NumAt, SymbolsAt, FindInstr;
    var x, toks, l := Instr(name, 0, n, IArg(0, n), NoArg), [TokInstr(name), tok], lines[i];
    var pc, syms := AddrAt(lines, i), SymbolsAt(lines, |lines|);
    DirectiveFound(name, n);
    LineTokens(l, toks, x);
    TokIn(toks, 1);
    DenotesNum(lines, l, Start(l) + 1, v);
    assert Emits(l, pc, syms) == Some(outs[i]);
    hide Emits;
    EmitsInsn(l, pc, syms);
    ParseData(x, n, l, Start(l) + 1, syms, v);
    assert AddrAt(lines, i + 1) == NextPos(FormOf(l), pc);
  }

  lemma ParseData(x: Instr, n: nat, l: Line, t: nat, syms: Symbols, v: int)
    requires x.arg1 == IArg(0, n) && x.arg2.NoArg? && NumAt(l, t, syms) == Some(v)
    ensures Parse(x, l, t, syms) == Some(Operands(15, 15, v))
  {
    hide NumAt;
  }

  // ---------------------------------------------------------------- what lines are accepted

  /** Pass 2 lists line i at pos with these bytes. */
  ghost predicate Lists(lines: seq<Line>, i: nat, pos: int, bytes: seq<Byte>) {
    i < |lines| && Emits(lines[i], pos, SymbolsAt(lines, |lines|)) == Some(Out(pos, bytes, false))
  }

  /** The operation's code, the registers in one byte if it has any, and its number in eight bytes if it has one. */
  function CodeBytes(icode: int, fun: int, o: Operands): seq<Byte>
    requires 0 <= icode <= 12 && 0 <= fun <= 6 && RegsInRange(o)
  {
    [16 * icode + fun] + (if NeedRegids(icode) then [16 * o.ra + o.rb] else []) + (if NeedImm(icode) then ToBytes(o.val, 8) else [])
  }

  /** Such a line is never refused. */
  lemma LineEmitted(lines: seq<Line>, i: nat, name: string, icode: int, fun: int, o: Operands, pos: int)
    requires Stands(lines, i, name, icode, fun, o) && RegsInRange(o) && pos <= MAX_ADDRESS
    ensures 0 <= icode <= 12 && 0 <= fun <= 6 && Lists(lines, i, pos, CodeBytes(icode, fun, o))
  {
    hide Coherent, InstructionSet, FormOf, Parse, Start, SymbolsAt, NeedRegids, NeedImm, Row, Encode, Emits, IsData, ToBytes;
    var x := Row(name, icode, fun);
    RowFields(name, icode, fun);
    assert FormOf(lines[i]).x == x;
    EncodeIs(x, o);
    EmitsIs(lines[i], x, Start(lines[i]) + 1, SymbolsAt(lines, |lines|), o, pos);
  }

  lemma EmitsIs(l: Line, x: Instr, t: nat, syms: Symbols, o: Operands, pos: int)
    requires FormOf(l) == Insn(x, t) && Parse(x, l, t, syms) == Some(o) && pos <= MAX_ADDRESS && Coherent(x) && RegsInRange(o)
    ensures Emits(l, pos, syms) == Some(Out(pos, Encode(x, o), false))
  {
    hide Coherent, InstructionSet, FormOf, Parse, Encode;
  }

  lemma EncodeIs(x: Instr, o: Operands)
    requires Coherent(x) && RegsInRange(o) && !IsData(x) && x.bytes > 0
    ensures Encode(x, o) == [x.code] + (if NeedRegids(x.code / 16) then [16 * o.ra + o.rb] else [])
                            + (if NeedImm(x.code / 16) then ToBytes(o.val, 8) else [])
  {
    hide Coherent, NeedRegids, NeedImm;
  }

  // ---------------------------------------------------------------- positions

  lemma DivMul(x: int, n: int)
    requires n > 0
    ensures x >= 0 ==> TruncDiv(x, n) * n == x - x % n
    ensures x < 0 ==> TruncDiv(x, n) * n == x + (-x) % n
  {
    assert x / n * n == x - x % n && (-x) / n * n == (-x) - (-x) % n;
    assert (-((-x) / n)) * n == -((-x) / n * n);
  }

  lemma Multiple(x: int, n: int)
    requires n > 0
    ensures (x - x % n) % n == 0 && (x + (-x) % n) % n == 0
  {
    DivUnique(x - x % n, n, x / n, 0);
    assert -x == n * ((-x) / n) + (-x) % n;
    assert n * -((-x) / n) == -(n * ((-x) / n));
    DivUnique(x + (-x) % n, n, -((-x) / n), 0);
  }

  lemma Congruent(pos: int, n: int)
    requires n > 0
    ensures (1 - pos - n) % n == 0 <==> pos % n == 1 % n
  {
    var q, r := pos / n, pos % n;
    var p, e := 1 / n, 1 % n;
    assert pos == n * q + r && 1 == n * p + e;
    var k := if e >= r then p - q - 1 else p - q - 2;
    assert n * k == n * p - n * q - (if e >= r then n else 2 * n);
    DivUnique(1 - pos - n, n, k, if e >= r then e - r else e - r + n);
  }

  /** .align n goes on to the least multiple of n that is not below the position; from a position at or below -n it is a
      multiple too far, unless the position is one above a multiple. */
  lemma AlignExactly(l: Line, n: Word, pos: int)
    requires Says(l, [TokInstr(".align"), TokNum(n)]) && 0 < n < 0x8000_0000
    ensures var next := NextPos(FormOf(l), pos);
            next % n == 0 && pos <= next && (next - n < pos <==> pos > -n || pos % n == 1 % n)
  {
    hide Coherent, InstructionSet, FindInstr, TruncDiv;
    SaysTwo(l, TokInstr(".align"), TokNum(n));
    assert FormOf(l) == AlignTo(n);
    hide FormOf, Says;
    var x := pos + n - 1;
    DivMul(x, n);
    Multiple(x, n);
    Congruent(pos, n);
    assert -x == 1 - pos - n;
  }

  lemma SaysTwo(l: Line, a: Token, b: Token)
    requires Says(l, [a, b]) && a.TokInstr?
    ensures Tok(l, Start(l)) == a && Tok(l, Start(l) + 1) == b && l != []
    ensures Tok(l, 0).TokIdent? ==> LabelOf(l).Some?
    ensures LabelOf(l).Some? ==> |l| == 4
  {
    assert l[Start(l)..][0] == l[Start(l)] && l[Start(l)..][1] == l[Start(l) + 1];
  }

  /** .pos n goes on at n. */
  lemma PosExactly(l: Line, n: Word, pos: int)
    requires Says(l, [TokInstr(".pos"), TokNum(n)]) && -0x8000_0000 <= n < 0x8000_0000
    ensures NextPos(FormOf(l), pos) == n
  {
    hide Coherent, InstructionSet, FindInstr;
    SaysTwo(l, TokInstr(".pos"), TokNum(n));
  }
}
