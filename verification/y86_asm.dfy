/** The Y86-64 assembler (labs/04-architecture/sim/misc/yas.c) and its instruction table (isa.c). */
module Y86Asm {
  import opened Y86Words
  import opened Y86Isa

  datatype Option<T> = None | Some(value: T)

  datatype Token = TokIdent(name: string) | TokNum(n: Word) | TokReg(reg: string) | TokInstr(instr: string)
                 | TokPunct(c: char) | TokErr

  type Line = seq<Token>

  /** Where an operand goes in the encoding. */
  datatype Arg = NoArg | RArg(pos: nat, hi: bool) | MArg(pos: nat) | IArg(pos: nat, bytes: nat)

  datatype Instr = Instr(name: string, code: Byte, bytes: nat, arg1: Arg, arg2: Arg)

  function Hpack(hi: int, lo: int): Byte
    requires 0 <= hi < 16 && 0 <= lo < 16
  {
    16 * hi + lo
  }

  function Move(name: string, cond: int): Instr
    requires 0 <= cond < 16
  {
    Instr(name, Hpack(2, cond), 2, RArg(1, true), RArg(1, false))
  }

  function AluOp(name: string, op: int): Instr
    requires 0 <= op < 16
  {
    Instr(name, Hpack(6, op), 2, RArg(1, true), RArg(1, false))
  }

  function Jump(name: string, cond: int): Instr
    requires 0 <= cond < 16
  {
    Instr(name, Hpack(7, cond), 9, IArg(1, 8), NoArg)
  }

  function Alloc(name: string, n: nat): Instr {
    Instr(name, 0, n, IArg(0, n), NoArg)
  }

  function Simple(): seq<Instr> {
    [Instr("nop", Hpack(1, 0), 1, NoArg, NoArg), Instr("halt", Hpack(0, 0), 1, NoArg, NoArg)]
  }

  function Moves(): seq<Instr> {
    [Move("rrmovq", 0), Move("cmovle", 1), Move("cmovl", 2), Move("cmove", 3), Move("cmovne", 4), Move("cmovge", 5),
     Move("cmovg", 6)]
  }

  function Memory(): seq<Instr> {
    [Instr("irmovq", Hpack(3, 0), 10, IArg(2, 8), RArg(1, false)),
     Instr("rmmovq", Hpack(4, 0), 10, RArg(1, true), MArg(1)),
     Instr("mrmovq", Hpack(5, 0), 10, MArg(1), RArg(1, true))]
  }

  function Operations(): seq<Instr> {
    [AluOp("addq", 0), AluOp("subq", 1), AluOp("andq", 2), AluOp("xorq", 3)]
  }

  function Jumps(): seq<Instr> {
    [Jump("jmp", 0), Jump("jle", 1), Jump("jl", 2), Jump("je", 3), Jump("jne", 4), Jump("jge", 5), Jump("jg", 6)]
  }

  function Stack(): seq<Instr> {
    [Instr("call", Hpack(8, 0), 9, IArg(1, 8), NoArg), Instr("ret", Hpack(9, 0), 1, NoArg, NoArg),
     Instr("pushq", Hpack(10, 0), 2, RArg(1, true), NoArg), Instr("popq", Hpack(11, 0), 2, RArg(1, true), NoArg),
     Instr("iaddq", Hpack(12, 0), 10, IArg(2, 8), RArg(1, false)), Instr("pop2", Hpack(13, 0), 0, NoArg, NoArg)]
  }

  function Allocs(): seq<Instr> {
    [Alloc(".byte", 1), Alloc(".word", 2), Alloc(".long", 4), Alloc(".quad", 8)]
  }

  // instruction_set
  function InstructionSet(): seq<Instr> {
    Simple() + Moves() + Memory() + Operations() + Jumps() + Stack() + Allocs()
  }

  function Registers(): seq<string> {
    ["%rax", "%rcx", "%rdx", "%rbx", "%rsp", "%rbp", "%rsi", "%rdi", "%r8", "%r9", "%r10", "%r11", "%r12", "%r13", "%r14"]
  }

  /** Data directives put their number first; everything else starts with an opcode byte. */
  predicate IsData(x: Instr) {
    x.arg1.IArg? && x.arg1.pos == 0
  }

  /** The table agrees with the fetch stage about which instructions carry a register byte and a constant,
      and gives each operand a place in that layout. */
  predicate Coherent(x: Instr) {
    var regs, imm := NeedRegids(x.code / 16), NeedImm(x.code / 16);
    if IsData(x) then x.code == 0 && x.arg1.bytes == x.bytes <= 8 && x.arg2.NoArg?
    else if x.bytes == 0 then x.arg1.NoArg? && x.arg2.NoArg?
    else
      && x.bytes == 1 + (if regs then 1 else 0) + (if imm then 8 else 0)
      && if !regs && !imm then x.arg1.NoArg? && x.arg2.NoArg?
         else if !imm then x.arg1 == RArg(1, true) && (x.arg2.NoArg? || x.arg2 == RArg(1, false))
         else if !regs then x.arg1 == IArg(1, 8) && x.arg2.NoArg?
         else || (x.arg1 == IArg(2, 8) && x.arg2 == RArg(1, false))
              || (x.arg1 == RArg(1, true) && x.arg2 == MArg(1))
              || (x.arg1 == MArg(1) && x.arg2 == RArg(1, true))
  }

  predicate AllCoherent(t: seq<Instr>) {
    forall x :: x in t ==> Coherent(x)
  }

  lemma PiecesCoherent()
    ensures AllCoherent(Simple()) && AllCoherent(Memory()) && AllCoherent(Operations()) && AllCoherent(Allocs())
  {
  }

  lemma MovesCoherent()
    ensures AllCoherent(Moves())
  {
  }

  lemma JumpsCoherent()
    ensures AllCoherent(Jumps())
  {
  }

  lemma StackCoherent()
    ensures AllCoherent(Stack())
  {
  }

  lemma TableCoherent()
    ensures AllCoherent(InstructionSet())
  {
    hide Simple, Moves, Memory, Operations, Jumps, Stack, Allocs, Coherent;
    PiecesCoherent();
    MovesCoherent();
    JumpsCoherent();
    StackCoherent();
  }

  // ---------------------------------------------------------------- what a line says

  /** The least index at which P holds; the length of s when there is none. */
  function First<T>(s: seq<T>, P: T -> bool): (i: nat)
    ensures i <= |s| && (i < |s| ==> P(s[i])) && forall j :: 0 <= j < i ==> !P(s[j])
    decreases |s|
  {
    if s == [] || P(s[0]) then 0
    else
      assert forall j :: 0 < j < |s| ==> s[1..][j - 1] == s[j];
      1 + First(s[1..], P)
  }

  // find_instr
  function FindInstr(name: string): (x: Option<Instr>)
    ensures x.Some? ==> x.value in InstructionSet() && x.value.name == name && Coherent(x.value)
  {
    hide Simple, Moves, Memory, Operations, Jumps, Stack, Allocs, Coherent;
    TableCoherent();
    var i := First(InstructionSet(), (x: Instr) => x.name == name);
    if i < |InstructionSet()| then Some(InstructionSet()[i]) else None
  }

  // find_register
  function FindRegister(name: string): (r: int)
    ensures 0 <= r <= 15
  {
    First(Registers(), (s: string) => s == name)
  }

  type Symbols = seq<(string, int)>

  // find_symbol
  function FindSymbol(syms: Symbols, name: string): Option<int> {
    var i := First(syms, (s: (string, int)) => s.0 == name);
    if i < |syms| then Some(syms[i].1) else None
  }

  function Tok(l: Line, i: nat): Token {
    if i < |l| then l[i] else TokErr
  }

  /** The scanner only makes register tokens of real registers. */
  predicate Lexed(l: Line) {
    |l| <= 12 && forall i :: 0 <= i < |l| && l[i].TokReg? ==> l[i].reg in Registers()
  }

  lemma RegistersFound(name: string)
    requires name in Registers()
    ensures FindRegister(name) < 15 && Registers()[FindRegister(name)] == name
  {
  }

  /** What the operands of a line are: two registers (15 where there is none) and a constant. */
  datatype Operands = Operands(ra: int, rb: int, val: int)

  const NO_OPERANDS := Operands(15, 15, 0)

  /** A number or a label. */
  function NumAt(l: Line, t: nat, syms: Symbols): Option<int> {
    match Tok(l, t)
    case TokNum(n) => Some(n)
    case TokIdent(name) => FindSymbol(syms, name)
    case _ => None
  }

  /** A memory operand: an optional displacement, an optional register in parentheses; and the next token. */
  function ParseMem(l: Line, t: nat, syms: Symbols): Option<(int, int, nat)> {
    var displaced := Tok(l, t).TokNum? || Tok(l, t).TokIdent?;
    if displaced && NumAt(l, t, syms).None? then None
    else
      var v := if displaced then NumAt(l, t, syms).value else 0;
      var t1 := if displaced then t + 1 else t;
      if Tok(l, t1) != TokPunct('(') then Some((15, v, t1))
      else if Tok(l, t1 + 1).TokReg? && Tok(l, t1 + 2) == TokPunct(')') then
        Some((FindRegister(Tok(l, t1 + 1).reg), v, t1 + 3))
      else None
  }

  /** Reading one operand from token t on; gives the operands known so far and the next token. */
  function ParseArg(arg: Arg, l: Line, t: nat, syms: Symbols, o: Operands): Option<(Operands, nat)> {
    match arg
    case NoArg => Some((o, t))
    case RArg(_, hi) =>
      if !Tok(l, t).TokReg? then None
      else
        var r := FindRegister(Tok(l, t).reg);
        Some((if hi then o.(ra := r) else o.(rb := r), t + 1))
    case IArg(_, _) =>
      (match NumAt(l, t, syms)
       case None => None
       case Some(v) => Some((o.(val := v), t + 1)))
    case MArg(_) =>
      match ParseMem(l, t, syms)
      case None => None
      case Some(m) => Some((o.(rb := m.0, val := m.1), m.2))
  }

  /** All operands of an instruction, the second one after a comma. */
  function Parse(x: Instr, l: Line, t: nat, syms: Symbols): Option<Operands> {
    match ParseArg(x.arg1, l, t, syms, NO_OPERANDS)
    case None => None
    case Some(a) =>
      if x.arg2.NoArg? then Some(a.0)
      else if Tok(l, a.1) != TokPunct(',') then None
      else
        match ParseArg(x.arg2, l, a.1 + 1, syms, a.0)
        case None => None
        case Some(b) => Some(b.0)
  }

  ghost predicate RegsInRange(o: Operands) {
    0 <= o.ra <= 15 && 0 <= o.rb <= 15
  }

  lemma ParseArgRange(arg: Arg, l: Line, t: nat, syms: Symbols, o: Operands)
    requires RegsInRange(o)
    ensures var p := ParseArg(arg, l, t, syms, o); p.Some? ==> RegsInRange(p.value.0)
  {
  }

  /** The architecture's encoding of an instruction, or the bytes of a data directive. */
  function Encode(x: Instr, o: Operands): (bs: seq<Byte>)
    requires RegsInRange(o) && Coherent(x)
    ensures |bs| == x.bytes
  {
    if IsData(x) then ToBytes(o.val, x.bytes)
    else if x.bytes == 0 then []
    else [x.code] + (if NeedRegids(x.code / 16) then [16 * o.ra + o.rb] else [])
         + (if NeedImm(x.code / 16) then ToBytes(o.val, 8) else [])
  }

  // ---------------------------------------------------------------- encoding and decoding

  lemma WrapPeriod(x: int, k: int)
    ensures Wrap(x + k * 0x1_0000_0000_0000_0000) == Wrap(x)
  {
  }

  lemma WordOfBytes(v: int)
    ensures WordOf(ToBytes(v, 8)) == Wrap(v)
  {
    FromToBytes(v, 8);
    Pow256Of8();
    var k :| FromBytes(ToBytes(v, 8)) == v + k * Pow256(8);
    WrapPeriod(v, k);
  }

  /** Wherever memory holds the emitted bytes, the fetch stage reads back the operation, the registers and the
      64-bit constant, and falls through to the next address. */
  lemma DecodeEncode(x: Instr, o: Operands, m: seq<Byte>, pc: nat)
    requires x in InstructionSet() && !IsData(x) && x.bytes > 0 && Coherent(x) && RegsInRange(o)
    requires pc + x.bytes <= |m| && m[pc..pc + x.bytes] == Encode(x, o)
    ensures var regs, imm := NeedRegids(x.code / 16), NeedImm(x.code / 16);
            Decode(m, pc) == Decoded(x.code / 16, x.code % 16, if regs then o.ra else 15, if regs then o.rb else 15,
                                     if imm then Wrap(o.val) else 0, pc + x.bytes, true, true)
  {
    hide ToBytes, FromBytes, Wrap, InstructionSet;
    var bs := m[pc..pc + x.bytes];
    assert bs[0] == m[pc] && m[pc] == x.code;
    var p := pc + (if NeedRegids(x.code / 16) then 2 else 1);
    if NeedRegids(x.code / 16) {
      assert bs[1] == m[pc + 1] && m[pc + 1] == 16 * o.ra + o.rb;
    }
    if NeedImm(x.code / 16) {
      assert p + 8 == pc + x.bytes;
      assert m[p..p + 8] == bs[p - pc..] == ToBytes(o.val, 8);
      WordOfBytes(o.val);
    }
  }

  // ---------------------------------------------------------------- lines and addresses

  datatype Form = Blank | LabelOnly | PosTo(addr: int) | AlignTo(a: int) | Insn(x: Instr, t: nat) | Malformed

  function Int32(x: int): int {
    (x + 0x8000_0000) % 0x1_0000_0000 - 0x8000_0000
  }

  /** C division truncates toward zero. */
  function TruncDiv(x: int, a: int): int
    requires a > 0
  {
    if x >= 0 then x / a else -((-x) / a)
  }

  function LabelOf(l: Line): Option<string> {
    if Tok(l, 0).TokIdent? && Tok(l, 1) == TokPunct(':') then Some(l[0].name) else None
  }

  function FormOf(l: Line): (f: Form)
    ensures f.Insn? ==> Coherent(f.x) && f.x in InstructionSet()
    ensures f.AlignTo? ==> f.a > 0
  {
    hide Coherent, InstructionSet, Int32, FindInstr;
    if l == [] then Blank
    else if Tok(l, 0).TokIdent? && Tok(l, 1) != TokPunct(':') then Malformed
    else if LabelOf(l).Some? && |l| == 2 then LabelOnly
    else
      var t := if LabelOf(l).Some? then 2 else 0;
      if !Tok(l, t).TokInstr? then Malformed
      else if Tok(l, t).instr == ".pos" then
        if Tok(l, t + 1).TokNum? then PosTo(Int32(Tok(l, t + 1).n)) else Malformed
      else if Tok(l, t).instr == ".align" then
        if Tok(l, t + 1).TokNum? && Int32(Tok(l, t + 1).n) > 0 then AlignTo(Int32(Tok(l, t + 1).n)) else Malformed
      else
        match FindInstr(Tok(l, t).instr)
        case None => Malformed
        case Some(x) =>
          Insn(x, t + 1)
  }

  /** The address after a line. */
  function NextPos(f: Form, pos: int): int {
    match f
    case PosTo(addr) => addr
    case AlignTo(a) => if a > 0 then TruncDiv(pos + a - 1, a) * a else pos
    case Insn(x, _) => pos + x.bytes
    case _ => pos
  }

  /** A line of the listing: its address, its bytes, and whether the source line was empty. */
  datatype Out = Out(pos: int, bytes: seq<Byte>, blank: bool)

  const MAX_ADDRESS: int := 0xFFFF

  /** The listing line pass 2 prints for a line at pos; None when it reports an error instead. */
  function Emits(l: Line, pos: int, syms: Symbols): Option<Out> {
    var f := FormOf(l);
    if f.Blank? then Some(Out(pos, [], true))
    else
      var at := if f.PosTo? || f.AlignTo? then NextPos(f, pos) else pos;
      if f.Malformed? || at > MAX_ADDRESS then None
      else if f.Insn? then
        match Parse(f.x, l, f.t, syms)
        case None => None
        case Some(o) =>
          ParseRange(f.x, l, f.t, syms);
          Some(Out(at, Encode(f.x, o), false))
      else Some(Out(at, [], false))
  }

  lemma ParseRange(x: Instr, l: Line, t: nat, syms: Symbols)
    ensures var p := Parse(x, l, t, syms); p.Some? ==> RegsInRange(p.value)
  {
    ParseArgRange(x.arg1, l, t, syms, NO_OPERANDS);
    var a := ParseArg(x.arg1, l, t, syms, NO_OPERANDS);
    if a.Some? {
      ParseArgRange(x.arg2, l, a.value.1 + 1, syms, a.value.0);
    }
  }

  /** The address of line i. */
  function AddrAt(lines: seq<Line>, i: nat): int
    requires i <= |lines|
  {
    if i == 0 then 0 else NextPos(FormOf(lines[i - 1]), AddrAt(lines, i - 1))
  }

  function AddLabel(syms: Symbols, l: Line, pos: int): Symbols {
    if LabelOf(l).Some? then syms + [(LabelOf(l).value, pos)] else syms
  }

  /** The symbol table after i lines of pass 1. */
  function SymbolsAt(lines: seq<Line>, i: nat): Symbols
    requires i <= |lines|
  {
    if i == 0 then [] else AddLabel(SymbolsAt(lines, i - 1), lines[i - 1], AddrAt(lines, i - 1))
  }

  lemma FirstAppend<T>(s: seq<T>, x: T, P: T -> bool)
    ensures First(s + [x], P) == if First(s, P) < |s| then First(s, P) else if P(x) then |s| else |s| + 1
  {
    var i, j := First(s + [x], P), First(s, P);
    assert forall k :: 0 <= k < |s| ==> (s + [x])[k] == s[k];
    assert (s + [x])[|s|] == x;
    if j < |s| {
      assert P((s + [x])[j]);
      assert i >= j;
    }
  }

  lemma FindAppend(syms: Symbols, s: (string, int), name: string)
    ensures FindSymbol(syms + [s], name) == if FindSymbol(syms, name).Some? then FindSymbol(syms, name)
                                            else if s.0 == name then Some(s.1) else None
  {
    FirstAppend(syms, s, (s: (string, int)) => s.0 == name);
  }

  /** A name resolves exactly when some line defines it, and then to the address pass 2 has at the first such line. */
  lemma {:induction false} LabelResolves(lines: seq<Line>, n: nat, i: nat, name: string)
    requires i <= n <= |lines| && forall j :: 0 <= j < i ==> LabelOf(lines[j]) != Some(name)
    ensures i == n ==> FindSymbol(SymbolsAt(lines, n), name) == None
    ensures i < n && LabelOf(lines[i]) == Some(name) ==> FindSymbol(SymbolsAt(lines, n), name) == Some(AddrAt(lines, i))
  {
    if n > 0 && (i == n || LabelOf(lines[i]) == Some(name)) {
      LabelResolves(lines, n - 1, if i == n then n - 1 else i, name);
      if LabelOf(lines[n - 1]).Some? {
        FindAppend(SymbolsAt(lines, n - 1), (LabelOf(lines[n - 1]).value, AddrAt(lines, n - 1)), name);
      }
    }
  }

  /** yas succeeds on these lines. */
  ghost predicate Accepted(lines: seq<Line>) {
    && (forall i :: 0 <= i < |lines| ==> !FormOf(lines[i]).Malformed?)
    && EmitsAll(lines, |lines|, SymbolsAt(lines, |lines|))
  }

  // ---------------------------------------------------------------- the code buffer

  function Store(code: seq<Byte>, pos: nat, n: nat, v: int): (c: seq<Byte>)
    requires pos + n <= |code|
    ensures |c| == |code|
  {
    code[..pos] + ToBytes(v, n) + code[pos + n..]
  }

  lemma PutNext(before: seq<Byte>, bs: seq<Byte>, pos: nat, i: nat)
    requires i < |bs| && pos + |bs| <= |before|
    ensures (before[..pos] + bs[..i] + before[pos + i..])[pos + i := bs[i]] == before[..pos] + bs[..i + 1] + before[pos + i + 1..]
  {
    assert bs[..i + 1] == bs[..i] + [bs[i]];
    assert before[pos + i..] == [before[pos + i]] + before[pos + i + 1..];
  }

  predicate Fits(arg: Arg) {
    match arg
    case NoArg => true
    case RArg(pos, _) => pos < 10
    case MArg(pos) => pos + 9 <= 10
    case IArg(pos, n) => pos + n <= 10
  }

  /** The code buffer with an operand put in its place. */
  function Insert(arg: Arg, o: Operands, code: seq<Byte>): (c: seq<Byte>)
    requires RegsInRange(o) && |code| == 10 && Fits(arg)
    ensures |c| == 10
  {
    match arg
    case NoArg => code
    case RArg(pos, hi) => code[pos := if hi then code[pos] % 16 + 16 * o.ra else code[pos] / 16 * 16 + o.rb]
    case MArg(pos) => Store(code[pos := code[pos] / 16 * 16 + o.rb], pos + 1, 8, o.val)
    case IArg(pos, n) => Store(code, pos, n, o.val)
  }

  /** An operand changes only the fields it stands for. */
  ghost predicate Follows(arg: Arg, o: Operands, o': Operands) {
    match arg
    case NoArg => o' == o
    case RArg(_, hi) => if hi then o' == o.(ra := o'.ra) else o' == o.(rb := o'.rb)
    case MArg(_) => o'.ra == o.ra
    case IArg(_, _) => o' == o.(val := o'.val)
  }

  lemma ParseArgFollows(arg: Arg, l: Line, t: nat, syms: Symbols, o: Operands)
    ensures var p := ParseArg(arg, l, t, syms, o); p.Some? ==> Follows(arg, o, p.value.0)
  {
    hide FindRegister, FindSymbol;
  }

  lemma ParseFollows(x: Instr, l: Line, t: nat, syms: Symbols)
    requires Parse(x, l, t, syms).Some?
    ensures var p := ParseArg(x.arg1, l, t, syms, NO_OPERANDS);
            var o := Parse(x, l, t, syms).value;
            p.Some? && Follows(x.arg1, NO_OPERANDS, p.value.0) && Follows(x.arg2, p.value.0, o)
            && RegsInRange(p.value.0) && RegsInRange(o)
  {
    ParseRange(x, l, t, syms);
    ParseArgRange(x.arg1, l, t, syms, NO_OPERANDS);
    ParseArgFollows(x.arg1, l, t, syms, NO_OPERANDS);
    var a := ParseArg(x.arg1, l, t, syms, NO_OPERANDS).value;
    if !x.arg2.NoArg? {
      ParseArgFollows(x.arg2, l, a.1 + 1, syms, a.0);
    }
    hide ParseArg, RegsInRange;
  }

  lemma FilledShort(x: Instr, a: Operands, o: Operands, code: seq<Byte>)
    requires |code| == 10 && code[0] == x.code && code[1] == 255 && Coherent(x) && !NeedImm(x.code / 16)
    requires Follows(x.arg1, NO_OPERANDS, a) && Follows(x.arg2, a, o) && RegsInRange(a) && RegsInRange(o)
    ensures Fits(x.arg1) && Fits(x.arg2) && Insert(x.arg2, o, Insert(x.arg1, a, code))[..x.bytes] == Encode(x, o)
  {
    hide ToBytes, NeedImm;
    assert NO_OPERANDS == Operands(15, 15, 0);
  }

  lemma FilledLong(x: Instr, a: Operands, o: Operands, code: seq<Byte>)
    requires |code| == 10 && code[0] == x.code && code[1] == 255 && Coherent(x) && NeedImm(x.code / 16)
    requires Follows(x.arg1, NO_OPERANDS, a) && Follows(x.arg2, a, o) && RegsInRange(a) && RegsInRange(o)
    ensures Fits(x.arg1) && Fits(x.arg2) && Insert(x.arg2, o, Insert(x.arg1, a, code))[..x.bytes] == Encode(x, o)
  {
    hide ToBytes, NeedRegids, NeedImm;
    assert NO_OPERANDS == Operands(15, 15, 0);
    var c := Insert(x.arg2, o, Insert(x.arg1, a, code));
    if !IsData(x) && x.bytes > 0 {
      var p := if NeedRegids(x.code / 16) then 2 else 1;
      assert c[0] == x.code && c[p..p + 8] == ToBytes(o.val, 8);
      assert NeedRegids(x.code / 16) ==> c[1] == 16 * o.ra + o.rb;
      assert c[..x.bytes] == c[..p] + c[p..p + 8];
    }
  }

  /** Filling the buffer operand by operand gives the architecture's encoding, whatever was in it before. */
  lemma FilledIn(x: Instr, l: Line, t: nat, syms: Symbols, code: seq<Byte>)
    requires |code| == 10 && code[0] == x.code && code[1] == 255 && Coherent(x)
    requires Parse(x, l, t, syms).Some?
    ensures var a := ParseArg(x.arg1, l, t, syms, NO_OPERANDS).value;
            var o := Parse(x, l, t, syms).value;
            && Fits(x.arg1) && Fits(x.arg2) && RegsInRange(a.0) && RegsInRange(o)
            && Insert(x.arg2, o, Insert(x.arg1, a.0, code))[..x.bytes] == Encode(x, o)
  {
    var a := ParseArg(x.arg1, l, t, syms, NO_OPERANDS).value;
    var o := Parse(x, l, t, syms).value;
    ParseFollows(x, l, t, syms);
    hide *;
    if NeedImm(x.code / 16) {
      FilledLong(x, a.0, o, code);
    } else {
      FilledShort(x, a.0, o, code);
    }
  }

  class Assembler {
    var bytepos: int
    var pass: int
    var tokens: Line
    var tpos: nat
    const code: array<Byte>
    var bcount: nat
    var hitError: bool
    var symbols: Symbols
    var out: seq<Out>

    constructor ()
      ensures code.Length == 10 && fresh(code) && symbols == [] && out == [] && !hitError && bytepos == 0 && pass == 1
    {
      code := new Byte[10](_ => 0);
      bytepos, pass, tokens, tpos, bcount, hitError, symbols, out := 0, 1, [], 0, 0, false, [], [];
    }

    // find_symbol
    method LookUp(name: string) returns (pos: int)
      modifies this`hitError
      ensures FindSymbol(symbols, name).Some? ==> pos == FindSymbol(symbols, name).value && hitError == old(hitError)
      ensures FindSymbol(symbols, name).None? ==> pos == -1 && hitError
    {
      var i := 0;
      while i < |symbols|
        invariant 0 <= i <= First(symbols, (s: (string, int)) => s.0 == name)
        invariant hitError == old(hitError)
      {
        if symbols[i].0 == name {
          return symbols[i].1;
        }
        i := i + 1;
      }
      hitError := true;
      pos := -1;
    }

    // the byte loops of get_num and get_mem
    method StoreNum(pos: nat, n: nat, v: int)
      requires code.Length == 10 && pos + n <= 10
      modifies code
      ensures code[..] == Store(old(code[..]), pos, n, v)
    {
      hide ToBytes;
      var i, val := 0, v;
      ghost var bs, before := ToBytes(v, n), code[..];
      while i < n
        invariant 0 <= i <= n && bs[i..] == ToBytes(val, n - i)
        invariant code[..] == before[..pos] + bs[..i] + before[pos + i..]
      {
        ToBytesStep(val, n - i);
        assert bs[i] == bs[i..][0] && bs[i + 1..] == bs[i..][1..];
        PutNext(before, bs, pos, i);
        ghost var was := code[..];
        code[pos + i] := val % 256;
        assert code[..] == was[pos + i := bs[i]];
        val := val / 256;
        i := i + 1;
      }
    }

    // get_reg
    method GetReg(pos: nat, hi: bool, ghost o: Operands)
      requires code.Length == 10 && pos < 10 && Lexed(tokens) && RegsInRange(o)
      modifies this`hitError, this`tpos, code
      ensures Consumed(RArg(pos, hi), o, old(tpos), old(code[..]), old(hitError))
    {
      hide Registers, FindRegister, FindSymbol, ToBytes;
      if !Tok(tokens, tpos).TokReg? {
        hitError := true;
        return;
      }
      RegistersFound(Tok(tokens, tpos).reg);
      var rval := FindRegister(Tok(tokens, tpos).reg);
      var c := code[pos];
      code[pos] := if hi then c % 16 + 16 * rval else c / 16 * 16 + rval;
      tpos := tpos + 1;
    }

    // get_num
    method GetNum(pos: nat, n: nat, ghost o: Operands)
      requires code.Length == 10 && pos + n <= 10 && RegsInRange(o)
      modifies this`hitError, this`tpos, code
      ensures Consumed(IArg(pos, n), o, old(tpos), old(code[..]), old(hitError))
    {
      hide Registers, FindRegister, FindSymbol, ToBytes;
      var val: int := 0;
      match Tok(tokens, tpos) {
        case TokNum(n) => val := n;
        case TokIdent(name) => val := LookUp(name);
        case _ =>
          hitError := true;
          return;
      }
      StoreNum(pos, n, val);
      tpos := tpos + 1;
    }

    // the parsing half of get_mem
    method ReadMem() returns (ok: bool, rval: int, val: int)
      requires Lexed(tokens)
      modifies this`hitError, this`tpos
      ensures var m := ParseMem(tokens, old(tpos), symbols);
              if m.None? then hitError
              else ok && rval == m.value.0 && val == m.value.1 && tpos == m.value.2 && hitError == old(hitError)
      ensures 0 <= rval <= 15
    {
      hide Registers, FindRegister, FindSymbol;
      ok, rval, val := true, 15, 0;
      match Tok(tokens, tpos) {
        case TokNum(n) =>
          val := n;
          tpos := tpos + 1;
        case TokIdent(name) =>
          val := LookUp(name);
          tpos := tpos + 1;
        case _ =>
      }
      if Tok(tokens, tpos) == TokPunct('(') {
        tpos := tpos + 1;
        if !Tok(tokens, tpos).TokReg? {
          hitError := true;
          return false, 15, val;
        }
        RegistersFound(Tok(tokens, tpos).reg);
        rval := FindRegister(Tok(tokens, tpos).reg);
        tpos := tpos + 1;
        if Tok(tokens, tpos) != TokPunct(')') {
          hitError := true;
          return false, 15, val;
        }
        tpos := tpos + 1;
      }
    }

    // get_mem
    method GetMem(pos: nat, ghost o: Operands)
      requires code.Length == 10 && pos + 9 <= 10 && Lexed(tokens) && RegsInRange(o)
      modifies this`hitError, this`tpos, code
      ensures Consumed(MArg(pos), o, old(tpos), old(code[..]), old(hitError))
    {
      hide ParseMem, Store, Lexed;
      var ok, rval, val := ReadMem();
      if !ok {
        return;
      }
      ghost var before := code[..];
      code[pos] := code[pos] / 16 * 16 + rval;
      assert code[..] == before[pos := before[pos] / 16 * 16 + rval];
      StoreNum(pos + 1, 8, val);
    }

    /** What reading one operand does: it is parsed and put in the buffer, or an error is noted. */
    ghost predicate Consumed(arg: Arg, o: Operands, t: nat, before: seq<Byte>, errors: bool)
      requires RegsInRange(o) && |before| == 10 && Fits(arg)
      reads this, code
    {
      var p := ParseArg(arg, tokens, t, symbols, o);
      if p.None? then hitError
      else RegsInRange(p.value.0) && tpos == p.value.1 && code[..] == Insert(arg, p.value.0, before) && hitError == errors
    }

    method GetArg(arg: Arg, ghost o: Operands)
      requires code.Length == 10 && Fits(arg) && Lexed(tokens) && RegsInRange(o)
      modifies this`hitError, this`tpos, code
      ensures Consumed(arg, o, old(tpos), old(code[..]), old(hitError))
    {
      match arg {
        case RArg(pos, hi) => GetReg(pos, hi, o);
        case MArg(pos) => GetMem(pos, o);
        case IArg(pos, n) => GetNum(pos, n, o);
        case NoArg =>
      }
    }

    // print_code, up to the formatting of the line
    method PrintCode(pos: int) returns (exited: bool)
      requires code.Length == 10 && bcount <= 10
      modifies this`out, this`hitError
      ensures exited <==> tokens != [] && pos > MAX_ADDRESS
      ensures exited ==> hitError && out == old(out)
      ensures !exited ==> hitError == old(hitError) && out == old(out) + [Out(pos, code[..bcount], tokens == [])]
    {
      if tokens != [] && pos > MAX_ADDRESS {
        hitError := true;
        return true;
      }
      out := out + [Out(pos, code[..bcount], tokens == [])];
      exited := false;
    }

    // the last part of finish_line: pass 2 over an instruction
    method EmitInsn(x: Instr, start: int) returns (exited: bool)
      requires code.Length == 10 && Coherent(x) && Lexed(tokens) && bcount == x.bytes && tokens != []
      modifies this`hitError, this`tpos, this`out, code
      ensures exited ==> hitError
      ensures var p := Parse(x, tokens, old(tpos), symbols);
              if p.None? || start > MAX_ADDRESS then hitError
              else RegsInRange(p.value) && !exited && hitError == old(hitError)
                   && out == old(out) + [Out(start, Encode(x, p.value), false)]
    {
      hide Encode, Insert, ParseArg, Lexed, Tok;
      ghost var t0, errors := tpos, hitError;
      exited := false;
      FitsBoth(x);
      hide Coherent, Fits;
      code[0], code[1] := x.code, 255;
      ghost var c0 := code[..];
      GetArg(x.arg1, NO_OPERANDS);
      ghost var a := ParseArg(x.arg1, tokens, t0, symbols, NO_OPERANDS);
      ghost var o := if a.None? then NO_OPERANDS else a.value.0;
      ghost var c1 := code[..];
      if !x.arg2.NoArg? {
        if Tok(tokens, tpos) != TokPunct(',') {
          hitError := true;
          return;
        }
        tpos := tpos + 1;
        GetArg(x.arg2, o);
      }
      if Parse(x, tokens, t0, symbols).Some? {
        FilledIn(x, tokens, t0, symbols, c0);
        InsertNothing(o, c1);
      }
      exited := PrintCode(start);
    }

    // finish_line
    method FinishLine(l: Line) returns (exited: bool)
      requires code.Length == 10 && Lexed(l)
      modifies this, code
      ensures pass == old(pass) && bytepos == NextPos(FormOf(l), old(bytepos))
      ensures symbols == if pass == 1 then AddLabel(old(symbols), l, old(bytepos)) else old(symbols)
      ensures pass == 1 ==> out == old(out) && !exited && (hitError <==> old(hitError) || FormOf(l).Malformed?)
      ensures exited ==> hitError
      ensures pass != 1 ==> var e := Emits(l, old(bytepos), symbols);
                            if e.Some? then out == old(out) + [e.value] && hitError == old(hitError) && !exited
                            else hitError
    {
      hide Parse, Encode, Coherent, FindInstr, InstructionSet, Lexed, Int32;
      tokens, tpos, bcount, exited := l, 0, 0, false;
      var start := bytepos;
      if l == [] {
        if pass != 1 {
          exited := PrintCode(start);
        }
        return;
      }
      if Tok(l, 0).TokIdent? {
        if Tok(l, 1) != TokPunct(':') {
          hitError := true;
          return;
        }
        if pass == 1 {
          symbols := symbols + [(l[0].name, bytepos)];
        }
        tpos := 2;
        if |l| == 2 {
          if pass != 1 {
            exited := PrintCode(start);
          }
          return;
        }
      }
      if !Tok(l, tpos).TokInstr? {
        hitError := true;
        return;
      }
      if Tok(l, tpos).instr == ".pos" || Tok(l, tpos).instr == ".align" {
        exited := Directive(l);
        return;
      }
      var found := FindInstr(Tok(l, tpos).instr);
      tpos := tpos + 1;
      if found.None? {
        hitError := true;
        if pass != 1 {
          exited := PrintCode(start);
        }
        return;
      }
      bytepos := bytepos + found.value.bytes;
      bcount := found.value.bytes;
      if pass != 1 {
        exited := EmitInsn(found.value, start);
      }
    }

    // the .pos and .align branches of finish_line
    method Directive(l: Line) returns (exited: bool)
      requires code.Length == 10 && l == tokens && bcount == 0 && tpos < |l| && l[tpos].TokInstr?
      requires l[tpos].instr == ".pos" || l[tpos].instr == ".align"
      requires tpos == (if LabelOf(l).Some? then 2 else 0) && (Tok(l, 0).TokIdent? ==> LabelOf(l).Some?)
      modifies this`hitError, this`tpos, this`out, this`bytepos
      ensures bytepos == NextPos(FormOf(l), old(bytepos))
      ensures pass == 1 ==> out == old(out) && !exited && (hitError <==> old(hitError) || FormOf(l).Malformed?)
      ensures exited ==> hitError
      ensures pass != 1 ==> var e := Emits(l, old(bytepos), symbols);
                            if e.Some? then out == old(out) + [e.value] && hitError == old(hitError) && !exited
                            else hitError
    {
      hide Parse, Encode, Coherent, FindInstr, InstructionSet, Int32;
      exited := false;
      var aligning := l[tpos].instr == ".align";
      tpos := tpos + 1;
      if !Tok(l, tpos).TokNum? || (aligning && Int32(l[tpos].n) <= 0) {
        hitError := true;
        return;
      }
      var a := Int32(l[tpos].n);
      bytepos := if aligning then TruncDiv(bytepos + a - 1, a) * a else a;
      if pass != 1 {
        exited := PrintCode(bytepos);
      }
    }

    // one pass over the source
    method Pass(lines: seq<Line>) returns (exited: bool)
      requires code.Length == 10 && bytepos == 0 && out == [] && (forall i :: 0 <= i < |lines| ==> Lexed(lines[i]))
      requires pass == 1 ==> symbols == []
      modifies this, code
      ensures pass == old(pass) && (exited ==> hitError)
      ensures pass == 1 ==> !exited && out == [] && symbols == SymbolsAt(lines, |lines|)
                            && (hitError <==> old(hitError) || exists i :: 0 <= i < |lines| && FormOf(lines[i]).Malformed?)
      ensures pass != 1 ==> symbols == old(symbols)
      ensures pass != 1 && !old(hitError) ==> (hitError <==> !EmitsAll(lines, |lines|, symbols))
      ensures pass != 1 && !old(hitError) && !hitError ==> Listing(lines, |lines|, symbols, out)
    {
      hide FormOf, NextPos, Emits, Lexed, AddLabel;
      var i := 0;
      exited := false;
      while i < |lines|
        invariant 0 <= i <= |lines| && pass == old(pass) && bytepos == AddrAt(lines, i) && !exited
        invariant pass == 1 ==> out == [] && symbols == SymbolsAt(lines, i)
                                && (hitError <==> old(hitError) || exists j :: 0 <= j < i && FormOf(lines[j]).Malformed?)
        invariant pass != 1 ==> symbols == old(symbols)
        invariant pass != 1 && !old(hitError) ==> (hitError <==> !EmitsAll(lines, i, symbols))
        invariant pass != 1 && !old(hitError) && !hitError ==> Listing(lines, i, symbols, out)
      {
        exited := FinishLine(lines[i]);
        if exited {
          return;
        }
        i := i + 1;
      }
    }

    // main: two passes, the second only when the first found no error
    method Assemble(lines: seq<Line>) returns (ok: bool)
      requires code.Length == 10 && bytepos == 0 && pass == 1 && symbols == [] && out == [] && !hitError
      requires forall i :: 0 <= i < |lines| ==> Lexed(lines[i])
      modifies this, code
      ensures ok <==> Accepted(lines)
      ensures ok ==> Listing(lines, |lines|, SymbolsAt(lines, |lines|), out)
    {
      hide FormOf, Emits, Lexed;
      var exited := Pass(lines);
      if hitError {
        return false;
      }
      pass, bytepos := 2, 0;
      exited := Pass(lines);
      ok := !hitError;
    }
  }

  ghost predicate EmitsAll(lines: seq<Line>, n: nat, syms: Symbols)
    requires n <= |lines|
  {
    forall i :: 0 <= i < n ==> Emits(lines[i], AddrAt(lines, i), syms).Some?
  }

  /** out is the listing of the first n lines. */
  ghost predicate Listing(lines: seq<Line>, n: nat, syms: Symbols, out: seq<Out>)
    requires n <= |lines|
  {
    |out| == n && forall i :: 0 <= i < n ==> Emits(lines[i], AddrAt(lines, i), syms) == Some(out[i])
  }

  lemma FitsBoth(x: Instr)
    requires Coherent(x)
    ensures Fits(x.arg1) && Fits(x.arg2) && x.bytes <= 10
  {
  }

  lemma InsertNothing(o: Operands, code: seq<Byte>)
    requires RegsInRange(o) && |code| == 10
    ensures Insert(NoArg, o, code) == code
  {
  }
}
