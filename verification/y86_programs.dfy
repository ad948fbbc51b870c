/** From source lines to effects: what the simulator does at a line of a loaded program, by its mnemonic and the names
    of its registers. */
module Y86Programs {
  import opened Y86Words
  import opened Y86Isa
  import opened Y86Asm
  import opened Y86Effects
  import opened Y86Lines
  import Bits

  /** The machine is at a line that says this. */
  ghost predicate Reads(s: Machine, lines: seq<Line>, outs: seq<Out>, i: nat, toks: Line) {
    LineSays(lines, i, toks) && At(s, lines, outs, i)
  }

  /** v and the flags are what the operation makes of its destination y and its source x. */
  ghost predicate Computes(name: string, x: Word, y: Word, v: Word, cc: CC) {
    && cc.zf == (v == 0) && cc.sf == (v < 0)
    && if name == "addq" then Wraps(v, y + x) && cc.of == !Fits64(y + x)
       else if name == "subq" then Wraps(v, y - x) && cc.of == !Fits64(y - x)
       else if name == "andq" then !cc.of && forall k: nat :: Bits.BitAt(v, k) == (Bits.BitAt(y, k) && Bits.BitAt(x, k))
       else name == "xorq" && !cc.of && forall k: nat :: Bits.BitAt(v, k) == (Bits.BitAt(y, k) != Bits.BitAt(x, k))
  }

  /** addq, subq, andq and xorq change their second register and the flags, and nothing else. */
  lemma OperationStep(s: Machine, lines: seq<Line>, outs: seq<Out>, i: nat, name: string, a: string, ra: int, b: string, rb: int)
    requires Reads(s, lines, outs, i, [TokInstr(name), TokReg(a), COMMA, TokReg(b)])
    requires name in ["addq", "subq", "andq", "xorq"] && Names(a, ra) && Names(b, rb)
    ensures WellFormed(s) && 0 <= ra < 15 && 0 <= rb < 15
    ensures var (s', st) := Step(s);
            && st == STAT_AOK && s'.pc == AddrAt(lines, i + 1) && s'.mem == s.mem && |s'.regs| == 15
            && s'.regs == s.regs[rb := s'.regs[rb]] && Computes(name, s.regs[ra], s.regs[rb], s'.regs[rb], s'.cc)
  {
    hide Says, There, Stands, Step, Names, AddrAt, Wraps, Fits64, Bits.BitAt;
    var fun := if name == "addq" then 0 else if name == "subq" then 1 else if name == "andq" then 2 else 3;
    LineTwo(lines, i, name, 6, fun, a, ra, b, rb);
    FetchAs(s, lines, outs, i, name, 6, fun, Operands(ra, rb, 0));
    AluEffect(s, fun, ra, rb, AddrAt(lines, i + 1));
  }

  // ---------------------------------------------------------------- comparisons

  /** The comparison in the name of a jump or a move. */
  predicate Taken(name: string, y: int, x: int) {
    || name in ["jmp", "rrmovq"] || (name in ["jle", "cmovle"] && y <= x) || (name in ["jl", "cmovl"] && y < x)
    || (name in ["je", "cmove"] && y == x) || (name in ["jne", "cmovne"] && y != x)
    || (name in ["jge", "cmovge"] && y >= x) || (name in ["jg", "cmovg"] && y > x)
  }

  predicate IsJump(name: string) {
    name in ["jmp", "jle", "jl", "je", "jne", "jge", "jg"]
  }

  predicate IsMove(name: string) {
    name in ["rrmovq", "cmovle", "cmovl", "cmove", "cmovne", "cmovge", "cmovg"]
  }

  lemma JumpNamed(name: string) returns (fun: int)
    requires IsJump(name)
    ensures 0 <= fun <= 6 && Mnemonic(name, 7, fun) && (fun == 0 <==> name == "jmp")
    ensures forall y: int, x: int :: Holds(fun, y, x) == Taken(name, y, x)
  {
    fun := if name == "jmp" then 0 else if name == "jle" then 1 else if name == "jl" then 2 else if name == "je" then 3
           else if name == "jne" then 4 else if name == "jge" then 5 else 6;
  }

  lemma MoveNamed(name: string) returns (fun: int)
    requires IsMove(name)
    ensures 0 <= fun <= 6 && Mnemonic(name, 2, fun) && (fun == 0 <==> name == "rrmovq")
    ensures forall y: int, x: int :: Holds(fun, y, x) == Taken(name, y, x)
  {
    fun := if name == "rrmovq" then 0 else if name == "cmovle" then 1 else if name == "cmovl" then 2
           else if name == "cmove" then 3 else if name == "cmovne" then 4 else if name == "cmovge" then 5 else 6;
  }

  lemma ComputesIs(fun: int, x: Word, y: Word, v: Word, cc: CC)
    ensures Computes("addq", x, y, v, cc) ==> AluResult(0, x, y, v, cc)
    ensures Computes("subq", x, y, v, cc) ==> AluResult(1, x, y, v, cc)
  {
  }

  /** On the flags of a subq, a jump goes to its destination exactly if its comparison holds. */
  lemma JumpStep(s: Machine, lines: seq<Line>, outs: seq<Out>, i: nat, name: string, tok: Token, v: int, x: Word, y: Word, w: Word)
    requires Reads(s, lines, outs, i, [TokInstr(name), tok]) && IsJump(name) && Denotes(lines, tok, v)
    requires name == "jmp" || Computes("subq", x, y, w, s.cc)
    ensures WellFormed(s)
    ensures var (s', st) := Step(s);
            && st == STAT_AOK && s' == s.(pc := s'.pc)
            && if Taken(name, y, x) then Wraps(s'.pc, v) else s'.pc == AddrAt(lines, i + 1)
  {
    hide Says, There, Stands, Step, Denotes, Wrap, AddrAt, Wraps, IsJump, Taken, Computes, AluResult, Mnemonic, Holds;
    var fun := JumpNamed(name);
    LineDest(lines, i, name, 7, fun, tok, v);
    FetchAs(s, lines, outs, i, name, 7, fun, Operands(15, 15, v));
    ComputesIs(fun, x, y, w, s.cc);
    JumpEffect(s, fun, Wrap(v), AddrAt(lines, i + 1), x, y, w);
    WrapWraps(v);
  }

  /** The next step copies register ra to rb, or does not, and changes nothing else. */
  ghost predicate Moved(s: Machine, taken: bool, ra: int, rb: int, next: int) {
    && WellFormed(s) && 0 <= ra < 15 && 0 <= rb < 15 && 0 <= next < 0x8000_0000
    && Step(s) == (s.(pc := next, regs := if taken then s.regs[rb := s.regs[ra]] else s.regs), STAT_AOK)
  }

  /** rrmovq copies; a conditional move does exactly if its comparison holds. */
  lemma MoveStep(s: Machine, lines: seq<Line>, outs: seq<Out>, i: nat, name: string, a: string, ra: int, b: string, rb: int,
                 x: Word, y: Word, w: Word)
    requires Reads(s, lines, outs, i, [TokInstr(name), TokReg(a), COMMA, TokReg(b)]) && IsMove(name) && Names(a, ra) && Names(b, rb)
    requires name == "rrmovq" || Computes("subq", x, y, w, s.cc)
    ensures Moved(s, Taken(name, y, x), ra, rb, AddrAt(lines, i + 1))
  {
    hide Says, There, Stands, Step, Names, AddrAt, IsMove, Taken, Computes, AluResult, Mnemonic, Holds;
    var fun := MoveNamed(name);
    LineTwo(lines, i, name, 2, fun, a, ra, b, rb);
    FetchAs(s, lines, outs, i, name, 2, fun, Operands(ra, rb, 0));
    ComputesIs(fun, x, y, w, s.cc);
    MoveEffect(s, fun, ra, rb, AddrAt(lines, i + 1), x, y, w);
  }

  /** A line that follows: the machine has come there, and its bytes are still in memory. */
  lemma Arrives(s: Machine, lines: seq<Line>, outs: seq<Out>, k: nat, toks: Line)
    requires WellFormed(s) && There(s.mem, lines, outs, k) && s.pc == AddrAt(lines, k) && LineSays(lines, k, toks)
    ensures Reads(s, lines, outs, k, toks)
  {
  }

  /** The step after the next one goes to v, or to next, and changes nothing else; neither changes the memory. */
  ghost predicate JumpsNext(s: Machine, taken: bool, v: int, next: int) {
    WellFormed(s) && var s1 := Step(s).0; s1.mem == s.mem && var (s2, st) := Step(s1);
    && st == STAT_AOK && s2 == s1.(pc := s2.pc) && if taken then Wraps(s2.pc, v) else s2.pc == next
  }

  /** subq %ra, %rb; jXX dest: the jump is taken exactly if %rb compared to %ra as its name says. */
  lemma CompareThenJump(s: Machine, lines: seq<Line>, outs: seq<Out>, i: nat, a: string, ra: int, b: string, rb: int,
                        name: string, tok: Token, v: int)
    requires Reads(s, lines, outs, i, [TokInstr("subq"), TokReg(a), COMMA, TokReg(b)]) && Names(a, ra) && Names(b, rb)
    requires LineSays(lines, i + 1, [TokInstr(name), tok]) && IsJump(name) && Denotes(lines, tok, v) && There(s.mem, lines, outs, i + 1)
    ensures WellFormed(s) && 0 <= ra < 15 && 0 <= rb < 15 && i + 2 <= |lines|
    ensures JumpsNext(s, Taken(name, s.regs[rb], s.regs[ra]), v, AddrAt(lines, i + 2))
  {
    hide Says, There, Step, Names, AddrAt, Wraps, Denotes, IsJump, Taken, Computes, At;
    OperationStep(s, lines, outs, i, "subq", a, ra, b, rb);
    var s1 := Step(s).0;
    Arrives(s1, lines, outs, i + 1, [TokInstr(name), tok]);
    JumpStep(s1, lines, outs, i + 1, name, tok, v, s.regs[ra], s.regs[rb], s1.regs[rb]);
  }

  /** subq %ra, %rb; cmovXX %rc, %rd. */
  lemma CompareThenMove(s: Machine, lines: seq<Line>, outs: seq<Out>, i: nat, a: string, ra: int, b: string, rb: int,
                        name: string, c: string, rc: int, d: string, rd: int)
    requires Reads(s, lines, outs, i, [TokInstr("subq"), TokReg(a), COMMA, TokReg(b)]) && Names(a, ra) && Names(b, rb)
    requires LineSays(lines, i + 1, [TokInstr(name), TokReg(c), COMMA, TokReg(d)]) && IsMove(name) && Names(c, rc) && Names(d, rd)
    requires There(s.mem, lines, outs, i + 1)
    ensures WellFormed(s) && 0 <= ra < 15 && 0 <= rb < 15 && 0 <= rc < 15 && 0 <= rd < 15
    ensures var s1 := Step(s).0; |s1.mem| == |s.mem| && |s1.regs| == 15 && var (s2, st) := Step(s1);
            && st == STAT_AOK && s2 == s1.(pc := s2.pc, regs := s2.regs) && s1.mem == s.mem
            && s2.regs == if Taken(name, s.regs[rb], s.regs[ra]) then s1.regs[rd := s1.regs[rc]] else s1.regs
  {
    hide Says, There, Step, Names, AddrAt, Wraps, IsMove, Taken, Computes, At;
    OperationStep(s, lines, outs, i, "subq", a, ra, b, rb);
    var s1 := Step(s).0;
    Arrives(s1, lines, outs, i + 1, [TokInstr(name), TokReg(c), COMMA, TokReg(d)]);
    MoveStep(s1, lines, outs, i + 1, name, c, rc, d, rd, s.regs[ra], s.regs[rb], s1.regs[rb]);
  }

  // ---------------------------------------------------------------- constants and memory

  lemma IrmovqStep(s: Machine, lines: seq<Line>, outs: seq<Out>, i: nat, tok: Token, v: int, b: string, rb: int)
    requires Reads(s, lines, outs, i, [TokInstr("irmovq"), tok, COMMA, TokReg(b)]) && Denotes(lines, tok, v) && Names(b, rb)
    ensures WellFormed(s) && 0 <= rb < 15
    ensures var (s', st) := Step(s);
            && st == STAT_AOK && |s'.regs| == 15 && Wraps(s'.regs[rb], v)
            && s' == s.(pc := AddrAt(lines, i + 1), regs := s.regs[rb := s'.regs[rb]])
  {
    hide Says, There, Stands, Step, Names, Denotes, Wrap, AddrAt, Wraps;
    LineConst(lines, i, "irmovq", 3, tok, v, b, rb);
    FetchAs(s, lines, outs, i, "irmovq", 3, 0, Operands(15, rb, v));
    IrmovqEffect(s, rb, Wrap(v), AddrAt(lines, i + 1));
    WrapWraps(v);
  }

  lemma IaddqStep(s: Machine, lines: seq<Line>, outs: seq<Out>, i: nat, tok: Token, v: int, c: Word, b: string, rb: int)
    requires Reads(s, lines, outs, i, [TokInstr("iaddq"), tok, COMMA, TokReg(b)]) && Denotes(lines, tok, v) && Names(b, rb)
    requires Wraps(c, v)
    ensures WellFormed(s) && 0 <= rb < 15
    ensures var (s', st) := Step(s);
            && st == STAT_AOK && s'.pc == AddrAt(lines, i + 1) && s'.mem == s.mem && |s'.regs| == 15
            && s'.regs == s.regs[rb := s'.regs[rb]] && Computes("addq", c, s.regs[rb], s'.regs[rb], s'.cc)
  {
    hide Says, There, Stands, Step, Names, Denotes, Wrap, AddrAt, Wraps, Fits64, Bits.BitAt;
    LineConst(lines, i, "iaddq", 12, tok, v, b, rb);
    FetchAs(s, lines, outs, i, "iaddq", 12, 0, Operands(15, rb, v));
    WrapWraps(v);
    WrapsOnce(c, Wrap(v), v);
    IaddqEffect(s, rb, Wrap(v), AddrAt(lines, i + 1));
  }

  lemma WrapsInner(a: Word, v: int, b: int)
    requires Wraps(a, v + b)
    ensures Wraps(a, Wrap(v) + b)
  {
    hide Wrap;
    WrapWraps(v);
    var k :| v + b == a + k * 0x1_0000_0000_0000_0000;
    var l :| v == Wrap(v) + l * 0x1_0000_0000_0000_0000;
    assert Wrap(v) + b == a + (k - l) * 0x1_0000_0000_0000_0000;
  }

  /** The next step stores register ra at that address and changes no other byte, or faults. */
  ghost predicate StoredTo(s: Machine, ra: int, at: Word, next: int) {
    && WellFormed(s) && 0 <= ra < 15 && 0 <= next < 0x8000_0000 && var (s', st) := Step(s);
    if InRange(s, at) then st == STAT_AOK && s' == s.(pc := next, mem := s'.mem) && Stored(s.mem, at, s.regs[ra], s'.mem)
    else st == STAT_ADR && s' == s
  }

  /** The next step loads the word at that address into register ra, or faults. */
  ghost predicate LoadedFrom(s: Machine, ra: int, at: Word, next: int) {
    && WellFormed(s) && 0 <= ra < 15 && 0 <= next < 0x8000_0000
    && Step(s) == if InRange(s, at) then (s.(pc := next, regs := s.regs[ra := GetWord(s.mem, at)]), STAT_AOK) else (s, STAT_ADR)
  }

  /** rmmovq %ra, D(%rb): the word goes to D plus %rb and no other byte changes; outside the memory it faults. */
  lemma StoreStep(s: Machine, lines: seq<Line>, outs: seq<Out>, i: nat, a: string, ra: int, o: Operand, disp: int, rb: int, at: Word)
    requires Reads(s, lines, outs, i, [TokInstr("rmmovq"), TokReg(a), COMMA] + Written(o)) && Names(a, ra) && Means(lines, o, disp, rb)
    requires WellFormed(s) && 0 <= rb <= 15 && Wraps(at, disp + Base(s, rb))
    ensures StoredTo(s, ra, at, AddrAt(lines, i + 1))
  {
    hide Says, There, Stands, Step, Names, Means, Written, Wrap, AddrAt, Wraps, Stored, Base;
    LineStore(lines, i, a, ra, o, disp, rb);
    FetchAs(s, lines, outs, i, "rmmovq", 4, 0, Operands(ra, rb, disp));
    WrapsInner(at, disp, Base(s, rb));
    RmmovqEffect(s, ra, rb, Wrap(disp), AddrAt(lines, i + 1), at);
  }

  /** mrmovq D(%rb), %ra loads the word at D plus %rb. */
  lemma LoadStep(s: Machine, lines: seq<Line>, outs: seq<Out>, i: nat, a: string, ra: int, o: Operand, disp: int, rb: int, at: Word)
    requires Reads(s, lines, outs, i, [TokInstr("mrmovq")] + Written(o) + [COMMA, TokReg(a)]) && Names(a, ra) && Means(lines, o, disp, rb)
    requires WellFormed(s) && 0 <= rb <= 15 && Wraps(at, disp + Base(s, rb))
    ensures LoadedFrom(s, ra, at, AddrAt(lines, i + 1))
  {
    hide Says, There, Stands, Step, Names, Means, Written, Wrap, AddrAt, Wraps, GetWord, Base;
    LineLoad(lines, i, a, ra, o, disp, rb);
    FetchAs(s, lines, outs, i, "mrmovq", 5, 0, Operands(ra, rb, disp));
    WrapsInner(at, disp, Base(s, rb));
    MrmovqEffect(s, ra, rb, Wrap(disp), AddrAt(lines, i + 1), at);
  }

  /** rmmovq %ra, O; mrmovq O, %rd: what was stored is read back, as long as the store has not written over the load. */
  lemma StoreThenLoad(s: Machine, lines: seq<Line>, outs: seq<Out>, i: nat, a: string, ra: int, o: Operand, disp: int, rb: int,
                      d: string, rd: int)
    requires Reads(s, lines, outs, i, [TokInstr("rmmovq"), TokReg(a), COMMA] + Written(o)) && Names(a, ra) && Means(lines, o, disp, rb)
    requires LineSays(lines, i + 1, [TokInstr("mrmovq")] + Written(o) + [COMMA, TokReg(d)]) && Names(d, rd)
    requires WellFormed(s) && Step(s).1 == STAT_AOK && There(Step(s).0.mem, lines, outs, i + 1)
    ensures 0 <= ra < 15 && 0 <= rd < 15 && |Step(s).0.mem| == |s.mem|
    ensures var (s2, st) := Step(Step(s).0); st == STAT_AOK && s2.regs == s.regs[rd := s.regs[ra]] && s2.mem == Step(s).0.mem
  {
    hide Says, There, Stands, Step, Names, Means, Written, Wrap, AddrAt, Wraps, GetWord, Stored, Base, At;
    LineStore(lines, i, a, ra, o, disp, rb);
    var at := Wrap(disp + Base(s, rb));
    WrapWraps(disp + Base(s, rb));
    StoreStep(s, lines, outs, i, a, ra, o, disp, rb, at);
    var s1 := Step(s).0;
    assert |s1.mem| == |s.mem| && GetWord(s1.mem, at) == s.regs[ra] by {
      StoredSize(s.mem, at, s.regs[ra], s1.mem);
      StoredLoads(s.mem, at, s.regs[ra], s1.mem);
    }
    assert Base(s1, rb) == Base(s, rb) by { BaseOf(s, s1, rb); }
    Arrives(s1, lines, outs, i + 1, [TokInstr("mrmovq")] + Written(o) + [COMMA, TokReg(d)]);
    LoadStep(s1, lines, outs, i + 1, d, rd, o, disp, rb, at);
  }

  // ---------------------------------------------------------------- the stack

  /** The next step pushes v, and goes on at next if the word can be stored. */
  ghost predicate Pushes(s: Machine, v: Word, next: int) {
    WellFormed(s) && Pushed(s, v, Step(s).0, Step(s).1) && (Step(s).1 == STAT_AOK ==> Step(s).0.pc == next)
  }

  lemma PushqStep(s: Machine, lines: seq<Line>, outs: seq<Out>, i: nat, a: string, ra: int)
    requires Reads(s, lines, outs, i, [TokInstr("pushq"), TokReg(a)]) && Names(a, ra)
    ensures WellFormed(s) && 0 <= ra < 15 && Pushes(s, s.regs[ra], AddrAt(lines, i + 1))
  {
    hide Says, There, Stands, Step, Names, AddrAt, Pushed;
    LineOne(lines, i, "pushq", 10, a, ra);
    FetchAs(s, lines, outs, i, "pushq", 10, 0, Operands(ra, 15, 0));
    PushqEffect(s, ra, AddrAt(lines, i + 1));
  }

  /** The next step takes the word on top of the stack into register ra, after %rsp has become sp. */
  ghost predicate Popped(s: Machine, ra: int, sp: Word, next: int) {
    && WellFormed(s) && 0 <= ra < 15 && 0 <= next < 0x8000_0000
    && Step(s) == if InRange(s, s.regs[4]) then (s.(pc := next, regs := s.regs[4 := sp][ra := GetWord(s.mem, s.regs[4])]), STAT_AOK)
                  else (s.(regs := s.regs[4 := sp]), STAT_ADR)
  }

  lemma PopqStep(s: Machine, lines: seq<Line>, outs: seq<Out>, i: nat, a: string, ra: int, sp: Word)
    requires Reads(s, lines, outs, i, [TokInstr("popq"), TokReg(a)]) && Names(a, ra)
    requires WellFormed(s) && Wraps(sp, Rsp(s) + 8)
    ensures Popped(s, ra, sp, AddrAt(lines, i + 1))
  {
    hide Says, There, Stands, Step, Names, AddrAt, Wraps, GetWord;
    LineOne(lines, i, "popq", 11, a, ra);
    FetchAs(s, lines, outs, i, "popq", 11, 0, Operands(ra, 15, 0));
    PopqEffect(s, ra, AddrAt(lines, i + 1), sp);
  }

  lemma CallStep(s: Machine, lines: seq<Line>, outs: seq<Out>, i: nat, tok: Token, v: int)
    requires Reads(s, lines, outs, i, [TokInstr("call"), tok]) && Denotes(lines, tok, v)
    ensures WellFormed(s) && 0 <= AddrAt(lines, i + 1) < 0x8000_0000
    ensures var (s', st) := Step(s); Pushed(s, AddrAt(lines, i + 1), s', st) && (st == STAT_AOK ==> Wraps(s'.pc, v))
  {
    hide Says, There, Stands, Step, Denotes, Wrap, AddrAt, Pushed, Wraps;
    LineDest(lines, i, "call", 8, 0, tok, v);
    FetchAs(s, lines, outs, i, "call", 8, 0, Operands(15, 15, v));
    CallEffect(s, Wrap(v), AddrAt(lines, i + 1));
    WrapWraps(v);
  }

  lemma RetStep(s: Machine, lines: seq<Line>, outs: seq<Out>, i: nat, sp: Word)
    requires Reads(s, lines, outs, i, [TokInstr("ret")]) && WellFormed(s) && Wraps(sp, Rsp(s) + 8)
    ensures Step(s) == if InRange(s, s.regs[4])
                       then (s.(pc := GetWord(s.mem, s.regs[4]), regs := s.regs[4 := sp]), STAT_AOK)
                       else (s, STAT_ADR)
  {
    hide Says, There, Stands, Step, AddrAt, Wraps, GetWord;
    LineNone(lines, i, "ret", 9);
    FetchAs(s, lines, outs, i, "ret", 9, 0, NO_OPERANDS);
    RetEffect(s, AddrAt(lines, i + 1), sp);
  }

  /** A word that was pushed is on top of the stack, and going up again brings %rsp back. */
  lemma OnTop(s: Machine, v: Word, s': Machine)
    requires WellFormed(s) && Pushed(s, v, s', STAT_AOK)
    ensures |s'.mem| == |s.mem| && |s'.regs| == 15 && InRange(s', s'.regs[4]) && GetWord(s'.mem, s'.regs[4]) == v
    ensures Wraps(s.regs[4], s'.regs[4] + 8) && s'.regs[4 := s.regs[4]] == s.regs
  {
    hide GetWord, Stored;
    StoredSize(s.mem, s'.regs[4], v, s'.mem);
    StoredLoads(s.mem, s'.regs[4], v, s'.mem);
    var sp: int := s'.regs[4];
    var k: int :| Rsp(s) - 8 == sp + k * 0x1_0000_0000_0000_0000;
    assert sp + 8 == s.regs[4] + (-k) * 0x1_0000_0000_0000_0000;
  }

  /** The step of s succeeds, and t has the memory and the registers it leaves. */
  ghost predicate After(s: Machine, t: Machine) {
    WellFormed(s) && Step(s).1 == STAT_AOK && t.mem == Step(s).0.mem && t.regs == Step(s).0.regs
  }

  ghost predicate Steps(s: Machine, s': Machine) {
    WellFormed(s) && Step(s) == (s', STAT_AOK)
  }

  /** A ret with the stack as a call has left it goes on after the call, with every register as before. */
  lemma CallThenRet(s: Machine, lines: seq<Line>, outs: seq<Out>, i: nat, tok: Token, v: int, t: Machine, k: nat)
    requires Reads(s, lines, outs, i, [TokInstr("call"), tok]) && Denotes(lines, tok, v)
    requires After(s, t)
    requires Reads(t, lines, outs, k, [TokInstr("ret")])
    ensures 0 <= AddrAt(lines, i + 1) < 0x8000_0000 && Steps(t, t.(pc := AddrAt(lines, i + 1), regs := s.regs))
  {
    hide Says, There, Step, Denotes, AddrAt, Pushed, Wraps, GetWord, InRange;
    CallStep(s, lines, outs, i, tok, v);
    OnTop(s, AddrAt(lines, i + 1), Step(s).0);
    assert InRange(t, t.regs[4]) by { SameRange(Step(s).0, t, t.regs[4]); }
    RetStep(t, lines, outs, k, s.regs[4]);
  }

  lemma SameRange(s: Machine, t: Machine, a: int)
    requires s.mem == t.mem && InRange(s, a)
    ensures InRange(t, a)
  {
  }

  /** A popq with the stack as a pushq has left it gets the pushed register's value. */
  lemma PushThenPop(s: Machine, lines: seq<Line>, outs: seq<Out>, i: nat, a: string, ra: int, t: Machine, k: nat, b: string, rb: int)
    requires Reads(s, lines, outs, i, [TokInstr("pushq"), TokReg(a)]) && Names(a, ra)
    requires After(s, t)
    requires Reads(t, lines, outs, k, [TokInstr("popq"), TokReg(b)]) && Names(b, rb)
    ensures PoppedBack(s, ra, t, rb, AddrAt(lines, k + 1))
  {
    hide Says, There, Step, Names, AddrAt, Pushed, Wraps, GetWord, InRange, At, LineSays, Stored;
    PushqStep(s, lines, outs, i, a, ra);
    OnTop(s, s.regs[ra], Step(s).0);
    assert InRange(t, t.regs[4]) by { SameRange(Step(s).0, t, t.regs[4]); }
    PopqStep(t, lines, outs, k, b, rb, s.regs[4]);
  }

  /** The next step puts what register ra was into register rb; all others are as before. */
  ghost predicate PoppedBack(s: Machine, ra: int, t: Machine, rb: int, next: int) {
    && WellFormed(s) && 0 <= ra < 15 && 0 <= rb < 15 && 0 <= next < 0x8000_0000
    && Steps(t, t.(pc := next, regs := s.regs[rb := s.regs[ra]]))
  }

  // ---------------------------------------------------------------- the rest

  lemma HaltStep(s: Machine, lines: seq<Line>, outs: seq<Out>, i: nat)
    requires Reads(s, lines, outs, i, [TokInstr("halt")])
    ensures WellFormed(s) && Step(s) == (s, STAT_HLT)
  {
    hide Says, There, Stands, Step, AddrAt;
    LineNone(lines, i, "halt", 0);
    FetchAs(s, lines, outs, i, "halt", 0, 0, NO_OPERANDS);
    HaltEffect(s, AddrAt(lines, i + 1));
  }

  lemma NopStep(s: Machine, lines: seq<Line>, outs: seq<Out>, i: nat)
    requires Reads(s, lines, outs, i, [TokInstr("nop")])
    ensures WellFormed(s) && Step(s).1 == STAT_AOK && Step(s).0.pc == AddrAt(lines, i + 1) && Step(s).0 == s.(pc := Step(s).0.pc)
  {
    hide Says, There, Stands, Step, AddrAt;
    LineNone(lines, i, "nop", 1);
    FetchAs(s, lines, outs, i, "nop", 1, 0, NO_OPERANDS);
    NopEffect(s, AddrAt(lines, i + 1));
  }

  /** .byte, .word, .long and .quad put down their number, lowest byte first, in 1, 2, 4 and 8 bytes. */
  lemma DataLine(m: seq<Byte>, lines: seq<Line>, outs: seq<Out>, i: nat, name: string, n: nat, tok: Token, v: int)
    requires There(m, lines, outs, i) && LineSays(lines, i, [TokInstr(name), tok]) && Directive(name, n) && Denotes(lines, tok, v)
    ensures var at := AddrAt(lines, i);
            && 0 <= at && at + n <= |m| && AddrAt(lines, i + 1) == at + n
            && exists k :: FromBytes(m[at..at + n]) == v + k * Pow256(n)
  {
    hide Says, Denotes, ToBytes, FromBytes, Pow256;
    LineData(lines, outs, i, name, n, tok, v);
    FromToBytes(v, n);
  }

  /** What .quad puts down is the word a load finds there. */
  lemma QuadLine(m: seq<Byte>, lines: seq<Line>, outs: seq<Out>, i: nat, tok: Token, v: int)
    requires There(m, lines, outs, i) && LineSays(lines, i, [TokInstr(".quad"), tok]) && Denotes(lines, tok, v)
    ensures 0 <= AddrAt(lines, i) && AddrAt(lines, i) + 8 <= |m| && Wraps(GetWord(m, AddrAt(lines, i)), v)
  {
    hide There, Says, Denotes, FromBytes, Pow256, Wrap;
    DataLine(m, lines, outs, i, ".quad", 8, tok, v);
    var at := AddrAt(lines, i);
    var bytes := FromBytes(m[at..at + 8]);
    Pow256Of8();
    var k :| bytes == v + k * Pow256(8);
    WrapWraps(bytes);
    var j :| bytes == Wrap(bytes) + j * 0x1_0000_0000_0000_0000;
    assert v == Wrap(bytes) + (j - k) * 0x1_0000_0000_0000_0000;
  }
}
