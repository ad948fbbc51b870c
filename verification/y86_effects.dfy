/** What each Y86-64 instruction does to the machine, instruction by instruction. */
module Y86Effects {
  import opened Y86Words
  import opened Y86Isa
  import Bits

  /** The machine is about to execute this instruction. */
  ghost predicate Fetches(s: Machine, d: Decoded) {
    WellFormed(s) && 0 <= s.pc < |s.mem| && Decode(s.mem, s.pc) == d
  }

  /** A complete instruction: its register fields (15 where it has none) and its constant (0 where it has none). */
  function Whole(icode: int, fun: int, ra: int, rb: int, val: Word, next: int): Decoded {
    Decoded(icode, fun, ra, rb, val, next, true, true)
  }

  /** v is n, wrapped to 64 bits. */
  ghost predicate Wraps(v: Word, n: int) {
    exists k :: n == v + k * 0x1_0000_0000_0000_0000
  }

  lemma WrapWraps(n: int)
    ensures Wraps(Wrap(n), n)
  {
    var k := (n + 0x8000_0000_0000_0000) / 0x1_0000_0000_0000_0000;
    assert n == Wrap(n) + k * 0x1_0000_0000_0000_0000;
  }

  /** Only one word is n wrapped. */
  lemma WrapsOnce(v: Word, w: Word, n: int)
    requires Wraps(v, n) && Wraps(w, n)
    ensures v == w
  {
    var k :| n == v + k * 0x1_0000_0000_0000_0000;
    var l :| n == w + l * 0x1_0000_0000_0000_0000;
    assert v - w == (l - k) * 0x1_0000_0000_0000_0000;
  }

  ghost predicate Fits64(n: int) {
    -0x8000_0000_0000_0000 <= n < 0x8000_0000_0000_0000
  }

  // ---------------------------------------------------------------- arithmetic and logic

  /** v and the flags are what addq, subq, andq or xorq makes of y (its destination) and x. */
  ghost predicate AluResult(fun: int, x: Word, y: Word, v: Word, cc: CC) {
    && cc.zf == (v == 0) && cc.sf == (v < 0)
    && (fun == 0 ==> Wraps(v, y + x) && cc.of == !Fits64(y + x))
    && (fun == 1 ==> Wraps(v, y - x) && cc.of == !Fits64(y - x))
    && (fun == 2 ==> !cc.of && forall k: nat :: Bits.BitAt(v, k) == (Bits.BitAt(y, k) && Bits.BitAt(x, k)))
    && (fun == 3 ==> !cc.of && forall k: nat :: Bits.BitAt(v, k) == (Bits.BitAt(y, k) != Bits.BitAt(x, k)))
  }

  lemma AluIs(fun: int, x: Word, y: Word)
    requires 0 <= fun <= 3
    ensures AluResult(fun, x, y, ComputeAlu(AluOf(fun), x, y), ComputeCC(AluOf(fun), x, y))
  {
    AluRange(x, y);
    OverflowExact(x, y);
    WrapWraps(x + y);
    WrapWraps(y - x);
    hide Wrap, Wraps, Bits.And, Bits.Xor;
    forall k: nat
      ensures Bits.BitAt(Bits.And(x, y), k) == (Bits.BitAt(y, k) && Bits.BitAt(x, k))
      ensures Bits.BitAt(Bits.Xor(x, y), k) == (Bits.BitAt(y, k) != Bits.BitAt(x, k))
    {
      Bits.AndBits(x, y, k);
      Bits.XorBits(x, y, k);
    }
  }

  /** addq, subq, andq and xorq change their second register and the flags. */
  lemma AluEffect(s: Machine, fun: int, ra: int, rb: int, next: Word)
    requires Fetches(s, Whole(6, fun, ra, rb, 0, next)) && 0 <= fun <= 3 && 0 <= ra < 15 && 0 <= rb < 15
    ensures var (s', st) := Step(s);
            && st == STAT_AOK && s'.pc == next && s'.mem == s.mem && |s'.regs| == 15
            && s'.regs == s.regs[rb := s'.regs[rb]]
            && AluResult(fun, s.regs[ra], s.regs[rb], s'.regs[rb], s'.cc)
  {
    AluIs(fun, s.regs[ra], s.regs[rb]);
    hide ComputeAlu, ComputeCC, AluOf, AluResult, Decode;
  }

  /** iaddq adds its constant. */
  lemma IaddqEffect(s: Machine, rb: int, val: Word, next: Word)
    requires Fetches(s, Whole(12, 0, 15, rb, val, next)) && 0 <= rb < 15
    ensures var (s', st) := Step(s);
            && st == STAT_AOK && s'.pc == next && s'.mem == s.mem && |s'.regs| == 15
            && s'.regs == s.regs[rb := s'.regs[rb]]
            && AluResult(0, val, s.regs[rb], s'.regs[rb], s'.cc)
  {
    AluIs(0, val, s.regs[rb]);
    hide ComputeCC, AluResult, Decode;
  }

  // ---------------------------------------------------------------- conditions

  /** The comparison a jump or a conditional move stands for, after subq of x from y. */
  predicate Holds(fun: int, y: int, x: int) {
    match fun
    case 0 => true
    case 1 => y <= x
    case 2 => y < x
    case 3 => y == x
    case 4 => y != x
    case 5 => y >= x
    case 6 => y > x
    case _ => false
  }

  lemma FlagsTell(fun: int, x: Word, y: Word)
    requires 0 <= fun <= 6
    ensures CondHolds(ComputeCC(A_SUB, x, y), CondOf(fun)) == Holds(fun, y, x)
  {
    SubConditions(x, y, CondOf(fun));
    hide ComputeCC, CondHolds;
  }

  /** The flags subq leaves are the only ones its result allows. */
  lemma SubFlags(x: Word, y: Word, v: Word, cc: CC)
    requires AluResult(1, x, y, v, cc)
    ensures cc == ComputeCC(A_SUB, x, y)
  {
    AluIs(1, x, y);
    WrapsOnce(v, ComputeAlu(A_SUB, x, y), y - x);
    hide Wraps, ComputeAlu;
  }

  /** A jump on the flags of a subq goes to its destination exactly if the comparison it is named for holds. */
  lemma JumpEffect(s: Machine, fun: int, dest: Word, next: Word, x: Word, y: Word, v: Word)
    requires Fetches(s, Whole(7, fun, 15, 15, dest, next)) && 0 <= fun <= 6
    requires fun == 0 || AluResult(1, x, y, v, s.cc)
    ensures Step(s) == (s.(pc := if Holds(fun, y, x) then dest else next), STAT_AOK)
  {
    if fun != 0 {
      SubFlags(x, y, v, s.cc);
      FlagsTell(fun, x, y);
    }
    hide AluResult, ComputeCC, Decode;
  }

  /** rrmovq and the conditional moves likewise. */
  lemma MoveEffect(s: Machine, fun: int, ra: int, rb: int, next: Word, x: Word, y: Word, v: Word)
    requires Fetches(s, Whole(2, fun, ra, rb, 0, next)) && 0 <= fun <= 6 && 0 <= ra < 15 && 0 <= rb < 15
    requires fun == 0 || AluResult(1, x, y, v, s.cc)
    ensures Step(s) == (s.(pc := next, regs := if Holds(fun, y, x) then s.regs[rb := s.regs[ra]] else s.regs), STAT_AOK)
  {
    if fun != 0 {
      SubFlags(x, y, v, s.cc);
      FlagsTell(fun, x, y);
    }
    hide AluResult, ComputeCC, Decode;
  }

  // ---------------------------------------------------------------- data movement

  lemma IrmovqEffect(s: Machine, rb: int, val: Word, next: Word)
    requires Fetches(s, Whole(3, 0, 15, rb, val, next)) && 0 <= rb < 15
    ensures Step(s) == (s.(pc := next, regs := s.regs[rb := val]), STAT_AOK)
  {
    hide Decode;
  }

  /** The word at a is v, lowest byte first, and every byte outside it is as in m. */
  ghost predicate Stored(m: seq<Byte>, a: int, v: Word, m': seq<Byte>) {
    && |m'| == |m| && 0 <= a && a + 8 <= |m|
    && Wraps(v, FromBytes(m'[a..a + 8]))
    && forall p :: 0 <= p < |m| && !(a <= p < a + 8) ==> m'[p] == m[p]
  }

  lemma PutStores(m: seq<Byte>, a: int, v: Word)
    requires 0 <= a && a + 8 <= |m|
    ensures Stored(m, a, v, PutWord(m, a, v))
  {
    assert PutWord(m, a, v)[a..a + 8] == ToBytes(v, 8);
    FromToBytes(v, 8);
    Pow256Of8();
  }

  /** What is stored at a is what is loaded from there. */
  lemma StoredLoads(m: seq<Byte>, a: int, v: Word, m': seq<Byte>)
    requires Stored(m, a, v, m')
    ensures GetWord(m', a) == v
  {
    WrapWraps(FromBytes(m'[a..a + 8]));
    WrapsOnce(v, Wrap(FromBytes(m'[a..a + 8])), FromBytes(m'[a..a + 8]));
  }

  ghost predicate InRange(s: Machine, a: int) {
    0 <= a && a + 8 <= |s.mem|
  }

  /** The base register of a memory operand, or no base. */
  ghost function Base(s: Machine, r: int): Word
    requires WellFormed(s) && 0 <= r <= 15
  {
    if r == 15 then 0 else s.regs[r]
  }

  /** rmmovq stores its register at base plus displacement and changes no other byte; outside the memory it does
      nothing but fault. */
  lemma RmmovqEffect(s: Machine, ra: int, rb: int, disp: Word, next: Word, a: Word)
    requires Fetches(s, Whole(4, 0, ra, rb, disp, next)) && 0 <= ra < 15 && 0 <= rb <= 15 && Wraps(a, disp + Base(s, rb))
    ensures var (s', st) := Step(s);
            if InRange(s, a) then st == STAT_AOK && s' == s.(pc := next, mem := s'.mem) && Stored(s.mem, a, s.regs[ra], s'.mem)
            else st == STAT_ADR && s' == s
  {
    hide Wrap, Wraps, PutWord, Stored, Decode;
    WrapWraps(disp + Base(s, rb));
    WrapsOnce(a, Wrap(disp + Base(s, rb)), disp + Base(s, rb));
    if InRange(s, a) { PutStores(s.mem, a, s.regs[ra]); }
    assert Reg(s, rb) == Base(s, rb) && Reg(s, ra) == s.regs[ra];
  }

  /** mrmovq loads the word at base plus displacement. */
  lemma MrmovqEffect(s: Machine, ra: int, rb: int, disp: Word, next: Word, a: Word)
    requires Fetches(s, Whole(5, 0, ra, rb, disp, next)) && 0 <= ra < 15 && 0 <= rb <= 15 && Wraps(a, disp + Base(s, rb))
    ensures Step(s) == if InRange(s, a) then (s.(pc := next, regs := s.regs[ra := GetWord(s.mem, a)]), STAT_AOK) else (s, STAT_ADR)
  {
    WrapWraps(disp + Base(s, rb));
    WrapsOnce(a, Wrap(disp + Base(s, rb)), disp + Base(s, rb));
    hide Wrap, Wraps, GetWord, Decode;
  }

  lemma StoredSize(m: seq<Byte>, a: int, v: Word, m': seq<Byte>)
    requires Stored(m, a, v, m')
    ensures |m'| == |m| && 0 <= a && a + 8 <= |m|
  {
  }

  lemma BaseOf(s: Machine, s': Machine, r: int)
    requires WellFormed(s) && WellFormed(s') && s.regs == s'.regs && 0 <= r <= 15
    ensures Base(s, r) == Base(s', r)
  {
  }

  /** An mrmovq reads back what an rmmovq has stored at the same base and displacement. */
  lemma LoadAfterStore(s: Machine, ra: int, rb: int, disp: Word, next: Word, t: Machine, rd: int, next': Word)
    requires Fetches(s, Whole(4, 0, ra, rb, disp, next)) && 0 <= ra < 15 && 0 <= rb <= 15
    requires Step(s).1 == STAT_AOK && t.mem == Step(s).0.mem && t.regs == s.regs
    requires Fetches(t, Whole(5, 0, rd, rb, disp, next')) && 0 <= rd < 15
    ensures Step(t) == (t.(pc := next', regs := t.regs[rd := s.regs[ra]]), STAT_AOK)
  {
    hide Wrap, Wraps, GetWord, Decode, Stored, Step;
    var at := disp + Base(s, rb);
    var a := Wrap(at);
    WrapWraps(at);
    BaseOf(s, t, rb);
    hide Base;
    RmmovqEffect(s, ra, rb, disp, next, a);
    StoredSize(s.mem, a, s.regs[ra], t.mem);
    StoredLoads(s.mem, a, s.regs[ra], t.mem);
    assert InRange(t, a);
    MrmovqEffect(t, rd, rb, disp, next', a);
  }

  // ---------------------------------------------------------------- the stack

  ghost function Rsp(s: Machine): int
    requires WellFormed(s)
  {
    s.regs[4]
  }

  /** The word pushed by call or pushq; a fault has already moved %rsp. */
  ghost predicate Pushed(s: Machine, v: Word, s': Machine, st: Stat)
    requires WellFormed(s)
  {
    |s'.regs| == 15 && var sp := s'.regs[4];
    && s'.regs == s.regs[4 := sp] && Wraps(sp, Rsp(s) - 8) && s'.cc == s.cc
    && if InRange(s, sp) then st == STAT_AOK && Stored(s.mem, sp, v, s'.mem) else st == STAT_ADR && s'.mem == s.mem && s'.pc == s.pc
  }

  /** pushq stores the register as it was before %rsp moved. */
  lemma PushqEffect(s: Machine, ra: int, next: Word)
    requires Fetches(s, Whole(10, 0, ra, 15, 0, next)) && 0 <= ra < 15
    ensures var (s', st) := Step(s); Pushed(s, s.regs[ra], s', st) && (st == STAT_AOK ==> s'.pc == next)
  {
    hide Wrap, Wraps, PutWord, Stored, Decode;
    PushFacts(s, s.regs[ra]);
    var sp := Wrap(Rsp(s) - 8);
    assert SetReg(s, 4, sp) == s.(regs := s.regs[4 := sp]);
  }

  lemma CallEffect(s: Machine, dest: Word, next: Word)
    requires Fetches(s, Whole(8, 0, 15, 15, dest, next))
    ensures var (s', st) := Step(s); Pushed(s, next, s', st) && (st == STAT_AOK ==> s'.pc == dest)
  {
    hide Wrap, Wraps, PutWord, Stored, Decode;
    PushFacts(s, next);
    var sp := Wrap(Rsp(s) - 8);
    assert SetReg(s, 4, sp) == s.(regs := s.regs[4 := sp]);
  }

  lemma PushFacts(s: Machine, v: Word)
    requires WellFormed(s)
    ensures Wraps(Wrap(Rsp(s) - 8), Rsp(s) - 8)
    ensures InRange(s, Wrap(Rsp(s) - 8)) ==> Stored(s.mem, Wrap(Rsp(s) - 8), v, PutWord(s.mem, Wrap(Rsp(s) - 8), v))
  {
    WrapWraps(Rsp(s) - 8);
    if InRange(s, Wrap(Rsp(s) - 8)) { PutStores(s.mem, Wrap(Rsp(s) - 8), v); }
  }

  /** popq takes the word %rsp points to; popping %rsp itself leaves that word in it. */
  lemma PopqEffect(s: Machine, ra: int, next: Word, sp: Word)
    requires Fetches(s, Whole(11, 0, ra, 15, 0, next)) && 0 <= ra < 15 && Wraps(sp, Rsp(s) + 8)
    ensures Step(s) == if InRange(s, s.regs[4])
                       then (s.(pc := next, regs := s.regs[4 := sp][ra := GetWord(s.mem, s.regs[4])]), STAT_AOK)
                       else (s.(regs := s.regs[4 := sp]), STAT_ADR)
  {
    WrapWraps(Rsp(s) + 8);
    WrapsOnce(sp, Wrap(Rsp(s) + 8), Rsp(s) + 8);
    hide Wrap, Wraps, GetWord, Decode;
  }

  lemma RetEffect(s: Machine, next: Word, sp: Word)
    requires Fetches(s, Whole(9, 0, 15, 15, 0, next)) && Wraps(sp, Rsp(s) + 8)
    ensures Step(s) == if InRange(s, s.regs[4])
                       then (s.(pc := GetWord(s.mem, s.regs[4]), regs := s.regs[4 := sp]), STAT_AOK)
                       else (s, STAT_ADR)
  {
    WrapWraps(Rsp(s) + 8);
    WrapsOnce(sp, Wrap(Rsp(s) + 8), Rsp(s) + 8);
    hide Wrap, Wraps, GetWord, Decode;
  }

  lemma HaltEffect(s: Machine, next: Word)
    requires Fetches(s, Whole(0, 0, 15, 15, 0, next))
    ensures Step(s) == (s, STAT_HLT)
  {
    hide Decode;
  }

  lemma NopEffect(s: Machine, next: Word)
    requires Fetches(s, Whole(1, 0, 15, 15, 0, next))
    ensures Step(s) == (s.(pc := next), STAT_AOK)
  {
    hide Decode;
  }

  // ---------------------------------------------------------------- faults

  /** No such instruction, or one of its fields is unusable. */
  predicate Invalid(d: Decoded) {
    || d.icode > 12
    || (d.icode in {3, 4, 5, 12} && !d.okc)
    || (d.icode in {2, 4, 5, 10, 11} && d.hi1 == 15)
    || (d.icode in {2, 3, 12} && d.lo1 == 15)
  }

  /** The address of the word the instruction loads or stores, if it does. */
  ghost predicate Accesses(s: Machine, d: Decoded, a: Word)
    requires WellFormed(s)
  {
    || (d.icode in {4, 5} && 0 <= d.lo1 <= 15 && Wraps(a, d.cval + Base(s, d.lo1)))
    || (d.icode in {8, 10} && Wraps(a, Rsp(s) - 8))
    || (d.icode in {9, 11} && a == s.regs[4])
  }

  lemma AccessOnce(s: Machine, d: Decoded, a: Word)
    requires WellFormed(s) && Accesses(s, d, a)
    ensures d.icode in {4, 5} ==> 0 <= d.lo1 <= 15 && a == Wrap(d.cval + Reg(s, d.lo1))
    ensures d.icode in {8, 10} ==> a == Wrap(Rsp(s) - 8)
    ensures d.icode in {9, 11} ==> a == s.regs[4]
  {
    if d.icode in {4, 5} {
      WrapWraps(d.cval + Base(s, d.lo1));
      WrapsOnce(a, Wrap(d.cval + Base(s, d.lo1)), d.cval + Base(s, d.lo1));
    } else if d.icode in {8, 10} {
      WrapWraps(Rsp(s) - 8);
      WrapsOnce(a, Wrap(Rsp(s) - 8), Rsp(s) - 8);
    }
  }

  ghost predicate StatusIs(s: Machine, d: Decoded, a: Word, st: Stat) {
    && (st == STAT_HLT <==> d.icode == 0)
    && (st == STAT_INS <==> d.ok1 && Invalid(d))
    && (st == STAT_ADR <==> !d.ok1 || (d.icode in {7, 8} && !d.okc)
                            || (!Invalid(d) && d.icode in {4, 5, 8, 9, 10, 11} && !InRange(s, a)))
  }

  lemma ExecuteStatus(s: Machine, d: Decoded, a: Word)
    requires WellFormed(s) && 0 <= d.icode < 16 && 0 <= d.hi1 < 16 && 0 <= d.lo1 < 16 && (!NeedRegids(d.icode) ==> d.ok1)
    requires -0x8000_0000_0000_0000 <= d.ftpc < 0x8000_0000_0000_0000
    requires d.icode in {4, 5, 8, 9, 10, 11} ==> Accesses(s, d, a)
    ensures StatusIs(s, d, a, Execute(d, s).1)
  {
    if d.icode in {4, 5, 8, 9, 10, 11} { AccessOnce(s, d, a); }
    hide Wrap, Accesses, PutWord, GetWord, ComputeAlu, ComputeCC, CondHolds;
  }

  /** Which status a step ends with. */
  lemma StatusExactly(s: Machine, a: Word)
    requires WellFormed(s)
    requires 0 <= s.pc < |s.mem| && Decode(s.mem, s.pc).icode in {4, 5, 8, 9, 10, 11} ==> Accesses(s, Decode(s.mem, s.pc), a)
    ensures if 0 <= s.pc < |s.mem| then StatusIs(s, Decode(s.mem, s.pc), a, Step(s).1) else Step(s).1 == STAT_ADR
  {
    hide Execute, StatusIs, Accesses;
    if 0 <= s.pc < |s.mem| {
      DecodeRange(s.mem, s.pc);
      ExecuteStatus(s, Decode(s.mem, s.pc), a);
    }
  }

  lemma DecodeRange(m: seq<Byte>, pc: int)
    requires 0 <= pc < |m|
    ensures var d := Decode(m, pc); 0 <= d.icode < 16 && 0 <= d.fun < 16 && 0 <= d.hi1 < 16 && 0 <= d.lo1 < 16
    ensures var d := Decode(m, pc); !NeedRegids(d.icode) ==> d.ok1
  {
    hide GetWord;
  }

  /** A step that does not succeed changes nothing but %rsp, and that only when it was to push or pop. */
  lemma FaultKeeps(s: Machine)
    requires WellFormed(s)
    ensures var (s', st) := Step(s); st != STAT_AOK ==> s' == s.(regs := s'.regs) && |s'.regs| == 15
    ensures var (s', st) := Step(s); st != STAT_AOK ==> forall r :: 0 <= r < 15 && r != 4 ==> s'.regs[r] == s.regs[r]
  {
    hide Decode, Wrap, PutWord, GetWord, ComputeAlu, ComputeCC, CondHolds;
  }
}
