/** The instruction-level simulator (labs/04-architecture/sim/misc/isa.c). */
module Y86Isa {
  import opened Y86Words

  datatype Stat = STAT_AOK | STAT_HLT | STAT_ADR | STAT_INS

  const REG_RSP: int := 4
  const REG_NONE: int := 15

  /** The fields of the instruction at pc, and whether its register byte and constant were readable. */
  datatype Decoded = Decoded(icode: int, fun: int, hi1: int, lo1: int, cval: Word, ftpc: int, ok1: bool, okc: bool)

  function GetWord(m: seq<Byte>, pos: int): Word
    requires 0 <= pos && pos + 8 <= |m|
  {
    WordOf(m[pos..pos + 8])
  }

  function PutWord(m: seq<Byte>, pos: int, v: Word): (m': seq<Byte>)
    requires 0 <= pos && pos + 8 <= |m|
    ensures |m'| == |m|
  {
    m[..pos] + ToBytes(v, 8) + m[pos + 8..]
  }

  /** m with the first i of the bytes bs stored from pos on. */
  function Overlay(m: seq<Byte>, pos: int, bs: seq<Byte>, i: int): (m': seq<Byte>)
    requires 0 <= i <= |bs| && 0 <= pos && pos + |bs| <= |m|
    ensures |m'| == |m|
  {
    m[..pos] + bs[..i] + m[pos + i..]
  }

  lemma OverlayStep(m: seq<Byte>, pos: int, bs: seq<Byte>, i: int)
    requires 0 <= i < |bs| && 0 <= pos && pos + |bs| <= |m|
    ensures Overlay(m, pos, bs, i)[pos + i := bs[i]] == Overlay(m, pos, bs, i + 1)
  {
  }

  lemma OverlayEnds(m: seq<Byte>, pos: int, v: Word)
    requires 0 <= pos && pos + 8 <= |m|
    ensures Overlay(m, pos, ToBytes(v, 8), 0) == m && Overlay(m, pos, ToBytes(v, 8), 8) == PutWord(m, pos, v)
    ensures ToBytes(v, 8)[0..] == ToBytes(v, 8)
  {
  }

  /** Loading back a stored word, and words stored elsewhere. */
  lemma GetPut(m: seq<Byte>, pos: int, v: Word, q: int)
    requires 0 <= pos && pos + 8 <= |m| && 0 <= q && q + 8 <= |m|
    ensures q == pos ==> GetWord(PutWord(m, pos, v), q) == v
    ensures q + 8 <= pos || pos + 8 <= q ==> GetWord(PutWord(m, pos, v), q) == GetWord(m, q)
  {
    var m' := PutWord(m, pos, v);
    if q == pos {
      assert m'[q..q + 8] == ToBytes(v, 8);
      WordRoundTrip(v);
    } else if q + 8 <= pos || pos + 8 <= q {
      assert m'[q..q + 8] == m[q..q + 8];
    }
  }

  predicate NeedRegids(icode: int) {
    icode == 2 || icode == 6 || icode == 10 || icode == 11 || icode == 3 || icode == 4 || icode == 5 || icode == 12
  }

  predicate NeedImm(icode: int) {
    icode == 3 || icode == 4 || icode == 5 || icode == 7 || icode == 8 || icode == 12
  }

  /** The fetch and decode part of step_state, at a readable pc. */
  function Decode(m: seq<Byte>, pc: int): Decoded
    requires 0 <= pc < |m|
  {
    var icode, fun := m[pc] / 16, m[pc] % 16;
    var p1 := pc + 1;
    var ok1 := NeedRegids(icode) ==> p1 < |m|;
    var byte1 := if NeedRegids(icode) && p1 < |m| then m[p1] else 0;
    var p2 := if NeedRegids(icode) then p1 + 1 else p1;
    var okc := NeedImm(icode) ==> p2 + 8 <= |m|;
    var cval := if NeedImm(icode) && p2 + 8 <= |m| then GetWord(m, p2) else 0;
    Decoded(icode, fun, if NeedRegids(icode) then byte1 / 16 else REG_NONE, if NeedRegids(icode) then byte1 % 16 else REG_NONE,
            cval, if NeedImm(icode) then p2 + 8 else p2, ok1, okc)
  }

  /** The machine as the architecture defines it: fifteen registers, byte memory, condition codes. */
  datatype Machine = Machine(pc: Word, regs: seq<Word>, mem: seq<Byte>, cc: CC)

  ghost predicate WellFormed(s: Machine) {
    |s.regs| == 15 && |s.mem| < 0x8000_0000
  }

  predicate RegValid(id: int) {
    0 <= id < REG_NONE
  }

  function Reg(s: Machine, id: int): Word {
    if RegValid(id) && id < |s.regs| then s.regs[id] else 0
  }

  function SetReg(s: Machine, id: int, v: Word): (s': Machine)
    ensures |s'.regs| == |s.regs| && s'.mem == s.mem
  {
    if RegValid(id) && id < |s.regs| then s.(regs := s.regs[id := v]) else s
  }

  predicate Mapped(s: Machine, a: int) {
    0 <= a && a + 8 <= |s.mem|
  }

  function AluOf(fun: int): Alu {
    if fun == 0 then A_ADD else if fun == 1 then A_SUB else if fun == 2 then A_AND else if fun == 3 then A_XOR else A_NONE
  }

  function CondOf(fun: int): Cond {
    if fun == 0 then C_YES else if fun == 1 then C_LE else if fun == 2 then C_L else if fun == 3 then C_E
    else if fun == 4 then C_NE else if fun == 5 then C_GE else if fun == 6 then C_G else C_BAD
  }

  ghost predicate FieldsOk(d: Decoded) {
    0 <= d.ftpc < 0x1_0000_0000 && d.icode >= 0 && d.fun >= 0 && d.hi1 >= 0 && d.lo1 >= 0
  }

  /** The effect of a decoded instruction. A faulting push, call or pop has already moved %rsp. */
  function Execute(d: Decoded, s: Machine): (Machine, Stat)
    requires -0x8000_0000_0000_0000 <= d.ftpc < 0x8000_0000_0000_0000
  {
    var next := s.(pc := d.ftpc);
    match d.icode
    case 0 => (s, STAT_HLT)
    case 1 => (next, STAT_AOK)
    case 2 =>
      if !d.ok1 then (s, STAT_ADR) else if !RegValid(d.hi1) || !RegValid(d.lo1) then (s, STAT_INS)
      else (if CondHolds(s.cc, CondOf(d.fun)) then SetReg(next, d.lo1, Reg(s, d.hi1)) else next, STAT_AOK)
    case 3 =>
      if !d.ok1 then (s, STAT_ADR) else if !d.okc || !RegValid(d.lo1) then (s, STAT_INS)
      else (SetReg(next, d.lo1, d.cval), STAT_AOK)
    case 4 =>
      if !d.ok1 then (s, STAT_ADR) else if !d.okc || !RegValid(d.hi1) then (s, STAT_INS)
      else
        var a := Wrap(d.cval + Reg(s, d.lo1));
        if !Mapped(s, a) then (s, STAT_ADR) else (next.(mem := PutWord(s.mem, a, Reg(s, d.hi1))), STAT_AOK)
    case 5 =>
      if !d.ok1 then (s, STAT_ADR) else if !d.okc || !RegValid(d.hi1) then (s, STAT_INS)
      else
        var a := Wrap(d.cval + Reg(s, d.lo1));
        if !Mapped(s, a) then (s, STAT_ADR) else (SetReg(next, d.hi1, GetWord(s.mem, a)), STAT_AOK)
    case 6 =>
      if !d.ok1 then (s, STAT_ADR)
      else
        var op, a, b := AluOf(d.fun), Reg(s, d.hi1), Reg(s, d.lo1);
        (SetReg(next, d.lo1, ComputeAlu(op, a, b)).(cc := ComputeCC(op, a, b)), STAT_AOK)
    case 7 =>
      if !d.okc then (s, STAT_ADR)
      else (if CondHolds(s.cc, CondOf(d.fun)) then s.(pc := d.cval) else next, STAT_AOK)
    case 8 =>
      if !d.okc then (s, STAT_ADR)
      else
        var sp := Wrap(Reg(s, REG_RSP) - 8);
        var s1 := SetReg(s, REG_RSP, sp);
        if !Mapped(s, sp) then (s1, STAT_ADR) else (s1.(mem := PutWord(s.mem, sp, d.ftpc), pc := d.cval), STAT_AOK)
    case 9 =>
      var sp := Reg(s, REG_RSP);
      if !Mapped(s, sp) then (s, STAT_ADR) else (SetReg(s, REG_RSP, Wrap(sp + 8)).(pc := GetWord(s.mem, sp)), STAT_AOK)
    case 10 =>
      if !d.ok1 then (s, STAT_ADR) else if !RegValid(d.hi1) then (s, STAT_INS)
      else
        var sp := Wrap(Reg(s, REG_RSP) - 8);
        var s1 := SetReg(s, REG_RSP, sp);
        if !Mapped(s, sp) then (s1, STAT_ADR)
        else (s1.(mem := PutWord(s.mem, sp, Reg(s, d.hi1)), pc := d.ftpc), STAT_AOK)
    case 11 =>
      if !d.ok1 then (s, STAT_ADR) else if !RegValid(d.hi1) then (s, STAT_INS)
      else
        var sp := Reg(s, REG_RSP);
        var s1 := SetReg(s, REG_RSP, Wrap(sp + 8));
        if !Mapped(s, sp) then (s1, STAT_ADR) else (SetReg(s1, d.hi1, GetWord(s.mem, sp)).(pc := d.ftpc), STAT_AOK)
    case 12 =>
      if !d.ok1 then (s, STAT_ADR) else if !d.okc || !RegValid(d.lo1) then (s, STAT_INS)
      else
        var b := Reg(s, d.lo1);
        (SetReg(next, d.lo1, Wrap(b + d.cval)).(cc := ComputeCC(A_ADD, d.cval, b)), STAT_AOK)
    case _ => (s, STAT_INS)
  }

  /** One step of the architecture. */
  function Step(s: Machine): (Machine, Stat)
    requires |s.mem| < 0x8000_0000
  {
    if 0 <= s.pc < |s.mem| then Execute(Decode(s.mem, s.pc), s) else (s, STAT_ADR)
  }

  // ---------------------------------------------------------------- what one instruction undoes

  /** A pushed register comes back with the matching pop, and %rsp is as before (unless the pop
      writes %rsp itself). */
  lemma PopUndoesPush(s: Machine, push: Decoded, pop: Decoded)
    requires WellFormed(s) && push.icode == 10 && pop.icode == 11 && push.ok1 && pop.ok1
    requires RegValid(push.hi1) && RegValid(pop.hi1) && 0 <= push.ftpc < 0x1_0000_0000 && 0 <= pop.ftpc < 0x1_0000_0000
    requires Execute(push, s).1 == STAT_AOK
    ensures var s1 := Execute(push, s).0;
            var (s2, st) := Execute(pop, s1);
            && st == STAT_AOK && s2.mem == s1.mem && s2.cc == s.cc
            && Reg(s2, pop.hi1) == Reg(s, push.hi1)
            && (forall r :: 0 <= r < 15 && r != pop.hi1 ==> Reg(s2, r) == Reg(s, r))
  {
    hide GetWord, PutWord, Wrap;
    var sp0: int := Reg(s, REG_RSP);
    var sp := Wrap(sp0 - 8);
    GetPut(s.mem, sp, Reg(s, push.hi1), sp);
    WrapBack(sp0);
  }

  lemma WrapBack(x: Word)
    ensures Wrap(Wrap(x - 8) + 8) == x
  {
  }

  /** ret goes back to the instruction after the call, and %rsp and every register are as before. */
  lemma RetUndoesCall(s: Machine, call: Decoded, ret: Decoded)
    requires WellFormed(s) && call.icode == 8 && ret.icode == 9 && 0 <= call.ftpc < 0x1_0000_0000 && 0 <= ret.ftpc < 0x1_0000_0000
    requires Execute(call, s).1 == STAT_AOK
    ensures var s1 := Execute(call, s).0;
            var (s2, st) := Execute(ret, s1);
            s1.pc == call.cval && st == STAT_AOK && s2.pc == call.ftpc && s2.regs == s.regs && s2.mem == s1.mem && s2.cc == s.cc
  {
    hide GetWord, PutWord, Wrap;
    var sp0: int := Reg(s, REG_RSP);
    GetPut(s.mem, Wrap(sp0 - 8), call.ftpc, Wrap(sp0 - 8));
    WrapBack(sp0);
  }

  // ---------------------------------------------------------------- the simulator's own state

  /** The register file as bytes, eight to a register, as mem_rec keeps it. */
  ghost function RegsOf(r: seq<Byte>): seq<Word>
    requires |r| == 128
  {
    seq(15, i requires 0 <= i < 15 => GetWord(r, 8 * i))
  }

  class State {
    var pc: Word
    const r: array<Byte>
    const m: array<Byte>
    var cc: CC

    ghost predicate Valid()
      reads this, r, m
    {
      r != m && r.Length == 128 && m.Length < 0x8000_0000
    }

    ghost function View(): Machine
      reads this, r, m
      requires Valid()
    {
      Machine(pc, RegsOf(r[..]), m[..], cc)
    }

    // get_word_val
    method GetWordVal(a: array<Byte>, pos: int) returns (ok: bool, v: Word)
      ensures ok <==> 0 <= pos && pos + 8 <= a.Length
      ensures ok ==> v == GetWord(a[..], pos)
    {
      ok, v := false, 0;
      if pos < 0 || pos + 8 > a.Length {
        return;
      }
      var i, val, weight: int := 0, 0, 1;
      while i < 8
        invariant 0 <= i <= 8 && val == FromBytes(a[pos..pos + i]) && weight == Pow256(i)
      {
        val := val + weight * a[pos + i];
        assert a[pos..pos + i + 1] == a[pos..pos + i] + [a[pos + i]];
        FromBytesAppend(a[pos..pos + i], a[pos + i]);
        weight := 256 * weight;
        i := i + 1;
      }
      return true, Wrap(val);
    }

    // set_word_val
    method SetWordVal(a: array<Byte>, pos: int, v: Word) returns (ok: bool)
      modifies a
      ensures ok <==> 0 <= pos && pos + 8 <= a.Length
      ensures a[..] == if ok then PutWord(old(a[..]), pos, v) else old(a[..])
    {
      if pos < 0 || pos + 8 > a.Length {
        return false;
      }
      hide ToBytes, Overlay;
      ghost var m0, bs := a[..], ToBytes(v, 8);
      OverlayEnds(m0, pos, v);
      var i, val := 0, v as int;
      while i < 8
        invariant 0 <= i <= 8 && bs[i..] == ToBytes(val, 8 - i) && a[..] == Overlay(m0, pos, bs, i)
      {
        ToBytesStep(val, 8 - i);
        OverlayStep(m0, pos, bs, i);
        ghost var m1 := a[..];
        a[pos + i] := val % 256;
        assert a[..] == m1[pos + i := val % 256];
        assert bs[i] == bs[i..][0] && bs[i + 1..] == bs[i..][1..];
        val := val / 256;
        i := i + 1;
      }
      ok := true;
    }

    // get_reg_val
    method GetRegVal(id: int) returns (v: Word)
      requires Valid() && id >= 0
      ensures v == Reg(View(), id)
    {
      if id >= REG_NONE {
        return 0;
      }
      var ok;
      ok, v := GetWordVal(r, 8 * id);
    }

    // set_reg_val
    method SetRegVal(id: int, v: Word)
      requires Valid() && id >= 0
      modifies r
      ensures Valid() && View() == SetReg(old(View()), id, v)
    {
      if id < REG_NONE {
        ghost var before := r[..];
        var ok := SetWordVal(r, 8 * id, v);
        RegsAfter(before, id, v);
      }
    }
  
    // The cases of step_state that move data between registers and memory.
    method StepMove(d: Decoded) returns (st: Stat)
      requires Valid() && d.icode in {2, 3, 4, 5} && FieldsOk(d)
      modifies this, r, m
      ensures Valid() && (View(), st) == Execute(d, old(View()))
    {
      hide GetWord, PutWord, RegsOf, Wrap, CondHolds;
      if !d.ok1 {
        return STAT_ADR;
      }
      if d.icode == 2 {
        if !RegValid(d.hi1) || !RegValid(d.lo1) {
          return STAT_INS;
        }
        var val := GetRegVal(d.hi1);
        if CondHolds(cc, CondOf(d.fun)) {
          SetRegVal(d.lo1, val);
        }
        pc := d.ftpc;
        return STAT_AOK;
      }
      if !d.okc {
        return STAT_INS;
      }
      if d.icode == 3 {
        if !RegValid(d.lo1) {
          return STAT_INS;
        }
        SetRegVal(d.lo1, d.cval);
        pc := d.ftpc;
        return STAT_AOK;
      }
      st := StepMemory(d);
    }

    method StepMemory(d: Decoded) returns (st: Stat)
      requires Valid() && d.icode in {4, 5} && d.ok1 && d.okc && FieldsOk(d)
      modifies this, r, m
      ensures Valid() && (View(), st) == Execute(d, old(View()))
    {
      hide GetWord, PutWord, RegsOf;
      if !RegValid(d.hi1) {
        return STAT_INS;
      }
      WrapId(d.cval);
      var base: int := 0;
      if RegValid(d.lo1) {
        base := GetRegVal(d.lo1);
      }
      var addr := Wrap(d.cval + base);
      hide Wrap;
      if d.icode == 4 {
        var val := GetRegVal(d.hi1);
        var ok := SetWordVal(m, addr, val);
        if !ok {
          return STAT_ADR;
        }
      } else {
        var ok, val := GetWordVal(m, addr);
        if !ok {
          return STAT_ADR;
        }
        SetRegVal(d.hi1, val);
      }
      pc := d.ftpc;
      st := STAT_AOK;
    }

    // The ALU cases.
    method StepAlu(d: Decoded) returns (st: Stat)
      requires Valid() && d.icode in {6, 12} && FieldsOk(d)
      modifies this, r, m
      ensures Valid() && (View(), st) == Execute(d, old(View()))
    {
      hide GetWord, PutWord, RegsOf, Wrap, ComputeAlu, ComputeCC;
      if !d.ok1 {
        return STAT_ADR;
      }
      if d.icode == 6 {
        var argA := GetRegVal(d.hi1);
        var argB := GetRegVal(d.lo1);
        SetRegVal(d.lo1, ComputeAlu(AluOf(d.fun), argA, argB));
        cc := ComputeCC(AluOf(d.fun), argA, argB);
      } else {
        if !d.okc || !RegValid(d.lo1) {
          return STAT_INS;
        }
        var argB := GetRegVal(d.lo1);
        SetRegVal(d.lo1, Wrap(argB + d.cval));
        cc := ComputeCC(A_ADD, d.cval, argB);
      }
      pc := d.ftpc;
      st := STAT_AOK;
    }

    // The cases that push: call and pushq move %rsp before they know whether the store succeeds.
    method StepPush(d: Decoded) returns (st: Stat)
      requires Valid() && d.icode in {8, 10} && FieldsOk(d)
      modifies this, r, m
      ensures Valid() && (View(), st) == Execute(d, old(View()))
    {
      hide GetWord, PutWord, RegsOf, Wrap;
      if (d.icode == 8 && !d.okc) || (d.icode == 10 && !d.ok1) {
        return STAT_ADR;
      }
      if d.icode == 10 && !RegValid(d.hi1) {
        return STAT_INS;
      }
      var val: Word := d.ftpc;
      if d.icode == 10 {
        val := GetRegVal(d.hi1);
      }
      var sp: int := 0;
      sp := GetRegVal(REG_RSP);
      var dval := Wrap(sp - 8);
      SetRegVal(REG_RSP, dval);
      var ok := SetWordVal(m, dval, val);
      if !ok {
        return STAT_ADR;
      }
      pc := if d.icode == 8 then d.cval else d.ftpc;
      st := STAT_AOK;
    }

    // The cases that pop.
    method StepPop(d: Decoded) returns (st: Stat)
      requires Valid() && d.icode in {9, 11} && FieldsOk(d)
      modifies this, r, m
      ensures Valid() && (View(), st) == Execute(d, old(View()))
    {
      hide GetWord, PutWord, RegsOf, Wrap;
      if d.icode == 11 && !d.ok1 {
        return STAT_ADR;
      }
      if d.icode == 11 && !RegValid(d.hi1) {
        return STAT_INS;
      }
      var dval: int := 0;
      dval := GetRegVal(REG_RSP);
      if d.icode == 11 {
        SetRegVal(REG_RSP, Wrap(dval + 8));
      }
      var ok, val := GetWordVal(m, dval);
      if !ok {
        return STAT_ADR;
      }
      if d.icode == 9 {
        SetRegVal(REG_RSP, Wrap(dval + 8));
        pc := val;
      } else {
        SetRegVal(d.hi1, val);
        pc := d.ftpc;
      }
      st := STAT_AOK;
    }

    // step_state: fetch, decode, execute
    method StepState() returns (st: Stat)
      requires Valid()
      modifies this, r, m
      ensures Valid() && (View(), st) == Step(old(View()))
    {
      hide Execute, RegsOf, GetWord;
      if pc < 0 || pc >= m.Length {
        return STAT_ADR;
      }
      var byte0 := m[pc];
      var icode, fun := byte0 / 16, byte0 % 16;
      var ftpc := pc as int + 1;
      var ok1, okc, hi1, lo1 := true, true, REG_NONE, REG_NONE;
      if NeedRegids(icode) {
        ok1 := ftpc < m.Length;
        var byte1: Byte := 0;
        if ok1 {
          byte1 := m[ftpc];
        }
        ftpc := ftpc + 1;
        hi1, lo1 := byte1 / 16, byte1 % 16;
      }
      var cval: Word := 0;
      if NeedImm(icode) {
        var v;
        okc, v := GetWordVal(m, ftpc);
        if okc {
          cval := v;
        }
        ftpc := ftpc + 8;
      }
      var d := Decoded(icode, fun, hi1, lo1, cval, ftpc, ok1, okc);
      assert d == Decode(m[..], pc);
      st := Dispatch(d);
    }

    method Dispatch(d: Decoded) returns (st: Stat)
      requires Valid() && FieldsOk(d) && (!NeedRegids(d.icode) ==> d.ok1)
      modifies this, r, m
      ensures Valid() && (View(), st) == Execute(d, old(View()))
    {
      hide GetWord, PutWord, RegsOf, Wrap, CondHolds, ComputeAlu, ComputeCC;
      if d.icode == 0 {
        return STAT_HLT;
      } else if d.icode == 1 {
        pc := d.ftpc;
        return STAT_AOK;
      } else if d.icode in {2, 3, 4, 5} {
        st := StepMove(d);
      } else if d.icode in {6, 12} {
        st := StepAlu(d);
      } else if d.icode == 7 {
        if !d.okc {
          return STAT_ADR;
        }
        pc := if CondHolds(cc, CondOf(d.fun)) then d.cval else d.ftpc;
        st := STAT_AOK;
      } else if d.icode in {8, 10} {
        st := StepPush(d);
      } else if d.icode in {9, 11} {
        st := StepPop(d);
      } else {
        st := STAT_INS;
      }
    }
  }

  /** Storing into one register's bytes sets that register. */
  lemma RegsAfter(r: seq<Byte>, id: int, v: Word)
    requires |r| == 128 && 0 <= id < 15
    ensures RegsOf(PutWord(r, 8 * id, v)) == RegsOf(r)[id := v]
  {
    forall i | 0 <= i < 15 ensures RegsOf(PutWord(r, 8 * id, v))[i] == RegsOf(r)[id := v][i] {
      GetPut(r, 8 * id, v, 8 * i);
    }
  }
}