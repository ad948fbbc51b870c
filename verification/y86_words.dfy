/** 64-bit words, little-endian bytes and the arithmetic of the Y86-64 simulator
    (labs/04-architecture/sim/misc/isa.c). */
module Y86Words {
  import Bits

  const MIN64: int := -0x8000_0000_0000_0000
  const MAX64: int := 0x7FFF_FFFF_FFFF_FFFF

  /** word_t */
  type Word = w: int | -0x8000_0000_0000_0000 <= w < 0x8000_0000_0000_0000
  type Byte = b: int | 0 <= b < 256

  /** Two's complement wrap-around. */
  function Wrap(x: int): Word {
    (x + 0x8000_0000_0000_0000) % 0x1_0000_0000_0000_0000 - 0x8000_0000_0000_0000
  }

  lemma WrapId(x: int)
    requires -0x8000_0000_0000_0000 <= x < 0x8000_0000_0000_0000
    ensures Wrap(x) == x
  {
  }

  // ---------------------------------------------------------------- bytes of words

  /** The n low bytes of v, lowest first: (v >> 8 * i) & 0xFF. */
  function ToBytes(v: int, n: nat): (bs: seq<Byte>)
    ensures |bs| == n
    decreases n
  {
    if n == 0 then [] else [v % 256] + ToBytes(v / 256, n - 1)
  }

  lemma ToBytesStep(v: int, n: nat)
    ensures ToBytes(v, 0) == []
    ensures n > 0 ==> ToBytes(v, n) == [v % 256] + ToBytes(v / 256, n - 1)
  {
  }

  /** The unsigned value of bytes, lowest first. */
  function FromBytes(bs: seq<Byte>): int {
    if bs == [] then 0 else bs[0] + 256 * FromBytes(bs[1..])
  }

  lemma {:induction false} FromBytesAppend(bs: seq<Byte>, b: Byte)
    ensures FromBytes(bs + [b]) == FromBytes(bs) + Pow256(|bs|) * b
  {
    if bs == [] {
      assert [] + [b] == [b] && [b][1..] == [];
    } else {
      FromBytesAppend(bs[1..], b);
      assert (bs + [b])[1..] == bs[1..] + [b];
      assert 256 * (Pow256(|bs| - 1) * b) == Pow256(|bs|) * b;
    }
  }

  function Pow256(n: nat): int {
    if n == 0 then 1 else 256 * Pow256(n - 1)
  }

  lemma {:induction false} FromToBytes(v: int, n: nat)
    ensures exists k :: FromBytes(ToBytes(v, n)) == v + k * Pow256(n)
    ensures 0 <= FromBytes(ToBytes(v, n)) < Pow256(n)
    decreases n
  {
    if n == 0 {
      assert FromBytes([]) == v + (-v) * Pow256(0);
    } else {
      FromToBytes(v / 256, n - 1);
      var k :| FromBytes(ToBytes(v / 256, n - 1)) == v / 256 + k * Pow256(n - 1);
      var bs := ToBytes(v, n);
      assert bs[1..] == ToBytes(v / 256, n - 1);
      assert FromBytes(bs) == v % 256 + 256 * (v / 256 + k * Pow256(n - 1));
      assert 256 * (k * Pow256(n - 1)) == k * Pow256(n);
      assert FromBytes(bs) == v + k * Pow256(n);
    }
  }

  lemma Pow256Of8()
    ensures Pow256(8) == 0x1_0000_0000_0000_0000
  {
    assert Pow256(4) == 0x1_0000_0000;
    assert Pow256(6) == 0x1_0000_0000_0000;
  }

  /** The word eight bytes stand for. */
  function WordOf(bs: seq<Byte>): Word
    requires |bs| == 8
  {
    Wrap(FromBytes(bs))
  }

  /** Storing a word and loading it back gives the word. */
  lemma WordRoundTrip(v: Word)
    ensures WordOf(ToBytes(v, 8)) == v
  {
    FromToBytes(v, 8);
    Pow256Of8();
    var k :| FromBytes(ToBytes(v, 8)) == v + k * Pow256(8);
    assert k == if v >= 0 then 0 else 1;
  }

  // ---------------------------------------------------------------- ALU and condition codes

  datatype Alu = A_ADD | A_SUB | A_AND | A_XOR | A_NONE

  /** Condition codes: zero, sign, overflow. */
  datatype CC = CC(zf: bool, sf: bool, of: bool)

  lemma Pow2Of16()
    ensures Bits.Pow2(15) == 0x8000 && Bits.Pow2(16) == 0x1_0000
  {
    assert Bits.Pow2(3) == 8 && Bits.Pow2(4) == 16;
    hide Bits.Pow2;
    Bits.Pow2Add(4, 3);
    Bits.Pow2Add(4, 4);
    Bits.Pow2Add(8, 7);
    Bits.Pow2Add(8, 8);
  }

  lemma Pow2Of63()
    ensures Bits.Pow2(63) == 0x8000_0000_0000_0000
  {
    Pow2Of16();
    hide Bits.Pow2;
    Bits.Pow2Add(16, 15);
    Bits.Pow2Add(16, 16);
    Bits.Pow2Add(32, 31);
  }

  lemma AluRange(a: Word, b: Word)
    ensures -0x8000_0000_0000_0000 <= Bits.And(a, b) < 0x8000_0000_0000_0000
    ensures -0x8000_0000_0000_0000 <= Bits.Xor(a, b) < 0x8000_0000_0000_0000
  {
    Pow2Of63();
    hide Bits.Pow2, Bits.And, Bits.Xor;
    Bits.AndInRange(a, b, 63);
    Bits.XorInRange(a, b, 63);
  }

  // compute_alu
  function ComputeAlu(op: Alu, argA: Word, argB: Word): Word {
    AluRange(argA, argB);
    match op
    case A_ADD => Wrap(argA + argB)
    case A_SUB => Wrap(argB - argA)
    case A_AND => Bits.And(argA, argB)
    case A_XOR => Bits.Xor(argA, argB)
    case A_NONE => 0
  }

  // compute_cc
  function ComputeCC(op: Alu, argA: Word, argB: Word): CC {
    var val := ComputeAlu(op, argA, argB);
    var ovf := match op
      case A_ADD => (argA < 0) == (argB < 0) && (val < 0) != (argA < 0)
      case A_SUB => (argA > 0) == (argB < 0) && (val < 0) != (argB < 0)
      case _ => false;
    CC(val == 0, val < 0, ovf)
  }

  datatype Cond = C_YES | C_LE | C_L | C_E | C_NE | C_GE | C_G | C_BAD

  // cond_holds
  function CondHolds(cc: CC, c: Cond): bool {
    match c
    case C_YES => true
    case C_LE => (cc.sf != cc.of) || cc.zf
    case C_L => cc.sf != cc.of
    case C_E => cc.zf
    case C_NE => !cc.zf
    case C_GE => !(cc.sf != cc.of)
    case C_G => !(cc.sf != cc.of) && !cc.zf
    case C_BAD => false
  }

  /** The comparison each condition is named for. */
  function Relation(c: Cond, x: int, y: int): bool {
    match c
    case C_YES => true
    case C_LE => x <= y
    case C_L => x < y
    case C_E => x == y
    case C_NE => x != y
    case C_GE => x >= y
    case C_G => x > y
    case C_BAD => false
  }

  /** After subq every condition is the signed comparison of argB with argA. */
  lemma SubConditions(argA: Word, argB: Word, c: Cond)
    ensures CondHolds(ComputeCC(A_SUB, argA, argB), c) <==> Relation(c, argB, argA)
  {
    var d := argB - argA;
    assert Wrap(d) == if d > MAX64 then d - 0x1_0000_0000_0000_0000 else if d < MIN64 then d + 0x1_0000_0000_0000_0000 else d;
  }

  /** The overflow flag of addq and subq says exactly that the true result does not fit. */
  lemma OverflowExact(argA: Word, argB: Word)
    ensures ComputeCC(A_ADD, argA, argB).of <==> !(MIN64 <= argA + argB <= MAX64)
    ensures ComputeCC(A_SUB, argA, argB).of <==> !(MIN64 <= argB - argA <= MAX64)
  {
    var s, d := argA + argB, argB - argA;
    assert Wrap(s) == if s > MAX64 then s - 0x1_0000_0000_0000_0000 else if s < MIN64 then s + 0x1_0000_0000_0000_0000 else s;
    assert Wrap(d) == if d > MAX64 then d - 0x1_0000_0000_0000_0000 else if d < MIN64 then d + 0x1_0000_0000_0000_0000 else d;
  }
}
