/** Bitwise operators of two's complement integers of any width. */
module Bits {

  function Abs(x: int): nat {
    if x < 0 then -x else x
  }

  function And(x: int, y: int): int
    decreases Abs(x) + Abs(y)
  {
    if x == 0 || y == 0 then 0
    else if x == -1 then y
    else if y == -1 then x
    else 2 * And(x / 2, y / 2) + (if x % 2 == 1 && y % 2 == 1 then 1 else 0)
  }

  function Not(x: int): int {
    -1 - x
  }

  function Or(x: int, y: int): int {
    Not(And(Not(x), Not(y)))
  }

  function Xor(x: int, y: int): int {
    Or(x, y) - And(x, y)
  }

  /** The defining recurrence, for every pair of operands. */
  lemma AndStep(x: int, y: int)
    ensures And(x, y) == 2 * And(x / 2, y / 2) + (if x % 2 == 1 && y % 2 == 1 then 1 else 0)
  {
    if x == 0 || y == 0 {
    } else if x == -1 {
      assert And(-1, y / 2) == y / 2;
    } else if y == -1 {
      assert And(x / 2, -1) == x / 2;
    }
  }

  function Truth(b: bool): int {
    if b then 1 else 0
  }

  function Pow2(n: nat): (r: int)
    ensures r >= 1
  {
    if n == 0 then 1 else 2 * Pow2(n - 1)
  }

  lemma {:induction false} Pow2Add(a: nat, b: nat)
    ensures Pow2(a + b) == Pow2(a) * Pow2(b)
  {
    if a != 0 {
      Pow2Add(a - 1, b);
    }
  }

  /** The and of two n-bit signed numbers is one. */
  lemma {:induction false} AndInRange(x: int, y: int, n: nat)
    requires -Pow2(n) <= x < Pow2(n) && -Pow2(n) <= y < Pow2(n)
    ensures -Pow2(n) <= And(x, y) < Pow2(n)
    ensures x >= 0 || y >= 0 ==> And(x, y) >= 0
    ensures x < 0 && y < 0 ==> And(x, y) < 0
    decreases n
  {
    if n != 0 && x != 0 && y != 0 && x != -1 && y != -1 {
      AndInRange(x / 2, y / 2, n - 1);
    }
  }

  /** The xor of two n-bit signed numbers is one. */
  lemma {:induction false} XorInRange(x: int, y: int, n: nat)
    requires -Pow2(n) <= x < Pow2(n) && -Pow2(n) <= y < Pow2(n)
    ensures -Pow2(n) <= Xor(x, y) < Pow2(n)
    decreases n
  {
    if n == 0 {
      assert x in {-1, 0} && y in {-1, 0};
    } else {
      XorInRange(x / 2, y / 2, n - 1);
      XorStep(x, y);
    }
  }

  lemma XorStep(x: int, y: int)
    ensures Xor(x, y) == 2 * Xor(x / 2, y / 2) + (if x % 2 != y % 2 then 1 else 0)
  {
    AndStep(x, y);
    AndStep(Not(x), Not(y));
    assert Not(x) / 2 == Not(x / 2) && Not(y) / 2 == Not(y / 2);
  }

  /** Bit k of an integer in two's complement. */
  predicate BitAt(x: int, k: nat)
    decreases k
  {
    if k == 0 then x % 2 == 1 else BitAt(x / 2, k - 1)
  }

  lemma {:induction false} AndBits(x: int, y: int, k: nat)
    ensures BitAt(And(x, y), k) <==> BitAt(x, k) && BitAt(y, k)
    decreases k
  {
    AndStep(x, y);
    var b := And(x / 2, y / 2);
    assert And(x, y) / 2 == b;
    if k > 0 {
      AndBits(x / 2, y / 2, k - 1);
    }
  }

  lemma {:induction false} XorBits(x: int, y: int, k: nat)
    ensures BitAt(Xor(x, y), k) <==> BitAt(x, k) != BitAt(y, k)
    decreases k
  {
    XorStep(x, y);
    var b := Xor(x / 2, y / 2);
    assert Xor(x, y) / 2 == b;
    if k > 0 {
      XorBits(x / 2, y / 2, k - 1);
    }
  }
}
