/** Splitting an address by masks (labs/05-cache/params.c and cache.c). */
module CacheMasks {
  import opened Arith
  import opened Bits

  /** 64-bit addresses and masks. */
  type U64 = x: int | 0 <= x < 0x1_0000_0000_0000_0000

  /** s index bits and b offset bits; 1 << s is an int shift, and the index has to fit the address. */
  predicate Geometry(s: nat, b: nat) {
    s <= 30 && s + b <= 63
  }

  function Not64(x: int): int {
    0xFFFF_FFFF_FFFF_FFFF - x
  }

  /** x << k in 64 bits. */
  function Shl64(x: int, k: nat): int {
    x * Pow2(k) % 0x1_0000_0000_0000_0000
  }

  // setup_params
  function SetMask(s: nat, b: nat): int {
    Shl64(Pow2(s) - 1, b)
  }

  function TagMask(s: nat, b: nat): int {
    And(And(0xFFFF_FFFF_FFFF_FFFF, Not64(SetMask(s, b))), Shl64(0xFFFF_FFFF_FFFF_FFFF, b))
  }

  // the first two lines of access_cache
  function TagOf(s: nat, b: nat, addr: int): int {
    And(TagMask(s, b), addr) / 2
  }

  function SetOf(s: nat, b: nat, addr: int): int {
    And(SetMask(s, b), addr) / Pow2(b)
  }

  // ---------------------------------------------------------------- arithmetic

  lemma DivDiv(a: int, m: int, n: int)
    requires m > 0 && n > 0
    ensures m * n > 0 && a / (m * n) == a / m / n
  {
    var q, r := a / m, a % m;
    var p, t := q / n, q % n;
    assert a == m * (n * p + t) + r;
    Distribute(m, n, p, t);
    Below(m, n, t, r);
    DivUnique(a, m * n, p, m * t + r);
  }

  lemma Distribute(m: int, n: int, p: int, t: int)
    ensures m * (n * p + t) == (m * n) * p + m * t
  {
  }

  lemma Below(m: int, n: int, t: int, r: int)
    requires 0 <= t < n && 0 <= r < m
    ensures 0 <= m * t + r < m * n
  {
    MulMono(t, n - 1, m);
    MulMono(0, t, m);
    MinusOne(n, m);
  }

  lemma {:induction false} AndCommutes(x: int, y: int)
    ensures And(x, y) == And(y, x)
    decreases Abs(x) + Abs(y)
  {
    if x != 0 && y != 0 && x != -1 && y != -1 {
      AndCommutes(x / 2, y / 2);
    }
  }

  lemma {:induction false} Pow2Mono(a: nat, b: nat)
    requires a <= b
    ensures Pow2(a) <= Pow2(b)
  {
    if a < b {
      Pow2Mono(a, b - 1);
    }
  }

  lemma Halve(p: int)
    ensures 2 * p / 2 == p && 2 * p % 2 == 0
  {
  }

  lemma Doubled(p: int, m: int)
    ensures p * (2 * m) == 2 * (p * m)
  {
  }

  /** Shifting a mask left shifts what it selects. */
  lemma {:induction false} AndShifted(p: int, y: int, k: nat)
    ensures And(p * Pow2(k), y) == And(p, y / Pow2(k)) * Pow2(k)
    decreases k
  {
    if k == 0 {
      assert p * Pow2(0) == p && y / Pow2(0) == y;
    } else {
      var m := Pow2(k - 1);
      assert Pow2(k) == 2 * m;
      AndShifted(p, y / 2, k - 1);
      hide And, Pow2;
      AndStep(2 * (p * m), y);
      Doubled(p, m);
      Halve(p * m);
      DivDiv(y, 2, m);
      Doubled(And(p, y / 2 / m), m);
    }
  }

  lemma ModStep(y: int, m: int)
    requires m > 0
    ensures y % (2 * m) == 2 * (y / 2 % m) + y % 2
  {
    var q, r := y / 2, y % 2;
    var p, t := q / m, q % m;
    assert y == 2 * (m * p + t) + r;
    assert 2 * (m * p) == (2 * m) * p;
    DivUnique(y, 2 * m, p, 2 * t + r);
  }

  /** A mask of n ones selects the n low bits. */
  lemma {:induction false} AndLow(y: int, n: nat)
    ensures And(Pow2(n) - 1, y) == y % Pow2(n)
    decreases n
  {
    if n == 0 {
      assert And(0, y) == 0;
    } else {
      var m := Pow2(n - 1);
      AndStep(Pow2(n) - 1, y);
      assert (2 * m - 1) / 2 == m - 1 && (2 * m - 1) % 2 == 1;
      AndLow(y / 2, n - 1);
      ModStep(y, m);
    }
  }

  lemma Pow2Of64()
    ensures Pow2(64) == 0x1_0000_0000_0000_0000
  {
    assert Pow2(4) == 16;
    Pow2Add(4, 4);
    hide Pow2;
    Pow2Add(8, 8);
    Pow2Add(16, 16);
    Pow2Add(32, 32);
  }

  // ---------------------------------------------------------------- what the masks select

  /** Multiples of a power of two below 2^64. */
  lemma ShlFits(x: int, k: nat, j: nat)
    requires 0 <= x < Pow2(j) && j + k <= 64
    ensures Shl64(x, k) == x * Pow2(k)
  {
    Pow2Add(j, k);
    Pow2Mono(j + k, 64);
    Pow2Of64();
    var m, p := Pow2(k), Pow2(j);
    hide Pow2;
    MulMono(0, x, m);
    MulMono(x, p - 1, m);
    MinusOne(p, m);
    Below64(x * m, (p - 1) * m, m, p * m);
  }

  lemma Below64(xm: int, top: int, m: int, pm: int)
    requires 0 <= xm <= top && m > 0 && top == pm - m && pm <= 0x1_0000_0000_0000_0000
    ensures xm % 0x1_0000_0000_0000_0000 == xm
  {
  }

  lemma SetMaskValue(s: nat, b: nat)
    requires Geometry(s, b)
    ensures SetMask(s, b) == (Pow2(s) - 1) * Pow2(b)
  {
    ShlFits(Pow2(s) - 1, b, s);
  }

  /** The set index is the low s bits of the block number. */
  lemma SetOfValue(s: nat, b: nat, addr: int)
    requires Geometry(s, b)
    ensures SetOf(s, b, addr) == addr / Pow2(b) % Pow2(s) && 0 <= SetOf(s, b, addr) < Pow2(s)
  {
    SetMaskValue(s, b);
    AndShifted(Pow2(s) - 1, addr, b);
    AndLow(addr / Pow2(b), s);
    var q, m := addr / Pow2(b) % Pow2(s), Pow2(b);
    DivUnique(q * m, m, q, 0);
  }

  lemma AllOnesShifted(b: nat)
    requires b <= 63
    ensures Shl64(0xFFFF_FFFF_FFFF_FFFF, b) == (Pow2(64 - b) - 1) * Pow2(b)
  {
    Pow2Of64();
    Pow2Add(64 - b, b);
    var m, p := Pow2(b), Pow2(64 - b);
    assert 0xFFFF_FFFF_FFFF_FFFF == p * m - 1;
    assert (p * m - 1) * m == (p * m) * (m - 1) + (p - 1) * m;
    assert (p - 1) * m >= 0 && (p - 1) * m == p * m - m;
    DivUnique((p * m - 1) * m, p * m, m - 1, (p - 1) * m);
  }

  lemma TagMaskValue(s: nat, b: nat)
    requires Geometry(s, b)
    ensures TagMask(s, b) == (Pow2(64 - s - b) - 1) * Pow2(s + b)
  {
    Pow2Of64();
    Pow2Add(64 - s - b, s);
    Pow2Add(64 - b, b);
    Pow2Add(s, b);
    var m, n, p := Pow2(b), Pow2(s), Pow2(64 - s - b);
    hide Pow2;
    SetMaskValue(s, b);
    AllOnesShifted(b);
    hide SetMask, Shl64;
    var x := Not64(SetMask(s, b));
    TagParts(m, n, p, x);
    SelectAbove(x, b);
  }

  /** All ones, then the ones above the offset, and-ed with x. */
  lemma SelectAbove(x: int, b: nat)
    requires 0 <= x < 0x1_0000_0000_0000_0000 && b <= 63 && (x / Pow2(b)) % Pow2(64 - b) == x / Pow2(b)
    ensures And(And(0xFFFF_FFFF_FFFF_FFFF, x), (Pow2(64 - b) - 1) * Pow2(b)) == x / Pow2(b) * Pow2(b)
  {
    Pow2Of64();
    hide And, Pow2;
    AndLow(x, 64);
    AndCommutes(x, (Pow2(64 - b) - 1) * Pow2(b));
    AndShifted(Pow2(64 - b) - 1, x, b);
    AndLow(x / Pow2(b), 64 - b);
  }

  /** ~setmsk, its value, and what is above the offset bits. */
  lemma TagParts(m: int, n: int, p: int, x: int)
    requires m > 0 && n > 0 && p > 0 && (p * n) * m == 0x1_0000_0000_0000_0000 && x == 0xFFFF_FFFF_FFFF_FFFF - (n - 1) * m
    ensures 0 <= x < 0x1_0000_0000_0000_0000 && x / m == p * n - n && (x / m) % (p * n) == x / m
    ensures (p * n - n) * m == (p - 1) * (n * m)
  {
    assert (p - 1) * n >= 0 && (p - 1) * n == p * n - n;
    assert (p * n - n) * m == (p * n) * m - n * m;
    assert (n - 1) * m == n * m - m && n * m >= m;
    assert ((p - 1) * n) * m >= 0;
    DivUnique(x, m, p * n - n, m - 1);
    DivUnique(x / m, p * n, 0, x / m);
    assert ((p - 1) * n) * m == (p - 1) * (n * m);
  }

  /** The tag is the part of the address above the index, scaled, then halved. */
  lemma TagOfValue(s: nat, b: nat, addr: U64)
    requires Geometry(s, b)
    ensures TagOf(s, b, addr) == addr / Pow2(s + b) * Pow2(s + b) / 2
    ensures 0 <= TagOf(s, b, addr) < 0x8000_0000_0000_0000
  {
    TagMaskValue(s, b);
    var k, m := 64 - s - b, Pow2(s + b);
    AndShifted(Pow2(k) - 1, addr, s + b);
    AndLow(addr / m, k);
    Pow2Of64();
    Pow2Add(k, s + b);
    hide Pow2, And;
    HighPart(addr, m, Pow2(k));
    var high := addr / m * m;
    assert TagOf(s, b, addr) == high / 2;
  }

  lemma HighPart(a: int, m: int, p: int)
    requires m > 0 && p > 0 && 0 <= a < p * m
    ensures 0 <= a / m < p && (a / m) % p == a / m && 0 <= a / m * m <= a
  {
    var q := a / m;
    MulMono(p, q, m);
    MulMono(0, q, m);
    assert q * m <= a;
    DivUnique(q, p, 0, q);
  }

  /** With an index or offset bit, equal set and tag mean equal block. */
  lemma SameBlock(s: nat, b: nat, a: U64, c: U64)
    requires Geometry(s, b) && s + b >= 1
    ensures TagOf(s, b, a) == TagOf(s, b, c) && SetOf(s, b, a) == SetOf(s, b, c) <==> a / Pow2(b) == c / Pow2(b)
  {
    BlockParts(s, b, a);
    BlockParts(s, b, c);
    hide TagOf, SetOf, Pow2;
    SameParts(a / Pow2(b), c / Pow2(b), Pow2(s), Pow2(s + b - 1));
  }

  lemma SameParts(x: int, y: int, n: int, h: int)
    requires n > 0 && h > 0
    ensures x / n * h == y / n * h && x % n == y % n <==> x == y
  {
    var p, q := x / n, y / n;
    assert x == n * p + x % n && y == n * q + y % n;
    if p * h == q * h {
      assert h * (p - q) == 0;
      NotBetween(h, p - q);
    }
  }

  lemma BlockParts(s: nat, b: nat, a: U64)
    requires Geometry(s, b) && s + b >= 1
    ensures TagOf(s, b, a) == a / Pow2(b) / Pow2(s) * Pow2(s + b - 1)
    ensures SetOf(s, b, a) == a / Pow2(b) % Pow2(s)
  {
    SetOfValue(s, b, a);
    TagOfValue(s, b, a);
    Pow2Add(b, s);
    var h := Pow2(s + b - 1);
    assert Pow2(s + b) == 2 * h;
    hide Pow2, TagOf, SetOf;
    DivDiv(a, Pow2(b), Pow2(s));
    Scaled(a / Pow2(s + b), h);
  }

  lemma Scaled(q: int, h: int)
    ensures q * (2 * h) / 2 == q * h
  {
    Doubled(q, h);
    Halve(q * h);
  }

  /** Equal set and tag mean equal block for all addresses exactly when there is at least one index or offset bit:
      halving the tag drops its lowest bit when there is none. */
  lemma BlocksToldApartExactly(s: nat, b: nat)
    requires Geometry(s, b)
    ensures (forall a: U64, c: U64 :: TagOf(s, b, a) == TagOf(s, b, c) && SetOf(s, b, a) == SetOf(s, b, c)
               ==> a / Pow2(b) == c / Pow2(b))
            <==> s + b >= 1
  {
    if s + b >= 1 {
      forall a: U64, c: U64 | TagOf(s, b, a) == TagOf(s, b, c) && SetOf(s, b, a) == SetOf(s, b, c)
        ensures a / Pow2(b) == c / Pow2(b)
      {
        SameBlock(s, b, a, c);
      }
    } else {
      var a: U64, c: U64 := 0, 1;
      TagOfValue(0, 0, a);
      TagOfValue(0, 0, c);
      SetOfValue(0, 0, a);
      SetOfValue(0, 0, c);
      assert Pow2(0) == 1;
      assert TagOf(s, b, a) == TagOf(s, b, c) && SetOf(s, b, a) == SetOf(s, b, c) && a / Pow2(b) != c / Pow2(b);
    }
  }
}
