/** The listing line of the assembler, column by column. */
module Y86Columns {
  import opened Arith
  import opened Y86Isa
  import opened Y86Words
  import opened Y86Asm
  import opened Y86Yo

  const DIGITS := "0123456789abcdef"

  lemma HexDigit(h: int)
    requires 0 <= h < 16
    ensures HexChar(h) == DIGITS[h]
  {
  }

  function Pow16(n: nat): (p: int)
    ensures p >= 1
  {
    if n == 0 then 1 else 16 * Pow16(n - 1)
  }

  lemma DivPow(v: nat, n: nat)
    ensures v / 16 / Pow16(n) == v / Pow16(n + 1)
  {
    var q, r := v / 16, v % 16;
    var a, b := q / Pow16(n), q % Pow16(n);
    assert q == Pow16(n) * a + b;
    assert v == 16 * (Pow16(n) * a) + 16 * b + r;
    assert 16 * (Pow16(n) * a) == Pow16(n + 1) * a;
    DivUnique(v, Pow16(n + 1), a, 16 * b + r);
  }

  lemma {:induction false} HexAt(v: nat, n: nat, k: nat)
    requires k < n
    ensures Hex(v, n)[k] == DIGITS[v / Pow16(n - 1 - k) % 16]
    decreases n
  {
    if k == n - 1 {
      HexDigit(v % 16);
    } else {
      HexAt(v / 16, n - 1, k);
      DivPow(v, n - 2 - k);
    }
  }

  /** t is the number v in hex digits. */
  predicate NumberIn(t: string, v: nat) {
    forall k :: 0 <= k < |t| ==> t[k] == DIGITS[v / Pow16(|t| - 1 - k) % 16]
  }

  /** t is these bytes, two digits each. */
  predicate PairsIn(t: string, bs: seq<Byte>) {
    |t| == 2 * |bs| && forall k :: 0 <= k < |bs| ==> t[2 * k] == DIGITS[bs[k] / 16] && t[2 * k + 1] == DIGITS[bs[k] % 16]
  }

  lemma TwoHex(b: Byte)
    ensures Hex(b, 2)[0] == DIGITS[b / 16] && Hex(b, 2)[1] == DIGITS[b % 16]
  {
    HexNumber(b, 2);
    assert Pow16(0) == 1 && Pow16(1) == 16;
    hide Hex, Pow16;
    assert b / 16 % 16 == b / 16 && b / 1 == b;
  }

  lemma {:induction false} HexBytesAt(bs: seq<Byte>)
    ensures PairsIn(HexBytes(bs), bs)
    decreases |bs|
  {
    hide Hex;
    if bs != [] {
      var n := |bs| - 1;
      HexBytesAt(bs[..n]);
      TwoHex(bs[n]);
      assert HexBytes(bs) == HexBytes(bs[..n]) + Hex(bs[n], 2);
      forall k | 0 <= k < |bs|
        ensures HexBytes(bs)[2 * k] == DIGITS[bs[k] / 16] && HexBytes(bs)[2 * k + 1] == DIGITS[bs[k] % 16]
      {
        if k < n { assert bs[..n][k] == bs[k]; }
      }
    }
  }

  lemma HexNumber(v: nat, n: nat)
    ensures NumberIn(Hex(v, n), v)
  {
    hide Hex, Pow16;
    forall k | 0 <= k < n ensures Hex(v, n)[k] == DIGITS[v / Pow16(n - 1 - k) % 16] {
      HexAt(v, n, k);
    }
  }

  /** A listing line, column by column: the address in three or four lower-case hex digits, a colon, the bytes from
      column 7 on, blanks, and the bar. */
  lemma LineColumns(o: Out)
    requires |o.bytes| <= 10 && !o.blank && o.pos >= 0
    ensures var s, d, n := LineText(o), if o.pos > 0xFFF then 4 else 3, 2 * |o.bytes|;
            && |s| == 27 + d && s[..2] == "0x" && NumberIn(s[2..2 + d], o.pos) && s[2 + d..7] == (if d == 3 then ": " else ":")
            && PairsIn(s[7..7 + n], o.bytes) && s[7 + n..25 + d] == Spaces(18 + d - n) && s[25 + d..] == "| "
  {
    hide Hex, HexBytes, NumberIn, PairsIn, Spaces;
    var s, d, n := LineText(o), if o.pos > 0xFFF then 4 else 3, 2 * |o.bytes|;
    HexNumber(o.pos, d);
    HexBytesAt(o.bytes);
    var mid := if d == 3 then ": " else ":";
    assert s == "0x" + Hex(o.pos, d) + mid + HexBytes(o.bytes) + Spaces(18 + d - n) + "| ";
    hide LineText;
    Parts("0x", Hex(o.pos, d), mid, HexBytes(o.bytes), Spaces(18 + d - n), "| ");
  }

  lemma Parts(a: string, b: string, c: string, e: string, f: string, g: string)
    ensures var s, i, j, k, l := a + b + c + e + f + g, |a|, |a| + |b|, |a| + |b| + |c|, |a| + |b| + |c| + |e|;
            && s[..i] == a && s[i..j] == b && s[j..k] == c && s[k..l] == e && s[l..l + |f|] == f && s[l + |f|..] == g
  {
  }
}
