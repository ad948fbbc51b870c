/** The object listing the assembler prints and the simulator loads: print_code of
    labs/04-architecture/sim/misc/yas.c, load_mem of isa.c. */
module Y86Yo {
  import opened Y86Words
  import opened Y86Isa
  import opened Y86Asm

  function HexChar(h: int): char
    requires 0 <= h < 16
  {
    if h < 10 then '0' + (h as char) else 'a' + ((h - 10) as char)
  }

  /** The n low hex digits of v, highest first. */
  function Hex(v: int, n: nat): (s: string)
    ensures |s| == n
    decreases n
  {
    if n == 0 then "" else Hex(v / 16, n - 1) + [HexChar(v % 16)]
  }

  function HexBytes(bs: seq<Byte>): (s: string)
    ensures |s| == 2 * |bs|
  {
    if bs == [] then "" else HexBytes(bs[..|bs| - 1]) + Hex(bs[|bs| - 1], 2)
  }

  function Spaces(n: nat): (s: string)
    ensures |s| == n && forall i :: 0 <= i < n ==> s[i] == ' '
  {
    seq(n, _ => ' ')
  }

  /** The part of a listing line before the source text: "0xHHH: code | ", with four digits and no blank
      above 0xFFF. */
  function LineText(o: Out): string
    requires |o.bytes| <= 10
  {
    if o.blank then Spaces(if o.pos > 0xFFF then 29 else 28) + "| "
    else if o.pos > 0xFFF then "0x" + Hex(o.pos, 4) + ":" + HexBytes(o.bytes) + Spaces(22 - 2 * |o.bytes|) + "| "
    else "0x" + Hex(o.pos, 3) + ":" + (" " + HexBytes(o.bytes)) + Spaces(21 - 2 * |o.bytes|) + "| "
  }

  // ---------------------------------------------------------------- printing in place

  // hexstuff
  method HexStuff(dest: array<char>, off: nat, value: int, len: nat)
    requires off + len <= dest.Length
    modifies dest
    ensures dest[..] == old(dest[..])[..off] + Hex(value, len) + old(dest[..])[off + len..]
  {
    var i, v := 0, value;
    ghost var before := dest[..];
    hide HexChar, Hex;
    HexSplit(value, len);
    while i < len
      invariant 0 <= i <= len && Hex(value, len) == Hex(v, len - i) + Hex(value, len)[len - i..]
      invariant dest[..] == before[..off + len - i] + Hex(value, len)[len - i..] + before[off + len..]
    {
      HexLast(value, v, len, i);
      PutDigit(before, Hex(value, len), off, i);
      ghost var was := dest[..];
      dest[off + len - i - 1] := HexChar(v % 16);
      assert dest[..] == was[off + len - i - 1 := HexChar(v % 16)];
      v := v / 16;
      i := i + 1;
    }
  }

  lemma PutDigit(before: string, h: string, off: nat, i: nat)
    requires i < |h| && off + |h| <= |before|
    ensures var j := |h| - i;
            (before[..off + j] + h[j..] + before[off + |h|..])[off + j - 1 := h[j - 1]]
            == before[..off + j - 1] + h[j - 1..] + before[off + |h|..]
  {
    var j := |h| - i;
    assert before[..off + j][off + j - 1 := h[j - 1]] == before[..off + j - 1] + [h[j - 1]];
    assert h[j - 1..] == [h[j - 1]] + h[j..];
  }

  lemma HexSplit(v: int, n: nat)
    ensures Hex(v, n) == Hex(v, n) + Hex(v, n)[n..]
  {
  }

  lemma HexLast(value: int, v: int, len: nat, i: nat)
    requires i < len && Hex(value, len) == Hex(v, len - i) + Hex(value, len)[len - i..]
    ensures Hex(value, len) == Hex(v / 16, len - i - 1) + Hex(value, len)[len - i - 1..]
    ensures Hex(value, len)[len - i - 1] == HexChar(v % 16)
  {
    hide HexChar;
    assert Hex(v, len - i) == Hex(v / 16, len - i - 1) + [HexChar(v % 16)];
    var h := Hex(value, len);
    assert h[..len - i - 1] == Hex(v / 16, len - i - 1);
    assert h == h[..len - i - 1] + h[len - i - 1..];
  }

  lemma Splice<T>(a: seq<T>, k: nat, x: seq<T>, y: seq<T>)
    requires k + |x| + |y| <= |a|
    ensures var b := a[..k] + x + a[k + |x|..];
            b[..k + |x|] + y + b[k + |x| + |y|..] == a[..k] + (x + y) + a[k + |x| + |y|..]
  {
  }

  // the byte loop of print_code
  method PutBytes(outstring: array<char>, bytes: seq<Byte>)
    requires outstring.Length == 32 && |bytes| <= 10
    modifies outstring
    ensures outstring[..] == old(outstring[..])[..7] + HexBytes(bytes) + old(outstring[..])[7 + 2 * |bytes|..]
  {
    hide Hex, HexBytes;
    ghost var was := outstring[..];
    var i := 0;
    assert bytes[..0] == [] && HexBytes([]) == [] by {
      HexBytesNone();
    }
    while i < |bytes|
      invariant 0 <= i <= |bytes| && outstring[..] == was[..7] + HexBytes(bytes[..i]) + was[7 + 2 * i..]
    {
      HexBytesStep(bytes, i);
      Splice(was, 7, HexBytes(bytes[..i]), Hex(bytes[i], 2));
      HexStuff(outstring, 7 + 2 * i, bytes[i], 2);
      i := i + 1;
    }
    assert bytes[..i] == bytes;
  }

  lemma HexBytesNone()
    ensures HexBytes([]) == []
  {
  }

  // print_code
  method PrintLine(o: Out, inputLine: string) returns (s: string)
    requires |o.bytes| <= 10
    ensures s == LineText(o) + inputLine
  {
    hide Hex, HexBytes, Spaces;
    if o.blank {
      return Spaces(if o.pos > 0xFFF then 29 else 28) + "| " + inputLine;
    }
    var digits := if o.pos > 0xFFF then 4 else 3;
    var outstring := new char[32];
    Template(outstring, digits);
    ghost var a := outstring[..];
    HexStuff(outstring, 2, o.pos, digits);
    ghost var b := outstring[..];
    PutBytes(outstring, o.bytes);
    Laid(a, b, outstring[..], o, digits);
    s := outstring[..digits + 27] + inputLine;
  }

  ghost predicate Blanked(a: string, digits: nat) {
    && |a| == 32 && digits in {3, 4} && a[0] == '0' && a[1] == 'x' && a[2 + digits] == ':'
    && a[25 + digits] == '|' && a[26 + digits] == ' '
    && forall i :: 3 + digits <= i < 25 + digits ==> a[i] == ' '
  }

  lemma Spliced<T>(a: seq<T>, at: nat, x: seq<T>, b: seq<T>)
    requires at + |x| <= |a| && b == a[..at] + x + a[at + |x|..]
    ensures |b| == |a| && b[..at + |x|] == a[..at] + x && b[at + |x|..] == a[at + |x|..]
  {
  }

  lemma TakeMore<T>(s: seq<T>, i: nat, j: nat)
    requires i <= j <= |s|
    ensures s[..j] == s[..i] + s[i..j] && s[i..j] == s[i..][..j - i]
  {
  }

  /** The blanks of the template from k on, and its bar. */
  lemma Margin(a: string, digits: nat, k: nat)
    requires Blanked(a, digits) && 3 + digits <= k <= 25 + digits
    ensures a[k..27 + digits] == Spaces(25 + digits - k) + "| "
  {
    var x, y := a[k..27 + digits], Spaces(25 + digits - k) + "| ";
    forall i | 0 <= i < |x| ensures x[i] == y[i] {
      assert x[i] == a[k + i];
    }
  }

  lemma Laid(a: string, b: string, c: string, o: Out, digits: nat)
    requires Blanked(a, digits) && b == a[..2] + Hex(o.pos, digits) + a[2 + digits..] && |o.bytes| <= 10 && !o.blank
    requires c == b[..7] + HexBytes(o.bytes) + b[7 + 2 * |o.bytes|..] && digits == (if o.pos > 0xFFF then 4 else 3)
    ensures c[..digits + 27] == LineText(o)
  {
    hide Hex, HexBytes, Spaces;
    var n, h := 2 * |o.bytes|, Hex(o.pos, digits);
    Spliced(a, 2, h, b);
    Spliced(b, 7, HexBytes(o.bytes), c);
    assert a[..2] == "0x";
    TakeMore(b, 2 + digits, 7);
    TakeMore(a, 2 + digits, 7);
    assert a[2 + digits..7] == if digits == 3 then ": " else ":";
    assert b[..7] == "0x" + h + (if digits == 3 then ": " else ":");
    TakeMore(c, 7 + n, 27 + digits);
    TailsAgree(a, b, c, 2 + digits, 7 + n, 27 + digits);
    Margin(a, digits, 7 + n);
    LastPart(o, digits, c);
  }

  lemma TailsAgree(a: string, b: string, c: string, i: nat, j: nat, k: nat)
    requires |a| == |b| == |c| && i <= j <= k <= |a| && b[i..] == a[i..] && c[j..] == b[j..]
    ensures c[j..k] == a[j..k]
  {
    assert c[j..][..k - j] == c[j..k] && b[j..][..k - j] == b[j..k];
    assert b[i..][j - i..k - i] == b[j..k] && a[i..][j - i..k - i] == a[j..k];
  }

  lemma LastPart(o: Out, digits: nat, c: string)
    requires |o.bytes| <= 10 && !o.blank && digits == (if o.pos > 0xFFF then 4 else 3) && |c| == 32
    requires c[..digits + 27] == "0x" + Hex(o.pos, digits) + (if digits == 3 then ": " else ":") + HexBytes(o.bytes)
                                 + (Spaces(18 + digits - 2 * |o.bytes|) + "| ")
    ensures c[..digits + 27] == LineText(o)
  {
    hide Hex, HexBytes, Spaces;
  }

  // the strcpy of the blank listing line
  method Template(a: array<char>, digits: nat)
    requires a.Length == 32 && digits in {3, 4}
    modifies a
    ensures Blanked(a[..], digits)
  {
    forall i | 0 <= i < 32 {
      a[i] := ' ';
    }
    a[0], a[1], a[2 + digits], a[25 + digits] := '0', 'x', ':', '|';
  }

  lemma HexBytesStep(bs: seq<Byte>, i: nat)
    requires i < |bs|
    ensures HexBytes(bs[..i + 1]) == HexBytes(bs[..i]) + Hex(bs[i], 2)
  {
    assert bs[..i + 1][..i] == bs[..i];
  }

  // ---------------------------------------------------------------- reading a line back

  predicate IsSpace(c: char) {
    c == ' ' || c == '\t' || c == '\n' || c == 11 as char || c == 12 as char || c == '\r'
  }

  predicate IsXDigit(c: char) {
    '0' <= c <= '9' || 'a' <= c <= 'f' || 'A' <= c <= 'F'
  }

  // hex2dig
  function Hex2Dig(c: char): (d: int)
    requires IsXDigit(c)
    ensures 0 <= d < 16
  {
    if '0' <= c <= '9' then (c - '0') as int else if 'A' <= c <= 'Z' then (c - 'A') as int + 10 else (c - 'a') as int + 10
  }

  lemma HexCharReadBack(h: int)
    requires 0 <= h < 16
    ensures IsXDigit(HexChar(h)) && Hex2Dig(HexChar(h)) == h
  {
  }

  /** The character at i; the terminating NUL after the end. */
  function At(s: string, i: nat): char {
    if i < |s| then s[i] else 0 as char
  }

  function SkipSpace(s: string): (r: string)
    ensures |r| <= |s| && r == s[|s| - |r|..]
    ensures !IsSpace(At(r, 0))
  {
    if s != [] && IsSpace(s[0]) then SkipSpace(s[1..]) else s
  }

  /** The leading hex digits as a number, continuing acc, and the rest. */
  function HexRun(s: string, acc: int): (r: (int, string))
    ensures |r.1| <= |s|
    decreases |s|
  {
    if s != [] && IsXDigit(s[0]) then HexRun(s[1..], acc * 16 + Hex2Dig(s[0])) else (acc, s)
  }

  /** The leading pairs of hex digits as bytes. */
  function Pairs(s: string): seq<Byte> {
    if |s| >= 2 && IsXDigit(s[0]) && IsXDigit(s[1]) then [Hex2Dig(s[0]) * 16 + Hex2Dig(s[1])] + Pairs(s[2..]) else []
  }

  datatype Parsed = Skip | Bad | Data(addr: int, bytes: seq<Byte>)

  function ParseLine(buf: string): Parsed {
    var s := SkipSpace(buf);
    if At(s, 0) != '0' || (At(s, 1) != 'x' && At(s, 1) != 'X') then Skip
    else
      var run := HexRun(s[2..], 0);
      var colon := SkipSpace(run.1);
      if At(colon, 0) != ':' then Bad else Data(run.0, Pairs(SkipSpace(colon[1..])))
  }

  lemma {:induction false} SkipSpaces(n: nat, rest: string)
    requires !IsSpace(At(rest, 0))
    ensures SkipSpace(Spaces(n) + rest) == rest
  {
    if n == 0 {
      assert Spaces(0) + rest == rest;
    } else {
      var text := Spaces(n) + rest;
      assert text[0] == ' ' && text[1..] == Spaces(n - 1) + rest;
      SkipSpaces(n - 1, rest);
    }
  }

  /** acc followed by the n low hex digits of v. */
  function Shifted(acc: int, v: int, n: nat): int
    decreases n
  {
    if n == 0 then acc else Shifted(acc, v / 16, n - 1) * 16 + v % 16
  }

  lemma ShiftedValues(v: int)
    ensures Shifted(0, v, 3) == v % 0x1000 && Shifted(0, v, 4) == v % 0x1_0000
  {
    var a, b, c := v / 16, v / 16 / 16, v / 16 / 16 / 16;
    assert Shifted(0, c, 1) == Shifted(0, c / 16, 0) * 16 + c % 16 == c % 16;
    assert Shifted(0, b, 1) == Shifted(0, c, 0) * 16 + b % 16 == b % 16;
    assert Shifted(0, b, 2) == Shifted(0, c, 1) * 16 + b % 16;
    assert Shifted(0, a, 2) == Shifted(0, b, 1) * 16 + a % 16;
    assert Shifted(0, a, 3) == Shifted(0, b, 2) * 16 + a % 16;
    assert Shifted(0, v, 3) == Shifted(0, a, 2) * 16 + v % 16;
    assert Shifted(0, v, 4) == Shifted(0, a, 3) * 16 + v % 16;
    hide Shifted;
    ThreeDigits(v);
    ThreeDigits(a);
    FourDigits(v);
  }

  lemma ThreeDigits(v: int)
    ensures ((v / 16 / 16 % 16) * 16 + v / 16 % 16) * 16 + v % 16 == v % 0x1000
  {
  }

  lemma FourDigits(v: int)
    ensures (v / 16 % 0x1000) * 16 + v % 16 == v % 0x1_0000
  {
  }

  /** Reading back printed digits. */
  lemma {:induction false} HexRunHex(v: int, n: nat, acc: int, rest: string)
    ensures HexRun(Hex(v, n) + rest, acc) == HexRun(rest, Shifted(acc, v, n))
    decreases n
  {
    if n == 0 {
      assert Hex(v, 0) + rest == rest;
    } else {
      var c := HexChar(v % 16);
      HexCharReadBack(v % 16);
      HexRunHex(v / 16, n - 1, acc, [c] + rest);
      assert Hex(v, n) + rest == Hex(v / 16, n - 1) + ([c] + rest);
      assert ([c] + rest)[1..] == rest;
    }
  }

  lemma HexRunEnds(s: string, acc: int)
    requires !IsXDigit(At(s, 0))
    ensures HexRun(s, acc) == (acc, s)
  {
  }

  lemma TwoDigits(b: Byte)
    ensures var h := Hex(b, 2);
            IsXDigit(h[0]) && IsXDigit(h[1]) && Hex2Dig(h[0]) * 16 + Hex2Dig(h[1]) == b
    ensures !IsSpace(Hex(b, 2)[0])
  {
    var v: int := b;
    assert Hex(v / 16, 1) == Hex(v / 16 / 16, 0) + [HexChar(v / 16 % 16)];
    HexCharReadBack(v / 16 % 16);
    HexCharReadBack(v % 16);
  }

  lemma PairsStep(b: Byte, rest: string)
    ensures Pairs(Hex(b, 2) + rest) == [b] + Pairs(rest)
  {
    TwoDigits(b);
    var h := Hex(b, 2);
    assert (h + rest)[2..] == rest && (h + rest)[0] == h[0] && (h + rest)[1] == h[1];
    hide Hex, Hex2Dig, IsXDigit;
  }

  /** Reading back printed bytes gives the bytes. */
  lemma {:induction false} PairsHexBytes(bs: seq<Byte>, rest: string)
    ensures Pairs(HexBytes(bs) + rest) == bs + Pairs(rest)
    decreases |bs|
  {
    hide Hex, Pairs;
    if bs == [] {
      assert HexBytes(bs) + rest == rest;
    } else {
      var n := |bs| - 1;
      PairsStep(bs[n], rest);
      PairsHexBytes(bs[..n], Hex(bs[n], 2) + rest);
      assert HexBytes(bs) + rest == HexBytes(bs[..n]) + (Hex(bs[n], 2) + rest);
      assert bs == bs[..n] + [bs[n]];
      assert bs + Pairs(rest) == bs[..n] + ([bs[n]] + Pairs(rest));
    }
  }

  lemma ReadBlank(o: Out, source: string)
    requires |o.bytes| <= 10 && o.blank
    ensures ParseLine(LineText(o) + source) == Skip
  {
    hide SkipSpace;
    var n := if o.pos > 0xFFF then 29 else 28;
    SkipSpaces(n, "| " + source);
    assert LineText(o) + source == Spaces(n) + ("| " + source);
  }

  /** After the colon the loader finds the bytes and stops before the bar. */
  lemma ReadCode(bytes: seq<Byte>, before: nat, after: nat, rest: string)
    requires after > 0
    ensures Pairs(SkipSpace(Spaces(before) + (HexBytes(bytes) + (Spaces(after) + "| " + rest)))) == bytes
  {
    hide Hex, SkipSpace, Pairs;
    var gap := Spaces(after) + "| " + rest;
    assert gap[0] == ' ';
    if bytes == [] {
      HexBytesNone();
      assert Spaces(before) + (HexBytes(bytes) + gap) == Spaces(before + after) + ("| " + rest);
      SkipSpaces(before + after, "| " + rest);
      NoPairs("| " + rest);
    } else {
      HexBytesStart(bytes, gap);
      SkipSpaces(before, HexBytes(bytes) + gap);
      PairsHexBytes(bytes, gap);
      NoPairs(gap);
      assert bytes + [] == bytes;
    }
  }

  lemma ReadFilled(o: Out, source: string)
    requires |o.bytes| <= 10 && !o.blank
    ensures ParseLine(LineText(o) + source) == Data(Shifted(0, o.pos, if o.pos > 0xFFF then 4 else 3), o.bytes)
  {
    hide ParseLine, SkipSpace, Pairs, Hex, HexBytes, Spaces, Shifted;
    var n := if o.pos > 0xFFF then 4 else 3;
    var code := Spaces(4 - n) + (HexBytes(o.bytes) + (Spaces(18 + n - 2 * |o.bytes|) + "| " + source));
    LineShape(o, source, n);
    hide LineText;
    ReadCode(o.bytes, 4 - n, 18 + n - 2 * |o.bytes|, source);
    assert ":" + code == ":" + Spaces(4 - n) + (HexBytes(o.bytes) + (Spaces(18 + n - 2 * |o.bytes|) + "| " + source));
    ReadParts(o.pos, n, code, o.bytes);
  }

  /** Reading back a listing line: the bytes exactly, and the address as printed, which is the line's own
      exactly when it is not negative. */
  lemma ReadBack(o: Out, source: string)
    requires |o.bytes| <= 10 && o.pos <= 0xFFFF
    ensures o.blank ==> ParseLine(LineText(o) + source) == Skip
    ensures !o.blank ==> var p := ParseLine(LineText(o) + source);
                         p.Data? && p.bytes == o.bytes && (p.addr == o.pos <==> o.pos >= 0)
  {
    hide ParseLine, LineText, Shifted;
    if o.blank {
      ReadBlank(o, source);
    } else {
      ReadFilled(o, source);
      ShiftedValues(o.pos);
    }
  }

  lemma ReadParts(pos: int, n: nat, code: string, bytes: seq<Byte>)
    requires Pairs(SkipSpace(code)) == bytes
    ensures ParseLine("0x" + (Hex(pos, n) + (":" + code))) == Data(Shifted(0, pos, n), bytes)
  {
    hide HexRun, SkipSpace, Pairs, Hex, Shifted, ParseLine;
    var tail := ":" + code;
    ReadAddress(pos, n, tail);
    assert tail[1..] == code;
    ParseIs("0x" + (Hex(pos, n) + tail), Shifted(0, pos, n), tail);
  }

  lemma ParseIs(text: string, addr: int, tail: string)
    requires |text| >= 2 && SkipSpace(text) == text && text[0] == '0' && text[1] == 'x'
    requires HexRun(text[2..], 0) == (addr, tail) && tail != [] && tail[0] == ':' && SkipSpace(tail) == tail
    ensures ParseLine(text) == Data(addr, Pairs(SkipSpace(tail[1..])))
  {
    hide HexRun, SkipSpace, Pairs;
  }

  lemma ReadAddress(pos: int, n: nat, tail: string)
    requires tail != [] && tail[0] == ':'
    ensures var text := "0x" + (Hex(pos, n) + tail);
            && SkipSpace(text) == text && text[0] == '0' && text[1] == 'x'
            && HexRun(text[2..], 0) == (Shifted(0, pos, n), tail) && SkipSpace(tail) == tail
  {
    var text := "0x" + (Hex(pos, n) + tail);
    assert text[2..] == Hex(pos, n) + tail;
    HexRunHex(pos, n, 0, tail);
    HexRunEnds(tail, Shifted(0, pos, n));
  }

  lemma LineShape(o: Out, source: string, n: nat)
    requires |o.bytes| <= 10 && !o.blank && n == (if o.pos > 0xFFF then 4 else 3)
    ensures LineText(o) + source == "0x" + (Hex(o.pos, n) + (":" + Spaces(4 - n)
              + (HexBytes(o.bytes) + (Spaces(18 + n - 2 * |o.bytes|) + "| " + source))))
  {
    hide Hex, HexBytes;
    assert Spaces(1) == " " && Spaces(0) == "";
  }

  lemma NoPairs(s: string)
    requires !IsXDigit(At(s, 0))
    ensures Pairs(s) == []
  {
  }

  lemma HexBytesStart(bs: seq<Byte>, rest: string)
    requires bs != []
    ensures !IsSpace(At(HexBytes(bs) + rest, 0))
    decreases |bs|
  {
    var n := |bs| - 1;
    hide Hex, IsSpace;
    if n == 0 {
      TwoDigits(bs[0]);
      assert bs[..0] == [];
      assert HexBytes(bs) == [] + Hex(bs[0], 2);
      assert HexBytes(bs)[0] == Hex(bs[0], 2)[0];
    } else {
      HexBytesStart(bs[..n], Hex(bs[n], 2) + rest);
      assert HexBytes(bs) + rest == HexBytes(bs[..n]) + (Hex(bs[n], 2) + rest);
    }
  }

  // ---------------------------------------------------------------- loading

  /** Bytes stored one after another until one falls outside the memory. */
  function StoreAt(m: seq<Byte>, a: nat, bs: seq<Byte>): (m': seq<Byte>)
    ensures |m'| == |m|
    decreases |bs|
  {
    if bs == [] || a >= |m| then m else StoreAt(m[a := bs[0]], a + 1, bs[1..])
  }

  lemma {:induction false} StoreFits(m: seq<Byte>, a: nat, bs: seq<Byte>)
    requires a + |bs| <= |m|
    ensures StoreAt(m, a, bs) == m[..a] + bs + m[a + |bs|..]
    decreases |bs|
  {
    if bs != [] {
      StoreFits(m[a := bs[0]], a + 1, bs[1..]);
      assert bs == [bs[0]] + bs[1..];
    }
  }

  datatype Header = NoAddress | NoColon | At0(addr: nat, code: nat)

  // the part of load_mem's loop body that reads the address of a line
  method ReadHeader(buf: string) returns (h: Header)
    ensures match h
            case NoAddress => ParseLine(buf) == Skip
            case NoColon => ParseLine(buf) == Bad
            case At0(addr, code) => code <= |buf| && ParseLine(buf) == Data(addr, Pairs(buf[code..]))
  {
    hide IsXDigit, Pairs, SkipSpace, HexRun, ParseLine, IsSpace, StoreAt, LineText;
    assert buf[0..] == buf;
    var start := SkipWhite(buf, 0);
    StartsAt(buf, start);
    if At(buf, start) != '0' || (At(buf, start + 1) != 'x' && At(buf, start + 1) != 'X') {
      return NoAddress;
    }
    var bytepos, afterHex := ReadHex(buf, start + 2);
    var colon := SkipWhite(buf, afterHex);
    GoesOnAt(buf, start, bytepos, afterHex, colon);
    if At(buf, colon) != ':' {
      return NoColon;
    }
    var code := SkipWhite(buf, colon + 1);
    h := At0(bytepos, code);
  }

  /** The number of bytes a line of a .yo file holds. */
  function LineBytes(buf: string): nat {
    var p := ParseLine(buf);
    if p.Data? then |p.bytes| else 0
  }

  // the body of load_mem's loop over lines
  method LoadLine(m: array<Byte>, buf: string) returns (ok: bool, count: nat)
    modifies m
    ensures match ParseLine(buf)
            case Skip => ok && m[..] == old(m[..])
            case Bad => !ok && m[..] == old(m[..])
            case Data(addr, bs) => addr >= 0 && m[..] == StoreAt(old(m[..]), addr, bs)
                                   && (ok <==> bs == [] || addr + |bs| <= m.Length)
    ensures ok ==> count == LineBytes(buf)
  {
    hide StoreAt, Pairs, ParseLine;
    var h := ReadHeader(buf);
    match h {
      case NoAddress => return true, 0;
      case NoColon => return false, 0;
      case At0(addr, code) => ok, count := ReadPairs(m, buf, code, addr);
    }
  }

  lemma StartsAt(buf: string, start: nat)
    requires start <= |buf| && buf[start..] == SkipSpace(buf)
    ensures At(buf, start) != '0' || (At(buf, start + 1) != 'x' && At(buf, start + 1) != 'X') ==> ParseLine(buf) == Skip
  {
    hide SkipSpace, HexRun, Pairs;
    AtSuffix(buf, start);
  }

  lemma GoesOnAt(buf: string, start: nat, bytepos: nat, afterHex: nat, colon: nat)
    requires start + 2 <= |buf| && buf[start..] == SkipSpace(buf)
    requires At(buf, start) == '0' && (At(buf, start + 1) == 'x' || At(buf, start + 1) == 'X')
    requires afterHex <= |buf| && HexRun(buf[start + 2..], 0) == (bytepos, buf[afterHex..])
    requires colon <= |buf| && buf[colon..] == SkipSpace(buf[afterHex..])
    ensures ParseLine(buf) == if At(buf, colon) != ':' then Bad else Data(bytepos, Pairs(SkipSpace(buf[colon + 1..])))
  {
    hide SkipSpace, HexRun, Pairs;
    AtSuffix(buf, start);
    AtSuffix(buf, colon);
  }

  lemma AtSuffix(buf: string, i: nat)
    requires i <= |buf|
    ensures At(buf[i..], 0) == At(buf, i) && At(buf[i..], 1) == At(buf, i + 1)
    ensures i + 2 <= |buf| ==> buf[i..][2..] == buf[i + 2..]
    ensures i < |buf| ==> buf[i..][1..] == buf[i + 1..]
  {
  }

  method SkipWhite(buf: string, start: nat) returns (cpos: nat)
    requires start <= |buf|
    ensures cpos <= |buf| && buf[cpos..] == SkipSpace(buf[start..])
  {
    cpos := start;
    while cpos < |buf| && IsSpace(buf[cpos])
      invariant start <= cpos <= |buf| && SkipSpace(buf[cpos..]) == SkipSpace(buf[start..])
    {
      assert buf[cpos..][1..] == buf[cpos + 1..];
      cpos := cpos + 1;
    }
  }

  method ReadHex(buf: string, start: nat) returns (bytepos: nat, cpos: nat)
    requires start <= |buf|
    ensures cpos <= |buf| && HexRun(buf[start..], 0) == (bytepos, buf[cpos..])
  {
    bytepos, cpos := 0, start;
    while cpos < |buf| && IsXDigit(buf[cpos])
      invariant start <= cpos <= |buf| && HexRun(buf[cpos..], bytepos) == HexRun(buf[start..], 0)
    {
      assert buf[cpos..][1..] == buf[cpos + 1..];
      bytepos := bytepos * 16 + Hex2Dig(buf[cpos]);
      cpos := cpos + 1;
    }
  }

  method ReadPairs(m: array<Byte>, buf: string, start: nat, addr: nat) returns (ok: bool, count: nat)
    requires start <= |buf|
    modifies m
    ensures m[..] == StoreAt(old(m[..]), addr, Pairs(buf[start..]))
    ensures ok <==> Pairs(buf[start..]) == [] || addr + |Pairs(buf[start..])| <= m.Length
    ensures ok ==> count == |Pairs(buf[start..])|
  {
    ghost var before, all := m[..], Pairs(buf[start..]);
    var cpos, bytepos := start, addr;
    count := 0;
    while cpos + 1 < |buf| && IsXDigit(buf[cpos]) && IsXDigit(buf[cpos + 1])
      invariant start <= cpos <= |buf| && bytepos == addr + count && count <= |all| && all[count..] == Pairs(buf[cpos..])
      invariant StoreAt(m[..], bytepos, Pairs(buf[cpos..])) == StoreAt(before, addr, all)
      invariant count > 0 ==> bytepos <= m.Length
    {
      assert buf[cpos..][2..] == buf[cpos + 2..];
      assert buf[cpos..][0] == buf[cpos] && buf[cpos..][1] == buf[cpos + 1];
      ghost var rest := Pairs(buf[cpos..]);
      if bytepos >= m.Length {
        assert |all| == count + |rest| && rest != [];
        return false, count;
      }
      ghost var was := m[..];
      m[bytepos] := Hex2Dig(buf[cpos]) * 16 + Hex2Dig(buf[cpos + 1]);
      assert rest == [m[bytepos]] + Pairs(buf[cpos + 2..]) && rest[1..] == Pairs(buf[cpos + 2..]);
      assert m[..] == was[bytepos := rest[0]];
      assert all[count + 1..] == all[count..][1..];
      bytepos, cpos, count := bytepos + 1, cpos + 2, count + 1;
    }
    ok := true;
  }

  /** The memory after the loader has read these lines, and whether it accepted them all. */
  function Loaded(m: seq<Byte>, texts: seq<string>, n: nat): (r: (bool, seq<Byte>))
    requires n <= |texts|
    ensures |r.1| == |m|
  {
    if n == 0 then (true, m)
    else
      var before := Loaded(m, texts, n - 1);
      if !before.0 then before
      else
        match ParseLine(texts[n - 1])
        case Skip => before
        case Bad => (false, before.1)
        case Data(addr, bs) =>
          if addr < 0 then (false, before.1)
          else (bs == [] || addr + |bs| <= |m|, StoreAt(before.1, addr, bs))
  }

  function BytesIn(texts: seq<string>, n: nat): nat
    requires n <= |texts|
  {
    if n == 0 then 0 else BytesIn(texts, n - 1) + LineBytes(texts[n - 1])
  }

  // load_mem: the number of bytes stored, or 0 when a line is refused
  method LoadMem(m: array<Byte>, texts: seq<string>) returns (ok: bool, total: nat)
    modifies m
    ensures (ok, m[..]) == Loaded(old(m[..]), texts, |texts|)
    ensures total == if ok then BytesIn(texts, |texts|) else 0
  {
    hide ParseLine, StoreAt, LineBytes;
    var i := 0;
    ok, total := true, 0;
    while i < |texts|
      invariant 0 <= i <= |texts| && ok && (true, m[..]) == Loaded(old(m[..]), texts, i)
      invariant total == BytesIn(texts, i)
    {
      var fine, count := LoadLine(m, texts[i]);
      if !fine {
        LoadedStuck(old(m[..]), texts, i + 1, |texts|);
        return false, 0;
      }
      total := total + count;
      i := i + 1;
    }
  }

  lemma {:induction false} LoadedStuck(m: seq<Byte>, texts: seq<string>, i: nat, n: nat)
    requires i <= n <= |texts| && !Loaded(m, texts, i).0
    ensures Loaded(m, texts, n) == Loaded(m, texts, i)
  {
    hide ParseLine, StoreAt;
    if i < n {
      LoadedStuck(m, texts, i, n - 1);
    }
  }

  // ---------------------------------------------------------------- assembling, printing, loading

  predicate InMemory(o: Out, size: nat) {
    !o.blank ==> 0 <= o.pos <= 0xFFFF && |o.bytes| <= 10 && (o.bytes == [] || o.pos + |o.bytes| <= size)
  }

  /** A memory with the bytes of the first n listing lines put at their addresses, in order. */
  ghost function Image(m: seq<Byte>, outs: seq<Out>, n: nat): (m': seq<Byte>)
    requires n <= |outs| && AllInMemory(outs, |m|)
    ensures |m'| == |m|
  {
    if n == 0 then m
    else
      var before, o := Image(m, outs, n - 1), outs[n - 1];
      assert InMemory(o, |m|);
      if o.blank || o.bytes == [] then before else before[..o.pos] + o.bytes + before[o.pos + |o.bytes|..]
  }

  /** The number of bytes in the first n listing lines. */
  function EmittedBytes(outs: seq<Out>, n: nat): nat
    requires n <= |outs|
  {
    if n == 0 then 0 else EmittedBytes(outs, n - 1) + (if outs[n - 1].blank then 0 else |outs[n - 1].bytes|)
  }

  ghost predicate Printed(outs: seq<Out>, sources: seq<string>, texts: seq<string>) {
    && |outs| == |sources| == |texts|
    && forall i :: 0 <= i < |outs| ==> |outs[i].bytes| <= 10 && texts[i] == LineText(outs[i]) + sources[i]
  }

  ghost predicate AllInMemory(outs: seq<Out>, size: nat) {
    forall o :: o in outs ==> InMemory(o, size)
  }

  /** Loading the printed listing, whatever the source text beside it, stores exactly the emitted bytes at
      the emitted addresses. */
  lemma {:induction false} LoadPrinted(m: seq<Byte>, outs: seq<Out>, sources: seq<string>, texts: seq<string>, n: nat)
    requires n <= |outs| && Printed(outs, sources, texts) && AllInMemory(outs, |m|)
    ensures Loaded(m, texts, n) == (true, Image(m, outs, n)) && BytesIn(texts, n) == EmittedBytes(outs, n)
  {
    hide LineText, InMemory, ParseLine, StoreAt;
    if n > 0 {
      LoadPrinted(m, outs, sources, texts, n - 1);
      assert InMemory(outs[n - 1], |m|);
      LoadOne(Image(m, outs, n - 1), outs[n - 1], sources[n - 1]);
    }
  }

  lemma LoadOne(m: seq<Byte>, o: Out, source: string)
    requires InMemory(o, |m|) && |o.bytes| <= 10
    ensures var p := ParseLine(LineText(o) + source);
            if o.blank then p == Skip
            else && p == Data(o.pos, o.bytes) && 0 <= o.pos
                 && (if o.bytes == [] then StoreAt(m, o.pos, o.bytes) == m
                     else o.pos + |o.bytes| <= |m| && StoreAt(m, o.pos, o.bytes) == m[..o.pos] + o.bytes + m[o.pos + |o.bytes|..])
  {
    hide ParseLine, LineText, StoreAt;
    if o.blank {
      ReadBlank(o, source);
    } else {
      ReadBack(o, source);
      if o.bytes != [] {
        StoreFits(m, o.pos, o.bytes);
      } else {
        StoreNothing(m, o.pos);
      }
    }
  }

  lemma StoreNothing(m: seq<Byte>, a: nat)
    ensures StoreAt(m, a, []) == m
  {
  }

  ghost predicate Apart(a: Out, b: Out) {
    a.blank || b.blank || a.pos + |a.bytes| <= b.pos || b.pos + |b.bytes| <= a.pos
  }

  /** Bytes of a line stay in memory as long as no later line lies over them. */
  lemma {:induction false} ImageHolds(m: seq<Byte>, outs: seq<Out>, n: nat, i: nat)
    requires i < n <= |outs| && AllInMemory(outs, |m|) && !outs[i].blank && outs[i].bytes != []
    requires forall j :: i < j < n ==> Apart(outs[i], outs[j])
    ensures 0 <= outs[i].pos && outs[i].pos + |outs[i].bytes| <= |m|
    ensures Image(m, outs, n)[outs[i].pos..outs[i].pos + |outs[i].bytes|] == outs[i].bytes
  {
    var o := outs[i];
    assert InMemory(o, |m|);
    if i == n - 1 {
      var before := Image(m, outs, n - 1);
      assert Image(m, outs, n) == before[..o.pos] + o.bytes + before[o.pos + |o.bytes|..];
    } else {
      ImageHolds(m, outs, n - 1, i);
      var last, before := outs[n - 1], Image(m, outs, n - 1);
      assert InMemory(last, |m|) && Apart(o, last);
      assert forall k :: o.pos <= k < o.pos + |o.bytes| ==> Image(m, outs, n)[k] == before[k];
      assert Image(m, outs, n)[o.pos..o.pos + |o.bytes|] == before[o.pos..o.pos + |o.bytes|];
    }
  }

  lemma ListingShort(lines: seq<Line>, syms: Symbols, outs: seq<Out>, i: nat)
    requires Listing(lines, |lines|, syms, outs) && i < |lines|
    ensures |outs[i].bytes| <= 10
  {
    hide FormOf, Parse, Encode, Coherent, InstructionSet, AddrAt;
    var e, f := Emits(lines[i], AddrAt(lines, i), syms), FormOf(lines[i]);
    assert e == Some(outs[i]);
    if f.Insn? {
      FitsBoth(f.x);
    }
  }

  method PrintAll(outs: seq<Out>, sources: seq<string>) returns (texts: seq<string>)
    requires |sources| == |outs| && forall i :: 0 <= i < |outs| ==> |outs[i].bytes| <= 10
    ensures Printed(outs, sources, texts)
  {
    hide LineText;
    texts := [];
    var i := 0;
    while i < |outs|
      invariant 0 <= i <= |outs| && |texts| == i
      invariant forall j :: 0 <= j < i ==> texts[j] == LineText(outs[j]) + sources[j]
    {
      var text := PrintLine(outs[i], sources[i]);
      texts := texts + [text];
      i := i + 1;
    }
  }

  /** Assemble, print beside the source text, load: an accepted program whose lines lie in the simulator's memory
      is loaded as its image. */
  method AssembleAndLoad(yas: Assembler, lines: seq<Line>, sources: seq<string>, m: array<Byte>) 
    returns (ok: bool, loaded: bool, total: nat)
    requires yas.code.Length == 10 && yas.bytepos == 0 && yas.pass == 1 && yas.symbols == [] && yas.out == [] && !yas.hitError
    requires (forall i :: 0 <= i < |lines| ==> Lexed(lines[i])) && |sources| == |lines| && m != yas.code
    modifies yas, yas.code, m
    ensures ok <==> Accepted(lines)
    ensures ok ==> Listing(lines, |lines|, SymbolsAt(lines, |lines|), yas.out)
    ensures ok && AllInMemory(yas.out, m.Length) ==> loaded && m[..] == Image(old(m[..]), yas.out, |yas.out|)
    ensures ok && AllInMemory(yas.out, m.Length) ==> total == EmittedBytes(yas.out, |yas.out|)
  {
    hide LineText, Lexed, ParseLine, InMemory, SymbolsAt, Accepted, FormOf, Emits, AddrAt, Loaded, Image, AllInMemory, BytesIn, EmittedBytes;
    loaded, total := false, 0;
    ok := yas.Assemble(lines);
    if !ok {
      return;
    }
    ghost var syms := SymbolsAt(lines, |lines|);
    forall i | 0 <= i < |lines| ensures |yas.out[i].bytes| <= 10 {
      ListingShort(lines, syms, yas.out, i);
    }
    var texts := PrintAll(yas.out, sources);
    if AllInMemory(yas.out, m.Length) {
      LoadPrinted(m[..], yas.out, sources, texts, |yas.out|);
    }
    hide Printed, Listing, AllInMemory, Loaded, Image;
    loaded, total := LoadMem(m, texts);
  }

  /** From source to fetch: the simulator, given the loaded listing of an accepted program, fetches at the address
      of an instruction line the operation, registers and constant written there, and falls through past its bytes. */
  lemma FetchesWhatWasWritten(lines: seq<Line>, outs: seq<Out>, m: seq<Byte>, i: nat)
    requires i < |lines| && Accepted(lines) && Listing(lines, |lines|, SymbolsAt(lines, |lines|), outs)
    requires AllInMemory(outs, |m|) && FormOf(lines[i]).Insn?
    requires var x := FormOf(lines[i]).x; !IsData(x) && x.bytes > 0
    requires forall j :: i < j < |outs| ==> Apart(outs[i], outs[j])
    ensures var x := FormOf(lines[i]).x;
            var p := Parse(x, lines[i], FormOf(lines[i]).t, SymbolsAt(lines, |lines|));
            var regs, imm := NeedRegids(x.code / 16), NeedImm(x.code / 16);
            var mem, pc := Image(m, outs, |outs|), AddrAt(lines, i);
            && p.Some? && 0 <= pc < |mem|
            && Decode(mem, pc) == Decoded(x.code / 16, x.code % 16, if regs then p.value.ra else 15,
                                          if regs then p.value.rb else 15, if imm then Wrap(p.value.val) else 0,
                                          pc + x.bytes, true, true)
  {
    hide Parse, Encode, Coherent, Decode, Image, InstructionSet, SymbolsAt, AddrAt, Wrap;
    var syms, pc := SymbolsAt(lines, |lines|), AddrAt(lines, i);
    var e := Emits(lines[i], pc, syms);
    assert e == Some(outs[i]);
    var x := FormOf(lines[i]).x;
    EmitsInsn(lines[i], pc, syms);
    hide FormOf, Emits;
    ImageHolds(m, outs, |outs|, i);
    DecodeEncode(x, Parse(x, lines[i], FormOf(lines[i]).t, syms).value, Image(m, outs, |outs|), pc);
  }

  lemma EmitsInsn(l: Line, pos: int, syms: Symbols)
    requires FormOf(l).Insn? && Emits(l, pos, syms).Some?
    ensures var x := FormOf(l).x;
            var p := Parse(x, l, FormOf(l).t, syms);
            && p.Some? && RegsInRange(p.value) && Coherent(x) && x in InstructionSet()
            && Emits(l, pos, syms) == Some(Out(pos, Encode(x, p.value), false)) && |Encode(x, p.value)| == x.bytes
  {
    hide Parse, FormOf, Coherent, Encode, InstructionSet;
    ParseRange(FormOf(l).x, l, FormOf(l).t, syms);
  }

  /** A jump or call to a label is fetched with the address pass 2 reached at the first line defining that label. */
  lemma JumpsReachTheirLabel(lines: seq<Line>, outs: seq<Out>, m: seq<Byte>, i: nat, k: nat, name: string)
    requires i < |lines| && Accepted(lines) && Listing(lines, |lines|, SymbolsAt(lines, |lines|), outs)
    requires AllInMemory(outs, |m|) && FormOf(lines[i]).Insn?
    requires FormOf(lines[i]).x.arg1 == IArg(1, 8) && Tok(lines[i], FormOf(lines[i]).t) == TokIdent(name)
    requires forall j :: i < j < |outs| ==> Apart(outs[i], outs[j])
    requires k < |lines| && LabelOf(lines[k]) == Some(name) && forall j :: 0 <= j < k ==> LabelOf(lines[j]) != Some(name)
    ensures var mem, pc := Image(m, outs, |outs|), AddrAt(lines, i);
            0 <= pc < |mem| && Decode(mem, pc).cval == Wrap(AddrAt(lines, k))
  {
    hide Encode, Decode, Image, InstructionSet, SymbolsAt, AddrAt, Wrap, FormOf, AllInMemory, Listing, Accepted;
    var x, t, syms := FormOf(lines[i]).x, FormOf(lines[i]).t, SymbolsAt(lines, |lines|);
    LabelResolves(lines, |lines|, k, name);
    FetchesWhatWasWritten(lines, outs, m, i);
    assert ParseArg(x.arg1, lines[i], t, syms, NO_OPERANDS) == Some((NO_OPERANDS.(val := AddrAt(lines, k)), t + 1));
  }
}
