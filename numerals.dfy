/** The optional value used for lookups and parses that can fail. */
module Options {
  datatype Option<T> = None | Some(value: T)
}

/** Hexadecimal and binary numerals: reading a hex literal the way `int(s, 16)`
    does for plain digit strings, writing a number the way `hex` and `bin` do,
    and left-padding with zeros the way `str.zfill` does. */
module Numerals {
  import opened Options

  // ---------------------------------------------------------------- hex

  predicate IsHexDigit(c: char) {
    ('0' <= c <= '9') || ('a' <= c <= 'f') || ('A' <= c <= 'F')
  }

  function DigitValue(c: char): (v: nat)
    requires IsHexDigit(c)
    ensures v < 16
  {
    if '0' <= c <= '9' then c as int - '0' as int
    else if 'a' <= c <= 'f' then c as int - 'a' as int + 10
    else c as int - 'A' as int + 10
  }

  predicate AllHexDigits(s: string) {
    forall k :: 0 <= k < |s| ==> IsHexDigit(s[k])
  }

  /** A hex literal: one or more hex digits, either case. */
  predicate IsHex(s: string) {
    |s| > 0 && AllHexDigits(s)
  }

  /** The value of a string of hex digits, most significant first. */
  function HexValue(s: string): nat
    requires AllHexDigits(s)
  {
    if s == [] then 0 else 16 * HexValue(s[..|s| - 1]) + DigitValue(s[|s| - 1])
  }

  /** `int(s, 16)`, for inputs made of hex digits only: `None` where Python
      raises `ValueError`. */
  function ParseHex(s: string): (r: Option<nat>)
    ensures r.Some? <==> IsHex(s)
  {
    if IsHex(s) then Some(HexValue(s)) else None
  }

  function Pow16(n: nat): (p: nat)
    ensures p >= 1
  {
    if n == 0 then 1 else 16 * Pow16(n - 1)
  }

  /** A literal of `n` hex digits is below 16 to the `n`. */
  lemma {:induction false} HexValueBound(s: string)
    requires AllHexDigits(s)
    ensures HexValue(s) < Pow16(|s|)
  {
    if s != [] {
      HexValueBound(s[..|s| - 1]);
    }
  }

  /** A literal of at most two hex digits is a byte. */
  lemma HexByte(s: string)
    requires AllHexDigits(s) && |s| <= 2
    ensures HexValue(s) < 256
  {
    HexValueBound(s);
    assert Pow16(2) == 256;
    if |s| < 2 {
      assert Pow16(|s|) <= 16;
    }
  }

  /** The value of a two-digit literal, written out. */
  lemma HexValueTwoDigits(s: string)
    requires AllHexDigits(s) && |s| == 2
    ensures HexValue(s) == 16 * DigitValue(s[0]) + DigitValue(s[1])
  {
    var h := s[..1];
    assert h[..0] == [];
    assert HexValue(h) == DigitValue(s[0]);
    assert s[..|s| - 1] == h;
  }

  /** A lower-case hex digit for a value below 16. */
  function HexChar(d: nat): (c: char)
    requires d < 16
    ensures IsHexDigit(c) && DigitValue(c) == d
    ensures !('A' <= c <= 'Z')
  {
    if d < 10 then ('0' as int + d) as char else ('a' as int + d - 10) as char
  }

  /** `hex(n)` without its `0x` prefix: lower-case digits, `"0"` for zero. */
  function ToHex(n: nat): (r: string)
    ensures IsHex(r)
    ensures n < 16 ==> |r| == 1
  {
    if n < 16 then [HexChar(n)] else ToHex(n / 16) + [HexChar(n % 16)]
  }

  /** Reading back what `ToHex` writes gives the number. */
  lemma {:induction false} HexRoundTrip(n: nat)
    ensures HexValue(ToHex(n)) == n
  {
    var r := ToHex(n);
    if n >= 16 {
      HexRoundTrip(n / 16);
      assert r[..|r| - 1] == ToHex(n / 16);
    }
  }

  // ---------------------------------------------------------------- binary

  predicate IsBit(c: char) {
    c == '0' || c == '1'
  }

  predicate IsBits(s: string) {
    forall k :: 0 <= k < |s| ==> IsBit(s[k])
  }

  /** The value of a string of binary digits, most significant first. */
  function BitsValue(s: string): nat
    requires IsBits(s)
  {
    if s == [] then 0 else 2 * BitsValue(s[..|s| - 1]) + (if s[|s| - 1] == '1' then 1 else 0)
  }

  function Pow2(n: nat): (p: nat)
    ensures p >= 1
  {
    if n == 0 then 1 else 2 * Pow2(n - 1)
  }

  /** `bin(n)` without its `0b` prefix: no leading zeros, `"0"` for zero. */
  function Binary(n: nat): (r: string)
    ensures IsBits(r) && |r| >= 1
  {
    if n < 2 then [if n == 1 then '1' else '0']
    else Binary(n / 2) + [if n % 2 == 1 then '1' else '0']
  }

  /** `Binary` writes `n` in as few digits as it needs: it reads back as `n`,
      it has no leading zero, and its length is the bit length of `n`. */
  lemma BinaryFacts(n: nat)
    ensures BitsValue(Binary(n)) == n
    ensures n > 0 ==> Binary(n)[0] == '1'
    ensures n < Pow2(|Binary(n)|)
    ensures n > 0 ==> Pow2(|Binary(n)| - 1) <= n
  {
    BinaryReadsBack(n);
    BinaryLeadingOne(n);
    BinaryBitLength(n);
  }

  lemma {:induction false} BinaryReadsBack(n: nat)
    ensures BitsValue(Binary(n)) == n
  {
    var r := Binary(n);
    if n >= 2 {
      BinaryReadsBack(n / 2);
      assert r[..|r| - 1] == Binary(n / 2);
    }
  }

  lemma {:induction false} BinaryLeadingOne(n: nat)
    ensures n > 0 ==> Binary(n)[0] == '1'
  {
    if n >= 2 {
      BinaryLeadingOne(n / 2);
      assert Binary(n)[0] == Binary(n / 2)[0];
    }
  }

  lemma {:induction false} BinaryBitLength(n: nat)
    ensures n < Pow2(|Binary(n)|)
    ensures n > 0 ==> Pow2(|Binary(n)| - 1) <= n
  {
    if n >= 2 {
      BinaryBitLength(n / 2);
      assert |Binary(n)| == |Binary(n / 2)| + 1;
    }
  }

  /** `bin(n)` has at most eight digits exactly when `n` is a byte. */
  lemma BinaryLength(n: nat)
    ensures |Binary(n)| <= 8 <==> n < 256
  {
    BinaryFacts(n);
    assert Pow2(8) == 256;
    if |Binary(n)| <= 8 {
      Pow2Monotone(|Binary(n)|, 8);
    } else {
      Pow2Monotone(8, |Binary(n)| - 1);
    }
  }

  lemma {:induction false} Pow2Monotone(a: nat, b: nat)
    requires a <= b
    ensures Pow2(a) <= Pow2(b)
    decreases b
  {
    if a < b {
      Pow2Monotone(a, b - 1);
    }
  }

  function Zeros(n: nat): (z: string)
    ensures |z| == n && forall k :: 0 <= k < n ==> z[k] == '0'
  {
    seq(n, _ => '0')
  }

  /** `s.zfill(width)` for an unsigned digit string: left-pad with `0` up to
      `width`; never truncates. (Python keeps a leading sign in front of the
      padding; the strings padded here have none.) */
  function ZFill(s: string, width: nat): (r: string)
    ensures |r| == if |s| >= width then |s| else width
    ensures s <= r[|r| - |s|..] && forall k :: 0 <= k < |r| - |s| ==> r[k] == '0'
  {
    if |s| >= width then s else Zeros(width - |s|) + s
  }

  /** Leading zeros do not change the value of a binary numeral. */
  lemma {:induction false} BitsValueLeadingZeros(z: string, s: string)
    requires forall k :: 0 <= k < |z| ==> z[k] == '0'
    requires IsBits(s)
    ensures IsBits(z + s) && BitsValue(z + s) == BitsValue(s)
    decreases |s|
  {
    var t := z + s;
    if s == [] {
      assert t == z;
      BitsValueZeros(z);
    } else {
      assert t[..|t| - 1] == z + s[..|s| - 1];
      BitsValueLeadingZeros(z, s[..|s| - 1]);
    }
  }

  lemma {:induction false} BitsValueZeros(z: string)
    requires forall k :: 0 <= k < |z| ==> z[k] == '0'
    ensures IsBits(z) && BitsValue(z) == 0
  {
    if z != [] {
      BitsValueZeros(z[..|z| - 1]);
    }
  }

  /** One memory cell as the assembler writes it:
      `bin(n).replace('0b', '').zfill(8) + '\n'`. */
  function Cell(n: nat): string {
    ZFill(Binary(n), 8) + "\n"
  }

  /** A byte renders as exactly eight binary digits, whose value is the byte,
      then a newline. */
  lemma CellOfByte(n: nat)
    requires n < 256
    ensures |Cell(n)| == 9 && Cell(n)[8] == '\n'
    ensures IsBits(Cell(n)[..8]) && BitsValue(Cell(n)[..8]) == n
  {
    BinaryLength(n);
    BinaryFacts(n);
    var b := Binary(n);
    var z := Zeros(8 - |b|);
    assert Cell(n)[..8] == z + b;
    BitsValueLeadingZeros(z, b);
  }

  /** A value above a byte is not truncated: its cell is longer than nine
      characters. */
  lemma CellOfWideValue(n: nat)
    requires n >= 256
    ensures |Cell(n)| > 9
  {
    BinaryLength(n);
  }

  /** A nine-bit value renders as nine binary digits and a newline. */
  lemma NineBitCell(n: nat)
    requires 256 <= n < 512
    ensures |Cell(n)| == 10
  {
    BinaryLength(n);
    BinaryBitLength(n);
    assert Pow2(9) == 512;
    Pow2Order(|Binary(n)| - 1, 9);
  }

  /** Powers of two are ordered as their exponents. */
  lemma Pow2Order(a: nat, b: nat)
    requires Pow2(a) < Pow2(b)
    ensures a < b
  {
    if a >= b {
      Pow2Monotone(b, a);
    }
  }

  /** Bytes and their cells are in one-to-one correspondence. */
  lemma CellInjective(m: nat, n: nat)
    requires m < 256 && n < 256 && Cell(m) == Cell(n)
    ensures m == n
  {
    CellOfByte(m);
    CellOfByte(n);
  }
}
