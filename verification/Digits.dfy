/** Number formatting shared by labels, escapes and file names. */
module Digits {
  const DIGITS := "0123456789abcdef"

  function DigitChar(d: nat): char
    requires d < 16
  {
    DIGITS[d]
  }

  function DigitValue(c: char): nat {
    if '0' <= c <= '9' then c as int - '0' as int
    else if 'a' <= c <= 'f' then c as int - 'a' as int + 10
    else 0
  }

  predicate IsDigit(c: char) {
    '0' <= c <= '9'
  }

  predicate AllDigits(s: string) {
    forall i :: 0 <= i < |s| ==> IsDigit(s[i])
  }

  lemma DigitBack(d: nat)
    requires d < 16
    ensures DigitValue(DigitChar(d)) == d
    ensures IsDigit(DigitChar(d)) <==> d < 10
    ensures DigitChar(d) != '_'
  {
  }

  // ----- unpadded decimals -----

  function Decimal(n: nat): (s: string)
    ensures |s| > 0 && AllDigits(s)
  {
    DigitBack(n % 10);
    if n < 10 then [DigitChar(n)] else Decimal(n / 10) + [DigitChar(n % 10)]
  }

  function DecimalValue(s: string): nat {
    if s == [] then 0 else 10 * DecimalValue(s[..|s| - 1]) + DigitValue(s[|s| - 1])
  }

  lemma {:induction false} DecimalBack(n: nat)
    ensures DecimalValue(Decimal(n)) == n
  {
    DigitBack(n % 10);
    if n >= 10 {
      DecimalBack(n / 10);
      assert Decimal(n)[..|Decimal(n)| - 1] == Decimal(n / 10);
    }
  }

  lemma DecimalInjective(m: nat, n: nat)
    requires Decimal(m) == Decimal(n)
    ensures m == n
  {
    DecimalBack(m);
    DecimalBack(n);
  }

  // ----- hexadecimal of a fixed width -----

  function Pow16(width: nat): (r: nat)
    ensures r > 0
  {
    if width == 0 then 1 else 16 * Pow16(width - 1)
  }

  function Hex(n: nat, width: nat): (s: string)
    ensures |s| == width
    ensures forall i :: 0 <= i < |s| ==> s[i] != '_'
  {
    if width == 0 then [] else
      DigitBack(n % 16);
      Hex(n / 16, width - 1) + [DigitChar(n % 16)]
  }

  function HexValue(s: string): nat {
    if s == [] then 0 else 16 * HexValue(s[..|s| - 1]) + DigitValue(s[|s| - 1])
  }

  lemma {:induction false} HexBack(n: nat, width: nat)
    requires n < Pow16(width)
    ensures HexValue(Hex(n, width)) == n
    decreases width
  {
    if width > 0 {
      HexBack(n / 16, width - 1);
      DigitBack(n % 16);
      assert Hex(n, width)[..width - 1] == Hex(n / 16, width - 1);
    }
  }

  /** Sixteen hexadecimal digits make sixty-four bits. */
  lemma SixteenDigits()
    ensures Pow16(16) == 0x1_0000_0000_0000_0000
  {
    assert Pow16(4) == 0x10000;
    assert Pow16(8) == 0x1_0000_0000;
    assert Pow16(12) == 0x1_0000_0000_0000;
  }

  lemma HexInjective(m: nat, n: nat, width: nat)
    requires m < Pow16(width) && n < Pow16(width) && Hex(m, width) == Hex(n, width)
    ensures m == n
  {
    HexBack(m, width);
    HexBack(n, width);
  }

  function LastNonDigit(s: string): int {
    if s == [] then -1
    else if !IsDigit(s[|s| - 1]) then |s| - 1
    else LastNonDigit(s[..|s| - 1])
  }

  lemma {:induction false} LastNonDigitOf(a: string, x: string)
    requires a != [] && !IsDigit(a[|a| - 1]) && AllDigits(x)
    ensures LastNonDigit(a + x) == |a| - 1
    decreases |x|
  {
    if x == [] {
      assert a + x == a;
    } else {
      assert (a + x)[..|a + x| - 1] == a + x[..|x| - 1];
      LastNonDigitOf(a, x[..|x| - 1]);
    }
  }

  /** A run of digits behind a character that is no digit is determined by the whole. */
  lemma TrailingDigits(a: string, x: string, b: string, y: string)
    requires a != [] && !IsDigit(a[|a| - 1]) && b != [] && !IsDigit(b[|b| - 1])
    requires AllDigits(x) && AllDigits(y) && a + x == b + y
    ensures a == b && x == y
  {
    LastNonDigitOf(a, x);
    LastNonDigitOf(b, y);
    var s := a + x;
    assert s[..|a|] == a && s[..|b|] == b && s[|a|..] == x && s[|b|..] == y;
  }
}
