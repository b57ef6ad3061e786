/** The number formatting and parsing calls of the C library that the core uses:
    sprintf's "%d" and "%010d", atol (glibc: strtol in base 10, saturating),
    strtoul in base 0, and the integer-width conversions applied to their results. */
module Numerals {

  const LONG_MAX: int := 0x7fff_ffff_ffff_ffff
  const LONG_MIN: int := -0x8000_0000_0000_0000
  const ULONG_MAX: int := 0xffff_ffff_ffff_ffff
  const TWO_TO_32: int := 0x1_0000_0000
  const INT_MAX: int := 0x7fff_ffff

  predicate IsDigit(c: char) {
    '0' <= c <= '9'
  }

  /** isspace() in the C locale. */
  predicate IsSpace(c: char) {
    c == ' ' || c == '\t' || c == '\n' || c == '\U{000B}' || c == '\U{000C}' || c == '\r'
  }

  function DigitChar(d: nat): (c: char)
    requires d < 10
    ensures IsDigit(c) && DigitIn(c, 10) == d
  {
    (48 + d) as char
  }

  /** The value of `c` as a digit in `base` (letters stand for 10 and up), or -1. */
  function DigitIn(c: char, base: nat): int {
    var d :=
      if '0' <= c <= '9' then c as int - '0' as int
      else if 'a' <= c <= 'z' then c as int - 'a' as int + 10
      else if 'A' <= c <= 'Z' then c as int - 'A' as int + 10
      else 99;
    if d < base then d else -1
  }

  /** sprintf("%d") of a value that is not negative. */
  function Decimal(n: nat): (s: string)
    ensures |s| >= 1
    ensures forall k :: 0 <= k < |s| ==> IsDigit(s[k])
  {
    if n < 10 then [DigitChar(n)] else Decimal(n / 10) + [DigitChar(n % 10)]
  }

  function Zeros(k: nat): (s: string)
    ensures |s| == k && forall i :: 0 <= i < k ==> s[i] == '0'
  {
    if k == 0 then "" else Zeros(k - 1) + "0"
  }

  /** sprintf("%010d") of a value that is not negative: at least ten digits. */
  function ZeroPad10(n: nat): string {
    var d := Decimal(n);
    if |d| >= 10 then d else Zeros(10 - |d|) + d
  }

  function SkipSpace(s: string): (t: string)
    ensures |t| <= |s| && t == s[|s| - |t|..]
    ensures |t| > 0 ==> !IsSpace(t[0])
  {
    if |s| > 0 && IsSpace(s[0]) then SkipSpace(s[1..]) else s
  }

  /** The longest prefix of `s` made of digits of `base`. */
  function LeadingDigits(s: string, base: nat): (d: string)
    ensures d <= s
    ensures forall k :: 0 <= k < |d| ==> DigitIn(d[k], base) >= 0
  {
    if |s| > 0 && DigitIn(s[0], base) >= 0 then [s[0]] + LeadingDigits(s[1..], base) else ""
  }

  /** The value of a digit string, most significant digit first. */
  function Value(d: string, base: nat): nat {
    if |d| == 0 then 0
    else
      var last := DigitIn(d[|d| - 1], base);
      Value(d[..|d| - 1], base) * base + (if last < 0 then 0 else last)
  }

  /** Drops one leading sign character and reports whether it was a minus. */
  function SignOf(t: string): (bool, string) {
    if |t| > 0 && (t[0] == '-' || t[0] == '+') then (t[0] == '-', t[1..]) else (false, t)
  }

  /** atol(s) as glibc computes it: strtol(s, NULL, 10), which skips leading
      white space, takes one optional sign, reads decimal digits as far as they
      go and saturates at the limits of `long`. */
  function Atol(s: string): int {
    var (neg, u) := SignOf(SkipSpace(s));
    var v: int := Value(LeadingDigits(u, 10), 10);
    if neg then (if -v < LONG_MIN then LONG_MIN else -v)
    else (if v > LONG_MAX then LONG_MAX else v)
  }

  /** strtoul(s, NULL, 0): like atol, but the base follows the C prefix rules
      ("0x" hexadecimal, a leading "0" octal, decimal otherwise), an overflow gives
      ULONG_MAX and a minus sign negates modulo 2^64. */
  function Strtoul0(s: string): nat {
    var (neg, u) := SignOf(SkipSpace(s));
    var (base, digits) :=
      if |u| >= 3 && u[0] == '0' && (u[1] == 'x' || u[1] == 'X') && DigitIn(u[2], 16) >= 0 then (16, u[2..])
      else if |u| >= 1 && u[0] == '0' then (8, u)
      else (10, u);
    var v := Value(LeadingDigits(digits, base), base);
    if v > ULONG_MAX then ULONG_MAX
    else if neg then (ULONG_MAX + 1 - v) % (ULONG_MAX + 1)
    else v
  }

  /** Conversion of an integer to a 32-bit two's-complement `int`. */
  function Wrap32(v: int): (r: int)
    ensures -0x8000_0000 <= r <= INT_MAX
    ensures (r - v) % TWO_TO_32 == 0
  {
    var u := v % TWO_TO_32;
    if u > INT_MAX then u - TWO_TO_32 else u
  }

  /** Conversion of an integer to a 32-bit unsigned value, as setUInt receives it. */
  function UInt32(v: int): (r: nat)
    ensures r < TWO_TO_32 && (r - v) % TWO_TO_32 == 0
  {
    v % TWO_TO_32
  }

  lemma {:induction false} ValueDecimal(n: nat)
    ensures Value(Decimal(n), 10) == n
  {
    var d := Decimal(n);
    if n >= 10 {
      ValueDecimal(n / 10);
      assert d[..|d| - 1] == Decimal(n / 10);
    }
  }

  lemma {:induction false} LeadingDigitsAll(s: string, base: nat)
    requires forall k :: 0 <= k < |s| ==> DigitIn(s[k], base) >= 0
    ensures LeadingDigits(s, base) == s
  {
    if |s| > 0 {
      LeadingDigitsAll(s[1..], base);
    }
  }

  lemma {:induction false} ValueLeadingZeros(k: nat, d: string)
    ensures Value(Zeros(k) + d, 10) == Value(d, 10)
    decreases |d|, k
  {
    if |d| > 0 {
      var s := Zeros(k) + d;
      assert s[..|s| - 1] == Zeros(k) + d[..|d| - 1];
      ValueLeadingZeros(k, d[..|d| - 1]);
    } else if k > 0 {
      assert Zeros(k) + d == Zeros(k - 1) + "0";
      assert (Zeros(k - 1) + "0")[..k - 1] == Zeros(k - 1) + "";
      ValueLeadingZeros(k - 1, d);
    }
  }

  /** The length field that sendMessage prints is read back exactly by atol. */
  lemma AtolDecimal(n: nat)
    requires n <= LONG_MAX
    ensures Atol(Decimal(n)) == n
  {
    var d := Decimal(n);
    assert !IsSpace(d[0]) && d[0] != '-' && d[0] != '+';
    assert SkipSpace(d) == d;
    LeadingDigitsAll(d, 10);
    ValueDecimal(n);
  }

  /** "%010d" always gives at least ten digits, exactly ten below 10^10. */
  lemma {:induction false} ZeroPad10Shape(n: nat)
    ensures |ZeroPad10(n)| >= 10
    ensures n < 10_000_000_000 ==> |ZeroPad10(n)| == 10
    ensures forall k :: 0 <= k < |ZeroPad10(n)| ==> IsDigit(ZeroPad10(n)[k])
  {
    if n < 10_000_000_000 {
      DecimalLength(n);
    }
  }

  function Pow10(k: nat): nat {
    if k == 0 then 1 else 10 * Pow10(k - 1)
  }

  lemma {:induction false} DecimalLength(n: nat)
    ensures n < 10_000_000_000 ==> |Decimal(n)| <= 10
  {
    if n < 10_000_000_000 {
      assert Pow10(10) == 10_000_000_000;
      DecimalBelowPow10(n, 10);
    }
  }

  lemma {:induction false} DecimalBelowPow10(n: nat, k: nat)
    requires 1 <= k && n < Pow10(k)
    ensures |Decimal(n)| <= k
  {
    if n >= 10 {
      assert k >= 2;
      DecimalBelowPow10(n / 10, k - 1);
    }
  }

  /** The zero-padded archive id is read back exactly by atol. */
  lemma AtolZeroPad10(n: nat)
    requires n <= LONG_MAX
    ensures Atol(ZeroPad10(n)) == n
  {
    var d := Decimal(n);
    if |d| >= 10 {
      AtolDecimal(n);
    } else {
      var p := Zeros(10 - |d|) + d;
      assert p == ZeroPad10(n);
      AllDigitsParse(p);
      ValueLeadingZeros(10 - |d|, d);
      ValueDecimal(n);
    }
  }

  /** A string of decimal digits is read by atol as its value, up to saturation. */
  lemma AllDigitsParse(p: string)
    requires |p| >= 1 && forall k :: 0 <= k < |p| ==> IsDigit(p[k])
    ensures Atol(p) == if Value(p, 10) > LONG_MAX then LONG_MAX else Value(p, 10)
  {
    assert !IsSpace(p[0]) && p[0] != '-' && p[0] != '+';
    assert SkipSpace(p) == p;
    assert SignOf(p) == (false, p);
    assert forall k :: 0 <= k < |p| ==> DigitIn(p[k], 10) >= 0;
    LeadingDigitsAll(p, 10);
  }
}
