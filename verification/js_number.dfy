/**
 The few JavaScript number behaviours the storefront script relies on, over
 unbounded integers: a Number is either a finite integer or NaN, `parseInt`
 with no radix follows the algorithm of section 19.2.5 of ECMA-262 (leading
 white space, an optional sign, an optional `0x` prefix, then the longest run
 of digits), integers print in decimal, and `%` truncates toward zero.

 Strings are sequences of characters; every character the script handles
 lies in the Basic Multilingual Plane, where a character and a UTF-16 code
 unit coincide.
 */
module JsNumber {

  /** A JavaScript Number restricted to the values the script can produce. */
  datatype Num = Finite(value: int) | NaN

  /** `a + b` on Numbers: NaN absorbs. */
  function Plus(a: Num, b: Num): (r: Num)
    ensures r.Finite? <==> a.Finite? && b.Finite?
    ensures r.Finite? ==> r.value == a.value + b.value
  {
    if a.Finite? && b.Finite? then Finite(a.value + b.value) else NaN
  }

  /** `a * q` where `q` is a finite integer: NaN absorbs. */
  function Times(a: Num, q: int): (r: Num)
    ensures r.Finite? <==> a.Finite?
    ensures r.Finite? ==> r.value == a.value * q
  {
    if a.Finite? then Finite(a.value * q) else NaN
  }

  /** Moving one addend of a three-part sum to the end. */
  lemma PlusMoveToEnd(a: Num, s: Num, p: Num, b: Num)
    ensures Plus(Plus(a, Plus(s, p)), b) == Plus(Plus(Plus(a, s), b), p)
  {
  }

  lemma PlusSwapLast(a: Num, s: Num, b: Num)
    ensures Plus(Plus(a, s), b) == Plus(Plus(a, b), s)
  {
  }

  /** One more unit adds one more unit price. */
  lemma TimesSucc(a: Num, q: int)
    ensures Times(a, q + 1) == Plus(Times(a, q), a)
  {
    if a.Finite? {
      assert a.value * (q + 1) == a.value * q + a.value;
    }
  }

  /** WhiteSpace and LineTerminator code points of ECMA-262 (section 12.2
      and 12.3), which `parseInt` skips at the start of its argument. */
  predicate IsSpace(c: char) {
    || c == '\t' || c == '\U{000B}' || c == '\U{000C}' || c == ' '
    || c == '\U{00A0}' || c == '\U{FEFF}' || c == '\U{1680}'
    || ('\U{2000}' <= c <= '\U{200A}')
    || c == '\U{202F}' || c == '\U{205F}' || c == '\U{3000}'
    || c == '\n' || c == '\r' || c == '\U{2028}' || c == '\U{2029}'
  }

  predicate IsDecimalDigit(c: char) {
    '0' <= c <= '9'
  }

  /** A digit of radix 10 or 16 (letters in either case for 16). */
  predicate IsRadixDigit(c: char, radix: nat) {
    if radix == 16 then IsDecimalDigit(c) || 'a' <= c <= 'f' || 'A' <= c <= 'F'
    else IsDecimalDigit(c)
  }

  predicate AllDigits(d: string, radix: nat) {
    forall k :: 0 <= k < |d| ==> IsRadixDigit(d[k], radix)
  }

  function DigitValue(c: char, radix: nat): (v: nat)
    requires IsRadixDigit(c, radix)
    ensures radix == 16 ==> v < 16
    ensures radix != 16 ==> v < 10
  {
    if IsDecimalDigit(c) then (c as int) - ('0' as int)
    else if 'a' <= c <= 'f' then (c as int) - ('a' as int) + 10
    else (c as int) - ('A' as int) + 10
  }

  lemma AllDigitsConcat(a: string, b: string, radix: nat)
    requires AllDigits(a, radix) && AllDigits(b, radix)
    ensures AllDigits(a + b, radix)
  {
  }

  /** The value of a digit string read most-significant digit first. */
  function DigitsValue(d: string, radix: nat): nat
    requires AllDigits(d, radix)
  {
    if |d| == 0 then 0
    else DigitsValue(d[..|d| - 1], radix) * radix + DigitValue(d[|d| - 1], radix)
  }

  /** The string with its leading white space removed. */
  function TrimStart(s: string): (r: string)
    ensures |r| <= |s| && r == s[|s| - |r|..]
    ensures |r| > 0 ==> !IsSpace(r[0])
  {
    if |s| > 0 && IsSpace(s[0]) then TrimStart(s[1..]) else s
  }

  /** The longest prefix of `s` made of radix digits. */
  function DigitRun(s: string, radix: nat): (r: string)
    ensures |r| <= |s| && r == s[..|r|]
    ensures AllDigits(r, radix)
    ensures |r| < |s| ==> !IsRadixDigit(s[|r|], radix)
  {
    if |s| > 0 && IsRadixDigit(s[0], radix) then [s[0]] + DigitRun(s[1..], radix) else []
  }

  /** `parseInt(s)` with the radix left undefined: leading white space is
      skipped, then a sign is read. A result of -0 is the integer 0 here,
      which no later step of the script can tell apart. */
  function ParseInt(s: string): (r: Num)
    ensures StartsWithNumber(s) ==> r.Finite?
    ensures r.Finite? ==> exists k :: 0 <= k < |s| && IsDecimalDigit(s[k])
  {
    var t := TrimStart(s);
    assert |t| > 0 ==> s[|s| - |t|] == t[0];
    if |t| > 0 && t[0] == '-' then Negate(ParseUnsigned(t[1..]))
    else if |t| > 0 && t[0] == '+' then ParseUnsigned(t[1..])
    else ParseUnsigned(t)
  }

  /** Text that begins with a decimal digit that does not open a `0x` prefix. */
  predicate StartsWithNumber(s: string) {
    && |s| > 0 && IsDecimalDigit(s[0])
    && !(|s| >= 2 && s[0] == '0' && (s[1] == 'x' || s[1] == 'X'))
  }

  function Negate(a: Num): (r: Num)
    ensures r.Finite? <==> a.Finite?
    ensures r.Finite? ==> r.value == -a.value
  {
    if a.Finite? then Finite(-a.value) else NaN
  }

  /** The unsigned part of `parseInt`: a `0x` or `0X` prefix selects radix 16,
      otherwise radix 10, and the longest run of digits is read; no digit at
      all gives NaN. */
  function ParseUnsigned(u: string): (r: Num)
    ensures StartsWithNumber(u) ==> r.Finite?
    ensures r.Finite? ==> r.value >= 0 && exists k :: 0 <= k < |u| && IsDecimalDigit(u[k])
  {
    var hex := |u| >= 2 && u[0] == '0' && (u[1] == 'x' || u[1] == 'X');
    var radix := if hex then 16 else 10;
    var v := if hex then u[2..] else u;
    var z := DigitRun(v, radix);
    if |z| == 0 then NaN
    else
      assert hex ==> IsDecimalDigit(u[0]);
      assert !hex ==> IsDecimalDigit(v[0]);
      Finite(DigitsValue(z, radix))
  }

  /** The decimal digits of a natural number, without leading zeros. */
  function NatText(n: nat): (r: string)
    ensures |r| > 0 && AllDigits(r, 10)
    ensures n > 0 ==> r[0] != '0'
    decreases n
  {
    var last := ['0' + ((n % 10) as char)];
    if n < 10 then last else NatText(n / 10) + last
  }

  /** `String(n)` for an integer `n`, as a template literal prints it. */
  function DecimalText(n: int): (r: string)
    ensures n >= 0 ==> r == NatText(n)
    ensures n < 0 ==> r == "-" + NatText(-n)
  {
    if n >= 0 then NatText(n) else "-" + NatText(-n)
  }

  /** JavaScript's `a % b` for a positive `b` (Number::remainder of
      section 6.1.6.1.6 of ECMA-262 on integers): `a` minus the result is a
      multiple of `b`, and the result takes the sign of `a` with a magnitude
      below `b`, unlike Dafny's Euclidean `%`. */
  function JsRem(a: int, b: int): (r: int)
    requires b > 0
    ensures (a - r) % b == 0
    ensures a >= 0 ==> 0 <= r < b
    ensures a < 0 ==> -b < r <= 0
  {
    var m := -a;
    if a >= 0 then
      RemUnique(a - a % b, b, a / b, 0);
      a % b
    else
      RemUnique(a + m % b, b, -(m / b), 0);
      -(m % b)
  }

  /** Number::remainder has one answer: any `r` that differs from `a` by a
      multiple of `b` and has the sign of `a` with a magnitude below `b` is
      `JsRem(a, b)`. */
  lemma JsRemIsTheRemainder(a: int, b: int, r: int)
    requires b > 0 && (a - r) % b == 0
    requires a >= 0 ==> 0 <= r < b
    requires a < 0 ==> -b < r <= 0
    ensures r == JsRem(a, b)
  {
    var s := JsRem(a, b);
    var q1, q2 := (a - r) / b, (a - s) / b;
    assert a - r == q1 * b;
    assert a - s == q2 * b;
    assert s - r == (q1 - q2) * b by {
      assert q1 * b - q2 * b == (q1 - q2) * b;
    }
    if q1 > q2 {
      MulAtLeast(q1 - q2, b);
    } else if q1 < q2 {
      MulAtLeast(q2 - q1, b);
    }
  }

  /** The remainder is determined by any decomposition with a remainder in
      range. */
  lemma RemUnique(x: int, n: int, q: int, r: int)
    requires n > 0 && 0 <= r < n && x == q * n + r
    ensures x % n == r
  {
    var q', r' := x / n, x % n;
    assert x == q' * n + r';
    assert (q - q') * n == r' - r by {
      assert q * n - q' * n == (q - q') * n;
    }
    if q > q' {
      MulAtLeast(q - q', n);
    } else if q < q' {
      MulAtLeast(q' - q, n);
    }
  }

  lemma MulAtLeast(d: int, n: int)
    requires d >= 1 && n > 0
    ensures d * n >= n
  {
    assert d * n == (d - 1) * n + n;
    assert (d - 1) * n >= 0;
  }

  /** Reading back the printed digits of `n` gives `n`. */
  lemma {:induction false} NatTextValue(n: nat)
    ensures DigitsValue(NatText(n), 10) == n
    decreases n
  {
    var t := NatText(n);
    if n >= 10 {
      NatTextValue(n / 10);
      assert t[..|t| - 1] == NatText(n / 10);
    }
  }

  /** A run of decimal digits followed by a character that cannot continue
      the number parses to the value of the run. */
  lemma ParseUnsignedLeadingDigits(d: string, rest: string)
    requires |d| > 0 && AllDigits(d, 10)
    requires |rest| > 0 ==> !IsRadixDigit(rest[0], 10) && rest[0] != 'x' && rest[0] != 'X'
    ensures ParseUnsigned(d + rest) == Finite(DigitsValue(d, 10))
  {
    var s := d + rest;
    NoHexPrefix(d, rest);
    DigitRunOfDigits(d, rest, 10);
    assert DigitRun(s, 10) == d;
  }

  lemma NoHexPrefix(d: string, rest: string)
    requires |d| > 0 && AllDigits(d, 10)
    requires |rest| > 0 ==> rest[0] != 'x' && rest[0] != 'X'
    ensures !(|d + rest| >= 2 && (d + rest)[1] in "xX")
  {
    var s := d + rest;
    if |d| >= 2 { assert s[1] == d[1]; } else if |s| >= 2 { assert s[1] == rest[0]; }
  }

  lemma {:induction false} DigitRunOfDigits(d: string, rest: string, radix: nat)
    requires AllDigits(d, radix)
    requires |rest| > 0 ==> !IsRadixDigit(rest[0], radix)
    ensures DigitRun(d + rest, radix) == d
    decreases |d|
  {
    if |d| > 0 {
      assert (d + rest)[1..] == d[1..] + rest;
      DigitRunOfDigits(d[1..], rest, radix);
    } else {
      assert d + rest == rest;
    }
  }

  /** Text that starts with a digit is read without trimming or sign. */
  lemma ParseIntDigitStart(u: string)
    requires |u| > 0 && IsDecimalDigit(u[0])
    ensures ParseInt(u) == ParseUnsigned(u)
  {
    assert !IsSpace(u[0]);
    assert TrimStart(u) == u;
  }

  /** A leading minus sign negates what follows it. */
  lemma ParseIntMinus(u: string)
    ensures ParseInt("-" + u) == Negate(ParseUnsigned(u))
  {
    var s := "-" + u;
    assert s[0] == '-' && !IsSpace(s[0]);
    assert TrimStart(s) == s;
    assert s[1..] == u;
  }

  /** A run of decimal digits at the very start of the text parses to its
      value. */
  lemma ParseIntLeadingDigits(d: string, rest: string)
    requires |d| > 0 && AllDigits(d, 10)
    requires |rest| > 0 ==> !IsRadixDigit(rest[0], 10) && rest[0] != 'x' && rest[0] != 'X'
    ensures ParseInt(d + rest) == Finite(DigitsValue(d, 10))
  {
    assert (d + rest)[0] == d[0];
    ParseIntDigitStart(d + rest);
    ParseUnsignedLeadingDigits(d, rest);
  }

  /** `parseInt` inverts integer printing when the text that follows does
      not start with a digit, `x` or `X` (after a printed `0`, an `x` would
      open a hex prefix). */
  lemma ParseIntDecimalText(n: int, rest: string)
    requires |rest| > 0 ==> !IsRadixDigit(rest[0], 10) && rest[0] != 'x' && rest[0] != 'X'
    ensures ParseInt(DecimalText(n) + rest) == Finite(n)
  {
    if n >= 0 {
      NatTextValue(n);
      ParseIntLeadingDigits(NatText(n), rest);
    } else {
      var d := NatText(-n);
      NatTextValue(-n);
      assert DecimalText(n) + rest == "-" + (d + rest);
      ParseIntMinus(d + rest);
      ParseUnsignedLeadingDigits(d, rest);
    }
  }
}
