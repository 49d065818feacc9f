/** Integers as text, the way JavaScript writes and reads them: `toString()`
    of an integer, `toFixed(p)` of a value held exactly in units of 10^-p,
    and `parseInt(text)` with no radix argument. */
module Decimal {
  import opened Types

  /** A digit in the widest alphabet `parseInt` accepts without a radix. */
  predicate IsHexDigit(c: char) {
    '0' <= c <= '9' || 'a' <= c <= 'f' || 'A' <= c <= 'F'
  }

  function HexValue(c: char): nat
    requires IsHexDigit(c)
  {
    if '0' <= c <= '9' then c as int - '0' as int
    else if 'a' <= c <= 'f' then c as int - 'a' as int + 10
    else c as int - 'A' as int + 10
  }

  /** `c` is a digit in base `radix` (10 or 16 here). */
  predicate IsDigitOf(c: char, radix: nat) {
    IsHexDigit(c) && HexValue(c) < radix
  }

  predicate AllDigitsOf(s: string, radix: nat) {
    forall i :: 0 <= i < |s| ==> IsDigitOf(s[i], radix)
  }

  /** The number a digit string denotes in base `radix`, most significant
      digit first. */
  function ValueOf(s: string, radix: nat): nat
    requires AllDigitsOf(s, radix)
    decreases |s|
  {
    if |s| == 0 then 0 else radix * ValueOf(s[..|s| - 1], radix) + HexValue(s[|s| - 1])
  }

  function DigitChar(d: nat): char
    requires d < 10
  {
    ('0' as int + d) as char
  }

  lemma DigitCharValue(d: nat)
    requires d < 10
    ensures IsDigitOf(DigitChar(d), 10) && HexValue(DigitChar(d)) == d
  {
  }

  /** A decimal digit is one of '0'..'9'. */
  lemma DecimalDigitIsAscii(c: char)
    requires IsDigitOf(c, 10)
    ensures '0' <= c <= '9'
  {
  }

  /** `n.toString()` for a non-negative integer: decimal digits without
      leading zeros. */
  function NatToString(n: nat): (r: string)
    ensures |r| >= 1 && AllDigitsOf(r, 10)
    ensures ValueOf(r, 10) == n
    ensures r[0] == '0' ==> |r| == 1
    decreases n
  {
    DigitCharValue(n % 10);
    if n < 10 then [DigitChar(n)]
    else
      var r := NatToString(n / 10) + [DigitChar(n % 10)];
      assert r[..|r| - 1] == NatToString(n / 10);
      r
  }

  /** `n.toString()` for any integer. */
  function IntToString(n: int): string {
    if n < 0 then "-" + NatToString(-n) else NatToString(n)
  }

  /** The white space `parseInt` skips: JavaScript's WhiteSpace and
      LineTerminator characters. */
  predicate IsSpace(c: char) {
    || c == '\t' || c == '\n' || c == '\U{000B}' || c == '\U{000C}' || c == '\r'
    || c == ' ' || c == '\U{00A0}' || c == '\U{1680}' || ('\U{2000}' <= c <= '\U{200A}')
    || c == '\U{2028}' || c == '\U{2029}' || c == '\U{202F}' || c == '\U{205F}'
    || c == '\U{3000}' || c == '\U{FEFF}'
  }

  /** `s` without its leading white space. */
  function TrimStart(s: string): (r: string)
    ensures |r| <= |s| && r == s[|s| - |r|..]
    ensures |r| == 0 || !IsSpace(r[0])
    decreases |s|
  {
    if |s| > 0 && IsSpace(s[0]) then TrimStart(s[1..]) else s
  }

  /** The longest prefix of `s` made of base-`radix` digits. */
  function DigitPrefix(s: string, radix: nat): (r: string)
    ensures AllDigitsOf(r, radix)
    ensures |r| <= |s| && r == s[..|r|]
    ensures |r| == |s| || !IsDigitOf(s[|r|], radix)
    decreases |s|
  {
    if |s| > 0 && IsDigitOf(s[0], radix) then [s[0]] + DigitPrefix(s[1..], radix) else ""
  }

  /** A digit run followed by a non-digit (or by nothing) is the whole
      digit prefix. */
  lemma {:induction false} DigitPrefixStops(d: string, rest: string, radix: nat)
    requires AllDigitsOf(d, radix)
    requires |rest| == 0 || !IsDigitOf(rest[0], radix)
    ensures DigitPrefix(d + rest, radix) == d
    decreases |d|
  {
    if |d| > 0 {
      assert (d + rest)[1..] == d[1..] + rest;
      DigitPrefixStops(d[1..], rest, radix);
      assert [d[0]] + d[1..] == d;
    }
  }

  /** The value of the longest base-`radix` digit run that starts `u`;
      None when `u` does not start with a digit. */
  function DigitRunValue(u: string, radix: nat): Option<nat> {
    var digits := DigitPrefix(u, radix);
    if |digits| == 0 then None else Some(ValueOf(digits, radix))
  }

  /** The digits after an optional sign: base 16 after a `0x`/`0X` prefix
      and base 10 otherwise, the longest digit run; None when there is no
      digit. */
  function ParseMagnitude(u: string): Option<nat> {
    if |u| >= 2 && u[0] == '0' && (u[1] == 'x' || u[1] == 'X') then DigitRunValue(u[2..], 16)
    else DigitRunValue(u, 10)
  }

  /** The negation of a value that may be missing. */
  function Negate(o: Option<int>): Option<int> {
    match o
    case None => None
    case Some(v) => Some(-v)
  }

  /** An optional '-' or '+', then the magnitude. */
  function ParseSigned(t: string): Option<int> {
    if |t| > 0 && t[0] == '-' then Negate(ParseMagnitude(t[1..]))
    else if |t| > 0 && t[0] == '+' then ParseMagnitude(t[1..])
    else ParseMagnitude(t)
  }

  /** `parseInt(s)` with the radix left out: skip white space, read an
      optional sign, read base 16 after a `0x`/`0X` prefix and base 10
      otherwise, and take the longest digit run; no digits is NaN (None). */
  function ParseInt(s: string): Option<int> {
    ParseSigned(TrimStart(s))
  }

  /** Text that does not start with white space is its own trimmed form. */
  lemma TrimStartKeeps(s: string)
    requires |s| == 0 || !IsSpace(s[0])
    ensures TrimStart(s) == s
  {
  }

  /** A run of decimal digits reads as its value. */
  lemma MagnitudeOfDigits(d: string)
    requires |d| >= 1 && AllDigitsOf(d, 10)
    ensures ParseMagnitude(d) == Some(ValueOf(d, 10))
  {
    if |d| >= 2 {
      DecimalDigitIsAscii(d[1]);
    }
    DigitPrefixStops(d, "", 10);
    assert d + "" == d;
    assert DigitRunValue(d, 10) == Some(ValueOf(d, 10));
  }

  /** A run of decimal digits, unsigned, reads as its value. */
  lemma DigitTextParses(s: string)
    requires |s| >= 1 && AllDigitsOf(s, 10)
    ensures ParseInt(s) == Some(ValueOf(s, 10))
  {
    assert '0' <= s[0] <= '9' by {
      DecimalDigitIsAscii(s[0]);
    }
    assert TrimStart(s) == s by {
      TrimStartKeeps(s);
    }
    assert ParseMagnitude(s) == Some(ValueOf(s, 10)) by {
      MagnitudeOfDigits(s);
    }
  }

  /** Reading back the decimal text of a non-negative integer. */
  lemma NatToStringParses(n: nat)
    ensures ParseInt(NatToString(n)) == Some(n)
  {
    DigitTextParses(NatToString(n));
  }

  /** `parseInt` reads back what `toString` wrote, for every integer. */
  lemma ParseIntToString(n: int)
    ensures ParseInt(IntToString(n)) == Some(n)
  {
    if n < 0 {
      var d := NatToString(-n);
      var s := "-" + d;
      TrimStartKeeps(s);
      assert s[1..] == d;
      MagnitudeOfDigits(d);
    } else {
      NatToStringParses(n);
    }
  }

  function Pow10(p: nat): (r: nat)
    ensures r >= 1
  {
    if p == 0 then 1 else 10 * Pow10(p - 1)
  }

  /** Euclid's division of a natural number by a positive one. */
  lemma DivMod(a: nat, unit: nat)
    requires unit > 0
    ensures a / unit >= 0 && 0 <= a % unit < unit
    ensures a == (a / unit) * unit + a % unit
  {
  }

  /** `x * 10^p`, one decimal place at a time. */
  function Shift(x: int, p: nat): int {
    if p == 0 then x else 10 * Shift(x, p - 1)
  }

  lemma {:induction false} ShiftIsProduct(x: int, p: nat)
    ensures Shift(x, p) == x * Pow10(p)
  {
    if p > 0 {
      ShiftIsProduct(x, p - 1);
      assert 10 * (x * Pow10(p - 1)) == x * (10 * Pow10(p - 1));
    }
  }

  /** Dividing by 10^p and shifting the quotient back, plus the remainder,
      gives the number back. */
  lemma ShiftDivMod(a: nat, p: nat, unit: nat, whole: int, frac: int)
    requires unit == Pow10(p) && whole == a / unit && frac == a % unit
    ensures Shift(whole, p) + frac == a
  {
    DivMod(a, unit);
    ShiftIsProduct(whole, p);
  }

  /** The `places` decimal digits of `m < 10^places`, zero-padded to that
      width. */
  function FractionDigits(m: nat, places: nat): (r: string)
    requires m < Pow10(places)
    ensures |r| == places && AllDigitsOf(r, 10)
    ensures ValueOf(r, 10) == m
    decreases places
  {
    DigitCharValue(m % 10);
    if places == 0 then ""
    else
      var r := FractionDigits(m / 10, places - 1) + [DigitChar(m % 10)];
      assert r[..|r| - 1] == FractionDigits(m / 10, places - 1);
      r
  }

  /** `a.toFixed(places)` for `a / 10^places >= 0` held exactly: the whole
      part, '.', and exactly `places` fraction digits. */
  function UnsignedFixedText(a: nat, places: nat): string {
    var unit := Pow10(places);
    DivMod(a, unit);
    var whole: nat, frac: nat := a / unit, a % unit;
    NatToString(whole) + "." + FractionDigits(frac, places)
  }

  /** `x.toFixed(places)` for `x == k / 10^places` held exactly: sign,
      whole part, '.', and exactly `places` fraction digits. */
  function FixedText(k: int, places: nat): string
    requires places >= 1
  {
    (if k < 0 then "-" else "") + UnsignedFixedText(if k < 0 then -k else k, places)
  }

  /** Reads what follows the whole part `w`: '.' and exactly `places`
      decimal digits. */
  function FractionPart(w: nat, rest: string, places: nat): Option<int> {
    if |rest| != 1 + places || rest[0] != '.' || !AllDigitsOf(rest[1..], 10) then None
    else Some(Shift(w, places) + ValueOf(rest[1..], 10))
  }

  /** Reads `digits.digits` with exactly `places` fraction digits as a
      count of 10^-places units. */
  function ParseUnsignedFixed(u: string, places: nat): Option<int> {
    var whole := DigitPrefix(u, 10);
    if |whole| == 0 then None else FractionPart(ValueOf(whole, 10), u[|whole|..], places)
  }

  /** Reads `-?digits.digits` with exactly `places` fraction digits back as
      a count of 10^-places units. */
  function ParseFixed(s: string, places: nat): Option<int> {
    if |s| > 0 && s[0] == '-' then
      Negate(ParseUnsignedFixed(s[1..], places))
    else ParseUnsignedFixed(s, places)
  }

  /** The whole part of `digits.digits` is the digit run before the '.'. */
  lemma WholePart(w: string, f: string)
    requires AllDigitsOf(w, 10)
    ensures DigitPrefix(w + "." + f, 10) == w
  {
    assert !IsDigitOf('.', 10);
    assert w + "." + f == w + ("." + f);
    DigitPrefixStops(w, "." + f, 10);
  }

  /** '.' and exactly `places` digits read as the fraction after `w`. */
  lemma FractionPartOf(w: nat, f: string, places: nat)
    requires AllDigitsOf(f, 10) && |f| == places
    ensures FractionPart(w, "." + f, places) == Some(Shift(w, places) + ValueOf(f, 10))
  {
    assert ("." + f)[1..] == f;
  }

  /** What `ParseUnsignedFixed` makes of a digit run, '.', and exactly
      `places` digits. */
  lemma ParseUnsignedFixedShape(w: string, f: string, places: nat)
    requires |w| >= 1 && AllDigitsOf(w, 10) && AllDigitsOf(f, 10) && |f| == places
    ensures ParseUnsignedFixed(w + "." + f, places)
              == Some(Shift(ValueOf(w, 10), places) + ValueOf(f, 10))
  {
    var u := w + "." + f;
    assert DigitPrefix(u, 10) == w by {
      WholePart(w, f);
    }
    assert u[|w|..] == "." + f;
    FractionPartOf(ValueOf(w, 10), f, places);
  }

  /** The unsigned rendering reads back as its value and starts with a
      digit. */
  lemma UnsignedFixedTextParses(a: nat, places: nat)
    ensures ParseUnsignedFixed(UnsignedFixedText(a, places), places) == Some(a)
    ensures var t := UnsignedFixedText(a, places); |t| > 0 && '0' <= t[0] <= '9'
  {
    var unit := Pow10(places);
    DivMod(a, unit);
    var whole: nat, frac: nat := a / unit, a % unit;
    var w := NatToString(whole);
    var f := FractionDigits(frac, places);
    assert UnsignedFixedText(a, places) == w + "." + f;
    ParseUnsignedFixedShape(w, f, places);
    ShiftDivMod(a, places, unit, whole, frac);
    DecimalDigitIsAscii(w[0]);
    assert (w + "." + f)[0] == w[0];
  }

  /** Reading back a fixed-point rendering gives the exact value. */
  lemma FixedTextParses(k: int, places: nat)
    requires places >= 1
    ensures ParseFixed(FixedText(k, places), places) == Some(k)
  {
    var a: nat := if k < 0 then -k else k;
    var u := UnsignedFixedText(a, places);
    UnsignedFixedTextParses(a, places);
    SignedFixedParses(u, a, places);
    if k < 0 {
      assert FixedText(k, places) == "-" + u;
    } else {
      assert FixedText(k, places) == u;
    }
  }

  /** An unsigned text that starts with a digit and reads as `a` reads as
      `a` on its own and as `-a` after a '-'. */
  lemma SignedFixedParses(u: string, a: int, places: nat)
    requires ParseUnsignedFixed(u, places) == Some(a)
    requires |u| > 0 && '0' <= u[0] <= '9'
    ensures ParseFixed(u, places) == Some(a)
    ensures ParseFixed("-" + u, places) == Some(-a)
  {
    assert ("-" + u)[1..] == u;
  }

  /** The characters a number rendering is made of. */
  predicate IsNumberChar(c: char) {
    '0' <= c <= '9' || c == '-' || c == '.'
  }

  predicate IsNumberText(s: string) {
    forall i :: 0 <= i < |s| ==> IsNumberChar(s[i])
  }

  lemma DigitsAreNumberText(s: string)
    requires AllDigitsOf(s, 10)
    ensures IsNumberText(s)
  {
    forall i | 0 <= i < |s|
      ensures IsNumberChar(s[i])
    {
      DecimalDigitIsAscii(s[i]);
    }
  }

  lemma NumberTextAppend(a: string, b: string)
    requires IsNumberText(a) && IsNumberText(b)
    ensures IsNumberText(a + b)
  {
    forall i | 0 <= i < |a + b|
      ensures IsNumberChar((a + b)[i])
    {
      if i < |a| {
        assert (a + b)[i] == a[i];
      } else {
        assert (a + b)[i] == b[i - |a|];
      }
    }
  }

  /** `toString()` of an integer writes only digits and '-'. */
  lemma IntToStringIsNumberText(n: int)
    ensures IsNumberText(IntToString(n))
  {
    var s := NatToString(if n < 0 then -n else n);
    DigitsAreNumberText(s);
    if n < 0 {
      NumberTextAppend("-", s);
    }
  }

  /** The unsigned rendering writes only digits and '.'. */
  lemma UnsignedFixedTextIsNumberText(a: nat, places: nat)
    ensures IsNumberText(UnsignedFixedText(a, places))
  {
    var unit := Pow10(places);
    DivMod(a, unit);
    var w := NatToString(a / unit);
    var f := FractionDigits(a % unit, places);
    DigitsAreNumberText(w);
    DigitsAreNumberText(f);
    NumberTextAppend(w, ".");
    NumberTextAppend(w + ".", f);
  }

  /** `toFixed` writes only digits, '-' and '.'. */
  lemma FixedTextIsNumberText(k: int, places: nat)
    requires places >= 1
    ensures IsNumberText(FixedText(k, places))
  {
    UnsignedFixedTextIsNumberText(if k < 0 then -k else k, places);
    NumberTextAppend(if k < 0 then "-" else "", UnsignedFixedText(if k < 0 then -k else k, places));
  }
}
