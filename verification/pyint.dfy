/**
 Python's `int(s)` and `int(s, 16)` on strings: surrounding white space,
 an optional sign, for base 16 an optional `0x`/`0X` prefix (which may be
 followed by one underscore), then digits with single underscores between
 them. Anything else raises `ValueError`, modelled as `None`.
 */
module PyInt {
  import opened Wrappers
  import opened Text

  /** Value of `c` as a hexadecimal digit, or -1. */
  function DigitValue(c: char): int {
    if '0' <= c <= '9' then c as int - '0' as int
    else if 'a' <= c <= 'f' then c as int - 'a' as int + 10
    else if 'A' <= c <= 'F' then c as int - 'A' as int + 10
    else -1
  }

  predicate IsDigitOf(c: char, base: nat) {
    0 <= DigitValue(c) < base
  }

  /** Digits of `base`, with single underscores only between two digits. */
  predicate WellFormedDigits(s: string, base: nat) {
    |s| > 0 && IsDigitOf(s[0], base) && MoreDigits(s[1..], base)
  }

  /** What may follow a digit: nothing, or a digit or `_` and a digit, and so on. */
  predicate MoreDigits(t: string, base: nat)
    decreases |t|
  {
    || |t| == 0
    || (IsDigitOf(t[0], base) && MoreDigits(t[1..], base))
    || (|t| >= 2 && t[0] == '_' && IsDigitOf(t[1], base) && MoreDigits(t[2..], base))
  }

  /** The positional value of the digits of `s`, underscores skipped. */
  function DigitsValue(s: string, base: nat): nat {
    if |s| == 0 then 0
    else if IsDigitOf(s[|s| - 1], base) then DigitsValue(s[..|s| - 1], base) * base + DigitValue(s[|s| - 1])
    else DigitsValue(s[..|s| - 1], base)
  }

  /** The text after the sign, and whether the sign was `-`. */
  function Unsigned(t: string): (r: (string, bool))
    ensures |r.0| <= |t| && r.0 == t[|t| - |r.0|..]
  {
    if |t| > 0 && (t[0] == '-' || t[0] == '+') then (t[1..], t[0] == '-') else (t, false)
  }

  /** The digit part after a `0x` prefix and its optional underscore. */
  function HexBody(u: string): (r: string)
    ensures |r| <= |u| && r == u[|u| - |r|..]
  {
    if |u| >= 2 && u[0] == '0' && (u[1] == 'x' || u[1] == 'X') then
      var b := u[2..];
      if |b| > 0 && b[0] == '_' then b[1..] else b
    else u
  }

  /** `int(s, base)`, or `None` where Python raises `ValueError`. */
  function ParseInt(s: string, base: nat): (r: Option<int>)
    requires base == 10 || base == 16
    ensures AllSpace(s) ==> r.None?
  {
    StripEmpty(s);
    ParseStripped(Strip(s), base)
  }

  /** `int()` on text without surrounding white space. */
  function ParseStripped(t: string, base: nat): (r: Option<int>)
    requires base == 10 || base == 16
    ensures t == [] ==> r.None?
  {
    var (u, negative) := Unsigned(t);
    var body := if base == 16 then HexBody(u) else u;
    if WellFormedDigits(body, base) then
      var n: int := DigitsValue(body, base);
      Some(if negative then -n else n)
    else None
  }

  function DigitChar(d: nat): (c: char)
    requires d < 16
    ensures DigitValue(c) == d
  {
    if d < 10 then ('0' as int + d) as char else ('a' as int + d - 10) as char
  }

  /** The digits of `n` in `base`, most significant first, as `%d` and `%x` print them. */
  function NatToString(n: nat, base: nat): (r: string)
    requires base == 10 || base == 16
    ensures |r| > 0
    ensures forall i :: 0 <= i < |r| ==> IsDigitOf(r[i], base)
    ensures DigitsValue(r, base) == n
  {
    if n < base then [DigitChar(n)]
    else
      var r := NatToString(n / base, base) + [DigitChar(n % base)];
      assert r[..|r| - 1] == NatToString(n / base, base);
      r
  }

  /** `str(n)`: the decimal text of `n`. */
  function IntToDecimal(n: int): string {
    if n < 0 then "-" + NatToString(-n, 10) else NatToString(n, 10)
  }

  lemma {:induction false} AllDigitsMore(t: string, base: nat)
    requires forall i :: 0 <= i < |t| ==> IsDigitOf(t[i], base)
    ensures MoreDigits(t, base)
    decreases |t|
  {
    if |t| > 0 {
      AllDigitsMore(t[1..], base);
    }
  }

  lemma DigitsWellFormed(r: string, base: nat)
    requires |r| > 0
    requires forall i :: 0 <= i < |r| ==> IsDigitOf(r[i], base)
    ensures WellFormedDigits(r, base)
  {
    AllDigitsMore(r[1..], base);
  }

  /** How `ParseStripped` reads signed digits. */
  lemma ParseUnstripped(t: string, base: nat, u: string, negative: bool, body: string)
    requires base == 10 || base == 16
    requires Unsigned(t) == (u, negative)
    requires body == if base == 16 then HexBody(u) else u
    requires WellFormedDigits(body, base)
    ensures ParseStripped(t, base) == Some(if negative then -(DigitsValue(body, base) as int) else DigitsValue(body, base))
  {
  }

  /** Text with no white space at either end is parsed as it stands. */
  lemma ParseUnpadded(s: string, base: nat)
    requires base == 10 || base == 16
    requires |s| > 0 && !IsSpace(s[0]) && !IsSpace(s[|s| - 1])
    ensures ParseInt(s, base) == ParseStripped(s, base)
  {
  }

  lemma DigitNotSpace(c: char, base: nat)
    requires IsDigitOf(c, base)
    ensures !IsSpace(c)
  {
  }

  /** A bare run of digits reads as its positional value. */
  lemma ParseDigits(digits: string, base: nat)
    requires base == 10 || base == 16
    requires |digits| > 0 && forall i :: 0 <= i < |digits| ==> IsDigitOf(digits[i], base)
    ensures ParseStripped(digits, base) == Some(DigitsValue(digits, base))
  {
    assert Unsigned(digits) == (digits, false);
    assert WellFormedDigits(digits, base) by { DigitsWellFormed(digits, base); }
    assert HexBody(digits) == digits by {
      if |digits| >= 2 && digits[0] == '0' {
        assert IsDigitOf(digits[1], base);
      }
    }
    ParseUnstripped(digits, base, digits, false, digits);
  }

  /** A minus sign before a run of decimal digits negates their value. */
  lemma ParseNegativeDigits(s: string, digits: string)
    requires |digits| > 0 && forall i :: 0 <= i < |digits| ==> IsDigitOf(digits[i], 10)
    requires |s| > 0 && s[0] == '-' && s[1..] == digits
    ensures ParseStripped(s, 10) == Some(-(DigitsValue(digits, 10) as int))
  {
    assert Unsigned(s) == (digits, true);
    assert WellFormedDigits(digits, 10) by { DigitsWellFormed(digits, 10); }
    ParseUnstripped(s, 10, digits, true, digits);
  }

  /** `0x` before a run of hexadecimal digits is accepted in base 16. */
  lemma ParsePrefixedDigits(s: string, digits: string)
    requires |digits| > 0 && forall i :: 0 <= i < |digits| ==> IsDigitOf(digits[i], 16)
    requires |s| > 2 && s[0] == '0' && s[1] == 'x' && s[2..] == digits
    ensures ParseStripped(s, 16) == Some(DigitsValue(digits, 16))
  {
    assert Unsigned(s) == (s, false);
    assert HexBody(s) == digits;
    assert WellFormedDigits(digits, 16) by { DigitsWellFormed(digits, 16); }
    ParseUnstripped(s, 16, s, false, digits);
  }

  /** `int(str(n)) == n`. */
  lemma ParseDecimalRoundTrip(n: int)
    ensures ParseInt(IntToDecimal(n), 10) == Some(n)
  {
    var s := IntToDecimal(n);
    if n < 0 {
      var digits := NatToString(-n, 10);
      assert ParseStripped(s, 10) == Some(n) by {
        assert s[1..] == digits;
        ParseNegativeDigits(s, digits);
      }
      DigitNotSpace(digits[|digits| - 1], 10);
      assert s[|s| - 1] == digits[|digits| - 1];
    } else {
      var digits := NatToString(n, 10);
      ParseDigits(digits, 10);
      DigitNotSpace(digits[0], 10);
      DigitNotSpace(digits[|digits| - 1], 10);
    }
    ParseUnpadded(s, 10);
  }

  /** `int('0x%x' % n, 16) == n`: a zxid in the `0x` form the server reports reads back as the same number. */
  lemma ParseHexRoundTrip(n: nat)
    ensures ParseInt("0x" + NatToString(n, 16), 16) == Some(n)
  {
    PrefixedHexValue(n);
    PrefixedHexUnpadded(n);
  }

  lemma PrefixedHexValue(n: nat)
    ensures ParseStripped("0x" + NatToString(n, 16), 16) == Some(n)
  {
    var digits := NatToString(n, 16);
    var s := "0x" + digits;
    assert s[2..] == digits;
    ParsePrefixedDigits(s, digits);
  }

  lemma PrefixedHexUnpadded(n: nat)
    ensures ParseInt("0x" + NatToString(n, 16), 16) == ParseStripped("0x" + NatToString(n, 16), 16)
  {
    var digits := NatToString(n, 16);
    var s := "0x" + digits;
    DigitNotSpace(digits[|digits| - 1], 16);
    assert s[|s| - 1] == digits[|digits| - 1];
    ParseUnpadded(s, 16);
  }

  /** Without the prefix the same hexadecimal digits read back too. */
  lemma ParseBareHexRoundTrip(n: nat)
    ensures ParseInt(NatToString(n, 16), 16) == Some(n)
  {
    var digits := NatToString(n, 16);
    ParseDigits(digits, 16);
    DigitNotSpace(digits[0], 16);
    DigitNotSpace(digits[|digits| - 1], 16);
    ParseUnpadded(digits, 16);
  }
}
