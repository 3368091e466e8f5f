/**
 * Character and string helpers used by the JavaScript and the Java sides:
 * decimal digits and their values, decimal rendering of integers (the
 * `String(n)` / `StringBuilder.append(int)` of the sources), JavaScript's
 * `trim`, ASCII case mapping and JavaScript's `parseInt` with no radix.
 */
module Strings {
  import opened Wrappers

  predicate IsDigit(c: char) { '0' <= c <= '9' }

  predicate AllDigits(s: string) { forall i :: 0 <= i < |s| ==> IsDigit(s[i]) }

  function DigitValue(c: char): (d: nat)
    requires IsDigit(c)
    ensures d < 10
  {
    (c as int) - ('0' as int)
  }

  function DigitChar(d: nat): (c: char)
    requires d < 10
    ensures IsDigit(c) && DigitValue(c) == d
  {
    ('0' as int + d) as char
  }

  /** The value of a run of decimal digits, most significant first. */
  function DigitsValue(s: string): nat
    requires AllDigits(s)
    decreases |s|
  {
    if s == [] then 0 else 10 * DigitsValue(s[..|s| - 1]) + DigitValue(s[|s| - 1])
  }

  /** Decimal rendering of a natural number, without leading zeros. */
  function NatToString(n: nat): (r: string)
    ensures |r| > 0 && AllDigits(r)
    ensures DigitsValue(r) == n
    ensures r[0] == '0' ==> r == "0"
    decreases n
  {
    if n < 10 then [DigitChar(n)]
    else
      var r := NatToString(n / 10) + [DigitChar(n % 10)];
      assert r[..|r| - 1] == NatToString(n / 10);
      r
  }

  /** Decimal rendering of an integer: a minus sign, then the digits of its magnitude. */
  function IntToString(i: int): string {
    if i < 0 then "-" + NatToString(-i) else NatToString(i)
  }

  /** The longest prefix of `s` made of decimal digits. */
  function DigitPrefix(s: string): (p: string)
    ensures |p| <= |s| && p == s[..|p|] && AllDigits(p)
    ensures |p| < |s| ==> !IsDigit(s[|p|])
  {
    if s == [] || !IsDigit(s[0]) then [] else [s[0]] + DigitPrefix(s[1..])
  }

  /** A digit run followed by the end or by a non-digit is exactly the digit prefix. */
  lemma {:induction false} DigitPrefixOfDigitsThen(d: string, rest: string)
    requires AllDigits(d)
    requires rest == [] || !IsDigit(rest[0])
    ensures DigitPrefix(d + rest) == d
  {
    if d != [] {
      assert (d + rest)[1..] == d[1..] + rest;
      DigitPrefixOfDigitsThen(d[1..], rest);
    }
  }

  /** WhiteSpace and LineTerminator code points of ECMAScript (what `trim` removes). */
  predicate IsJsWhitespace(c: char) {
    c == '\t' || c == '\n' || c == '\U{000B}' || c == '\U{000C}' || c == '\r' || c == ' '
    || c == '\U{00A0}' || c == '\U{1680}' || ('\U{2000}' <= c <= '\U{200A}')
    || c == '\U{2028}' || c == '\U{2029}' || c == '\U{202F}' || c == '\U{205F}'
    || c == '\U{3000}' || c == '\U{FEFF}'
  }

  function TrimStart(s: string): (r: string)
    ensures |r| <= |s| && r == s[|s| - |r|..]
    ensures r == [] || !IsJsWhitespace(r[0])
    ensures forall i :: 0 <= i < |s| - |r| ==> IsJsWhitespace(s[i])
  {
    if s != [] && IsJsWhitespace(s[0]) then
      var r := TrimStart(s[1..]);
      assert s[1..][|s| - 1 - |r|..] == s[|s| - |r|..];
      assert forall i :: 1 <= i < |s| - |r| ==> s[i] == s[1..][i - 1];
      r
    else s
  }

  function TrimEnd(s: string): (r: string)
    ensures |r| <= |s| && r == s[..|r|]
    ensures r == [] || !IsJsWhitespace(r[|r| - 1])
    ensures forall i :: |r| <= i < |s| ==> IsJsWhitespace(s[i])
  {
    if s != [] && IsJsWhitespace(s[|s| - 1]) then
      var r := TrimEnd(s[..|s| - 1]);
      assert s[..|s| - 1][..|r|] == s[..|r|];
      assert forall i :: |r| <= i < |s| - 1 ==> s[i] == s[..|s| - 1][i];
      r
    else s
  }

  /** JavaScript's `String.prototype.trim`. */
  function Trim(s: string): string {
    TrimEnd(TrimStart(s))
  }

  /** A string is blank (`!s.trim()` holds) iff it has only whitespace. */
  lemma TrimEmptyIffBlank(s: string)
    ensures Trim(s) == [] <==> forall i :: 0 <= i < |s| ==> IsJsWhitespace(s[i])
  {
    var t := TrimStart(s);
    if Trim(s) == [] {
      forall i | 0 <= i < |s| ensures IsJsWhitespace(s[i]) {
        if i >= |s| - |t| {
          assert s[i] == t[i - (|s| - |t|)];
        }
      }
    } else {
      var k := |s| - |t|;
      assert Trim(s)[0] == t[0] == s[k];
      assert !IsJsWhitespace(s[k]);
    }
  }

  function LowerChar(c: char): char {
    if 'A' <= c <= 'Z' then (c as int + 32) as char else c
  }

  function UpperChar(c: char): char {
    if 'a' <= c <= 'z' then (c as int - 32) as char else c
  }

  /** `toLowerCase`, on the ASCII letters. */
  function ToLower(s: string): (r: string)
    ensures |r| == |s| && forall i :: 0 <= i < |s| ==> r[i] == LowerChar(s[i])
  {
    seq(|s|, i requires 0 <= i < |s| => LowerChar(s[i]))
  }

  /** Java's `String.equalsIgnoreCase`, on the ASCII letters. */
  predicate EqualsIgnoreCase(a: string, b: string) {
    ToLower(a) == ToLower(b)
  }

  // JavaScript parseInt(s) with no radix

  predicate IsHexDigit(c: char) { IsDigit(c) || 'a' <= c <= 'f' || 'A' <= c <= 'F' }

  function HexDigitValue(c: char): (d: nat)
    requires IsHexDigit(c)
    ensures d < 16
  {
    if IsDigit(c) then DigitValue(c)
    else if 'a' <= c <= 'f' then (c as int) - ('a' as int) + 10
    else (c as int) - ('A' as int) + 10
  }

  function HexPrefix(s: string): (p: string)
    ensures |p| <= |s| && p == s[..|p|]
    ensures forall i :: 0 <= i < |p| ==> IsHexDigit(p[i])
  {
    if s == [] || !IsHexDigit(s[0]) then [] else [s[0]] + HexPrefix(s[1..])
  }

  function HexValue(s: string): nat
    requires forall i :: 0 <= i < |s| ==> IsHexDigit(s[i])
    decreases |s|
  {
    if s == [] then 0 else 16 * HexValue(s[..|s| - 1]) + HexDigitValue(s[|s| - 1])
  }

  /** The unsigned part of `parseInt`: a `0x`/`0X` prefix selects hexadecimal. */
  function ParseMagnitudeJs(u: string): Option<nat> {
    if |u| >= 2 && u[0] == '0' && (u[1] == 'x' || u[1] == 'X') then
      var h := HexPrefix(u[2..]);
      if h == [] then None else Some(HexValue(h))
    else
      var d := DigitPrefix(u);
      if d == [] then None else Some(DigitsValue(d))
  }

  /**
   * `parseInt(s)`: leading whitespace is skipped, one sign is read, and the
   * longest run of digits that follows is the value; `None` stands for NaN
   * (no digit at all).
   */
  function ParseIntJs(s: string): Option<int> {
    var t := TrimStart(s);
    var negative := t != [] && t[0] == '-';
    var u := if t != [] && (t[0] == '-' || t[0] == '+') then t[1..] else t;
    match ParseMagnitudeJs(u)
    case None => None
    case Some(m) => if negative then Some(0 - m) else Some(m)
  }

  /** A decimal digit run is read as its value. */
  lemma ParseMagnitudeJsOfDigits(d: string)
    requires d != [] && AllDigits(d)
    ensures ParseMagnitudeJs(d) == Some(DigitsValue(d))
  {
    assert !(|d| >= 2 && d[1] == 'x') && !(|d| >= 2 && d[1] == 'X');
    DigitPrefixOfDigitsThen(d, []);
    assert d + [] == d;
  }

  lemma ParseIntJsOfDigits(d: string)
    requires d != [] && AllDigits(d)
    ensures ParseIntJs(d) == Some(DigitsValue(d))
  {
    ParseMagnitudeJsOfDigits(d);
    assert IsDigit(d[0]);
    assert !IsJsWhitespace(d[0]);
    assert TrimStart(d) == d;
    assert d[0] != '-' && d[0] != '+';
    assert ParseIntJs(d) == (match ParseMagnitudeJs(d) case None => None case Some(m) => Some(m));
  }

  /** Text that does not start with white space is left alone by `TrimStart`. */
  lemma TrimStartKeeps(s: string)
    requires s != [] && !IsJsWhitespace(s[0])
    ensures TrimStart(s) == s
  {
  }

  /** Text that neither starts nor ends with white space is left alone by `trim`. */
  lemma TrimOfUnpadded(s: string)
    requires s != [] && !IsJsWhitespace(s[0]) && !IsJsWhitespace(s[|s| - 1])
    ensures Trim(s) == s
  {
    TrimStartKeeps(s);
  }

  lemma ParseIntJsOfNegativeDigits(d: string)
    requires d != [] && AllDigits(d)
    ensures ParseIntJs("-" + d) == Some(0 - DigitsValue(d))
  {
    var t := "-" + d;
    assert t[0] == '-' && t[1..] == d;
    TrimStartKeeps(t);
    ParseMagnitudeJsOfDigits(d);
  }

  /**
   * JavaScript's `ToNumber` on text, for the forms a wait time takes: blank
   * text is 0 and an optionally signed run of decimal digits is its value,
   * once surrounding white space is trimmed. `None` stands for NaN.
   */
  function NumberOfTextJs(t: string): Option<real> {
    var s := Trim(t);
    if s == [] then Some(0.0)
    else if AllDigits(s) then Some(DigitsValue(s) as real)
    else if (s[0] == '-' || s[0] == '+') && |s| > 1 && AllDigits(s[1..]) then
      Some(if s[0] == '-' then 0.0 - DigitsValue(s[1..]) as real else DigitsValue(s[1..]) as real)
    else None
  }

  /** `parseInt(String(n))` gives back `n` for every integer. */
  lemma ParseIntJsOfIntToString(n: int)
    ensures ParseIntJs(IntToString(n)) == Some(n)
  {
    if n < 0 {
      ParseIntJsOfNegativeDigits(NatToString(-n));
    } else {
      ParseIntJsOfDigits(NatToString(n));
    }
  }
}
