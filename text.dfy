/** The string primitives of JavaScript that the parsers and formatters rely
    on: decimal digits, integer printing, `parseInt`, `parseFloat`,
    `Number(string)`, `trim` and `toLowerCase`. */
module Text {
  import opened Wrappers
  import opened Numeric

  predicate IsDigit(c: char) {
    '0' <= c <= '9'
  }

  predicate AllDigits(s: string) {
    forall i :: 0 <= i < |s| ==> IsDigit(s[i])
  }

  function DigitChar(d: nat): (c: char)
    requires d < 10
    ensures IsDigit(c) && c as int - '0' as int == d
  {
    (d + '0' as int) as char
  }

  /** The number a run of decimal digits denotes. */
  function DigitsValue(s: string): nat
    requires AllDigits(s)
  {
    if s == [] then 0 else 10 * DigitsValue(s[..|s| - 1]) + (s[|s| - 1] as int - '0' as int)
  }

  /** The decimal numeral of a natural number, without leading zeros
      (JavaScript's `String(n)` and template interpolation of an integer). */
  function NatToString(n: nat): (s: string)
    ensures |s| > 0 && AllDigits(s)
    ensures s[0] == '0' ==> n == 0
  {
    if n < 10 then [DigitChar(n)] else NatToString(n / 10) + [DigitChar(n % 10)]
  }

  function IntToString(i: int): (s: string)
    ensures |s| > 0
    ensures i >= 0 ==> s == NatToString(i)
    ensures i < 0 ==> s == "-" + NatToString(-i)
  {
    if i < 0 then "-" + NatToString(-i) else NatToString(i)
  }

  /** Reading a printed numeral back gives the number. */
  lemma {:induction false} NatToStringValue(n: nat)
    ensures DigitsValue(NatToString(n)) == n
  {
    if n >= 10 {
      NatToStringValue(n / 10);
      var s := NatToString(n);
      assert s[..|s| - 1] == NatToString(n / 10);
    }
  }

  /** Printed numerals of distinct numbers differ. */
  lemma NatToStringInjective(m: nat, n: nat)
    requires NatToString(m) == NatToString(n)
    ensures m == n
  {
    NatToStringValue(m);
    NatToStringValue(n);
  }

  /** Two decimal digits, zero-padded (`padStart(2, "0")`). */
  function Pad2(n: nat): (s: string)
    requires n < 100
    ensures |s| == 2 && AllDigits(s)
    ensures DigitsValue(s) == n
  {
    var s := [DigitChar(n / 10), DigitChar(n % 10)];
    assert s[..1] == [DigitChar(n / 10)] && s[..1][..0] == [];
    assert DigitsValue(s[..1]) == n / 10;
    s
  }

  /** Four decimal digits, zero-padded. */
  function Pad4(n: nat): (s: string)
    requires n < 10000
    ensures |s| == 4 && AllDigits(s)
    ensures DigitsValue(s) == n
  {
    var a, b := Pad2(n / 100), Pad2(n % 100);
    DigitsValueAppend2(a, b);
    a + b
  }

  lemma DigitsValueAppend2(a: string, b: string)
    requires AllDigits(a) && AllDigits(b) && |b| == 2
    ensures AllDigits(a + b) && DigitsValue(a + b) == 100 * DigitsValue(a) + DigitsValue(b)
  {
    var s, t := a + b, a + b[..1];
    assert s[..|s| - 1] == t && t[..|t| - 1] == a;
    assert b[..1][..0] == [];
    var d0, d1 := b[0] as int - '0' as int, b[1] as int - '0' as int;
    assert DigitsValue(b[..1]) == d0;
    assert DigitsValue(b) == 10 * d0 + d1;
    assert DigitsValue(t) == 10 * DigitsValue(a) + d0;
  }

  /** The length of the run of digits that `s` starts with. */
  function DigitRun(s: string): (k: nat)
    ensures k <= |s| && AllDigits(s[..k])
    ensures k < |s| ==> !IsDigit(s[k])
  {
    if s != [] && IsDigit(s[0]) then
      var k := 1 + DigitRun(s[1..]);
      assert s[..k] == [s[0]] + s[1..][..k - 1];
      k
    else 0
  }

  /** The white-space and line-terminator characters that JavaScript's
      `trim`, `parseInt`, `parseFloat` and `Number` skip. */
  predicate IsSpace(c: char) {
    c == '\t' || c == '\n' || c == '\U{000B}' || c == '\U{000C}' || c == '\r' || c == ' '
    || c == '\U{00A0}' || c == '\U{1680}' || ('\U{2000}' <= c <= '\U{200A}')
    || c == '\U{2028}' || c == '\U{2029}' || c == '\U{202F}' || c == '\U{205F}'
    || c == '\U{3000}' || c == '\U{FEFF}'
  }

  function TrimStart(s: string): (r: string)
    ensures |r| <= |s| && r == s[|s| - |r|..]
    ensures r != [] ==> !IsSpace(r[0])
    ensures forall i :: 0 <= i < |s| - |r| ==> IsSpace(s[i])
  {
    if s != [] && IsSpace(s[0]) then TrimStart(s[1..]) else s
  }

  function TrimEnd(s: string): (r: string)
    ensures |r| <= |s| && r == s[..|r|]
    ensures r != [] ==> !IsSpace(r[|r| - 1])
    ensures forall i :: |r| <= i < |s| ==> IsSpace(s[i])
  {
    if s != [] && IsSpace(s[|s| - 1]) then TrimEnd(s[..|s| - 1]) else s
  }

  /** `String.prototype.trim`. */
  function Trim(s: string): (r: string)
    ensures r != [] ==> !IsSpace(r[0]) && !IsSpace(r[|r| - 1])
    ensures |r| <= |s|
  {
    TrimEnd(TrimStart(s))
  }

  /** A string that neither starts nor ends with white space trims to itself. */
  lemma TrimUnspaced(s: string)
    requires s != [] ==> !IsSpace(s[0]) && !IsSpace(s[|s| - 1])
    ensures Trim(s) == s
  {
  }

  /** A string trims to nothing exactly when it is all white space. */
  lemma TrimEmpty(s: string)
    ensures Trim(s) == [] <==> forall i :: 0 <= i < |s| ==> IsSpace(s[i])
  {
    var t := TrimStart(s);
    assert forall i :: |s| - |t| <= i < |s| ==> s[i] == t[i - (|s| - |t|)];
  }

  /** A string's JavaScript `length`: the number of UTF-16 code units, one
      for a character of the basic plane and two (a surrogate pair) for a
      character above U+FFFF. */
  function Utf16Length(s: string): (n: nat)
    ensures |s| <= n <= 2 * |s|
  {
    if s == [] then 0
    else Utf16Length(s[..|s| - 1]) + (if s[|s| - 1] as int > 0xFFFF then 2 else 1)
  }

  /** The length of a concatenation is the sum of the lengths. */
  lemma {:induction false} Utf16LengthAppend(a: string, b: string)
    ensures Utf16Length(a + b) == Utf16Length(a) + Utf16Length(b)
  {
    if b == [] {
      assert a + b == a;
    } else {
      assert (a + b)[..|a + b| - 1] == a + b[..|b| - 1];
      Utf16LengthAppend(a, b[..|b| - 1]);
    }
  }

  /** A string of basic-plane characters has one code unit per character,
      and only such a string has. */
  lemma {:induction false} Utf16LengthBasic(s: string)
    ensures Utf16Length(s) == |s| <==> forall i :: 0 <= i < |s| ==> s[i] as int <= 0xFFFF
  {
    if s != [] {
      var p := s[..|s| - 1];
      Utf16LengthBasic(p);
      assert forall i :: 0 <= i < |p| ==> p[i] == s[i];
    }
  }

  /** `String.prototype.toLowerCase` on the ASCII letters. */
  function ToLower(s: string): (r: string)
    ensures |r| == |s|
    ensures forall i :: 0 <= i < |s| ==>
      r[i] == if 'A' <= s[i] <= 'Z' then (s[i] as int + 32) as char else s[i]
  {
    if s == [] then []
    else [if 'A' <= s[0] <= 'Z' then (s[0] as int + 32) as char else s[0]] + ToLower(s[1..])
  }

  /** `Number.parseInt(s, 10)`: skip leading white space, read an optional
      sign and the longest run of digits that follows; anything after it is
      ignored. None is JavaScript's NaN (no digit where one is needed). */
  function ParseInt(s: string): (r: Option<int>)
    ensures r.None? <==>
      var t := TrimStart(s);
      var u := if t != [] && (t[0] == '-' || t[0] == '+') then t[1..] else t;
      u == [] || !IsDigit(u[0])
  {
    var t := TrimStart(s);
    var negative := t != [] && t[0] == '-';
    var u := if t != [] && (t[0] == '-' || t[0] == '+') then t[1..] else t;
    var k := DigitRun(u);
    if k == 0 then None
    else
      var n: int := DigitsValue(u[..k]);
      Some(if negative then -n else n)
  }

  lemma TrimStartUnspaced(s: string)
    requires s != [] && !IsSpace(s[0])
    ensures TrimStart(s) == s
  {
  }

  /** An unsigned decimal literal at the start of `s`: digits, optionally a
      point and more digits, with at least one digit in all. Returns the
      value and the number of characters read (0 when there is none). */
  function DecimalPrefix(s: string): (r: (real, nat))
    ensures r.1 <= |s|
    ensures r.1 == 0 ==> r.0 == 0.0
    ensures r.0 >= 0.0
  {
    var k := DigitRun(s);
    var whole := DigitsValue(s[..k]) as real;
    if k < |s| && s[k] == '.' then
      var (frac, f) := FractionPart(s[k + 1..]);
      if k + f == 0 then (0.0, 0) else (whole + frac, k + 1 + f)
    else (whole, k)
  }

  /** The digits after a decimal point: their value as a fraction and how
      many there are. */
  function FractionPart(t: string): (r: (real, nat))
    ensures r.1 <= |t| && r.0 >= 0.0
  {
    var f := DigitRun(t);
    (DigitsValue(t[..f]) as real / Pow10(f) as real, f)
  }

  function Pow10(n: nat): (p: nat)
    ensures p >= 1
  {
    if n == 0 then 1 else 10 * Pow10(n - 1)
  }

  /** An optional sign followed by a decimal literal at the start of `s`. */
  function SignedDecimalPrefix(s: string): (r: (real, nat))
    ensures r.1 <= |s|
  {
    var signed := s != [] && (s[0] == '-' || s[0] == '+');
    var u := if signed then s[1..] else s;
    var (v, k) := DecimalPrefix(u);
    if k == 0 then (0.0, 0)
    else ((if s[0] == '-' then -v else v), k + (if signed then 1 else 0))
  }

  /** `Number.parseFloat(s)` for decimal notation: skip leading white space
      and read the longest signed decimal literal there. */
  function ParseFloat(s: string): (r: Option<real>)
    ensures r.None? <==> SignedDecimalPrefix(TrimStart(s)).1 == 0
  {
    var (v, k) := SignedDecimalPrefix(TrimStart(s));
    if k == 0 then None else Some(v)
  }

  /** `Number(s)` for decimal notation: after trimming, the empty string is
      0 and otherwise the whole rest must be one signed decimal literal. */
  function ToNumber(s: string): (r: Option<real>)
    ensures Trim(s) == [] ==> r == Some(0.0)
    ensures Trim(s) != [] ==>
      (r.Some? <==> SignedDecimalPrefix(Trim(s)).1 == |Trim(s)|)
  {
    var t := Trim(s);
    if t == [] then Some(0.0)
    else
      var (v, k) := SignedDecimalPrefix(t);
      if k == |t| then Some(v) else None
  }

  /** Whether a number read by `Number` or `parseFloat` is a whole number
      (`Number.isInteger`). */
  predicate IsWhole(x: real) {
    x.Floor as real == x
  }

  /** The tenths a magnitude rounds to, half up. */
  function Tenths(y: real): int {
    (y * 10.0 + 0.5).Floor
  }

  /** `Number.prototype.toFixed(1)`: the magnitude rounded half up to one
      decimal, with a minus sign when the number is negative (so a small
      negative number prints as "-0.0"). */
  function ToFixed1(x: real): (s: string)
    ensures |s| >= 3
    ensures x < 0.0 ==> s[0] == '-'
    ensures x >= 0.0 ==> IsDigit(s[0])
  {
    var y := if x < 0.0 then -x else x;
    var n := Tenths(y);
    assert n >= 0;
    if x < 0.0 then "-" + FixedDigits(n) else FixedDigits(n)
  }

  /** The digits `toFixed(1)` prints for a magnitude of `n` tenths: the
      whole part, a point and the tenth digit. */
  function FixedDigits(n: nat): (s: string)
    ensures |s| >= 3 && IsDigit(s[0])
  {
    NatToString(n / 10) + "." + [DigitChar(n % 10)]
  }

}
