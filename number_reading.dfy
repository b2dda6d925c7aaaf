/** What JavaScript's readers make of what its printers wrote: `parseInt`
    and `Number` read back the numerals of `String`, and `Number` reads
    back what `toFixed(1)` printed as the rounded value. */
module NumberReading {
  import opened Wrappers
  import opened Numeric
  import opened Text

  lemma {:induction false} DigitRunOfDigits(d: string, rest: string)
    requires AllDigits(d)
    requires rest == [] || !IsDigit(rest[0])
    ensures DigitRun(d + rest) == |d|
  {
    if d != [] {
      assert (d + rest)[1..] == d[1..] + rest;
      DigitRunOfDigits(d[1..], rest);
    } else {
      assert d + rest == rest;
    }
  }

  /** The digits of a number followed by something other than a digit:
      `parseInt` reads exactly that number. */
  lemma ParseIntOfDigits(d: string, rest: string)
    requires d != [] && AllDigits(d)
    requires rest == [] || !IsDigit(rest[0])
    ensures ParseInt(d + rest) == Some(DigitsValue(d) as int)
  {
    DigitsThenRest(d, rest);
    ParseIntUnsigned(d + rest, |d|);
  }

  /** The layout of a run of digits followed by a non-digit, with and
      without a minus sign in front. */
  lemma DigitsThenRest(d: string, rest: string)
    requires d != [] && AllDigits(d)
    requires rest == [] || !IsDigit(rest[0])
    ensures DigitRun(d + rest) == |d| && (d + rest)[..|d|] == d && IsDigit((d + rest)[0])
    ensures ("-" + (d + rest))[0] == '-' && ("-" + (d + rest))[1..] == d + rest
  {
    DigitRunOfDigits(d, rest);
    assert (d + rest)[..|d|] == d;
    assert (d + rest)[0] == d[0];
  }

  lemma ParseIntUnsigned(s: string, k: nat)
    requires 0 < k <= |s| && IsDigit(s[0]) && DigitRun(s) == k
    ensures ParseInt(s) == Some(DigitsValue(s[..k]) as int)
  {
    TrimStartUnspaced(s);
  }

  lemma ParseIntNegative(s: string, k: nat)
    requires 0 < k < |s| && s[0] == '-' && DigitRun(s[1..]) == k
    ensures ParseInt(s) == Some(-(DigitsValue(s[1..][..k]) as int))
  {
    TrimStartUnspaced(s);
  }

  /** `parseInt` reads back what `String` printed, with or without a minus
      sign, whatever non-digit follows it. */
  lemma ParseIntOfPrinted(n: nat, rest: string)
    requires rest == [] || !IsDigit(rest[0])
    ensures ParseInt(NatToString(n) + rest) == Some(n)
    ensures ParseInt("-" + (NatToString(n) + rest)) == Some(-(n as int))
  {
    PrintedThenRest(n, rest);
    var t := NatToString(n) + rest;
    ParseIntUnsigned(t, |NatToString(n)|);
    ParseIntNegative("-" + t, |NatToString(n)|);
  }

  lemma PrintedThenRest(n: nat, rest: string)
    requires rest == [] || !IsDigit(rest[0])
    ensures var k := |NatToString(n)|; var t := NatToString(n) + rest;
      && 0 < k <= |t| && DigitRun(t) == k && IsDigit(t[0]) && DigitsValue(t[..k]) == n
      && ("-" + t)[0] == '-' && ("-" + t)[1..] == t
  {
    NatToStringValue(n);
    DigitsThenRest(NatToString(n), rest);
  }

  lemma ParseIntOfNat(n: nat)
    ensures ParseInt(NatToString(n)) == Some(n)
  {
    var s := NatToString(n);
    ParseIntOfPrinted(n, []);
    assert s + [] == s;
  }

  lemma ParseIntOfNegativeNat(n: nat)
    ensures ParseInt("-" + NatToString(n)) == Some(-(n as int))
  {
    var s := NatToString(n);
    ParseIntOfPrinted(n, []);
    assert s + [] == s;
  }

  /** `parseInt` reads back every integer `String` prints. */
  lemma ParseIntOfIntToString(n: int)
    ensures ParseInt(IntToString(n)) == Some(n)
  {
    if n >= 0 {
      ReadsAsPrinted(IntToString(n), n);
    } else {
      ReadsAsNegated(IntToString(n), -n);
    }
  }

  lemma ReadsAsPrinted(s: string, n: nat)
    requires s == NatToString(n)
    ensures ParseInt(s) == Some(n)
  {
    ParseIntOfNat(n);
  }

  lemma ReadsAsNegated(s: string, n: nat)
    requires s == "-" + NatToString(n)
    ensures ParseInt(s) == Some(-(n as int))
  {
    ParseIntOfNegativeNat(n);
  }

  lemma DecimalPrefixOfDigits(d: string)
    requires d != [] && AllDigits(d)
    ensures DecimalPrefix(d) == (DigitsValue(d) as real, |d|)
  {
    DigitRunOfDigits(d, []);
    assert d + [] == d;
    assert d[..|d|] == d;
  }

  /** `Number` reads a run of digits as the number it denotes. */
  lemma ToNumberOfDigits(d: string)
    requires d != [] && AllDigits(d)
    ensures ToNumber(d) == Some(DigitsValue(d) as real)
  {
    TrimUnspaced(d);
    DecimalPrefixOfDigits(d);
    assert SignedDecimalPrefix(d) == (DigitsValue(d) as real, |d|);
  }

  /** `Number` reads a printed natural number back exactly. */
  lemma ToNumberOfPrinted(n: nat)
    ensures ToNumber(NatToString(n)) == Some(n as real)
  {
    NatToStringValue(n);
    ToNumberOfDigits(NatToString(n));
  }

  /** The fractional field of a printed "q.d" reads as one tenth per unit. */
  lemma DecimalPrefixOfFixed(q: nat, d: nat)
    requires d < 10
    ensures DecimalPrefix(NatToString(q) + "." + [DigitChar(d)])
            == (q as real + d as real / 10.0, |NatToString(q)| + 2)
  {
    NatToStringValue(q);
    FixedTextParts(NatToString(q), d);
    DecimalPrefixOfParts(NatToString(q) + "." + [DigitChar(d)], NatToString(q), d);
  }

  /** The layout of a digit string followed by a point and one digit. */
  lemma FixedTextParts(w: string, d: nat)
    requires AllDigits(w) && d < 10
    ensures var s := w + "." + [DigitChar(d)];
      && DigitRun(s) == |w| && s[..|w|] == w && |s| == |w| + 2
      && s[|w|] == '.' && s[|w| + 1] == DigitChar(d)
  {
    DigitRunOfDigits(w, "." + [DigitChar(d)]);
    assert w + "." + [DigitChar(d)] == w + ("." + [DigitChar(d)]);
  }

  lemma DecimalPrefixOfParts(s: string, w: string, d: nat)
    requires d < 10
    requires DigitRun(s) == |w| && s[..|w|] == w && |s| == |w| + 2
    requires s[|w|] == '.' && s[|w| + 1] == DigitChar(d)
    ensures DecimalPrefix(s) == (DigitsValue(w) as real + d as real / 10.0, |w| + 2)
  {
    OneDigitFraction(s[|w| + 1..], d);
  }

  /** A single digit after the point is worth a tenth of its value. */
  lemma OneDigitFraction(tail: string, d: nat)
    requires d < 10 && tail == [DigitChar(d)]
    ensures FractionPart(tail) == (d as real / 10.0, 1)
  {
    assert DigitRun(tail) == 1;
    assert tail[..1] == tail;
    assert DigitsValue(tail) == d by {
      assert tail[..0] == [];
    }
    assert Pow10(1) == 10 by {
      assert Pow10(0) == 1;
    }
  }

  /** `Number` of a trimmed string that is one signed decimal literal. */
  lemma ToNumberWhole(s: string)
    requires s != [] && !IsSpace(s[0]) && !IsSpace(s[|s| - 1])
    requires SignedDecimalPrefix(s).1 == |s|
    ensures ToNumber(s) == Some(SignedDecimalPrefix(s).0)
  {
    TrimUnspaced(s);
  }

  lemma SignedOfUnsigned(u: string)
    requires u != [] && IsDigit(u[0])
    ensures SignedDecimalPrefix(u) == DecimalPrefix(u)
  {
  }

  lemma SignedOfNegative(u: string)
    requires u != [] && DecimalPrefix(u).1 > 0
    ensures SignedDecimalPrefix("-" + u) == (-DecimalPrefix(u).0, DecimalPrefix(u).1 + 1)
  {
    assert ("-" + u)[1..] == u;
    SignedOfSigned("-" + u, u);
  }

  lemma SignedOfSigned(t: string, u: string)
    requires t != [] && t[0] == '-' && t[1..] == u && DecimalPrefix(u).1 > 0
    ensures SignedDecimalPrefix(t) == (-DecimalPrefix(u).0, DecimalPrefix(u).1 + 1)
  {
  }

  /** `Number` reads the digits printed for `n` tenths as `n / 10`. */
  lemma ToNumberOfFixedDigits(n: nat)
    ensures ToNumber(FixedDigits(n)) == Some(n as real / 10.0)
  {
    FixedDigitsLayout(n);
    ToNumberOfUnsigned(FixedDigits(n), n as real / 10.0);
  }

  /** ... and with a minus sign in front, as `-(n / 10)`. */
  lemma ToNumberOfNegativeFixedDigits(n: nat)
    ensures ToNumber("-" + FixedDigits(n)) == Some(-(n as real / 10.0))
  {
    NegatedFixedDigits(n);
    ToNumberOfSigned("-" + FixedDigits(n), -(n as real / 10.0));
  }

  /** The minus sign and the digits printed for `n` tenths form one signed
      literal worth `-(n / 10)`. */
  lemma NegatedFixedDigits(n: nat)
    ensures var t := "-" + FixedDigits(n);
      && t != [] && t[0] == '-' && IsDigit(t[|t| - 1]) && SignedDecimalPrefix(t) == (-(n as real / 10.0), |t|)
  {
    FixedDigitsLayout(n);
    NegatedLiteral(FixedDigits(n), n as real / 10.0);
  }

  lemma FixedDigitsLayout(n: nat)
    ensures var s := FixedDigits(n);
      && s != [] && IsDigit(s[0]) && IsDigit(s[|s| - 1])
      && DecimalPrefix(s) == (n as real / 10.0, |s|)
  {
    FixedLayout(n / 10, n % 10);
    TenthsSplit(n);
  }

  lemma FixedLayout(q: nat, d: nat)
    requires d < 10
    ensures var s := NatToString(q) + "." + [DigitChar(d)];
      && s != [] && IsDigit(s[0]) && IsDigit(s[|s| - 1])
      && DecimalPrefix(s) == (q as real + d as real / 10.0, |s|)
  {
    DecimalPrefixOfFixed(q, d);
    var s := NatToString(q) + "." + [DigitChar(d)];
    assert s[0] == NatToString(q)[0];
  }

  /** `Number` reads a literal that starts and ends with a digit. */
  lemma ToNumberOfUnsigned(s: string, v: real)
    requires s != [] && IsDigit(s[0]) && IsDigit(s[|s| - 1])
    requires DecimalPrefix(s) == (v, |s|)
    ensures ToNumber(s) == Some(v)
  {
    SignedOfUnsigned(s);
    ToNumberOfSigned(s, v);
  }

  /** ... and the same literal with a minus sign in front. */
  lemma ToNumberOfNegated(s: string, v: real)
    requires s != [] && IsDigit(s[0]) && IsDigit(s[|s| - 1])
    requires DecimalPrefix(s) == (v, |s|)
    ensures ToNumber("-" + s) == Some(-v)
  {
    NegatedLiteral(s, v);
    ToNumberOfSigned("-" + s, -v);
  }

  lemma NegatedLiteral(s: string, v: real)
    requires s != [] && IsDigit(s[|s| - 1])
    requires DecimalPrefix(s) == (v, |s|)
    ensures var t := "-" + s;
      && t != [] && t[0] == '-' && IsDigit(t[|t| - 1]) && SignedDecimalPrefix(t) == (-v, |t|)
  {
    SignedOfNegative(s);
    var t := "-" + s;
    assert t[|t| - 1] == s[|s| - 1];
  }

  /** A signed literal with nothing around it is read whole. */
  lemma ToNumberOfSigned(t: string, w: real)
    requires t != [] && (t[0] == '-' || IsDigit(t[0])) && IsDigit(t[|t| - 1])
    requires SignedDecimalPrefix(t) == (w, |t|)
    ensures ToNumber(t) == Some(w)
  {
    ToNumberWhole(t);
  }

  lemma TenthsSplit(n: int)
    requires n >= 0
    ensures (n / 10) as real + (n % 10) as real / 10.0 == n as real / 10.0
  {
    assert n == 10 * (n / 10) + n % 10;
  }
}
