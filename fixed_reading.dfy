/** `Number` reads back what `toFixed(1)` printed: the magnitude rounded
    half up to a whole number of tenths, with its sign. */
module FixedReading {
  import opened Wrappers
  import opened Numeric
  import opened Text
  import opened NumberReading

  lemma ToNumberOfFixed(x: real)
    ensures ToNumber(ToFixed1(x)) ==
      Some(if x < 0.0 then -(Tenths(-x) as real / 10.0) else Tenths(x) as real / 10.0)
  {
    if x < 0.0 {
      NegativeFixedReads(x);
    } else {
      PositiveFixedReads(x);
    }
  }

  lemma PositiveFixedReads(x: real)
    requires x >= 0.0
    ensures ToNumber(ToFixed1(x)) == Some(Tenths(x) as real / 10.0)
  {
    ReadsAsTenths(ToFixed1(x), Tenths(x));
  }

  lemma NegativeFixedReads(x: real)
    requires x < 0.0
    ensures ToNumber(ToFixed1(x)) == Some(-(Tenths(-x) as real / 10.0))
  {
    ReadsAsNegatedTenths(ToFixed1(x), Tenths(-x));
  }

  lemma ReadsAsTenths(s: string, n: nat)
    requires s == FixedDigits(n)
    ensures ToNumber(s) == Some(n as real / 10.0)
  {
    ToNumberOfFixedDigits(n);
  }

  lemma ReadsAsNegatedTenths(s: string, n: nat)
    requires s == "-" + FixedDigits(n)
    ensures ToNumber(s) == Some(-(n as real / 10.0))
  {
    ToNumberOfNegativeFixedDigits(n);
  }

  /** `Number(x.toFixed(1))` is `Fixed1(x)`, for negative numbers too. */
  lemma FixedReadsAsFixed1(x: real)
    ensures ToNumber(ToFixed1(x)) == Some(Fixed1(x))
  {
    ToNumberOfFixed(x);
    Fixed1IsTenths(x);
  }

  lemma Fixed1IsTenths(x: real)
    ensures Fixed1(x) == if x < 0.0 then -(Tenths(-x) as real / 10.0) else Tenths(x) as real / 10.0
  {
    if x < 0.0 {
      Round1IsTenths(-x);
    } else {
      Round1IsTenths(x);
    }
  }

  lemma Round1IsTenths(y: real)
    ensures Round1(y) == Tenths(y) as real / 10.0
  {
  }

  /** `toFixed(1)` rounds a magnitude the way `Round1` does. */
  lemma FixedRoundsAsRound1(v: Option<real>, x: real)
    requires v == Some(if x < 0.0 then -(Tenths(-x) as real / 10.0) else Tenths(x) as real / 10.0)
    ensures v == Some(if x < 0.0 then -Round1(-x) else Round1(x))
  {
  }
}
