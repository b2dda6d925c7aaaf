/** Exact arithmetic for the averages the dashboard reports. */
module Numeric {

  /** Rounding to one decimal place, half up: `Math.round(x * 10) / 10`.
      The result is a whole number of tenths within a twentieth of `x`. */
  function Round1(x: real): (r: real)
    ensures x - 0.05 < r <= x + 0.05
    ensures (r * 10.0).Floor as real == r * 10.0
  {
    (x * 10.0 + 0.5).Floor as real / 10.0
  }

  /** A number that is already a whole number of tenths is left unchanged. */
  lemma Round1Tenths(k: int)
    ensures Round1(k as real / 10.0) == k as real / 10.0
  {
    var x := k as real / 10.0;
    assert x * 10.0 + 0.5 == k as real + 0.5;
    assert (k as real + 0.5).Floor == k;
  }

  lemma Round1Monotone(x: real, y: real)
    requires x <= y
    ensures Round1(x) <= Round1(y)
  {
    assert (x * 10.0 + 0.5).Floor <= (y * 10.0 + 0.5).Floor;
  }

  /** Rounding never leaves an interval whose ends are whole numbers. */
  lemma Round1Between(x: real, lo: int, hi: int)
    requires lo as real <= x <= hi as real
    ensures lo as real <= Round1(x) <= hi as real
  {
    Round1Monotone(lo as real, x);
    Round1Monotone(x, hi as real);
    Round1Tenths(10 * lo);
    Round1Tenths(10 * hi);
    assert (10 * lo) as real / 10.0 == lo as real;
    assert (10 * hi) as real / 10.0 == hi as real;
  }

  /** `Number(x.toFixed(1))`: the magnitude rounded half up to a tenth and
      the sign put back, so a negative half tenth rounds away from zero. It
      agrees with `Round1` on non-negative numbers. */
  function Fixed1(x: real): (r: real)
    ensures x - 0.05 <= r <= x + 0.05
    ensures (r * 10.0).Floor as real == r * 10.0
    ensures x >= 0.0 ==> r == Round1(x)
  {
    if x < 0.0 then
      NegatedTenths(Round1(-x));
      -Round1(-x)
    else Round1(x)
  }

  lemma NegatedTenths(m: real)
    requires (m * 10.0).Floor as real == m * 10.0
    ensures ((-m) * 10.0).Floor as real == (-m) * 10.0
  {
    var k := (m * 10.0).Floor;
    assert (-m) * 10.0 == (-k) as real;
  }

  /** The sign is set aside while rounding: a number and its negation round
      to opposite values. */
  lemma Fixed1Odd(x: real)
    ensures Fixed1(-x) == -Fixed1(x)
  {
    if x == 0.0 {
      Round1Tenths(0);
    }
  }

  /** The two roundings part only on negative numbers half way between two
      tenths: -0.25 is -0.3 for `toFixed` and -0.2 for `Math.round`. */
  lemma Fixed1HalfTenth()
    ensures Fixed1(-0.25) == -0.3 && Round1(-0.25) == -0.2
  {
    assert (2.5 + 0.5).Floor == 3;
    assert (-2.5 + 0.5).Floor == -2;
  }

  lemma Fixed1Monotone(x: real, y: real)
    requires x <= y
    ensures Fixed1(x) <= Fixed1(y)
  {
    if 0.0 <= x {
      Round1Monotone(x, y);
    } else if y < 0.0 {
      Round1Monotone(-y, -x);
    } else {
      Round1Monotone(0.0, -x);
      Round1Monotone(0.0, y);
      Round1Tenths(0);
    }
  }

  /** A number that is already a whole number of tenths is left unchanged. */
  lemma Fixed1Tenths(k: int)
    ensures Fixed1(k as real / 10.0) == k as real / 10.0
  {
    if k < 0 {
      Round1Tenths(-k);
      assert -(k as real / 10.0) == (-k) as real / 10.0;
    } else {
      Round1Tenths(k);
    }
  }

  /** Rounding never leaves an interval whose ends are whole numbers. */
  lemma Fixed1Between(x: real, lo: int, hi: int)
    requires lo as real <= x <= hi as real
    ensures lo as real <= Fixed1(x) <= hi as real
  {
    Fixed1Monotone(lo as real, x);
    Fixed1Monotone(x, hi as real);
    Fixed1Tenths(10 * lo);
    Fixed1Tenths(10 * hi);
    assert (10 * lo) as real / 10.0 == lo as real;
    assert (10 * hi) as real / 10.0 == hi as real;
  }

  /** The sum of a sequence of reals (a `reduce((acc, x) => acc + x, 0)`). */
  function Sum(s: seq<real>): real
  {
    if s == [] then 0.0 else s[0] + Sum(s[1..])
  }

  lemma {:induction false} SumAppend(a: seq<real>, b: seq<real>)
    ensures Sum(a + b) == Sum(a) + Sum(b)
  {
    if a == [] {
      assert a + b == b;
    } else {
      assert (a + b)[1..] == a[1..] + b;
      SumAppend(a[1..], b);
    }
  }

  /** Every term lies in [lo, hi], so the sum lies in [|s| lo, |s| hi]. */
  lemma {:induction false} SumBounds(s: seq<real>, lo: real, hi: real)
    requires forall i :: 0 <= i < |s| ==> lo <= s[i] <= hi
    ensures |s| as real * lo <= Sum(s) <= |s| as real * hi
  {
    if s != [] {
      assert forall i :: 0 <= i < |s[1..]| ==> s[1..][i] == s[i + 1];
      SumBounds(s[1..], lo, hi);
    }
  }

  /** The mean of a non-empty sequence lies between its bounds. */
  lemma MeanBounds(s: seq<real>, lo: real, hi: real)
    requires |s| > 0
    requires forall i :: 0 <= i < |s| ==> lo <= s[i] <= hi
    ensures lo <= Sum(s) / |s| as real <= hi
  {
    SumBounds(s, lo, hi);
    var n := |s| as real;
    assert lo * n <= Sum(s) <= hi * n;
    DivBetween(Sum(s), n, lo, hi);
  }

  lemma NonPositiveFactor(a: real, n: real)
    requires n > 0.0 && a * n <= 0.0
    ensures a <= 0.0
  {
  }

  /** Dividing by a positive number keeps a value between the bounds it had
      as a multiple of that number. */
  lemma DivBetween(x: real, n: real, lo: real, hi: real)
    requires n > 0.0 && lo * n <= x <= hi * n
    ensures lo <= x / n <= hi
  {
    var q := x / n;
    assert q * n == x;
    assert (lo - q) * n == lo * n - x;
    assert (q - hi) * n == x - hi * n;
    NonPositiveFactor(lo - q, n);
    NonPositiveFactor(q - hi, n);
  }
}
