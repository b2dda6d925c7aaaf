/** Calendar dates and the date-window filters every statistic uses. */
module Dates {

  /** A calendar date as the number of days since 1970-01-01 (UTC). Two ISO
      "YYYY-MM-DD" strings compare as strings in the same order as their day
      numbers, so the source's string comparisons `date >= cutoff` become
      integer comparisons here. */
  type Day = int

  /** The date `days` days before `today` (the source's `daysAgo` and
      `daysAgoString`, with the clock passed in). */
  function DaysAgo(today: Day, days: int): (d: Day)
    ensures d + days == today
    ensures days >= 0 ==> d <= today
  {
    today - days
  }

  /** The day of the week as JavaScript's `getDay` numbers it (0 = Sunday);
      1970-01-01 was a Thursday. */
  function Weekday(d: Day): (w: int)
    ensures 0 <= w < 7
    ensures w == 0 <==> (d + 4) % 7 == 0
  {
    (d + 4) % 7
  }

  lemma WeekdayAdvance(d: Day, i: nat)
    requires Weekday(d) == 0
    ensures Weekday(d + i) == i % 7
  {
    assert (d + 4) % 7 == 0;
    var q := (d + 4) / 7;
    assert d + 4 == 7 * q;
    assert d + i + 4 == 7 * q + i;
    assert (7 * q + i) % 7 == i % 7;
  }

  /** The elements of `s` that satisfy `p`, in their original order
      (JavaScript's `Array.prototype.filter`). */
  function Filter<T>(s: seq<T>, p: T -> bool): (r: seq<T>)
    ensures |r| <= |s|
    ensures forall x :: x in r ==> x in s && p(x)
    ensures forall x :: x in s && p(x) ==> x in r
  {
    if s == [] then [] else (if p(s[0]) then [s[0]] else []) + Filter(s[1..], p)
  }

  /** Filtering distributes over concatenation; with FilterSingleton this
      says the result is the order-preserving subsequence of kept elements. */
  lemma {:induction false} FilterAppend<T>(a: seq<T>, b: seq<T>, p: T -> bool)
    ensures Filter(a + b, p) == Filter(a, p) + Filter(b, p)
  {
    if a == [] {
      assert a + b == b;
    } else {
      assert (a + b)[0] == a[0];
      assert (a + b)[1..] == a[1..] + b;
      FilterAppend(a[1..], b, p);
    }
  }

  lemma FilterSingleton<T>(x: T, p: T -> bool)
    ensures Filter([x], p) == if p(x) then [x] else []
  {
    assert [x][1..] == [];
  }

  /** Filtering by a weaker predicate keeps at least as many elements. */
  lemma {:induction false} FilterWeaker<T>(s: seq<T>, p: T -> bool, q: T -> bool)
    requires forall x :: p(x) ==> q(x)
    ensures |Filter(s, p)| <= |Filter(s, q)|
    ensures Filter(Filter(s, q), p) == Filter(s, p)
  {
    if s != [] {
      FilterWeaker(s[1..], p, q);
      var rest := Filter(s[1..], q);
      FilterAppend(if q(s[0]) then [s[0]] else [], rest, p);
      FilterSingleton(s[0], p);
    }
  }

  /** Filtering by a predicate every element meets keeps everything. */
  lemma {:induction false} FilterAll<T>(s: seq<T>, p: T -> bool)
    requires forall x :: x in s ==> p(x)
    ensures Filter(s, p) == s
  {
    if s != [] {
      FilterAll(s[1..], p);
      assert [s[0]] + s[1..] == s;
    }
  }

  /** The elements dated on or after `cutoff`: `entries.filter(e => e.date >= cutoff)`. */
  function Since<T>(s: seq<T>, date: T -> Day, cutoff: Day): (r: seq<T>)
    ensures forall x :: x in r ==> x in s && date(x) >= cutoff
    ensures forall x :: x in s && date(x) >= cutoff ==> x in r
    ensures |r| <= |s|
  {
    Filter(s, x => date(x) >= cutoff)
  }

  /** The elements dated on or before `cutoff`: `entries.filter(e => e.date <= cutoff)`. */
  function UpTo<T>(s: seq<T>, date: T -> Day, cutoff: Day): (r: seq<T>)
    ensures forall x :: x in r ==> x in s && date(x) <= cutoff
    ensures forall x :: x in s && date(x) <= cutoff ==> x in r
    ensures |r| <= |s|
  {
    Filter(s, x => date(x) <= cutoff)
  }

  /** Windows distribute over concatenation, so a window keeps the order of
      the entries it selects. */
  lemma SinceAppend<T>(a: seq<T>, b: seq<T>, date: T -> Day, cutoff: Day)
    ensures Since(a + b, date, cutoff) == Since(a, date, cutoff) + Since(b, date, cutoff)
  {
    FilterAppend(a, b, x => date(x) >= cutoff);
  }

  lemma SinceSingleton<T>(x: T, date: T -> Day, cutoff: Day)
    ensures Since([x], date, cutoff) == if date(x) >= cutoff then [x] else []
  {
    FilterSingleton(x, y => date(y) >= cutoff);
  }

  /** A window that every element falls in keeps them all. */
  lemma SinceAll<T>(s: seq<T>, date: T -> Day, cutoff: Day)
    requires forall x :: x in s ==> date(x) >= cutoff
    ensures Since(s, date, cutoff) == s
  {
    FilterAll(s, x => date(x) >= cutoff);
  }

  /** A later cutoff keeps a sub-window of an earlier one: the window of the
      later cutoff is the earlier window filtered again. */
  lemma SinceNested<T>(s: seq<T>, date: T -> Day, early: Day, late: Day)
    requires early <= late
    ensures Since(Since(s, date, early), date, late) == Since(s, date, late)
    ensures |Since(s, date, late)| <= |Since(s, date, early)|
  {
    FilterWeaker(s, x => date(x) >= late, x => date(x) >= early);
  }
}
