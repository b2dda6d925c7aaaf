/** The weight statistics card, computed after the entries are loaded
    newest first: the current weight, the all-time extremes, the change over
    7, 30 and 90 days, the 30- and 90-day averages and the trend. */
module WeightStats {
  import opened Wrappers
  import opened Dates
  import opened Numeric
  import opened Constants

  datatype WeightEntry = WeightEntry(date: Day, weightKg: real)

  function EntryDate(e: WeightEntry): Day {
    e.date
  }

  /** The order the query returns: dates never increase along the list. */
  predicate NewestFirst(entries: seq<WeightEntry>) {
    forall i, j :: 0 <= i < j < |entries| ==> entries[i].date >= entries[j].date
  }

  // ---------------------------------------------------------------------
  // Change

  /** `computeChange`: the first entry's weight minus that of the first entry
      dated on or before `today - days`; null when there is none. */
  function ComputeChange(entries: seq<WeightEntry>, today: Day, days: int): (r: Option<real>)
    ensures r.None? <==> forall e :: e in entries ==> e.date > today - days
    ensures r.Some? ==> exists e :: e in entries && e.date <= today - days && r.value == entries[0].weightKg - e.weightKg
  {
    if |entries| == 0 then None
    else
      var current := entries[0];
      var pastEntries := UpTo(entries, EntryDate, DaysAgo(today, days));
      if |pastEntries| == 0 then None
      else
        assert pastEntries[0] in pastEntries;
        Some(current.weightKg - pastEntries[0].weightKg)
  }

  /** The first element of a window is the first element of the list that
      falls in it. */
  lemma {:induction false} UpToHead(s: seq<WeightEntry>, cutoff: Day)
    requires |UpTo(s, EntryDate, cutoff)| > 0
    ensures exists j :: 0 <= j < |s| && s[j] == UpTo(s, EntryDate, cutoff)[0] && (forall i :: 0 <= i < j ==> s[i].date > cutoff)
  {
    if s[0].date > cutoff {
      assert UpTo(s, EntryDate, cutoff) == UpTo(s[1..], EntryDate, cutoff);
      UpToHead(s[1..], cutoff);
      var j :| 0 <= j < |s[1..]| && s[1..][j] == UpTo(s[1..], EntryDate, cutoff)[0] && (forall i :: 0 <= i < j ==> s[1..][i].date > cutoff);
      assert forall i :: 0 <= i < j + 1 ==> s[i].date > cutoff by {
        forall i | 0 <= i < j + 1 ensures s[i].date > cutoff {
          if i > 0 {
            assert s[i] == s[1..][i - 1];
          }
        }
      }
      assert s[j + 1] == UpTo(s, EntryDate, cutoff)[0];
    } else {
      assert UpTo(s, EntryDate, cutoff)[0] == s[0];
    }
  }

  /** On newest-first entries the change compares the newest weight with the
      newest entry on or before `today - days`. */
  lemma ChangeAgainstNewestPast(entries: seq<WeightEntry>, today: Day, days: int)
    requires NewestFirst(entries)
    requires ComputeChange(entries, today, days).Some?
    ensures exists e :: NewestUpTo(entries, today - days, e) && ComputeChange(entries, today, days).value == entries[0].weightKg - e.weightKg
  {
    var cutoff := DaysAgo(today, days);
    var past := UpTo(entries, EntryDate, cutoff);
    UpToHead(entries, cutoff);
    var j :| 0 <= j < |entries| && entries[j] == past[0] && (forall i :: 0 <= i < j ==> entries[i].date > cutoff);
    assert past[0] in past;
    FirstUpToIsNewest(entries, cutoff, j);
    assert ComputeChange(entries, today, days).value == entries[0].weightKg - entries[j].weightKg;
  }

  /** On newest-first entries, the first one on or before the cutoff is the
      newest such. */
  lemma FirstUpToIsNewest(entries: seq<WeightEntry>, cutoff: Day, j: nat)
    requires NewestFirst(entries)
    requires j < |entries| && entries[j].date <= cutoff
    requires forall i :: 0 <= i < j ==> entries[i].date > cutoff
    ensures NewestUpTo(entries, cutoff, entries[j])
  {
    forall f | f in entries && f.date <= cutoff ensures f.date <= entries[j].date {
      var k :| 0 <= k < |entries| && entries[k] == f;
      assert j <= k;
    }
  }

  /** `e` is the newest entry dated on or before `cutoff`. */
  predicate NewestUpTo(entries: seq<WeightEntry>, cutoff: Day, e: WeightEntry) {
    && e in entries && e.date <= cutoff
    && forall f :: f in entries && f.date <= cutoff ==> f.date <= e.date
  }

  // ---------------------------------------------------------------------
  // Average

  function Weights(s: seq<WeightEntry>): (ws: seq<real>)
    ensures |ws| == |s|
    ensures forall i :: 0 <= i < |s| ==> ws[i] == s[i].weightKg
  {
    seq(|s|, i requires 0 <= i < |s| => s[i].weightKg)
  }

  /** `computeAvg`: the mean weight of the entries dated on or after
      `today - days`, rounded to one decimal; null when there are none. */
  function ComputeAvg(entries: seq<WeightEntry>, today: Day, days: int): (r: Option<real>)
    ensures r.None? <==> forall e :: e in entries ==> e.date < today - days
    ensures r.Some? ==> var w := Since(entries, EntryDate, today - days);
                        |w| > 0 && r.value == Round1(Sum(Weights(w)) / |w| as real)
    ensures r.Some? ==> var w := Since(entries, EntryDate, today - days);
                        |w| > 0 && Sum(Weights(w)) / |w| as real - 0.05 < r.value <= Sum(Weights(w)) / |w| as real + 0.05
  {
    var filtered := Since(entries, EntryDate, DaysAgo(today, days));
    if |filtered| == 0 then
      None
    else
      assert filtered[0] in filtered;
      var sum := Sum(Weights(filtered));
      Some(Round1(sum / |filtered| as real))
  }

  /** An average lies within the weights it averages (up to the rounding to
      one decimal). */
  lemma ComputeAvgBounds(entries: seq<WeightEntry>, today: Day, days: int, lo: real, hi: real)
    requires forall e :: e in entries ==> lo <= e.weightKg <= hi
    requires ComputeAvg(entries, today, days).Some?
    ensures lo - 0.05 < ComputeAvg(entries, today, days).value <= hi + 0.05
  {
    var w := Since(entries, EntryDate, today - days);
    var ws := Weights(w);
    forall i | 0 <= i < |ws| ensures lo <= ws[i] <= hi {
      assert w[i] in w;
    }
    MeanBounds(ws, lo, hi);
  }

  // ---------------------------------------------------------------------
  // Extremes

  /** `Math.max(...weights)`. */
  function MaxWeight(s: seq<WeightEntry>): (m: real)
    requires |s| > 0
    ensures exists i :: 0 <= i < |s| && s[i].weightKg == m
    ensures forall i :: 0 <= i < |s| ==> s[i].weightKg <= m
  {
    if |s| == 1 then s[0].weightKg
    else
      var rest := MaxWeight(s[1..]);
      assert forall i :: 1 <= i < |s| ==> s[i] == s[1..][i - 1];
      if s[0].weightKg >= rest then s[0].weightKg else rest
  }

  /** `Math.min(...weights)`. */
  function MinWeight(s: seq<WeightEntry>): (m: real)
    requires |s| > 0
    ensures exists i :: 0 <= i < |s| && s[i].weightKg == m
    ensures forall i :: 0 <= i < |s| ==> m <= s[i].weightKg
  {
    if |s| == 1 then s[0].weightKg
    else
      var rest := MinWeight(s[1..]);
      assert forall i :: 1 <= i < |s| ==> s[i] == s[1..][i - 1];
      if s[0].weightKg <= rest then s[0].weightKg else rest
  }

  // ---------------------------------------------------------------------
  // Trend

  /** The newest weight minus the oldest among the (up to) seven newest
      entries. */
  function TrendDiff(entries: seq<WeightEntry>): real
    requires |entries| >= 2
  {
    var recent := if |entries| < 7 then entries else entries[..7];
    recent[0].weightKg - recent[|recent| - 1].weightKg
  }

  /** The direction GET reports: up above half a kilo, down below minus half
      a kilo, stable otherwise and with fewer than two entries. */
  method ComputeTrend(entries: seq<WeightEntry>) returns (trend: Trend)
    ensures trend == Up <==> |entries| >= 2 && TrendDiff(entries) > 0.5
    ensures trend == Down <==> |entries| >= 2 && TrendDiff(entries) < -0.5
    ensures trend == Stable <==> |entries| < 2 || -0.5 <= TrendDiff(entries) <= 0.5
  {
    var recentEntries := if |entries| < 7 then entries else entries[..7];
    trend := Stable;
    if |recentEntries| >= 2 {
      var first := recentEntries[|recentEntries| - 1].weightKg;
      var last := recentEntries[0].weightKg;
      var diff := last - first;
      if diff > 0.5 {
        trend := Up;
      } else if diff < -0.5 {
        trend := Down;
      }
    }
  }

  /** The trend compares the newest entry with the seventh newest, or with
      the oldest when there are fewer than seven. */
  lemma TrendDiffEnds(entries: seq<WeightEntry>)
    requires |entries| >= 2
    ensures TrendDiff(entries) == entries[0].weightKg - entries[if |entries| < 7 then |entries| - 1 else 6].weightKg
  {
  }

  // ---------------------------------------------------------------------
  // The card

  datatype Stats = Stats(
    current: Option<real>,
    allTimeHigh: Option<real>,
    allTimeLow: Option<real>,
    change7d: Option<real>,
    change30d: Option<real>,
    change90d: Option<real>,
    avg30d: Option<real>,
    avg90d: Option<real>,
    trend: Trend,
    totalEntries: nat)

  const EmptyStats: Stats := Stats(None, None, None, None, None, None, None, None, Stable, 0)

  /** The post-query body of the stats route. */
  method ComputeStats(entries: seq<WeightEntry>, today: Day) returns (stats: Stats)
    ensures entries == [] ==> stats == EmptyStats
    ensures stats.totalEntries == |entries|
    ensures entries != [] ==> stats.current == Some(entries[0].weightKg)
    ensures entries != [] ==> (stats.allTimeHigh.Some? && stats.allTimeLow.Some?
                               && stats.allTimeLow.value <= entries[0].weightKg <= stats.allTimeHigh.value)
    ensures entries != [] ==> stats.allTimeHigh == Some(MaxWeight(entries)) && stats.allTimeLow == Some(MinWeight(entries))
    ensures forall e :: e in entries && stats.allTimeHigh.Some? ==> e.weightKg <= stats.allTimeHigh.value
    ensures forall e :: e in entries && stats.allTimeLow.Some? ==> stats.allTimeLow.value <= e.weightKg
    ensures entries != [] ==> (stats.change7d == ComputeChange(entries, today, 7)
                               && stats.change30d == ComputeChange(entries, today, 30)
                               && stats.change90d == ComputeChange(entries, today, 90)
                               && stats.avg30d == ComputeAvg(entries, today, 30)
                               && stats.avg90d == ComputeAvg(entries, today, 90))
    ensures stats.trend == Up <==> |entries| >= 2 && TrendDiff(entries) > 0.5
    ensures stats.trend == Down <==> |entries| >= 2 && TrendDiff(entries) < -0.5
  {
    if |entries| == 0 {
      return EmptyStats;
    }
    var current := entries[0].weightKg;
    var allTimeHigh := MaxWeight(entries);
    var allTimeLow := MinWeight(entries);
    var trend := ComputeTrend(entries);
    stats := Stats(Some(current), Some(allTimeHigh), Some(allTimeLow),
      ComputeChange(entries, today, 7), ComputeChange(entries, today, 30), ComputeChange(entries, today, 90),
      ComputeAvg(entries, today, 30), ComputeAvg(entries, today, 90), trend, |entries|);
    forall e | e in entries ensures allTimeLow <= e.weightKg <= allTimeHigh {
      var i :| 0 <= i < |entries| && entries[i] == e;
    }
  }

  /** With no entries every figure is missing: no change, no average. */
  lemma EmptyFigures(today: Day, days: int)
    ensures ComputeChange([], today, days) == None && ComputeAvg([], today, days) == None
  {
  }

  // ---------------------------------------------------------------------
  // An example

  function ExampleEntries(t: Day): seq<WeightEntry> {
    [WeightEntry(t, 74.0), WeightEntry(t - 3, 74.5), WeightEntry(t - 8, 75.5)]
  }

  lemma ChangeExample(t: Day)
    ensures ComputeChange(ExampleEntries(t), t, 7) == Some(-1.5)
    ensures ComputeChange(ExampleEntries(t), t, 30) == None
  {
    var es := ExampleEntries(t);
    assert es == [es[0]] + es[1..] && es[1..] == [es[1]] + es[2..] && es[2..] == [es[2]] && es[2..][1..] == [];
  }

  lemma AvgExample(t: Day)
    ensures ComputeAvg(ExampleEntries(t), t, 7) == Some(74.3)
  {
    var w := ExampleEntries(t)[..2];
    ExampleWeekWindow(t);
    ExampleWeekSum(t);
    assert Sum(Weights(w)) / |w| as real == 74.25;
    RoundExample();
  }

  lemma ExampleWeekWindow(t: Day)
    ensures Since(ExampleEntries(t), EntryDate, t - 7) == ExampleEntries(t)[..2]
  {
    var es := ExampleEntries(t);
    var w := es[..2];
    assert es == w + [es[2]];
    SinceAppend(w, [es[2]], EntryDate, t - 7);
    SinceSingleton(es[2], EntryDate, t - 7);
    SinceAll(w, EntryDate, t - 7);
  }

  lemma ExampleWeekSum(t: Day)
    ensures Sum(Weights(ExampleEntries(t)[..2])) == 148.5
  {
    assert Weights(ExampleEntries(t)[..2]) == [74.0] + [74.5];
    SumAppend([74.0], [74.5]);
    assert Sum([74.0]) == 74.0 && Sum([74.5]) == 74.5;
  }

  lemma RoundExample()
    ensures Round1(74.25) == 74.3
  {
    assert 74.25 * 10.0 + 0.5 == 743.0;
    assert (743.0).Floor == 743;
  }
}
