/** The exercise statistics card, computed after the entries are loaded:
    session counts and minutes over the last 7, 30 and 90 days, the count
    per exercise type, the average effort and the current streak. */
module ExerciseStats {
  import opened Wrappers
  import opened Dates
  import opened Sorting
  import opened Constants

  /** A stored exercise session; its id, label and timestamps play no part. */
  datatype ExerciseEntry = ExerciseEntry(
    date: Day,
    exerciseType: ExerciseType,
    durationMinutes: int,
    effortLevel: Effort)

  function EntryDate(e: ExerciseEntry): Day {
    e.date
  }

  // ---------------------------------------------------------------------
  // Windows

  /** The sessions of the last `days` days, the cutoff day included. */
  function Window(entries: seq<ExerciseEntry>, today: Day, days: int): (r: seq<ExerciseEntry>)
    ensures forall e :: e in r <==> e in entries && e.date >= today - days
    ensures |r| <= |entries|
  {
    Since(entries, EntryDate, DaysAgo(today, days))
  }

  /** The minutes of a run of sessions (`reduce((a, e) => a + e.durationMinutes, 0)`). */
  function Duration(s: seq<ExerciseEntry>): int
  {
    if s == [] then 0 else s[0].durationMinutes + Duration(s[1..])
  }

  lemma {:induction false} DurationAppend(a: seq<ExerciseEntry>, b: seq<ExerciseEntry>)
    ensures Duration(a + b) == Duration(a) + Duration(b)
  {
    if a == [] {
      assert a + b == b;
    } else {
      assert (a + b)[1..] == a[1..] + b;
      DurationAppend(a[1..], b);
    }
  }

  predicate NonNegative(s: seq<ExerciseEntry>) {
    forall i :: 0 <= i < |s| ==> s[i].durationMinutes >= 0
  }

  /** Leaving sessions out never adds minutes. */
  lemma {:induction false} DurationSince(s: seq<ExerciseEntry>, cutoff: Day)
    requires NonNegative(s)
    ensures 0 <= Duration(Since(s, EntryDate, cutoff)) <= Duration(s)
  {
    if s != [] {
      assert s == [s[0]] + s[1..];
      SinceAppend([s[0]], s[1..], EntryDate, cutoff);
      SinceSingleton(s[0], EntryDate, cutoff);
      DurationSince(s[1..], cutoff);
      var head := Since([s[0]], EntryDate, cutoff);
      DurationAppend(head, Since(s[1..], EntryDate, cutoff));
      assert Duration(head) == if s[0].date >= cutoff then s[0].durationMinutes else 0;
    }
  }

  /** The three windows are nested, in sessions and in minutes (minutes are
      never negative: the schema accepts 1 to 1440). */
  lemma WindowsNested(entries: seq<ExerciseEntry>, today: Day)
    requires NonNegative(entries)
    ensures |Window(entries, today, 7)| <= |Window(entries, today, 30)| <= |Window(entries, today, 90)| <= |entries|
    ensures Duration(Window(entries, today, 7)) <= Duration(Window(entries, today, 30))
    ensures Duration(Window(entries, today, 30)) <= Duration(Window(entries, today, 90))
    ensures Duration(Window(entries, today, 90)) <= Duration(entries)
  {
    var w90, w30 := Window(entries, today, 90), Window(entries, today, 30);
    SinceNested(entries, EntryDate, today - 90, today - 30);
    SinceNested(entries, EntryDate, today - 30, today - 7);
    assert NonNegative(w90) by {
      forall i | 0 <= i < |w90| ensures w90[i].durationMinutes >= 0 {
        assert w90[i] in entries;
      }
    }
    assert NonNegative(w30) by {
      forall i | 0 <= i < |w30| ensures w30[i].durationMinutes >= 0 {
        assert w30[i] in entries;
      }
    }
    DurationSince(w30, today - 7);
    DurationSince(w90, today - 30);
    DurationSince(entries, today - 90);
  }

  // ---------------------------------------------------------------------
  // Type breakdown

  /** The number of sessions of one type. */
  function TypeCount(s: seq<ExerciseEntry>, t: ExerciseType): (n: nat)
    ensures n <= |s|
    ensures n == 0 <==> forall e :: e in s ==> e.exerciseType != t
  {
    if s == [] then 0
    else TypeCount(s[..|s| - 1], t) + (if s[|s| - 1].exerciseType == t then 1 else 0)
  }

  /** The record the breakdown loop builds: the entries counted one at a
      time into `typeBreakdown[key] = (typeBreakdown[key] ?? 0) + 1`. */
  function Breakdown(s: seq<ExerciseEntry>): map<ExerciseType, nat>
  {
    if s == [] then map[]
    else
      var m := Breakdown(s[..|s| - 1]);
      var t := s[|s| - 1].exerciseType;
      m[t := (if t in m then m[t] else 0) + 1]
  }

  /** The count a breakdown shows for a type, 0 when the type is missing. */
  function Lookup(m: map<ExerciseType, nat>, t: ExerciseType): nat {
    if t in m then m[t] else 0
  }

  /** The breakdown has a key exactly for the types that occur, and the
      value of each is the number of sessions of that type. */
  lemma {:induction false} BreakdownCounts(s: seq<ExerciseEntry>, t: ExerciseType)
    ensures t in Breakdown(s) <==> TypeCount(s, t) > 0
    ensures Lookup(Breakdown(s), t) == TypeCount(s, t)
  {
    if s != [] {
      BreakdownCounts(s[..|s| - 1], t);
    }
  }

  /** The values of the breakdown add up to the number of sessions. */
  lemma BreakdownTotal(s: seq<ExerciseEntry>)
    ensures Lookup(Breakdown(s), Football) + Lookup(Breakdown(s), StrengthTraining) + Lookup(Breakdown(s), Other) == |s|
  {
    BreakdownCounts(s, Football);
    BreakdownCounts(s, StrengthTraining);
    BreakdownCounts(s, Other);
    TypeCountTotal(s);
  }

  lemma {:induction false} TypeCountTotal(s: seq<ExerciseEntry>)
    ensures TypeCount(s, Football) + TypeCount(s, StrengthTraining) + TypeCount(s, Other) == |s|
  {
    if s != [] {
      TypeCountTotal(s[..|s| - 1]);
    }
  }

  /** The for-of loop over the entries that fills `typeBreakdown`. */
  method ComputeTypeBreakdown(entries: seq<ExerciseEntry>) returns (typeBreakdown: map<ExerciseType, nat>)
    ensures typeBreakdown == Breakdown(entries)
    ensures forall t :: t in typeBreakdown <==> TypeCount(entries, t) > 0
    ensures forall t :: Lookup(typeBreakdown, t) == TypeCount(entries, t)
  {
    typeBreakdown := map[];
    for i := 0 to |entries|
      invariant typeBreakdown == Breakdown(entries[..i])
    {
      assert entries[..i + 1][..i] == entries[..i];
      var key := entries[i].exerciseType;
      typeBreakdown := typeBreakdown[key := (if key in typeBreakdown then typeBreakdown[key] else 0) + 1];
    }
    assert entries[..|entries|] == entries;
    forall t ensures t in typeBreakdown <==> TypeCount(entries, t) > 0
      ensures Lookup(typeBreakdown, t) == TypeCount(entries, t)
    {
      BreakdownCounts(entries, t);
    }
  }

  // ---------------------------------------------------------------------
  // Average effort

  function EffortSum(s: seq<ExerciseEntry>): (n: int)
    ensures |s| <= n <= 3 * |s|
  {
    if s == [] then 0 else EffortSum(s[..|s| - 1]) + s[|s| - 1].effortLevel.Score()
  }

  /** The mean score bucketed: below 1.5 low, below 2.5 medium, else high;
      no sessions, no average. */
  function AverageEffort(s: seq<ExerciseEntry>): (r: Option<Effort>)
    ensures r.None? <==> s == []
  {
    if s == [] then None
    else
      var avgEffortNum := EffortSum(s) as real / |s| as real;
      Some(if avgEffortNum < 1.5 then Low else if avgEffortNum < 2.5 then Medium else High)
  }

  /** The bucket in integer terms: low when twice the score sum is below
      three times the count, medium when it is below five times it. */
  lemma AverageEffortThresholds(s: seq<ExerciseEntry>)
    requires s != []
    ensures AverageEffort(s) == Some(Low) <==> 2 * EffortSum(s) < 3 * |s|
    ensures AverageEffort(s) == Some(Medium) <==> 3 * |s| <= 2 * EffortSum(s) < 5 * |s|
    ensures AverageEffort(s) == Some(High) <==> 5 * |s| <= 2 * EffortSum(s)
  {
    MeanBelow(EffortSum(s), |s|, 3);
    MeanBelow(EffortSum(s), |s|, 5);
  }

  lemma MeanBelow(sum: int, n: int, k: int)
    requires n > 0
    ensures sum as real / n as real < k as real / 2.0 <==> 2 * sum < k * n
  {
    var m, c := sum as real / n as real, k as real / 2.0;
    assert m * n as real == sum as real;
    if m < c {
      assert m * n as real < c * n as real;
    } else {
      assert m * n as real >= c * n as real;
    }
  }

  /** Sessions of one effort level average to that level. */
  lemma {:induction false} AverageEffortUniform(s: seq<ExerciseEntry>, e: Effort)
    requires s != [] && forall i :: 0 <= i < |s| ==> s[i].effortLevel == e
    ensures AverageEffort(s) == Some(e)
  {
    UniformEffortSum(s, e);
    AverageEffortThresholds(s);
  }

  lemma {:induction false} UniformEffortSum(s: seq<ExerciseEntry>, e: Effort)
    requires forall i :: 0 <= i < |s| ==> s[i].effortLevel == e
    ensures EffortSum(s) == |s| * e.Score()
  {
    if s != [] {
      UniformEffortSum(s[..|s| - 1], e);
    }
  }

  // ---------------------------------------------------------------------
  // Current streak

  function EntryDates(s: seq<ExerciseEntry>): (ds: seq<Day>)
    ensures |ds| == |s|
    ensures forall i :: 0 <= i < |s| ==> ds[i] == s[i].date
  {
    seq(|s|, i requires 0 <= i < |s| => s[i].date)
  }

  /** The length of the leading run of `u` (from position `i` on) in which
      the `j`-th date is `today - j`. */
  function StreakFrom(u: seq<Day>, today: Day, i: nat): (k: nat)
    requires i <= |u|
    ensures i + k <= |u|
    decreases |u| - i
  {
    if i < |u| && u[i] == today - i then 1 + StreakFrom(u, today, i + 1) else 0
  }

  /** The streak the route reports: over the distinct dates, newest first. */
  function CurrentStreak(entries: seq<ExerciseEntry>, today: Day): nat {
    StreakFrom(DistinctDescending(EntryDates(entries)), today, 0)
  }

  /** The loop that counts `currentStreak`, stopping at the first distinct
      date that is not `today - i`. */
  method ComputeCurrentStreak(entries: seq<ExerciseEntry>, today: Day) returns (currentStreak: nat)
    ensures currentStreak == CurrentStreak(entries, today)
  {
    var uniqueDates := DistinctDescending(EntryDates(entries));
    currentStreak := 0;
    var i := 0;
    while i < |uniqueDates|
      invariant i <= |uniqueDates| && currentStreak == i
      invariant StreakFrom(uniqueDates, today, 0) == i + StreakFrom(uniqueDates, today, i)
    {
      if uniqueDates[i] == today - i {
        currentStreak := currentStreak + 1;
      } else {
        break;
      }
      i := i + 1;
    }
  }

  /** The streak is the longest prefix of the newest-first distinct dates
      that reads today, yesterday, ...; it stops at the first mismatch and
      never exceeds the number of distinct dates. */
  lemma {:induction false} StreakFromSpec(u: seq<Day>, today: Day, i: nat)
    requires i <= |u|
    ensures var k := StreakFrom(u, today, i);
            && i + k <= |u|
            && (forall j :: i <= j < i + k ==> u[j] == today - j)
            && (i + k < |u| ==> u[i + k] != today - (i + k))
    decreases |u| - i
  {
    if i < |u| && u[i] == today - i {
      StreakFromSpec(u, today, i + 1);
    }
  }

  lemma CurrentStreakSpec(entries: seq<ExerciseEntry>, today: Day)
    ensures var u := DistinctDescending(EntryDates(entries));
            var k := CurrentStreak(entries, today);
            && k <= |u|
            && (forall j :: 0 <= j < k ==> u[j] == today - j)
            && (k < |u| ==> u[k] != today - k)
  {
    var u := DistinctDescending(EntryDates(entries));
    StreakFromSpec(u, today, 0);
    var k := StreakFrom(u, today, 0);
    assert k < |u| ==> u[0 + k] != today - (0 + k);
  }

  /** One session dated after today makes the streak 0: the newest distinct
      date is then not today. */
  lemma FutureSessionBreaksStreak(entries: seq<ExerciseEntry>, today: Day, e: ExerciseEntry)
    requires e in entries && e.date > today
    ensures CurrentStreak(entries, today) == 0
  {
    var u := DistinctDescending(EntryDates(entries));
    var i :| 0 <= i < |entries| && entries[i] == e;
    assert EntryDates(entries)[i] == e.date;
    assert e.date in u;
    var j :| 0 <= j < |u| && u[j] == e.date;
    assert u[0] >= u[j];
  }

  /** When no session lies in the future, the streak is the number of
      consecutive days ending today that all have a session. */
  lemma StreakWithoutFuture(entries: seq<ExerciseEntry>, today: Day)
    requires forall e :: e in entries ==> e.date <= today
    ensures var k := CurrentStreak(entries, today);
            && (forall x :: today - k < x <= today ==> x in EntryDates(entries))
            && today - k !in EntryDates(entries)
  {
    var ds := EntryDates(entries);
    var u := DistinctDescending(ds);
    var k := CurrentStreak(entries, today);
    CurrentStreakSpec(entries, today);
    forall x | today - k < x <= today ensures x in ds {
      assert u[today - x] == x;
    }
    forall j | 0 <= j < |u| ensures u[j] <= today {
      assert u[j] in ds;
      var i :| 0 <= i < |ds| && ds[i] == u[j];
      assert entries[i] in entries;
    }
    assert k < |u| ==> u[k] < today - k by {
      if k < |u| && k > 0 {
        assert u[k - 1] == today - (k - 1) && u[k - 1] > u[k];
      }
    }
    forall j | 0 <= j < |u| ensures u[j] != today - k {
      if j < k {
        assert u[j] == today - j;
      } else if j > k {
        assert u[k] > u[j];
      }
    }
  }

  // ---------------------------------------------------------------------
  // The card

  datatype Stats = Stats(
    sessions7d: nat,
    sessions30d: nat,
    sessions90d: nat,
    duration7d: int,
    duration30d: int,
    duration90d: int,
    typeBreakdown: map<ExerciseType, nat>,
    currentStreak: nat,
    averageEffort: Option<Effort>,
    totalEntries: nat)

  const EmptyStats: Stats := Stats(0, 0, 0, 0, 0, 0, map[], 0, None, 0)

  /** The post-query body of the stats route. */
  method ComputeStats(entries: seq<ExerciseEntry>, today: Day) returns (stats: Stats)
    ensures entries == [] ==> stats == EmptyStats
    ensures stats.totalEntries == |entries|
    ensures stats.sessions7d == |Window(entries, today, 7)|
    ensures stats.sessions30d == |Window(entries, today, 30)|
    ensures stats.sessions90d == |Window(entries, today, 90)|
    ensures stats.sessions7d <= stats.sessions30d <= stats.sessions90d <= stats.totalEntries
    ensures stats.duration7d == Duration(Window(entries, today, 7))
    ensures stats.duration30d == Duration(Window(entries, today, 30))
    ensures stats.duration90d == Duration(Window(entries, today, 90))
    ensures stats.typeBreakdown == Breakdown(entries)
    ensures forall t :: t in stats.typeBreakdown <==> TypeCount(entries, t) > 0
    ensures forall t :: Lookup(stats.typeBreakdown, t) == TypeCount(entries, t)
    ensures stats.currentStreak == CurrentStreak(entries, today)
    ensures stats.averageEffort == AverageEffort(entries)
  {
    if |entries| == 0 {
      return EmptyStats;
    }
    var last7d := Window(entries, today, 7);
    var last30d := Window(entries, today, 30);
    var last90d := Window(entries, today, 90);
    SinceNested(entries, EntryDate, today - 90, today - 30);
    SinceNested(entries, EntryDate, today - 30, today - 7);
    var typeBreakdown := ComputeTypeBreakdown(entries);
    var currentStreak := ComputeCurrentStreak(entries, today);
    stats := Stats(|last7d|, |last30d|, |last90d|,
      Duration(last7d), Duration(last30d), Duration(last90d),
      typeBreakdown, currentStreak, AverageEffort(entries), |entries|);
  }

  // ---------------------------------------------------------------------
  // An example

  function ExampleEntries(t: Day): seq<ExerciseEntry> {
    [ExerciseEntry(t, Football, 60, High), ExerciseEntry(t - 1, Other, 30, Low),
     ExerciseEntry(t - 10, Football, 45, Medium)]
  }

  lemma ExampleWindow(t: Day)
    ensures Window(ExampleEntries(t), t, 7) == ExampleEntries(t)[..2]
    ensures Duration(Window(ExampleEntries(t), t, 7)) == 90
  {
    var es := ExampleEntries(t);
    assert es == es[..2] + [es[2]];
    SinceAppend(es[..2], [es[2]], EntryDate, t - 7);
    SinceSingleton(es[2], EntryDate, t - 7);
    SinceAll(es[..2], EntryDate, t - 7);
    assert es[..2][1..] == [es[1]] && [es[1]][1..] == [];
    assert Duration([es[1]]) == 30;
    assert Duration(es[..2]) == 60 + Duration([es[1]]);
  }

  lemma ExampleBreakdown(t: Day)
    ensures Breakdown(ExampleEntries(t)) == map[Football := 2, Other := 1]
  {
    var es := ExampleEntries(t);
    assert es[..2][..1] == [es[0]] && es[..1][..0] == [];
    assert Breakdown(es[..1]) == map[Football := 1];
    assert Breakdown(es[..2]) == map[Football := 1, Other := 1];
  }

  lemma ExampleEffort(t: Day)
    ensures AverageEffort(ExampleEntries(t)) == Some(Medium)
  {
    var es := ExampleEntries(t);
    assert es[..2][..1] == [es[0]] && es[..1][..0] == [];
    assert EffortSum(es[..1]) == 3;
    assert EffortSum(es[..2]) == 4;
    assert es[..3] == es;
    assert EffortSum(es) == 6;
    AverageEffortThresholds(es);
  }
}
