/** The check-in statistics: date windows, the streak of consecutive days,
    the average mood, the per-value distributions, the consistency strip of
    recent days and the summary that gathers them. */
module CheckinUtils {
  import opened Wrappers
  import opened Dates
  import opened Numeric
  import opened Text
  import opened Constants

  /** A stored daily check-in; its timestamps play no part here. */
  datatype CheckinEntry = CheckinEntry(
    id: int,
    date: Day,
    mood: Mood,
    sleepQuality: Quality,
    productivity: Quality,
    energyLevel: Quality)

  function EntryDate(e: CheckinEntry): Day {
    e.date
  }

  // ---------------------------------------------------------------------
  // Mood lookups

  /** `moodEmoji`: the emoji of a mood value, the neutral face otherwise. */
  function MoodEmojiOf(value: int): (s: string)
    ensures !(1 <= value <= 5) ==> s == "😐"
    ensures value == 3 ==> s == "😐"
  {
    if 1 <= value <= 5 then MoodEmoji(value) else "😐"
  }

  /** `moodLabel`: the label of a mood value, "Unknown" otherwise. */
  function MoodLabelOf(value: int): (s: string)
    ensures !(1 <= value <= 5) ==> s == "Unknown"
    ensures 1 <= value <= 5 ==> s != "Unknown"
  {
    if 1 <= value <= 5 then MoodLabel(value) else "Unknown"
  }

  /** Distinct mood values have distinct labels, so the label identifies
      the mood. */
  lemma MoodLabelInjective(a: int, b: int)
    requires 1 <= a <= 5 && 1 <= b <= 5 && MoodLabelOf(a) == MoodLabelOf(b)
    ensures a == b
  {
  }

  /** Each of the five moods shows its own emoji, and only the neutral mood
      shares its face with the fallback. */
  lemma MoodEmojiInjective(a: int, b: int)
    requires 1 <= a <= 5 && 1 <= b <= 5 && MoodEmojiOf(a) == MoodEmojiOf(b)
    ensures a == b
  {
    var ea, eb := MoodEmojiOf(a), MoodEmojiOf(b);
    assert ea[0] == eb[0];
  }

  lemma MoodLookupExample()
    ensures MoodEmojiOf(5) == "😄" && MoodLabelOf(1) == "Very Low"
    ensures MoodEmojiOf(0) == "😐" && MoodLabelOf(6) == "Unknown"
  {
  }

  /** `checkinMoodColor`: a fill per mood, the neutral colour for a day
      without one. */
  function MoodColor(mood: Option<Mood>): (c: string)
    ensures mood.None? ==> c == "var(--secondary)"
    ensures mood.Some? ==> |c| > 4 && c[..4] == "hsl("
  {
    match mood
    case None => "var(--secondary)"
    case Some(m) =>
      if m == 1 then "hsl(0, 75%, 55%, 0.35)"
      else if m == 2 then "hsl(25, 80%, 52%, 0.45)"
      else if m == 3 then "hsl(50, 80%, 50%, 0.55)"
      else if m == 4 then "hsl(120, 55%, 45%, 0.65)"
      else "hsl(140, 70%, 50%, 0.8)"
  }

  /** The five moods get five different fills, none of them the neutral
      colour of a day without a mood. */
  lemma MoodColorDistinct(a: Mood, b: Mood)
    ensures MoodColor(Some(a)) != MoodColor(None)
    ensures MoodColor(Some(a)) == MoodColor(Some(b)) ==> a == b
  {
    var ca, cb := MoodColor(Some(a)), MoodColor(Some(b));
    assert ca[0] != MoodColor(None)[0];
    if a != b {
      assert ca[4] != cb[4] || ca[5] != cb[5];
    }
  }

  // ---------------------------------------------------------------------
  // Date windows

  /** `filterByDays`: the entries dated on or after `days` days before
      today, in their original order. */
  function FilterByDays(entries: seq<CheckinEntry>, days: int, today: Day): (r: seq<CheckinEntry>)
    ensures forall e :: e in r <==> e in entries && e.date >= today - days
    ensures |r| <= |entries|
  {
    Since(entries, EntryDate, DaysAgo(today, days))
  }

  /** A shorter window keeps a sub-list of a longer one. */
  lemma FilterByDaysNested(entries: seq<CheckinEntry>, short: int, long: int, today: Day)
    requires short <= long
    ensures FilterByDays(FilterByDays(entries, long, today), short, today) == FilterByDays(entries, short, today)
    ensures |FilterByDays(entries, short, today)| <= |FilterByDays(entries, long, today)|
  {
    SinceNested(entries, EntryDate, today - long, today - short);
  }

  // ---------------------------------------------------------------------
  // Streak

  /** The set of dates with an entry (`new Set(entries.map((e) => e.date))`). */
  function EntryDates(entries: seq<CheckinEntry>): (s: set<Day>)
    ensures forall d :: d in s <==> exists e :: e in entries && e.date == d
  {
    set e | e in entries :: e.date
  }

  /** The number of consecutive days `d`, `d - 1`, ... that are in `dates`. */
  function RunBack(dates: set<Day>, d: Day): (k: nat)
    ensures k <= |dates|
    decreases |dates|
  {
    if d in dates then 1 + RunBack(dates - {d}, d - 1) else 0
  }

  /** RunBack is the largest `k` with the `k` days ending at `d` all present:
      the days of the run are present and the day it stops at is not. */
  lemma {:induction false} RunBackSpec(dates: set<Day>, d: Day)
    ensures forall x :: d - RunBack(dates, d) < x <= d ==> x in dates
    ensures d - RunBack(dates, d) !in dates
    decreases |dates|
  {
    if d in dates {
      var rest := dates - {d};
      var k := RunBack(rest, d - 1);
      assert RunBack(dates, d) == 1 + k;
      RunBackSpec(rest, d - 1);
      forall x | d - (1 + k) < x <= d ensures x in dates {
        if x < d {
          assert x in rest;
        }
      }
      assert (d - 1) - k !in rest;
    }
  }

  /** Any run of present days ending at `d` is at most RunBack long. */
  lemma RunBackMaximal(dates: set<Day>, d: Day, k: nat)
    requires forall x :: d - k < x <= d ==> x in dates
    ensures k <= RunBack(dates, d)
  {
    RunBackSpec(dates, d);
    assert RunBack(dates, d) < k ==> d - RunBack(dates, d) in dates;
  }

  /** The streak `computeStreakDays` returns. */
  function StreakDays(entries: seq<CheckinEntry>, today: Day): nat
  {
    if |entries| == 0 then 0 else RunBack(EntryDates(entries), today)
  }

  /** `computeStreakDays`: count back from today while the date has an
      entry. */
  method ComputeStreakDays(entries: seq<CheckinEntry>, today: Day) returns (streak: nat)
    ensures streak == StreakDays(entries, today)
  {
    if |entries| == 0 {
      return 0;
    }
    var uniqueDates := EntryDates(entries);
    RunBackSpec(uniqueDates, today);
    streak := 0;
    while today - streak in uniqueDates
      invariant streak <= RunBack(uniqueDates, today)
      decreases RunBack(uniqueDates, today) - streak
    {
      streak := streak + 1;
    }
  }

  /** The streak is the number of consecutive days ending today that have
      an entry: every one of them has an entry, the day before the streak
      has none, and the streak never exceeds the number of distinct dates. */
  lemma StreakDaysSpec(entries: seq<CheckinEntry>, today: Day)
    ensures var s := StreakDays(entries, today);
            && (forall x :: today - s < x <= today ==> x in EntryDates(entries))
            && today - s !in EntryDates(entries)
            && s <= |EntryDates(entries)|
  {
    RunBackSpec(EntryDates(entries), today);
  }

  /** No entry today means no streak, whatever came before. */
  lemma StreakNeedsToday(entries: seq<CheckinEntry>, today: Day)
    requires forall e :: e in entries ==> e.date != today
    ensures StreakDays(entries, today) == 0
  {
  }

  // ---------------------------------------------------------------------
  // Average mood

  function Moods(entries: seq<CheckinEntry>): (ms: seq<real>)
    ensures |ms| == |entries|
    ensures forall i :: 0 <= i < |ms| ==> ms[i] == entries[i].mood as real
  {
    seq(|entries|, i requires 0 <= i < |entries| => entries[i].mood as real)
  }

  /** `computeAverageMood`: None (null) for no entries, otherwise the mean
      mood rounded to one decimal, which stays on the 1 to 5 scale. */
  function ComputeAverageMood(entries: seq<CheckinEntry>): (r: Option<real>)
    ensures r.None? <==> |entries| == 0
    ensures r.Some? ==> 1.0 <= r.value <= 5.0
    ensures r.Some? ==> r.value == Round1(Sum(Moods(entries)) / |entries| as real)
    ensures r.Some? ==>
      var mean := Sum(Moods(entries)) / |entries| as real;
      mean - 0.05 < r.value <= mean + 0.05
  {
    if |entries| == 0 then None
    else
      var mean := Sum(Moods(entries)) / |entries| as real;
      MeanBounds(Moods(entries), 1.0, 5.0);
      Round1Between(mean, 1, 5);
      Some(Round1(mean))
  }

  // ---------------------------------------------------------------------
  // Distributions

  datatype Bucket = Bucket(key: string, labelText: string, count: nat)

  /** Which answer a distribution counts. */
  datatype Metric = MoodMetric | SleepQuality | Productivity | EnergyLevel

  function CountMood(entries: seq<CheckinEntry>, m: int): (n: nat)
    ensures n <= |entries|
  {
    if entries == [] then 0
    else (if entries[0].mood == m then 1 else 0) + CountMood(entries[1..], m)
  }

  lemma {:induction false} CountMoodAppend(a: seq<CheckinEntry>, b: seq<CheckinEntry>, m: int)
    ensures CountMood(a + b, m) == CountMood(a, m) + CountMood(b, m)
  {
    if a == [] {
      assert a + b == b;
    } else {
      assert (a + b)[1..] == a[1..] + b;
      CountMoodAppend(a[1..], b, m);
    }
  }

  function QualityOf(e: CheckinEntry, metric: Metric): Quality
    requires metric != MoodMetric
  {
    match metric
    case SleepQuality => e.sleepQuality
    case Productivity => e.productivity
    case EnergyLevel => e.energyLevel
  }

  function CountQuality(entries: seq<CheckinEntry>, metric: Metric, q: Quality): (n: nat)
    requires metric != MoodMetric
    ensures n <= |entries|
  {
    if entries == [] then 0
    else (if QualityOf(entries[0], metric) == q then 1 else 0) + CountQuality(entries[1..], metric, q)
  }

  lemma {:induction false} CountQualityAppend(a: seq<CheckinEntry>, b: seq<CheckinEntry>, metric: Metric, q: Quality)
    requires metric != MoodMetric
    ensures CountQuality(a + b, metric, q) == CountQuality(a, metric, q) + CountQuality(b, metric, q)
  {
    if a == [] {
      assert a + b == b;
    } else {
      assert (a + b)[1..] == a[1..] + b;
      CountQualityAppend(a[1..], b, metric, q);
    }
  }

  /** `moodDistribution`: one bucket per mood option, in order. */
  function MoodDistribution(entries: seq<CheckinEntry>): (bs: seq<Bucket>)
    ensures |bs| == 5
    ensures forall i :: 0 <= i < 5 ==>
      bs[i].key == IntToString(i + 1) && bs[i].count == CountMood(entries, i + 1)
  {
    seq(5, i requires 0 <= i < 5 =>
      Bucket(IntToString(MoodOrder[i]), MoodEmoji(MoodOrder[i]) + " " + IntToString(MoodOrder[i]),
             CountMood(entries, MoodOrder[i])))
  }

  /** `qualityDistribution`: one bucket per quality value, bad, ok, good. */
  function QualityDistribution(entries: seq<CheckinEntry>, metric: Metric): (bs: seq<Bucket>)
    requires metric != MoodMetric
    ensures |bs| == 3
    ensures forall i :: 0 <= i < 3 ==>
      bs[i].key == QualityOrder[i].Name() && bs[i].labelText == QualityOrder[i].Label()
      && bs[i].count == CountQuality(entries, metric, QualityOrder[i])
  {
    seq(3, i requires 0 <= i < 3 =>
      Bucket(QualityOrder[i].Name(), QualityOrder[i].Label(), CountQuality(entries, metric, QualityOrder[i])))
  }

  /** `buildMetricDistribution`. */
  function BuildMetricDistribution(entries: seq<CheckinEntry>, metric: Metric): (bs: seq<Bucket>)
    ensures metric == MoodMetric ==> bs == MoodDistribution(entries)
    ensures metric != MoodMetric ==> bs == QualityDistribution(entries, metric)
  {
    if metric == MoodMetric then MoodDistribution(entries) else QualityDistribution(entries, metric)
  }

  /** Every entry has exactly one mood, so the counts add up to the number
      of entries. */
  lemma {:induction false} MoodCountsPartition(entries: seq<CheckinEntry>)
    ensures CountMood(entries, 1) + CountMood(entries, 2) + CountMood(entries, 3)
            + CountMood(entries, 4) + CountMood(entries, 5) == |entries|
  {
    if entries != [] {
      MoodCountsPartition(entries[1..]);
    }
  }

  /** Every entry has exactly one quality for each metric. */
  lemma {:induction false} QualityCountsPartition(entries: seq<CheckinEntry>, metric: Metric)
    requires metric != MoodMetric
    ensures CountQuality(entries, metric, Bad) + CountQuality(entries, metric, Ok)
            + CountQuality(entries, metric, Good) == |entries|
  {
    if entries != [] {
      QualityCountsPartition(entries[1..], metric);
    }
  }

  /** The five mood buckets count every entry exactly once. */
  lemma MoodDistributionTotal(entries: seq<CheckinEntry>)
    ensures var bs := BuildMetricDistribution(entries, MoodMetric);
            bs[0].count + bs[1].count + bs[2].count + bs[3].count + bs[4].count == |entries|
  {
    MoodCountsPartition(entries);
  }

  /** The three quality buckets count every entry exactly once. */
  lemma QualityDistributionTotal(entries: seq<CheckinEntry>, metric: Metric)
    requires metric != MoodMetric
    ensures var bs := BuildMetricDistribution(entries, metric);
            bs[0].count + bs[1].count + bs[2].count == |entries|
  {
    QualityCountsPartition(entries, metric);
  }

  // ---------------------------------------------------------------------
  // Consistency strip

  datatype DayStatus = Logged | Missed | PreStart

  datatype ConsistencyDay = ConsistencyDay(date: Day, mood: Option<Mood>, logged: bool, status: DayStatus)

  /** The entry `new Map(entries.map((e) => [e.date, e]))` holds for a date:
      the last one with that date. */
  function LastEntryOn(entries: seq<CheckinEntry>, d: Day): (r: Option<CheckinEntry>)
    ensures r.None? <==> forall i :: 0 <= i < |entries| ==> entries[i].date != d
    ensures r.Some? ==>
      exists i :: 0 <= i < |entries| && entries[i] == r.value && (forall j :: i < j < |entries| ==> entries[j].date != d)
    ensures r.Some? ==> r.value.date == d
  {
    if entries == [] then None
    else if entries[|entries| - 1].date == d then Some(entries[|entries| - 1])
    else LastEntryOn(entries[..|entries| - 1], d)
  }

  /** The earliest entry date (the `reduce` that keeps the smaller date). */
  function FirstCheckinDate(entries: seq<CheckinEntry>): (r: Option<Day>)
    ensures r.None? <==> |entries| == 0
    ensures r.Some? ==> (exists i :: 0 <= i < |entries| && entries[i].date == r.value)
                        && forall i :: 0 <= i < |entries| ==> r.value <= entries[i].date
  {
    if entries == [] then None
    else
      var prev := FirstCheckinDate(entries[..|entries| - 1]);
      var e := entries[|entries| - 1];
      if prev.None? || e.date < prev.value then Some(e.date) else prev
  }

  function StripDay(entries: seq<CheckinEntry>, date: Day, first: Option<Day>): ConsistencyDay {
    var entry := LastEntryOn(entries, date);
    var isBeforeTrackingStart := entry.None? && first.Some? && date < first.value;
    ConsistencyDay(
      date,
      if entry.Some? then Some(entry.value.mood) else None,
      entry.Some?,
      if entry.Some? then Logged else if isBeforeTrackingStart then PreStart else Missed)
  }

  /** `buildRecentCheckinDays`: one item per day from today backwards;
      `Array.from` makes a negative length an empty array. */
  function BuildRecentCheckinDays(entries: seq<CheckinEntry>, days: int, today: Day): (strip: seq<ConsistencyDay>)
    ensures |strip| == if days < 0 then 0 else days
    ensures forall i :: 0 <= i < |strip| ==> strip[i].date == today - i
  {
    var first := FirstCheckinDate(entries);
    seq(if days < 0 then 0 else days, i => StripDay(entries, today - i, first))
  }

  /** What a strip item says: it is logged exactly when some entry has its
      date, and then shows the mood of the last such entry; it has no mood
      exactly when it is not logged; it is before the start exactly when
      there is no entry that day and the day precedes every entry; otherwise
      an unlogged day is missed. */
  lemma StripDaySpec(entries: seq<CheckinEntry>, days: int, today: Day, i: nat)
    requires i < days
    ensures var item := BuildRecentCheckinDays(entries, days, today)[i];
            && (item.logged <==> exists j :: 0 <= j < |entries| && entries[j].date == today - i)
            && (item.mood.None? <==> !item.logged)
            && (item.logged ==> item.mood == Some(LastEntryOn(entries, today - i).value.mood))
            && (item.status == Logged <==> item.logged)
            && (item.status == PreStart <==>
                  !item.logged && |entries| > 0 && forall j :: 0 <= j < |entries| ==> today - i < entries[j].date)
            && (item.status == Missed <==> !item.logged && item.status != PreStart)
  {
    var first := FirstCheckinDate(entries);
    var item := BuildRecentCheckinDays(entries, days, today)[i];
    assert item == StripDay(entries, today - i, first);
    if first.Some? && !(today - i < first.value) {
      var j :| 0 <= j < |entries| && entries[j].date == first.value;
      assert !(today - i < entries[j].date);
    }
  }

  /** With no entries every day is missed; none is before the start. */
  lemma EmptyStripMissed(days: int, today: Day, i: nat)
    requires i < days
    ensures BuildRecentCheckinDays([], days, today)[i].status == Missed
  {
    assert BuildRecentCheckinDays([], days, today)[i] == StripDay([], today - i, None);
  }

  // ---------------------------------------------------------------------
  // Summary

  datatype CheckinSummary = CheckinSummary(
    today: Option<CheckinEntry>,
    totalEntries: nat,
    streakDays: nat,
    logged30d: nat,
    activeDays30d: nat,
    averageMood30d: Option<real>)

  /** `entries.find((e) => e.date === today)`: the first entry with that date. */
  function FirstEntryOn(entries: seq<CheckinEntry>, d: Day): (r: Option<CheckinEntry>)
    ensures r.None? <==> forall i :: 0 <= i < |entries| ==> entries[i].date != d
    ensures r.Some? ==>
      exists i :: 0 <= i < |entries| && entries[i] == r.value && (forall j :: 0 <= j < i ==> entries[j].date != d)
    ensures r.Some? ==> r.value.date == d
  {
    if entries == [] then None
    else if entries[0].date == d then Some(entries[0])
    else
      var r := FirstEntryOn(entries[1..], d);
      assert r.Some? ==>
        exists i :: 1 <= i < |entries| && entries[i] == r.value && (forall j :: 0 <= j < i ==> entries[j].date != d) by {
        if r.Some? {
          var i :| 0 <= i < |entries[1..]| && entries[1..][i] == r.value
                   && forall j :: 0 <= j < i ==> entries[1..][j].date != d;
          assert forall j :: 0 <= j < i + 1 ==> entries[j].date != d by {
            forall j | 0 <= j < i + 1 ensures entries[j].date != d {
              if j > 0 {
                assert entries[j] == entries[1..][j - 1];
              }
            }
          }
        }
      }
      r
  }

  function CountActive(strip: seq<ConsistencyDay>): (n: nat)
    ensures n <= |strip|
  {
    if strip == [] then 0 else (if strip[0].status != PreStart then 1 else 0) + CountActive(strip[1..])
  }

  /** A strip day counts as active (not before the start) exactly when
      there are no entries at all or its date is on or after the first
      entry date. */
  lemma StripActive(entries: seq<CheckinEntry>, days: int, today: Day, i: nat)
    requires i < days
    ensures var item := BuildRecentCheckinDays(entries, days, today)[i];
            item.status != PreStart <==> |entries| == 0 || today - i >= FirstCheckinDate(entries).value
  {
    StripDaySpec(entries, days, today, i);
    var first := FirstCheckinDate(entries);
    if |entries| > 0 && today - i >= first.value {
      var j :| 0 <= j < |entries| && entries[j].date == first.value;
      assert !(today - i < entries[j].date);
    }
  }

  /** When the active items are exactly a prefix of length `c`, the count of
      active items is `c` (or the whole strip when it is shorter). */
  lemma {:induction false} CountActivePrefix(strip: seq<ConsistencyDay>, c: int)
    requires forall i :: 0 <= i < |strip| ==> (strip[i].status != PreStart <==> i < c)
    ensures CountActive(strip) == if c <= 0 then 0 else if c < |strip| then c else |strip|
  {
    if strip != [] {
      assert forall i :: 0 <= i < |strip[1..]| ==> strip[1..][i] == strip[i + 1];
      CountActivePrefix(strip[1..], c - 1);
    }
  }

  /** The number of active days in a strip of `days` days: all of them when
      there are no entries, otherwise the days from the first entry date up
      to today, at most `days`. */
  lemma ActiveDaysCount(entries: seq<CheckinEntry>, days: nat, today: Day)
    ensures var c := if |entries| == 0 then days else today - FirstCheckinDate(entries).value + 1;
            CountActive(BuildRecentCheckinDays(entries, days, today))
            == if c <= 0 then 0 else if c < days then c else days
  {
    var strip := BuildRecentCheckinDays(entries, days, today);
    var c := if |entries| == 0 then days else today - FirstCheckinDate(entries).value + 1;
    forall i | 0 <= i < |strip| ensures strip[i].status != PreStart <==> i < c {
      StripActive(entries, days, today, i);
    }
    CountActivePrefix(strip, c);
  }

  /** `computeCheckinSummary`. */
  function ComputeCheckinSummary(entries: seq<CheckinEntry>, today: Day): (s: CheckinSummary)
    ensures s.totalEntries == |entries|
    ensures s.today.None? <==> forall i :: 0 <= i < |entries| ==> entries[i].date != today
    ensures s.today.Some? ==> s.today.value.date == today && s.today.value in entries
    ensures s.logged30d <= s.totalEntries
    ensures s.activeDays30d <= 30
    ensures s.averageMood30d.None? <==> s.logged30d == 0
    ensures s.averageMood30d.Some? ==> 1.0 <= s.averageMood30d.value <= 5.0
    ensures s.averageMood30d == ComputeAverageMood(FilterByDays(entries, 30, today))
    ensures s.logged30d > 0 ==> var w := FilterByDays(entries, 30, today);
      s.averageMood30d == Some(Round1(Sum(Moods(w)) / |w| as real))
  {
    var recent30dDays := BuildRecentCheckinDays(entries, 30, today);
    var recent30d := FilterByDays(entries, 30, today);
    CheckinSummary(
      FirstEntryOn(entries, today),
      |entries|,
      StreakDays(entries, today),
      |recent30d|,
      CountActive(recent30dDays),
      ComputeAverageMood(recent30d))
  }

  /** The summary's fields, stated by what they mean: the streak is the run
      of days with an entry ending today, `logged30d` counts the entries of
      the inclusive 30-days-ago window (31 calendar days), and
      `activeDays30d` counts the strip days from the first entry date (or
      all 30 when there are no entries). */
  lemma CheckinSummarySpec(entries: seq<CheckinEntry>, today: Day)
    ensures var s := ComputeCheckinSummary(entries, today);
            && (forall x :: today - s.streakDays < x <= today ==> x in EntryDates(entries))
            && today - s.streakDays !in EntryDates(entries)
            && (forall e :: e in FilterByDays(entries, 30, today) <==> e in entries && e.date >= today - 30)
            && s.logged30d == |FilterByDays(entries, 30, today)|
            && var c := if |entries| == 0 then 30 else today - FirstCheckinDate(entries).value + 1;
               s.activeDays30d == if c <= 0 then 0 else if c < 30 then c else 30
  {
    StreakDaysSpec(entries, today);
    ActiveDaysCount(entries, 30, today);
  }

  // ---------------------------------------------------------------------
  // The unit-test scenario: today is 2026-02-22 (day `t`) and there are
  // check-ins on the 22nd, 21st, 20th and 18th, newest first.

  function ExampleEntries(t: Day): seq<CheckinEntry> {
    [CheckinEntry(4, t, 4, Good, Ok, Good),
     CheckinEntry(3, t - 1, 3, Ok, Good, Ok),
     CheckinEntry(2, t - 2, 5, Good, Good, Good),
     CheckinEntry(1, t - 4, 2, Bad, Bad, Ok)]
  }

  lemma FilterByDaysExample(t: Day)
    ensures FilterByDays(ExampleEntries(t), 2, t) == ExampleEntries(t)[..3]
  {
    var es := ExampleEntries(t);
    assert es == es[..3] + [es[3]];
    SinceDropsOlder(es[..3], es[3], t - 2);
  }

  /** A window that holds all of a list but its last entry, which is older. */
  lemma SinceDropsOlder(recent: seq<CheckinEntry>, older: CheckinEntry, cutoff: Day)
    requires forall i :: 0 <= i < |recent| ==> recent[i].date >= cutoff
    requires older.date < cutoff
    ensures Since(recent + [older], EntryDate, cutoff) == recent
  {
    SinceAppend(recent, [older], EntryDate, cutoff);
    SinceAll(recent, EntryDate, cutoff);
    SinceSingleton(older, EntryDate, cutoff);
    assert recent + [] == recent;
  }

  lemma StreakExample(t: Day)
    ensures StreakDays(ExampleEntries(t), t) == 3
  {
    var es := ExampleEntries(t);
    var dates := EntryDates(es);
    assert es[0] in es && es[1] in es && es[2] in es;
    assert t - 3 !in dates;
    RunBackMaximal(dates, t, 3);
    RunBackSpec(dates, t);
    assert RunBack(dates, t) >= 4 ==> t - 3 in dates;
  }

  lemma AverageMoodExample(t: Day)
    ensures ComputeAverageMood(ExampleEntries(t)) == Some(3.5)
    ensures ComputeAverageMood([]) == None
  {
    var ms := Moods(ExampleEntries(t));
    assert ms == [4.0, 3.0] + [5.0, 2.0];
    SumAppend([4.0, 3.0], [5.0, 2.0]);
    assert Sum(ms) == 14.0;
    assert 14.0 / 4.0 == 35 as real / 10.0;
    Round1Tenths(35);
  }

  lemma DistributionExample(t: Day)
    ensures var bs := BuildMetricDistribution(ExampleEntries(t), MoodMetric);
            [bs[0].count, bs[1].count, bs[2].count, bs[3].count, bs[4].count] == [0, 1, 1, 1, 1]
    ensures var bs := BuildMetricDistribution(ExampleEntries(t), SleepQuality);
            [bs[0].count, bs[1].count, bs[2].count] == [1, 1, 2]
  {
    var es := ExampleEntries(t);
    assert es[..2][1..] == [es[1]] && es[2..][1..] == [es[3]];
    assert es[..2] + es[2..] == es;
    CountMoodAppend(es[..2], es[2..], 1);
    CountMoodAppend(es[..2], es[2..], 2);
    CountMoodAppend(es[..2], es[2..], 3);
    CountMoodAppend(es[..2], es[2..], 4);
    CountMoodAppend(es[..2], es[2..], 5);
    CountQualityAppend(es[..2], es[2..], SleepQuality, Bad);
    CountQualityAppend(es[..2], es[2..], SleepQuality, Ok);
    CountQualityAppend(es[..2], es[2..], SleepQuality, Good);
    assert CountQuality(es, SleepQuality, Good) == 2;
  }

  lemma ExampleFirstDate(t: Day)
    ensures FirstCheckinDate(ExampleEntries(t)) == Some(t - 4)
  {
    var es := ExampleEntries(t);
    assert es[..3][..2][..1][..0] == [];
  }

  lemma ExampleLastEntries(t: Day)
    ensures var es := ExampleEntries(t);
            && LastEntryOn(es, t) == Some(es[0]) && LastEntryOn(es, t - 1) == Some(es[1])
            && LastEntryOn(es, t - 2) == Some(es[2]) && LastEntryOn(es, t - 3) == None
            && LastEntryOn(es, t - 5) == None
  {
    var es := ExampleEntries(t);
    assert es[..3][..2][..1][..0] == [];
  }

  lemma StripExample(t: Day)
    ensures var strip := BuildRecentCheckinDays(ExampleEntries(t), 4, t);
            && [strip[0].date, strip[1].date, strip[2].date, strip[3].date] == [t, t - 1, t - 2, t - 3]
            && [strip[0].logged, strip[1].logged, strip[2].logged, strip[3].logged] == [true, true, true, false]
            && [strip[0].status, strip[1].status, strip[2].status, strip[3].status] == [Logged, Logged, Logged, Missed]
            && strip[0].mood == Some(4) && strip[3].mood == None
    ensures var strip := BuildRecentCheckinDays(ExampleEntries(t), 7, t);
            strip[5].date == t - 5 && strip[5].status == PreStart
  {
    var es := ExampleEntries(t);
    ExampleFirstDate(t);
    ExampleLastEntries(t);
    var strip := BuildRecentCheckinDays(es, 4, t);
    assert strip[0] == StripDay(es, t, Some(t - 4)) && strip[1] == StripDay(es, t - 1, Some(t - 4));
    assert strip[2] == StripDay(es, t - 2, Some(t - 4)) && strip[3] == StripDay(es, t - 3, Some(t - 4));
    assert BuildRecentCheckinDays(es, 7, t)[5] == StripDay(es, t - 5, Some(t - 4));
  }

  lemma SummaryExample(t: Day)
    ensures ComputeCheckinSummary(ExampleEntries(t), t)
            == CheckinSummary(Some(ExampleEntries(t)[0]), 4, 3, 4, 5, Some(3.5))
  {
    var es := ExampleEntries(t);
    ExampleRecentFields(t);
    ExampleLastEntries(t);
    StreakExample(t);
    SummaryOfFields(es, t, Some(es[0]), 3, 4, 5, Some(3.5));
  }

  /** In the example every entry lies in the last 30 days, and the strip
      counts the five days from the first entry on. */
  lemma ExampleRecentFields(t: Day)
    ensures var es := ExampleEntries(t);
      && |FilterByDays(es, 30, t)| == 4
      && CountActive(BuildRecentCheckinDays(es, 30, t)) == 5
      && ComputeAverageMood(FilterByDays(es, 30, t)) == Some(3.5)
  {
    var es := ExampleEntries(t);
    SinceAll(es, EntryDate, t - 30);
    AverageMoodExample(t);
    ExampleFirstDate(t);
    ActiveDaysCount(es, 30, t);
  }

  /** The summary assembled from its six fields. */
  lemma SummaryOfFields(entries: seq<CheckinEntry>, today: Day, first: Option<CheckinEntry>,
                        streak: nat, logged: nat, active: nat, average: Option<real>)
    requires FirstEntryOn(entries, today) == first && StreakDays(entries, today) == streak
    requires |FilterByDays(entries, 30, today)| == logged
    requires CountActive(BuildRecentCheckinDays(entries, 30, today)) == active
    requires ComputeAverageMood(FilterByDays(entries, 30, today)) == average
    ensures ComputeCheckinSummary(entries, today) == CheckinSummary(first, |entries|, streak, logged, active, average)
  {
  }
}
