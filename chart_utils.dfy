/** The chart helpers of the dashboard: the weight moving average, the time
    range filter, BMI, and the exercise heatmap (minutes per day, the year
    grid, the quintile intensity levels and the cells built from them). */
module ChartUtils {
  import opened Wrappers
  import opened Dates
  import opened Numeric
  import opened Sorting
  import opened DayMaps
  import Constants

  // ---------------------------------------------------------------------
  // Weight chart

  datatype WeightPoint = WeightPoint(date: Day, weightKg: real)

  function Weights(data: seq<WeightPoint>): (r: seq<real>)
    ensures |r| == |data|
    ensures forall i :: 0 <= i < |data| ==> r[i] == data[i].weightKg
  {
    seq(|data|, i requires 0 <= i < |data| => data[i].weightKg)
  }

  /** The unrounded mean of the `w` points that end at position `i`. */
  function WindowMean(data: seq<WeightPoint>, w: int, i: int): real
    requires 1 <= w && w - 1 <= i < |data|
  {
    Sum(Weights(data[i - w + 1..i + 1])) / w as real
  }

  /** `computeMovingAverage`: one entry per point, null until `w` points are
      available, then the mean of the last `w` weights rounded to a tenth
      by `toFixed(1)`. */
  function MovingAverage(data: seq<WeightPoint>, w: int): (r: seq<Option<real>>)
    requires w >= 1
    ensures |r| == |data|
    ensures forall i :: 0 <= i < |data| ==> (r[i].None? <==> i < w - 1)
    ensures forall i :: w - 1 <= i < |data| ==> r[i] == Some(Fixed1(WindowMean(data, w, i)))
    ensures forall i :: w - 1 <= i < |data| ==>
      WindowMean(data, w, i) - 0.05 <= r[i].value <= WindowMean(data, w, i) + 0.05
  {
    seq(|data|, i requires 0 <= i < |data| =>
      if i < w - 1 then None else Some(Fixed1(WindowMean(data, w, i))))
  }

  /** A moving average never leaves the range of the weights it averages. */
  lemma MovingAverageBounds(data: seq<WeightPoint>, w: int, i: int, lo: int, hi: int)
    requires 1 <= w && w - 1 <= i < |data|
    requires forall j :: i - w + 1 <= j <= i ==> lo as real <= data[j].weightKg <= hi as real
    ensures lo as real <= MovingAverage(data, w)[i].value <= hi as real
  {
    var window := Weights(data[i - w + 1..i + 1]);
    assert forall j :: 0 <= j < |window| ==> window[j] == data[i - w + 1 + j].weightKg;
    MeanBounds(window, lo as real, hi as real);
    Fixed1Between(WindowMean(data, w, i), lo, hi);
  }

  /** For any real bounds on the weights of a window, its average lies
      between the bounds rounded, hence within half a tenth of them. */
  lemma MovingAverageNear(data: seq<WeightPoint>, w: int, i: int, lo: real, hi: real)
    requires 1 <= w && w - 1 <= i < |data|
    requires forall j :: i - w + 1 <= j <= i ==> lo <= data[j].weightKg <= hi
    ensures Fixed1(lo) <= MovingAverage(data, w)[i].value <= Fixed1(hi)
    ensures lo - 0.05 <= MovingAverage(data, w)[i].value <= hi + 0.05
  {
    var window := Weights(data[i - w + 1..i + 1]);
    assert forall j :: 0 <= j < |window| ==> window[j] == data[i - w + 1 + j].weightKg;
    MeanBounds(window, lo, hi);
    Fixed1Monotone(lo, WindowMean(data, w, i));
    Fixed1Monotone(WindowMean(data, w, i), hi);
  }

  /** A steady weight of whole tenths averages to itself. */
  lemma MovingAverageSteady(data: seq<WeightPoint>, w: int, k: int)
    requires w >= 1
    requires forall j :: 0 <= j < |data| ==> data[j].weightKg == k as real / 10.0
    ensures forall i :: w - 1 <= i < |data| ==> MovingAverage(data, w)[i] == Some(k as real / 10.0)
  {
    var c := k as real / 10.0;
    forall i | w - 1 <= i < |data| ensures MovingAverage(data, w)[i] == Some(c) {
      var window := Weights(data[i - w + 1..i + 1]);
      assert forall j :: 0 <= j < |window| ==> window[j] == c;
      MeanBounds(window, c, c);
      Fixed1Tenths(k);
    }
  }

  /** With a window of one point the average is each weight rounded. */
  lemma MovingAverageWindowOne(data: seq<WeightPoint>)
    ensures forall i :: 0 <= i < |data| ==> MovingAverage(data, 1)[i] == Some(Fixed1(data[i].weightKg))
  {
    forall i | 0 <= i < |data| ensures MovingAverage(data, 1)[i] == Some(Fixed1(data[i].weightKg)) {
      assert Weights(data[i..i + 1]) == [data[i].weightKg];
      assert Sum([data[i].weightKg]) == data[i].weightKg + Sum([]);
    }
  }

  lemma MovingAverageExample(t: Day)
    ensures MovingAverage([WeightPoint(t, 70.0), WeightPoint(t + 1, 71.0),
                           WeightPoint(t + 2, 72.0), WeightPoint(t + 3, 73.0)], 3)
            == [None, None, Some(71.0), Some(72.0)]
  {
    var data := [WeightPoint(t, 70.0), WeightPoint(t + 1, 71.0),
                 WeightPoint(t + 2, 72.0), WeightPoint(t + 3, 73.0)];
    var r := MovingAverage(data, 3);
    assert Weights(data[0..3]) == [70.0, 71.0, 72.0];
    assert Weights(data[1..4]) == [71.0, 72.0, 73.0];
    assert Sum([70.0, 71.0, 72.0]) == 213.0;
    assert Sum([71.0, 72.0, 73.0]) == 216.0;
    Fixed1Tenths(710);
    Fixed1Tenths(720);
    assert r[2] == Some(Fixed1(71.0));
    assert r[3] == Some(Fixed1(72.0));
  }

  /** `filterByTimeRange`: every entry when no range is chosen, otherwise the
      entries dated on or after the day `days` days before `today`, in their
      original order. */
  function FilterByTimeRange<T>(data: seq<T>, date: T -> Day, days: Option<int>, today: Day): (r: seq<T>)
    ensures days.None? ==> r == data
    ensures days.Some? ==> forall x :: x in r ==> x in data && date(x) >= today - days.value
    ensures days.Some? ==> forall x :: x in data && date(x) >= today - days.value ==> x in r
  {
    match days
    case None => data
    case Some(n) => Since(data, date, DaysAgo(today, n))
  }

  /** A shorter range shows a sub-list of a longer one. */
  lemma FilterByTimeRangeNested<T>(data: seq<T>, date: T -> Day, short: int, long: int, today: Day)
    requires short <= long
    ensures FilterByTimeRange(FilterByTimeRange(data, date, Some(long), today), date, Some(short), today)
            == FilterByTimeRange(data, date, Some(short), today)
    ensures |FilterByTimeRange(data, date, Some(short), today)| <= |FilterByTimeRange(data, date, Some(long), today)|
  {
    SinceNested(data, date, today - long, today - short);
  }

  function PointDate(p: WeightPoint): Day { p.date }

  /** On 2026-02-22 (day `t`) with entries 12, 9 and 2 days old, the last
      7 days keep the newest entry and the last 10 days the two newest. */
  lemma FilterByTimeRangeExample(t: Day)
    ensures FilterByTimeRange([WeightPoint(t - 12, 1.0), WeightPoint(t - 9, 2.0), WeightPoint(t - 2, 3.0)],
                              PointDate, Some(7), t) == [WeightPoint(t - 2, 3.0)]
    ensures FilterByTimeRange([WeightPoint(t - 12, 1.0), WeightPoint(t - 9, 2.0), WeightPoint(t - 2, 3.0)],
                              PointDate, Some(10), t) == [WeightPoint(t - 9, 2.0), WeightPoint(t - 2, 3.0)]
  {
    var a, b, c := WeightPoint(t - 12, 1.0), WeightPoint(t - 9, 2.0), WeightPoint(t - 2, 3.0);
    SinceOfThree(a, b, c, PointDate, t - 7);
    SinceOfThree(a, b, c, PointDate, t - 10);
  }

  lemma SinceOfThree<T>(a: T, b: T, c: T, date: T -> Day, cutoff: Day)
    ensures Since([a, b, c], date, cutoff)
            == (if date(a) >= cutoff then [a] else []) + (if date(b) >= cutoff then [b] else [])
               + (if date(c) >= cutoff then [c] else [])
  {
    assert [a, b, c] == [a] + [b] + [c];
    SinceAppend([a] + [b], [c], date, cutoff);
    SinceAppend([a], [b], date, cutoff);
    SinceSingleton(a, date, cutoff);
    SinceSingleton(b, date, cutoff);
    SinceSingleton(c, date, cutoff);
  }

  // ---------------------------------------------------------------------
  // BMI

  /** The unrounded body-mass index: the number that times the height in
      metres, twice, gives the weight. Dividing by the height twice is, in
      exact arithmetic, dividing by its square. */
  function BmiExact(weightKg: real, heightCm: real): (b: real)
    requires heightCm > 0.0
    ensures b * (heightCm / 100.0) * (heightCm / 100.0) == weightKg
  {
    var heightM := heightCm / 100.0;
    var perMetre := weightKg / heightM;
    assert perMetre * heightM == weightKg;
    assert (perMetre / heightM) * heightM == perMetre;
    perMetre / heightM
  }

  /** `computeBmi`: the body-mass index rounded to a tenth by `toFixed(1)`. */
  function ComputeBmi(weightKg: real, heightCm: real): (r: real)
    requires heightCm > 0.0
    ensures r == Fixed1(BmiExact(weightKg, heightCm))
    ensures BmiExact(weightKg, heightCm) - 0.05 <= r <= BmiExact(weightKg, heightCm) + 0.05
    ensures weightKg >= 0.0 ==> r == Round1(BmiExact(weightKg, heightCm))
  {
    Fixed1(BmiExact(weightKg, heightCm))
  }

  /** At a fixed height a heavier weight never gives a smaller BMI. */
  lemma ComputeBmiMonotone(w1: real, w2: real, heightCm: real)
    requires heightCm > 0.0 && w1 <= w2
    ensures ComputeBmi(w1, heightCm) <= ComputeBmi(w2, heightCm)
  {
    var hm := heightCm / 100.0;
    DivideMonotone(w1, w2, hm);
    DivideMonotone(w1 / hm, w2 / hm, hm);
    Fixed1Monotone(BmiExact(w1, heightCm), BmiExact(w2, heightCm));
  }

  lemma DivideMonotone(a: real, b: real, c: real)
    requires a <= b && c > 0.0
    ensures a / c <= b / c
  {
    assert b / c - a / c == (b - a) / c;
  }

  lemma ComputeBmiExample()
    ensures ComputeBmi(75.0, Constants.HeightCm) == 24.5
  {
    var exact := BmiExact(75.0, Constants.HeightCm);
    assert exact == 75.0 / 1.75 / 1.75;
    assert 244.5 <= exact * 10.0 + 0.5 < 245.5 by {
      assert exact * 1.75 * 1.75 == 75.0;
    }
    assert (exact * 10.0 + 0.5).Floor == 245;
  }

  datatype BmiClass = Underweight | Normal | Overweight | Obese {
    function Label(): string {
      match this
      case Underweight => "Underweight"
      case Normal => "Normal"
      case Overweight => "Overweight"
      case Obese => "Obese"
    }

    /** The position of the class on the scale, lightest first. */
    function Rank(): int {
      match this
      case Underweight => 0
      case Normal => 1
      case Overweight => 2
      case Obese => 3
    }
  }

  /** `bmiCategory`: the bands below 18.5, below 25, below 30 and the rest. */
  function BmiCategory(bmi: real): (c: BmiClass)
    ensures c == Underweight <==> bmi < 18.5
    ensures c == Normal <==> 18.5 <= bmi < 25.0
    ensures c == Overweight <==> 25.0 <= bmi < 30.0
    ensures c == Obese <==> 30.0 <= bmi
  {
    if bmi < 18.5 then Underweight
    else if bmi < 25.0 then Normal
    else if bmi < 30.0 then Overweight
    else Obese
  }

  /** A larger BMI never falls in a lighter class. */
  lemma BmiCategoryMonotone(a: real, b: real)
    requires a <= b
    ensures BmiCategory(a).Rank() <= BmiCategory(b).Rank()
  {
  }

  // ---------------------------------------------------------------------
  // Exercise minutes per day

  datatype ExerciseChartEntry = ExerciseChartEntry(date: Day, exerciseType: Constants.ExerciseType, durationMinutes: int)

  function EntryDates(es: seq<ExerciseChartEntry>): (ds: seq<Day>)
    ensures |ds| == |es|
    ensures forall i :: 0 <= i < |es| ==> ds[i] == es[i].date
  {
    seq(|es|, i requires 0 <= i < |es| => es[i].date)
  }

  /** The minutes logged on day `d`, the reference the day map is checked
      against. */
  function MinutesOn(es: seq<ExerciseChartEntry>, d: Day): int
  {
    if es == [] then 0
    else MinutesOn(es[..|es| - 1], d) + (if es[|es| - 1].date == d then es[|es| - 1].durationMinutes else 0)
  }

  /** The minutes logged in all. */
  function TotalMinutes(es: seq<ExerciseChartEntry>): int
  {
    if es == [] then 0 else TotalMinutes(es[..|es| - 1]) + es[|es| - 1].durationMinutes
  }

  /** One step of the fold: `map.set(e.date, (map.get(e.date) ?? 0) + minutes)`. */
  function AddEntry(m: DayMap, e: ExerciseChartEntry): DayMap
  {
    Put(m, e.date, Get(m, e.date).GetOr(0) + e.durationMinutes)
  }

  /** The map `aggregateExerciseByDay` builds: the entries folded in one at
      a time, in order. */
  function DayTotals(es: seq<ExerciseChartEntry>): DayMap
  {
    if es == [] then Empty else AddEntry(DayTotals(es[..|es| - 1]), es[|es| - 1])
  }

  /** `aggregateExerciseByDay`. */
  method AggregateExerciseByDay(entries: seq<ExerciseChartEntry>) returns (dayMap: DayMap)
    ensures dayMap == DayTotals(entries)
    ensures Valid(dayMap)
    ensures dayMap.keys == Distinct(EntryDates(entries))
    ensures forall d :: Get(dayMap, d) == if d in EntryDates(entries) then Some(MinutesOn(entries, d)) else None
    ensures Total(dayMap) == TotalMinutes(entries)
  {
    dayMap := Empty;
    for i := 0 to |entries|
      invariant dayMap == DayTotals(entries[..i])
    {
      var entry := entries[i];
      var existing := Get(dayMap, entry.date).GetOr(0);
      assert entries[..i + 1][..i] == entries[..i];
      dayMap := Put(dayMap, entry.date, existing + entry.durationMinutes);
    }
    assert entries[..|entries|] == entries;
    DayTotalsValid(entries);
    DayTotalsKeys(entries);
    forall d ensures Get(dayMap, d) == if d in EntryDates(entries) then Some(MinutesOn(entries, d)) else None {
      DayTotalsGet(entries, d);
    }
    DayTotalsTotal(entries);
  }

  lemma {:induction false} DayTotalsValid(es: seq<ExerciseChartEntry>)
    ensures Valid(DayTotals(es))
  {
    if es != [] {
      DayTotalsValid(es[..|es| - 1]);
    }
  }

  lemma EntryDatesPrefix(es: seq<ExerciseChartEntry>)
    requires es != []
    ensures EntryDates(es) == EntryDates(es[..|es| - 1]) + [es[|es| - 1].date]
  {
  }

  /** No entry on a day means no minutes on it. */
  lemma {:induction false} MinutesOnAbsent(es: seq<ExerciseChartEntry>, d: Day)
    requires d !in EntryDates(es)
    ensures MinutesOn(es, d) == 0
  {
    if es != [] {
      EntryDatesPrefix(es);
      MinutesOnAbsent(es[..|es| - 1], d);
    }
  }

  /** The map holds, for every day with an entry and only for those, the
      minutes logged that day. */
  lemma {:induction false} DayTotalsGet(es: seq<ExerciseChartEntry>, d: Day)
    ensures Get(DayTotals(es), d) == if d in EntryDates(es) then Some(MinutesOn(es, d)) else None
  {
    if es != [] {
      var p := es[..|es| - 1];
      var e := es[|es| - 1];
      var prev := DayTotals(p);
      var v := Get(prev, e.date).GetOr(0) + e.durationMinutes;
      assert DayTotals(es) == Put(prev, e.date, v);
      PutGet(prev, e.date, v, d);
      DayTotalsGet(p, d);
      EntryDatesPrefix(es);
      assert d in EntryDates(es) <==> d in EntryDates(p) || d == e.date;
      if d == e.date {
        if d !in EntryDates(p) {
          MinutesOnAbsent(p, d);
        }
        assert MinutesOn(es, d) == MinutesOn(p, d) + e.durationMinutes;
      } else {
        assert MinutesOn(es, d) == MinutesOn(p, d);
      }
    }
  }

  /** The keys are the entry dates without repeats, in order of first entry. */
  lemma {:induction false} DayTotalsKeys(es: seq<ExerciseChartEntry>)
    ensures DayTotals(es).keys == Distinct(EntryDates(es))
  {
    if es != [] {
      var p := es[..|es| - 1];
      DayTotalsKeys(p);
      DayTotalsValid(p);
      EntryDatesPrefix(es);
      var ds := EntryDates(es);
      assert ds[..|ds| - 1] == EntryDates(p);
    }
  }

  /** No minutes are lost or counted twice. */
  lemma {:induction false} DayTotalsTotal(es: seq<ExerciseChartEntry>)
    ensures Total(DayTotals(es)) == TotalMinutes(es)
  {
    DayTotalsValid(es);
    if es != [] {
      var p := es[..|es| - 1];
      var e := es[|es| - 1];
      var prev := DayTotals(p);
      var v := Get(prev, e.date).GetOr(0) + e.durationMinutes;
      assert DayTotals(es) == Put(prev, e.date, v);
      assert TotalMinutes(es) == TotalMinutes(p) + e.durationMinutes;
      DayTotalsTotal(p);
      DayTotalsValid(p);
      TotalPut(prev, e.date, v);
    }
  }

  lemma AggregateExample(t: Day)
    ensures var m := DayTotals([ExerciseChartEntry(t, Constants.Football, 30),
                                ExerciseChartEntry(t, Constants.Football, 45),
                                ExerciseChartEntry(t + 1, Constants.Other, 20)]);
            Get(m, t) == Some(75) && Get(m, t + 1) == Some(20)
  {
    var es := [ExerciseChartEntry(t, Constants.Football, 30),
               ExerciseChartEntry(t, Constants.Football, 45),
               ExerciseChartEntry(t + 1, Constants.Other, 20)];
    assert es[..2][..1] == es[..1];
    assert es[..1][..0] == [];
    assert EntryDates(es) == [t, t, t + 1];
    DayTotalsGet(es, t);
    DayTotalsGet(es, t + 1);
    assert MinutesOn(es[..1], t) == 30;
    assert MinutesOn(es[..2], t) == 75;
    assert MinutesOn(es[..1], t + 1) == 0;
    assert MinutesOn(es[..2], t + 1) == 0;
  }

  // ---------------------------------------------------------------------
  // Year grid

  datatype GridDay = GridDay(date: Day, col: int, row: int)

  /** The Sunday 52 weeks before the week of `end`. */
  function GridStart(end: Day): (s: Day)
    ensures Weekday(s) == 0
    ensures s == end - (52 * 7 + Weekday(end))
  {
    var s := end - (52 * 7 + Weekday(end));
    var q := (end + 4) / 7;
    assert end + 4 == 7 * q + Weekday(end);
    assert s + 4 == 7 * (q - 52);
    s
  }

  /** `generateYearGrid`: every day from the Sunday 52 weeks before `end`'s
      week through `end`, one column per week and one row per weekday. */
  method GenerateYearGrid(end: Day) returns (days: seq<GridDay>)
    ensures |days| == 52 * 7 + Weekday(end) + 1
    ensures forall i :: 0 <= i < |days| ==> days[i] == GridDay(GridStart(end) + i, i / 7, i % 7)
    ensures forall i :: 0 <= i < |days| ==> days[i].row == Weekday(days[i].date)
    ensures days[0] == GridDay(GridStart(end), 0, 0)
    ensures days[|days| - 1] == GridDay(end, 52, Weekday(end))
  {
    var endDow := Weekday(end);
    var startOffset := 52 * 7 + endDow;
    var start := end - startOffset;
    assert start == GridStart(end);
    days := [];
    for i := 0 to startOffset + 1
      invariant |days| == i
      invariant forall j :: 0 <= j < i ==> days[j] == GridDay(start + j, j / 7, j % 7)
      invariant forall j :: 0 <= j < i ==> days[j].row == Weekday(days[j].date)
    {
      var current := start + i;
      var dow := Weekday(current);
      WeekdayAdvance(start, i);
      var col := i / 7;
      days := days + [GridDay(current, col, dow)];
    }
    assert startOffset / 7 == 52 && startOffset % 7 == endDow;
  }

  // ---------------------------------------------------------------------
  // Intensity levels

  /** The positive numbers of `s`, in order (`filter((v) => v > 0)`). */
  function PositiveValues(s: seq<int>): (ps: seq<int>)
    ensures forall v :: v in ps ==> v > 0 && v in s
    ensures forall v :: v in s && v > 0 ==> v in ps
    ensures forall v :: v > 0 ==> multiset(ps)[v] == multiset(s)[v]
    ensures forall v :: v <= 0 ==> multiset(ps)[v] == 0
  {
    if s == [] then []
    else
      assert s == [s[0]] + s[1..];
      (if s[0] > 0 then [s[0]] else []) + PositiveValues(s[1..])
  }

  /** The filter keeps order: the positives of a concatenation are the
      positives of each part, one after the other. */
  lemma {:induction false} PositiveValuesAppend(a: seq<int>, b: seq<int>)
    ensures PositiveValues(a + b) == PositiveValues(a) + PositiveValues(b)
  {
    if a == [] {
      assert a + b == b;
    } else {
      assert (a + b)[1..] == a[1..] + b;
      PositiveValuesAppend(a[1..], b);
    }
  }

  /** The position of the `k`-th fifth in a sorted list of `n` values:
      `min(floor(k/5 * n), n - 1)`. */
  function QuintileIndex(k: nat, n: nat): (j: nat)
    requires n > 0
    ensures j < n && j == if k * n / 5 < n then k * n / 5 else n - 1
  {
    if k * n / 5 < n then k * n / 5 else n - 1
  }

  /** The four thresholds at 20, 40, 60 and 80 per cent. */
  function Quintiles(sorted: seq<int>): (q: seq<int>)
    requires |sorted| > 0
    ensures |q| == 4
    ensures forall k :: 0 <= k < 4 ==> q[k] == sorted[QuintileIndex(k + 1, |sorted|)]
  {
    var n := |sorted|;
    [sorted[QuintileIndex(1, n)], sorted[QuintileIndex(2, n)],
     sorted[QuintileIndex(3, n)], sorted[QuintileIndex(4, n)]]
  }

  /** The level of a non-zero total: the first threshold it does not
      exceed, numbered from 1, or 5 when it exceeds all four. */
  function QuintileLevel(minutes: int, q: seq<int>): (l: int)
    requires |q| == 4
    ensures 1 <= l <= 5
    ensures l <= 4 ==> minutes <= q[l - 1]
    ensures forall k :: 0 <= k < l - 1 ==> minutes > q[k]
  {
    if minutes <= q[0] then 1
    else if minutes <= q[1] then 2
    else if minutes <= q[2] then 3
    else if minutes <= q[3] then 4
    else 5
  }

  /** The intensity of a day: 0 for no minutes, its quintile level otherwise. */
  function Intensity(minutes: int, q: seq<int>): (l: int)
    requires |q| == 4
    ensures 0 <= l <= 5
    ensures l == 0 <==> minutes == 0
  {
    if minutes == 0 then 0 else QuintileLevel(minutes, q)
  }

  /** The map with every day's minutes replaced by its intensity. */
  function Leveled(m: DayMap, q: seq<int>): (r: DayMap)
    requires |q| == 4
    ensures r.keys == m.keys
    ensures Valid(m) ==> Valid(r)
    ensures forall d :: Get(r, d) == if d in m.table then Some(Intensity(m.table[d], q)) else None
  {
    DayMap(m.keys, map d | d in m.table :: Intensity(m.table[d], q))
  }

  /** The sorted positive totals the thresholds are taken from. */
  function SortedPositives(m: DayMap): (values: seq<int>)
    ensures forall v :: v in values ==> v > 0 && v in Values(m)
    ensures forall v :: v in Values(m) && v > 0 ==> v in values
    ensures Ascending(values)
    ensures multiset(values) == multiset(PositiveValues(Values(m)))
    ensures forall v :: v > 0 ==> multiset(values)[v] == multiset(Values(m))[v]
  {
    var ps := PositiveValues(Values(m));
    var values := SortAscending(ps);
    SameElements(values, ps);
    values
  }

  /** The map `computeIntensityLevels` returns: empty when no day has a
      positive total, otherwise every day with its intensity against the
      quintiles of the sorted positive totals. */
  function IntensityLevels(m: DayMap): DayMap
  {
    var values := SortedPositives(m);
    if |values| == 0 then Empty else Leveled(m, Quintiles(values))
  }

  /** The level map built so far after the first `i` keys. */
  function LeveledPrefix(m: DayMap, q: seq<int>, i: nat): DayMap
    requires |q| == 4 && i <= |m.keys|
  {
    DayMap(m.keys[..i], map d | d in m.keys[..i] && d in m.table :: Intensity(m.table[d], q))
  }

  /** Setting the next key extends the prefix by one. */
  lemma LeveledPrefixStep(m: DayMap, q: seq<int>, i: nat)
    requires Valid(m) && |q| == 4 && i < |m.keys|
    ensures m.keys[i] !in LeveledPrefix(m, q, i).table
    ensures Put(LeveledPrefix(m, q, i), m.keys[i], Intensity(m.table[m.keys[i]], q)) == LeveledPrefix(m, q, i + 1)
  {
    LeveledPrefixFresh(m, q, i);
    LeveledPrefixTable(m, q, i);
    assert m.keys[..i + 1] == m.keys[..i] + [m.keys[i]];
  }

  lemma LeveledPrefixFresh(m: DayMap, q: seq<int>, i: nat)
    requires Valid(m) && |q| == 4 && i < |m.keys|
    ensures m.keys[i] !in LeveledPrefix(m, q, i).table
  {
    forall j | 0 <= j < i ensures m.keys[..i][j] != m.keys[i] {
    }
  }

  lemma LeveledPrefixTable(m: DayMap, q: seq<int>, i: nat)
    requires Valid(m) && |q| == 4 && i < |m.keys|
    ensures LeveledPrefix(m, q, i).table[m.keys[i] := Intensity(m.table[m.keys[i]], q)]
            == LeveledPrefix(m, q, i + 1).table
  {
    var k := m.keys[i];
    var a := LeveledPrefix(m, q, i).table[k := Intensity(m.table[k], q)];
    var b := LeveledPrefix(m, q, i + 1).table;
    assert k in m.table;
    forall d ensures d in a <==> d in b {
      InPrefixStep(m.keys, i, d);
    }
    forall d | d in a ensures a[d] == b[d] {
      InPrefixStep(m.keys, i, d);
    }
  }

  lemma InPrefixStep(keys: seq<Day>, i: nat, d: Day)
    requires i < |keys|
    ensures d in keys[..i + 1] <==> d in keys[..i] || d == keys[i]
  {
    assert keys[..i + 1] == keys[..i] + [keys[i]];
  }

  lemma LeveledPrefixAll(m: DayMap, q: seq<int>)
    requires Valid(m) && |q| == 4
    ensures LeveledPrefix(m, q, |m.keys|) == Leveled(m, q)
  {
    assert m.keys[..|m.keys|] == m.keys;
    var a, b := LeveledPrefix(m, q, |m.keys|).table, Leveled(m, q).table;
    assert forall d :: d in a <==> d in b;
    assert a == b;
  }

  /** `computeIntensityLevels`. */
  method ComputeIntensityLevels(dayMap: DayMap) returns (intensityMap: DayMap)
    requires Valid(dayMap)
    ensures intensityMap == IntensityLevels(dayMap)
  {
    var values := SortedPositives(dayMap);
    if |values| == 0 {
      return Empty;
    }
    var quintiles := Quintiles(values);
    intensityMap := Empty;
    assert intensityMap == LeveledPrefix(dayMap, quintiles, 0);
    for i := 0 to |dayMap.keys|
      invariant intensityMap == LeveledPrefix(dayMap, quintiles, i)
    {
      var date := dayMap.keys[i];
      var minutes := dayMap.table[date];
      LeveledPrefixStep(dayMap, quintiles, i);
      if minutes == 0 {
        intensityMap := Put(intensityMap, date, 0);
      } else {
        intensityMap := Put(intensityMap, date, QuintileLevel(minutes, quintiles));
      }
    }
    LeveledPrefixAll(dayMap, quintiles);
  }

  /** A day with positive minutes makes the list of positives non-empty. */
  lemma PositiveDay(m: DayMap, d: Day)
    requires Valid(m) && d in m.table && m.table[d] > 0
    ensures |SortedPositives(m)| > 0
  {
    var i :| 0 <= i < |m.keys| && m.keys[i] == d;
    assert Values(m)[i] == m.table[d];
    assert m.table[d] in SortedPositives(m);
  }

  /** There are levels exactly when some day has a positive total. */
  lemma IntensityLevelsEmpty(m: DayMap)
    requires Valid(m)
    ensures IntensityLevels(m) == Empty <==> forall d :: d in m.table ==> m.table[d] <= 0
  {
    if exists d :: d in m.table && m.table[d] > 0 {
      var d :| d in m.table && m.table[d] > 0;
      PositiveDay(m, d);
      assert d in IntensityLevels(m).keys;
    } else {
      NoPositiveDay(m);
    }
  }

  /** Without a day of positive minutes there are no positive totals. */
  lemma NoPositiveDay(m: DayMap)
    requires Valid(m)
    requires forall d :: d in m.table ==> m.table[d] <= 0
    ensures SortedPositives(m) == []
  {
    var vs := Values(m);
    forall i | 0 <= i < |vs| ensures vs[i] <= 0 {
      var d := m.keys[i];
      assert d in m.table;
      assert m.table[d] <= 0;
      assert vs[i] == m.table[d];
    }
    PositiveValuesNone(vs);
  }

  lemma {:induction false} PositiveValuesNone(s: seq<int>)
    requires forall i :: 0 <= i < |s| ==> s[i] <= 0
    ensures PositiveValues(s) == []
  {
    if s != [] {
      PositiveValuesNone(s[1..]);
    }
  }

  /** The level map has no day the day map lacks; a day with no minutes has
      level 0 and a day with positive minutes a level from 1 to 5. */
  lemma IntensityLevelsGet(m: DayMap, d: Day)
    requires Valid(m)
    ensures Get(IntensityLevels(m), d).Some? ==> Get(m, d).Some?
    ensures Get(m, d) == Some(0) ==> Get(IntensityLevels(m), d).GetOr(0) == 0
    ensures Get(m, d).Some? && Get(m, d).value > 0 ==>
      Get(IntensityLevels(m), d).Some? && 1 <= Get(IntensityLevels(m), d).value <= 5
    ensures Get(m, d).Some? && Get(m, d).value > 0 ==>
      Get(IntensityLevels(m), d) == Some(QuintileLevel(m.table[d], Quintiles(SortedPositives(m))))
  {
    if Get(m, d).Some? && Get(m, d).value > 0 {
      PositiveDay(m, d);
    }
  }

  /** When some day has positive minutes, the level map lists the same days
      as the day map, in the same order. */
  lemma IntensityLevelsKeys(m: DayMap, d: Day)
    requires Valid(m) && d in m.table && m.table[d] > 0
    ensures IntensityLevels(m).keys == m.keys
  {
    PositiveDay(m, d);
  }

  /** More minutes never give a lower level. */
  lemma IntensityMonotone(a: int, b: int, q: seq<int>)
    requires |q| == 4 && 0 < a <= b
    ensures Intensity(a, q) <= Intensity(b, q)
  {
  }

  /** The smallest positive total always gets level 1, since no threshold is
      below it. */
  lemma SmallestDayLevelOne(m: DayMap, d: Day)
    requires Valid(m) && d in m.table && m.table[d] > 0
    requires forall e :: e in m.table && m.table[e] > 0 ==> m.table[d] <= m.table[e]
    ensures Get(IntensityLevels(m), d) == Some(1)
  {
    PositiveDay(m, d);
    var values := SortedPositives(m);
    var x := values[QuintileIndex(1, |values|)];
    assert x in values;
    var i :| 0 <= i < |m.keys| && Values(m)[i] == x;
    assert m.keys[i] in m.table;
  }

  /** When every active day has the same total, every active day gets
      level 1. */
  lemma SteadyDaysLevelOne(m: DayMap, c: int)
    requires Valid(m) && c > 0
    requires forall e :: e in m.table ==> m.table[e] == 0 || m.table[e] == c
    ensures forall d :: d in m.table && m.table[d] == c ==> Get(IntensityLevels(m), d) == Some(1)
  {
    forall d | d in m.table && m.table[d] == c
      ensures Get(IntensityLevels(m), d) == Some(1)
    {
      SmallestDayLevelOne(m, d);
    }
  }

  /** A sequence of positive numbers is its own positive part. */
  lemma {:induction false} PositiveValuesAll(s: seq<int>)
    requires forall i :: 0 <= i < |s| ==> s[i] > 0
    ensures PositiveValues(s) == s
  {
    if s != [] {
      PositiveValuesAll(s[1..]);
    }
  }

  function ExampleMap(t: Day): DayMap {
    DayMap([t, t + 1, t + 2, t + 3, t + 4, t + 5, t + 6],
           map[t := 0, t + 1 := 10, t + 2 := 20, t + 3 := 30, t + 4 := 40, t + 5 := 50, t + 6 := 60])
  }

  lemma ExampleValues(t: Day)
    ensures Values(ExampleMap(t)) == [0, 10, 20, 30, 40, 50, 60]
  {
  }

  lemma ExamplePositives()
    ensures PositiveValues([0, 10, 20, 30, 40, 50, 60]) == [10, 20, 30, 40, 50, 60]
  {
    var vs := [0, 10, 20, 30, 40, 50, 60];
    var ps := [10, 20, 30, 40, 50, 60];
    assert vs[1..] == ps;
    PositiveValuesAll(ps);
  }

  lemma ExampleSorted()
    ensures SortAscending([10, 20, 30, 40, 50, 60]) == [10, 20, 30, 40, 50, 60]
  {
    SortAscendingSorted([10, 20, 30, 40, 50, 60]);
  }

  lemma ExampleSortedPositives(t: Day)
    ensures SortedPositives(ExampleMap(t)) == [10, 20, 30, 40, 50, 60]
  {
    ExampleValues(t);
    ExamplePositives();
    ExampleSorted();
  }

  /** The seven days of 0, 10, ..., 60 minutes: the thresholds are 20, 30,
      40 and 50, so the levels are 0, 1, 1, 2, 3, 4 and 5. */
  lemma IntensityExample(t: Day)
    ensures var lv := IntensityLevels(ExampleMap(t));
            && Get(lv, t) == Some(0) && Get(lv, t + 1) == Some(1) && Get(lv, t + 2) == Some(1)
            && Get(lv, t + 3) == Some(2) && Get(lv, t + 4) == Some(3) && Get(lv, t + 5) == Some(4)
            && Get(lv, t + 6) == Some(5)
  {
    ExampleLevels(t);
    ExampleLeveled(t);
  }

  lemma ExampleLevels(t: Day)
    ensures IntensityLevels(ExampleMap(t)) == Leveled(ExampleMap(t), [20, 30, 40, 50])
  {
    ExampleSortedPositives(t);
    ExampleQuintiles();
  }

  lemma ExampleLeveled(t: Day)
    ensures var lv := Leveled(ExampleMap(t), [20, 30, 40, 50]);
            && Get(lv, t) == Some(0) && Get(lv, t + 1) == Some(1) && Get(lv, t + 2) == Some(1)
            && Get(lv, t + 3) == Some(2) && Get(lv, t + 4) == Some(3) && Get(lv, t + 5) == Some(4)
            && Get(lv, t + 6) == Some(5)
  {
    ExampleLeveledLow(t);
    ExampleLeveledHigh(t);
  }

  lemma ExampleLeveledLow(t: Day)
    ensures var lv := Leveled(ExampleMap(t), [20, 30, 40, 50]);
            && Get(lv, t) == Some(0) && Get(lv, t + 1) == Some(1) && Get(lv, t + 2) == Some(1)
            && Get(lv, t + 3) == Some(2)
  {
  }

  lemma ExampleLeveledHigh(t: Day)
    ensures var lv := Leveled(ExampleMap(t), [20, 30, 40, 50]);
            && Get(lv, t + 4) == Some(3) && Get(lv, t + 5) == Some(4) && Get(lv, t + 6) == Some(5)
  {
  }

  lemma ExampleQuintiles()
    ensures Quintiles([10, 20, 30, 40, 50, 60]) == [20, 30, 40, 50]
  {
    assert QuintileIndex(1, 6) == 1 && QuintileIndex(2, 6) == 2;
    assert QuintileIndex(3, 6) == 3 && QuintileIndex(4, 6) == 4;
  }

  // ---------------------------------------------------------------------
  // Heatmap cells

  /** `heatmapColor`: a fill per intensity, the neutral colour for anything
      else. */
  function HeatmapColor(intensity: int): (c: string)
    ensures !(0 <= intensity <= 5) ==> c == "var(--secondary)"
  {
    if intensity == 1 then "hsl(140, 70%, 50%, 0.15)"
    else if intensity == 2 then "hsl(140, 70%, 50%, 0.35)"
    else if intensity == 3 then "hsl(140, 70%, 50%, 0.55)"
    else if intensity == 4 then "hsl(140, 70%, 50%, 0.75)"
    else if intensity == 5 then "hsl(140, 70%, 50%, 0.95)"
    else "var(--secondary)"
  }

  /** The six levels get six different colours. */
  lemma HeatmapColorDistinct(a: int, b: int)
    requires 0 <= a < b <= 5
    ensures HeatmapColor(a) != HeatmapColor(b)
  {
    var ca, cb := HeatmapColor(a), HeatmapColor(b);
    if a == 0 {
      assert ca[0] != cb[0];
    } else {
      assert ca[21] != cb[21];
    }
  }

  datatype HeatmapDay = HeatmapDay(date: Day, totalMinutes: int, intensity: int)

  /** `buildHeatmapData`: one cell per grid day with its total and level,
      0 for days missing from either map. */
  function BuildHeatmapData(grid: seq<GridDay>, dayMap: DayMap, intensityMap: DayMap): (r: seq<HeatmapDay>)
    ensures |r| == |grid|
    ensures forall i :: 0 <= i < |grid| ==> r[i].date == grid[i].date
    ensures forall i :: 0 <= i < |grid| ==> r[i].totalMinutes == Get(dayMap, grid[i].date).GetOr(0)
    ensures forall i :: 0 <= i < |grid| ==> r[i].intensity == Get(intensityMap, grid[i].date).GetOr(0)
  {
    seq(|grid|, i requires 0 <= i < |grid| =>
      HeatmapDay(grid[i].date, Get(dayMap, grid[i].date).GetOr(0), Get(intensityMap, grid[i].date).GetOr(0)))
  }

  /** Positive durations on a day add up to a positive total. */
  lemma {:induction false} MinutesOnPresent(es: seq<ExerciseChartEntry>, d: Day)
    requires forall i :: 0 <= i < |es| ==> es[i].durationMinutes >= 1
    requires d in EntryDates(es)
    ensures MinutesOn(es, d) >= 1
  {
    var p := es[..|es| - 1];
    EntryDatesPrefix(es);
    if d in EntryDates(p) {
      MinutesOnPresent(p, d);
    } else {
      MinutesOnAbsent(p, d);
    }
  }

  /** The whole heatmap pipeline over entries of positive duration: the
      cell of day `d` (what BuildHeatmapData reads from the two maps) shows
      the minutes logged that day, and its intensity is 0 exactly when
      nothing was logged and otherwise a level from 1 to 5. */
  lemma HeatmapPipeline(entries: seq<ExerciseChartEntry>, d: Day)
    requires forall j :: 0 <= j < |entries| ==> entries[j].durationMinutes >= 1
    ensures var m := DayTotals(entries);
            var minutes := Get(m, d).GetOr(0);
            var level := Get(IntensityLevels(m), d).GetOr(0);
            && minutes == MinutesOn(entries, d)
            && (level == 0 <==> minutes == 0)
            && 0 <= level <= 5
  {
    var m := DayTotals(entries);
    DayTotalsValid(entries);
    DayTotalsGet(entries, d);
    IntensityLevelsGet(m, d);
    if d in EntryDates(entries) {
      MinutesOnPresent(entries, d);
    } else {
      MinutesOnAbsent(entries, d);
    }
  }

  lemma HeatmapExample(t: Day)
    ensures BuildHeatmapData([GridDay(t, 0, 0), GridDay(t + 1, 0, 1)],
                             DayMap([t, t + 1], map[t := 40, t + 1 := 20]),
                             DayMap([t, t + 1], map[t := 4, t + 1 := 2]))
            == [HeatmapDay(t, 40, 4), HeatmapDay(t + 1, 20, 2)]
  {
  }
}
