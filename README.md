# track-shan dashboard core in Dafny

track-shan is a personal dashboard. It tracks three things:

- **Exercise sessions**: a date, a type, an optional label, minutes and an effort level.
- **Weigh-ins**: a date and a weight in kilograms.
- **Daily check-ins**: a date, a mood from 1 to 5, three bad/ok/good ratings, and a few optional extras.

This project models the part of the dashboard that computes rather than renders:

- **Chart helpers** (`chart_utils.dfy`): the weight moving average, the time-range filter, BMI and its category, and the activity heatmap. The heatmap is built from per-day exercise totals, a year grid, intensity levels cut at quintiles, and a colour per level.
- **Check-in statistics** (`checkin_utils.dfy`): the mood lookups, the day windows, the streak of consecutive days, the average mood, the answer distributions, the 30-day consistency strip, and the summary card.
- **Display formatters** (`formatters.dfy`).
- **Statistics routes**: the code that runs after the exercise and weight statistics routes have loaded their entries, newest first (`exercise_stats.dfy`, `weight_stats.dfy`).
- **Command-line check-in client** (`checkin_cli.dfy`): the argument loop, the field parsers, the payload builder and the choice between prompting and flags.
- **Request validators** for exercise, weight and check-in bodies and for the pagination query (`schema_rules.dfy`, `exercise_schema.dfy`, `weight_schema.dfy`, `checkin_schema.dfy`).

The remaining files are shared support:

- `dates.dfy`: calendar days as integers.
- `numeric.dfy`: rounding to one decimal, and sums.
- `text.dfy`, `number_reading.dfy`, `fixed_reading.dfy`: JavaScript's `String`, `parseInt`, `parseFloat`, `Number`, `toFixed(1)`, `trim` and `toLowerCase`.
- `sorting.dfy`: sorting and de-duplication.
- `day_maps.dfy`: an insertion-ordered map from day to number, standing for a JavaScript `Map`.
- `json.dfy`: JSON values.
- `constants.dfy`: the enumerations and mood options.

Conventions:

- **Dates.** A date is a day number counted from 1970-01-01, which was a Thursday. Day 0 is therefore weekday 4, and comparing day numbers is comparing ISO date strings.
- **The clock.** "Today" is always a parameter.
- **Rounding.** `Math.round(x * 10) / 10` is `Round1`, which rounds half up to a tenth. `Number(x.toFixed(1))` is `Fixed1`, which rounds the magnitude half up and puts the sign back (`FixedReadsAsFixed1`). The two agree on non-negative numbers. On a negative number half way between tenths they differ: -0.25 gives -0.3 with `toFixed` and -0.2 with `Math.round` (`Fixed1HalfTenth`).
- **Loops.** Code that works with a loop is a `method` with invariants. Each such method is proved equal to a pure function, and the properties are proved about that function.
- **Maps.** A JavaScript `Map` filled by `set` is a `DayMap`: a list of keys in insertion order plus a table.

## Model

| member | source | states |
|---|---|---|
| Dates.DaysAgo | src/lib/checkinUtils.ts:17-21 | the cutoff is exactly `days` days before today, and not after it for a non-negative count |
| Dates.Weekday | src/lib/chartUtils.ts:63 | `getDay()` lies in 0..6 and is 0 exactly on Sundays |
| Dates.WeekdayAdvance | src/lib/chartUtils.ts:68-71 | `i` days after a Sunday is weekday `i % 7` |
| Dates.Since | src/lib/checkinUtils.ts:29 | `filter((e) => e.date >= cutoff)` keeps exactly the entries on or after the cutoff and never grows the list |
| Dates.UpTo | src/app/api/weight/stats/route.ts:21 | `filter((e) => e.date <= cutoff)` keeps exactly the entries on or before the cutoff |
| Dates.SinceNested | src/app/api/exercise/stats/route.ts:41-43 | filtering from a later cutoff after an earlier one is filtering from the later one, and keeps no more entries |
| Dates.FilterAppend | src/lib/chartUtils.ts:26 | a filter distributes over concatenation |
| Numeric.Round1 | src/lib/checkinUtils.ts:60 | rounding to one decimal moves a value by at most half a tenth and gives a whole number of tenths |
| Numeric.Round1Tenths | src/lib/checkinUtils.ts:60 | a value already in whole tenths is left as it is |
| Numeric.Round1Monotone | src/lib/checkinUtils.ts:60 | rounding keeps order |
| Numeric.Round1Between | src/lib/checkinUtils.ts:60 | rounding a value between two integers stays between them |
| Numeric.Fixed1 | src/lib/chartUtils.ts:15 | `Number(x.toFixed(1))` as a value: a whole number of tenths within half a tenth of `x`, equal to `Round1(x)` for non-negative `x` |
| Numeric.Fixed1HalfTenth | src/lib/chartUtils.ts:15 | -0.25 rounds to -0.3 with `toFixed(1)` but to -0.2 with `Math.round(x * 10) / 10` |
| Numeric.Fixed1Odd | src/lib/chartUtils.ts:15 | the sign is set aside while rounding: `x` and `-x` round to opposite values |
| Numeric.Fixed1Monotone | src/lib/chartUtils.ts:15 | rounding keeps order |
| Numeric.Fixed1Tenths | src/lib/chartUtils.ts:15 | a value already in whole tenths is left as it is |
| Numeric.Fixed1Between | src/lib/chartUtils.ts:15 | rounding a value between two integers stays between them |
| Numeric.SumBounds | src/lib/chartUtils.ts:14 | a sum of values within bounds lies between count times the bounds |
| Numeric.MeanBounds | src/app/api/weight/stats/route.ts:34-35 | a mean lies within the bounds of its values |
| Constants.ExerciseTypeFromName | src/lib/constants.ts:3 | reading a type name gives the type with that name, and nothing for any other text |
| Constants.EffortFromName | src/lib/constants.ts:5 | the same for effort levels |
| Constants.QualityFromName | src/lib/constants.ts:7 | the same for check-in ratings |
| DayMaps.Put | src/lib/chartUtils.ts:47 | `Map.set` keeps the keys distinct, appends a new key and leaves an existing key in place |
| DayMaps.PutGet | src/lib/chartUtils.ts:46-47 | after `set(d, v)`, `get(d)` is `v` and every other key reads as before |
| DayMaps.TotalPut | src/lib/chartUtils.ts:46-47 | `set` changes the sum of the values by the new value minus the old one |
| ChartUtils.MovingAverage | src/lib/chartUtils.ts:7-16 | one entry per point; null exactly before the first full window; otherwise the mean of the last `w` weights rounded to a tenth as `Number(x.toFixed(1))` does, which is within half a tenth of that mean |
| ChartUtils.MovingAverageBounds | src/lib/chartUtils.ts:11-16 | when the weights of a window lie between two whole numbers, so does its moving average |
| ChartUtils.MovingAverageNear | src/lib/chartUtils.ts:11-16 | when the weights of a window lie between any two bounds, its moving average lies between the bounds rounded, so within half a tenth of them |
| ChartUtils.MovingAverageSteady | src/lib/chartUtils.ts:11-16 | a steady weight in whole tenths averages to itself |
| ChartUtils.MovingAverageWindowOne | src/lib/chartUtils.ts:11-16 | a window of one point gives each weight rounded as `toFixed(1)` rounds it |
| ChartUtils.MovingAverageExample | src/lib/chartUtils.ts:7-16 | weights 70, 71, 72, 73 with a window of 3 give null, null, 71, 72 |
| ChartUtils.FilterByTimeRange | src/lib/chartUtils.ts:18-27 | no range keeps every entry; a range keeps exactly the entries on or after `days` days ago |
| ChartUtils.FilterByTimeRangeNested | src/lib/chartUtils.ts:18-27 | a shorter range shows a sub-list of a longer one |
| ChartUtils.FilterByTimeRangeExample | src/lib/chartUtils.ts:18-27 | with entries 12, 9 and 2 days old, a 7-day range keeps the newest and a 10-day range the two newest |
| ChartUtils.ComputeBmi | src/lib/chartUtils.ts:29-32 | the BMI is weight over height in metres squared rounded as `Number(x.toFixed(1))` does, so within half a tenth of that quotient; for a non-negative weight this is rounding half up |
| ChartUtils.ComputeBmiMonotone | src/lib/chartUtils.ts:29-32 | at a fixed height, a heavier weight never gives a smaller BMI |
| ChartUtils.ComputeBmiExample | src/lib/chartUtils.ts:29-32 | 75 kg at 175 cm is BMI 24.5 |
| ChartUtils.BmiCategory | src/lib/chartUtils.ts:34-39 | each of the four classes is taken exactly on its band: below 18.5, then below 25, then below 30, then the rest |
| ChartUtils.BmiCategoryMonotone | src/lib/chartUtils.ts:34-39 | a larger BMI never falls in a lighter class |
| ChartUtils.AggregateExerciseByDay | src/lib/chartUtils.ts:41-50 | the loop builds a map whose keys are the entry dates in first-seen order without repeats, whose value per day is that day's total minutes, and whose values add up to all the minutes |
| ChartUtils.DayTotalsGet | src/lib/chartUtils.ts:45-48 | a day with an entry maps to the sum of its minutes; a day without one is absent |
| ChartUtils.DayTotalsKeys | src/lib/chartUtils.ts:45-48 | the keys are the distinct entry dates in order of first entry |
| ChartUtils.DayTotalsTotal | src/lib/chartUtils.ts:45-48 | no minutes are lost or counted twice |
| ChartUtils.AggregateExample | src/lib/chartUtils.ts:41-50 | sessions of 30 and 45 minutes on one day and 20 on the next give 75 and 20 |
| ChartUtils.GridStart | src/lib/chartUtils.ts:63-66 | the grid starts on a Sunday, 52 weeks plus the end day's weekday before the end |
| ChartUtils.GenerateYearGrid | src/lib/chartUtils.ts:58-81 | the loop emits 52*7 + weekday(end) + 1 cells; cell `i` is day start+i in column `i / 7` and row `i % 7`, which is its weekday; the first cell is the start Sunday and the last is the end day in column 52 |
| ChartUtils.PositiveValues | src/lib/chartUtils.ts:86 | `filter((v) => v > 0)` keeps exactly the positive values, each as many times as it occurs |
| ChartUtils.PositiveValuesAppend | src/lib/chartUtils.ts:86 | the filter keeps order: the positives of a concatenation are those of each part, one after the other |
| ChartUtils.QuintileIndex | src/lib/chartUtils.ts:90-91 | the threshold position is `floor(k * n / 5)` clamped to the last index |
| ChartUtils.Quintiles | src/lib/chartUtils.ts:89-92 | four thresholds, each the sorted value at its clamped position |
| ChartUtils.QuintileLevel | src/lib/chartUtils.ts:100-104 | the level is the first threshold the total does not exceed, plus one, or 5 when it exceeds all four |
| ChartUtils.Intensity | src/lib/chartUtils.ts:96-105 | a level from 0 to 5, which is 0 exactly when the day has no minutes |
| ChartUtils.SortedPositives | src/lib/chartUtils.ts:86 | the positive values of the map in ascending order, each as many times as it occurs in the map: a permutation of the filtered list |
| ChartUtils.ComputeIntensityLevels | src/lib/chartUtils.ts:83-109 | the loop returns the empty map without a positive total, and otherwise each day's intensity under the map's own quintiles |
| ChartUtils.IntensityLevelsEmpty | src/lib/chartUtils.ts:86-87 | the level map is empty exactly when no day has a positive total |
| ChartUtils.IntensityLevelsGet | src/lib/chartUtils.ts:94-106 | levels exist only for days in the day map; a zero day reads as level 0; a positive day gets its quintile level against the thresholds of the sorted positive totals, a value from 1 to 5 |
| ChartUtils.IntensityLevelsKeys | src/lib/chartUtils.ts:95-106 | with a positive day present, the level map has the same days in the same order |
| ChartUtils.IntensityMonotone | src/lib/chartUtils.ts:100-104 | more minutes never give a lower level |
| ChartUtils.SmallestDayLevelOne | src/lib/chartUtils.ts:89-104 | the smallest positive total always gets level 1 |
| ChartUtils.SteadyDaysLevelOne | src/lib/chartUtils.ts:89-104 | when every active day has the same total, every active day gets level 1 |
| ChartUtils.IntensityExample | src/lib/chartUtils.ts:83-109 | days of 0, 10, ..., 60 minutes get levels 0, 1, 1, 2, 3, 4, 5 |
| ChartUtils.ExampleQuintiles | src/lib/chartUtils.ts:89-92 | the totals 10..60 give thresholds 20, 30, 40, 50 |
| ChartUtils.HeatmapColor | src/lib/chartUtils.ts:111-121 | any intensity outside 0..5 gets the neutral colour |
| ChartUtils.HeatmapColorDistinct | src/lib/chartUtils.ts:112-119 | the six levels get six different colours |
| ChartUtils.BuildHeatmapData | src/lib/chartUtils.ts:123-132 | one cell per grid day, with that day's total and level, or 0 when either map lacks the day |
| ChartUtils.HeatmapPipeline | src/lib/chartUtils.ts:41-132 | over sessions of positive length, the cell of a day shows the minutes logged that day, and a level from 0 to 5 that is 0 exactly when nothing was logged |
| ChartUtils.HeatmapExample | src/lib/chartUtils.ts:123-132 | a two-day grid picks up the totals and levels the two maps hold for its days |
| CheckinUtils.MoodEmojiOf | src/lib/checkinUtils.ts:11-12 | a value outside 1..5 gets the neutral face, as does 3 |
| CheckinUtils.MoodLabelOf | src/lib/checkinUtils.ts:14-15 | "Unknown" exactly for values outside 1..5 |
| CheckinUtils.MoodLabelInjective | src/lib/constants.ts:15-21 | distinct moods have distinct labels |
| CheckinUtils.MoodLookupExample | src/lib/checkinUtils.ts:11-15 | 5 is the beaming face, 1 is "Very Low", 0 is the neutral face and 6 is "Unknown" |
| CheckinUtils.MoodEmojiInjective | src/lib/checkinUtils.ts:11-12 | the five moods have five different emoji |
| CheckinUtils.MoodColor | src/lib/checkinUtils.ts:143-154 | no mood gets the neutral colour; a mood gets an `hsl(` fill |
| CheckinUtils.MoodColorDistinct | src/lib/checkinUtils.ts:143-154 | the five moods get five different fills, none of them the neutral colour of a day without a mood |
| CheckinUtils.FilterByDays | src/lib/checkinUtils.ts:23-30 | keeps exactly the entries dated on or after `days` days before today |
| CheckinUtils.FilterByDaysNested | src/lib/checkinUtils.ts:23-30 | a shorter window keeps a sub-list of a longer one |
| CheckinUtils.FilterByDaysExample | src/lib/checkinUtils.ts:23-30 | a 2-day window over entries 0, 1, 2 and 4 days old keeps the first three |
| CheckinUtils.RunBack | src/lib/checkinUtils.ts:44-50 | the run of present days ending at a day is never longer than the number of dates |
| CheckinUtils.RunBackSpec | src/lib/checkinUtils.ts:44-50 | every day of the run has an entry and the day before the run has none |
| CheckinUtils.RunBackMaximal | src/lib/checkinUtils.ts:44-50 | any run of present days ending at the day is at most that long |
| CheckinUtils.ComputeStreakDays | src/lib/checkinUtils.ts:32-53 | the loop returns the streak function's value |
| CheckinUtils.StreakDaysSpec | src/lib/checkinUtils.ts:32-53 | the streak covers consecutive days up to today that all have entries, the day before it has none, and it is at most the number of distinct dates |
| CheckinUtils.StreakNeedsToday | src/lib/checkinUtils.ts:48 | no entry today means a streak of 0, whatever came before |
| CheckinUtils.StreakExample | src/lib/checkinUtils.ts:32-53 | entries today, on the two days before and four days ago give a streak of 3 |
| CheckinUtils.ComputeAverageMood | src/lib/checkinUtils.ts:55-61 | null exactly for no entries; otherwise the mean mood rounded half up to a tenth, which is within half a tenth of the mean and on the 1 to 5 scale |
| CheckinUtils.AverageMoodExample | src/lib/checkinUtils.ts:55-61 | moods 4, 3, 5 and 2 average 3.5; no entries give null |
| CheckinUtils.CountMood | src/lib/checkinUtils.ts:88 | a count never exceeds the number of entries |
| CheckinUtils.MoodDistribution | src/lib/checkinUtils.ts:82-89 | five buckets in mood order, keyed by the value, each counting the entries with that mood |
| CheckinUtils.QualityDistribution | src/lib/checkinUtils.ts:91-102 | three buckets (bad, ok, good) with their labels, each counting the entries with that rating for the metric |
| CheckinUtils.BuildMetricDistribution | src/lib/checkinUtils.ts:104-110 | the mood buckets for the mood metric and the rating buckets otherwise |
| CheckinUtils.MoodCountsPartition | src/lib/checkinUtils.ts:85-88 | the five mood counts add up to the number of entries |
| CheckinUtils.QualityCountsPartition | src/lib/checkinUtils.ts:97-100 | the three rating counts add up to the number of entries |
| CheckinUtils.MoodDistributionTotal | src/lib/checkinUtils.ts:104-110 | the mood buckets count every entry exactly once |
| CheckinUtils.QualityDistributionTotal | src/lib/checkinUtils.ts:104-110 | the rating buckets count every entry exactly once |
| CheckinUtils.DistributionExample | src/lib/checkinUtils.ts:104-110 | moods 4, 3, 5 and 2 give mood counts 0, 1, 1, 1, 1, and the sleep ratings give bad 1, ok 1, good 2 |
| CheckinUtils.LastEntryOn | src/lib/checkinUtils.ts:117 | the `Map` built from the entries holds, for a date, the last entry with that date, and nothing for a date with no entry |
| CheckinUtils.FirstCheckinDate | src/lib/checkinUtils.ts:118-122 | null exactly for no entries; otherwise an entry date that no entry date precedes |
| CheckinUtils.BuildRecentCheckinDays | src/lib/checkinUtils.ts:112-141 | one item per day, counting back from today; none for a negative count |
| CheckinUtils.StripDaySpec | src/lib/checkinUtils.ts:126-140 | an item is logged exactly when an entry has its date, and then shows the last such entry's mood; it is before the start exactly when it is unlogged and precedes every entry; otherwise it is missed |
| CheckinUtils.EmptyStripMissed | src/lib/checkinUtils.ts:131-138 | with no entries every day is missed, none before the start |
| CheckinUtils.StripExample | src/lib/checkinUtils.ts:112-141 | the last four days of the sample are logged, logged, logged and missed, and five days ago (before the first entry) is pre-start |
| CheckinUtils.FirstEntryOn | src/lib/checkinUtils.ts:68 | `find` returns the first entry with today's date, or null when there is none |
| CheckinUtils.CountActive | src/lib/checkinUtils.ts:77 | the active-day count never exceeds the strip's length |
| CheckinUtils.StripActive | src/lib/checkinUtils.ts:77 | a strip day counts as active exactly when there are no entries or it is on or after the first entry date |
| CheckinUtils.ActiveDaysCount | src/lib/checkinUtils.ts:69-77 | the active days are the strip days from the first entry date to today, clamped to the strip; all of them with no entries |
| CheckinUtils.ComputeCheckinSummary | src/lib/checkinUtils.ts:63-80 | today's entry is present exactly when an entry has today's date; the 30-day count is at most the total; the active days are at most 30; the average is the rounded mean mood of the 30-day window, null exactly when that window is empty, and on the 1 to 5 scale |
| CheckinUtils.CheckinSummarySpec | src/lib/checkinUtils.ts:63-80 | each field by its meaning: the streak; `logged30d` counting the inclusive 30-days-ago window (31 calendar days); the active days counted from the first entry date |
| CheckinUtils.SummaryExample | src/lib/checkinUtils.ts:63-80 | the sample gives 4 entries, a streak of 3, 4 logged, 5 active days and an average of 3.5 |
| Formatters.FormatDuration | src/lib/formatters.ts:12-17 | never empty; under an hour it ends in "m" |
| Formatters.FormatDurationHours | src/lib/formatters.ts:13-16 | from an hour on, the text is "`h`h" or "`h`h `r`m" with `h` the whole hours and `r` the remainder |
| Formatters.ParseDuration | src/lib/formatters.ts:12-17 | a reader for duration texts, which yields only non-negative minutes |
| Formatters.FormatDurationRoundTrip | src/lib/formatters.ts:12-17 | reading back what was printed gives the minutes again |
| Formatters.FormatDurationInjective | src/lib/formatters.ts:12-17 | different durations print differently |
| Formatters.FormatDurationExamples | src/lib/formatters.ts:12-17 | 45 is "45m", 60 is "1h", 75 is "1h 15m" and 125 is "2h 5m" |
| Formatters.FormatWeight | src/lib/formatters.ts:10 | the text ends in " kg" |
| Formatters.FormatDelta | src/lib/formatters.ts:19-22 | a plus sign exactly for positive values, a minus exactly for negative ones |
| Formatters.FormatDeltaValue | src/lib/formatters.ts:19-22 | the number shown reads back as the value rounded to a tenth, half away from zero |
| Formatters.FormatExamples | src/lib/formatters.ts:10-22 | 74.26 kg is "74.3 kg", +1.234 is "+1.2 kg" and -0.75 is "-0.8 kg" |
| Formatters.FormatTrend | src/lib/formatters.ts:24-31 | one arrow character per direction |
| Formatters.FormatTrendInjective | src/lib/formatters.ts:25-29 | each direction has its own arrow |
| ExerciseStats.Window | src/app/api/exercise/stats/route.ts:37-43 | a window holds exactly the sessions on or after `days` days ago |
| ExerciseStats.DurationAppend | src/app/api/exercise/stats/route.ts:78-80 | the minutes of two runs of sessions add up |
| ExerciseStats.WindowsNested | src/app/api/exercise/stats/route.ts:37-80 | the 7-, 30- and 90-day windows are nested in sessions and in minutes, and within all the sessions |
| ExerciseStats.TypeCount | src/app/api/exercise/stats/route.ts:46-49 | a per-type count is at most the number of sessions, and 0 exactly when the type does not occur |
| ExerciseStats.BreakdownCounts | src/app/api/exercise/stats/route.ts:45-49 | the record has a key exactly for the types that occur, and each value is that type's count |
| ExerciseStats.BreakdownTotal | src/app/api/exercise/stats/route.ts:45-49 | the record's values add up to the number of sessions |
| ExerciseStats.ComputeTypeBreakdown | src/app/api/exercise/stats/route.ts:45-49 | the loop builds exactly that record |
| ExerciseStats.EffortSum | src/app/api/exercise/stats/route.ts:51-55 | the score sum lies between once and three times the session count |
| ExerciseStats.AverageEffort | src/app/api/exercise/stats/route.ts:56-58 | an average exists exactly when there are sessions |
| ExerciseStats.AverageEffortThresholds | src/app/api/exercise/stats/route.ts:56-58 | in integer terms: low when twice the sum is below 3n, medium below 5n, high otherwise |
| ExerciseStats.AverageEffortUniform | src/app/api/exercise/stats/route.ts:51-58 | sessions of one effort level average to that level |
| ExerciseStats.StreakFrom | src/app/api/exercise/stats/route.ts:63-72 | the counted run never passes the end of the date list |
| ExerciseStats.ComputeCurrentStreak | src/app/api/exercise/stats/route.ts:60-72 | the loop returns the streak over the distinct dates, newest first |
| ExerciseStats.CurrentStreakSpec | src/app/api/exercise/stats/route.ts:60-72 | the streak is the longest prefix of the newest-first distinct dates that matches today, yesterday, and so on |
| ExerciseStats.FutureSessionBreaksStreak | src/app/api/exercise/stats/route.ts:60-72 | one session dated after today makes the streak 0 |
| ExerciseStats.StreakWithoutFuture | src/app/api/exercise/stats/route.ts:60-72 | with no future session, the streak covers consecutive days up to today that all have sessions, and the day before it has none |
| ExerciseStats.ComputeStats | src/app/api/exercise/stats/route.ts:21-85 | no sessions give the all-zero card; otherwise each count, minute total, streak and effort is the corresponding function of the sessions, the counts are nested, and the type breakdown is the breakdown of the sessions, holding exactly the types that occur with their counts |
| ExerciseStats.ExampleWindow | src/app/api/exercise/stats/route.ts:41-80 | the 7-day window of the sample holds its first two sessions, 90 minutes |
| ExerciseStats.ExampleBreakdown | src/app/api/exercise/stats/route.ts:45-49 | the sample breaks down as two football sessions and one other |
| ExerciseStats.ExampleEffort | src/app/api/exercise/stats/route.ts:51-58 | the sample's average effort is medium |
| WeightStats.ComputeChange | src/app/api/weight/stats/route.ts:14-25 | null exactly when no entry is on or before the cutoff; otherwise the first weight minus the weight of an entry on or before the cutoff |
| WeightStats.UpToHead | src/app/api/weight/stats/route.ts:21-22 | the first filtered entry is the first entry of the list on or before the cutoff |
| WeightStats.ChangeAgainstNewestPast | src/app/api/weight/stats/route.ts:14-25 | on newest-first entries, the change is against the newest entry on or before the cutoff |
| WeightStats.FirstUpToIsNewest | src/app/api/weight/stats/route.ts:40-43 | on newest-first entries, the first one on or before the cutoff is the newest such |
| WeightStats.ComputeAvg | src/app/api/weight/stats/route.ts:27-36 | null exactly when no entry is on or after the cutoff; otherwise the mean of those entries rounded half up to a tenth, within half a tenth of that mean |
| WeightStats.ComputeAvgBounds | src/app/api/weight/stats/route.ts:27-36 | an average lies within the weights it averages, up to rounding |
| WeightStats.MaxWeight | src/app/api/weight/stats/route.ts:63 | a weight of the list that no weight exceeds |
| WeightStats.MinWeight | src/app/api/weight/stats/route.ts:64 | a weight of the list that no weight undercuts |
| WeightStats.ComputeTrend | src/app/api/weight/stats/route.ts:66-74 | up exactly when the difference over the recent entries exceeds 0.5, down exactly when it is below -0.5, stable otherwise or with fewer than two entries |
| WeightStats.TrendDiffEnds | src/app/api/weight/stats/route.ts:66-71 | the difference is the newest weight minus the seventh newest, or minus the oldest when there are fewer |
| WeightStats.ComputeStats | src/app/api/weight/stats/route.ts:45-87 | no entries give the empty card; otherwise the current weight is the newest, the high and low are the largest and smallest weights and bound every weight, and the changes, averages and trend are their functions of the entries |
| WeightStats.EmptyFigures | src/app/api/weight/stats/route.ts:14-36 | with no entries there is no change and no average |
| WeightStats.ChangeExample | src/app/api/weight/stats/route.ts:14-25 | the sample gives a 7-day change of -1.5 and no 30-day change |
| WeightStats.AvgExample | src/app/api/weight/stats/route.ts:27-36 | the sample's 7-day average is 74.3 |
| Text.NatToStringValue | src/lib/checkinUtils.ts:86 | reading back a printed numeral gives the number |
| Text.Trim | scripts/checkin.ts:186 | the result neither starts nor ends with white space |
| Text.Utf16Length | src/schemas/exercise.ts:9 | the JavaScript `length` of a string: between its number of characters and twice that |
| Text.Utf16LengthAppend | src/schemas/exercise.ts:9 | the length of a concatenation is the sum of the lengths |
| Text.Utf16LengthBasic | src/schemas/exercise.ts:9 | the length equals the number of characters exactly when no character is above U+FFFF |
| Text.TrimEmpty | scripts/checkin.ts:186 | a string trims to nothing exactly when it is all white space |
| Text.ToLower | scripts/checkin.ts:186 | same length; ASCII capitals become lower case and everything else is kept |
| Text.ParseInt | scripts/checkin.ts:155 | `parseInt(s, 10)` fails exactly when no digit follows the white space and an optional sign |
| Text.ParseFloat | scripts/checkin.ts:163 | `parseFloat` fails exactly when no decimal literal starts the string after white space |
| Text.ToNumber | src/schemas/exercise.ts:32-33 | `Number(s)` is 0 for blank text and otherwise the one literal the trimmed text holds |
| Text.ToFixed1 | src/lib/formatters.ts:10 | at least three characters, starting with a minus exactly for negative values |
| NumberReading.ParseIntOfIntToString | scripts/checkin.ts:155 | `parseInt` reads back every integer `String` prints |
| NumberReading.ParseIntOfPrinted | scripts/checkin.ts:155 | `parseInt` stops after the printed digits, whatever follows |
| NumberReading.ToNumberOfPrinted | src/schemas/exercise.ts:32-33 | `Number` reads a printed natural number back exactly |
| FixedReading.ToNumberOfFixed | src/lib/chartUtils.ts:15 | `Number(x.toFixed(1))` is `x` rounded half up to a tenth, signed as `x` |
| FixedReading.FixedReadsAsFixed1 | src/lib/chartUtils.ts:15 | reading back the `toFixed(1)` text of any number, negative ones included, gives `Fixed1` of it |
| FixedReading.FixedRoundsAsRound1 | src/lib/chartUtils.ts:15 | `Number(x.toFixed(1))` and `Math.round(x * 10) / 10` agree for non-negative `x` |
| Sorting.SortAscending | src/lib/chartUtils.ts:86 | `sort((a, b) => a - b)` gives an ascending permutation |
| Sorting.AscendingUnique | src/lib/chartUtils.ts:86 | there is only one ascending arrangement of a multiset, so any sort gives the same thresholds |
| Sorting.Distinct | src/lib/chartUtils.ts:44-48 | no repeats, the same elements |
| Sorting.DistinctFirstSeen | src/lib/chartUtils.ts:44-48 | the distinct values come in order of first occurrence: a value first seen earlier comes earlier |
| Sorting.DistinctDescending | src/app/api/exercise/stats/route.ts:60 | `[...new Set(dates)].sort().reverse()` is strictly descending with the same elements |
| CheckinCli.ValueFlagOf | scripts/checkin.ts:98-145 | a token names the value flag with that spelling, and no flag for any other token |
| CheckinCli.GetRequiredValue | scripts/checkin.ts:68-74 | succeeds exactly when a next token exists, is non-empty and does not start with "-", and then returns it; otherwise the missing-value error |
| CheckinCli.ParseArgs | scripts/checkin.ts:76-152 | the loop returns what the token recursion returns, from no flags |
| CheckinCli.ParseTokensAppend | scripts/checkin.ts:84-149 | once a run of tokens parses, the tokens after it are parsed from the flags it left |
| CheckinCli.LaterValueWins | scripts/checkin.ts:106-145 | a value flag given again overwrites the earlier value, and the other flags keep theirs |
| CheckinCli.ParseTokensOutcome | scripts/checkin.ts:84-149 | every stored value is one the parser accepts after a flag, and a failure names a token where the parse stopped |
| CheckinCli.ParseArgsExamples | scripts/checkin.ts:76-152 | "--mood 4 -i" parses; "--mood -1" misses the value; "today" is an unknown flag |
| CheckinCli.ParseMood | scripts/checkin.ts:154-160 | succeeds exactly when `parseInt` reads an integer from 1 to 5, and returns it; otherwise the range error naming the field |
| CheckinCli.ParseCoffeeCups | scripts/checkin.ts:170-176 | the same for 0 to 20 cups |
| CheckinCli.ParseMoodOfPrinted | scripts/checkin.ts:154-160 | a printed integer is accepted as a mood exactly when it is from 1 to 5 |
| CheckinCli.ParseCoffeeCupsOfPrinted | scripts/checkin.ts:170-176 | a printed integer is accepted as cups exactly when it is from 0 to 20 |
| CheckinCli.ParseMoodTruncates | scripts/checkin.ts:155 | "4.5" is read as mood 4, because `parseInt` stops at the point |
| CheckinCli.ParseMoodRejectsWords | scripts/checkin.ts:155-158 | text without digits is refused with the field's name |
| CheckinCli.ParseSleepHours | scripts/checkin.ts:162-168 | succeeds exactly when `parseFloat` reads a number from 0 to 24, and returns it |
| CheckinCli.ParseQuality | scripts/checkin.ts:178-183 | succeeds exactly on "bad", "ok" and "good", returning that rating |
| CheckinCli.YesNoDisjoint | scripts/checkin.ts:187-188 | no word counts as both yes and no |
| CheckinCli.ParseYesNo | scripts/checkin.ts:185-190 | true exactly for a yes word and false exactly for a no word, after trimming and lower-casing; any other text is an error naming the field |
| CheckinCli.YesNoExamples | scripts/checkin.ts:185-190 | " YES " is yes and "N" is no |
| CheckinCli.ParseDate | scripts/checkin.ts:192-197 | accepts exactly the texts of the date pattern, unchanged |
| CheckinCli.ParseTime | scripts/checkin.ts:199-204 | accepts exactly the texts of the time pattern, unchanged |
| CheckinCli.TimePatternMeaning | scripts/checkin.ts:41 | a zero-padded "HH:MM" is accepted exactly when it is a time of day |
| CheckinCli.DatePatternAcceptsPadded | scripts/checkin.ts:40 | the date pattern accepts any zero-padded numbers, with no calendar check |
| CheckinCli.DateExamples | scripts/checkin.ts:40-41 | "2026-02-30" passes and "2026-2-3" does not; "23:59" passes and "24:00" does not |
| CheckinCli.RequireFlag | scripts/checkin.ts:220-225 | succeeds exactly when the flag was given, returning its value; otherwise the missing-flag message |
| CheckinCli.PayloadDate | scripts/checkin.ts:228 | a given date must match the pattern and is used; otherwise today |
| CheckinCli.ParseFields | scripts/checkin.ts:228-242 | the fields parse exactly when every flag is valid, each by its own parser |
| CheckinCli.LastCoffeeAt | scripts/checkin.ts:244-252 | a time is required exactly when cups are above 0, must match the time pattern, and each wrong case gives its own message |
| CheckinCli.BuildPayloadFromFlags | scripts/checkin.ts:227-266 | a built payload has a coffee time exactly when it has cups, cups from 0 to 20, sleep from 0 to 24, and the flag's date or today |
| CheckinCli.BuildPayloadSucceeds | scripts/checkin.ts:227-266 | the flags build a payload exactly when every field is valid and the coffee rule holds |
| CheckinCli.BuildPayloadCoffeeErrors | scripts/checkin.ts:244-250 | with valid fields, a wrong number of coffee times is reported with the matching message |
| CheckinCli.BuildPayloadFields | scripts/checkin.ts:254-265 | a built payload carries the date (the flag's or today), and the mood, stress, sleep hours, coffee cups, late meal, the three ratings and the last coffee time its flags name, each as its parser reads it |
| CheckinCli.BuildPayloadMissingMood | scripts/checkin.ts:229 | a missing mood is reported by name once the date is fine |
| CheckinCli.BuildPayloadBadDate | scripts/checkin.ts:228 | a malformed date is the first error reported |
| CheckinCli.ChooseMode | scripts/checkin.ts:379-393 | help wins; prompting when asked for or when no data flag was given; flags otherwise |
| CheckinCli.ModeExamples | scripts/checkin.ts:387-390 | no arguments, or only a base URL, means prompting |
| SchemaRules.DaysInMonth | src/schemas/checkin.ts:9 | every month has 28 to 31 days |
| SchemaRules.Required | src/schemas/exercise.ts:6-11 | a required member must be present and accepted |
| SchemaRules.Optional | src/schemas/checkin.ts:9 | `.optional()`: absent is fine, `null` is refused, a value must be accepted |
| SchemaRules.ReadIsoDate | src/schemas/weight.ts:4 | `z.iso.date()` accepts exactly strings naming a calendar day |
| SchemaRules.ReadInteger | src/schemas/checkin.ts:5 | `z.int()` accepts exactly the safe integers: whole numbers of size at most 2^53 - 1 |
| SchemaRules.CoercePositive | src/schemas/weight.ts:14-15 | a missing parameter takes the default; an accepted one is `Number` of the text, a safe integer from 1, and within the cap |
| SchemaRules.ParsePageQuery | src/schemas/weight.ts:13-16 | every accepted query is valid (a page from 1 to 2^53 - 1, a size from 1 to 100), and no parameters give page 1 of 10 |
| SchemaRules.PageQueryRoundTrip | src/schemas/exercise.ts:31-34 | a valid query, page at most 2^53 - 1, written out in decimal reads back as itself |
| SchemaRules.PageQueryBounds | src/schemas/exercise.ts:32-33 | a page size is accepted exactly from 1 to 100, and a page exactly from 1 to 2^53 - 1 |
| SchemaRules.UnsafePageRefused | src/schemas/weight.ts:14 | page 2^53 is refused |
| SchemaRules.PageQueryExamples | src/schemas/exercise.ts:31-34 | no parameters give (1, 10); "2" and "25" give (2, 25) |
| SchemaRules.IsoDateMeaning | src/schemas/checkin.ts:9 | a zero-padded date is accepted exactly when its month is 1 to 12 and its day exists in that month |
| SchemaRules.IsoDateExamples | src/schemas/weight.ts:4 | 2024-02-29 and 2000-02-29 pass; 2023-02-29, 1900-02-29, 2026-04-31, 2026-02-30 and 2026-13-01 do not |
| ExerciseSchema.ReadExerciseType | src/schemas/exercise.ts:8 | accepts exactly the three type names |
| ExerciseSchema.ReadEffort | src/schemas/exercise.ts:11 | accepts exactly the three effort names |
| ExerciseSchema.ReadDuration | src/schemas/exercise.ts:10 | accepts exactly whole numbers above 0 and at most 1440 |
| ExerciseSchema.ReadLabel | src/schemas/exercise.ts:9 | a missing or `null` label is kept as such; a present one must be a string of at most 100 UTF-16 code units, its JavaScript `length` |
| ExerciseSchema.LabelLengthInCodeUnits | src/schemas/exercise.ts:9 | 51 characters from above U+FFFF make 102 code units and are refused; 100 ASCII letters pass |
| ExerciseSchema.LabelRuleMeaning | src/schemas/exercise.ts:13-20 | an "other" session needs a label with at least one character that is not white space; other types need none |
| ExerciseSchema.ParseCreate | src/schemas/exercise.ts:5-21 | accepts exactly the bodies whose members are all accepted and that satisfy the label rule, and then returns a valid session |
| ExerciseSchema.ParseUpdate | src/schemas/exercise.ts:23-29 | accepts exactly the bodies whose given members are all accepted |
| ExerciseSchema.CreateRoundTrip | src/schemas/exercise.ts:5-21 | every valid session written out as JSON is read back as itself |
| ExerciseSchema.CreateIgnoresOtherMembers | src/schemas/exercise.ts:5-12 | members outside the schema make no difference |
| ExerciseSchema.AsUpdate | src/schemas/exercise.ts:23-29 | a valid session is a valid edit |
| ExerciseSchema.CreateBodyIsUpdate | src/schemas/exercise.ts:5-29 | every body the create validator accepts, the edit validator accepts as the same values |
| ExerciseSchema.OtherWithLabel | src/schemas/exercise.ts:5-21 | an "other" session with a label passes |
| ExerciseSchema.OtherWithEmptyLabel | src/schemas/exercise.ts:13-20 | the same session with an empty label does not |
| ExerciseSchema.FootballWithoutLabel | src/schemas/exercise.ts:5-21 | a football session needs no label |
| ExerciseSchema.PartialUpdate | src/schemas/exercise.ts:23-29 | a partial edit keeps only the members it names |
| WeightSchema.ReadWeight | src/schemas/weight.ts:5 | accepts exactly numbers above 0 and at most 500 |
| WeightSchema.ParseCreate | src/schemas/weight.ts:3-6 | accepts exactly a calendar date with a valid weight |
| WeightSchema.ParseUpdate | src/schemas/weight.ts:8-11 | accepts exactly bodies whose given members are valid |
| WeightSchema.CreateRoundTrip | src/schemas/weight.ts:3-6 | every valid entry written out is read back as itself |
| WeightSchema.UpdateRoundTrip | src/schemas/weight.ts:8-11 | every valid edit written out is read back as itself |
| WeightSchema.CreateRefusesWeight | src/schemas/weight.ts:5 | a zero, negative or over-500 weight is refused, whatever else the body holds |
| WeightSchema.CreateIgnoresOtherMembers | src/schemas/weight.ts:3-11 | members outside the schema make no difference to either validator |
| WeightSchema.CreateBodyIsUpdate | src/schemas/weight.ts:3-11 | an entry body is an edit of both members |
| WeightSchema.Examples | src/schemas/weight.ts:3-11 | 74.5 kg passes, 0 kg does not, and a weight-only edit keeps only the weight |
| CheckinSchema.ReadMood | src/schemas/checkin.ts:5 | accepts exactly whole numbers from 1 to 5 |
| CheckinSchema.ReadQuality | src/schemas/checkin.ts:6 | accepts exactly the three rating names |
| CheckinSchema.QualityRoundTrip | src/schemas/checkin.ts:6 | a rating's name reads back as the rating |
| CheckinSchema.ParseUpsert | src/schemas/checkin.ts:8-14 | accepts exactly a body with an optional calendar date, a valid mood and three valid ratings, and returns a valid check-in |
| CheckinSchema.UpsertRoundTrip | src/schemas/checkin.ts:8-14 | every valid check-in written out is read back as itself |
| CheckinSchema.UpsertIgnoresOtherMembers | src/schemas/checkin.ts:8-14 | members outside the five make no difference |
| CheckinSchema.UpsertAgree | src/schemas/checkin.ts:8-14 | two bodies that agree on the five members are read alike |
| CheckinSchema.UpsertDate | src/app/api/checkin/route.ts:27 | the stored date is the body's date, or today when the body has none |
| CheckinSchema.UpsertDateIso | src/app/api/checkin/route.ts:27 | when today is a calendar date, every accepted body is stored under a calendar date |
| CheckinSchema.UpsertIgnoresUndeclared | src/schemas/checkin.ts:8-14 | a valid check-in is read the same whatever stress level, sleep hours, coffee cups and late meal come with it, including out-of-range ones |
| CheckinSchema.UndeclaredExample | src/schemas/checkin.ts:8-14 | a stress level of 6, 30 sleep hours and -1 cups pass, and are dropped |
| CheckinSchema.PayloadAccepted | scripts/checkin.ts:352-368 | a client payload on a calendar date is accepted, and the route receives only its date, mood and three ratings |
| CheckinSchema.ClientPayloadAccepted | scripts/checkin.ts:227-266 | every payload the client builds from flags on a calendar date passes the route's validator |
| CheckinSchema.ClientDateCheckIsLooser | scripts/checkin.ts:40 | every date the server accepts matches the client's pattern, but the client lets "2026-02-30" through and the server refuses it |

## Left out

- Rendering, React components and hooks, the database and its queries, HTTP and `NextResponse`: the model starts from the entries a query returned, in the order it returned them.
- The list routes and the check-in upsert's database write. Only the pagination query they validate is modelled; the offset computation and the write are left out.
- Interactive prompting (`buildPayloadInteractively`, `askUntilValid`, `promptWithDefault`): it needs a terminal. The parsers it calls are modelled.
- The base URL, the write token, `fetch`, the environment variables, console output and the process exit code of the command-line client. `ChooseMode` models which branch `main` takes.
- Clocks and time zones: `new Date()` is the `today` parameter. Every date is a UTC calendar day, so the local/UTC mix of `setHours` and `toISOString` that can shift a day near midnight is not modelled.
- Floating point: weights, BMI and averages are exact reals. BMI divides by the height twice, which in exact arithmetic equals dividing by its square as `computeBmi` does. `toFixed(1)` and `Math.round(x * 10) / 10` round exact reals to a tenth as described under Conventions, without binary representation error. Minutes and counts are unbounded integers.
- `formatDate`: its output depends on the locale data of `toLocaleDateString`.
- `todayDateString`: it only reads the clock, which is a parameter here.
- `Number`, `parseInt` and `parseFloat` read decimal notation only; hexadecimal, exponent, `Infinity` and `NaN` spellings are not modelled.
- `Text.ToLower`: lower-cases ASCII letters only, not full Unicode case mapping.
- The emoji strings are ordinary `string` values.
- The check-in validator (`src/schemas/checkin.ts`) does not declare stress level, sleep hours, coffee cups, the last coffee time or the late-meal flag, so it neither checks them nor passes them on. The model states that behaviour (`CheckinSchema.UpsertIgnoresUndeclared`). Two other files expect otherwise: `tests/unit/schemas.test.ts:107-120` expects a body with stress level 6, 30 sleep hours and -1 cups to be refused, and `src/app/api/checkin/route.ts:34-37` reads those members from the parsed result. The model does not describe a validator that checks those members.
- `DayMaps.DayMap`: a JavaScript `Map` is modelled as a list of keys in insertion order plus a table, not as a heap object. The maps in the chart helpers are built and then only read, so no aliasing is lost.
- The type breakdown record is a `map` from the three exercise types, because the database only stores those three.

Behaviour of the code worth knowing, as the model states it:

- **Heatmap levels.** The thresholds are read at positions `floor(0.2n)`, `floor(0.4n)`, `floor(0.6n)` and `floor(0.8n)` of the sorted positive totals (`src/lib/chartUtils.ts:89-92`). For days of 0, 10, ..., 60 minutes these pick 20, 30, 40 and 50, so the days get levels 0, 1, 1, 2, 3, 4, 5 (`ChartUtils.IntensityExample`). The unit test `tests/unit/chartUtils.test.ts:88-103` checks only the levels of the 0, 10 and 60 minute days: 0, 1 and 5.
- **`logged30d`.** It counts entries on or after the date 30 days ago (`src/lib/checkinUtils.ts:28-29` and `:70`), which is 31 calendar days (`CheckinUtils.CheckinSummarySpec`).
- **Exercise streak.** It walks the distinct dates newest first and compares the i-th with today minus i days (`src/app/api/exercise/stats/route.ts:60-67`). A session dated in the future therefore makes the streak 0 (`ExerciseStats.FutureSessionBreaksStreak`).
