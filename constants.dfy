/** The fixed vocabularies of the dashboard: exercise types, effort levels,
    check-in quality values and the mood scale. */
module Constants {
  import opened Wrappers

  datatype ExerciseType = Football | StrengthTraining | Other {
    /** The identifier the API and the database use. */
    function Name(): string {
      match this
      case Football => "football"
      case StrengthTraining => "strength_training"
      case Other => "other"
    }
  }

  /** Reads an exercise type from its identifier (`z.enum(EXERCISE_TYPES)`). */
  function ExerciseTypeFromName(s: string): (r: Option<ExerciseType>)
    ensures r.Some? ==> r.value.Name() == s
    ensures r.None? ==> forall t: ExerciseType :: t.Name() != s
  {
    if s == "football" then Some(Football)
    else if s == "strength_training" then Some(StrengthTraining)
    else if s == "other" then Some(Other)
    else None
  }

  datatype Effort = Low | Medium | High {
    function Name(): string {
      match this
      case Low => "low"
      case Medium => "medium"
      case High => "high"
    }

    /** The score the exercise statistics average: low 1, medium 2, high 3. */
    function Score(): (n: int)
      ensures 1 <= n <= 3
    {
      match this
      case Low => 1
      case Medium => 2
      case High => 3
    }
  }

  function EffortFromName(s: string): (r: Option<Effort>)
    ensures r.Some? ==> r.value.Name() == s
    ensures r.None? ==> forall e: Effort :: e.Name() != s
  {
    if s == "low" then Some(Low)
    else if s == "medium" then Some(Medium)
    else if s == "high" then Some(High)
    else None
  }

  datatype Quality = Bad | Ok | Good {
    function Name(): string {
      match this
      case Bad => "bad"
      case Ok => "ok"
      case Good => "good"
    }

    /** `CHECKIN_QUALITY_LABELS`. */
    function Label(): string {
      match this
      case Bad => "Bad"
      case Ok => "OK"
      case Good => "Good"
    }
  }

  function QualityFromName(s: string): (r: Option<Quality>)
    ensures r.Some? ==> r.value.Name() == s
    ensures r.None? ==> forall q: Quality :: q.Name() != s
  {
    if s == "bad" then Some(Bad)
    else if s == "ok" then Some(Ok)
    else if s == "good" then Some(Good)
    else None
  }

  /** The three quality values in their fixed display order. */
  const QualityOrder: seq<Quality> := [Bad, Ok, Good]

  /** A mood (and a stress level): an integer from 1 to 5. */
  type Mood = m: int | 1 <= m <= 5 witness 3

  /** The values of `MOOD_OPTIONS` in their fixed order. */
  const MoodOrder: seq<Mood> := [1, 2, 3, 4, 5]

  function MoodEmoji(m: Mood): string {
    if m == 1 then "😞"
    else if m == 2 then "😕"
    else if m == 3 then "😐"
    else if m == 4 then "🙂"
    else "😄"
  }

  function MoodLabel(m: Mood): string {
    if m == 1 then "Very Low"
    else if m == 2 then "Low"
    else if m == 3 then "Neutral"
    else if m == 4 then "Good"
    else "Great"
  }

  /** The direction of the weight trend. */
  datatype Trend = Up | Down | Stable {
    function Name(): string {
      match this
      case Up => "up"
      case Down => "down"
      case Stable => "stable"
    }
  }

  /** The height the BMI card divides by. */
  const HeightCm: real := 175.0
}
