/** The request validators of the exercise routes: the body of a new
    session, the body of an edit, each read from a parsed JSON object. */
module ExerciseSchema {
  import opened Wrappers
  import opened Text
  import opened Constants
  import opened Json
  import opened SchemaRules

  const MaxLabelLength: int := 100
  const MaxDurationMinutes: int := 1440

  /** A session body the create validator accepted. */
  datatype CreateExercise = CreateExercise(
    date: string,
    exerciseType: ExerciseType,
    customLabel: Field<string>,
    durationMinutes: int,
    effortLevel: Effort)

  /** An edit body: every member may be left out. */
  datatype UpdateExercise = UpdateExercise(
    date: Option<string>,
    exerciseType: Option<ExerciseType>,
    customLabel: Field<string>,
    durationMinutes: Option<int>,
    effortLevel: Option<Effort>)

  // ---------------------------------------------------------------------
  // Member rules

  function ReadExerciseType(j: Json): (r: Option<ExerciseType>)
    ensures r.Some? <==> j.JString? && exists t: ExerciseType :: t.Name() == j.s
    ensures r.Some? ==> r.value.Name() == j.s
  {
    if j.JString? then ExerciseTypeFromName(j.s) else None
  }

  function ReadEffort(j: Json): (r: Option<Effort>)
    ensures r.Some? <==> j.JString? && exists e: Effort :: e.Name() == j.s
    ensures r.Some? ==> r.value.Name() == j.s
  {
    if j.JString? then EffortFromName(j.s) else None
  }

  /** `z.number().int().positive().max(1440)`. */
  function ReadDuration(j: Json): (r: Option<int>)
    ensures r.Some? <==> j.JNumber? && IsWhole(j.n) && 0.0 < j.n <= MaxDurationMinutes as real
    ensures r.Some? ==> r.value as real == j.n
  {
    var n := ReadInteger(j);
    if n.Some? && 0 < n.value <= MaxDurationMinutes then n else None
  }

  /** `z.string().max(100).nullable().optional()`: missing, `null`, or a
      string of at most 100 UTF-16 code units (its JavaScript `length`). */
  function ReadLabel(f: Field<Json>): (r: Option<Field<string>>)
    ensures r.Some? <==> !f.Present? || (f.value.JString? && Utf16Length(f.value.s) <= MaxLabelLength)
    ensures r == Some(Absent) <==> f.Absent?
    ensures r == Some(Null) <==> f.Null?
    ensures r.Some? && r.value.Present? ==> f.Present? && r.value.value == f.value.s
  {
    match f
    case Absent => Some(Absent)
    case Null => Some(Null)
    case Present(v) => if v.JString? && Utf16Length(v.s) <= MaxLabelLength then Some(Present(v.s)) else None
  }

  /** The cross-field rule: a session of type "other" needs a label that is
      not blank (`customLabel?.trim().length ?? 0`). */
  predicate LabelRule(t: ExerciseType, name: Field<string>) {
    t != Other || (name.Present? && |Trim(name.value)| > 0)
  }

  /** The rule in plain terms: an "other" session names itself with at least
      one character that is not white space. */
  lemma LabelRuleMeaning(t: ExerciseType, name: Field<string>)
    ensures LabelRule(t, name) <==>
      (t == Other ==> name.Present? && exists i :: 0 <= i < |name.value| && !IsSpace(name.value[i]))
  {
    if name.Present? {
      TrimEmpty(name.value);
    }
  }

  predicate ValidLabel(name: Field<string>) {
    name.Present? ==> Utf16Length(name.value) <= MaxLabelLength
  }

  /** What the create validator guarantees of its output. */
  predicate ValidCreate(c: CreateExercise) {
    && IsoDate(c.date)
    && ValidLabel(c.customLabel)
    && 0 < c.durationMinutes <= MaxDurationMinutes
    && LabelRule(c.exerciseType, c.customLabel)
  }

  /** What the update validator guarantees of its output. */
  predicate ValidUpdate(u: UpdateExercise) {
    && (u.date.Some? ==> IsoDate(u.date.value))
    && ValidLabel(u.customLabel)
    && (u.durationMinutes.Some? ==> 0 < u.durationMinutes.value <= MaxDurationMinutes)
  }

  // ---------------------------------------------------------------------
  // Validators

  /** The members the create validator reads; any other member is
      dropped. */
  const CreateKeys: set<string> := {"date", "exerciseType", "customLabel", "durationMinutes", "effortLevel"}

  /** `createExerciseSchema.safeParse(body)`: None is a failed parse. */
  function ParseCreate(body: Json): (r: Option<CreateExercise>)
    ensures r.Some? ==> ValidCreate(r.value)
    ensures r.Some? <==>
      && body.JObject?
      && Required(Member(body.members, "date"), ReadIsoDate).Some?
      && Required(Member(body.members, "exerciseType"), ReadExerciseType).Some?
      && ReadLabel(Member(body.members, "customLabel")).Some?
      && Required(Member(body.members, "durationMinutes"), ReadDuration).Some?
      && Required(Member(body.members, "effortLevel"), ReadEffort).Some?
      && LabelRule(Required(Member(body.members, "exerciseType"), ReadExerciseType).value,
                   ReadLabel(Member(body.members, "customLabel")).value)
  {
    if !body.JObject? then None
    else
      var m := body.members;
      var date := Required(Member(m, "date"), ReadIsoDate);
      var t := Required(Member(m, "exerciseType"), ReadExerciseType);
      var name := ReadLabel(Member(m, "customLabel"));
      var duration := Required(Member(m, "durationMinutes"), ReadDuration);
      var effort := Required(Member(m, "effortLevel"), ReadEffort);
      if date.Some? && t.Some? && name.Some? && duration.Some? && effort.Some?
         && LabelRule(t.value, name.value)
      then Some(CreateExercise(date.value, t.value, name.value, duration.value, effort.value))
      else None
  }

  /** `updateExerciseSchema.safeParse(body)`. */
  function ParseUpdate(body: Json): (r: Option<UpdateExercise>)
    ensures r.Some? ==> ValidUpdate(r.value)
    ensures r.Some? <==>
      && body.JObject?
      && Optional(Member(body.members, "date"), ReadIsoDate).Some?
      && Optional(Member(body.members, "exerciseType"), ReadExerciseType).Some?
      && ReadLabel(Member(body.members, "customLabel")).Some?
      && Optional(Member(body.members, "durationMinutes"), ReadDuration).Some?
      && Optional(Member(body.members, "effortLevel"), ReadEffort).Some?
  {
    if !body.JObject? then None
    else
      var m := body.members;
      var date := Optional(Member(m, "date"), ReadIsoDate);
      var t := Optional(Member(m, "exerciseType"), ReadExerciseType);
      var name := ReadLabel(Member(m, "customLabel"));
      var duration := Optional(Member(m, "durationMinutes"), ReadDuration);
      var effort := Optional(Member(m, "effortLevel"), ReadEffort);
      if date.Some? && t.Some? && name.Some? && duration.Some? && effort.Some?
      then Some(UpdateExercise(date.value, t.value, name.value, duration.value, effort.value))
      else None
  }

  // ---------------------------------------------------------------------
  // Writing a body back

  function EncodeLabel(name: Field<string>): map<string, Json> {
    match name
    case Absent => map[]
    case Null => map["customLabel" := JNull]
    case Present(s) => map["customLabel" := JString(s)]
  }

  /** The JSON body a client sends for a session. */
  function EncodeCreate(c: CreateExercise): (j: Json)
    ensures j.JObject? && forall k :: k in j.members ==> k in CreateKeys
  {
    JObject(EncodeLabel(c.customLabel) + map[
      "date" := JString(c.date),
      "exerciseType" := JString(c.exerciseType.Name()),
      "durationMinutes" := JNumber(c.durationMinutes as real),
      "effortLevel" := JString(c.effortLevel.Name())])
  }

  lemma ExerciseTypeRoundTrip(t: ExerciseType)
    ensures ExerciseTypeFromName(t.Name()) == Some(t)
  {
  }

  lemma EffortRoundTrip(e: Effort)
    ensures EffortFromName(e.Name()) == Some(e)
  {
  }

  lemma LabelRoundTrip(name: Field<string>, rest: map<string, Json>)
    requires ValidLabel(name) && "customLabel" !in rest
    ensures ReadLabel(Member(EncodeLabel(name) + rest, "customLabel")) == Some(name)
  {
  }

  /** The validator accepts exactly the bodies of valid sessions: writing
      one out and reading it back gives it again. */
  lemma CreateRoundTrip(c: CreateExercise)
    requires ValidCreate(c)
    ensures ParseCreate(EncodeCreate(c)) == Some(c)
  {
    var m := EncodeCreate(c).members;
    ExerciseTypeRoundTrip(c.exerciseType);
    EffortRoundTrip(c.effortLevel);
    LabelRoundTrip(c.customLabel, map[
      "date" := JString(c.date),
      "exerciseType" := JString(c.exerciseType.Name()),
      "durationMinutes" := JNumber(c.durationMinutes as real),
      "effortLevel" := JString(c.effortLevel.Name())]);
    assert (c.durationMinutes as real).Floor == c.durationMinutes;
    assert Member(m, "date") == Present(JString(c.date));
    assert Member(m, "durationMinutes") == Present(JNumber(c.durationMinutes as real));
  }

  /** Members outside the schema make no difference: zod drops them. */
  lemma CreateIgnoresOtherMembers(m: map<string, Json>)
    ensures ParseCreate(JObject(m)) == ParseCreate(JObject(Restrict(m, CreateKeys)))
  {
    var n := Restrict(m, CreateKeys);
    assert Member(n, "date") == Member(m, "date");
    assert Member(n, "exerciseType") == Member(m, "exerciseType");
    assert Member(n, "customLabel") == Member(m, "customLabel");
    assert Member(n, "durationMinutes") == Member(m, "durationMinutes");
    assert Member(n, "effortLevel") == Member(m, "effortLevel");
  }

  /** The edit a full session body amounts to. */
  function AsUpdate(c: CreateExercise): (u: UpdateExercise)
    ensures ValidCreate(c) ==> ValidUpdate(u)
  {
    UpdateExercise(Some(c.date), Some(c.exerciseType), c.customLabel, Some(c.durationMinutes),
      Some(c.effortLevel))
  }

  /** Every body the create validator accepts, the update validator accepts
      with the same values; the converse fails (an edit of a single member
      is no session). */
  lemma CreateBodyIsUpdate(body: Json)
    requires ParseCreate(body).Some?
    ensures ParseUpdate(body) == Some(AsUpdate(ParseCreate(body).value))
  {
  }

  // ---------------------------------------------------------------------
  // Examples

  function SessionBody(t: string, name: Field<Json>, minutes: real, effort: string): (j: Json)
    ensures j.JObject?
  {
    var m := map["date" := JString("2026-02-22"), "exerciseType" := JString(t),
      "durationMinutes" := JNumber(minutes), "effortLevel" := JString(effort)];
    JObject(if name.Present? then m["customLabel" := name.value] else m)
  }

  lemma ExampleDate()
    ensures IsoDate("2026-02-22")
  {
    IsoDateMeaning(2026, 2, 22);
    assert DateText(2026, 2, 22) == "2026-02-22";
  }

  /** The members of an example body, one by one. */
  lemma SessionBodyMembers(t: string, name: Field<Json>, minutes: real, effort: string)
    requires !name.Null? && (name.Present? ==> name.value != JNull)
    ensures var m := SessionBody(t, name, minutes, effort).members;
      && Member(m, "date") == Present(JString("2026-02-22"))
      && Member(m, "exerciseType") == Present(JString(t))
      && Member(m, "customLabel") == name
      && Member(m, "durationMinutes") == Present(JNumber(minutes))
      && Member(m, "effortLevel") == Present(JString(effort))
  {
  }

  /** The session of the first example: 50 minutes of cycling. */
  function CyclingSession(): CreateExercise {
    CreateExercise("2026-02-22", Other, Present("Cycling"), 50, Medium)
  }

  lemma CyclingSessionValid()
    ensures ValidCreate(CyclingSession())
  {
    ExampleDate();
    TrimUnspaced("Cycling");
  }

  /** An "other" session with a label passes. */
  lemma OtherWithLabel()
    ensures ParseCreate(EncodeCreate(CyclingSession())) == Some(CyclingSession())
  {
    CyclingSessionValid();
    CreateRoundTrip(CyclingSession());
  }

  /** The same session with an empty label does not. */
  lemma OtherWithEmptyLabel()
    ensures ParseCreate(SessionBody("other", Present(JString("")), 50.0, "medium")).None?
  {
    SessionBodyMembers("other", Present(JString("")), 50.0, "medium");
    assert ReadExerciseType(JString("other")) == Some(Other);
    assert !LabelRule(Other, Present(""));
  }

  /** A football session needs no label, and the output has none. */
  lemma FootballWithoutLabel()
    ensures ParseCreate(SessionBody("football", Absent, 60.0, "high"))
      == Some(CreateExercise("2026-02-22", Football, Absent, 60, High))
  {
    ExampleDate();
    SessionBodyMembers("football", Absent, 60.0, "high");
    assert ReadExerciseType(JString("football")) == Some(Football);
    assert ReadEffort(JString("high")) == Some(High);
    assert (60.0).Floor == 60;
  }

  /** A label of 51 characters from outside the basic plane is 102 code
      units long and is refused, while 100 basic-plane characters pass. */
  lemma LabelLengthInCodeUnits()
    ensures ReadLabel(Present(JString(seq(51, _ => '\U{1F600}')))).None?
    ensures ReadLabel(Present(JString(seq(100, _ => 'a')))) == Some(Present(seq(100, _ => 'a')))
  {
    var wide := seq(51, _ => '\U{1F600}');
    var narrow := seq(100, _ => 'a');
    Utf16LengthUniform(wide, 2);
    Utf16LengthUniform(narrow, 1);
  }

  /** A string of one repeated kind of character has that many units per
      character. */
  lemma {:induction false} Utf16LengthUniform(s: string, units: nat)
    requires forall i :: 0 <= i < |s| ==> (if s[i] as int > 0xFFFF then 2 else 1) == units
    ensures Utf16Length(s) == units * |s|
  {
    if s != [] {
      Utf16LengthUniform(s[..|s| - 1], units);
    }
  }

  /** A partial edit keeps only the members it names. */
  lemma PartialUpdate()
    ensures ParseUpdate(JObject(map["durationMinutes" := JNumber(35.0), "effortLevel" := JString("low")]))
      == Some(UpdateExercise(None, None, Absent, Some(35), Some(Low)))
  {
    assert (35.0).Floor == 35;
  }
}
