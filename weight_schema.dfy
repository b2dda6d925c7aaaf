/** The request validators of the weight routes. */
module WeightSchema {
  import opened Wrappers
  import opened Json
  import opened SchemaRules

  const MaxWeightKg: real := 500.0

  datatype CreateWeight = CreateWeight(date: string, weightKg: real)

  datatype UpdateWeight = UpdateWeight(date: Option<string>, weightKg: Option<real>)

  /** `z.number().positive().max(500)`. */
  function ReadWeight(j: Json): (r: Option<real>)
    ensures r.Some? <==> j.JNumber? && 0.0 < j.n <= MaxWeightKg
    ensures r.Some? ==> r.value == j.n
  {
    if j.JNumber? && 0.0 < j.n <= MaxWeightKg then Some(j.n) else None
  }

  predicate ValidWeight(w: real) {
    0.0 < w <= MaxWeightKg
  }

  predicate ValidCreate(c: CreateWeight) {
    IsoDate(c.date) && ValidWeight(c.weightKg)
  }

  predicate ValidUpdate(u: UpdateWeight) {
    (u.date.Some? ==> IsoDate(u.date.value)) && (u.weightKg.Some? ==> ValidWeight(u.weightKg.value))
  }

  const Keys: set<string> := {"date", "weightKg"}

  /** `createWeightSchema.safeParse(body)`. */
  function ParseCreate(body: Json): (r: Option<CreateWeight>)
    ensures r.Some? ==> ValidCreate(r.value)
    ensures r.Some? <==>
      && body.JObject?
      && Required(Member(body.members, "date"), ReadIsoDate).Some?
      && Required(Member(body.members, "weightKg"), ReadWeight).Some?
  {
    if !body.JObject? then None
    else
      var date := Required(Member(body.members, "date"), ReadIsoDate);
      var w := Required(Member(body.members, "weightKg"), ReadWeight);
      if date.Some? && w.Some? then Some(CreateWeight(date.value, w.value)) else None
  }

  /** `updateWeightSchema.safeParse(body)`. */
  function ParseUpdate(body: Json): (r: Option<UpdateWeight>)
    ensures r.Some? ==> ValidUpdate(r.value)
    ensures r.Some? <==>
      && body.JObject?
      && Optional(Member(body.members, "date"), ReadIsoDate).Some?
      && Optional(Member(body.members, "weightKg"), ReadWeight).Some?
  {
    if !body.JObject? then None
    else
      var date := Optional(Member(body.members, "date"), ReadIsoDate);
      var w := Optional(Member(body.members, "weightKg"), ReadWeight);
      if date.Some? && w.Some? then Some(UpdateWeight(date.value, w.value)) else None
  }

  function EncodeCreate(c: CreateWeight): (j: Json)
    ensures j.JObject? && forall k :: k in j.members ==> k in Keys
  {
    JObject(map["date" := JString(c.date), "weightKg" := JNumber(c.weightKg)])
  }

  /** An edit body names only the members it changes. */
  function EncodeUpdate(u: UpdateWeight): (j: Json)
    ensures j.JObject? && forall k :: k in j.members ==> k in Keys
  {
    var m := if u.date.Some? then map["date" := JString(u.date.value)] else map[];
    JObject(if u.weightKg.Some? then m["weightKg" := JNumber(u.weightKg.value)] else m)
  }

  /** The create validator reads back every valid entry written out. */
  lemma CreateRoundTrip(c: CreateWeight)
    requires ValidCreate(c)
    ensures ParseCreate(EncodeCreate(c)) == Some(c)
  {
  }

  /** The update validator reads back every valid edit written out, a
      missing member coming back as missing. */
  lemma UpdateRoundTrip(u: UpdateWeight)
    requires ValidUpdate(u)
    ensures ParseUpdate(EncodeUpdate(u)) == Some(u)
  {
  }

  /** A weight that is zero, negative or over 500 kg is refused, whatever
      the date. */
  lemma CreateRefusesWeight(m: map<string, Json>, w: real)
    requires Member(m, "weightKg") == Present(JNumber(w)) && !ValidWeight(w)
    ensures ParseCreate(JObject(m)).None?
  {
  }

  /** Members outside the schema make no difference. */
  lemma CreateIgnoresOtherMembers(m: map<string, Json>)
    ensures ParseCreate(JObject(m)) == ParseCreate(JObject(Restrict(m, Keys)))
    ensures ParseUpdate(JObject(m)) == ParseUpdate(JObject(Restrict(m, Keys)))
  {
    var n := Restrict(m, Keys);
    assert Member(n, "date") == Member(m, "date");
    assert Member(n, "weightKg") == Member(m, "weightKg");
  }

  /** Every entry body is an edit of both members. */
  lemma CreateBodyIsUpdate(body: Json)
    requires ParseCreate(body).Some?
    ensures ParseUpdate(body) == Some(UpdateWeight(Some(ParseCreate(body).value.date), Some(ParseCreate(body).value.weightKg)))
  {
  }

  lemma ExampleDate()
    ensures IsoDate("2026-02-22")
  {
    IsoDateMeaning(2026, 2, 22);
    assert DateText(2026, 2, 22) == "2026-02-22";
  }

  /** 74.5 kg is accepted and 0 kg is not; an edit of the weight alone keeps
      the date missing. */
  lemma Examples()
    ensures ParseCreate(EncodeCreate(CreateWeight("2026-02-22", 74.5))) == Some(CreateWeight("2026-02-22", 74.5))
    ensures ParseCreate(JObject(map["date" := JString("2026-02-22"), "weightKg" := JNumber(0.0)])).None?
    ensures ParseUpdate(JObject(map["weightKg" := JNumber(73.9)])) == Some(UpdateWeight(None, Some(73.9)))
  {
    ExampleDate();
    CreateRoundTrip(CreateWeight("2026-02-22", 74.5));
    UpdateRoundTrip(UpdateWeight(None, Some(73.9)));
    assert EncodeUpdate(UpdateWeight(None, Some(73.9))).members == map["weightKg" := JNumber(73.9)];
  }
}
