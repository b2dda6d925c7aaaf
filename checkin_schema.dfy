/** The request validator of the daily check-in route as it is written: it
    declares the date, the mood and the three ratings, and drops every other
    member, including the stress level, sleep hours, coffee cups, last
    coffee time and late-meal flag that the route and its clients send. */
module CheckinSchema {
  import opened Wrappers
  import opened Constants
  import opened Json
  import opened SchemaRules
  import CheckinCli

  // ---------------------------------------------------------------------
  // Member rules

  /** `z.int().min(1).max(5)`. */
  function ReadMood(j: Json): (r: Option<Mood>)
    ensures r.Some? <==> j.JNumber? && IsWholeIn(j.n, 1, 5)
    ensures r.Some? ==> r.value as real == j.n
  {
    var n := ReadInteger(j);
    if n.Some? && 1 <= n.value <= 5 then Some(n.value as Mood) else None
  }

  /** A whole number between the bounds. */
  predicate IsWholeIn(x: real, lo: int, hi: int) {
    Text.IsWhole(x) && lo as real <= x <= hi as real
  }

  /** `z.enum(CHECKIN_QUALITY_VALUES)`. */
  function ReadQuality(j: Json): (r: Option<Quality>)
    ensures r.Some? <==> j.JString? && exists q: Quality :: q.Name() == j.s
    ensures r.Some? ==> r.value.Name() == j.s
  {
    if j.JString? then QualityFromName(j.s) else None
  }

  lemma QualityRoundTrip(q: Quality)
    ensures ReadQuality(JString(q.Name())) == Some(q)
  {
  }

  // ---------------------------------------------------------------------
  // The validator as written

  /** The members the check-in validator reads. */
  const UpsertKeys: set<string> := {"date", "mood", "sleepQuality", "productivity", "energyLevel"}

  /** What the validator hands to the route. */
  datatype UpsertCheckin = UpsertCheckin(
    date: Option<string>,
    mood: Mood,
    sleepQuality: Quality,
    productivity: Quality,
    energyLevel: Quality)

  predicate ValidUpsert(c: UpsertCheckin) {
    c.date.Some? ==> IsoDate(c.date.value)
  }

  /** `upsertDailyCheckinSchema.safeParse(body)`. */
  function ParseUpsert(body: Json): (r: Option<UpsertCheckin>)
    ensures r.Some? ==> ValidUpsert(r.value)
    ensures r.Some? <==>
      && body.JObject?
      && Optional(Member(body.members, "date"), ReadIsoDate).Some?
      && Required(Member(body.members, "mood"), ReadMood).Some?
      && Required(Member(body.members, "sleepQuality"), ReadQuality).Some?
      && Required(Member(body.members, "productivity"), ReadQuality).Some?
      && Required(Member(body.members, "energyLevel"), ReadQuality).Some?
  {
    if !body.JObject? then None
    else
      var m := body.members;
      var date := Optional(Member(m, "date"), ReadIsoDate);
      var mood := Required(Member(m, "mood"), ReadMood);
      var sleep := Required(Member(m, "sleepQuality"), ReadQuality);
      var productivity := Required(Member(m, "productivity"), ReadQuality);
      var energy := Required(Member(m, "energyLevel"), ReadQuality);
      if date.Some? && mood.Some? && sleep.Some? && productivity.Some? && energy.Some?
      then Some(UpsertCheckin(date.value, mood.value, sleep.value, productivity.value, energy.value))
      else None
  }

  function EncodeUpsert(c: UpsertCheckin): (j: Json)
    ensures j.JObject? && forall k :: k in j.members ==> k in UpsertKeys
  {
    var m := map[
      "mood" := JNumber(c.mood as real),
      "sleepQuality" := JString(c.sleepQuality.Name()),
      "productivity" := JString(c.productivity.Name()),
      "energyLevel" := JString(c.energyLevel.Name())];
    JObject(if c.date.Some? then m["date" := JString(c.date.value)] else m)
  }

  /** The validator reads back every valid check-in written out. */
  lemma UpsertRoundTrip(c: UpsertCheckin)
    requires ValidUpsert(c)
    ensures ParseUpsert(EncodeUpsert(c)) == Some(c)
  {
    QualityRoundTrip(c.sleepQuality);
    QualityRoundTrip(c.productivity);
    QualityRoundTrip(c.energyLevel);
    assert ((c.mood as real).Floor) == c.mood;
  }

  /** Members outside the five make no difference: they are dropped, so the
      stress level, sleep hours, coffee cups and late meal a client sends
      never reach the route. */
  lemma UpsertIgnoresOtherMembers(m: map<string, Json>)
    ensures ParseUpsert(JObject(m)) == ParseUpsert(JObject(Restrict(m, UpsertKeys)))
  {
    var n := Restrict(m, UpsertKeys);
    assert Member(n, "date") == Member(m, "date");
    assert Member(n, "mood") == Member(m, "mood");
    assert Member(n, "sleepQuality") == Member(m, "sleepQuality");
    assert Member(n, "productivity") == Member(m, "productivity");
    assert Member(n, "energyLevel") == Member(m, "energyLevel");
  }

  /** The date the route stores the check-in under: the body's date, or
      today's when the body has none. */
  function UpsertDate(c: UpsertCheckin, today: string): (d: string)
    ensures c.date.Some? ==> d == c.date.value
    ensures c.date.None? ==> d == today
  {
    match c.date
    case Some(date) => date
    case None => today
  }

  /** The stored date is a calendar date whenever today's is. */
  lemma UpsertDateIso(body: Json, today: string)
    requires ParseUpsert(body).Some? && IsoDate(today)
    ensures IsoDate(UpsertDate(ParseUpsert(body).value, today))
  {
  }

  /** Two bodies that agree on the five members are read alike. */
  lemma UpsertAgree(m: map<string, Json>, n: map<string, Json>)
    requires Member(m, "date") == Member(n, "date") && Member(m, "mood") == Member(n, "mood")
    requires Member(m, "sleepQuality") == Member(n, "sleepQuality")
    requires Member(m, "productivity") == Member(n, "productivity")
    requires Member(m, "energyLevel") == Member(n, "energyLevel")
    ensures ParseUpsert(JObject(m)) == ParseUpsert(JObject(n))
  {
  }

  // ---------------------------------------------------------------------
  // The members the validator does not declare

  /** A body with the five members of `c` and anything at all under the
      stress level, sleep hours, coffee cups and late meal. */
  function WithExtras(c: UpsertCheckin, stress: real, sleep: real, cups: real): (j: Json)
    ensures j.JObject?
  {
    JObject(EncodeUpsert(c).members + map[
      "stressLevel" := JNumber(stress),
      "sleepHours" := JNumber(sleep),
      "coffeeCups" := JNumber(cups),
      "hadLateMeal" := JBool(false)])
  }

  /** The added members do not overwrite any of the five. */
  lemma ExtrasKeepCore(c: UpsertCheckin, stress: real, sleep: real, cups: real)
    ensures var m, core := WithExtras(c, stress, sleep, cups).members, EncodeUpsert(c).members;
      forall k :: k in UpsertKeys ==> Member(m, k) == Member(core, k)
  {
  }

  /** The validator reads a valid check-in the same way whatever stress
      level, sleep hours and coffee cups come with it: none of them is
      checked, so 6, 30 and -1 pass as well as 2, 7.5 and 2. */
  lemma UpsertIgnoresUndeclared(c: UpsertCheckin, stress: real, sleep: real, cups: real)
    requires ValidUpsert(c)
    ensures ParseUpsert(WithExtras(c, stress, sleep, cups)) == Some(c)
  {
    UpsertRoundTrip(c);
    ExtrasKeepCore(c, stress, sleep, cups);
    var m, core := WithExtras(c, stress, sleep, cups).members, EncodeUpsert(c).members;
    assert Member(m, "date") == Member(core, "date") && Member(m, "mood") == Member(core, "mood");
    assert Member(m, "sleepQuality") == Member(core, "sleepQuality");
    assert Member(m, "productivity") == Member(core, "productivity");
    assert Member(m, "energyLevel") == Member(core, "energyLevel");
    UpsertAgree(m, core);
  }

  lemma UndeclaredExample()
    ensures ParseUpsert(WithExtras(UpsertCheckin(Some("2026-02-24"), 4, Good, Ok, Good), 6.0, 30.0, -1.0))
      == Some(UpsertCheckin(Some("2026-02-24"), 4, Good, Ok, Good))
  {
    IsoDateMeaning(2026, 2, 24);
    assert DateText(2026, 2, 24) == "2026-02-24";
    UpsertIgnoresUndeclared(UpsertCheckin(Some("2026-02-24"), 4, Good, Ok, Good), 6.0, 30.0, -1.0);
  }

  // ---------------------------------------------------------------------
  // The body the command-line client sends

  /** The ten members of a client payload, the time of the last coffee as
      a string or `null`. */
  function EncodePayload(p: CheckinCli.Payload): (j: Json)
    ensures j.JObject?
  {
    JObject(EncodeUpsert(Core(p)).members + map[
      "stressLevel" := JNumber(p.stressLevel as real),
      "sleepHours" := JNumber(p.sleepHours),
      "coffeeCups" := JNumber(p.coffeeCups as real),
      "hadLateMeal" := JBool(p.hadLateMeal),
      "lastCoffeeAt" := if p.lastCoffeeAt.Some? then JString(p.lastCoffeeAt.value) else JNull])
  }

  /** The five members of a payload the validator reads. */
  function Core(p: CheckinCli.Payload): (c: UpsertCheckin)
    ensures c.date == Some(p.date) && c.mood == p.mood
    ensures c.sleepQuality == p.sleepQuality && c.productivity == p.productivity && c.energyLevel == p.energyLevel
  {
    UpsertCheckin(Some(p.date), p.mood, p.sleepQuality, p.productivity, p.energyLevel)
  }

  /** A payload on a calendar date is accepted, and the route receives only
      its date, mood and three qualities. */
  lemma PayloadAccepted(p: CheckinCli.Payload)
    requires IsoDate(p.date)
    ensures ParseUpsert(EncodePayload(p)) == Some(Core(p))
  {
    var c := Core(p);
    UpsertRoundTrip(c);
    var m, core := EncodePayload(p).members, EncodeUpsert(c).members;
    assert Member(m, "date") == Member(core, "date") && Member(m, "mood") == Member(core, "mood");
    assert Member(m, "sleepQuality") == Member(core, "sleepQuality");
    assert Member(m, "productivity") == Member(core, "productivity");
    assert Member(m, "energyLevel") == Member(core, "energyLevel");
    UpsertAgree(m, core);
  }

  /** Every payload the client builds from its flags on a calendar date
      passes the route's validator. */
  lemma ClientPayloadAccepted(flags: CheckinCli.ParsedFlags, today: string)
    requires CheckinCli.BuildPayloadFromFlags(flags, today).Success?
    requires IsoDate(CheckinCli.BuildPayloadFromFlags(flags, today).value.date)
    ensures var p := CheckinCli.BuildPayloadFromFlags(flags, today).value;
      ParseUpsert(EncodePayload(p)) == Some(Core(p))
  {
    PayloadAccepted(CheckinCli.BuildPayloadFromFlags(flags, today).value);
  }

  // ---------------------------------------------------------------------
  // The client's date check against the server's

  /** Every date the server accepts passes the client's pattern, but the
      client lets through dates that do not exist, which the server then
      refuses. */
  lemma ClientDateCheckIsLooser(s: string)
    ensures IsoDate(s) ==> CheckinCli.DatePattern(s)
    ensures CheckinCli.DatePattern(DateText(2026, 2, 30)) && !IsoDate(DateText(2026, 2, 30))
  {
    IsoDateMeaning(2026, 2, 30);
    CheckinCli.DatePatternAcceptsPadded(2026, 2, 30);
  }
}
