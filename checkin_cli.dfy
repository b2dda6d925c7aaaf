/** The command-line check-in client: the argument parser, the field
    parsers and the payload it builds from flags, and the choice between
    prompting and reading flags. Prompting, the request it sends and the
    process exit are outside this module. */
module CheckinCli {
  import opened Wrappers
  import opened Text
  import opened NumberReading
  import opened Constants

  // ---------------------------------------------------------------------
  // Flags

  /** The flags that take a value. */
  datatype ValueFlag =
    | BaseUrl | WriteToken | DateFlag | MoodFlag | StressFlag | SleepHoursFlag
    | CoffeeCupsFlag | LastCoffeeFlag | LateMealFlag | SleepQualityFlag
    | ProductivityFlag | EnergyFlag
  {
    function Name(): string {
      match this
      case BaseUrl => "--base-url"
      case WriteToken => "--write-token"
      case DateFlag => "--date"
      case MoodFlag => "--mood"
      case StressFlag => "--stress"
      case SleepHoursFlag => "--sleep-hours"
      case CoffeeCupsFlag => "--coffee-cups"
      case LastCoffeeFlag => "--last-coffee"
      case LateMealFlag => "--late-meal"
      case SleepQualityFlag => "--sleep-quality"
      case ProductivityFlag => "--productivity"
      case EnergyFlag => "--energy"
    }

    /** Every flag but the connection settings describes the check-in. */
    predicate IsData() {
      this != BaseUrl && this != WriteToken
    }
  }

  /** The value flag a token names, if any. */
  function ValueFlagOf(arg: string): (r: Option<ValueFlag>)
    ensures r.Some? ==> r.value.Name() == arg
    ensures r.None? ==> forall f: ValueFlag :: f.Name() != arg
  {
    if arg == "--base-url" then Some(BaseUrl)
    else if arg == "--write-token" then Some(WriteToken)
    else if arg == "--date" then Some(DateFlag)
    else if arg == "--mood" then Some(MoodFlag)
    else if arg == "--stress" then Some(StressFlag)
    else if arg == "--sleep-hours" then Some(SleepHoursFlag)
    else if arg == "--coffee-cups" then Some(CoffeeCupsFlag)
    else if arg == "--last-coffee" then Some(LastCoffeeFlag)
    else if arg == "--late-meal" then Some(LateMealFlag)
    else if arg == "--sleep-quality" then Some(SleepQualityFlag)
    else if arg == "--productivity" then Some(ProductivityFlag)
    else if arg == "--energy" then Some(EnergyFlag)
    else None
  }

  predicate IsHelp(arg: string) {
    arg == "--help" || arg == "-h"
  }

  predicate IsInteractive(arg: string) {
    arg == "--interactive" || arg == "-i"
  }

  /** The parsed flags: the two switches and the value given to each value
      flag (an optional field of the record is a key of the map). */
  datatype ParsedFlags = ParsedFlags(help: bool, interactive: bool, values: map<ValueFlag, string>) {
    function Get(f: ValueFlag): Option<string> {
      if f in values then Some(values[f]) else None
    }
  }

  const NoFlags: ParsedFlags := ParsedFlags(false, false, map[])

  /** A value the parser accepts after a value flag: present, non-empty and
      not starting with a dash. */
  predicate IsValue(s: string) {
    s != [] && s[0] != '-'
  }

  // The error messages, parameterised by the flag or field they name.

  function MissingValue(flag: string): string {
    "Missing value for " + flag
  }

  function UnknownFlag(arg: string): string {
    "Unknown flag: " + arg
  }

  /** `getRequiredValue`: the token after the flag at `index`. */
  function GetRequiredValue(args: seq<string>, index: nat, flag: string): (r: Result<string>)
    ensures r.Success? <==> index + 1 < |args| && IsValue(args[index + 1])
    ensures r.Success? ==> r.value == args[index + 1]
    ensures r.Failure? ==> r.error == MissingValue(flag)
  {
    if index + 1 >= |args| || !IsValue(args[index + 1]) then Failure(MissingValue(flag))
    else Success(args[index + 1])
  }

  /** What the parser does with the tokens that are left, `parsed` holding
      what it has read so far. */
  function ParseTokens(rest: seq<string>, parsed: ParsedFlags): Result<ParsedFlags>
    decreases |rest|
  {
    if rest == [] then Success(parsed)
    else
      var arg := rest[0];
      if IsHelp(arg) then ParseTokens(rest[1..], parsed.(help := true))
      else if IsInteractive(arg) then ParseTokens(rest[1..], parsed.(interactive := true))
      else match ValueFlagOf(arg)
        case None => Failure(UnknownFlag(arg))
        case Some(f) =>
          var value :- GetRequiredValue(rest, 0, arg);
          ParseTokens(rest[2..], parsed.(values := parsed.values[f := value]))
  }

  /** `parseArgs`: the token loop. A switch consumes one token, a value flag
      two; anything else stops the parse with an error. */
  method ParseArgs(args: seq<string>) returns (r: Result<ParsedFlags>)
    ensures r == ParseTokens(args, NoFlags)
  {
    var parsed := NoFlags;
    var index := 0;
    while index < |args|
      invariant index <= |args|
      invariant ParseTokens(args, NoFlags) == ParseTokens(args[index..], parsed)
    {
      var arg := args[index];
      assert args[index..][0] == arg && args[index..][1..] == args[index + 1..];
      if IsHelp(arg) {
        parsed := parsed.(help := true);
        index := index + 1;
      } else if IsInteractive(arg) {
        parsed := parsed.(interactive := true);
        index := index + 1;
      } else {
        var flag := ValueFlagOf(arg);
        if flag.None? {
          return Failure(UnknownFlag(arg));
        }
        var value := GetRequiredValue(args, index, arg);
        assert GetRequiredValue(args[index..], 0, arg) == value;
        if value.Failure? {
          return Failure(value.error);
        }
        assert args[index..][2..] == args[index + 2..];
        parsed := parsed.(values := parsed.values[flag.value := value.value]);
        index := index + 2;
      }
    }
    return Success(parsed);
  }

  /** Parsing is compositional: once a run of tokens parses, the tokens
      after it are parsed from the flags it produced. */
  lemma {:induction false} ParseTokensAppend(a: seq<string>, b: seq<string>, parsed: ParsedFlags)
    requires ParseTokens(a, parsed).Success?
    ensures ParseTokens(a + b, parsed) == ParseTokens(b, ParseTokens(a, parsed).value)
    decreases |a|
  {
    if a == [] {
      assert a + b == b;
    } else {
      var arg := a[0];
      assert (a + b)[0] == arg && (a + b)[1..] == a[1..] + b;
      if IsHelp(arg) {
        ParseTokensAppend(a[1..], b, parsed.(help := true));
      } else if IsInteractive(arg) {
        ParseTokensAppend(a[1..], b, parsed.(interactive := true));
      } else {
        var f := ValueFlagOf(arg).value;
        assert (a + b)[1] == a[1] && (a + b)[2..] == a[2..] + b;
        ParseTokensAppend(a[2..], b, parsed.(values := parsed.values[f := a[1]]));
      }
    }
  }

  /** A value flag repeated later overwrites the earlier value, and the
      other flags keep theirs. */
  lemma LaterValueWins(args: seq<string>, f: ValueFlag, v: string)
    requires ParseTokens(args, NoFlags).Success? && IsValue(v)
    ensures var p := ParseTokens(args, NoFlags).value;
            ParseTokens(args + [f.Name(), v], NoFlags) == Success(p.(values := p.values[f := v]))
  {
    var p := ParseTokens(args, NoFlags).value;
    ParseTokensAppend(args, [f.Name(), v], NoFlags);
    var rest := [f.Name(), v];
    assert !IsHelp(f.Name()) && !IsInteractive(f.Name());
    assert rest[2..] == [];
  }

  /** Every stored value is one the parser accepts after a flag, and a
      failure is either a token that is no flag or a value flag without its
      value. */
  lemma {:induction false} ParseTokensOutcome(rest: seq<string>, parsed: ParsedFlags)
    requires forall f :: f in parsed.values ==> IsValue(parsed.values[f])
    ensures var r := ParseTokens(rest, parsed);
            && (r.Success? ==> forall f :: f in r.value.values ==> IsValue(r.value.values[f]))
            && (r.Failure? ==> exists i :: 0 <= i < |rest| && FailsAt(rest, i, r.error))
    decreases |rest|
  {
    if rest != [] {
      var arg := rest[0];
      if IsHelp(arg) {
        ParseTokensOutcome(rest[1..], parsed.(help := true));
        ShiftFailure(rest, 1, ParseTokens(rest, parsed));
      } else if IsInteractive(arg) {
        ParseTokensOutcome(rest[1..], parsed.(interactive := true));
        ShiftFailure(rest, 1, ParseTokens(rest, parsed));
      } else if ValueFlagOf(arg).None? {
        assert FailsAt(rest, 0, ParseTokens(rest, parsed).error);
      } else if GetRequiredValue(rest, 0, arg).Failure? {
        assert FailsAt(rest, 0, ParseTokens(rest, parsed).error);
      } else {
        var f := ValueFlagOf(arg).value;
        ParseTokensOutcome(rest[2..], parsed.(values := parsed.values[f := rest[1]]));
        ShiftFailure(rest, 2, ParseTokens(rest, parsed));
      }
    }
  }

  /** Token `i` is where the parse stops with `error`. */
  predicate FailsAt(rest: seq<string>, i: nat, error: string)
    requires i < |rest|
  {
    || (ValueFlagOf(rest[i]).None? && !IsHelp(rest[i]) && !IsInteractive(rest[i]) && error == UnknownFlag(rest[i]))
    || (ValueFlagOf(rest[i]).Some? && !(i + 1 < |rest| && IsValue(rest[i + 1])) && error == MissingValue(rest[i]))
  }

  lemma ShiftFailure(rest: seq<string>, k: nat, r: Result<ParsedFlags>)
    requires k <= |rest|
    requires r.Failure? ==> exists i :: 0 <= i < |rest[k..]| && FailsAt(rest[k..], i, r.error)
    ensures r.Failure? ==> exists i :: 0 <= i < |rest| && FailsAt(rest, i, r.error)
  {
    if r.Failure? {
      var i :| 0 <= i < |rest[k..]| && FailsAt(rest[k..], i, r.error);
      assert rest[k..][i] == rest[i + k];
      assert i + 1 < |rest[k..]| ==> rest[k..][i + 1] == rest[i + k + 1];
      assert FailsAt(rest, i + k, r.error);
    }
  }

  lemma ParseArgsExamples()
    ensures ParseTokens(["--mood", "4", "-i"], NoFlags) == Success(ParsedFlags(false, true, map[MoodFlag := "4"]))
    ensures ParseTokens(["--mood", "-1"], NoFlags) == Failure(MissingValue("--mood"))
    ensures ParseTokens(["today"], NoFlags) == Failure(UnknownFlag("today"))
  {
    var a := ["--mood", "4", "-i"];
    assert a[2..] == ["-i"] && a[2..][1..] == [];
  }

  // ---------------------------------------------------------------------
  // Field parsers

  function NotAMood(fieldName: string): string {
    fieldName + " must be an integer between 1 and 5"
  }

  function NotAQuality(fieldName: string): string {
    fieldName + " must be one of: bad, ok, good"
  }

  function NotYesNo(fieldName: string): string {
    fieldName + " must be yes or no"
  }

  function MissingFlag(name: string): string {
    "Missing --" + name + ". Use --interactive for prompt mode."
  }

  /** `parseMood`: an integer from 1 to 5 as `parseInt` reads it (so
      "4.5" and "4x" read as 4). */
  function ParseMood(value: string, fieldName: string): (r: Result<Mood>)
    ensures r.Success? <==> ParseInt(value).Some? && 1 <= ParseInt(value).value <= 5
    ensures r.Success? ==> r.value == ParseInt(value).value
    ensures r.Failure? ==> r.error == NotAMood(fieldName)
  {
    match ParseInt(value)
    case Some(n) => if n < 1 || n > 5 then Failure(NotAMood(fieldName)) else Success(n)
    case None => Failure(NotAMood(fieldName))
  }

  /** `parseCoffeeCups`: an integer from 0 to 20. */
  function ParseCoffeeCups(value: string): (r: Result<int>)
    ensures r.Success? <==> ParseInt(value).Some? && 0 <= ParseInt(value).value <= 20
    ensures r.Success? ==> r.value == ParseInt(value).value
    ensures r.Failure? ==> r.error == "coffee-cups must be an integer between 0 and 20"
  {
    match ParseInt(value)
    case Some(n) => if n < 0 || n > 20 then Failure("coffee-cups must be an integer between 0 and 20") else Success(n)
    case None => Failure("coffee-cups must be an integer between 0 and 20")
  }

  /** The mood and cup parsers accept an integer written out in decimal
      exactly when it lies in their range, and read it back. */
  lemma ParseMoodOfPrinted(n: int)
    ensures ParseMood(IntToString(n), "mood") == if 1 <= n <= 5 then Success(n) else Failure(NotAMood("mood"))
  {
    ParseIntOfIntToString(n);
  }

  lemma ParseCoffeeCupsOfPrinted(n: int)
    ensures ParseCoffeeCups(IntToString(n)) == if 0 <= n <= 20 then Success(n) else Failure("coffee-cups must be an integer between 0 and 20")
  {
    ParseIntOfIntToString(n);
  }

  /** `parseInt` stops at the first non-digit: "4.5" is the mood 4. */
  lemma ParseMoodTruncates()
    ensures ParseMood("4.5", "mood") == Success(4)
  {
    ParseIntOfDigits("4", ".5");
    assert "4" + ".5" == "4.5";
    assert DigitsValue("4") == 4;
  }

  lemma ParseMoodRejectsWords()
    ensures ParseMood("abc", "stress") == Failure(NotAMood("stress"))
  {
    TrimStartUnspaced("abc");
    assert ParseInt("abc") == None;
  }

  /** `parseSleepHours`: a number from 0 to 24 as `parseFloat` reads it. */
  function ParseSleepHours(value: string): (r: Result<real>)
    ensures r.Success? <==> ParseFloat(value).Some? && 0.0 <= ParseFloat(value).value <= 24.0
    ensures r.Success? ==> r.value == ParseFloat(value).value
    ensures r.Failure? ==> r.error == "sleep-hours must be a number between 0 and 24"
  {
    match ParseFloat(value)
    case Some(v) => if v < 0.0 || v > 24.0 then Failure("sleep-hours must be a number between 0 and 24") else Success(v)
    case None => Failure("sleep-hours must be a number between 0 and 24")
  }

  /** `parseQuality`: one of bad, ok and good. */
  function ParseQuality(value: string, fieldName: string): (r: Result<Quality>)
    ensures r.Success? <==> exists q: Quality :: q.Name() == value
    ensures r.Success? ==> r.value.Name() == value
    ensures r.Failure? ==> r.error == NotAQuality(fieldName)
  {
    match QualityFromName(value)
    case Some(q) => Success(q)
    case None => Failure(NotAQuality(fieldName))
  }

  /** The words `parseYesNo` reads as yes and as no. */
  predicate IsYesWord(s: string) {
    s == "yes" || s == "y" || s == "true" || s == "1"
  }

  predicate IsNoWord(s: string) {
    s == "no" || s == "n" || s == "false" || s == "0"
  }

  /** No word means both yes and no. */
  lemma YesNoDisjoint(s: string)
    ensures !(IsYesWord(s) && IsNoWord(s))
  {
    if IsYesWord(s) {
      assert s[0] == 'y' || s[0] == 't' || s[0] == '1';
    }
  }

  /** `parseYesNo`: after trimming and lower-casing, one of the yes words
      or one of the no words. */
  function ParseYesNo(value: string, fieldName: string): (r: Result<bool>)
    ensures r == Success(true) <==> IsYesWord(ToLower(Trim(value)))
    ensures r == Success(false) <==> IsNoWord(ToLower(Trim(value)))
    ensures r.Failure? ==> r.error == NotYesNo(fieldName)
  {
    var normalized := ToLower(Trim(value));
    YesNoDisjoint(normalized);
    if IsYesWord(normalized) then Success(true)
    else if IsNoWord(normalized) then Success(false)
    else Failure(NotYesNo(fieldName))
  }

  lemma YesNoExamples()
    ensures ParseYesNo(" YES ", "late-meal") == Success(true)
    ensures ParseYesNo("N", "late-meal") == Success(false)
  {
    YesExample();
    NoExample();
  }

  lemma YesExample()
    ensures ToLower(Trim(" YES ")) == "yes"
  {
    TrimExample();
    LowerYes();
  }

  lemma LowerYes()
    ensures ToLower("YES") == "yes"
  {
    var r := ToLower("YES");
    assert |r| == 3 && r[0] == 'y' && r[1] == 'e' && r[2] == 's';
  }

  lemma TrimExample()
    ensures Trim(" YES ") == "YES"
  {
    var s, u := " YES ", "YES ";
    assert s[0] == ' ' && s[1..] == u;
    TrimStartUnspaced(u);
    assert u[|u| - 1] == ' ' && u[..|u| - 1] == "YES";
    assert TrimEnd("YES") == "YES";
  }

  lemma NoExample()
    ensures ToLower(Trim("N")) == "n"
  {
    assert TrimStart("N") == "N" && TrimEnd("N") == "N";
    var r := ToLower("N");
    assert r[0] == 'n';
  }

  /** `^\d{4}-\d{2}-\d{2}$`: four, two and two ASCII digits joined by
      dashes, with no check of the calendar. */
  predicate DatePattern(s: string) {
    && |s| == 10 && s[4] == '-' && s[7] == '-'
    && AllDigits(s[..4]) && AllDigits(s[5..7]) && AllDigits(s[8..])
  }

  /** `^([01]\d|2[0-3]):([0-5]\d)$`. */
  predicate TimePattern(s: string) {
    && |s| == 5 && s[2] == ':'
    && (('0' <= s[0] <= '1' && IsDigit(s[1])) || (s[0] == '2' && '0' <= s[1] <= '3'))
    && '0' <= s[3] <= '5' && IsDigit(s[4])
  }

  function ParseDate(value: string): (r: Result<string>)
    ensures r.Success? <==> DatePattern(value)
    ensures r.Success? ==> r.value == value
    ensures r.Failure? ==> r.error == "date must be in YYYY-MM-DD format"
  {
    if !DatePattern(value) then Failure("date must be in YYYY-MM-DD format") else Success(value)
  }

  function ParseTime(value: string): (r: Result<string>)
    ensures r.Success? <==> TimePattern(value)
    ensures r.Success? ==> r.value == value
    ensures r.Failure? ==> r.error == "time must be in HH:MM (24h) format"
  {
    if !TimePattern(value) then Failure("time must be in HH:MM (24h) format") else Success(value)
  }

  /** The time pattern accepts a zero-padded "HH:MM" exactly when it is a
      time of day: hours 0 to 23, minutes 0 to 59. */
  lemma TimePatternMeaning(h: nat, m: nat)
    requires h < 100 && m < 100
    ensures ParseTime(Pad2(h) + ":" + Pad2(m)).Success? <==> h < 24 && m < 60
  {
    var s := Pad2(h) + ":" + Pad2(m);
    assert s[0] == DigitChar(h / 10) && s[1] == DigitChar(h % 10);
    assert s[3] == DigitChar(m / 10) && s[4] == DigitChar(m % 10);
  }

  /** The date pattern accepts every zero-padded year, month and day, even
      ones that are no calendar date. */
  lemma DatePatternAcceptsPadded(y: nat, m: nat, d: nat)
    requires y < 10000 && m < 100 && d < 100
    ensures ParseDate(Pad4(y) + "-" + Pad2(m) + "-" + Pad2(d)).Success?
  {
    var s := Pad4(y) + "-" + Pad2(m) + "-" + Pad2(d);
    assert s[..4] == Pad4(y) && s[5..7] == Pad2(m) && s[8..] == Pad2(d);
  }

  lemma DateExamples()
    ensures ParseDate("2026-02-30").Success?
    ensures ParseDate("2026-2-3").Failure?
    ensures ParseTime("23:59").Success? && ParseTime("24:00").Failure?
  {
    var s := "2026-02-30";
    assert s[..4] == "2026" && s[5..7] == "02" && s[8..] == "30";
  }

  // ---------------------------------------------------------------------
  // The payload

  /** What the client sends: the check-in the flags (or the prompts)
      describe. */
  datatype Payload = Payload(
    date: string,
    mood: Mood,
    stressLevel: Mood,
    sleepHours: real,
    coffeeCups: int,
    lastCoffeeAt: Option<string>,
    hadLateMeal: bool,
    sleepQuality: Quality,
    productivity: Quality,
    energyLevel: Quality)

  /** `hasAnyDataFlags`: some flag describing the check-in was given. */
  predicate HasAnyDataFlags(flags: ParsedFlags) {
    exists f :: f in flags.values && f.IsData()
  }

  /** `requireFlag`. */
  function RequireFlag(value: Option<string>, name: string): (r: Result<string>)
    ensures r.Success? <==> value.Some?
    ensures r.Success? ==> r.value == value.value
    ensures r.Failure? ==> r.error == MissingFlag(name)
  {
    match value
    case Some(v) => Success(v)
    case None => Failure(MissingFlag(name))
  }

  /** A field is truthy when present and non-empty. */
  predicate Truthy(value: Option<string>) {
    value.Some? && value.value != []
  }

  /** The date of the payload: the flag's, checked, or today. */
  function PayloadDate(flags: ParsedFlags, today: string): (r: Result<string>)
    ensures r.Success? <==> (Truthy(flags.Get(DateFlag)) ==> DatePattern(flags.Get(DateFlag).value))
    ensures r.Success? ==> r.value == if Truthy(flags.Get(DateFlag)) then flags.Get(DateFlag).value else today
    ensures r.Failure? ==> r.error == "date must be in YYYY-MM-DD format"
  {
    if Truthy(flags.Get(DateFlag)) then ParseDate(flags.Get(DateFlag).value) else Success(today)
  }

  /** A required flag of the mood scale, read. */
  function RequiredMood(flags: ParsedFlags, f: ValueFlag, name: string): (r: Result<Mood>)
    ensures f in flags.values ==> r == ParseMood(flags.values[f], name)
    ensures f !in flags.values ==> r == Failure(MissingFlag(name))
  {
    var text :- RequireFlag(flags.Get(f), name);
    ParseMood(text, name)
  }

  /** A required quality flag, read. */
  function RequiredQuality(flags: ParsedFlags, f: ValueFlag, name: string): (r: Result<Quality>)
    ensures f in flags.values ==> r == ParseQuality(flags.values[f], name)
    ensures f !in flags.values ==> r == Failure(MissingFlag(name))
  {
    var text :- RequireFlag(flags.Get(f), name);
    ParseQuality(text, name)
  }

  /** The payload's fields other than the time of the last coffee. */
  datatype Fields = Fields(
    date: string,
    mood: Mood,
    stressLevel: Mood,
    sleepHours: real,
    coffeeCups: int,
    hadLateMeal: bool,
    sleepQuality: Quality,
    productivity: Quality,
    energyLevel: Quality)

  /** The date and the numeric flags hold values their parsers accept. */
  predicate NumbersValid(flags: ParsedFlags) {
    && (Truthy(flags.Get(DateFlag)) ==> DatePattern(flags.Get(DateFlag).value))
    && MoodFlag in flags.values && ParseMood(flags.values[MoodFlag], "mood").Success?
    && StressFlag in flags.values && ParseMood(flags.values[StressFlag], "stress").Success?
    && SleepHoursFlag in flags.values && ParseSleepHours(flags.values[SleepHoursFlag]).Success?
    && CoffeeCupsFlag in flags.values && ParseCoffeeCups(flags.values[CoffeeCupsFlag]).Success?
  }

  /** The yes/no and quality flags hold values their parsers accept. */
  predicate ChoicesValid(flags: ParsedFlags) {
    && LateMealFlag in flags.values && ParseYesNo(flags.values[LateMealFlag], "late-meal").Success?
    && SleepQualityFlag in flags.values && ParseQuality(flags.values[SleepQualityFlag], "sleep-quality").Success?
    && ProductivityFlag in flags.values && ParseQuality(flags.values[ProductivityFlag], "productivity").Success?
    && EnergyFlag in flags.values && ParseQuality(flags.values[EnergyFlag], "energy").Success?
  }

  /** The fields of `buildPayloadFromFlags`, parsed in the order it parses
      them; the first error is the one reported. */
  function ParseFields(flags: ParsedFlags, today: string): (r: Result<Fields>)
    ensures r.Success? <==> NumbersValid(flags) && ChoicesValid(flags)
    ensures r.Success? ==> && Success(r.value.mood) == ParseMood(flags.values[MoodFlag], "mood")
                           && Success(r.value.stressLevel) == ParseMood(flags.values[StressFlag], "stress")
                           && Success(r.value.sleepHours) == ParseSleepHours(flags.values[SleepHoursFlag])
                           && Success(r.value.coffeeCups) == ParseCoffeeCups(flags.values[CoffeeCupsFlag])
                           && Success(r.value.hadLateMeal) == ParseYesNo(flags.values[LateMealFlag], "late-meal")
                           && r.value.sleepQuality.Name() == flags.values[SleepQualityFlag]
                           && r.value.productivity.Name() == flags.values[ProductivityFlag]
                           && r.value.energyLevel.Name() == flags.values[EnergyFlag]
                           && Success(r.value.date) == PayloadDate(flags, today)
  {
    var date :- PayloadDate(flags, today);
    var mood :- RequiredMood(flags, MoodFlag, "mood");
    var stressLevel :- RequiredMood(flags, StressFlag, "stress");
    var sleepText :- RequireFlag(flags.Get(SleepHoursFlag), "sleep-hours");
    var sleepHours :- ParseSleepHours(sleepText);
    var cupsText :- RequireFlag(flags.Get(CoffeeCupsFlag), "coffee-cups");
    var coffeeCups :- ParseCoffeeCups(cupsText);
    var lateMealText :- RequireFlag(flags.Get(LateMealFlag), "late-meal");
    var hadLateMeal :- ParseYesNo(lateMealText, "late-meal");
    var sleepQuality :- RequiredQuality(flags, SleepQualityFlag, "sleep-quality");
    var productivity :- RequiredQuality(flags, ProductivityFlag, "productivity");
    var energyLevel :- RequiredQuality(flags, EnergyFlag, "energy");
    Success(Fields(date, mood, stressLevel, sleepHours, coffeeCups, hadLateMeal,
      sleepQuality, productivity, energyLevel))
  }

  /** The coffee rule: a time of the last coffee exactly when coffee was
      had, and then in the 24-hour format. */
  function LastCoffeeAt(coffeeCups: int, lastCoffee: Option<string>): (r: Result<Option<string>>)
    requires coffeeCups >= 0
    ensures r.Success? <==> (Truthy(lastCoffee) <==> coffeeCups > 0) && (Truthy(lastCoffee) ==> TimePattern(lastCoffee.value))
    ensures r.Success? ==> (r.value.Some? <==> coffeeCups > 0)
    ensures r.Success? && r.value.Some? ==> r.value.value == lastCoffee.value && TimePattern(r.value.value)
    ensures coffeeCups > 0 && !Truthy(lastCoffee) ==> r == Failure("Missing --last-coffee when coffee-cups is greater than 0")
    ensures coffeeCups == 0 && Truthy(lastCoffee) ==> r == Failure("--last-coffee should be omitted when coffee-cups is 0")
  {
    if coffeeCups > 0 && !Truthy(lastCoffee) then
      Failure("Missing --last-coffee when coffee-cups is greater than 0")
    else if coffeeCups == 0 && Truthy(lastCoffee) then
      Failure("--last-coffee should be omitted when coffee-cups is 0")
    else if Truthy(lastCoffee) then
      var t :- ParseTime(lastCoffee.value);
      Success(Some(t))
    else Success(None)
  }

  /** `buildPayloadFromFlags`, `today` standing for `todayDateString()`:
      the fields are parsed in order, then the coffee cups and the time of
      the last coffee are checked together. */
  function BuildPayloadFromFlags(flags: ParsedFlags, today: string): (r: Result<Payload>)
    ensures r.Success? ==> (r.value.lastCoffeeAt.Some? <==> r.value.coffeeCups > 0)
    ensures r.Success? ==> 0 <= r.value.coffeeCups <= 20 && 0.0 <= r.value.sleepHours <= 24.0
    ensures r.Success? && r.value.lastCoffeeAt.Some? ==> TimePattern(r.value.lastCoffeeAt.value)
    ensures r.Success? ==> r.value.date == if Truthy(flags.Get(DateFlag)) then flags.Get(DateFlag).value else today
  {
    var f :- ParseFields(flags, today);
    var lastCoffeeAt :- LastCoffeeAt(f.coffeeCups, flags.Get(LastCoffeeFlag));
    Success(Payload(f.date, f.mood, f.stressLevel, f.sleepHours, f.coffeeCups, lastCoffeeAt,
      f.hadLateMeal, f.sleepQuality, f.productivity, f.energyLevel))
  }

  /** The flags build a payload exactly when every field is valid and the
      coffee rule holds: the last coffee is given if and only if some
      coffee was had, and is then a valid time. */
  lemma BuildPayloadSucceeds(flags: ParsedFlags, today: string)
    ensures BuildPayloadFromFlags(flags, today).Success? <==>
      && NumbersValid(flags) && ChoicesValid(flags)
      && var cups := ParseCoffeeCups(flags.values[CoffeeCupsFlag]).value;
         var last := flags.Get(LastCoffeeFlag);
         (Truthy(last) <==> cups > 0) && (Truthy(last) ==> TimePattern(last.value))
  {
  }

  /** With every field valid, a wrong number of coffee times is reported
      with the coffee messages. */
  lemma BuildPayloadCoffeeErrors(flags: ParsedFlags, today: string)
    requires NumbersValid(flags) && ChoicesValid(flags)
    ensures var cups := ParseCoffeeCups(flags.values[CoffeeCupsFlag]).value;
            var last := flags.Get(LastCoffeeFlag);
            var r := BuildPayloadFromFlags(flags, today);
            && (cups > 0 && !Truthy(last) ==> r == Failure("Missing --last-coffee when coffee-cups is greater than 0"))
            && (cups == 0 && Truthy(last) ==> r == Failure("--last-coffee should be omitted when coffee-cups is 0"))
  {
  }

  /** A built payload carries the values its flags name. */
  lemma BuildPayloadFields(flags: ParsedFlags, today: string)
    requires BuildPayloadFromFlags(flags, today).Success?
    ensures var p := BuildPayloadFromFlags(flags, today).value;
            && Success(p.mood) == ParseMood(flags.values[MoodFlag], "mood")
            && Success(p.stressLevel) == ParseMood(flags.values[StressFlag], "stress")
            && Success(p.sleepHours) == ParseSleepHours(flags.values[SleepHoursFlag])
            && Success(p.coffeeCups) == ParseCoffeeCups(flags.values[CoffeeCupsFlag])
            && Success(p.hadLateMeal) == ParseYesNo(flags.values[LateMealFlag], "late-meal")
            && p.sleepQuality.Name() == flags.values[SleepQualityFlag]
            && p.productivity.Name() == flags.values[ProductivityFlag]
            && p.energyLevel.Name() == flags.values[EnergyFlag]
            && p.date == (if Truthy(flags.Get(DateFlag)) then flags.Get(DateFlag).value else today)
            && (p.lastCoffeeAt.Some? ==> p.lastCoffeeAt.value == flags.values[LastCoffeeFlag])
  {
  }

  /** A missing required flag is reported by name, after the date. */
  lemma BuildPayloadMissingMood(flags: ParsedFlags, today: string)
    requires Truthy(flags.Get(DateFlag)) ==> DatePattern(flags.Get(DateFlag).value)
    requires MoodFlag !in flags.values
    ensures BuildPayloadFromFlags(flags, today) == Failure(MissingFlag("mood"))
  {
  }

  /** A malformed date is the first error reported, whatever else is
      wrong. */
  lemma BuildPayloadBadDate(flags: ParsedFlags, today: string)
    requires Truthy(flags.Get(DateFlag)) && !DatePattern(flags.Get(DateFlag).value)
    ensures BuildPayloadFromFlags(flags, today) == Failure("date must be in YYYY-MM-DD format")
  {
  }

  // ---------------------------------------------------------------------
  // Mode

  datatype Mode = ShowUsage | Interactive | FromFlags

  /** `main`: help wins; otherwise prompt when asked to or when no flag
      describes the check-in, and read the flags otherwise. */
  function ChooseMode(flags: ParsedFlags): (m: Mode)
    ensures m == ShowUsage <==> flags.help
    ensures m == Interactive <==> !flags.help && (flags.interactive || forall f: ValueFlag :: f in flags.values ==> !f.IsData())
    ensures m == FromFlags ==> HasAnyDataFlags(flags)
  {
    if flags.help then ShowUsage
    else if flags.interactive || !HasAnyDataFlags(flags) then Interactive
    else FromFlags
  }

  /** No arguments, or only connection settings, means prompting. */
  lemma ModeExamples()
    ensures ChooseMode(NoFlags) == Interactive
    ensures ChooseMode(ParsedFlags(false, false, map[BaseUrl := "http://x"])) == Interactive
    ensures ChooseMode(ParsedFlags(false, false, map[MoodFlag := "4"])) == FromFlags
    ensures ChooseMode(ParsedFlags(true, true, map[MoodFlag := "4"])) == ShowUsage
  {
    assert MoodFlag.IsData();
  }
}
