/** The field rules the request validators share: ISO calendar dates,
    positive bounded numbers, required and optional members, and the
    pagination query with its defaults. */
module SchemaRules {
  import opened Wrappers
  import opened Text
  import opened NumberReading
  import opened Json

  // ---------------------------------------------------------------------
  // ISO dates

  function Year(s: string): nat
    requires |s| == 10 && AllDigits(s[..4])
  {
    DigitsValue(s[..4])
  }

  function Month(s: string): nat
    requires |s| == 10 && AllDigits(s[5..7])
  {
    DigitsValue(s[5..7])
  }

  function DayOfMonth(s: string): nat
    requires |s| == 10 && AllDigits(s[8..])
  {
    DigitsValue(s[8..])
  }

  /** Gregorian leap years. */
  predicate IsLeapYear(y: nat) {
    (y % 4 == 0 && y % 100 != 0) || y % 400 == 0
  }

  function DaysInMonth(y: nat, m: nat): (n: nat)
    requires 1 <= m <= 12
    ensures 28 <= n <= 31
  {
    if m == 2 then (if IsLeapYear(y) then 29 else 28)
    else if m == 4 || m == 6 || m == 9 || m == 11 then 30
    else 31
  }

  /** `z.iso.date()`: "YYYY-MM-DD" naming a day of the calendar. */
  predicate IsoDate(s: string) {
    && |s| == 10 && s[4] == '-' && s[7] == '-'
    && AllDigits(s[..4]) && AllDigits(s[5..7]) && AllDigits(s[8..])
    && 1 <= Month(s) <= 12 && 1 <= DayOfMonth(s) <= DaysInMonth(Year(s), Month(s))
  }

  // ---------------------------------------------------------------------
  // Member readers

  /** A required member: present and accepted by `read`. */
  function Required<T>(f: Field<Json>, read: Json -> Option<T>): (r: Option<T>)
    ensures r.Some? <==> f.Present? && read(f.value).Some?
    ensures r.Some? ==> r == read(f.value)
  {
    if f.Present? then read(f.value) else None
  }

  /** `.optional()`: missing is fine, `null` is not, a value must be
      accepted by `read`. */
  function Optional<T>(f: Field<Json>, read: Json -> Option<T>): (r: Option<Option<T>>)
    ensures f.Absent? ==> r == Some(None)
    ensures f.Null? ==> r == None
    ensures f.Present? ==> (r.Some? <==> read(f.value).Some?)
    ensures f.Present? && r.Some? ==> r.value == read(f.value)
  {
    match f
    case Absent => Some(None)
    case Null => None
    case Present(v) => if read(v).Some? then Some(read(v)) else None
  }

  function ReadIsoDate(j: Json): (r: Option<string>)
    ensures r.Some? <==> j.JString? && IsoDate(j.s)
    ensures r.Some? ==> r.value == j.s
  {
    if j.JString? && IsoDate(j.s) then Some(j.s) else None
  }

  /** The largest integer a double holds exactly, 2^53 - 1
      (`Number.MAX_SAFE_INTEGER`). */
  const MaxSafeInteger: int := 9007199254740991

  /** Whether a number is a safe integer: whole and at most 2^53 - 1 in
      size (`Number.isSafeInteger`), the test `z.int()` and `.int()`
      apply. */
  predicate SafeInteger(x: real) {
    IsWhole(x) && -(MaxSafeInteger as real) <= x <= MaxSafeInteger as real
  }

  /** `z.number().int()` (within the bounds the callers add). */
  function ReadInteger(j: Json): (r: Option<int>)
    ensures r.Some? <==> j.JNumber? && SafeInteger(j.n)
    ensures r.Some? ==> r.value as real == j.n && -MaxSafeInteger <= r.value <= MaxSafeInteger
  {
    if j.JNumber? && SafeInteger(j.n) then Some(j.n.Floor) else None
  }

  // ---------------------------------------------------------------------
  // Pagination

  const DefaultPageSize: int := 10
  const MaxPageSize: int := 100

  datatype PageQuery = PageQuery(page: int, pageSize: int)

  /** A query this validator can produce: a positive safe-integer page,
      and a positive page size of at most 100. */
  predicate ValidPageQuery(q: PageQuery) {
    1 <= q.page <= MaxSafeInteger && 1 <= q.pageSize <= MaxPageSize
  }

  /** `z.coerce.number().int().positive()` with a default for a missing
      parameter and an optional upper bound: the text is read with
      `Number`. */
  function CoercePositive(param: Option<string>, default: int, max: Option<int>): (r: Option<int>)
    ensures param.None? ==> r == Some(default)
    ensures param.Some? && r.Some? ==> ToNumber(param.value) == Some(r.value as real)
    ensures param.Some? && r.Some? ==> 1 <= r.value <= MaxSafeInteger && (max.Some? ==> r.value <= max.value)
  {
    match param
    case None => Some(default)
    case Some(text) =>
      match ToNumber(text)
      case None => None
      case Some(x) =>
        if SafeInteger(x) && x > 0.0 && (max.None? || x <= max.value as real) then Some(x.Floor) else None
  }

  /** The pagination query of both list routes: `page` defaults to 1 and
      `pageSize` to 10. */
  function ParsePageQuery(page: Option<string>, pageSize: Option<string>): (r: Option<PageQuery>)
    ensures r.Some? ==> ValidPageQuery(r.value)
    ensures page.None? && pageSize.None? ==> r == Some(PageQuery(1, DefaultPageSize))
  {
    var p := CoercePositive(page, 1, None);
    var size := CoercePositive(pageSize, DefaultPageSize, Some(MaxPageSize));
    if p.Some? && size.Some? then Some(PageQuery(p.value, size.value)) else None
  }

  /** The parameters read back a valid query written out in decimal, so the
      validator accepts exactly the valid queries. */
  lemma PageQueryRoundTrip(q: PageQuery)
    requires ValidPageQuery(q)
    ensures ParsePageQuery(Some(NatToString(q.page)), Some(NatToString(q.pageSize))) == Some(q)
  {
    ToNumberOfPrinted(q.page);
    ToNumberOfPrinted(q.pageSize);
    assert (q.page as real).Floor == q.page;
    assert (q.pageSize as real).Floor == q.pageSize;
  }

  /** A page size over 100 is refused, and so are a page of zero and a page
      beyond 2^53 - 1. */
  lemma PageQueryBounds(n: nat)
    ensures ParsePageQuery(None, Some(NatToString(n))).Some? <==> 1 <= n <= MaxPageSize
    ensures ParsePageQuery(Some(NatToString(n)), None).Some? <==> 1 <= n <= MaxSafeInteger
  {
    ToNumberOfPrinted(n);
    assert (n as real).Floor == n;
  }

  /** The first page past the safe integers is refused. */
  lemma UnsafePageRefused()
    ensures ParsePageQuery(Some(NatToString(MaxSafeInteger + 1)), None).None?
  {
    PageQueryBounds(MaxSafeInteger + 1);
  }

  lemma PageQueryExamples()
    ensures ParsePageQuery(None, None) == Some(PageQuery(1, 10))
    ensures ParsePageQuery(Some("2"), Some("25")) == Some(PageQuery(2, 25))
    ensures ParsePageQuery(Some("3"), Some("20")) == Some(PageQuery(3, 20))
  {
    assert NatToString(2) == "2" && NatToString(25) == "25";
    assert NatToString(3) == "3" && NatToString(20) == "20";
    PageQueryRoundTrip(PageQuery(2, 25));
    PageQueryRoundTrip(PageQuery(3, 20));
  }

  /** A zero-padded "YYYY-MM-DD". */
  function DateText(y: nat, m: nat, d: nat): (s: string)
    requires y < 10000 && m < 100 && d < 100
    ensures |s| == 10
  {
    Pad4(y) + "-" + Pad2(m) + "-" + Pad2(d)
  }

  /** A zero-padded date is an ISO date exactly when its month is 1 to 12
      and its day exists in that month of that year. */
  lemma IsoDateMeaning(y: nat, m: nat, d: nat)
    requires y < 10000 && m < 100 && d < 100
    ensures IsoDate(DateText(y, m, d)) <==> 1 <= m <= 12 && 1 <= d <= DaysInMonth(y, m)
  {
    var s := DateText(y, m, d);
    assert s[..4] == Pad4(y) && s[5..7] == Pad2(m) && s[8..] == Pad2(d);
  }

  lemma IsoDateExamples()
    ensures IsoDate(DateText(2026, 2, 22)) && IsoDate(DateText(2024, 2, 29))
    ensures !IsoDate(DateText(2023, 2, 29)) && !IsoDate(DateText(1900, 2, 29))
    ensures IsoDate(DateText(2000, 2, 29)) && !IsoDate(DateText(2026, 4, 31))
    ensures !IsoDate(DateText(2026, 2, 30)) && !IsoDate(DateText(2026, 13, 1))
  {
    IsoDateMeaning(2026, 2, 22);
    IsoDateMeaning(2024, 2, 29);
    IsoDateMeaning(2023, 2, 29);
    IsoDateMeaning(1900, 2, 29);
    IsoDateMeaning(2000, 2, 29);
    IsoDateMeaning(2026, 4, 31);
    IsoDateMeaning(2026, 2, 30);
    IsoDateMeaning(2026, 13, 1);
  }
}
