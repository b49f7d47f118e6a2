/**
 * `preprocess` of preprocessor.py: the chat text is scanned with both header
 * patterns, the 12-hour reading wins whenever it matches anywhere, each match
 * becomes a row, rows whose sender is blank are dropped, and the Date and Time
 * groups are converted to a timestamp day-first with `errors="coerce"`, from
 * which year, month name, day name, hour and minute are derived.
 *
 * The conversion follows the `strptime` field rules that pandas applies for
 * `%d/%m/%Y %I:%M %p` and `%d/%m/%Y %H:%M`: day 1-31 and month 1-12 in one or
 * two digits, a year of exactly four digits, hour 1-12 (12-hour) or 00-23
 * (24-hour), minutes 00-59, and at least one whitespace character wherever the
 * format has a space. Anything else, an impossible calendar date, or a moment
 * outside pandas' nanosecond timestamp range gives a missing timestamp, and the
 * row is kept.
 */
module Preprocessor {
  import opened Wrappers
  import opened Text
  import opened Calendar
  import opened LineGrammar

  /** A timestamp to the minute: the chat format carries no seconds. */
  datatype Stamp = Stamp(date: CivilDate, hour: nat, minute: nat)

  /**
   * One row of the table `preprocess` returns. `index` is the row label, which
   * pandas keeps through the filters: the match's position among the findall
   * results. `None` is pandas' missing value (NaT or NaN).
   */
  datatype MessageRecord = MessageRecord(
    index: nat,
    date: string,
    time: string,
    user: string,
    message: string,
    stamp: Option<Stamp>,
    year: Option<int>,
    month: Option<string>,
    day: Option<Weekday>,
    hour: Option<nat>,
    minute: Option<nat>)

  /** The value of an ASCII digit; the patterns let no other character into a
      numeric group, and any other character counts as 0. */
  function DigitValue(c: char): nat {
    if IsDigit(c) then c as int - '0' as int else 0
  }

  /** The value of a string of ASCII digits. */
  function Decimal(s: string): nat {
    if s == [] then 0 else 10 * Decimal(s[..|s| - 1]) + DigitValue(s[|s| - 1])
  }

  /** Two digits are worth ten times the first plus the second. */
  lemma DecimalTwo(s: string)
    requires |s| == 2 && AllDigits(s)
    ensures Decimal(s) == 10 * (s[0] as int - '0' as int) + (s[1] as int - '0' as int)
  {
    assert s[..1][..0] == [];
    assert Decimal(s[..1]) == DigitValue(s[0]);
  }

  /** `%I` with `%p`: 12 AM is hour 0, 12 PM is hour 12, any other hour h PM is h + 12. */
  function To24Hour(h: nat, pm: bool): (r: nat)
    requires 1 <= h <= 12
    ensures r < 24 && r % 12 == h % 12 && (r >= 12 <==> pm)
  {
    (if h == 12 then 0 else h) + (if pm then 12 else 0)
  }

  /** The three conditions in `To24Hour`'s contract leave one possible hour. */
  lemma To24HourUnique(h: nat, pm: bool, r: nat)
    requires 1 <= h <= 12
    requires r < 24 && r % 12 == h % 12 && (r >= 12 <==> pm)
    ensures r == To24Hour(h, pm)
  {
  }

  lemma To24HourCases(h: nat)
    requires 1 <= h <= 12
    ensures To24Hour(12, false) == 0 && To24Hour(12, true) == 12
    ensures h < 12 ==> To24Hour(h, false) == h && To24Hour(h, true) == h + 12
  {
  }

  predicate IsPm(meridiem: string) {
    |meridiem| > 0 && meridiem[0] in "Pp"
  }

  /** The moment of a stamp, in minutes since the start of 1 January of year 1. */
  function Minutes(st: Stamp): int
    requires 1 <= st.date.month <= 12
  {
    Ordinal(st.date) * 1440 + st.hour * 60 + st.minute
  }

  /** pandas' timestamps run from 1677-09-21 00:12:43.145224193 to 2262-04-11
      23:47:16.854775807; at minute resolution that is 00:13 to 23:47. */
  const EarliestMinutes: int := Ordinal(CivilDate(1677, 9, 21)) * 1440 + 13
  const LatestMinutes: int := Ordinal(CivilDate(2262, 4, 11)) * 1440 + 23 * 60 + 47

  predicate InBounds(st: Stamp)
    requires 1 <= st.date.month <= 12
  {
    EarliestMinutes <= Minutes(st) <= LatestMinutes
  }

  /** What `%d/%m/%Y` accepts of a Date group. */
  predicate DateFieldsOk(d: DateGroup)
  {
    1 <= Decimal(d.day) <= 31 && 1 <= Decimal(d.month) <= 12 && |d.year| == 4
  }

  /** What `%I:%M %p` or `%H:%M` accepts of a Time group. */
  predicate TimeFieldsOk(fmt: Format, t: TimeGroup)
  {
    && Decimal(t.minute) < 60
    && (fmt == Hour12 ==> 1 <= Decimal(t.hour) <= 12 && t.gap != [])
    && (fmt == Hour24 ==> Decimal(t.hour) <= 23)
  }

  /** `pd.to_datetime(Date + " " + Time, format=..., errors="coerce")` for one row. */
  function ConvertStamp(fmt: Format, d: DateGroup, t: TimeGroup): (r: Option<Stamp>)
    ensures r.Some? ==> var st := r.value;
      && IsValidDate(st.date) && InBounds(st) && st.hour < 24 && st.minute < 60
      && DateFieldsOk(d) && TimeFieldsOk(fmt, t)
      && st.date == CivilDate(Decimal(d.year), Decimal(d.month), Decimal(d.day))
      && st.minute == Decimal(t.minute)
      && (fmt == Hour24 ==> st.hour == Decimal(t.hour))
      && (fmt == Hour12 ==> st.hour == To24Hour(Decimal(t.hour), IsPm(t.meridiem)))
  {
    if !DateFieldsOk(d) || !TimeFieldsOk(fmt, t) then None
    else
      var date := CivilDate(Decimal(d.year), Decimal(d.month), Decimal(d.day));
      var hour := if fmt == Hour12 then To24Hour(Decimal(t.hour), IsPm(t.meridiem)) else Decimal(t.hour);
      var st := Stamp(date, hour, Decimal(t.minute));
      if IsValidDate(date) && InBounds(st) then Some(st) else None
  }

  /** Every row whose fields are in range, whose date exists and whose moment pandas
      can represent gets a timestamp. */
  lemma ConvertStampAccepts(fmt: Format, d: DateGroup, t: TimeGroup)
    requires DateFieldsOk(d) && TimeFieldsOk(fmt, t)
    requires var st := Stamp(CivilDate(Decimal(d.year), Decimal(d.month), Decimal(d.day)),
                             if fmt == Hour12 then To24Hour(Decimal(t.hour), IsPm(t.meridiem)) else Decimal(t.hour),
                             Decimal(t.minute));
      IsValidDate(st.date) && InBounds(st)
    ensures ConvertStamp(fmt, d, t).Some?
  {
  }

  /** A two-digit year (`1/2/23`) is not `%Y`: no timestamp. */
  lemma ShortYearHasNoStamp(fmt: Format, d: DateGroup, t: TimeGroup)
    requires |d.year| != 4
    ensures ConvertStamp(fmt, d, t) == None
  {
  }

  /** A 12-hour time with no whitespace before AM/PM (`10:30AM`) does not fit the
      space in `%M %p`: no timestamp. */
  lemma NoGapHasNoStamp(d: DateGroup, t: TimeGroup)
    requires t.gap == []
    ensures ConvertStamp(Hour12, d, t) == None
  {
  }

  /** A day the month does not have (31/2, 29/2 in a common year): no timestamp. */
  lemma MissingDayHasNoStamp(fmt: Format, d: DateGroup, t: TimeGroup)
    requires 1 <= Decimal(d.month) <= 12 && Decimal(d.day) > DaysInMonth(Decimal(d.year), Decimal(d.month))
    ensures ConvertStamp(fmt, d, t) == None
  {
  }

  /** The derived columns are read off the timestamp, and are all missing when it is. */
  predicate Derived(r: MessageRecord) {
    match r.stamp
    case None => r.year == None && r.month == None && r.day == None && r.hour == None && r.minute == None
    case Some(st) =>
      && 1 <= st.date.month <= 12
      && r.year == Some(st.date.year)
      && r.month == Some(MonthName(st.date.month))
      && r.day == Some(DayOfWeek(st.date))
      && r.hour == Some(st.hour)
      && r.minute == Some(st.minute)
  }

  /** A match's sender survives the blank-sender filter when stripping leaves something. */
  predicate KeepsSender(m: Match) {
    Strip(m.sender) != []
  }

  /** The row built from the `k`-th match: its groups, the stripped sender, the
      converted timestamp and the columns derived from it. */
  function BuildRecord(fmt: Format, k: nat, m: Match): (r: MessageRecord)
    ensures r.index == k && r.date == m.date.Text() && r.time == m.time.Text() && r.message == m.body
    ensures r.user == Strip(m.sender)
    ensures r.stamp == ConvertStamp(fmt, m.date, m.time)
    ensures Derived(r)
  {
    var st := ConvertStamp(fmt, m.date, m.time);
    match st
    case None =>
      MessageRecord(k, m.date.Text(), m.time.Text(), Strip(m.sender), m.body, None, None, None, None, None, None)
    case Some(s) =>
      MessageRecord(k, m.date.Text(), m.time.Text(), Strip(m.sender), m.body, st,
                    Some(s.date.year), Some(MonthName(s.date.month)), Some(DayOfWeek(s.date)),
                    Some(s.hour), Some(s.minute))
  }

  /** The rows of the matches `ms`, in order: `build(k, ms[k])` for every match
      that `keep` accepts. */
  function Rows(ms: seq<Match>, keep: Match -> bool, build: (nat, Match) -> MessageRecord): seq<MessageRecord>
    decreases |ms|
  {
    if ms == [] then []
    else
      var k := |ms| - 1;
      Rows(ms[..k], keep, build) + (if keep(ms[k]) then [build(k, ms[k])] else [])
  }

  /** The positions of the kept matches, in order. */
  function KeptPositions(ms: seq<Match>, keep: Match -> bool): (ks: seq<nat>)
    ensures forall j | 0 <= j < |ks| :: ks[j] < |ms| && keep(ms[ks[j]])
    ensures forall a, b | 0 <= a < b < |ks| :: ks[a] < ks[b]
    ensures forall k | 0 <= k < |ms| && keep(ms[k]) :: k in ks
    decreases |ms|
  {
    if ms == [] then []
    else
      var k := |ms| - 1;
      var prev := KeptPositions(ms[..k], keep);
      assert forall i | 0 <= i < k :: ms[..k][i] == ms[i];
      prev + (if keep(ms[k]) then [k] else [])
  }

  /** The rows are the kept matches, one each, in text order: row `j` is built
      from the `j`-th kept position. */
  lemma {:induction false} RowsAreKeptMatches(ms: seq<Match>, keep: Match -> bool, build: (nat, Match) -> MessageRecord)
    ensures var rs := Rows(ms, keep, build);
      var ks := KeptPositions(ms, keep);
      |rs| == |ks| && forall j | 0 <= j < |rs| :: rs[j] == build(ks[j], ms[ks[j]])
    decreases |ms|
  {
    if ms != [] {
      var last := |ms| - 1;
      RowsAreKeptMatches(ms[..last], keep, build);
      var ks := KeptPositions(ms[..last], keep);
      forall j | 0 <= j < |ks| ensures ms[..last][ks[j]] == ms[ks[j]] { }
    }
  }

  /** At most one row per match. */
  lemma {:induction false} RowsAtMost(ms: seq<Match>, keep: Match -> bool, build: (nat, Match) -> MessageRecord)
    ensures |Rows(ms, keep, build)| <= |ms|
    decreases |ms|
  {
    if ms != [] {
      RowsAtMost(ms[..|ms| - 1], keep, build);
    }
  }

  /** With no match kept there are no rows. */
  lemma {:induction false} RowsOfNothingKept(ms: seq<Match>, keep: Match -> bool, build: (nat, Match) -> MessageRecord)
    requires forall m | m in ms :: !keep(m)
    ensures Rows(ms, keep, build) == []
    decreases |ms|
  {
    if ms != [] {
      RowsOfNothingKept(ms[..|ms| - 1], keep, build);
    }
  }

  function Builder(fmt: Format): (nat, Match) -> MessageRecord {
    (k: nat, m: Match) => BuildRecord(fmt, k, m)
  }

  /** The rows `preprocess` makes from matches of the format `fmt`. */
  function Records(fmt: Format, ms: seq<Match>): seq<MessageRecord> {
    Rows(ms, KeepsSender, Builder(fmt))
  }

  /** Every match `re.findall` returns is a match of the pattern. */
  lemma FindAllMatches(fmt: Format, s: string)
    ensures forall m | m in FindAll(fmt, s) :: IsMatch(fmt, s, m)
  {
    MatcherConsumes(fmt, s);
    ScanFound(Matcher(fmt, s), |s|, 0);
    forall m | m in FindAll(fmt, s) ensures IsMatch(fmt, s, m) {
      MatchAtCharacterised(fmt, s, m.start, m);
    }
  }

  /** The format `preprocess` settles on: 12-hour if that pattern matches anywhere,
      otherwise 24-hour if that one does, otherwise none. */
  function Detect(data: string): (r: Option<Format>)
    ensures r == Some(Hour12) <==> exists i: nat :: MatchAt(Hour12, data, i).Some?
    ensures r == None <==> forall i: nat :: MatchAt(Hour12, data, i) == None && MatchAt(Hour24, data, i) == None
  {
    FindAllEmpty(Hour12, data);
    FindAllEmpty(Hour24, data);
    if FindAll(Hour12, data) != [] then Some(Hour12)
    else if FindAll(Hour24, data) != [] then Some(Hour24)
    else None
  }

  /** The table `preprocess(data)` returns, row by row. */
  function Parse(data: string): (rs: seq<MessageRecord>)
    ensures Detect(data) == None ==> rs == []
    ensures Detect(data).Some? ==> |rs| <= |FindAll(Detect(data).value, data)|
  {
    match Detect(data)
    case None => []
    case Some(fmt) =>
      RowsAtMost(FindAll(fmt, data), KeepsSender, Builder(fmt));
      Records(fmt, FindAll(fmt, data))
  }

  /** Row `j` of the table is built from the `j`-th match, in text order, whose
      sender is not blank; no other match gives a row. */
  lemma ParseRowsAreKeptMatches(data: string, fmt: Format)
    requires Detect(data) == Some(fmt)
    ensures var ms := FindAll(fmt, data);
      var ks := KeptPositions(ms, KeepsSender);
      var rs := Parse(data);
      |rs| == |ks| && forall j | 0 <= j < |rs| :: rs[j] == BuildRecord(fmt, ks[j], ms[ks[j]])
  {
    RowsAreKeptMatches(FindAll(fmt, data), KeepsSender, Builder(fmt));
  }

  /** The 12-hour reading is final once its pattern matches anywhere: when all its
      matches have blank senders the table is empty, even if the 24-hour pattern
      matches lines with real senders. */
  lemma NoFallbackToTwentyFourHour(data: string)
    requires FindAll(Hour12, data) != []
    requires forall m | m in FindAll(Hour12, data) :: !KeepsSender(m)
    ensures Parse(data) == []
  {
    RowsOfNothingKept(FindAll(Hour12, data), KeepsSender, Builder(Hour12));
  }

  /** Text in which neither pattern matches gives an empty table. */
  lemma NoHeaderNoRows(data: string)
    requires forall i: nat :: MatchAt(Hour12, data, i) == None && MatchAt(Hour24, data, i) == None
    ensures Parse(data) == []
  {
    MatcherConsumes(Hour12, data);
    MatcherConsumes(Hour24, data);
    FindAllCharacterised(Hour12, data, []);
    FindAllCharacterised(Hour24, data, []);
  }

  /** Stripping keeps a slice of the text, so it adds no character. */
  lemma StripHasNo(s: string, c: char)
    requires c !in s
    ensures c !in Strip(s)
  {
    var a := StripStart(s);
    assert Strip(s) == s[a..a + |Strip(s)|];
  }

  /** What every row of the table satisfies: a non-empty sender, already stripped
      (so the second strip and blank filter change nothing) and free of colons; a
      non-empty one-line message; and the derived columns agree with the timestamp,
      which, when present, is a real date and time within pandas' range. */
  lemma ParseRowFacts(data: string, r: MessageRecord)
    requires r in Parse(data)
    ensures r.user != [] && Strip(r.user) == r.user && ':' !in r.user
    ensures r.date != [] && IsDigit(r.date[0])
    ensures r.message != [] && '\n' !in r.message
    ensures Derived(r)
    ensures r.stamp.Some? ==>
      (IsValidDate(r.stamp.value.date) && InBounds(r.stamp.value) && r.stamp.value.hour < 24 && r.stamp.value.minute < 60)
  {
    var fmt := Detect(data).value;
    var ms := FindAll(fmt, data);
    var ks := KeptPositions(ms, KeepsSender);
    ParseRowsAreKeptMatches(data, fmt);
    var j :| 0 <= j < |Parse(data)| && Parse(data)[j] == r;
    MatchAtCharacterised(fmt, data, ms[ks[j]].start, ms[ks[j]]);
    RowOfMatchFacts(fmt, data, ks[j], ms[ks[j]]);
  }

  /** The facts of `ParseRowFacts` for the row of one kept match. */
  lemma RowOfMatchFacts(fmt: Format, data: string, k: nat, m: Match)
    requires IsMatch(fmt, data, m) && KeepsSender(m)
    ensures var r := BuildRecord(fmt, k, m);
      && r.user != [] && Strip(r.user) == r.user && ':' !in r.user
      && r.date != [] && IsDigit(r.date[0])
      && r.message != [] && '\n' !in r.message
      && Derived(r)
      && (r.stamp.Some? ==>
        (IsValidDate(r.stamp.value.date) && InBounds(r.stamp.value) && r.stamp.value.hour < 24 && r.stamp.value.minute < 60))
  {
    StripHasNo(m.sender, ':');
    StripIdempotent(m.sender);
    assert m.date.Text()[0] == m.date.day[0];
  }

  lemma ParseDatesStartWithDigit(data: string)
    ensures forall r | r in Parse(data) :: r.date != [] && IsDigit(r.date[0])
  {
    forall r | r in Parse(data) ensures r.date != [] && IsDigit(r.date[0]) {
      ParseRowFacts(data, r);
    }
  }

  /** A text that is one whole match yields that match alone. */
  lemma SingleMatch(fmt: Format, data: string, m: Match)
    requires IsMatch(fmt, data, m) && m.start == 0 && m.end == |data|
    ensures FindAll(fmt, data) == [m]
  {
    MatchAtFinds(fmt, data, m);
    MatcherConsumes(fmt, data);
    ScanOne(Matcher(fmt, data), |data|, m);
  }

  lemma ScanOne(at: nat -> Option<Match>, n: nat, m: Match)
    requires Consumes(at, n) && at(0) == Some(m) && m.end == n
    ensures ScanFrom(at, n, 0) == [m]
  {
  }

  /** The table of a text that is one whole match with a non-blank sender is that
      match's row. */
  lemma SingleRow(fmt: Format, data: string, m: Match)
    requires FindAll(fmt, data) == [m] && KeepsSender(m)
    requires fmt == Hour24 ==> FindAll(Hour12, data) == []
    ensures Parse(data) == [BuildRecord(fmt, 0, m)]
  {
    var ms := FindAll(fmt, data);
    assert Parse(data) == Records(fmt, ms);
    assert ms[..0] == [];
    assert Rows(ms, KeepsSender, Builder(fmt)) == [Builder(fmt)(0, m)];
  }

  const ExampleLine: string := "1/2/2023, 9:05 PM - Al: Hi"
  const ExampleMatch: Match :=
    Match(0, 26, DateGroup("1", "2", "2023"), TimeGroup("9", "05", " ", "PM"), "Al", "Hi")

  lemma ExampleHeaderText()
    ensures HeaderText(ExampleMatch.date, ExampleMatch.time) == "1/2/2023, 9:05 PM - "
  {
    assert ExampleMatch.date.Text() == "1/2/2023";
    assert ExampleMatch.time.Text() == "9:05 PM";
  }

  lemma ExampleLineMatches()
    ensures FindAll(Hour12, ExampleLine) == [ExampleMatch]
  {
    ExampleHeaderText();
    assert ExampleMatch.Text() == ExampleLine;
    SingleMatch(Hour12, ExampleLine, ExampleMatch);
  }

  /** The range limits in minutes. */
  lemma BoundsValues()
    ensures EarliestMinutes == 612411 * 1440 + 13 && LatestMinutes == 825914 * 1440 + 1427
  {
    assert Ordinal(CivilDate(1677, 9, 21)) == 612411;
    assert Ordinal(CivilDate(2262, 4, 11)) == 825914;
  }

  lemma ExampleStamp()
    ensures ConvertStamp(Hour12, ExampleMatch.date, ExampleMatch.time) == Some(Stamp(CivilDate(2023, 2, 1), 21, 5))
  {
    assert Decimal("2023") == 2023 by {
      assert "2023"[..3] == "202" && "202"[..2] == "20" && "20"[..1] == "2" && "2"[..0] == [];
    }
    assert Decimal("1") == 1 && Decimal("2") == 2 by {
      assert "1"[..0] == [] && "2"[..0] == [];
    }
    assert Decimal("9") == 9 by {
      assert "9"[..0] == [];
    }
    DecimalTwo("05");
    BoundsValues();
    assert Ordinal(CivilDate(2023, 2, 1)) == 738552;
  }

  lemma StripAl()
    ensures Strip("Al") == "Al"
  {
    StripTrimmed("Al");
  }

  lemma ExampleRecord()
    ensures var r := BuildRecord(Hour12, 0, ExampleMatch);
      && r.user == "Al" && r.message == "Hi"
      && r.year == Some(2023) && r.month == Some("February") && r.day == Some(Wednesday)
      && r.hour == Some(21) && r.minute == Some(5)
  {
    ExampleStamp();
    FirstOfFebruary2023();
    assert MonthName(2) == "February";
    StripAl();
    RecordOfStamp(Hour12, 0, ExampleMatch, Stamp(CivilDate(2023, 2, 1), 21, 5), "February", Wednesday);
  }

  /** The columns of a row whose timestamp converts to `st`, on a day named `w`
      in a month named `name`. */
  lemma RecordOfStamp(fmt: Format, k: nat, m: Match, st: Stamp, name: string, w: Weekday)
    requires ConvertStamp(fmt, m.date, m.time) == Some(st)
    requires 1 <= st.date.month <= 12 && MonthName(st.date.month) == name && DayOfWeek(st.date) == w
    ensures var r := BuildRecord(fmt, k, m);
      && r.user == Strip(m.sender) && r.message == m.body
      && r.year == Some(st.date.year) && r.month == Some(name) && r.day == Some(w)
      && r.hour == Some(st.hour) && r.minute == Some(st.minute)
  {
    assert Derived(BuildRecord(fmt, k, m));
  }

  /** `1/2/2023, 9:05 PM - Al: Hi` is one row: Wednesday 1 February 2023, 21:05,
      from Al. */
  lemma ExampleTwelveHourLine()
    ensures var rs := Parse(ExampleLine);
      && |rs| == 1 && rs[0].user == "Al" && rs[0].message == "Hi"
      && rs[0].year == Some(2023) && rs[0].month == Some("February") && rs[0].day == Some(Wednesday)
      && rs[0].hour == Some(21) && rs[0].minute == Some(5)
  {
    ExampleLineMatches();
    ExampleRecord();
    SingleRow(Hour12, ExampleLine, ExampleMatch);
  }

  const ShortYearLine: string := "1/2/23, 9:05 PM - Al: Hi"
  const ShortYearMatch: Match :=
    Match(0, 24, DateGroup("1", "2", "23"), TimeGroup("9", "05", " ", "PM"), "Al", "Hi")

  lemma ShortYearHeaderText()
    ensures HeaderText(ShortYearMatch.date, ShortYearMatch.time) == "1/2/23, 9:05 PM - "
  {
    assert ShortYearMatch.date.Text() == "1/2/23";
    assert ShortYearMatch.time.Text() == "9:05 PM";
  }

  lemma ShortYearLineMatches()
    ensures FindAll(Hour12, ShortYearLine) == [ShortYearMatch]
  {
    ShortYearHeaderText();
    assert ShortYearMatch.Text() == ShortYearLine;
    SingleMatch(Hour12, ShortYearLine, ShortYearMatch);
  }

  /** `1/2/23, 9:05 PM - Al: Hi` is kept as a row from Al, but `%Y` wants four
      digits, so it has no timestamp and no derived columns. */
  lemma ExampleTwoDigitYear()
    ensures var rs := Parse(ShortYearLine);
      && |rs| == 1 && rs[0].user == "Al" && rs[0].stamp == None && rs[0].day == None
  {
    ShortYearLineMatches();
    StripAl();
    SingleRow(Hour12, ShortYearLine, ShortYearMatch);
  }

  /** `preprocess`: scan with both patterns, choose the format, then build the rows. */
  method Preprocess(data: string) returns (records: seq<MessageRecord>)
    ensures records == Parse(data)
  {
    MatcherConsumes(Hour12, data);
    MatcherConsumes(Hour24, data);
    var matches12 := Scan(Matcher(Hour12, data), |data|);
    var matches24 := Scan(Matcher(Hour24, data), |data|);
    if matches12 != [] {
      records := CollectRows(matches12, KeepsSender, Builder(Hour12));
    } else if matches24 != [] {
      records := CollectRows(matches24, KeepsSender, Builder(Hour24));
    } else {
      records := [];
    }
  }

  /** The row-building loop: one row per kept match, appended in text order. */
  method CollectRows(ms: seq<Match>, keep: Match -> bool, build: (nat, Match) -> MessageRecord) returns (rows: seq<MessageRecord>)
    ensures rows == Rows(ms, keep, build)
  {
    rows := [];
    var k := 0;
    while k < |ms|
      invariant k <= |ms|
      invariant rows == Rows(ms[..k], keep, build)
    {
      assert ms[..k + 1][..k] == ms[..k];
      if keep(ms[k]) {
        rows := rows + [build(k, ms[k])];
      }
      k := k + 1;
    }
    assert ms[..k] == ms;
  }
}
