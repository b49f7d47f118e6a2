/**
 * The two message-header patterns of preprocessor.py and `re.findall` over them.
 *
 *   12-hour: (\d{1,2}/\d{1,2}/\d{2,4}), (\d{1,2}:\d{2}\s?[APap][Mm]) - ([^:]+): (.+)
 *   24-hour: (\d{1,2}/\d{1,2}/\d{2,4}), (\d{2}:\d{2}) - ([^:]+): (.+)
 *
 * Every piece of either pattern can match in at most one way at a given
 * position (each digit run is followed by a non-digit, `[^:]+` has to stop at
 * the first colon, `.+` runs to the end of the line), so backtracking never
 * changes the outcome and a match attempt is a function of the position.
 */
module LineGrammar {
  import opened Wrappers
  import opened Text

  datatype Format = Hour12 | Hour24

  /** The Date group, `d/m/y`, split into its fields. */
  datatype DateGroup = DateGroup(day: string, month: string, year: string) {
    function Text(): string { day + "/" + month + "/" + year }
  }

  /** The Time group, `h:mm`, optional whitespace and AM/PM, or `hh:mm`, split into its fields. */
  datatype TimeGroup = TimeGroup(hour: string, minute: string, gap: string, meridiem: string) {
    function Text(): string { hour + ":" + minute + gap + meridiem }
  }

  /** One findall result: the four groups Date, Time, User and Message, and where the match lies. */
  datatype Match = Match(start: nat, end: nat, date: DateGroup, time: TimeGroup, sender: string, body: string) {
    /** Everything the pattern consumed. */
    function Text(): string { HeaderText(date, time) + sender + ": " + body }
  }

  /** A matched piece of text and the position just past it (and its delimiter). */
  datatype Piece = Piece(text: string, next: nat)

  predicate AllDigits(s: string) { forall k | 0 <= k < |s| :: IsDigit(s[k]) }

  predicate IsMeridiem(s: string) { |s| == 2 && s[0] in "APap" && s[1] in "Mm" }

  predicate NotColon(c: char) { c != ':' }

  predicate NotNewline(c: char) { c != '\n' }

  predicate DateShaped(d: DateGroup) {
    && 1 <= |d.day| <= 2 && AllDigits(d.day)
    && 1 <= |d.month| <= 2 && AllDigits(d.month)
    && 2 <= |d.year| <= 4 && AllDigits(d.year)
  }

  predicate TimeShaped(fmt: Format, t: TimeGroup) {
    && (if fmt == Hour12 then 1 <= |t.hour| <= 2 else |t.hour| == 2) && AllDigits(t.hour)
    && |t.minute| == 2 && AllDigits(t.minute)
    && (fmt == Hour12 ==> |t.gap| <= 1 && AllSpace(t.gap) && IsMeridiem(t.meridiem))
    && (fmt == Hour24 ==> t.gap == [] && t.meridiem == [])
  }

  /** The shape of the groups of every match of `fmt`'s pattern. */
  predicate WellShaped(fmt: Format, m: Match) {
    && DateShaped(m.date)
    && TimeShaped(fmt, m.time)
    && m.sender != [] && ':' !in m.sender
    && m.body != [] && '\n' !in m.body
  }

  /** `s` holds `text` at `i`, followed by the literal `delim`, which ends at `next`. */
  predicate Spelled(s: string, i: nat, text: string, delim: string, next: nat) {
    && next == i + |text| + |delim| <= |s|
    && s[i..i + |text|] == text && s[i + |text|..next] == delim
  }

  /** `\d{lo,hi}` followed by `delim`. */
  function DigitsThen(s: string, i: nat, lo: nat, hi: nat, delim: string): (r: Option<Piece>)
    requires i <= |s|
    ensures r.Some? ==> lo <= |r.value.text| <= hi && AllDigits(r.value.text) && Spelled(s, i, r.value.text, delim, r.value.next)
  {
    var n := RunLength(s, i, IsDigit);
    if lo <= n <= hi && OccursAt(s, i + n, delim) then Some(Piece(s[i..i + n], i + n + |delim|))
    else None
  }

  /** `\d{2}`. */
  function TwoDigits(s: string, i: nat): (r: Option<Piece>)
    requires i <= |s|
    ensures r.Some? ==> |r.value.text| == 2 && AllDigits(r.value.text) && Spelled(s, i, r.value.text, [], r.value.next)
  {
    if i + 2 <= |s| && IsDigit(s[i]) && IsDigit(s[i + 1]) then Some(Piece(s[i..i + 2], i + 2)) else None
  }

  /** `\s?`: one whitespace character if there is one. */
  function Gap(s: string, i: nat): (r: Piece)
    requires i <= |s|
    ensures |r.text| <= 1 && AllSpace(r.text) && Spelled(s, i, r.text, [], r.next)
  {
    if i < |s| && IsSpace(s[i]) then Piece(s[i..i + 1], i + 1) else Piece([], i)
  }

  /** `[APap][Mm]`. */
  function MeridiemAt(s: string, i: nat): (r: Option<Piece>)
    requires i <= |s|
    ensures r.Some? ==> IsMeridiem(r.value.text) && Spelled(s, i, r.value.text, [], r.value.next)
  {
    if i + 2 <= |s| && IsMeridiem(s[i..i + 2]) then Some(Piece(s[i..i + 2], i + 2)) else None
  }

  /** `([^:]+): ` — the sender runs up to the first colon, which must be followed by a space. */
  function SenderThen(s: string, i: nat): (r: Option<Piece>)
    requires i <= |s|
    ensures r.Some? ==> r.value.text != [] && ':' !in r.value.text && Spelled(s, i, r.value.text, ": ", r.value.next)
  {
    var n := RunLength(s, i, NotColon);
    if n >= 1 && OccursAt(s, i + n, ": ") then Some(Piece(s[i..i + n], i + n + 2))
    else None
  }

  /** `(.+)` — the rest of the line, at least one character. */
  function Body(s: string, i: nat): (r: Option<Piece>)
    requires i <= |s|
    ensures r.Some? ==> var p := r.value;
      && p.text != [] && '\n' !in p.text
      && Spelled(s, i, p.text, [], p.next)
      && (p.next == |s| || s[p.next] == '\n')
  {
    var n := RunLength(s, i, NotNewline);
    if n >= 1 then Some(Piece(s[i..i + n], i + n)) else None
  }

  /** The fields of a Date group and the slashes between them, laid end to end, spell it. */
  lemma DateText(s: string, i: nat, p: nat, q: nat, e: nat, d: DateGroup)
    requires Spelled(s, i, d.day, "/", p) && Spelled(s, p, d.month, "/", q) && Spelled(s, q, d.year, ", ", e)
    ensures Spelled(s, i, d.Text(), ", ", e)
  {
    var a := i + |d.day|;
    var b := p + |d.month|;
    Glue(s, i, a, p, d.day, "/");
    Glue(s, i, p, b, d.day + "/", d.month);
    Glue(s, i, b, q, d.day + "/" + d.month, "/");
    Glue(s, i, q, e - 2, d.day + "/" + d.month + "/", d.year);
  }

  /** Two adjacent slices that spell `a` and `b` spell `a + b` together. */
  lemma Glue(s: string, i: nat, m: nat, e: nat, a: string, b: string)
    requires i <= m <= e <= |s| && s[i..m] == a && s[m..e] == b
    ensures s[i..e] == a + b
  {
    assert s[i..e] == s[i..m] + s[m..e];
  }

  /** `(\d{1,2}/\d{1,2}/\d{2,4}), ` at `i`: the Date group and the position after the comma and space. */
  function DateAt(s: string, i: nat): (r: Option<(DateGroup, nat)>)
    requires i <= |s|
    ensures r.Some? ==> DateShaped(r.value.0) && Spelled(s, i, r.value.0.Text(), ", ", r.value.1)
  {
    var day :- DigitsThen(s, i, 1, 2, "/");
    var month :- DigitsThen(s, day.next, 1, 2, "/");
    var year :- DigitsThen(s, month.next, 2, 4, ", ");
    var d := DateGroup(day.text, month.text, year.text);
    DateText(s, i, day.next, month.next, year.next, d);
    Some((d, year.next))
  }

  /** The fields of a Time group laid end to end spell it. */
  lemma TimeText(s: string, i: nat, p: nat, q: nat, g: nat, e: nat, t: TimeGroup)
    requires Spelled(s, i, t.hour, ":", p) && Spelled(s, p, t.minute, [], q)
    requires Spelled(s, q, t.gap, [], g) && Spelled(s, g, t.meridiem, [], e) && OccursAt(s, e, " - ")
    ensures Spelled(s, i, t.Text(), " - ", e + 3)
  {
    var a := i + |t.hour|;
    assert q == p + |t.minute| && g == q + |t.gap| && e == g + |t.meridiem|;
    assert s[p..q] == t.minute && s[q..g] == t.gap && s[g..e] == t.meridiem;
    Glue(s, i, a, p, t.hour, ":");
    Glue(s, i, p, q, t.hour + ":", t.minute);
    Glue(s, i, q, g, t.hour + ":" + t.minute, t.gap);
    Glue(s, i, g, e, t.hour + ":" + t.minute + t.gap, t.meridiem);
  }

  /** The Time group and ` - ` at `i`, and the position after them. */
  function TimeAt(fmt: Format, s: string, i: nat): (r: Option<(TimeGroup, nat)>)
    requires i <= |s|
    ensures r.Some? ==> TimeShaped(fmt, r.value.0) && Spelled(s, i, r.value.0.Text(), " - ", r.value.1)
  {
    var hour :- DigitsThen(s, i, if fmt == Hour12 then 1 else 2, 2, ":");
    var minute :- TwoDigits(s, hour.next);
    var gap := if fmt == Hour12 then Gap(s, minute.next) else Piece([], minute.next);
    var mer :- if fmt == Hour12 then MeridiemAt(s, gap.next) else Some(Piece([], gap.next));
    if !OccursAt(s, mer.next, " - ") then None
    else
      var t := TimeGroup(hour.text, minute.text, gap.text, mer.text);
      assert Spelled(s, minute.next, t.gap, [], gap.next) && Spelled(s, gap.next, t.meridiem, [], mer.next);
      assert TimeShaped(fmt, t);
      TimeText(s, i, hour.next, minute.next, gap.next, mer.next, t);
      Some((t, mer.next + 3))
  }

  /** The text before the sender: `d/m/y, time - `. */
  function HeaderText(d: DateGroup, t: TimeGroup): string {
    d.Text() + ", " + t.Text() + " - "
  }

  /** A Date group, `, `, a Time group and ` - ` laid end to end spell the header. */
  lemma HeaderGlue(s: string, i: nat, p: nat, q: nat, d: DateGroup, t: TimeGroup)
    requires Spelled(s, i, d.Text(), ", ", p) && Spelled(s, p, t.Text(), " - ", q)
    ensures Spelled(s, i, HeaderText(d, t), [], q)
  {
    var a := i + |d.Text()|;
    var b := p + |t.Text()|;
    Glue(s, i, a, p, d.Text(), ", ");
    Glue(s, i, p, b, d.Text() + ", ", t.Text());
    Glue(s, i, b, q, d.Text() + ", " + t.Text(), " - ");
  }

  /** The Date and Time groups and the literals after them, and the position where the sender begins. */
  function HeaderAt(fmt: Format, s: string, i: nat): (r: Option<(DateGroup, TimeGroup, nat)>)
    requires i <= |s|
    ensures r.Some? ==> var h := r.value;
      DateShaped(h.0) && TimeShaped(fmt, h.1) && Spelled(s, i, HeaderText(h.0, h.1), [], h.2)
  {
    var date :- DateAt(s, i);
    var time :- TimeAt(fmt, s, date.1);
    HeaderGlue(s, i, date.1, time.1, date.0, time.0);
    Some((date.0, time.0, time.1))
  }

  /** A header, a sender, `: ` and a body laid end to end spell the match. */
  lemma MatchText(s: string, j: nat, n: nat, m: Match)
    requires Spelled(s, m.start, HeaderText(m.date, m.time), [], j)
    requires Spelled(s, j, m.sender, ": ", n) && Spelled(s, n, m.body, [], m.end)
    ensures s[m.start..m.end] == m.Text()
  {
    var h := HeaderText(m.date, m.time);
    var a := j + |m.sender|;
    Glue(s, m.start, j, a, h, m.sender);
    Glue(s, m.start, a, n, h + m.sender, ": ");
    Glue(s, m.start, n, m.end, h + m.sender + ": ", m.body);
  }

  /** The match of `fmt`'s pattern that starts exactly at `i`, if there is one: what it
      consumed is its groups joined by the pattern's literals, and it ends at a line end. */
  function MatchAt(fmt: Format, s: string, i: nat): (r: Option<Match>)
    ensures r.Some? ==> var m := r.value;
      && m.start == i < m.end <= |s|
      && WellShaped(fmt, m)
      && s[i..m.end] == m.Text()
      && (m.end == |s| || s[m.end] == '\n')
  {
    if i > |s| then None
    else
      var header :- HeaderAt(fmt, s, i);
      var sender :- SenderThen(s, header.2);
      var body :- Body(s, sender.next);
      var m := Match(i, body.next, header.0, header.1, sender.text, body.text);
      MatchText(s, header.2, sender.next, m);
      Some(m)
  }

  /** What a match of `fmt`'s pattern at `m.start` is, independently of how one is found:
      well-shaped groups, joined by the pattern's literals, spelled out in `s` up to a line end. */
  predicate IsMatch(fmt: Format, s: string, m: Match) {
    && WellShaped(fmt, m)
    && m.end == m.start + |m.Text()| <= |s|
    && s[m.start..m.end] == m.Text()
    && (m.end == |s| || s[m.end] == '\n')
  }

  /** A slice that spells `a + b` spells `a` and then `b`. */
  lemma Split(s: string, i: nat, e: nat, a: string, b: string)
    requires e == i + |a| + |b| <= |s| && s[i..e] == a + b
    ensures s[i..i + |a|] == a && s[i + |a|..e] == b
  {
    assert s[i..i + |a|] == s[i..e][..|a|];
    assert s[i + |a|..e] == s[i..e][|a|..];
  }

  lemma DateSplit(s: string, i: nat, d: DateGroup, e: nat)
    requires Spelled(s, i, d.Text(), ", ", e)
    ensures var p := i + |d.day| + 1; var q := p + |d.month| + 1;
      Spelled(s, i, d.day, "/", p) && Spelled(s, p, d.month, "/", q) && Spelled(s, q, d.year, ", ", e)
  {
    var p := i + |d.day| + 1;
    var q := p + |d.month| + 1;
    var a1 := d.day + "/";
    var a2 := a1 + d.month;
    var a3 := a2 + "/";
    assert d.Text() == a3 + d.year;
    assert |a1| == p - i && |a2| == q - 1 - i && |a3| == q - i && e - 2 == q + |d.year|;
    Split(s, i, e - 2, a3, d.year);
    Split(s, i, q, a2, "/");
    Split(s, i, q - 1, a1, d.month);
    Split(s, i, p, d.day, "/");
  }

  lemma TimeSplit(s: string, i: nat, t: TimeGroup, e: nat)
    requires Spelled(s, i, t.Text(), " - ", e)
    ensures var p := i + |t.hour| + 1; var q := p + |t.minute|; var g := q + |t.gap|;
      && Spelled(s, i, t.hour, ":", p) && Spelled(s, p, t.minute, [], q)
      && Spelled(s, q, t.gap, [], g) && Spelled(s, g, t.meridiem, [], e - 3) && OccursAt(s, e - 3, " - ")
  {
    var p := i + |t.hour| + 1;
    var q := p + |t.minute|;
    var g := q + |t.gap|;
    var a1 := t.hour + ":";
    var a2 := a1 + t.minute;
    var a3 := a2 + t.gap;
    assert t.Text() == a3 + t.meridiem;
    assert |a1| == p - i && |a2| == q - i && |a3| == g - i && e - 3 == g + |t.meridiem|;
    Split(s, i, e - 3, a3, t.meridiem);
    Split(s, i, g, a2, t.gap);
    Split(s, i, q, a1, t.minute);
    Split(s, i, p, t.hour, ":");
  }

  lemma HeaderSplit(s: string, i: nat, d: DateGroup, t: TimeGroup, j: nat)
    requires Spelled(s, i, HeaderText(d, t), [], j)
    ensures var p := i + |d.Text()| + 2; Spelled(s, i, d.Text(), ", ", p) && Spelled(s, p, t.Text(), " - ", j)
  {
    var p := i + |d.Text()| + 2;
    Split(s, i, j, d.Text() + ", " + t.Text(), " - ");
    Split(s, i, j - 3, d.Text() + ", ", t.Text());
    Split(s, i, p, d.Text(), ", ");
  }

  lemma MatchSplit(s: string, m: Match)
    requires m.end == m.start + |m.Text()| <= |s| && s[m.start..m.end] == m.Text()
    ensures var j := m.start + |HeaderText(m.date, m.time)|; var n := j + |m.sender| + 2;
      && Spelled(s, m.start, HeaderText(m.date, m.time), [], j)
      && Spelled(s, j, m.sender, ": ", n) && Spelled(s, n, m.body, [], m.end)
  {
    var h := HeaderText(m.date, m.time);
    var j := m.start + |h|;
    var n := j + |m.sender| + 2;
    Split(s, m.start, m.end, h + m.sender + ": ", m.body);
    Split(s, m.start, n, h + m.sender, ": ");
    Split(s, m.start, n - 2, h, m.sender);
  }

  /** A digit run of the right length, followed by a delimiter that does not begin
      with a digit, is what `DigitsThen` reads. */
  lemma DigitsThenFinds(s: string, i: nat, lo: nat, hi: nat, delim: string, t: string, next: nat)
    requires lo <= |t| <= hi && AllDigits(t) && Spelled(s, i, t, delim, next)
    requires delim != [] && !IsDigit(delim[0])
    ensures DigitsThen(s, i, lo, hi, delim) == Some(Piece(t, next))
  {
    assert s[i + |t|] == delim[0];
    RunLengthUnique(s, i, IsDigit, |t|);
  }

  lemma DateAtFinds(s: string, i: nat, d: DateGroup, e: nat)
    requires DateShaped(d) && Spelled(s, i, d.Text(), ", ", e)
    ensures DateAt(s, i) == Some((d, e))
  {
    DateSplit(s, i, d, e);
    var p := i + |d.day| + 1;
    var q := p + |d.month| + 1;
    DigitsThenFinds(s, i, 1, 2, "/", d.day, p);
    DigitsThenFinds(s, p, 1, 2, "/", d.month, q);
    DigitsThenFinds(s, q, 2, 4, ", ", d.year, e);
  }

  lemma MeridiemFinds(s: string, q: nat, gap: string, g: nat, meridiem: string, e: nat)
    requires |gap| <= 1 && AllSpace(gap) && IsMeridiem(meridiem)
    requires Spelled(s, q, gap, [], g) && Spelled(s, g, meridiem, [], e)
    ensures Gap(s, q) == Piece(gap, g) && MeridiemAt(s, g) == Some(Piece(meridiem, e))
  {
    if gap == [] {
      assert s[q] == meridiem[0];
    } else {
      assert s[q] == gap[0];
    }
  }

  lemma TwoDigitsFinds(s: string, p: nat, t: string, q: nat)
    requires |t| == 2 && AllDigits(t) && Spelled(s, p, t, [], q)
    ensures TwoDigits(s, p) == Some(Piece(t, q))
  {
    assert s[p] == t[0] && s[p + 1] == t[1];
  }

  lemma TimeAtFindsParts(fmt: Format, s: string, i: nat, t: TimeGroup, p: nat, q: nat, g: nat, e: nat)
    requires TimeShaped(fmt, t)
    requires Spelled(s, i, t.hour, ":", p) && Spelled(s, p, t.minute, [], q)
    requires Spelled(s, q, t.gap, [], g) && Spelled(s, g, t.meridiem, [], e) && OccursAt(s, e, " - ")
    ensures TimeAt(fmt, s, i) == Some((t, e + 3))
  {
    DigitsThenFinds(s, i, if fmt == Hour12 then 1 else 2, 2, ":", t.hour, p);
    TwoDigitsFinds(s, p, t.minute, q);
    if fmt == Hour12 {
      MeridiemFinds(s, q, t.gap, g, t.meridiem, e);
    }
  }

  lemma TimeAtFinds(fmt: Format, s: string, i: nat, t: TimeGroup, e: nat)
    requires TimeShaped(fmt, t) && Spelled(s, i, t.Text(), " - ", e)
    ensures TimeAt(fmt, s, i) == Some((t, e))
  {
    var p := i + |t.hour| + 1;
    var q := p + |t.minute|;
    var g := q + |t.gap|;
    var m := e - 3;
    TimeSplit(s, i, t, e);
    assert Spelled(s, g, t.meridiem, [], m) && OccursAt(s, m, " - ");
    TimeAtFindsParts(fmt, s, i, t, p, q, g, m);
    assert m + 3 == e;
  }

  lemma SenderThenFinds(s: string, i: nat, sender: string, next: nat)
    requires sender != [] && ':' !in sender && Spelled(s, i, sender, ": ", next)
    ensures SenderThen(s, i) == Some(Piece(sender, next))
  {
    assert s[i + |sender|] == ':';
    forall k | i <= k < i + |sender| ensures NotColon(s[k]) {
      assert s[k] == sender[k - i];
    }
    RunLengthUnique(s, i, NotColon, |sender|);
  }

  lemma BodyFinds(s: string, i: nat, body: string, next: nat)
    requires body != [] && '\n' !in body && Spelled(s, i, body, [], next)
    requires next == |s| || s[next] == '\n'
    ensures Body(s, i) == Some(Piece(body, next))
  {
    forall k | i <= k < i + |body| ensures NotNewline(s[k]) {
      assert s[k] == body[k - i];
    }
    RunLengthUnique(s, i, NotNewline, |body|);
  }

  lemma HeaderAtFinds(fmt: Format, s: string, i: nat, d: DateGroup, t: TimeGroup, j: nat)
    requires DateShaped(d) && TimeShaped(fmt, t) && Spelled(s, i, HeaderText(d, t), [], j)
    ensures HeaderAt(fmt, s, i) == Some((d, t, j))
  {
    HeaderSplit(s, i, d, t, j);
    HeaderAtFindsParts(fmt, s, i, d, t, i + |d.Text()| + 2, j);
  }

  lemma HeaderAtFindsParts(fmt: Format, s: string, i: nat, d: DateGroup, t: TimeGroup, p: nat, j: nat)
    requires DateShaped(d) && TimeShaped(fmt, t)
    requires Spelled(s, i, d.Text(), ", ", p) && Spelled(s, p, t.Text(), " - ", j)
    ensures HeaderAt(fmt, s, i) == Some((d, t, j))
  {
    DateAtFinds(s, i, d, p);
    TimeAtFinds(fmt, s, p, t, j);
  }

  /** A well-shaped header, sender and body laid out in `s` are what `MatchAt` reads. */
  lemma MatchAtFindsParts(fmt: Format, s: string, m: Match, j: nat, n: nat)
    requires WellShaped(fmt, m) && Spelled(s, m.start, HeaderText(m.date, m.time), [], j)
    requires Spelled(s, j, m.sender, ": ", n) && Spelled(s, n, m.body, [], m.end)
    requires m.end == |s| || s[m.end] == '\n'
    ensures MatchAt(fmt, s, m.start) == Some(m)
  {
    HeaderAtFinds(fmt, s, m.start, m.date, m.time, j);
    SenderThenFinds(s, j, m.sender, n);
    BodyFinds(s, n, m.body, m.end);
  }

  /** Every match of the pattern is found by `MatchAt` at its start. */
  lemma MatchAtFinds(fmt: Format, s: string, m: Match)
    requires IsMatch(fmt, s, m)
    ensures MatchAt(fmt, s, m.start) == Some(m)
  {
    MatchSplit(s, m);
    var j := m.start + |HeaderText(m.date, m.time)|;
    MatchAtFindsParts(fmt, s, m, j, j + |m.sender| + 2);
  }

  /** `MatchAt` finds exactly the matches of the pattern. */
  lemma MatchAtCharacterised(fmt: Format, s: string, i: nat, m: Match)
    ensures MatchAt(fmt, s, i) == Some(m) <==> m.start == i && IsMatch(fmt, s, m)
  {
    if m.start == i && IsMatch(fmt, s, m) {
      MatchAtFinds(fmt, s, m);
    }
  }

  /** The match attempt of `fmt`'s pattern, as a function of the start position. */
  function Matcher(fmt: Format, s: string): nat -> Option<Match> {
    (i: nat) => MatchAt(fmt, s, i)
  }

  /**
   * A matcher over a text of length `n`: the match it finds at `i`, if any,
   * starts at `i` and ends, strictly later, within the text.
   */
  ghost predicate Consumes(at: nat -> Option<Match>, n: nat) {
    forall i: nat :: at(i).Some? ==> at(i).value.start == i < at(i).value.end <= n
  }

  lemma MatcherConsumes(fmt: Format, s: string)
    ensures Consumes(Matcher(fmt, s), |s|)
  {
  }

  /** `re.findall` from position `pos` on, positions kept: try each start position in
      turn and, after a match, go on from where it ended. */
  function ScanFrom(at: nat -> Option<Match>, n: nat, pos: nat): (ms: seq<Match>)
    requires pos <= n && Consumes(at, n)
    decreases n - pos
  {
    if pos == n then []
    else match at(pos)
      case Some(m) => [m] + ScanFrom(at, n, m.end)
      case None => ScanFrom(at, n, pos + 1)
  }

  /** `re.findall(pattern, s)`, every match with its groups. */
  function FindAll(fmt: Format, s: string): (ms: seq<Match>)
    ensures forall k | 0 <= k < |ms| :: MatchAt(fmt, s, ms[k].start) == Some(ms[k])
    ensures forall k | 0 <= k < |ms| - 1 :: ms[k].end <= ms[k + 1].start
  {
    MatcherConsumes(fmt, s);
    ScanIsLeftmost(Matcher(fmt, s), |s|, 0);
    ScanFrom(Matcher(fmt, s), |s|, 0)
  }

  /** `re.findall` finds nothing exactly when the pattern matches at no position. */
  lemma FindAllEmpty(fmt: Format, s: string)
    ensures FindAll(fmt, s) == [] <==> forall i: nat :: MatchAt(fmt, s, i) == None
  {
    var at := Matcher(fmt, s);
    MatcherConsumes(fmt, s);
    ScanIsLeftmost(at, |s|, 0);
    if FindAll(fmt, s) == [] {
      forall i: nat ensures MatchAt(fmt, s, i) == None {
        assert at(i) == MatchAt(fmt, s, i);
        if i < |s| {
          assert at(i).None?;
        }
      }
    }
  }

  /** Every result of the scan is the match found at its own start. */
  lemma {:induction false} ScanFound(at: nat -> Option<Match>, n: nat, pos: nat)
    requires pos <= n && Consumes(at, n)
    ensures forall m | m in ScanFrom(at, n, pos) :: at(m.start) == Some(m)
    decreases n - pos
  {
    if pos < n {
      match at(pos)
      case Some(m) =>
        ScanFound(at, n, m.end);
      case None =>
        ScanFound(at, n, pos + 1);
    }
  }

  /** No match starts anywhere in [lo, hi). */
  ghost predicate NoMatchIn(at: nat -> Option<Match>, lo: nat, hi: nat) {
    forall j: nat | lo <= j < hi :: at(j).None?
  }

  /** Where the search goes on after the k-th result: the next result's start, or the end. */
  function NextStart(n: nat, ms: seq<Match>, k: nat): nat
    requires k < |ms|
  {
    if k + 1 < |ms| then ms[k + 1].start else n
  }

  /**
   * What `re.findall` promises, stated without reference to how it scans:
   * every result is the match at its start, results are in text order and do not
   * overlap, and no match starts before the first result, nor between one
   * result's end and the next result's start, nor after the last result.
   */
  ghost predicate IsLeftmostScan(at: nat -> Option<Match>, n: nat, pos: nat, ms: seq<Match>) {
    && (forall k | 0 <= k < |ms| :: at(ms[k].start) == Some(ms[k]))
    && (forall k | 0 <= k < |ms| - 1 :: ms[k].end <= ms[k + 1].start)
    && (|ms| > 0 ==> pos <= ms[0].start)
    && NoMatchIn(at, pos, if |ms| == 0 then n else ms[0].start)
    && (forall k | 0 <= k < |ms| :: NoMatchIn(at, ms[k].end, NextStart(n, ms, k)))
  }

  /** The scan satisfies the leftmost, non-overlapping characterisation. */
  lemma {:induction false} ScanIsLeftmost(at: nat -> Option<Match>, n: nat, pos: nat)
    requires pos <= n && Consumes(at, n)
    ensures IsLeftmostScan(at, n, pos, ScanFrom(at, n, pos))
    decreases n - pos
  {
    if pos < n {
      match at(pos)
      case Some(m) =>
        ScanIsLeftmost(at, n, m.end);
        LeftmostAfterMatch(at, n, pos, m, ScanFrom(at, n, m.end));
      case None =>
        ScanIsLeftmost(at, n, pos + 1);
        LeftmostAfterMiss(at, n, pos, ScanFrom(at, n, pos + 1));
    }
  }

  /** A match at `pos` followed by a leftmost scan from its end is a leftmost scan from `pos`. */
  lemma LeftmostAfterMatch(at: nat -> Option<Match>, n: nat, pos: nat, m: Match, rest: seq<Match>)
    requires pos <= n && Consumes(at, n) && at(pos) == Some(m)
    requires IsLeftmostScan(at, n, m.end, rest)
    ensures IsLeftmostScan(at, n, pos, [m] + rest)
  {
    var ms := [m] + rest;
    forall k | 0 <= k < |ms|
      ensures NoMatchIn(at, ms[k].end, NextStart(n, ms, k))
    {
      if k > 0 {
        assert ms[k] == rest[k - 1];
        assert NextStart(n, ms, k) == NextStart(n, rest, k - 1);
      }
    }
    forall k | 0 <= k < |ms|
      ensures at(ms[k].start) == Some(ms[k])
    {
      if k > 0 {
        assert ms[k] == rest[k - 1];
      }
    }
  }

  /** No match at `pos` and a leftmost scan from `pos + 1` is a leftmost scan from `pos`. */
  lemma LeftmostAfterMiss(at: nat -> Option<Match>, n: nat, pos: nat, ms: seq<Match>)
    requires pos < n && Consumes(at, n) && at(pos) == None
    requires IsLeftmostScan(at, n, pos + 1, ms)
    ensures IsLeftmostScan(at, n, pos, ms)
  {
  }

  /** ... and it is the only sequence that does: the characterisation determines the scan. */
  lemma {:induction false} LeftmostIsScan(at: nat -> Option<Match>, n: nat, pos: nat, ms: seq<Match>)
    requires pos <= n && Consumes(at, n)
    requires IsLeftmostScan(at, n, pos, ms)
    ensures ms == ScanFrom(at, n, pos)
    decreases n - pos
  {
    LeftmostFirst(at, n, pos, ms);
    if pos < n {
      match at(pos)
      case Some(m) =>
        LeftmostTail(at, n, pos, m, ms);
        LeftmostIsScan(at, n, m.end, ms[1..]);
        assert ms == [m] + ms[1..];
      case None =>
        LeftmostSkip(at, n, pos, ms);
        LeftmostIsScan(at, n, pos + 1, ms);
    }
  }

  /** The first result of a leftmost scan from `pos` starts between `pos` and the end. */
  lemma LeftmostFirst(at: nat -> Option<Match>, n: nat, pos: nat, ms: seq<Match>)
    requires Consumes(at, n) && IsLeftmostScan(at, n, pos, ms)
    ensures ms != [] ==> pos <= ms[0].start < n
  {
    if ms != [] {
      assert at(ms[0].start) == Some(ms[0]);
    }
  }

  /** A leftmost scan from `pos`, where no match starts, is one from `pos + 1`. */
  lemma LeftmostSkip(at: nat -> Option<Match>, n: nat, pos: nat, ms: seq<Match>)
    requires pos < n && Consumes(at, n) && at(pos) == None
    requires IsLeftmostScan(at, n, pos, ms)
    ensures IsLeftmostScan(at, n, pos + 1, ms)
  {
    if |ms| > 0 {
      assert at(ms[0].start) == Some(ms[0]);
    }
  }

  /** A leftmost scan from `pos`, where a match starts, begins with that match and
      goes on with a leftmost scan from its end. */
  lemma LeftmostTail(at: nat -> Option<Match>, n: nat, pos: nat, m: Match, ms: seq<Match>)
    requires pos <= n && Consumes(at, n) && at(pos) == Some(m)
    requires IsLeftmostScan(at, n, pos, ms)
    ensures ms != [] && ms[0] == m && IsLeftmostScan(at, n, m.end, ms[1..])
  {
    if |ms| > 0 {
      assert at(ms[0].start) == Some(ms[0]);
    }
    assert ms[0] == m;
    var rest := ms[1..];
    forall k | 0 <= k < |rest|
      ensures NoMatchIn(at, rest[k].end, NextStart(n, rest, k))
    {
      assert rest[k] == ms[k + 1];
      assert NextStart(n, rest, k) == NextStart(n, ms, k + 1);
    }
    forall k | 0 <= k < |rest| - 1
      ensures rest[k].end <= rest[k + 1].start
    {
      assert rest[k] == ms[k + 1] && rest[k + 1] == ms[k + 2];
    }
    forall k | 0 <= k < |rest|
      ensures at(rest[k].start) == Some(rest[k])
    {
      assert rest[k] == ms[k + 1];
    }
    if |rest| > 0 {
      assert ms[0].end <= ms[1].start;
    }
  }

  /** The results of `re.findall` are exactly the leftmost, non-overlapping matches. */
  lemma FindAllCharacterised(fmt: Format, s: string, ms: seq<Match>)
    ensures ms == FindAll(fmt, s) <==> IsLeftmostScan(Matcher(fmt, s), |s|, 0, ms)
  {
    MatcherConsumes(fmt, s);
    ScanIsLeftmost(Matcher(fmt, s), |s|, 0);
    if IsLeftmostScan(Matcher(fmt, s), |s|, 0, ms) {
      LeftmostIsScan(Matcher(fmt, s), |s|, 0, ms);
    }
  }

  /** `re.findall` as the loop it is: results in text order, the search resuming
      where the last match ended. */
  method Scan(at: nat -> Option<Match>, n: nat) returns (ms: seq<Match>)
    requires Consumes(at, n)
    ensures ms == ScanFrom(at, n, 0)
  {
    ms := [];
    var pos := 0;
    while pos < n
      invariant pos <= n
      invariant ms + ScanFrom(at, n, pos) == ScanFrom(at, n, 0)
      decreases n - pos
    {
      var r := at(pos);
      if r.Some? {
        var m := r.value;
        assert pos < m.end <= n;
        var rest := ScanFrom(at, n, m.end);
        assert ScanFrom(at, n, pos) == [m] + rest;
        assert (ms + [m]) + rest == ms + ([m] + rest);
        ms := ms + [m];
        pos := m.end;
      } else {
        assert ScanFrom(at, n, pos) == ScanFrom(at, n, pos + 1);
        pos := pos + 1;
      }
    }
  }
}
