/**
 * The statistics of helpers.py that build their result step by step: the
 * three-way sentiment tally, the messages per weekday with their percentages,
 * and the conversation starters. TextBlob's polarity score and pandas' own
 * inference of a day-first date are parameters.
 */
module Tallies {
  import opened Wrappers
  import opened Calendar
  import opened Preprocessor
  import opened Ranking

  // -------------------------------------------------------------- get_sentiment

  const PositiveKey: string := "Positive"
  const NegativeKey: string := "Negative"
  const NeutralKey: string := "Neutral"

  /** The bucket a polarity score falls in: above zero, below zero, or zero. */
  function Bucket(polarity: real): string {
    if polarity > 0.0 then PositiveKey else if polarity < 0.0 then NegativeKey else NeutralKey
  }

  /** How many messages fall in the bucket `key`. */
  function BucketCount(messages: seq<string>, polarity: string -> real, key: string): nat
    decreases |messages|
  {
    if messages == [] then 0
    else
      BucketCount(messages[..|messages| - 1], polarity, key)
      + (if Bucket(polarity(messages[|messages| - 1])) == key then 1 else 0)
  }

  /** Every message lands in exactly one of the three buckets. */
  lemma {:induction false} BucketsPartition(messages: seq<string>, polarity: string -> real)
    ensures BucketCount(messages, polarity, PositiveKey) + BucketCount(messages, polarity, NegativeKey)
      + BucketCount(messages, polarity, NeutralKey) == |messages|
    decreases |messages|
  {
    if messages != [] {
      BucketsPartition(messages[..|messages| - 1], polarity);
    }
  }

  lemma KeysDistinct()
    ensures PositiveKey != NegativeKey && PositiveKey != NeutralKey && NegativeKey != NeutralKey
  {
    assert PositiveKey[0] != NegativeKey[0] && PositiveKey[0] != NeutralKey[0];
    assert |NegativeKey| != |NeutralKey|;
  }

  /** The three bucket counts as a dictionary. */
  function SentimentTally(messages: seq<string>, polarity: string -> real): map<string, nat> {
    map[PositiveKey := BucketCount(messages, polarity, PositiveKey),
        NegativeKey := BucketCount(messages, polarity, NegativeKey),
        NeutralKey := BucketCount(messages, polarity, NeutralKey)]
  }

  /** One more message adds one to its own bucket and leaves the other two alone. */
  lemma SentimentTallyStep(messages: seq<string>, polarity: string -> real, k: nat)
    requires k < |messages|
    ensures var key := Bucket(polarity(messages[k]));
      SentimentTally(messages[..k + 1], polarity)
        == SentimentTally(messages[..k], polarity)[key := SentimentTally(messages[..k], polarity)[key] + 1]
  {
    KeysDistinct();
    assert messages[..k + 1][..k] == messages[..k];
  }

  /** `get_sentiment`: start from the three keys at zero and add one to the bucket
      of each message in turn. Media placeholders are scored like any message. */
  method Sentiment(messages: seq<string>, polarity: string -> real) returns (sentiments: map<string, nat>)
    ensures sentiments.Keys == {PositiveKey, NegativeKey, NeutralKey}
    ensures forall key | key in sentiments :: sentiments[key] == BucketCount(messages, polarity, key)
    ensures sentiments[PositiveKey] + sentiments[NegativeKey] + sentiments[NeutralKey] == |messages|
  {
    sentiments := map[PositiveKey := 0, NegativeKey := 0, NeutralKey := 0];
    assert messages[..0] == [];
    var k := 0;
    while k < |messages|
      invariant k <= |messages|
      invariant sentiments == SentimentTally(messages[..k], polarity)
    {
      var key := Bucket(polarity(messages[k]));
      SentimentTallyStep(messages, polarity, k);
      sentiments := sentiments[key := sentiments[key] + 1];
      k := k + 1;
    }
    assert messages[..k] == messages;
    BucketsPartition(messages, polarity);
  }

  // -------------------------------------------------------- analyze_active_days

  /** The rows whose day name is `w`. */
  function DayCount(records: seq<MessageRecord>, w: Weekday): nat
    decreases |records|
  {
    if records == [] then 0
    else DayCount(records[..|records| - 1], w) + (if records[|records| - 1].day == Some(w) then 1 else 0)
  }

  /** The rows that have a day name at all (a missing timestamp gives none). */
  function DatedCount(records: seq<MessageRecord>): nat
    decreases |records|
  {
    if records == [] then 0
    else DatedCount(records[..|records| - 1]) + (if records[|records| - 1].day.Some? then 1 else 0)
  }

  function Sum(xs: seq<nat>): nat {
    if xs == [] then 0 else Sum(xs[..|xs| - 1]) + xs[|xs| - 1]
  }

  function SumReals(xs: seq<real>): real {
    if xs == [] then 0.0 else SumReals(xs[..|xs| - 1]) + xs[|xs| - 1]
  }

  /** The per-day counts in week order. */
  function WeekCounts(records: seq<MessageRecord>): (c: seq<nat>)
    ensures |c| == 7 && forall i | 0 <= i < 7 :: c[i] == DayCount(records, WeekOrder[i])
  {
    seq(7, i requires 0 <= i < 7 => DayCount(records, WeekOrder[i]))
  }

  /** One more row adds one to the count of its own day and nothing elsewhere. */
  lemma WeekCountsStep(records: seq<MessageRecord>)
    requires records != []
    ensures var d := records[|records| - 1].day;
      var a := WeekCounts(records[..|records| - 1]);
      var b := WeekCounts(records);
      forall j | 0 <= j < 7 :: b[j] == a[j] + (if d == Some(WeekOrder[j]) then 1 else 0)
  {
    var init := records[..|records| - 1];
    forall j | 0 <= j < 7
      ensures DayCount(records, WeekOrder[j])
        == DayCount(init, WeekOrder[j]) + (if records[|records| - 1].day == Some(WeekOrder[j]) then 1 else 0)
    {
    }
  }

  /** A day name matches exactly one of the seven days; a missing one matches none. */
  lemma OneDayMatches(d: Option<Weekday>)
    ensures (if d == Some(WeekOrder[0]) then 1 else 0) + (if d == Some(WeekOrder[1]) then 1 else 0)
      + (if d == Some(WeekOrder[2]) then 1 else 0) + (if d == Some(WeekOrder[3]) then 1 else 0)
      + (if d == Some(WeekOrder[4]) then 1 else 0) + (if d == Some(WeekOrder[5]) then 1 else 0)
      + (if d == Some(WeekOrder[6]) then 1 else 0) == if d.Some? then 1 else 0
  {
    assert WeekOrder[0] == Monday && WeekOrder[1] == Tuesday && WeekOrder[2] == Wednesday;
    assert WeekOrder[3] == Thursday && WeekOrder[4] == Friday && WeekOrder[5] == Saturday;
    assert WeekOrder[6] == Sunday;
    match d
    case None =>
    case Some(w) =>
      match w
      case Monday =>
      case Tuesday =>
      case Wednesday =>
      case Thursday =>
      case Friday =>
      case Saturday =>
      case Sunday =>
  }

  /** The seven day counts account for every row that has a day name. */
  lemma {:induction false} WeekCountsSum(records: seq<MessageRecord>)
    ensures Sum(WeekCounts(records)) == DatedCount(records)
    decreases |records|
  {
    if records != [] {
      var init := records[..|records| - 1];
      WeekCountsSum(init);
      WeekCountsStep(records);
      OneDayMatches(records[|records| - 1].day);
      var a, b := WeekCounts(init), WeekCounts(records);
      SumOfSeven(a);
      SumOfSeven(b);
    } else {
      SumOfSeven(WeekCounts(records));
    }
  }

  lemma SumPrefix(c: seq<nat>, i: nat)
    requires i < |c|
    ensures Sum(c[..i + 1]) == Sum(c[..i]) + c[i]
  {
    assert c[..i + 1][..i] == c[..i];
  }

  lemma SumOfSeven(c: seq<nat>)
    requires |c| == 7
    ensures Sum(c) == c[0] + c[1] + c[2] + c[3] + c[4] + c[5] + c[6]
  {
    assert c[..0] == [] && c[..7] == c;
    SumPrefix(c, 0);
    SumPrefix(c, 1);
    SumPrefix(c, 2);
    SumPrefix(c, 3);
    SumPrefix(c, 4);
    SumPrefix(c, 5);
    SumPrefix(c, 6);
  }

  lemma SumRealsPrefix(c: seq<real>, i: nat)
    requires i < |c|
    ensures SumReals(c[..i + 1]) == SumReals(c[..i]) + c[i]
  {
    assert c[..i + 1][..i] == c[..i];
  }

  lemma SumRealsOfSeven(c: seq<real>)
    requires |c| == 7
    ensures SumReals(c) == c[0] + c[1] + c[2] + c[3] + c[4] + c[5] + c[6]
  {
    assert c[..0] == [] && c[..7] == c;
    SumRealsPrefix(c, 0);
    SumRealsPrefix(c, 1);
    SumRealsPrefix(c, 2);
    SumRealsPrefix(c, 3);
    SumRealsPrefix(c, 4);
    SumRealsPrefix(c, 5);
    SumRealsPrefix(c, 6);
  }

  /** A day's share of the rows, in percent; all zero when no row has a day. */
  function Percentages(counts: seq<nat>, total: nat): (p: seq<real>)
    ensures |p| == |counts|
  {
    if total > 0 then seq(|counts|, i requires 0 <= i < |counts| => counts[i] as real / total as real * 100.0)
    else seq(|counts|, i => 0.0)
  }

  /** When some row has a day, the percentages add up to 100. */
  lemma PercentagesSum(counts: seq<nat>)
    requires |counts| == 7 && Sum(counts) > 0
    ensures SumReals(Percentages(counts, Sum(counts))) == 100.0
  {
    var t := Sum(counts) as real;
    var p := Percentages(counts, Sum(counts));
    var c := seq(7, i requires 0 <= i < 7 => counts[i] as real);
    SumOfSeven(counts);
    SumRealsOfSeven(p);
    SharesSumToOne(c, t);
  }

  lemma DivAdd(a: real, b: real, t: real)
    requires t > 0.0
    ensures a / t + b / t == (a + b) / t
  {
  }

  /** Seven shares of a positive total add up to one. */
  lemma SharesSumToOne(c: seq<real>, t: real)
    requires |c| == 7 && t > 0.0 && c[0] + c[1] + c[2] + c[3] + c[4] + c[5] + c[6] == t
    ensures c[0] / t + c[1] / t + c[2] / t + c[3] / t + c[4] / t + c[5] / t + c[6] / t == 1.0
  {
    DivAdd(c[0], c[1], t);
    DivAdd(c[0] + c[1], c[2], t);
    DivAdd(c[0] + c[1] + c[2], c[3], t);
    DivAdd(c[0] + c[1] + c[2] + c[3], c[4], t);
    DivAdd(c[0] + c[1] + c[2] + c[3] + c[4], c[5], t);
    DivAdd(c[0] + c[1] + c[2] + c[3] + c[4] + c[5], c[6], t);
  }

  /** `analyze_active_days`: count the rows per day name, lay the counts out over
      Monday to Sunday with zero for a missing day, total them, and turn them into
      percentages, or seven zeros when the total is zero. */
  method AnalyzeActiveDays(records: seq<MessageRecord>) returns (counts: seq<nat>, percentages: seq<real>)
    ensures counts == WeekCounts(records)
    ensures percentages == Percentages(counts, DatedCount(records))
    ensures Sum(counts) == DatedCount(records)
    ensures DatedCount(records) == 0 ==> forall i | 0 <= i < 7 :: percentages[i] == 0.0
    ensures DatedCount(records) > 0 ==> SumReals(percentages) == 100.0
  {
    counts := [0, 0, 0, 0, 0, 0, 0];
    var k := 0;
    while k < |records|
      invariant k <= |records|
      invariant counts == WeekCounts(records[..k])
    {
      assert records[..k + 1][..k] == records[..k];
      var day := records[k].day;
      if day.Some? {
        var i := WeekdayIndex(day.value);
        counts := counts[i := counts[i] + 1];
      }
      k := k + 1;
    }
    assert records[..k] == records;
    var total := 0;
    var i := 0;
    while i < 7
      invariant i <= 7
      invariant total == Sum(counts[..i])
    {
      assert counts[..i + 1][..i] == counts[..i];
      total := total + counts[i];
      i := i + 1;
    }
    assert counts[..7] == counts;
    WeekCountsSum(records);
    percentages := Percentages(counts, total);
    if total > 0 {
      PercentagesSum(counts);
    }
  }

  // -------------------------------------------------- get_conversation_starters

  /** A row whose Date text pandas could read: the calendar date and the sender. */
  datatype Post = Post(date: CivilDate, user: string)

  /** The rows whose Date text converts, in order; the others are dropped. */
  function Dated(records: seq<MessageRecord>, dayFirst: string -> Option<CivilDate>): (ps: seq<Post>)
    ensures |ps| <= |records|
    ensures (forall r | r in records :: dayFirst(r.date) == None) ==> ps == []
    decreases |records|
  {
    if records == [] then []
    else
      var init := records[..|records| - 1];
      var r := records[|records| - 1];
      assert forall x | x in init :: x in records;
      Dated(init, dayFirst) + (match dayFirst(r.date) case Some(d) => [Post(d, r.user)] case None => [])
  }

  /** A post is kept exactly when some row's Date converts to its date and the row
      has its sender: no converted row is lost and nothing else is added. */
  lemma {:induction false} DatedPosts(records: seq<MessageRecord>, dayFirst: string -> Option<CivilDate>, p: Post)
    ensures p in Dated(records, dayFirst) <==> exists r | r in records :: dayFirst(r.date) == Some(p.date) && r.user == p.user
    decreases |records|
  {
    if records != [] {
      var init := records[..|records| - 1];
      var r := records[|records| - 1];
      var t := match dayFirst(r.date) case Some(d) => [Post(d, r.user)] case None => [];
      assert records == init + [r];
      assert Dated(records, dayFirst) == Dated(init, dayFirst) + t;
      assert p in t <==> dayFirst(r.date) == Some(p.date) && r.user == p.user;
      DatedPosts(init, dayFirst, p);
    }
  }

  /** The calendar dates the Date column converts to. */
  function ReadableDates(records: seq<MessageRecord>, dayFirst: string -> Option<CivilDate>): set<CivilDate> {
    set r | r in records && dayFirst(r.date).Some? :: dayFirst(r.date).value
  }

  /** Converting a batch of rows converts each half on its own. */
  lemma {:induction false} DatedAppend(a: seq<MessageRecord>, b: seq<MessageRecord>, dayFirst: string -> Option<CivilDate>)
    ensures Dated(a + b, dayFirst) == Dated(a, dayFirst) + Dated(b, dayFirst)
    decreases |b|
  {
    if b == [] {
      assert a + b == a;
    } else {
      var init := b[..|b| - 1];
      var r := b[|b| - 1];
      var t := match dayFirst(r.date) case Some(d) => [Post(d, r.user)] case None => [];
      assert (a + b)[..|a + b| - 1] == a + init && (a + b)[|a + b| - 1] == r;
      assert Dated(a + b, dayFirst) == Dated(a + init, dayFirst) + t;
      assert Dated(b, dayFirst) == Dated(init, dayFirst) + t;
      DatedAppend(a, init, dayFirst);
    }
  }

  /** One row gives one post when its Date converts, none otherwise. */
  lemma DatedOne(r: MessageRecord, dayFirst: string -> Option<CivilDate>)
    ensures Dated([r], dayFirst) == match dayFirst(r.date) case Some(d) => [Post(d, r.user)] case None => []
  {
    assert [r][..0] == [];
  }

  /** The calendar dates that occur among the posts. */
  function DatesOf(ps: seq<Post>): (ds: set<CivilDate>)
    ensures forall i | 0 <= i < |ps| :: ps[i].date in ds
    decreases |ps|
  {
    if ps == [] then {} else DatesOf(ps[..|ps| - 1]) + {ps[|ps| - 1].date}
  }

  /** Every date that occurs has a post. */
  lemma {:induction false} DatesOfHasPost(ps: seq<Post>, d: CivilDate)
    requires d in DatesOf(ps)
    ensures exists i | 0 <= i < |ps| :: ps[i].date == d
    decreases |ps|
  {
    var init := ps[..|ps| - 1];
    if d in DatesOf(init) {
      DatesOfHasPost(init, d);
      var i :| 0 <= i < |init| && init[i].date == d;
      assert ps[i] == init[i];
    }
  }

  /** The dates of the posts are exactly the dates the rows convert to. */
  lemma DatesOfDated(records: seq<MessageRecord>, dayFirst: string -> Option<CivilDate>)
    ensures DatesOf(Dated(records, dayFirst)) == ReadableDates(records, dayFirst)
  {
    var ps := Dated(records, dayFirst);
    forall d | d in DatesOf(ps) ensures d in ReadableDates(records, dayFirst) {
      DatesOfHasPost(ps, d);
      var i :| 0 <= i < |ps| && ps[i].date == d;
      DatedPosts(records, dayFirst, ps[i]);
    }
    forall d | d in ReadableDates(records, dayFirst) ensures d in DatesOf(ps) {
      var r :| r in records && dayFirst(r.date) == Some(d);
      DatedPosts(records, dayFirst, Post(d, r.user));
      var i :| 0 <= i < |ps| && ps[i] == Post(d, r.user);
    }
  }

  /** The post at `i` is the first one on its date. */
  ghost predicate FirstOfDate(ps: seq<Post>, i: nat)
    requires i < |ps|
  {
    forall j | 0 <= j < i :: ps[j].date != ps[i].date
  }

  /**
   * The first post of each calendar date, in order: a post is kept exactly when
   * no earlier post has its date. This is what sorting by date with a stable sort
   * and taking the first row of each date group picks.
   */
  function FirstPerDate(ps: seq<Post>): (fs: seq<Post>)
    ensures forall p | p in fs :: p in ps
    ensures forall i, j | 0 <= i < j < |fs| :: fs[i].date != fs[j].date
    ensures DatesOf(fs) == DatesOf(ps)
    decreases |ps|
  {
    if ps == [] then []
    else
      var init := ps[..|ps| - 1];
      var p := ps[|ps| - 1];
      var prev := FirstPerDate(init);
      if p.date in DatesOf(init) then prev
      else
        assert (prev + [p])[..|prev|] == prev;
        prev + [p]
  }

  /** `FirstPerDate` keeps a post exactly when no earlier post has its date. */
  lemma FirstPerDateKeepsFirsts(ps: seq<Post>, p: Post)
    ensures p in FirstPerDate(ps) <==> exists i | 0 <= i < |ps| :: ps[i] == p && FirstOfDate(ps, i)
  {
    if p in FirstPerDate(ps) {
      FirstPerDateSound(ps, p);
    }
    if exists i | 0 <= i < |ps| :: ps[i] == p && FirstOfDate(ps, i) {
      var i :| 0 <= i < |ps| && ps[i] == p && FirstOfDate(ps, i);
      FirstPerDateComplete(ps, i);
    }
  }

  /** One step of `FirstPerDate`: the last post is added exactly when it is first of its date. */
  lemma FirstPerDateStep(ps: seq<Post>)
    requires ps != []
    ensures var init := ps[..|ps| - 1];
      FirstPerDate(ps) == if FirstOfDate(ps, |ps| - 1) then FirstPerDate(init) + [ps[|ps| - 1]] else FirstPerDate(init)
  {
    FirstOfLast(ps);
  }

  lemma {:induction false} FirstPerDateSound(ps: seq<Post>, p: Post)
    requires p in FirstPerDate(ps)
    ensures exists i | 0 <= i < |ps| :: ps[i] == p && FirstOfDate(ps, i)
    decreases |ps|
  {
    var n := |ps| - 1;
    var init := ps[..n];
    FirstPerDateStep(ps);
    if p in FirstPerDate(init) {
      FirstPerDateSound(init, p);
      var i :| 0 <= i < n && init[i] == p && FirstOfDate(init, i);
      FirstOfDatePrefix(ps, i);
      assert ps[i] == p && FirstOfDate(ps, i);
    } else {
      assert ps[n] == p && FirstOfDate(ps, n);
    }
  }

  lemma {:induction false} FirstPerDateComplete(ps: seq<Post>, i: nat)
    requires i < |ps| && FirstOfDate(ps, i)
    ensures ps[i] in FirstPerDate(ps)
    decreases |ps|
  {
    var n := |ps| - 1;
    var init := ps[..n];
    FirstPerDateStep(ps);
    if i < n {
      FirstOfDatePrefix(ps, i);
      FirstPerDateComplete(init, i);
      assert init[i] == ps[i];
    }
  }

  /** Before the last post, being first of its date does not depend on the last post. */
  lemma FirstOfDatePrefix(ps: seq<Post>, i: nat)
    requires i < |ps| - 1
    ensures FirstOfDate(ps, i) == FirstOfDate(ps[..|ps| - 1], i)
  {
    assert forall j | 0 <= j <= i :: ps[..|ps| - 1][j] == ps[j];
  }

  /** The last post is first of its date exactly when no earlier post has that date. */
  lemma FirstOfLast(ps: seq<Post>)
    requires ps != []
    ensures FirstOfDate(ps, |ps| - 1) <==> ps[|ps| - 1].date !in DatesOf(ps[..|ps| - 1])
  {
    var init := ps[..|ps| - 1];
    if ps[|ps| - 1].date in DatesOf(init) {
      DatesOfHasPost(init, ps[|ps| - 1].date);
      var j :| 0 <= j < |init| && init[j].date == ps[|ps| - 1].date;
      assert ps[j].date == ps[|ps| - 1].date;
    } else {
      forall j | 0 <= j < |ps| - 1 ensures ps[j].date != ps[|ps| - 1].date {
        assert init[j] == ps[j];
      }
    }
  }

  function StarterNames(fs: seq<Post>): (us: seq<string>)
    ensures |us| == |fs| && forall i | 0 <= i < |fs| :: us[i] == fs[i].user
  {
    if fs == [] then [] else StarterNames(fs[..|fs| - 1]) + [fs[|fs| - 1].user]
  }

  /** What `get_conversation_starters` counts: the sender of the first readable row
      of each calendar date. */
  function Starters(records: seq<MessageRecord>, dayFirst: string -> Option<CivilDate>): seq<string> {
    StarterNames(FirstPerDate(Dated(records, dayFirst)))
  }

  /** One starter per calendar date that occurs: the starter counts add up to the
      number of distinct readable dates. */
  lemma StarterCountsSum(records: seq<MessageRecord>, dayFirst: string -> Option<CivilDate>)
    ensures SumCounts(ValueCounts(Starters(records, dayFirst))) == |ReadableDates(records, dayFirst)|
  {
    var fs := FirstPerDate(Dated(records, dayFirst));
    ValueCountsSum(StarterNames(fs));
    DistinctDatesCount(fs);
    DatesOfDated(records, dayFirst);
  }

  /** Posts on pairwise different dates: as many dates as posts. */
  lemma {:induction false} DistinctDatesCount(fs: seq<Post>)
    requires forall i, j | 0 <= i < j < |fs| :: fs[i].date != fs[j].date
    ensures |DatesOf(fs)| == |fs|
    decreases |fs|
  {
    if fs != [] {
      var init := fs[..|fs| - 1];
      DistinctDatesCount(init);
      if fs[|fs| - 1].date in DatesOf(init) {
        DatesOfHasPost(init, fs[|fs| - 1].date);
      }
    }
  }

  /** `get_conversation_starters`: empty input gives an empty result; otherwise
      convert each Date day-first, drop the rows that do not convert, take the first
      sender of each date (rows of one date keep their text order), and count how
      many dates each sender started, largest count first. */
  method ConversationStarters(records: seq<MessageRecord>, dayFirst: string -> Option<CivilDate>)
    returns (counts: seq<Entry>)
    ensures records == [] ==> counts == []
    ensures counts == ValueCounts(Starters(records, dayFirst))
    ensures SumCounts(counts) == |ReadableDates(records, dayFirst)|
  {
    if records == [] {
      return [];
    }
    var dated := CollectDated(records, dayFirst);
    var firsts := FirstPosts(dated);
    var starters := StarterNames(firsts);
    counts := ValueCounts(starters);
    StarterCountsSum(records, dayFirst);
  }

  /** The day-first conversion and `dropna`: one post per row whose Date converts. */
  method CollectDated(records: seq<MessageRecord>, dayFirst: string -> Option<CivilDate>) returns (dated: seq<Post>)
    ensures dated == Dated(records, dayFirst)
  {
    dated := [];
    var k := 0;
    while k < |records|
      invariant k <= |records|
      invariant dated == Dated(records[..k], dayFirst)
    {
      assert records[..k + 1][..k] == records[..k];
      var parsed := dayFirst(records[k].date);
      if parsed.Some? {
        dated := dated + [Post(parsed.value, records[k].user)];
      }
      k := k + 1;
    }
    assert records[..k] == records;
  }

  /** The sort by date and `groupby(...).first()`: walk the posts remembering the
      dates seen so far, and keep each post whose date is new. */
  method FirstPosts(dated: seq<Post>) returns (firsts: seq<Post>)
    ensures firsts == FirstPerDate(dated)
  {
    var seen: set<CivilDate> := {};
    firsts := [];
    var j := 0;
    while j < |dated|
      invariant j <= |dated|
      invariant firsts == FirstPerDate(dated[..j])
      invariant seen == DatesOf(dated[..j])
    {
      assert dated[..j + 1][..j] == dated[..j];
      var p := dated[j];
      if p.date !in seen {
        firsts := firsts + [p];
      }
      seen := seen + {p.date};
      j := j + 1;
    }
    assert dated[..j] == dated;
  }
}
