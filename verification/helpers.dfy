/**
 * The single-expression statistics of helpers.py, over the message bodies or
 * the rows that `preprocess` produces. The two foreign predicates they call, the
 * URL pattern search and `emoji.is_emoji`, are parameters.
 */
module Helpers {
  import opened Text
  import opened LineGrammar
  import opened Preprocessor
  import opened Ranking

  // ---------------------------------------------------------------- count_words

  /** `count_words`: the number of `split()` tokens over all messages. */
  function CountWords(messages: seq<string>): (r: nat)
    ensures r == 0 <==> forall k | 0 <= k < |messages| :: AllSpace(messages[k])
    decreases |messages|
  {
    if messages == [] then 0
    else
      var init := messages[..|messages| - 1];
      TokensEmpty(messages[|messages| - 1]);
      assert forall k | 0 <= k < |init| :: init[k] == messages[k];
      CountWords(init) + |Tokens(messages[|messages| - 1])|
  }

  /** The word count of two batches of messages is the sum of their word counts. */
  lemma {:induction false} CountWordsAppend(a: seq<string>, b: seq<string>)
    ensures CountWords(a + b) == CountWords(a) + CountWords(b)
    decreases |b|
  {
    if b == [] {
      assert a + b == a;
    } else {
      var init := b[..|b| - 1];
      assert (a + b)[..|a + b| - 1] == a + init;
      CountWordsAppend(a, init);
    }
  }

  /** Word starts over all messages, counted one character at a time. */
  function TotalWordStarts(messages: seq<string>): nat
    decreases |messages|
  {
    if messages == [] then 0
    else TotalWordStarts(messages[..|messages| - 1]) + WordStarts(messages[|messages| - 1], true)
  }

  /** `count_words` agrees with counting the characters that begin a word. */
  lemma {:induction false} CountWordsIsWordStarts(messages: seq<string>)
    ensures CountWords(messages) == TotalWordStarts(messages)
    decreases |messages|
  {
    if messages != [] {
      CountWordsIsWordStarts(messages[..|messages| - 1]);
      TokenCountIsWordStarts(messages[|messages| - 1]);
    }
  }

  // ----------------------------------------------------- detect_offensive_words

  const OffensiveWords: seq<string> := ["nude", "sex", "fuck", "bitch", "asshole", "porn", "fool",
    "dick", "boobs", "slut", "madharchod", "nigger", "nigga", "cunt", "pussy", "lund", "lora",
    "chode", "mc", "ma ka bhosda", "gandmara", "fuckyou", "fuck you", "laude"]

  /** Lowering a token adds no whitespace. */
  lemma LowerNoSpace(t: string)
    requires NoSpace(t)
    ensures NoSpace(Lower(t))
  {
  }

  /** The lowered tokens of `ts` that are on the list, as a Counter. */
  function Flagged(ts: seq<string>): (r: multiset<string>)
    requires forall t | t in ts :: NoSpace(t)
    ensures forall w | w in r :: w in OffensiveWords && NoSpace(w)
    ensures |r| <= |ts|
    decreases |ts|
  {
    if ts == [] then multiset{}
    else
      var w := Lower(ts[|ts| - 1]);
      LowerNoSpace(ts[|ts| - 1]);
      Flagged(ts[..|ts| - 1]) + (if w in OffensiveWords then multiset{w} else multiset{})
  }

  /** `detect_offensive_words`: every lowered token that is one of the listed words,
      counted. Keys are listed words, single words only, and there are no more hits
      than words. */
  function DetectOffensive(messages: seq<string>): (r: multiset<string>)
    ensures forall w | w in r :: w in OffensiveWords && NoSpace(w)
    ensures |r| <= CountWords(messages)
    decreases |messages|
  {
    if messages == [] then multiset{}
    else
      DetectOffensive(messages[..|messages| - 1]) + Flagged(Tokens(messages[|messages| - 1]))
  }

  /** Every lowered token of every message, in order. */
  function LoweredTokens(messages: seq<string>): seq<string>
    decreases |messages|
  {
    if messages == [] then []
    else LoweredTokens(messages[..|messages| - 1]) + LowerAll(Tokens(messages[|messages| - 1]))
  }

  function LowerAll(ts: seq<string>): (r: seq<string>)
    ensures |r| == |ts| && forall k | 0 <= k < |ts| :: r[k] == Lower(ts[k])
  {
    if ts == [] then [] else LowerAll(ts[..|ts| - 1]) + [Lower(ts[|ts| - 1])]
  }

  lemma {:induction false} FlaggedCounts(ts: seq<string>, w: string)
    requires forall t | t in ts :: NoSpace(t)
    ensures Flagged(ts)[w] == if w in OffensiveWords then multiset(LowerAll(ts))[w] else 0
    decreases |ts|
  {
    if ts != [] {
      var init := ts[..|ts| - 1];
      FlaggedCounts(init, w);
      assert LowerAll(ts) == LowerAll(init) + [Lower(ts[|ts| - 1])];
    }
  }

  /** The Counter holds, for each listed word, exactly how often it occurs among the
      lowered tokens, and nothing else. */
  lemma {:induction false} OffensiveCountsAreTokenCounts(messages: seq<string>, w: string)
    ensures DetectOffensive(messages)[w] == if w in OffensiveWords then multiset(LoweredTokens(messages))[w] else 0
    decreases |messages|
  {
    if messages != [] {
      OffensiveCountsAreTokenCounts(messages[..|messages| - 1], w);
      FlaggedCounts(Tokens(messages[|messages| - 1]), w);
    }
  }

  /** The two entries with a space in them can never be counted, because `split()`
      never yields a token with a space. */
  lemma MultiWordEntriesNeverCounted(messages: seq<string>)
    ensures "fuck you" in OffensiveWords && "ma ka bhosda" in OffensiveWords
    ensures "fuck you" !in DetectOffensive(messages) && "ma ka bhosda" !in DetectOffensive(messages)
  {
    assert !NoSpace("fuck you") by {
      assert IsSpace("fuck you"[4]);
    }
    assert !NoSpace("ma ka bhosda") by {
      assert IsSpace("ma ka bhosda"[2]);
    }
  }

  // ----------------------------------------------- count_media_messages, count_links

  /** How many of the messages satisfy `p`; each message counts at most once. */
  function CountWhere(messages: seq<string>, p: string -> bool): (r: nat)
    ensures r <= |messages|
    ensures r == 0 <==> forall k | 0 <= k < |messages| :: !p(messages[k])
    ensures r == |messages| <==> forall k | 0 <= k < |messages| :: p(messages[k])
    decreases |messages|
  {
    if messages == [] then 0
    else
      var init := messages[..|messages| - 1];
      var n := CountWhere(init, p) + (if p(messages[|messages| - 1]) then 1 else 0);
      assert forall k | 0 <= k < |init| :: init[k] == messages[k];
      n
  }

  lemma {:induction false} CountWhereAppend(a: seq<string>, b: seq<string>, p: string -> bool)
    ensures CountWhere(a + b, p) == CountWhere(a, p) + CountWhere(b, p)
    decreases |b|
  {
    if b == [] {
      assert a + b == a;
    } else {
      var init := b[..|b| - 1];
      assert (a + b)[..|a + b| - 1] == a + init;
      CountWhereAppend(a, init, p);
    }
  }

  const MediaPlaceholder: string := "<Media omitted>"

  predicate IsMediaMessage(msg: string) {
    Contains(msg, MediaPlaceholder)
  }

  /** `count_media_messages`: messages containing `<Media omitted>`, case-sensitively. */
  function CountMedia(messages: seq<string>): (r: nat)
    ensures r <= |messages|
    ensures r == 0 <==> forall k | 0 <= k < |messages| :: !IsMediaMessage(messages[k])
    ensures r == |messages| <==> forall k | 0 <= k < |messages| :: IsMediaMessage(messages[k])
  {
    CountWhere(messages, IsMediaMessage)
  }

  /** A media message counts once however many placeholders it holds. */
  lemma MediaPlaceholderCounts(msg: string)
    ensures CountMedia([msg + MediaPlaceholder + MediaPlaceholder]) == 1
  {
    var m := msg + MediaPlaceholder + MediaPlaceholder;
    assert OccursAt(m, |msg|, MediaPlaceholder) by {
      assert m[|msg|..|msg| + |MediaPlaceholder|] == MediaPlaceholder;
    }
  }

  /** `count_links`: messages in which the URL pattern is found. */
  function CountLinks(messages: seq<string>, hasLink: string -> bool): (r: nat)
    ensures r <= |messages|
    ensures r == 0 <==> forall k | 0 <= k < |messages| :: !hasLink(messages[k])
    ensures r == |messages| <==> forall k | 0 <= k < |messages| :: hasLink(messages[k])
  {
    CountWhere(messages, hasLink)
  }

  // ------------------------------------------------ first/last date, longest message

  const NotAvailable: string := "N/A"

  /** `get_first_message_date`: the Date text of the first row, or `N/A`. */
  function FirstMessageDate(records: seq<MessageRecord>): (d: string)
    ensures records == [] ==> d == NotAvailable
    ensures records != [] ==> d == records[0].date
  {
    if records == [] then NotAvailable else records[0].date
  }

  /** `get_last_message_date`: the Date text of the last row, or `N/A`. */
  function LastMessageDate(records: seq<MessageRecord>): (d: string)
    ensures records == [] ==> d == NotAvailable
    ensures records != [] ==> d == records[|records| - 1].date
  {
    if records == [] then NotAvailable else records[|records| - 1].date
  }

  /** When every Date text starts with a digit, as those `preprocess` yields do,
      `N/A` means exactly that there are no rows. */
  lemma NotAvailableMeansEmpty(records: seq<MessageRecord>)
    requires forall r | r in records :: r.date != [] && IsDigit(r.date[0])
    ensures FirstMessageDate(records) == NotAvailable <==> records == []
    ensures LastMessageDate(records) == NotAvailable <==> records == []
  {
    if records != [] {
      assert records[0] in records && records[|records| - 1] in records;
    }
  }

  lemma MessageDatesOfParse(data: string)
    ensures FirstMessageDate(Parse(data)) == NotAvailable <==> Parse(data) == []
    ensures LastMessageDate(Parse(data)) == NotAvailable <==> Parse(data) == []
  {
    ParseDatesStartWithDigit(data);
    NotAvailableMeansEmpty(Parse(data));
  }

  /** The first message of greatest length (Python's `max` keeps the first of equals). */
  function FirstLongest(messages: seq<string>): (r: string)
    requires messages != []
    ensures forall k | 0 <= k < |messages| :: |messages[k]| <= |r|
    ensures exists k | 0 <= k < |messages| :: messages[k] == r && forall j | 0 <= j < k :: |messages[j]| < |r|
    decreases |messages|
  {
    if |messages| == 1 then messages[0]
    else
      var init := messages[..|messages| - 1];
      var best := FirstLongest(init);
      var last := messages[|messages| - 1];
      assert forall k | 0 <= k < |init| :: init[k] == messages[k];
      if |last| > |best| then last else best
  }

  /** `get_longest_message`: the first longest message, or the empty string when
      no message has any text. */
  function LongestMessage(messages: seq<string>): (r: string)
    ensures messages == [] ==> r == ""
    ensures forall k | 0 <= k < |messages| :: |messages[k]| <= |r|
    ensures r == "" || exists k | 0 <= k < |messages| :: messages[k] == r && forall j | 0 <= j < k :: |messages[j]| < |r|
  {
    if forall k | 0 <= k < |messages| :: messages[k] == "" then "" else FirstLongest(messages)
  }

  // ------------------------------------------------------------- get_top_users

  function Users(records: seq<MessageRecord>): (us: seq<string>)
    ensures |us| == |records| && forall k | 0 <= k < |records| :: us[k] == records[k].user
  {
    if records == [] then [] else Users(records[..|records| - 1]) + [records[|records| - 1].user]
  }

  /** `get_top_users`: the five senders with most rows (fewer if there are fewer
      senders), largest first, each with its row count; nobody left out has more
      rows than anybody listed. */
  function TopUsers(records: seq<MessageRecord>): (r: seq<Entry>)
    ensures var us := Users(records);
      && |r| <= 5
      && (|r| < 5 ==> forall u | u in us :: exists i :: 0 <= i < |r| && r[i].key == u)
      && (forall i | 0 <= i < |r| :: r[i].key in us && r[i].count == Occurrences(us, r[i].key))
      && (forall i, j | 0 <= i < j < |r| :: r[i].key != r[j].key && r[i].count >= r[j].count)
      && (forall u, i | u in us && 0 <= i < |r| && u !in Keys(r) :: Occurrences(us, u) <= r[i].count)
  {
    TopByCount(Users(records), 5);
    Largest(ValueCounts(Users(records)), 5)
  }

  // ------------------------------------------------------------- extract_emojis

  /** The characters of `msg` that `isEmoji` accepts, counted. */
  function EmojisOf(msg: string, isEmoji: char -> bool): (r: multiset<char>)
    ensures forall c | c in r :: isEmoji(c)
    ensures |r| <= |msg|
    decreases |msg|
  {
    if msg == [] then multiset{}
    else EmojisOf(msg[..|msg| - 1], isEmoji) + (if isEmoji(msg[|msg| - 1]) then multiset{msg[|msg| - 1]} else multiset{})
  }

  /** `extract_emojis`: every character of every message that `emoji.is_emoji`
      accepts, as a Counter. */
  function ExtractEmojis(messages: seq<string>, isEmoji: char -> bool): (r: multiset<char>)
    ensures forall c | c in r :: isEmoji(c)
    ensures |r| <= |Concat(messages)|
    decreases |messages|
  {
    if messages == [] then multiset{}
    else
      var init := messages[..|messages| - 1];
      var last := messages[|messages| - 1];
      ConcatSnoc(init, last);
      assert messages == init + [last];
      ExtractEmojis(init, isEmoji) + EmojisOf(last, isEmoji)
  }

  lemma {:induction false} ConcatSnoc(ms: seq<string>, m: string)
    ensures Concat(ms + [m]) == Concat(ms) + m
    decreases |ms|
  {
    if ms == [] {
      assert ms + [m] == [m];
    } else {
      assert (ms + [m])[1..] == ms[1..] + [m];
      ConcatSnoc(ms[1..], m);
    }
  }

  lemma {:induction false} EmojisOfCounts(msg: string, isEmoji: char -> bool, c: char)
    ensures EmojisOf(msg, isEmoji)[c] == if isEmoji(c) then multiset(msg)[c] else 0
    decreases |msg|
  {
    if msg != [] {
      var init := msg[..|msg| - 1];
      EmojisOfCounts(init, isEmoji, c);
      assert msg == init + [msg[|msg| - 1]];
    }
  }

  /** The Counter gives every emoji exactly its number of occurrences in all the
      text, and every other character nothing. */
  lemma {:induction false} EmojiCountsAreCharacterCounts(messages: seq<string>, isEmoji: char -> bool, c: char)
    ensures ExtractEmojis(messages, isEmoji)[c] == if isEmoji(c) then multiset(Concat(messages))[c] else 0
    decreases |messages|
  {
    if messages != [] {
      var init := messages[..|messages| - 1];
      var last := messages[|messages| - 1];
      EmojiCountsAreCharacterCounts(init, isEmoji, c);
      EmojisOfCounts(last, isEmoji, c);
      ConcatSnoc(init, last);
      assert messages == init + [last];
    }
  }
}
