# WhatsApp chat analysis: the parser and the statistics, in Dafny

The analyser takes the exported text of a WhatsApp chat and turns it into a table
of messages. `preprocess` in preprocessor.py does this. The statistics functions in
helpers.py then read that table: word count, offensive words, media and link
counts, first and last dates, longest message, sentiment tally, top senders,
emoji counts, activity per weekday and conversation starters.

This project models both parts and proves what they promise.

- `wrappers.dfy`: module `Wrappers`, the `Option` type that stands for pandas'
  missing values.
- `text.dfy`: module `Text`, Python's whitespace set, `str.strip()`, `str.split()`,
  `str.lower()` and the substring test.
- `calendar.dfy`: module `Calendar`, proleptic Gregorian dates, the ordinal of a
  date, the weekday name (Monday first) and the month name.
- `grammar.dfy`: module `LineGrammar`, the two header patterns (12-hour and
  24-hour), a match attempt at one position (`MatchAt`), and `re.findall`, the
  leftmost, non-overlapping scan (`FindAll`, with the loop `Scan`). Each pattern
  piece can match in only one way at a given position, so a match attempt is a
  function. It is proved equal to a declarative description of a match
  (`IsMatch`), and the scan is proved equal to a declarative leftmost scan.
- `preprocessor.dfy`: module `Preprocessor`, covering:
  - the choice between the 12-hour and 24-hour formats;
  - one row per match whose stripped sender is not blank;
  - the day-first timestamp conversion with `errors="coerce"`;
  - the derived year, month, day, hour and minute columns;
  - `Parse`, the table as a function, and the `Preprocess` method that builds it
    with a loop.
- `ranking.dfy`: module `Ranking`, pandas' `value_counts()` (distinct labels with
  their counts, largest first) and `nlargest(n)`.
- `helpers.dfy`: module `Helpers`, the statistics that are single expressions.
- `tallies.dfy`: module `Tallies`, the statistics that build their result step by
  step: the sentiment dictionary, the weekday counts with their percentages, and
  the conversation starters.

Some library calls are parameters of the model:
- TextBlob's polarity score is `polarity: string -> real`;
- `emoji.is_emoji` is `isEmoji: char -> bool`;
- the URL pattern search of `count_links` is `hasLink: string -> bool`;
- the conversion of the Date column by `pd.to_datetime(..., dayfirst=True, errors="coerce")`
  in `get_conversation_starters` is `dayFirst: string -> Option<CivilDate>`. It stands
  for the conversion of the whole column and is fixed for one call. pandas guesses one
  format from the first non-missing Date and parses every row with it, so which texts it
  accepts depends on that first row: after `1/2/2023`, the text `1/2/23` gives no date.

Behaviour of the code that is easy to miss:
- A two-digit year (`1/2/23`) matches the patterns but does not fit `%Y`, so the row is
  kept with no timestamp (`Preprocessor.ExampleTwoDigitYear`).
- A date that does not exist is kept with no timestamp.
- Media messages are scored for sentiment like any other message.
- A line that matches no header is not part of any message.

## Model

| member | source | states |
|---|---|---|
| Preprocessor.Preprocess | preprocessor.py:13-63 | the method returns exactly the table `Parse(data)`: findall with both patterns, 12-hour wins when it matches anywhere, rows from kept matches |
| Preprocessor.Detect | preprocessor.py:24-37 | the 12-hour pattern is chosen exactly when it matches at some position; no format is chosen exactly when neither pattern matches anywhere |
| Preprocessor.Parse | preprocessor.py:13-63 | no detected format gives the empty table; otherwise there are no more rows than matches of the chosen pattern |
| Preprocessor.CollectRows | preprocessor.py:28-40 | the loop over the matches appends one row per kept match in order, and gives exactly `Rows(ms, keep, build)` |
| LineGrammar.MatchAtCharacterised | preprocessor.py:20-21 | a match attempt at position i succeeds with m exactly when m starts at i, has the groups' shape (1-2 digit day and month, 2-4 digit year, the format's time shape, a sender with no colon, a non-empty body with no newline), spells out the text there, and ends at a newline or at the end of the text |
| LineGrammar.FindAllCharacterised | preprocessor.py:24-25 | the findall result is exactly the sequence of matches that are leftmost and non-overlapping, in text order, with no match starting in any gap between them |
| LineGrammar.ScanIsLeftmost | preprocessor.py:24-25 | the scan's result is a leftmost non-overlapping scan |
| LineGrammar.LeftmostIsScan | preprocessor.py:24-25 | any leftmost non-overlapping scan is the scan's result, so there is only one |
| LineGrammar.Scan | preprocessor.py:24-25 | the findall loop, which tries each position and resumes after a match, computes `ScanFrom` |
| LineGrammar.MatcherConsumes | preprocessor.py:20-21 | every match found at position i starts at i and ends after it, within the text |
| LineGrammar.MatchAt | preprocessor.py:20-21 | a match attempt at i that succeeds starts at i, ends later within the text at a newline or the end, has the groups' shape and spells out the text there; `MatchAtCharacterised` gives the converse |
| LineGrammar.FindAll | preprocessor.py:24-25 | every findall result is the match the pattern finds at its own start, and the results do not overlap and come in text order |
| LineGrammar.FindAllEmpty | preprocessor.py:24-25 | findall returns nothing exactly when the pattern matches at no position of the text |
| Preprocessor.FindAllMatches | preprocessor.py:24-25 | every findall result is a match of the pattern |
| Preprocessor.ParseRowsAreKeptMatches | preprocessor.py:24-51 | row j of the table is built from the j-th match in text order whose stripped sender is not blank; the number of rows is the number of such matches |
| Preprocessor.KeptPositions | preprocessor.py:40 | the kept positions are exactly the matches the filter accepts, strictly increasing |
| Preprocessor.RowsAreKeptMatches | preprocessor.py:40-51 | the rows are one per kept match, in order, each built from its match and position |
| Preprocessor.NoFallbackToTwentyFourHour | preprocessor.py:28-40 | when the 12-hour pattern matches but every sender is blank, the table is empty even if 24-hour lines exist |
| Preprocessor.NoHeaderNoRows | preprocessor.py:36-37 | text where neither pattern matches anywhere gives the empty table |
| Preprocessor.RowsOfNothingKept | preprocessor.py:40 | when no match is kept there are no rows |
| Preprocessor.SingleRow | preprocessor.py:28-51 | a single match with a non-blank sender gives a one-row table built from it |
| Preprocessor.SingleMatch | preprocessor.py:24 | a text that is exactly one match yields that match alone |
| Preprocessor.BuildRecord | preprocessor.py:40-61 | a row carries the match's Date, Time and Message text, the stripped sender, the converted timestamp, and derived columns that agree with the timestamp (all missing when it is) |
| Preprocessor.ParseRowFacts | preprocessor.py:40-61 | every row has a non-empty, already stripped sender without colons, a Date starting with a digit, a non-empty one-line message, derived columns matching the timestamp, and a timestamp, when present, that is a real date with hour < 24 and minute < 60 inside pandas' range |
| Preprocessor.ParseDatesStartWithDigit | preprocessor.py:20-21 | every row's Date text is non-empty and starts with a digit |
| Preprocessor.ConvertStamp | preprocessor.py:30-35 | a timestamp exists only when the fields fit the format (day 1-31, month 1-12, four-digit year, 12-hour: hour 1-12 with whitespace before AM/PM, 24-hour: hour ≤ 23, minutes < 60), the date exists and lies in pandas' range; its date, hour and minute are then the fields' values |
| Preprocessor.ConvertStampAccepts | preprocessor.py:30-35 | conversely, fields that fit, a real date and an in-range moment always give a timestamp |
| Preprocessor.ShortYearHasNoStamp | preprocessor.py:30-35 | a year that is not four digits gives no timestamp |
| Preprocessor.NoGapHasNoStamp | preprocessor.py:30-31 | a 12-hour time without whitespace before AM/PM gives no timestamp |
| Preprocessor.MissingDayHasNoStamp | preprocessor.py:30-35 | a day the month does not have gives no timestamp |
| Preprocessor.To24Hour | preprocessor.py:30-31 | the 24-hour value is below 24, equal to the 12-hour value modulo 12, and in the afternoon exactly for PM |
| Preprocessor.To24HourUnique | preprocessor.py:30-31 | those three conditions determine the hour |
| Preprocessor.To24HourCases | preprocessor.py:30-31 | 12 AM is 0, 12 PM is 12, h AM is h and h PM is h + 12 for h < 12 |
| Preprocessor.DecimalTwo | preprocessor.py:30-35 | a two-digit field is worth ten times its first digit plus its second |
| Preprocessor.BoundsValues | preprocessor.py:30-35 | pandas' range at minute resolution is 1677-09-21 00:13 to 2262-04-11 23:47 |
| Preprocessor.ExampleLineMatches | preprocessor.py:20-24 | `1/2/2023, 9:05 PM - Al: Hi` is one 12-hour match with groups 1, 2, 2023, 9, 05, PM, Al, Hi |
| Preprocessor.ExampleStamp | preprocessor.py:30-31 | that match converts to 1 February 2023, 21:05 |
| Preprocessor.ExampleRecord | preprocessor.py:43-61 | its row has year 2023, month February, day Wednesday, hour 21, minute 5 |
| Preprocessor.RecordOfStamp | preprocessor.py:43-47 | a row whose timestamp converts carries the stripped sender, the message, and that timestamp's year, month name, day name, hour and minute |
| Preprocessor.ExampleTwelveHourLine | preprocessor.py:13-63 | the whole line parses to one row from Al on Wednesday 1 February 2023 at 21:05 |
| Preprocessor.ShortYearLineMatches | preprocessor.py:20-24 | `1/2/23, 9:05 PM - Al: Hi` matches the 12-hour pattern |
| Preprocessor.ExampleTwoDigitYear | preprocessor.py:30-31 | that line is kept as a row from Al with no timestamp and no day name |
| Calendar.NextDateWeekday | preprocessor.py:45 | the day name moves one weekday forward per calendar day |
| Calendar.DayOfWeek | preprocessor.py:45 | the day name's Monday-first position is `(toordinal() + 6) % 7`, Python's `weekday()`; with `NextDateWeekday` and `FirstOfFebruary2023` this pins every date's name |
| Calendar.NextDateOrdinal | preprocessor.py:45 | the next date is a valid date whose ordinal is one more |
| Calendar.FirstOfFebruary2023 | preprocessor.py:45 | 1 February 2023 is a Wednesday |
| Calendar.WeekOrderIndex | preprocessor.py:59-61 | each weekday's position is its place in the order Monday to Sunday |
| Text.Strip | preprocessor.py:50 | strip returns the slice between the leading and trailing whitespace; what it drops is whitespace, its ends are not, and it is empty exactly when the input is all whitespace |
| Text.StripTrimmed | preprocessor.py:50-51 | a string with no whitespace at its ends strips to itself |
| Text.StripIdempotent | preprocessor.py:50-51 | stripping twice is stripping once, so the second strip and filter change nothing |
| Text.Tokens | helpers.py:50 | `split()` gives non-empty tokens without whitespace that spell the input with its whitespace removed |
| Text.TokenCountIsWordStarts | helpers.py:50 | the number of tokens is the number of characters that begin a word |
| Text.TokensOfWord | helpers.py:50 | a non-empty string without whitespace splits into itself alone |
| Text.TokensSplitAtSpace | helpers.py:50 | a whitespace character splits the input into two halves that split independently; with `TokensOfWord` this fixes the token boundaries at the maximal non-whitespace runs |
| Text.TokensEmpty | helpers.py:50 | `split()` gives no tokens exactly for an all-whitespace string |
| Text.ExampleSplit | helpers.py:50 | `"ab cd".split()` is `["ab", "cd"]` |
| Helpers.CountWordsAppend | helpers.py:48-50 | the word count of two batches is the sum of their word counts |
| Helpers.CountWordsIsWordStarts | helpers.py:48-50 | the word count equals the number of word starts over all messages |
| Helpers.CountWords | helpers.py:48-50 | the total is 0 exactly when every message is whitespace only |
| Helpers.DetectOffensive | helpers.py:52-60 | every key counted is a listed word without whitespace, and there are no more hits than words |
| Helpers.Flagged | helpers.py:60 | the hits of one message are listed words, at most one per token |
| Helpers.OffensiveCountsAreTokenCounts | helpers.py:52-60 | each listed word is counted exactly as often as it occurs among the lowered tokens, and nothing else is counted |
| Helpers.MultiWordEntriesNeverCounted | helpers.py:57-60 | "fuck you" and "ma ka bhosda" are on the list but can never be counted |
| Helpers.CountWhere | helpers.py:62-68 | each message counts at most once; the count is 0 exactly when no message qualifies and the message count exactly when all do |
| Helpers.CountWhereAppend | helpers.py:62-68 | counts over two batches add |
| Helpers.CountMedia | helpers.py:62-63 | at most one per message; 0 exactly when no message contains `<Media omitted>`, all exactly when every one does |
| Helpers.MediaPlaceholderCounts | helpers.py:62-63 | a message with two placeholders counts once |
| Helpers.CountLinks | helpers.py:66-68 | at most one per message; 0 exactly when no message has a link, all exactly when every one does |
| Helpers.NotAvailableMeansEmpty | helpers.py:71-72 | when Date texts start with a digit, the first and last dates are "N/A" exactly when there are no rows |
| Helpers.FirstMessageDate | helpers.py:71-72 | "N/A" for an empty table, otherwise the Date text of the first row |
| Helpers.LastMessageDate | helpers.py:16-17 | "N/A" for an empty table, otherwise the Date text of the last row |
| Helpers.MessageDatesOfParse | helpers.py:16-17 | on a parsed table, "N/A" for the first or last date means exactly an empty table |
| Helpers.LongestMessage | helpers.py:75-76 | "" for no messages; otherwise no message is longer than the result, and the result is either "" (all messages empty) or the first message of greatest length |
| Helpers.FirstLongest | helpers.py:76 | `max(..., key=len)` is as long as any message and is the first one of that length |
| Helpers.TopUsers | helpers.py:87-88 | at most five senders, all of them when there are fewer, each with its true row count, distinct, counts non-increasing, and nobody left out has more rows than anybody listed |
| Ranking.ValueCounts | helpers.py:87-88 | each label of the column appears once with its number of occurrences, and counts are non-increasing |
| Ranking.ValueCountsSum | helpers.py:87-88 | the counts add up to the length of the column |
| Ranking.TopByCount | helpers.py:88 | the first n rows of `value_counts()` are the n largest, as `TopUsers` states |
| Ranking.LeftOutNotMore | helpers.py:88 | a label past the first n rows occurs no more often than any of them |
| Ranking.Largest | helpers.py:88 | `nlargest(n)` on a largest-first column keeps its first min(n, length) rows |
| Ranking.Distinct | helpers.py:87 | the distinct labels, each once, are exactly the labels of the column |
| Ranking.RankByCount | helpers.py:87 | ranking keeps the same labels, without duplicates, ordered by non-increasing count |
| Helpers.EmojisOf | helpers.py:92 | the emojis of one message are accepted characters, at most one per character |
| Helpers.ExtractEmojis | helpers.py:91-93 | every key is an emoji, and there are no more than the characters of all messages |
| Helpers.EmojiCountsAreCharacterCounts | helpers.py:91-93 | each emoji is counted exactly as often as it occurs in the messages, every other character not at all |
| Tallies.Sentiment | helpers.py:79-84 | the dictionary has exactly the keys Positive, Negative and Neutral; each holds the number of messages with polarity > 0, < 0 or = 0 respectively; they add up to the number of messages |
| Tallies.BucketsPartition | helpers.py:79-84 | every message lands in exactly one bucket |
| Tallies.SentimentTallyStep | helpers.py:82-83 | one more message adds one to its own bucket and leaves the others alone |
| Tallies.AnalyzeActiveDays | helpers.py:96-112 | seven counts, Monday to Sunday, each the number of rows with that day name (0 for a missing day); they add up to the rows that have a day name; percentages all 0 when that total is 0, otherwise each count's share and summing to 100 |
| Tallies.WeekCountsStep | helpers.py:101-104 | one more row adds one to its own day and nothing elsewhere |
| Tallies.OneDayMatches | helpers.py:101-104 | a day name is exactly one of the seven, a missing one none |
| Tallies.WeekCountsSum | helpers.py:106 | the seven counts add up to the rows that have a day name |
| Tallies.PercentagesSum | helpers.py:107-110 | with a positive total the seven percentages add up to 100 |
| Tallies.ConversationStarters | helpers.py:128-147 | empty input gives an empty result; otherwise it is `value_counts()` of the first sender of each readable date, and the counts add up to the number of distinct dates the rows' Date texts convert to |
| Tallies.CollectDated | helpers.py:134-139 | the conversion loop keeps exactly the rows whose Date converts, as `Dated` |
| Tallies.Dated | helpers.py:134-140 | at most one post per row; no convertible row means no posts |
| Tallies.DatedPosts | helpers.py:134-140 | a post is kept exactly when some row's Date converts to its date and the row has its sender: `dropna` loses no converted row and adds nothing |
| Tallies.DatedAppend | helpers.py:134-140 | converting two batches of rows gives the posts of the first followed by those of the second |
| Tallies.DatedOne | helpers.py:134-140 | one row gives its post when its Date converts, nothing otherwise |
| Tallies.DatesOfDated | helpers.py:134-143 | the dates of the posts are exactly the dates the Date column converts to |
| Tallies.FirstPosts | helpers.py:140-143 | the loop that remembers the dates seen keeps exactly `FirstPerDate` |
| Tallies.FirstPerDate | helpers.py:140-144 | the kept posts come from the input, have pairwise different dates, and cover every date that occurs |
| Tallies.FirstPerDateKeepsFirsts | helpers.py:141-144 | a post is kept exactly when it is in the input at a place where no earlier post has its date, which is what a stable sort followed by `first()` picks |
| Tallies.FirstOfLast | helpers.py:141-144 | the last post is the first of its date exactly when no earlier post has that date |
| Tallies.StarterCountsSum | helpers.py:134-146 | the starter counts add up to the number of distinct dates the Date column converts to |
| Tallies.DistinctDatesCount | helpers.py:143 | posts on pairwise different dates number as many as their dates |
| Tallies.DatesOfHasPost | helpers.py:142-143 | every date in the set of dates has a post on it |

## Left out

- The Streamlit page, its charts, uploads and decoding (app.py), and the `GraphStyler` theme object (helpers.py:20-46), which holds presentation state only.
- Tallies.Sentiment: TextBlob's polarity is a parameter, so only the bucketing and the tally are modelled; the score itself is not.
- Helpers.ExtractEmojis: `emoji.is_emoji` is a parameter. The result is a multiset; `Counter`'s key order is not modelled.
- Helpers.CountLinks: the URL pattern (with `\b` and the list of top-level domains) is a parameter `hasLink`; only the per-message counting is modelled.
- Tallies.ConversationStarters: the conversion of the Date column with `dayfirst=True` is the parameter `dayFirst`, one function per call. pandas' choice of a single format from the first non-missing Date is not modelled; it only decides which function `dayFirst` is. The `try`/`except` branch around the conversion is not modelled because the conversion is total here.
- Tallies.ConversationStarters: `sort_values` is not guaranteed stable. The model takes the first row of each date in text order, which is what a stable sort gives. Among senders with equal counts it lists them in order of first start, not in the date order that `groupby` gives. Counts and the set of senders are unaffected.
- Ranking.ValueCounts: pandas leaves the order of equal counts unspecified. The model puts them in order of first appearance, and the contracts do not depend on it.
- Tallies.AnalyzeActiveDays: the percentages are exact rationals. Floating-point division and `round(2)` are not modelled, so after rounding the sum is 100 only approximately.
- Tallies.Percentages: states only the length of its result. The values are stated by `Tallies.AnalyzeActiveDays` and `Tallies.PercentagesSum`.
- Preprocessor.Decimal: a non-digit counts as 0, but the patterns never let a non-digit into a numeric field.
- The regex classes `\d` and `\s` are taken as the ASCII digits and Python's whitespace set. Python's `\d` also accepts other Unicode decimal digits. `str.lower()` is modelled only as far as it can produce ASCII letters.
- The DataFrame's columns are modelled as fields of `MessageRecord`. The categorical dtype of `day` is the `Weekday` type, and pandas' float dtype for the year, hour and minute columns with missing values is not modelled. The empty DataFrame returned without a header match has a different column set; the model gives an empty sequence.
- The first definition of `get_conversation_starters` (helpers.py:115-125) is replaced by the second one. The column assignments at helpers.py:149-157 only change a local copy after the result is built.
- Preprocessor.ConvertStamp: the range 1677-09-21 00:12:43 to 2262-04-11 23:47:16 is that of pandas' nanosecond timestamps (`datetime64[ns]`), the resolution `to_datetime` gives by default. The source does not pin a pandas version, and the model assumes one that parses to nanoseconds; a version that parses to a coarser resolution accepts dates outside this range.
- pandas timestamps are modelled to the minute. The chat format has no seconds, so this loses nothing for the range check.
