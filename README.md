# Dota pro-match statistics, modelled in Dafny

This project models the engine of `get_pro_match_stats` from the Dota Pro Match
Analyzer (`python.py`). The function works through the OpenDota `proMatches`
feed page by page, newest first, and keeps the matches of one selected UTC
year. While it reads, it accumulates counts, durations, kills, the longest and
shortest games and the start times. At the end it reports averages, bucket
shares and the date range.

The model has these modules:

- `Matches`: the match record and the duration buckets. Short games last under
  1800 s, medium ones 1800 to 2400 s inclusive, long ones over 2400 s.
- `Calendar`: the UTC calendar year and date of a Unix timestamp, in integer
  proleptic Gregorian arithmetic. This is what `datetime.fromtimestamp(ts,
  timezone.utc)` computes. It also gives the range of timestamps that call
  accepts where the platform's C `gmtime` covers every `datetime` year, as on
  64-bit Linux and macOS (years 1 to 9999).
- `DateText`: the `%Y-%m-%d` text of a date, and Python's `<=`, `min` and
  `max` on strings.
- `Aggregation`:
  - the accumulators as a value (`Tally`);
  - what one record of the selected year adds to them (`Add`, `TallyOf`);
  - the lemmas that say what they hold;
  - the `Aggregator` class, which keeps the accumulators and the pagination
    cursor and updates them in place while a page is scanned (`Consume`).
- `Report`: the tail of the function. A run with no match reports "no data".
  Otherwise it reports the averages, each bucket's share and guarded average
  kills, and the date range as `min`/`max` of the date texts.
- `Pagination`: the page loop (`GetProMatchStats`). It sends the cursor only
  when `last_match_id` is set and non-zero. It stops after an empty reply, or
  after a page whose last record is from an earlier year than the selected
  one. The service is modelled as a finite sequence of replies: request `k`
  gets `feed[k]`, and gets an empty page once the feed is exhausted. The
  driver returns the outcome and the cursor each request carried.
- `Scenarios`: small concrete runs.

A timestamp outside that range makes `datetime.fromtimestamp` raise, and that ends the run. The model returns this
as the outcome `TimestampOutOfRange(matchId)`.

## Model

| member | source | states |
|---|---|---|
| `Aggregation.Initial` | python.py:15-30 | (definition) zero counts and sums, longest 0 with no id, infinite shortest with no id, no start dates |
| `Aggregation.Add` | python.py:58-87 | (definition) one pass of the loop body over a record of the selected year |
| `Aggregation.Selected` | python.py:57 | (definition) the records whose time falls within the selected UTC year, in feed order; see `SelectedIsYearFilter` |
| `Calendar.YearOfTimestamp` | python.py:53-54 | (definition) the UTC year of a timestamp; see `YearBoundaries` |
| `Calendar.DateOfTimestamp` | python.py:117 | a valid date whose year is the timestamp's UTC year |
| `Calendar.InDatetimeRange` | python.py:53 | (definition) the timestamps `fromtimestamp` accepts; see `DatetimeRangeIsYearRange` |
| `Pagination.StopsAfter` | python.py:93-94 | (definition) the page is empty or its last record starts before the selected year; see `StopsAfterIsYearTest` |
| `Pagination.StopsAfterIsYearTest` | python.py:93-94 | for a non-empty page, the stop test holds iff the last record's UTC year is below the selected year |
| `Pagination.StopIndex` | python.py:49-94 | (definition) the index of the first reply that is empty, fails, or ends before the year; see `StopIndexIsFirstStop` |
| `Report.RepresentableIsNoFailure` | python.py:52-53 | every time in a list is representable iff the scan over it finds no failure |
| `Matches.Classify` | python.py:76-84 | a duration is short iff it is under 1800, medium iff it lies in 1800..2400, long iff it is over 2400 (so exactly one bucket) |
| `Aggregation.TallyOf` | python.py:57-87 | after the records taken, the match count is their number and the start times are theirs, one per match, in feed order |
| `Aggregation.TallyOfAppend` | python.py:58-87 | taking one more record of the year changes the accumulators exactly as one pass of the loop body does |
| `Aggregation.FirstOutOfRange` | python.py:52-53 | the scan reaches index `k`: every earlier record has a time `datetime` can represent, and record `k`, if any, has not |
| `Aggregation.SelectedIsYearFilter` | python.py:53-57 | the records taken are exactly those whose UTC year is the selected one |
| `Aggregation.SelectedAppend` | python.py:52-57 | selecting over records read in two stretches is selecting over each stretch in turn |
| `Aggregation.SelectedPrefix` | python.py:57-87 | scanning one more record takes it iff its time falls within the selected year |
| `Aggregation.ScanStep` | python.py:52-57 | within a page, the scan fails at record `i` iff that record's time is out of range; otherwise the selection grows by the record iff it is from the year |
| `Aggregation.OtherYearChangesNothing` | python.py:57-90 | a record of another year leaves every accumulator as it was |
| `Aggregation.TallySums` | python.py:58-84 | total time, Radiant and Dire kills are the sums over the matches taken; total kills = Radiant + Dire; each bucket's count and kills are those of its matches |
| `Aggregation.BucketsPartition` | python.py:76-84 | the three bucket counts add up to the match count and the three bucket kill sums to total kills; an empty bucket has no kills |
| `Aggregation.LongestIsFirstMaximum` | python.py:68-70 | the longest time is at least every duration and at least 0; its id is that of the first record with that duration; with no positive duration it stays 0 with no id |
| `Aggregation.ShortestIsFirstMinimum` | python.py:71-73 | the shortest time is infinite with no id iff no match was taken; otherwise it is the smallest duration and its id is that of the first record with it |
| `Aggregation.ShortestAtMostLongest` | python.py:68-73 | once a match was taken, the shortest time is finite and no longer than the longest |
| `Aggregation.Aggregator.constructor` | python.py:15-31 | the accumulators start as zeros with an infinite shortest time, no ids, no start dates and no cursor |
| `Aggregation.Aggregator.Take` | python.py:58-87 | the accumulators become `Add` of the old ones and the record; the cursor is untouched |
| `Aggregation.Aggregator.CountMatch` | python.py:58-65 | the count grows by one; time, total, Radiant and Dire kills grow by the record's values |
| `Aggregation.Aggregator.TrackExtremes` | python.py:68-73 | only a strictly longer (shorter) game replaces the longest (shortest) time and id |
| `Aggregation.Aggregator.AddToBucket` | python.py:76-84 | the one bucket the duration falls in gains the game and its kills; the other two are unchanged |
| `Aggregation.Aggregator.ScanRecord` | python.py:53-90 | returns the record's UTC year and whether `datetime` can represent its time; a representable record moves the cursor to its id and is taken iff it is from the selected year; a record of another year changes no accumulator |
| `Aggregation.Aggregator.Consume` | python.py:52-90 | after a page, the records taken are those of the year up to the first unrepresentable time, and the cursor is the id of the last record scanned; the result is that record's id, or else the year of the page's last record |
| `Calendar.YearLength` | python.py:53-54 | the days before year `y + 1` are those before `y` plus the length of `y` (366 in a leap year) |
| `Calendar.YearOfDayBounds` | python.py:53-54 | the year derived for a day number is the one whose first day is at or before it and whose successor's first day is after it |
| `Calendar.YearOfDayUnique` | python.py:53-54 | a day within year `y` is assigned year `y` |
| `Calendar.YearOfTimestampMonotone` | python.py:53-54 | a later timestamp never has an earlier UTC year |
| `Calendar.YearBoundaries` | python.py:93-94 | a timestamp's year is below `y` iff it precedes the first second of `y`, and equals `y` iff it lies within that year |
| `Calendar.DatetimeRangeIsYearRange` | python.py:53 | `datetime` can represent a timestamp iff its UTC year lies in 1..9999 |
| `Calendar.EpochDayIsStartOf1970` | python.py:53 | timestamp 0 is the first second of 1970 |
| `Calendar.DateOfDay` | python.py:117 | the date of a day number is a valid date in the year of that day, and maps back to the same day |
| `Calendar.DateOrderIsDayOrder` | python.py:117 | of two valid dates, one is no later than the other iff its day number is no larger |
| `Calendar.DateOfDayOfDate` | python.py:117 | every valid date is the date of its own day number |
| `Calendar.DateOfTimestampMonotone` | python.py:117 | a later timestamp never has an earlier UTC date |
| `DateText.FormatDate` | python.py:117 | `%Y-%m-%d` is ten characters with dashes at positions 4 and 7 |
| `DateText.DigitsOrder` | python.py:117 | zero-padded digit strings of one width compare as the numbers do |
| `DateText.FormatDateOrder` | python.py:117-118 | the `%Y-%m-%d` texts of two dates compare as the dates do |
| `DateText.LexMin` | python.py:118 | `min` of a non-empty list of strings is one of them and `<=` every one |
| `DateText.LexMax` | python.py:118 | `max` of a non-empty list of strings is one of them and `>=` every one |
| `Report.Ratio` | python.py:101-104 | true division: the quotient times the divisor is the dividend |
| `Report.BucketAverage` | python.py:107-109 | an empty bucket averages 0; otherwise average times count is the bucket's kills; the average is 0 iff the bucket is empty or its kills add up to 0 |
| `Report.DateTextOf` | python.py:117 | a representable timestamp has a ten-character date text |
| `Report.DateTexts` | python.py:117 | the list of date texts has one entry per start time, each that time's text |
| `Report.BucketStatsOf` | python.py:107-114 | a bucket's share times the match count is 100 times its count, and its average kills are the guarded average |
| `Report.Summarize` | python.py:100-114 | average minutes × 60 × count = total time; average total, Radiant and Dire kills × count = their sums; each bucket's line comes from its count and kills; longest and shortest pass through |
| `Report.Build` | python.py:96-118 | no data iff no match was taken; otherwise the first and last dates are among the date texts and are the least and greatest of them |
| `Report.SharesSumToHundred` | python.py:112-114 | when the buckets split the matches, the three percentages add up to exactly 100 |
| `Report.PercentagesSumToHundred` | python.py:112-114 | every report's three bucket percentages add up to exactly 100 |
| `Report.KillAveragesSplit` | python.py:102-104 | when kills split into Radiant and Dire, average total kills = average Radiant + average Dire kills |
| `Report.AverageKillsSplit` | python.py:102-104 | every report's average total kills is its average Radiant plus its average Dire kills |
| `Report.BucketAverageWeighs` | python.py:107-109 | a bucket's average times its count is its kills whenever an empty bucket has no kills |
| `Report.WeightedBucketAverages` | python.py:107-109 | when the buckets split the kills, the bucket averages weighted by their counts add up to total kills |
| `Report.BucketAveragesWeighTotalKills` | python.py:107-109 | for every run, the bucket averages weighted by their counts add up to total kills |
| `Report.ReportedShortestAtMostLongest` | python.py:68-73 | in every report the shortest game is finite and no longer than the longest |
| `Report.DateTextMonotone` | python.py:117 | a later representable timestamp never has a smaller date text |
| `Report.DateRangeEndpoints` | python.py:117-118 | `min` of the date texts is the text of the earliest timestamp and `max` that of the latest |
| `Report.ReportedDateRange` | python.py:116-118 | the reported range runs from the date of the earliest match taken to the date of the latest |
| `Pagination.RequestCursor` | python.py:35-37 | a request carries a cursor iff the last id is set and non-zero, and then it is that id |
| `Pagination.Finish` | python.py:52-118 | a run fails iff some record read has an unrepresentable time, and then it names such a record; it reports no data iff every time is representable and no record is from the year |
| `Pagination.SelectedRepresentable` | python.py:53-57 | the matches taken from representable records are representable |
| `Pagination.FirstOutOfRangeAppend` | python.py:52-53 | after records that all scan cleanly, the first failure is found in what follows |
| `Pagination.ScannedPage` | python.py:52-90 | a page that scans cleanly extends what was read: no failure, the selection grows by the page's own, the cursor is its last id |
| `Pagination.FailedPage` | python.py:52-53 | a failure in the newest page is the first failure of everything read |
| `Pagination.Cursors` | python.py:34-37 | one cursor per request made |
| `Pagination.StopIndexIsFirstStop` | python.py:49-94 | the run's last request is the first whose reply is empty, fails, or ends before the year; every earlier reply does none of these |
| `Pagination.CursorAt` | python.py:35-37 | (definition) the cursor of request `k`: `RequestCursor` of the last id read before it |
| `Pagination.CursorsSnoc` | python.py:34-37 | one more request appends its own cursor and keeps the earlier ones |
| `Pagination.CursorsAt` | python.py:36-37 | request `k` carries the cursor made from the last id read before it (`CursorAt`) |
| `Pagination.PageBeforeStopNonEmpty` | python.py:49-50 | every reply before the last one read is non-empty |
| `DateText.LexLe` | python.py:118 | (definition) Python's `<=` on strings: character by character, a proper prefix first; a total order (see `LexLeReflexive`, `LexLeTotal`, `LexLeAntisymmetric`, `LexLeTransitive`) |
| `DateText.LexLeReflexive` | python.py:118 | every string is `<=` itself |
| `DateText.LexLeTotal` | python.py:118 | any two strings are comparable |
| `DateText.LexLeAntisymmetric` | python.py:118 | two strings each `<=` the other are equal |
| `DateText.LexLeTransitive` | python.py:118 | `<=` on strings is transitive |
| `Pagination.LastId` | python.py:89-90 | (definition) `last_match_id` after the records read: None before any, else the last record's id; see `LastIdAfterPage` |
| `Pagination.LastIdAfterPage` | python.py:89-90 | after a non-empty reply, the last id read is that reply's last id |
| `Pagination.FirstRequestHasNoCursor` | python.py:31-37 | the first request carries no cursor |
| `Pagination.NextCursorIsLastRecord` | python.py:36-37 | each later request carries the cursor made from the id of the last record of the previous reply, which was not empty |
| `Pagination.GetProMatchStats` | python.py:11-118 | the run makes one request more than the index of its stopping reply; the cursors sent are `Cursors`; the outcome is `Finish` over all records read |
| `Pagination.ReadPages` | python.py:34-94 | reads up to the stopping reply with the right cursors; then either everything read scanned cleanly and the accumulators hold the year's records, or it names the first unrepresentable record |
| `Pagination.ScanPage` | python.py:52-94 | scanning one reply fails iff the page has an unrepresentable time; otherwise it extends what was read and reports a year below the selected one iff the page ends before that year |
| `Pagination.Conclude` | python.py:96-118 | the outcome of a clean run is `Finish` over what was read |
| `Scenarios.YearsOfThePages` | python.py:53-54 | the sample timestamps fall in 2023 and 2022 |
| `Scenarios.OnePageOfTheYear` | python.py:52-87 | one page of 2023 gives one game per bucket, longest 3000 s (id 101), shortest 1000 s (id 103), 30 kills per game on average |
| `Scenarios.StopsAtAnOlderPage` | python.py:93-94 | a first page from 2022, read for 2023, is the last one requested |
| `Scenarios.NothingFromTheYear` | python.py:96-98 | that run reports no data |
| `Scenarios.StopsAfterTheYear` | python.py:89-94 | a page of 2023 then a page of 2022, read for 2023: the second is the last requested |
| `Scenarios.OnlyTheYearCounts` | python.py:57 | of those two pages only the 2023 one is taken |
| `Scenarios.SecondRequestCarriesCursor` | python.py:36-37 | the second request carries the id of the first page's last match |
| `Scenarios.SelectedAll` | python.py:57 | records all of the year are all taken; records all of other years are none taken |

## Left out

- `Calendar.InDatetimeRange`: the representable range is the one a 64-bit POSIX
  `gmtime` gives (years 1 to 9999). Where `gmtime` is narrower (Windows rejects
  negative timestamps; some platforms stop at 1970-2038), the source raises on
  more timestamps than the model does.
- HTTP: `requests.get`, the parameters dict, the 429 branch and `raise_for_status`
  (python.py:39-47). These are network I/O and a sleep-and-retry with no result to
  state. The replies are the abstract `feed`; a reply past its end is empty.
- `response.json()` and missing keys: records arrive as typed values, so a
  `KeyError` is not modelled.
- Floating point: averages and percentages are exact `real` quotients. No claim
  is made about float rounding or the `:.2f` formatting.
- The results text, the GUI, `webbrowser` and `pyperclip` (python.py:120 onward).
- `%Y` is formatted as four digits. CPython's `strftime` may leave years below
  1000 unpadded. The collected dates all share the selected year, so this does
  not change which date is `min` or `max`.
- The feed is finite. The source reads forever only if every reply is
  non-empty, scans without raising, and ends with a record of the selected year
  or later; the model's feed is finite, so its run always ends.
- Aliasing of the accumulators: there is one `Aggregator` per run and no other
  reference to it.
