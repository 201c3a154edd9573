/**
  The end of a run: "no data" when no match of the selected year was found,
  otherwise the averages, the bucket shares and kill averages, the longest and
  shortest games and the range of match dates. Averages are exact rationals.
 */
module Report {
  import opened Wrappers
  import opened Calendar
  import opened DateText
  import opened Matches
  import opened Aggregation

  /** Count, share of all matches (in percent) and average kills of one duration bucket. */
  datatype BucketStats = BucketStats(count: nat, percentage: real, avgKills: real)

  datatype Summary = Summary(
    firstDate: string,
    lastDate: string,
    numMatches: nat,
    avgGameTimeMinutes: real,
    longestGameTime: int,
    longestGameId: Option<int>,
    shortestGameTime: Shortest,
    shortestGameId: Option<int>,
    short: BucketStats,
    medium: BucketStats,
    long: BucketStats,
    avgTotalKills: real,
    avgRadiantKills: real,
    avgDireKills: real)

  /** What a run ends with: the statistics, the "no data" notice, or the failure on an unrepresentable time. */
  datatype Outcome = Stats(summary: Summary) | NoData | TimestampOutOfRange(matchId: int)

  /** `part / whole` as an exact rational. */
  function Ratio(part: int, whole: nat): (r: real)
    requires whole > 0
    ensures r * whole as real == part as real
  {
    part as real / whole as real
  }

  /** Average kills of a bucket, guarded: an empty bucket averages 0. */
  function BucketAverage(kills: int, count: nat): (avg: real)
    ensures count == 0 ==> avg == 0.0
    ensures count > 0 ==> avg * count as real == kills as real
    ensures avg == 0.0 <==> count == 0 || kills == 0
  {
    if count == 0 then 0.0 else Ratio(kills, count)
  }

  /** The `%Y-%m-%d` text of a timestamp's UTC date. */
  function DateTextOf(ts: int): (s: string)
    requires InDatetimeRange(ts)
    ensures |s| == 10
  {
    var d := DateOfTimestamp(ts);
    DatetimeRangeIsYearRange(ts);
    DaysBeforeMonthFacts(d.year, d.month);
    FormatDate(d)
  }

  function DateTexts(ts: seq<int>): (ds: seq<string>)
    requires forall i :: 0 <= i < |ts| ==> InDatetimeRange(ts[i])
    ensures |ds| == |ts|
    ensures forall i :: 0 <= i < |ts| ==> ds[i] == DateTextOf(ts[i])
  {
    seq(|ts|, i requires 0 <= i < |ts| => DateTextOf(ts[i]))
  }

  /** The line of the report for one bucket of `count` games out of `numMatches`. */
  function BucketStatsOf(count: nat, kills: int, numMatches: nat): (b: BucketStats)
    requires numMatches > 0
    ensures b.count == count
    ensures b.percentage * numMatches as real == 100.0 * count as real
    ensures b.avgKills == BucketAverage(kills, count)
  {
    var share := Ratio(count, numMatches);
    assert (share * 100.0) * numMatches as real == 100.0 * (share * numMatches as real);
    BucketStats(count, share * 100.0, BucketAverage(kills, count))
  }

  /** The statistics of a non-empty run, given the first and last match dates. */
  function Summarize(t: Tally, firstDate: string, lastDate: string): (s: Summary)
    requires t.numMatches > 0
    ensures s.firstDate == firstDate && s.lastDate == lastDate
    ensures s.numMatches == t.numMatches
    ensures s.avgGameTimeMinutes * (60 * t.numMatches) as real == t.totalGameTime as real
    ensures s.avgTotalKills * t.numMatches as real == t.totalKills as real
    ensures s.avgRadiantKills * t.numMatches as real == t.radiantKills as real
    ensures s.avgDireKills * t.numMatches as real == t.direKills as real
    ensures s.short == BucketStatsOf(t.shortGamesCount, t.shortKills, t.numMatches)
    ensures s.medium == BucketStatsOf(t.mediumGamesCount, t.mediumKills, t.numMatches)
    ensures s.long == BucketStatsOf(t.longGamesCount, t.longKills, t.numMatches)
    ensures s.longestGameTime == t.longestGameTime && s.longestGameId == t.longestGameId
    ensures s.shortestGameTime == t.shortestGameTime && s.shortestGameId == t.shortestGameId
  {
    var n := t.numMatches;
    Summary(
      firstDate := firstDate,
      lastDate := lastDate,
      numMatches := n,
      avgGameTimeMinutes := Ratio(t.totalGameTime, n) / 60.0,
      longestGameTime := t.longestGameTime,
      longestGameId := t.longestGameId,
      shortestGameTime := t.shortestGameTime,
      shortestGameId := t.shortestGameId,
      short := BucketStatsOf(t.shortGamesCount, t.shortKills, n),
      medium := BucketStatsOf(t.mediumGamesCount, t.mediumKills, n),
      long := BucketStatsOf(t.longGamesCount, t.longKills, n),
      avgTotalKills := Ratio(t.totalKills, n),
      avgRadiantKills := Ratio(t.radiantKills, n),
      avgDireKills := Ratio(t.direKills, n))
  }

  /**
    The report for the final accumulators: no match means no data (and no
    division); otherwise the statistics, dated from the smallest to the largest
    `%Y-%m-%d` text among the matches taken.
   */
  function Build(t: Tally): (r: Outcome)
    requires |t.startDates| == t.numMatches
    requires forall i :: 0 <= i < |t.startDates| ==> InDatetimeRange(t.startDates[i])
    ensures r.NoData? <==> t.numMatches == 0
    ensures !r.TimestampOutOfRange?
    ensures r.Stats? ==>
      var dates := DateTexts(t.startDates);
      && r.summary.firstDate in dates
      && r.summary.lastDate in dates
      && (forall s <- dates :: LexLe(r.summary.firstDate, s) && LexLe(s, r.summary.lastDate))
      && r.summary == Summarize(t, r.summary.firstDate, r.summary.lastDate)
  {
    if t.numMatches == 0 then NoData
    else
      var dates := DateTexts(t.startDates);
      Stats(Summarize(t, LexMin(dates), LexMax(dates)))
  }

  /** The records a run takes, all with representable times. */
  ghost predicate Representable(ms: seq<Record>) {
    forall i :: 0 <= i < |ms| ==> InDatetimeRange(ms[i].startTime)
  }

  /** Every time is representable exactly when the scan finds no failure. */
  lemma RepresentableIsNoFailure(ms: seq<Record>)
    ensures Representable(ms) <==> FirstOutOfRange(ms) == |ms|
  {
    if FirstOutOfRange(ms) < |ms| {
      assert !InDatetimeRange(ms[FirstOutOfRange(ms)].startTime);
    }
  }

  /** A positive factor cancels. */
  lemma Cancel(x: real, y: real, n: real)
    requires n > 0.0 && x * n == y * n
    ensures x == y
  {
  }

  /** Shares of one whole add up. */
  lemma RatioAdd(a: int, b: int, n: nat)
    requires n > 0
    ensures Ratio(a, n) + Ratio(b, n) == Ratio(a + b, n)
  {
    var x, y := Ratio(a, n), Ratio(b, n);
    assert (x + y) * n as real == x * n as real + y * n as real;
    Cancel(x + y, Ratio(a + b, n), n as real);
  }

  /** The whole is all of itself. */
  lemma RatioWhole(n: nat)
    requires n > 0
    ensures Ratio(n, n) == 1.0
  {
    Cancel(Ratio(n, n), 1.0, n as real);
  }

  /** When the buckets partition the matches, their shares add up to exactly 100 percent. */
  lemma SharesSumToHundred(t: Tally, firstDate: string, lastDate: string)
    requires t.numMatches > 0
    requires t.shortGamesCount + t.mediumGamesCount + t.longGamesCount == t.numMatches
    ensures var s := Summarize(t, firstDate, lastDate);
      s.short.percentage + s.medium.percentage + s.long.percentage == 100.0
  {
    var n := t.numMatches;
    RatioAdd(t.shortGamesCount, t.mediumGamesCount, n);
    RatioAdd(t.shortGamesCount + t.mediumGamesCount, t.longGamesCount, n);
    RatioWhole(n);
  }

  /** The three bucket shares of a report add up to exactly 100 percent. */
  lemma PercentagesSumToHundred(ms: seq<Record>)
    requires Representable(ms)
    ensures var r := Build(TallyOf(ms));
      r.Stats? ==> r.summary.short.percentage + r.summary.medium.percentage + r.summary.long.percentage == 100.0
  {
    var r := Build(TallyOf(ms));
    if r.Stats? {
      BucketsPartition(ms);
      SharesSumToHundred(TallyOf(ms), r.summary.firstDate, r.summary.lastDate);
    }
  }

  /** When the kills split into Radiant and Dire kills, so does their average. */
  lemma KillAveragesSplit(t: Tally, firstDate: string, lastDate: string)
    requires t.numMatches > 0
    requires t.totalKills == t.radiantKills + t.direKills
    ensures var s := Summarize(t, firstDate, lastDate);
      s.avgTotalKills == s.avgRadiantKills + s.avgDireKills
  {
    RatioAdd(t.radiantKills, t.direKills, t.numMatches);
  }

  /** The average total kills of a report is its average Radiant kills plus its average Dire kills. */
  lemma AverageKillsSplit(ms: seq<Record>)
    requires Representable(ms)
    ensures var r := Build(TallyOf(ms));
      r.Stats? ==> r.summary.avgTotalKills == r.summary.avgRadiantKills + r.summary.avgDireKills
  {
    var r := Build(TallyOf(ms));
    if r.Stats? {
      TallySums(ms);
      KillAveragesSplit(TallyOf(ms), r.summary.firstDate, r.summary.lastDate);
    }
  }

  /** A bucket's average kills times its count is its kills, an empty bucket having none. */
  lemma BucketAverageWeighs(kills: int, count: nat)
    requires count == 0 ==> kills == 0
    ensures BucketAverage(kills, count) * count as real == kills as real
  {
  }

  /** When the buckets split the kills, their averages weighted by their numbers of matches add up to the kills. */
  lemma WeightedBucketAverages(t: Tally)
    requires BucketsSplit(t)
    ensures BucketAverage(t.shortKills, t.shortGamesCount) * t.shortGamesCount as real
      + BucketAverage(t.mediumKills, t.mediumGamesCount) * t.mediumGamesCount as real
      + BucketAverage(t.longKills, t.longGamesCount) * t.longGamesCount as real
      == t.totalKills as real
  {
    BucketAverageWeighs(t.shortKills, t.shortGamesCount);
    BucketAverageWeighs(t.mediumKills, t.mediumGamesCount);
    BucketAverageWeighs(t.longKills, t.longGamesCount);
  }

  /** Weighting each bucket's average kills by its number of matches gives back the total kills. */
  lemma BucketAveragesWeighTotalKills(ms: seq<Record>)
    ensures var t := TallyOf(ms);
      BucketAverage(t.shortKills, t.shortGamesCount) * t.shortGamesCount as real
      + BucketAverage(t.mediumKills, t.mediumGamesCount) * t.mediumGamesCount as real
      + BucketAverage(t.longKills, t.longGamesCount) * t.longGamesCount as real
      == t.totalKills as real
  {
    var t := TallyOf(ms);
    BucketsPartition(ms);
    assert BucketsSplit(t);
    WeightedBucketAverages(t);
  }

  /** The reported shortest game is finite and no longer than the reported longest one. */
  lemma ReportedShortestAtMostLongest(ms: seq<Record>)
    requires Representable(ms)
    ensures var r := Build(TallyOf(ms));
      r.Stats? ==> r.summary.shortestGameTime.Seconds? && r.summary.shortestGameTime.value <= r.summary.longestGameTime
  {
    if ms != [] {
      ShortestAtMostLongest(ms);
    }
  }

  /** A later time never has a smaller date text. */
  lemma DateTextMonotone(t1: int, t2: int)
    requires InDatetimeRange(t1) && InDatetimeRange(t2) && t1 <= t2
    ensures LexLe(DateTextOf(t1), DateTextOf(t2))
  {
    var d1, d2 := DateOfTimestamp(t1), DateOfTimestamp(t2);
    DaysBeforeMonthFacts(d1.year, d1.month);
    DaysBeforeMonthFacts(d2.year, d2.month);
    DatetimeRangeIsYearRange(t1);
    DatetimeRangeIsYearRange(t2);
    DateOfTimestampMonotone(t1, t2);
    FormatDateOrder(d1, d2);
  }

  /** Among date texts, the smallest is that of the earliest timestamp and the largest that of the latest. */
  lemma DateRangeEndpoints(ts: seq<int>, lo: int, hi: int)
    requires forall i :: 0 <= i < |ts| ==> InDatetimeRange(ts[i])
    requires 0 <= lo < |ts| && forall j :: 0 <= j < |ts| ==> ts[lo] <= ts[j]
    requires 0 <= hi < |ts| && forall j :: 0 <= j < |ts| ==> ts[j] <= ts[hi]
    ensures LexMin(DateTexts(ts)) == DateTextOf(ts[lo])
    ensures LexMax(DateTexts(ts)) == DateTextOf(ts[hi])
  {
    var ds := DateTexts(ts);
    forall s <- ds
      ensures LexLe(ds[lo], s) && LexLe(s, ds[hi])
    {
      var j :| 0 <= j < |ds| && ds[j] == s;
      DateTextMonotone(ts[lo], ts[j]);
      DateTextMonotone(ts[j], ts[hi]);
    }
    LexMinIs(ds, ds[lo]);
    LexMaxIs(ds, ds[hi]);
  }

  /** The reported date range runs from the date of the earliest match taken to the date of the latest. */
  lemma ReportedDateRange(ms: seq<Record>, lo: int, hi: int)
    requires Representable(ms)
    requires 0 <= lo < |ms| && forall j :: 0 <= j < |ms| ==> ms[lo].startTime <= ms[j].startTime
    requires 0 <= hi < |ms| && forall j :: 0 <= j < |ms| ==> ms[j].startTime <= ms[hi].startTime
    ensures Build(TallyOf(ms)).Stats?
    ensures Build(TallyOf(ms)).summary.firstDate == DateTextOf(ms[lo].startTime)
    ensures Build(TallyOf(ms)).summary.lastDate == DateTextOf(ms[hi].startTime)
  {
    DateRangeEndpoints(TallyOf(ms).startDates, lo, hi);
  }
}
