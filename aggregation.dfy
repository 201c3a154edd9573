/**
  The running statistics of one run: what each record of the selected year adds
  (`Add`, `TallyOf`), what they amount to (the lemmas), and the `Aggregator`
  object that keeps them while the pages are scanned (`Consume`).
 */
module Aggregation {
  import opened Wrappers
  import opened Calendar
  import opened Matches

  /** The shortest duration seen so far; it starts out as positive infinity. */
  datatype Shortest = Infinity | Seconds(value: int) {
    /** Whether `d` is strictly below this bound (every integer is below infinity). */
    predicate Above(d: int) {
      Infinity? || d < value
    }
  }

  /** The accumulators of one run. */
  datatype Tally = Tally(
    numMatches: nat,
    totalGameTime: int,
    totalKills: int,
    radiantKills: int,
    direKills: int,
    longestGameTime: int,
    longestGameId: Option<int>,
    shortestGameTime: Shortest,
    shortestGameId: Option<int>,
    shortGamesCount: nat,
    mediumGamesCount: nat,
    longGamesCount: nat,
    shortKills: int,
    mediumKills: int,
    longKills: int,
    startDates: seq<int>)

  /** Before any record: zeros, no ids, an infinite shortest duration and a longest duration of 0. */
  const Initial := Tally(0, 0, 0, 0, 0, 0, None, Infinity, None, 0, 0, 0, 0, 0, 0, [])

  /** What one record of the selected year adds. */
  function Add(t: Tally, m: Record): Tally {
    var d, k := m.duration, Kills(m);
    var b := Classify(d);
    var longer, shorter := d > t.longestGameTime, t.shortestGameTime.Above(d);
    Tally(
      t.numMatches + 1,
      t.totalGameTime + d,
      t.totalKills + k,
      t.radiantKills + m.radiantScore,
      t.direKills + m.direScore,
      if longer then d else t.longestGameTime,
      if longer then Some(m.matchId) else t.longestGameId,
      if shorter then Seconds(d) else t.shortestGameTime,
      if shorter then Some(m.matchId) else t.shortestGameId,
      if b == Short then t.shortGamesCount + 1 else t.shortGamesCount,
      if b == Medium then t.mediumGamesCount + 1 else t.mediumGamesCount,
      if b == Long then t.longGamesCount + 1 else t.longGamesCount,
      if b == Short then t.shortKills + k else t.shortKills,
      if b == Medium then t.mediumKills + k else t.mediumKills,
      if b == Long then t.longKills + k else t.longKills,
      t.startDates + [m.startTime])
  }

  /** The accumulators after the records `ms` of the selected year, in feed order. */
  function TallyOf(ms: seq<Record>): (t: Tally)
    ensures t.numMatches == |ms|
    ensures |t.startDates| == |ms|
    ensures forall i :: 0 <= i < |ms| ==> t.startDates[i] == ms[i].startTime
  {
    if ms == [] then Initial else Add(TallyOf(ms[..|ms| - 1]), ms[|ms| - 1])
  }

  lemma TallyOfAppend(ms: seq<Record>, m: Record)
    ensures TallyOf(ms + [m]) == Add(TallyOf(ms), m)
  {
    assert (ms + [m])[..|ms|] == ms;
  }

  /** The records of `recs` whose UTC year is `year` (see `SelectedIsYearFilter`), in order. */
  function Selected(recs: seq<Record>, year: int): seq<Record> {
    if recs == [] then []
    else
      var last := recs[|recs| - 1];
      Selected(recs[..|recs| - 1], year) + (if InYear(last.startTime, year) then [last] else [])
  }

  /** The index of the first record whose timestamp `datetime` cannot represent, or `|recs|` if none. */
  function FirstOutOfRange(recs: seq<Record>): (k: nat)
    ensures k <= |recs|
    ensures forall j :: 0 <= j < k ==> InDatetimeRange(recs[j].startTime)
    ensures k < |recs| ==> !InDatetimeRange(recs[k].startTime)
  {
    if recs == [] || !InDatetimeRange(recs[0].startTime) then 0
    else 1 + FirstOutOfRange(recs[1..])
  }

  /** Which score or time of a record to add up. */
  datatype Field = Duration | RadiantScore | DireScore

  function FieldOf(m: Record, f: Field): int {
    match f
    case Duration => m.duration
    case RadiantScore => m.radiantScore
    case DireScore => m.direScore
  }

  /** Sum of field `f` over the records. */
  function Sum(ms: seq<Record>, f: Field): int {
    if ms == [] then 0 else Sum(ms[..|ms| - 1], f) + FieldOf(ms[|ms| - 1], f)
  }

  /** Number of records in bucket `b`. */
  function CountIn(ms: seq<Record>, b: Bucket): nat {
    if ms == [] then 0
    else CountIn(ms[..|ms| - 1], b) + (if Classify(ms[|ms| - 1].duration) == b then 1 else 0)
  }

  /** Kills of the records in bucket `b`. */
  function KillsIn(ms: seq<Record>, b: Bucket): int {
    if ms == [] then 0
    else KillsIn(ms[..|ms| - 1], b) + (if Classify(ms[|ms| - 1].duration) == b then Kills(ms[|ms| - 1]) else 0)
  }

  lemma {:induction false} SelectedIsYearFilter(recs: seq<Record>, year: int)
    ensures forall m <- Selected(recs, year) :: m in recs && YearOfTimestamp(m.startTime) == year
    ensures forall m <- recs :: YearOfTimestamp(m.startTime) == year ==> m in Selected(recs, year)
  {
    if recs != [] {
      var init := recs[..|recs| - 1];
      SelectedIsYearFilter(init, year);
      YearBoundaries(recs[|recs| - 1].startTime, year);
      assert recs == init + [recs[|recs| - 1]];
    }
  }

  lemma {:induction false} SelectedAppend(a: seq<Record>, b: seq<Record>, year: int)
    ensures Selected(a + b, year) == Selected(a, year) + Selected(b, year)
    decreases |b|
  {
    if b == [] {
      assert a + b == a;
    } else {
      var init := b[..|b| - 1];
      assert (a + b)[..|a + b| - 1] == a + init;
      SelectedAppend(a, init, year);
    }
  }

  lemma SelectedPrefix(recs: seq<Record>, i: int, year: int)
    requires 0 <= i < |recs|
    ensures Selected(recs[..i + 1], year)
            == Selected(recs[..i], year) + if InYear(recs[i].startTime, year) then [recs[i]] else []
  {
    assert recs[..i + 1][..i] == recs[..i];
  }

  /**
    Scanning record `i` of a page that has not failed before it: it fails there
    exactly when its time is out of range, else it extends the selection. `base`
    is what earlier pages selected; stating the step with it in place matches the
    loop invariant of `Consume` term for term.
   */
  lemma ScanStep(page: seq<Record>, i: nat, year: int, base: seq<Record>)
    requires i < |page| && i <= FirstOutOfRange(page)
    ensures InDatetimeRange(page[i].startTime) <==> i < FirstOutOfRange(page)
    ensures !InDatetimeRange(page[i].startTime) ==> FirstOutOfRange(page) == i
    ensures base + Selected(page[..i + 1], year)
            == base + Selected(page[..i], year) + if InYear(page[i].startTime, year) then [page[i]] else []
  {
    SelectedPrefix(page, i, year);
  }

  /** A record of another year leaves the accumulators as they were. */
  lemma OtherYearChangesNothing(recs: seq<Record>, m: Record, year: int)
    requires YearOfTimestamp(m.startTime) != year
    ensures TallyOf(Selected(recs + [m], year)) == TallyOf(Selected(recs, year))
  {
    assert (recs + [m])[..|recs|] == recs;
    YearBoundaries(m.startTime, year);
    assert Selected(recs + [m], year) == Selected(recs, year);
  }

  /** Counts and sums are those of the records taken. */
  lemma {:induction false} TallySums(ms: seq<Record>)
    ensures var t := TallyOf(ms);
      && t.totalGameTime == Sum(ms, Duration)
      && t.radiantKills == Sum(ms, RadiantScore)
      && t.direKills == Sum(ms, DireScore)
      && t.totalKills == t.radiantKills + t.direKills
      && t.shortGamesCount == CountIn(ms, Short)
      && t.mediumGamesCount == CountIn(ms, Medium)
      && t.longGamesCount == CountIn(ms, Long)
      && t.shortKills == KillsIn(ms, Short)
      && t.mediumKills == KillsIn(ms, Medium)
      && t.longKills == KillsIn(ms, Long)
  {
    if ms != [] {
      TallySums(ms[..|ms| - 1]);
    }
  }

  /** The three buckets split the matches and their kills; an empty bucket has no kills. */
  ghost predicate BucketsSplit(t: Tally) {
    && t.shortGamesCount + t.mediumGamesCount + t.longGamesCount == t.numMatches
    && t.shortKills + t.mediumKills + t.longKills == t.totalKills
    && (t.shortGamesCount == 0 ==> t.shortKills == 0)
    && (t.mediumGamesCount == 0 ==> t.mediumKills == 0)
    && (t.longGamesCount == 0 ==> t.longKills == 0)
  }

  /** Each record goes to exactly one bucket, so the buckets split the count and the kills. */
  lemma {:induction false} BucketsPartition(ms: seq<Record>)
    ensures BucketsSplit(TallyOf(ms))
  {
    if ms != [] {
      BucketsPartition(ms[..|ms| - 1]);
    }
  }

  /** Record `i` is the first one whose duration is the largest of `ms`. */
  ghost predicate IsFirstLongest(ms: seq<Record>, i: int) {
    && 0 <= i < |ms|
    && (forall j :: 0 <= j < |ms| ==> ms[j].duration <= ms[i].duration)
    && (forall j :: 0 <= j < i ==> ms[j].duration < ms[i].duration)
  }

  /** Record `i` is the first one whose duration is the smallest of `ms`. */
  ghost predicate IsFirstShortest(ms: seq<Record>, i: int) {
    && 0 <= i < |ms|
    && (forall j :: 0 <= j < |ms| ==> ms[i].duration <= ms[j].duration)
    && (forall j :: 0 <= j < i ==> ms[i].duration < ms[j].duration)
  }

  /**
    The longest game is the first record of largest duration, unless no duration
    exceeds the starting value 0: then it stays 0 with no match id.
   */
  lemma {:induction false} LongestIsFirstMaximum(ms: seq<Record>)
    ensures var t := TallyOf(ms);
      && t.longestGameTime >= 0
      && (forall m <- ms :: m.duration <= t.longestGameTime)
      && (t.longestGameId.None? <==> forall m <- ms :: m.duration <= 0)
      && (t.longestGameId.None? ==> t.longestGameTime == 0)
      && (t.longestGameId.Some? ==>
            exists i :: IsFirstLongest(ms, i) && ms[i].duration == t.longestGameTime
                        && t.longestGameId == Some(ms[i].matchId))
  {
    if ms != [] {
      var init, m := ms[..|ms| - 1], ms[|ms| - 1];
      assert ms == init + [m];
      LongestIsFirstMaximum(init);
      var t := TallyOf(init);
      if m.duration > t.longestGameTime {
        assert IsFirstLongest(ms, |ms| - 1);
      } else if t.longestGameId.Some? {
        var i :| IsFirstLongest(init, i) && init[i].duration == t.longestGameTime
                 && t.longestGameId == Some(init[i].matchId);
        assert IsFirstLongest(ms, i);
      }
    }
  }

  /** The shortest game is the first record of smallest duration; there is one as soon as a record was taken. */
  lemma {:induction false} ShortestIsFirstMinimum(ms: seq<Record>)
    ensures var t := TallyOf(ms);
      && (t.shortestGameTime.Infinity? <==> ms == [])
      && (t.shortestGameId.None? <==> ms == [])
      && (ms != [] ==>
            exists i :: IsFirstShortest(ms, i) && t.shortestGameTime == Seconds(ms[i].duration)
                        && t.shortestGameId == Some(ms[i].matchId))
  {
    if ms != [] {
      var init, m := ms[..|ms| - 1], ms[|ms| - 1];
      assert ms == init + [m];
      ShortestIsFirstMinimum(init);
      var t := TallyOf(init);
      if t.shortestGameTime.Above(m.duration) {
        assert IsFirstShortest(ms, |ms| - 1);
      } else {
        var i :| IsFirstShortest(init, i) && t.shortestGameTime == Seconds(init[i].duration)
                 && t.shortestGameId == Some(init[i].matchId);
        assert IsFirstShortest(ms, i);
      }
    }
  }

  /** Once a match was taken, the shortest duration is finite and at most the longest one. */
  lemma ShortestAtMostLongest(ms: seq<Record>)
    requires ms != []
    ensures TallyOf(ms).shortestGameTime.Seconds?
    ensures TallyOf(ms).shortestGameTime.value <= TallyOf(ms).longestGameTime
  {
    LongestIsFirstMaximum(ms);
    ShortestIsFirstMinimum(ms);
  }

  /** How scanning a page ended: the UTC year of its last record, or the id of a record whose time is out of range. */
  datatype PageScan = Scanned(lastYear: int) | OutOfRange(matchId: int)

  /** The accumulators of one run, updated in place record by record. */
  class Aggregator {
    var totalGameTime: int
    var numMatches: nat
    var longestGameTime: int
    var shortestGameTime: Shortest
    var longGamesCount: nat
    var mediumGamesCount: nat
    var shortGamesCount: nat
    var totalKills: int
    var radiantKills: int
    var direKills: int
    var shortKills: int
    var mediumKills: int
    var longKills: int
    var longestGameId: Option<int>
    var shortestGameId: Option<int>
    var startDates: seq<int>
    /** The pagination cursor: the id of the last record scanned, of any year. */
    var lastMatchId: Option<int>

    /** The records of the selected year taken so far. */
    ghost var matched: seq<Record>

    function Current(): Tally
      reads this
    {
      Tally(numMatches, totalGameTime, totalKills, radiantKills, direKills,
            longestGameTime, longestGameId, shortestGameTime, shortestGameId,
            shortGamesCount, mediumGamesCount, longGamesCount,
            shortKills, mediumKills, longKills, startDates)
    }

    ghost predicate Valid()
      reads this
    {
      Current() == TallyOf(matched)
    }

    constructor ()
      ensures Valid() && matched == [] && lastMatchId == None
    {
      totalGameTime, numMatches := 0, 0;
      longestGameTime, shortestGameTime := 0, Infinity;
      longGamesCount, mediumGamesCount, shortGamesCount := 0, 0, 0;
      totalKills, radiantKills, direKills := 0, 0, 0;
      shortKills, mediumKills, longKills := 0, 0, 0;
      longestGameId, shortestGameId := None, None;
      startDates := [];
      lastMatchId := None;
      matched := [];
    }

    /** Adds one record of the selected year to the accumulators. */
    method Take(m: Record)
      modifies this
      ensures Current() == Add(old(Current()), m)
      ensures matched == old(matched) + [m]
      ensures lastMatchId == old(lastMatchId)
    {
      CountMatch(m);
      TrackExtremes(m);
      AddToBucket(m);
      startDates := startDates + [m.startTime];
      matched := matched + [m];
    }

    /** The match count, the total time and the three kill totals. */
    method CountMatch(m: Record)
      modifies this`numMatches, this`totalGameTime, this`totalKills, this`radiantKills, this`direKills
      ensures numMatches == old(numMatches) + 1
      ensures totalGameTime == old(totalGameTime) + m.duration
      ensures totalKills == old(totalKills) + Kills(m)
      ensures radiantKills == old(radiantKills) + m.radiantScore
      ensures direKills == old(direKills) + m.direScore
    {
      numMatches := numMatches + 1;
      var gameTime := m.duration;
      totalGameTime := totalGameTime + gameTime;

      totalKills := totalKills + m.radiantScore + m.direScore;
      radiantKills := radiantKills + m.radiantScore;
      direKills := direKills + m.direScore;
    }

    /** The longest and shortest games; only a strictly longer or shorter one replaces them. */
    method TrackExtremes(m: Record)
      modifies this`longestGameTime, this`longestGameId, this`shortestGameTime, this`shortestGameId
      ensures m.duration > old(longestGameTime) ==> longestGameTime == m.duration && longestGameId == Some(m.matchId)
      ensures m.duration <= old(longestGameTime) ==> longestGameTime == old(longestGameTime) && longestGameId == old(longestGameId)
      ensures old(shortestGameTime).Above(m.duration) ==> shortestGameTime == Seconds(m.duration) && shortestGameId == Some(m.matchId)
      ensures !old(shortestGameTime).Above(m.duration) ==> shortestGameTime == old(shortestGameTime) && shortestGameId == old(shortestGameId)
    {
      var gameTime := m.duration;
      if gameTime > longestGameTime {
        longestGameTime := gameTime;
        longestGameId := Some(m.matchId);
      }
      if shortestGameTime.Above(gameTime) {
        shortestGameTime := Seconds(gameTime);
        shortestGameId := Some(m.matchId);
      }
    }

    /** The count and the kills of the one bucket the duration falls in. */
    method AddToBucket(m: Record)
      modifies this`shortGamesCount, this`shortKills, this`mediumGamesCount, this`mediumKills,
               this`longGamesCount, this`longKills
      ensures Classify(m.duration) == Short ==> shortGamesCount == old(shortGamesCount) + 1 && shortKills == old(shortKills) + Kills(m)
      ensures Classify(m.duration) != Short ==> shortGamesCount == old(shortGamesCount) && shortKills == old(shortKills)
      ensures Classify(m.duration) == Medium ==> mediumGamesCount == old(mediumGamesCount) + 1 && mediumKills == old(mediumKills) + Kills(m)
      ensures Classify(m.duration) != Medium ==> mediumGamesCount == old(mediumGamesCount) && mediumKills == old(mediumKills)
      ensures Classify(m.duration) == Long ==> longGamesCount == old(longGamesCount) + 1 && longKills == old(longKills) + Kills(m)
      ensures Classify(m.duration) != Long ==> longGamesCount == old(longGamesCount) && longKills == old(longKills)
    {
      var gameTime := m.duration;
      if gameTime < 1800 {
        shortGamesCount := shortGamesCount + 1;
        shortKills := shortKills + m.radiantScore + m.direScore;
      } else if 1800 <= gameTime <= 2400 {
        mediumGamesCount := mediumGamesCount + 1;
        mediumKills := mediumKills + m.radiantScore + m.direScore;
      } else {
        longGamesCount := longGamesCount + 1;
        longKills := longKills + m.radiantScore + m.direScore;
      }
    }

    /**
      One pass of the scan over record `m`: derive its UTC year, take the record
      if the year is the selected one, move the cursor. A time `datetime` cannot
      represent changes nothing and is reported as out of range.
     */
    method ScanRecord(m: Record, selectedYear: int) returns (matchYear: int, inRange: bool)
      requires Valid()
      modifies this
      ensures Valid()
      ensures matchYear == YearOfTimestamp(m.startTime)
      ensures inRange <==> InDatetimeRange(m.startTime)
      ensures matched == old(matched) + if inRange && InYear(m.startTime, selectedYear) then [m] else []
      ensures lastMatchId == if inRange then Some(m.matchId) else old(lastMatchId)
      ensures matchYear != selectedYear ==> Current() == old(Current())
    {
      matchYear := YearOfTimestamp(m.startTime);
      inRange := MinYear <= matchYear <= MaxYear;
      DatetimeRangeIsYearRange(m.startTime);
      if !inRange {
        return;
      }
      YearBoundaries(m.startTime, selectedYear);
      if matchYear == selectedYear {
        ghost var before := matched;
        Take(m);
        TallyOfAppend(before, m);
      }
      lastMatchId := Some(m.matchId);
    }

    /**
      Scans one non-empty page in order. Records of `selectedYear` are added to the
      accumulators, every record moves the cursor, and the scan stops at the first
      record whose time `datetime` cannot represent.
     */
    method Consume(page: seq<Record>, selectedYear: int) returns (scan: PageScan)
      requires Valid() && page != []
      modifies this
      ensures Valid()
      ensures var k := FirstOutOfRange(page);
        && matched == old(matched) + Selected(page[..k], selectedYear)
        && lastMatchId == (if k == 0 then old(lastMatchId) else Some(page[k - 1].matchId))
        && scan == if k < |page| then OutOfRange(page[k].matchId)
                   else Scanned(YearOfTimestamp(page[|page| - 1].startTime))
    {
      var matchYear := 0;
      var i := 0;
      while i < |page|
        invariant 0 <= i <= |page|
        invariant i <= FirstOutOfRange(page)
        invariant Valid()
        invariant matched == old(matched) + Selected(page[..i], selectedYear)
        invariant lastMatchId == if i == 0 then old(lastMatchId) else Some(page[i - 1].matchId)
        invariant i > 0 ==> matchYear == YearOfTimestamp(page[i - 1].startTime)
      {
        ScanStep(page, i, selectedYear, old(matched));
        var m := page[i];
        var inRange;
        matchYear, inRange := ScanRecord(m, selectedYear);
        if !inRange {
          return OutOfRange(m.matchId);
        }
        i := i + 1;
        assert page[i - 1] == m;
      }
      assert FirstOutOfRange(page) == i == |page|;
      return Scanned(matchYear);
    }
  }
}
