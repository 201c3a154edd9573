/** Small concrete runs of the model. */
module Scenarios {
  import opened Wrappers
  import opened Calendar
  import opened Matches
  import opened Aggregation
  import opened Report
  import opened Pagination

  /** Three matches of 2023 (14 Nov, 22 Jul, 28 Mar), one per duration bucket. */
  const Page2023: seq<Record> := [
    Record(103, 1700000000, 1000, 10, 8),
    Record(102, 1690000000, 2200, 15, 12),
    Record(101, 1680000000, 3000, 20, 25)]

  /** Two matches of 2022 (8 Aug, 15 Apr). */
  const Page2022: seq<Record> := [
    Record(100, 1660000000, 1900, 30, 30),
    Record(99, 1650000000, 2500, 40, 40)]

  lemma YearsOfThePages()
    ensures forall m <- Page2023 :: YearOfTimestamp(m.startTime) == 2023
    ensures forall m <- Page2022 :: YearOfTimestamp(m.startTime) == 2022
  {
    assert YearStart(2022) == 1640995200 && YearStart(2023) == 1672531200 && YearStart(2024) == 1704067200;
    forall m <- Page2023 ensures YearOfTimestamp(m.startTime) == 2023 {
      YearBoundaries(m.startTime, 2023);
    }
    forall m <- Page2022 ensures YearOfTimestamp(m.startTime) == 2022 {
      YearBoundaries(m.startTime, 2022);
    }
  }

  /** One page of 2023: one game per bucket, 30 kills per game on average, longest 3000 s, shortest 1000 s. */
  lemma OnePageOfTheYear()
    ensures var t := TallyOf(Page2023);
      && t.numMatches == 3
      && t.shortGamesCount == 1 && t.mediumGamesCount == 1 && t.longGamesCount == 1
      && t.longestGameTime == 3000 && t.longestGameId == Some(101)
      && t.shortestGameTime == Seconds(1000) && t.shortestGameId == Some(103)
    ensures Build(TallyOf(Page2023)).Stats? && Build(TallyOf(Page2023)).summary.avgTotalKills == 30.0
  {
    var r0, r1, r2 := Page2023[0], Page2023[1], Page2023[2];
    TallyOfAppend([], r0);
    TallyOfAppend([r0], r1);
    TallyOfAppend([r0, r1], r2);
    assert [] + [r0] == [r0] && [r0] + [r1] == [r0, r1] && [r0, r1] + [r2] == Page2023;
    var t := TallyOf(Page2023);
    assert t.totalKills == 90;
  }

  /** A feed whose first page is all from 2022, read for 2023: the first reply is the last one read... */
  lemma StopsAtAnOlderPage()
    ensures StopIndex([Page2022], 2023, 0) == 0
  {
    assert YearStart(2023) == 1672531200;
  }

  /** ... and the run reports no data. */
  lemma NothingFromTheYear()
    ensures Finish(Fetched([Page2022], 1), 2023) == NoData
  {
    YearsOfThePages();
    assert Fetched([Page2022], 1) == Page2022;
  }

  /** A page of 2023 then a page of 2022, read for 2023: the second reply is the last one read. */
  lemma StopsAfterTheYear()
    ensures StopIndex([Page2023, Page2022], 2023, 0) == 1
  {
    YearsOfThePages();
    assert YearStart(2023) == 1672531200;
    assert StopIndex([Page2023, Page2022], 2023, 1) == 1;
  }

  /** Of those two pages only the first is counted. */
  lemma OnlyTheYearCounts()
    ensures Selected(Fetched([Page2023, Page2022], 2), 2023) == Page2023
  {
    var feed := [Page2023, Page2022];
    YearsOfThePages();
    assert Fetched(feed, 2) == Page2023 + Page2022 by {
      assert Fetched(feed, 1) == Page2023;
    }
    SelectedAppend(Page2023, Page2022, 2023);
    SelectedAll(Page2023, 2023);
    SelectedAll(Page2022, 2023);
    assert Page2023 + [] == Page2023;
  }

  /** The second request carries the id of the last match of the first page. */
  lemma SecondRequestCarriesCursor()
    ensures Cursors([Page2023, Page2022], 2) == [None, Some(101)]
  {
    assert Fetched([Page2023, Page2022], 1) == Page2023;
  }

  /** Keeping the records of `year` keeps all of a list from that year and none of a list from other years. */
  lemma {:induction false} SelectedAll(recs: seq<Record>, year: int)
    ensures (forall m <- recs :: YearOfTimestamp(m.startTime) == year) ==> Selected(recs, year) == recs
    ensures (forall m <- recs :: YearOfTimestamp(m.startTime) != year) ==> Selected(recs, year) == []
  {
    if recs != [] {
      var init := recs[..|recs| - 1];
      assert recs == init + [recs[|recs| - 1]];
      assert forall m <- init :: m in recs;
      SelectedAll(init, year);
      YearBoundaries(recs[|recs| - 1].startTime, year);
    }
  }
}
