/**
  The page loop of a run: request a page (older than the cursor, when there is
  one), scan it, and stop after an empty page or after a page whose last record
  is from a year before the selected one; then report.

  The service is a finite sequence of replies: the `k`-th request is answered
  with `feed[k]`, and with no records once the feed is exhausted. Which cursor
  each request carried is returned alongside the outcome.
 */
module Pagination {
  import opened Wrappers
  import opened Calendar
  import opened Matches
  import opened Aggregation
  import opened Report

  type Feed = seq<seq<Record>>

  /** The reply to request `k`. */
  function PageOf(feed: Feed, k: nat): seq<Record> {
    if k < |feed| then feed[k] else []
  }

  /** The records of the first `n` replies, in the order they arrived. */
  function Fetched(feed: Feed, n: nat): seq<Record> {
    if n == 0 then [] else Fetched(feed, n - 1) + PageOf(feed, n - 1)
  }

  /** The id of the last record, if any. */
  function LastId(recs: seq<Record>): Option<int> {
    if recs == [] then None else Some(recs[|recs| - 1].matchId)
  }

  /** The cursor a request carries: only a set, non-zero last id is sent, as `if last_match_id:` decides. */
  function RequestCursor(last: Option<int>): (c: Option<int>)
    ensures c.Some? <==> last.Some? && last.value != 0
    ensures c.Some? ==> c == last
  {
    if last.Some? && last.value != 0 then last else None
  }

  /**
    Whether the loop stops after scanning `page`: it is empty, or its last record
    started before `year` began (its UTC year is an earlier one, see `YearBoundaries`).
   */
  predicate StopsAfter(page: seq<Record>, year: int) {
    page == [] || page[|page| - 1].startTime < YearStart(year)
  }

  /** For a non-empty page, the stop test is the year comparison of the last record's UTC year. */
  lemma StopsAfterIsYearTest(page: seq<Record>, year: int)
    requires page != []
    ensures StopsAfter(page, year) <==> YearOfTimestamp(page[|page| - 1].startTime) < year
  {
    YearBoundaries(page[|page| - 1].startTime, year);
  }

  /**
    What a run over the records `recs` ends with: the failure on the first record
    whose time `datetime` cannot represent, else the report over the records of
    `year`.
   */
  function Finish(recs: seq<Record>, year: int): (r: Outcome)
    ensures r.TimestampOutOfRange? <==> !Representable(recs)
    ensures r.TimestampOutOfRange? ==>
      exists i :: 0 <= i < |recs| && !InDatetimeRange(recs[i].startTime) && recs[i].matchId == r.matchId
    ensures r.NoData? <==> Representable(recs) && forall m <- recs :: YearOfTimestamp(m.startTime) != year
  {
    var k := FirstOutOfRange(recs);
    if k < |recs| then TimestampOutOfRange(recs[k].matchId)
    else
      var ms := Selected(recs, year);
      SelectedIsYearFilter(recs, year);
      SelectedRepresentable(recs, year);
      Build(TallyOf(ms))
  }

  lemma SelectedRepresentable(recs: seq<Record>, year: int)
    requires Representable(recs)
    ensures Representable(Selected(recs, year))
  {
    SelectedIsYearFilter(recs, year);
    var ms := Selected(recs, year);
    forall i | 0 <= i < |ms|
      ensures InDatetimeRange(ms[i].startTime)
    {
      assert ms[i] in recs;
    }
  }

  /** Scanning records that all have representable times moves the first failure past them. */
  lemma {:induction false} FirstOutOfRangeAppend(a: seq<Record>, b: seq<Record>)
    requires FirstOutOfRange(a) == |a|
    ensures FirstOutOfRange(a + b) == |a| + FirstOutOfRange(b)
  {
    if a != [] {
      assert (a + b)[0] == a[0];
      assert (a + b)[1..] == a[1..] + b;
      FirstOutOfRangeAppend(a[1..], b);
    } else {
      assert a + b == b;
    }
  }

  /** Scanning a page without a failure extends what has been fetched. */
  lemma ScannedPage(fetched: seq<Record>, page: seq<Record>, year: int)
    requires FirstOutOfRange(fetched) == |fetched| && page != [] && FirstOutOfRange(page) == |page|
    ensures FirstOutOfRange(fetched + page) == |fetched + page|
    ensures Selected(fetched + page, year) == Selected(fetched, year) + Selected(page, year)
    ensures LastId(fetched + page) == Some(page[|page| - 1].matchId)
  {
    SelectedAppend(fetched, page, year);
    FirstOutOfRangeAppend(fetched, page);
  }

  /** A failure in the newest page is the first failure of everything fetched. */
  lemma FailedPage(fetched: seq<Record>, page: seq<Record>)
    requires FirstOutOfRange(fetched) == |fetched| && FirstOutOfRange(page) < |page|
    ensures var k := FirstOutOfRange(fetched + page);
      k < |fetched + page| && (fetched + page)[k] == page[FirstOutOfRange(page)]
  {
    FirstOutOfRangeAppend(fetched, page);
  }

  /** Whether the scan of `page` fails on a time `datetime` cannot represent: `!Representable(page)` (see `RepresentableIsNoFailure`). */
  predicate Fails(page: seq<Record>) {
    FirstOutOfRange(page) < |page|
  }

  /** The index of the last request of a run that has made `k` requests without stopping. */
  function StopIndex(feed: Feed, year: int, k: nat): nat
    decreases |feed| - k
  {
    var page := PageOf(feed, k);
    if StopsAfter(page, year) || Fails(page) then k else StopIndex(feed, year, k + 1)
  }

  /** The cursor request `k` carries: the id of the last record read before it, if sent. */
  function CursorAt(feed: Feed, k: nat): Option<int> {
    RequestCursor(LastId(Fetched(feed, k)))
  }

  /** The cursors carried by the first `n` requests. */
  function Cursors(feed: Feed, n: nat): (c: seq<Option<int>>)
    ensures |c| == n
  {
    seq(n, k requires 0 <= k => CursorAt(feed, k))
  }

  /** One more request appends its cursor. */
  lemma CursorsSnoc(feed: Feed, n: nat)
    ensures Cursors(feed, n + 1) == Cursors(feed, n) + [CursorAt(feed, n)]
  {
    assert forall k :: 0 <= k < n ==> Cursors(feed, n + 1)[k] == Cursors(feed, n)[k];
  }

  /** The run stops at the first page that is empty, fails, or ends before `year`. */
  lemma {:induction false} StopIndexIsFirstStop(feed: Feed, year: int, k: nat, j: nat)
    requires k <= j && k <= |feed|
    ensures var s := StopIndex(feed, year, k);
      && k <= s <= |feed|
      && (StopsAfter(PageOf(feed, s), year) || Fails(PageOf(feed, s)))
      && (j < s ==> !StopsAfter(PageOf(feed, j), year) && !Fails(PageOf(feed, j)))
    decreases |feed| - k
  {
    var page := PageOf(feed, k);
    if !(StopsAfter(page, year) || Fails(page)) {
      StopIndexIsFirstStop(feed, year, k + 1, if j == k then k + 1 else j);
    }
  }

  lemma CursorsAt(feed: Feed, n: nat, k: nat)
    requires k < n
    ensures Cursors(feed, n)[k] == CursorAt(feed, k)
  {
  }

  /** A run reads only non-empty pages before its last one. */
  lemma PageBeforeStopNonEmpty(feed: Feed, year: int, j: nat)
    requires j < StopIndex(feed, year, 0)
    ensures PageOf(feed, j) != []
  {
    StopIndexIsFirstStop(feed, year, 0, j);
  }

  /** After a non-empty reply, the last record read is that reply's last record. */
  lemma LastIdAfterPage(feed: Feed, k: nat)
    requires PageOf(feed, k) != []
    ensures LastId(Fetched(feed, k + 1)) == LastId(PageOf(feed, k))
  {
    var page := PageOf(feed, k);
    var recs := Fetched(feed, k + 1);
    assert recs == Fetched(feed, k) + page;
    assert recs[|recs| - 1] == page[|page| - 1];
  }

  /** The first request carries no cursor. */
  lemma FirstRequestHasNoCursor(feed: Feed)
    ensures Cursors(feed, 1)[0] == None
  {
    assert Fetched(feed, 0) == [];
  }

  /**
    Every later request of a run carries the id of the last record of the page
    before it (unless that id is 0), and that page was not empty.
   */
  lemma NextCursorIsLastRecord(feed: Feed, year: int, k: nat)
    requires 0 < k <= StopIndex(feed, year, 0)
    ensures PageOf(feed, k - 1) != []
    ensures Cursors(feed, k + 1)[k] == RequestCursor(LastId(PageOf(feed, k - 1)))
  {
    PageBeforeStopNonEmpty(feed, year, k - 1);
    CursorsAt(feed, k + 1, k);
    LastIdAfterPage(feed, k - 1);
  }

  /**
    The driver. Returns the outcome and the cursor each request carried: the run
    reads replies up to the first one that stops it and ends as `Finish` says for
    everything read.
   */
  method GetProMatchStats(feed: Feed, selectedYear: int) returns (outcome: Outcome, requests: seq<Option<int>>)
    ensures |requests| == StopIndex(feed, selectedYear, 0) + 1
    ensures requests == Cursors(feed, |requests|)
    ensures outcome == Finish(Fetched(feed, |requests|), selectedYear)
  {
    var agg := new Aggregator();
    var failure;
    ghost var fetched;
    requests, fetched, failure := ReadPages(agg, feed, selectedYear);
    if failure.Some? {
      return TimestampOutOfRange(failure.value), requests;
    }
    outcome := Conclude(agg, fetched, selectedYear);
  }

  /**
    The page loop: request a reply with the current cursor, scan it, and go on
    until a reply is empty, a scan fails, or a page ends before the selected year.
    Returns the cursors sent, the records read, and the id of the record whose
    time could not be represented, if a scan failed.
   */
  method ReadPages(agg: Aggregator, feed: Feed, selectedYear: int)
    returns (requests: seq<Option<int>>, ghost fetched: seq<Record>, failure: Option<int>)
    requires agg.Valid() && agg.matched == [] && agg.lastMatchId == None
    modifies agg
    ensures |requests| == StopIndex(feed, selectedYear, 0) + 1
    ensures requests == Cursors(feed, |requests|)
    ensures fetched == Fetched(feed, |requests|)
    ensures failure.None? ==>
      FirstOutOfRange(fetched) == |fetched| && agg.Valid() && agg.matched == Selected(fetched, selectedYear)
    ensures failure.Some? ==>
      FirstOutOfRange(fetched) < |fetched| && fetched[FirstOutOfRange(fetched)].matchId == failure.value
  {
    requests := [];
    fetched := [];
    failure := None;
    while true
      invariant |requests| <= StopIndex(feed, selectedYear, 0)
      invariant StopIndex(feed, selectedYear, |requests|) == StopIndex(feed, selectedYear, 0)
      invariant requests == Cursors(feed, |requests|)
      invariant fetched == Fetched(feed, |requests|) && FirstOutOfRange(fetched) == |fetched|
      invariant agg.Valid() && agg.matched == Selected(fetched, selectedYear)
      invariant agg.lastMatchId == LastId(fetched)
      decreases StopIndex(feed, selectedYear, 0) - |requests|
    {
      ghost var n := |requests|;
      var page := PageOf(feed, |requests|);
      requests := requests + [RequestCursor(agg.lastMatchId)];
      CursorsSnoc(feed, n);
      if page == [] {
        assert StopIndex(feed, selectedYear, n) == n;
        assert Fetched(feed, n + 1) == fetched;
        return;
      }
      var scan := ScanPage(agg, page, selectedYear, fetched);
      assert Fetched(feed, n + 1) == fetched + page;
      fetched := fetched + page;
      if scan.OutOfRange? {
        assert StopIndex(feed, selectedYear, n) == n;
        return requests, fetched, Some(scan.matchId);
      }
      if scan.lastYear < selectedYear {
        assert StopIndex(feed, selectedYear, n) == n;
        return;
      }
      assert StopIndex(feed, selectedYear, n) == StopIndex(feed, selectedYear, n + 1);
      StopIndexIsFirstStop(feed, selectedYear, n + 1, n + 1);
    }
  }

  /** The scan of one non-empty reply, continuing a run that has read `fetched` without a failure. */
  method ScanPage(agg: Aggregator, page: seq<Record>, selectedYear: int, ghost fetched: seq<Record>) returns (scan: PageScan)
    requires page != [] && FirstOutOfRange(fetched) == |fetched|
    requires agg.Valid() && agg.matched == Selected(fetched, selectedYear) && agg.lastMatchId == LastId(fetched)
    modifies agg
    ensures scan.OutOfRange? <==> Fails(page)
    ensures scan.OutOfRange? ==>
      var k := FirstOutOfRange(fetched + page);
      k < |fetched + page| && (fetched + page)[k].matchId == scan.matchId
    ensures scan.Scanned? ==>
      && FirstOutOfRange(fetched + page) == |fetched + page|
      && agg.Valid() && agg.matched == Selected(fetched + page, selectedYear)
      && agg.lastMatchId == LastId(fetched + page)
      && (StopsAfter(page, selectedYear) <==> scan.lastYear < selectedYear)
  {
    scan := agg.Consume(page, selectedYear);
    StopsAfterIsYearTest(page, selectedYear);
    if scan.OutOfRange? {
      FailedPage(fetched, page);
    } else {
      assert page[..|page|] == page;
      ScannedPage(fetched, page, selectedYear);
    }
  }

  /** The end of a run that read `fetched` without a failure: no data when nothing matched, else the report. */
  method Conclude(agg: Aggregator, ghost fetched: seq<Record>, selectedYear: int) returns (outcome: Outcome)
    requires FirstOutOfRange(fetched) == |fetched|
    requires agg.Valid() && agg.matched == Selected(fetched, selectedYear)
    ensures outcome == Finish(fetched, selectedYear)
  {
    SelectedIsYearFilter(fetched, selectedYear);
    SelectedRepresentable(fetched, selectedYear);
    if agg.numMatches == 0 {
      return NoData;
    }
    outcome := Build(agg.Current());
  }
}
