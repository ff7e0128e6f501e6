/**
 Paged scans over an ordered stream of rows, src/storage.rs. The stream lists the points of every
 series, series by series; a page starts at a row offset and ends when the row budget or the
 series budget is used up.
 */
module Paging {
  import opened Common

  /** A row is a point of the series with this place in the ordered list. */
  datatype Row = Row(series: nat, point: int)

  datatype Options = Options(maxSeries: Option<nat>, maxRows: Option<nat>, rowOffset: nat)

  datatype Page = Page(seriesScanned: nat, truncated: bool, nextRowOffset: Option<nat>, rows: seq<Row>)

  datatype ScanError = InvalidConfiguration

  // ----- What a page should be -----

  function RowsOf(series: nat, points: seq<int>): seq<Row> {
    seq(|points|, i requires 0 <= i < |points| => Row(series, points[i]))
  }

  /** The rows of the first `n` series. */
  function Stream(lists: seq<seq<int>>, n: nat): seq<Row>
    requires n <= |lists|
  {
    if n == 0 then [] else Stream(lists, n - 1) + RowsOf(n - 1, lists[n - 1])
  }

  /** How many series the rows come from; rows of one series are adjacent. */
  function SeriesCount(rows: seq<Row>): nat {
    if rows == [] then 0
    else
      var front, last := rows[..|rows| - 1], rows[|rows| - 1];
      SeriesCount(front) + (if front != [] && front[|front| - 1].series == last.series then 0 else 1)
  }

  predicate Fits(rows: seq<Row>, options: Options) {
    && (options.maxRows.Some? ==> |rows| <= options.maxRows.value)
    && (options.maxSeries.Some? ==> SeriesCount(rows) <= options.maxSeries.value)
  }

  /** The page is the longest stretch from the offset that fits both budgets. */
  ghost predicate LongestFit(rows: seq<Row>, stream: seq<Row>, options: Options) {
    var begin := Min(options.rowOffset, |stream|);
    var end := begin + |rows|;
    && end <= |stream| && rows == stream[begin..end] && Fits(rows, options)
    && (end < |stream| ==> !Fits(stream[begin..end + 1], options))
  }

  // ----- One row at a time -----

  /** The variables of the scan; `counted` is the series already charged to the budget. */
  datatype Scan = Scan(position: nat, budget: Option<nat>, counted: Option<nat>, scanned: nat, rows: seq<Row>, stopped: bool)

  function Begin(options: Options): Scan {
    Scan(0, options.maxSeries, None, 0, [], false)
  }

  /** A series is charged to the budget at its first row in the page. */
  function Charge(s: Scan, series: nat): Scan {
    if s.counted == Some(series) then s
    else
      s.(budget := if s.budget.Some? && s.budget.value > 0 then Some(s.budget.value - 1) else s.budget,
         counted := Some(series), scanned := s.scanned + 1)
  }

  /** The body of the loop over points. */
  function Visit(s: Scan, row: Row, options: Options): Scan {
    if s.position < options.rowOffset then s.(position := s.position + 1)
    else if s.counted != Some(row.series) && s.budget == Some(0) then s.(stopped := true)
    else if options.maxRows.Some? && |s.rows| >= options.maxRows.value then Charge(s, row.series).(stopped := true)
    else Charge(s, row.series).(rows := s.rows + [row], position := s.position + 1)
  }

  function VisitAll(s: Scan, rows: seq<Row>, options: Options): Scan {
    if rows == [] then s
    else
      var before := VisitAll(s, rows[..|rows| - 1], options);
      if before.stopped then before else Visit(before, rows[|rows| - 1], options)
  }

  /** Budgets when set are positive: the options were validated. */
  predicate Valid(options: Options) {
    options.maxSeries != Some(0) && options.maxRows != Some(0)
  }

  /** What the scan knows after the first `k` rows of the stream. */
  ghost predicate Knows(s: Scan, stream: seq<Row>, k: nat, options: Options) {
    var begin := options.rowOffset;
    && k <= |stream| && s.position <= k
    && (s.stopped ==> begin <= s.position < k && !Fits(stream[begin..s.position + 1], options))
    && (!s.stopped ==> s.position == k)
    && (if s.position <= begin then s.rows == [] else s.rows == stream[begin..s.position])
    && Fits(s.rows, options)
    && (if s.stopped then s.scanned == Charged(s.rows, stream[s.position], options) else Accounted(s, options))
  }

  /** A row begins a series that the page does not have yet. */
  predicate BeginsSeries(rows: seq<Row>, row: Row) {
    rows == [] || rows[|rows| - 1].series != row.series
  }

  /** The series of the page, and that of the row that did not fit if it is new and affordable. */
  function Charged(rows: seq<Row>, row: Row, options: Options): nat {
    var affordable := options.maxSeries.Some? ==> SeriesCount(rows) < options.maxSeries.value;
    SeriesCount(rows) + (if BeginsSeries(rows, row) && affordable then 1 else 0)
  }

  lemma SeriesCountStep(rows: seq<Row>, row: Row)
    ensures SeriesCount(rows + [row])
         == SeriesCount(rows) + (if rows != [] && rows[|rows| - 1].series == row.series then 0 else 1)
  {
    assert (rows + [row])[..|rows|] == rows;
  }

  /** Another row fits exactly when the row budget is not used up and its series is charged or affordable. */
  lemma FitsStep(rows: seq<Row>, row: Row, options: Options)
    requires Fits(rows, options)
    ensures
      var isNew := rows == [] || rows[|rows| - 1].series != row.series;
      Fits(rows + [row], options) <==>
        && (options.maxRows.Some? ==> |rows| < options.maxRows.value)
        && (isNew && options.maxSeries.Some? ==> SeriesCount(rows) < options.maxSeries.value)
  {
    SeriesCountStep(rows, row);
  }

  lemma VisitKnows(s: Scan, stream: seq<Row>, k: nat, options: Options)
    requires Valid(options) && k < |stream| && Knows(s, stream, k, options) && !s.stopped
    ensures Knows(Visit(s, stream[k], options), stream, k + 1, options)
  {
    if k >= options.rowOffset {
      assert s.rows == stream[options.rowOffset..k];
      VisitRow(s, stream[k], options);
      KnowsVisited(s, stream, k, options, Visit(s, stream[k], options));
    }
  }

  /** What one visited row does to the scan. */
  ghost predicate Visited(s: Scan, row: Row, options: Options, after: Scan) {
    var grown := s.rows + [row];
    if Fits(grown, options) then
      !after.stopped && after.rows == grown && after.position == s.position + 1 && Accounted(after, options)
    else
      && after.stopped && after.rows == s.rows && after.position == s.position
      && after.scanned == Charged(s.rows, row, options)
  }

  lemma KnowsVisited(s: Scan, stream: seq<Row>, k: nat, options: Options, after: Scan)
    requires options.rowOffset <= k < |stream| && s.position == k && s.rows == stream[options.rowOffset..k]
    requires Fits(s.rows, options) && Visited(s, stream[k], options, after)
    ensures Knows(after, stream, k + 1, options)
  {
    assert stream[options.rowOffset..k + 1] == s.rows + [stream[k]];
  }

  /** What the budget, the charged series and the counter are while the scan goes on. */
  ghost predicate Accounted(s: Scan, options: Options) {
    && s.counted == (if s.rows == [] then None else Some(s.rows[|s.rows| - 1].series))
    && s.scanned == SeriesCount(s.rows)
    && (if options.maxSeries.Some? then s.budget.Some? && s.budget.value + s.scanned == options.maxSeries.value
        else s.budget == None)
  }

  lemma VisitRow(s: Scan, row: Row, options: Options)
    requires !s.stopped && s.position >= options.rowOffset && Fits(s.rows, options) && Accounted(s, options)
    ensures Visited(s, row, options, Visit(s, row, options))
  {
    FitsStep(s.rows, row, options);
    SeriesCountStep(s.rows, row);
  }

  lemma VisitAllNext(before: Scan, stream: seq<Row>, k: nat, options: Options)
    requires k < |stream| && before == VisitAll(Begin(options), stream[..k], options)
    ensures VisitAll(Begin(options), stream[..k + 1], options) == VisitUnlessStopped(before, stream[k], options)
  {
    assert stream[..k + 1][..k] == stream[..k];
  }

  lemma {:induction false} VisitAllKnows(stream: seq<Row>, k: nat, options: Options) returns (s: Scan)
    requires Valid(options) && k <= |stream|
    ensures s == VisitAll(Begin(options), stream[..k], options) && Knows(s, stream, k, options)
    decreases k
  {
    if k == 0 {
      s := Begin(options);
      BeginKnows(stream, options);
    } else {
      var before := VisitAllKnows(stream, k - 1, options);
      s := KnowsOneMore(before, stream, k - 1, options);
    }
  }

  lemma KnowsOneMore(before: Scan, stream: seq<Row>, k: nat, options: Options) returns (s: Scan)
    requires Valid(options) && k < |stream|
    requires before == VisitAll(Begin(options), stream[..k], options) && Knows(before, stream, k, options)
    ensures s == VisitAll(Begin(options), stream[..k + 1], options) && Knows(s, stream, k + 1, options)
  {
    VisitAllNext(before, stream, k, options);
    KnowsNext(before, stream, k, options);
    s := VisitUnlessStopped(before, stream[k], options);
  }

  function VisitUnlessStopped(s: Scan, row: Row, options: Options): Scan {
    if s.stopped then s else Visit(s, row, options)
  }

  lemma BeginKnows(stream: seq<Row>, options: Options)
    ensures Begin(options) == VisitAll(Begin(options), stream[..0], options) && Knows(Begin(options), stream, 0, options)
  {
    assert stream[..0] == [];
  }

  lemma KnowsNext(s: Scan, stream: seq<Row>, k: nat, options: Options)
    requires Valid(options) && k < |stream| && Knows(s, stream, k, options)
    ensures Knows(VisitUnlessStopped(s, stream[k], options), stream, k + 1, options)
  {
    if !s.stopped {
      VisitKnows(s, stream, k, options);
    }
  }

  function ToPage(s: Scan): Page {
    Page(s.scanned, s.stopped, if s.stopped then Some(s.position) else None, s.rows)
  }

  /** The page a scan from the offset gives. */
  function PageOf(stream: seq<Row>, options: Options): Page {
    ToPage(VisitAll(Begin(options), stream, options))
  }

  /**
   The page is the longest stretch that fits; it is truncated exactly when rows are left, and then
   it names the next row. It is never empty while rows are left. The number of series is that of the
   page, plus one when the row budget ends right before a new series.
   */
  lemma PageExact(stream: seq<Row>, options: Options)
    requires Valid(options)
    ensures
      var page := PageOf(stream, options);
      var end := Min(options.rowOffset, |stream|) + |page.rows|;
      && LongestFit(page.rows, stream, options)
      && (page.truncated <==> end < |stream|)
      && page.nextRowOffset == (if page.truncated then Some(end) else None)
      && page.seriesScanned == (if page.truncated then Charged(page.rows, stream[end], options) else SeriesCount(page.rows))
      && (options.rowOffset < |stream| ==> page.rows != [])
  {
    var s := VisitAllKnows(stream, |stream|, options);
    assert stream[..|stream|] == stream;
    KnowsExact(s, stream, options);
  }

  lemma FirstRowFits(stream: seq<Row>, begin: nat, options: Options)
    requires Valid(options) && begin < |stream|
    ensures Fits(stream[begin..begin + 1], options)
  {
    assert stream[begin..begin + 1] == [] + [stream[begin]];
    FitsStep([], stream[begin], options);
  }

  lemma KnowsNonEmpty(s: Scan, stream: seq<Row>, options: Options)
    requires Valid(options) && Knows(s, stream, |stream|, options) && options.rowOffset < |stream|
    ensures s.position > options.rowOffset
  {
    FirstRowFits(stream, options.rowOffset, options);
  }

  lemma KnowsExact(s: Scan, stream: seq<Row>, options: Options)
    requires Valid(options) && Knows(s, stream, |stream|, options)
    ensures
      var begin := Min(options.rowOffset, |stream|);
      && LongestFit(s.rows, stream, options)
      && (s.stopped <==> begin + |s.rows| < |stream|)
      && (s.stopped ==> s.position == begin + |s.rows| && s.scanned == Charged(s.rows, stream[s.position], options))
      && (!s.stopped ==> s.scanned == SeriesCount(s.rows))
      && (options.rowOffset < |stream| ==> s.rows != [])
  {
    if options.rowOffset >= |stream| {
      assert s.rows == [] == stream[|stream|..|stream|];
    } else {
      KnowsNonEmpty(s, stream, options);
      assert s.rows == stream[options.rowOffset..s.position];
      assert |s.rows| == s.position - options.rowOffset;
    }
  }

  // ----- Following the offsets -----

  /** All pages from an offset on, until one is not truncated. */
  function AllPages(stream: seq<Row>, options: Options): seq<Row>
    requires Valid(options)
    decreases |stream| - Min(options.rowOffset, |stream|)
  {
    PageExact(stream, options);
    var page := PageOf(stream, options);
    if !page.truncated then page.rows
    else page.rows + AllPages(stream, options.(rowOffset := page.nextRowOffset.value))
  }

  /** Following the offsets visits every remaining row exactly once, in order. */
  lemma {:induction false} AllPagesVisitAll(stream: seq<Row>, options: Options)
    requires Valid(options) && options.rowOffset <= |stream|
    ensures AllPages(stream, options) == stream[options.rowOffset..]
    decreases |stream| - options.rowOffset
  {
    PageExact(stream, options);
    var page := PageOf(stream, options);
    if page.truncated {
      AllPagesVisitAll(stream, options.(rowOffset := page.nextRowOffset.value));
    }
  }

  // ----- The scans -----

  lemma {:induction false} Stopped(s: Scan, rows: seq<Row>, more: seq<Row>, options: Options)
    requires VisitAll(s, rows, options).stopped
    ensures VisitAll(s, rows + more, options) == VisitAll(s, rows, options)
    decreases |more|
  {
    if more == [] {
      assert rows + more == rows;
    } else {
      Stopped(s, rows, more[..|more| - 1], options);
      assert (rows + more)[..|rows + more| - 1] == rows + more[..|more| - 1];
    }
  }

  lemma {:induction false} StreamPrefix(lists: seq<seq<int>>, k: nat, n: nat)
    requires k <= n <= |lists|
    ensures Stream(lists, k) <= Stream(lists, n)
    decreases n
  {
    if k < n {
      StreamPrefix(lists, k, n - 1);
    }
  }

  lemma VisitOneMore(start: Scan, before: seq<Row>, rows: seq<Row>, i: nat, options: Options)
    requires i < |rows| && !VisitAll(start, before + rows[..i], options).stopped
    ensures VisitAll(start, before + rows[..i + 1], options)
         == Visit(VisitAll(start, before + rows[..i], options), rows[i], options)
  {
    assert (before + rows[..i + 1])[..|before| + i] == before + rows[..i];
  }

  method ScanPoints(start: Scan, series: nat, points: seq<int>, options: Options, ghost before: seq<Row>) returns (s: Scan)
    requires !start.stopped && VisitAll(Begin(options), before, options) == start
    ensures VisitAll(Begin(options), before + RowsOf(series, points), options) == s
  {
    s := start;
    ghost var rows := RowsOf(series, points);
    assert before + rows[..0] == before;
    for i := 0 to |points|
      invariant !s.stopped && VisitAll(Begin(options), before + rows[..i], options) == s
    {
      VisitOneMore(Begin(options), before, rows, i, options);
      s := Visit(s, Row(series, points[i]), options);
      if s.stopped {
        Stopped(Begin(options), before + rows[..i + 1], rows[i + 1..], options);
        assert before + rows[..i + 1] + rows[i + 1..] == before + rows;
        return;
      }
    }
    assert rows[..|points|] == rows;
  }

  /**
   `scan_shard_window_rows` on the points of every series in order, and `scan_series_rows` when no
   series budget is set: nested loops left at the first row that does not fit.
   */
  method ScanRows(lists: seq<seq<int>>, options: Options) returns (r: Result<Page, ScanError>)
    ensures r.Err? <==> !Valid(options)
    ensures r.Ok? ==> r.value == PageOf(Stream(lists, |lists|), options)
  {
    if options.maxSeries == Some(0) || options.maxRows == Some(0) {
      return Err(InvalidConfiguration);
    }
    var s := Begin(options);
    for n := 0 to |lists|
      invariant !s.stopped && VisitAll(Begin(options), Stream(lists, n), options) == s
    {
      if lists[n] == [] {
        assert Stream(lists, n + 1) == Stream(lists, n);
        continue;
      }
      s := ScanPoints(s, n, lists[n], options, Stream(lists, n));
      if s.stopped {
        StoppedEarly(lists, n + 1, options);
        return Ok(ToPage(s));
      }
    }
    return Ok(ToPage(s));
  }

  lemma StoppedEarly(lists: seq<seq<int>>, n: nat, options: Options)
    requires n <= |lists| && VisitAll(Begin(options), Stream(lists, n), options).stopped
    ensures VisitAll(Begin(options), Stream(lists, |lists|), options) == VisitAll(Begin(options), Stream(lists, n), options)
  {
    StreamPrefix(lists, n, |lists|);
    var all := Stream(lists, |lists|);
    var rest := all[|Stream(lists, n)|..];
    assert Stream(lists, n) + rest == all;
    Stopped(Begin(options), Stream(lists, n), rest, options);
  }
}
