/**
 Downsampling by fixed buckets, src/query_aggregation.rs, and the alignment test of
 src/engine/rollups.rs. An aggregation is a function from the points of a bucket and its start to
 an optional point or an error.
 */
module Downsample {
  import opened Common
  import opened Grouping

  datatype AggregationError = UnsupportedAggregation

  type Aggregation = (seq<Point>, I64) -> Result<Option<Point>, AggregationError>

  // ----- Buckets -----

  /** Buckets are counted from the origin, rounding down. */
  function EuclideanBuckets(origin: int, interval: int): Bucketing
    requires interval > 0
  {
    ts => (ts - origin) / interval
  }

  function Clamp(v: int): I64 {
    if v < I64_MIN then I64_MIN else if v > I64_MAX then I64_MAX else v
  }

  /** Where the bucket of `ts` starts on the unbounded time line. */
  function TrueStart(ts: int, origin: int, interval: int): int
    requires interval > 0
  {
    origin + ((ts - origin) / interval) * interval
  }

  /** `bucket_start_for_origin` */
  function BucketStart(ts: I64, origin: I64, interval: I64): I64
    requires interval > 0
  {
    Clamp(TrueStart(ts, origin, interval))
  }

  /** `bucket_start.saturating_add(interval)` */
  function BucketEnd(ts: I64, origin: I64, interval: I64): I64
    requires interval > 0
  {
    Clamp(BucketStart(ts, origin, interval) + interval)
  }

  /** `is_bucket_aligned` */
  predicate IsAligned(ts: I64, origin: I64, interval: I64)
    requires interval > 0
  {
    BucketStart(ts, origin, interval) == ts
  }

  lemma BucketBounds(ts: int, origin: int, interval: int)
    requires interval > 0
    ensures TrueStart(ts, origin, interval) <= ts < TrueStart(ts, origin, interval) + interval
  {
    var rel := ts - origin;
    assert rel == (rel / interval) * interval + rel % interval;
  }

  lemma MulGap(x: int, y: int, interval: int)
    requires interval > 0 && x < y
    ensures x * interval + interval <= y * interval
  {
    var d := y - x - 1;
    assert y * interval == (x + 1 + d) * interval == x * interval + interval + d * interval;
    assert d * interval >= 0;
  }

  /** A later timestamp is in the same bucket exactly when it lies before the end of that bucket. */
  lemma SameBucket(a: int, b: int, origin: int, interval: int)
    requires interval > 0 && a <= b
    ensures
      var bucket := EuclideanBuckets(origin, interval);
      && bucket(a) <= bucket(b)
      && (bucket(a) == bucket(b) <==> b < TrueStart(a, origin, interval) + interval)
      && (bucket(a) < bucket(b) ==> TrueStart(a, origin, interval) + interval <= TrueStart(b, origin, interval))
  {
    var x, y := (a - origin) / interval, (b - origin) / interval;
    BucketBounds(a, origin, interval);
    BucketBounds(b, origin, interval);
    if y < x {
      MulGap(y, x, interval);
    } else if x < y {
      MulGap(x, y, interval);
    }
  }

  lemma EuclideanMonotone(origin: int, interval: int)
    requires interval > 0
    ensures Monotone(EuclideanBuckets(origin, interval))
  {
    forall a, b | a <= b ensures EuclideanBuckets(origin, interval)(a) <= EuclideanBuckets(origin, interval)(b) {
      SameBucket(a, b, origin, interval);
    }
  }

  /** What lies before an aligned timestamp is in an earlier bucket. */
  lemma AlignedStartsBucket(before: I64, ts: I64, origin: I64, interval: I64)
    requires interval > 0 && IsAligned(ts, origin, interval) && before < ts
    ensures EuclideanBuckets(origin, interval)(before) < EuclideanBuckets(origin, interval)(ts)
  {
    SameBucket(before, ts, origin, interval);
    BucketBounds(ts, origin, interval);
    BucketBounds(before, origin, interval);
  }

  // ----- The groups the loop forms -----

  /** The points in `[start, end)`. */
  function InRange(points: seq<Point>, start: int, end: int): seq<Point> {
    if points == [] then []
    else if start <= points[0].ts < end then [points[0]] + InRange(points[1..], start, end)
    else InRange(points[1..], start, end)
  }

  /** How many of the first points lie before `bound`. */
  function RunBelow(points: seq<Point>, bound: int): (n: nat)
    ensures n <= |points|
  {
    if points == [] || points[0].ts >= bound then 0 else 1 + RunBelow(points[1..], bound)
  }

  lemma {:induction false} RunBelowMeans(points: seq<Point>, bound: int)
    ensures forall i :: 0 <= i < RunBelow(points, bound) ==> points[i].ts < bound
    ensures RunBelow(points, bound) < |points| ==> points[RunBelow(points, bound)].ts >= bound
    decreases |points|
  {
    if points != [] && points[0].ts < bound {
      RunBelowMeans(points[1..], bound);
    }
  }

  /** From a first point up to the end that goes with it; never less than that point. */
  function LoopGroups(points: seq<Point>, endOf: int -> int): seq<seq<Point>>
    decreases |points|
  {
    if points == [] then []
    else
      var n := Max(RunBelow(points, endOf(points[0].ts)), 1);
      [points[..n]] + LoopGroups(points[n..], endOf)
  }

  /** The saturated end of the bucket of a timestamp. */
  function EndOf(origin: I64, interval: I64): int -> int
    requires interval > 0
  {
    ts => BucketEnd(Clamp(ts), origin, interval)
  }

  /** The loop always makes progress: the end is beyond the point, saturated or not. */
  lemma EndIsBeyond(ts: I64, origin: I64, interval: I64)
    requires interval > 0 && ts < I64_MAX
    ensures ts < BucketEnd(ts, origin, interval) && EndOf(origin, interval)(ts) == BucketEnd(ts, origin, interval)
  {
    BucketBounds(ts, origin, interval);
  }

  /** The bucket of `ts` starts before the first 64-bit timestamp. */
  predicate Clamped(ts: I64, origin: I64, interval: I64)
    requires interval > 0
  {
    TrueStart(ts, origin, interval) < I64_MIN
  }

  /** Unless the start was clamped, the saturated end separates buckets exactly. */
  lemma EndSeparates(first: I64, ts: I64, origin: I64, interval: I64)
    requires interval > 0 && first <= ts < I64_MAX && !Clamped(first, origin, interval)
    ensures
      var bucket := EuclideanBuckets(origin, interval);
      bucket(ts) == bucket(first) <==> ts < BucketEnd(first, origin, interval)
  {
    SameBucket(first, ts, origin, interval);
    BucketBounds(first, origin, interval);
  }

  /**
   The first points are in the clamped bucket and a later one, of another bucket, lies within one
   interval of the first 64-bit timestamp.
   */
  ghost predicate Merges(points: seq<Point>, origin: I64, interval: I64)
    requires interval > 0
  {
    && points != [] && Clamped(points[0].ts, origin, interval)
    && exists i :: 0 <= i < |points| &&
                   EuclideanBuckets(origin, interval)(points[i].ts) != EuclideanBuckets(origin, interval)(points[0].ts) &&
                   points[i].ts < I64_MIN + interval
  }

  ghost predicate Bounded(points: seq<Point>) {
    Sorted(points) && forall i :: 0 <= i < |points| ==> points[i].ts < I64_MAX
  }

  lemma FirstGroupAgrees(points: seq<Point>, origin: I64, interval: I64)
    requires interval > 0 && points != [] && Bounded(points) && !Merges(points, origin, interval)
    ensures
      var bucket := EuclideanBuckets(origin, interval);
      forall i :: 0 <= i < |points| ==>
        (bucket(points[i].ts) == bucket(points[0].ts) <==> points[i].ts < BucketEnd(points[0].ts, origin, interval))
  {
    var bucket := EuclideanBuckets(origin, interval);
    var first := points[0].ts;
    forall i | 0 <= i < |points|
      ensures bucket(points[i].ts) == bucket(first) <==> points[i].ts < BucketEnd(first, origin, interval)
    {
      if Clamped(first, origin, interval) {
        SameBucket(first, points[i].ts, origin, interval);
      } else {
        EndSeparates(first, points[i].ts, origin, interval);
      }
    }
  }

  /** Only the very first bucket can be clamped. */
  lemma RestNotClamped(first: I64, ts: I64, origin: I64, interval: I64)
    requires interval > 0 && first <= ts && EuclideanBuckets(origin, interval)(ts) != EuclideanBuckets(origin, interval)(first)
    ensures !Clamped(ts, origin, interval)
  {
    SameBucket(first, ts, origin, interval);
    BucketBounds(first, origin, interval);
  }

  /** Without a merge the loop forms exactly the Euclidean buckets. */
  lemma {:induction false} LoopGroupsExact(points: seq<Point>, origin: I64, interval: I64)
    requires interval > 0 && Bounded(points) && !Merges(points, origin, interval)
    ensures LoopGroups(points, EndOf(origin, interval)) == Groups(points, EuclideanBuckets(origin, interval))
    decreases |points|
  {
    if points != [] {
      var n := FirstBucket(points, origin, interval);
      LoopGroupsExact(points[n..], origin, interval);
    }
  }

  /** The loop and the buckets split off the same first group, and what is left does not merge either. */
  lemma FirstBucket(points: seq<Point>, origin: I64, interval: I64) returns (n: nat)
    requires interval > 0 && points != [] && Bounded(points) && !Merges(points, origin, interval)
    ensures 1 <= n <= |points| && Bounded(points[n..]) && !Merges(points[n..], origin, interval)
    ensures
      var endOf, bucket := EndOf(origin, interval), EuclideanBuckets(origin, interval);
      && LoopGroups(points, endOf) == [points[..n]] + LoopGroups(points[n..], endOf)
      && Groups(points, bucket) == [points[..n]] + Groups(points[n..], bucket)
  {
    EndIsBeyond(points[0].ts, origin, interval);
    n := RunBelow(points, BucketEnd(points[0].ts, origin, interval));
    RunBelowMeans(points, BucketEnd(points[0].ts, origin, interval));
    FirstGroupAgrees(points, origin, interval);
    SplitAt(points, n, EuclideanBuckets(origin, interval));
    if n < |points| {
      RestNotClamped(points[0].ts, points[n].ts, origin, interval);
    }
  }

  /** And with one it does not. */
  lemma MergeDiffers(points: seq<Point>, origin: I64, interval: I64)
    requires interval > 0 && Bounded(points) && Merges(points, origin, interval)
    ensures LoopGroups(points, EndOf(origin, interval)) != Groups(points, EuclideanBuckets(origin, interval))
  {
    var bucket := EuclideanBuckets(origin, interval);
    var i :| 0 <= i < |points| && bucket(points[i].ts) != bucket(points[0].ts) && points[i].ts < I64_MIN + interval;
    EndIsBeyond(points[0].ts, origin, interval);
    var n := RunBelow(points, BucketEnd(points[0].ts, origin, interval));
    RunBelowMeans(points, BucketEnd(points[0].ts, origin, interval));
    assert i < n;
    assert LoopGroups(points, EndOf(origin, interval))[0] == points[..n];
    var m := SplitOff(points, bucket);
    assert Groups(points, bucket)[0] == points[..m];
    assert m <= i;
  }

  // ----- Aggregation -----

  /** What a group is reported as. */
  type Report = seq<Point> -> Result<Option<Point>, AggregationError>

  function ReportOf(agg: Aggregation, origin: I64, interval: I64): Report
    requires interval > 0
  {
    (group: seq<Point>) => if group == [] then Ok(None) else agg(group, BucketStart(group[0].ts, origin, interval))
  }

  function Extend(result: seq<Point>, point: Option<Point>): seq<Point> {
    if point.Some? then result + [point.value] else result
  }

  /** Groups in order; the first error wins. */
  function ReportAll(groups: seq<seq<Point>>, report: Report): Result<seq<Point>, AggregationError> {
    if groups == [] then Ok([])
    else
      var before :- ReportAll(groups[..|groups| - 1], report);
      var point :- report(groups[|groups| - 1]);
      Ok(Extend(before, point))
  }

  function Joined(a: Result<seq<Point>, AggregationError>, b: Result<seq<Point>, AggregationError>)
    : Result<seq<Point>, AggregationError>
  {
    if a.Err? then a else if b.Err? then b else Ok(a.value + b.value)
  }

  lemma {:induction false} ReportAppend(a: seq<seq<Point>>, b: seq<seq<Point>>, report: Report)
    ensures ReportAll(a + b, report) == Joined(ReportAll(a, report), ReportAll(b, report))
    decreases |b|
  {
    if b == [] {
      assert a + b == a;
      if ReportAll(a, report).Ok? {
        assert ReportAll(a, report).value + [] == ReportAll(a, report).value;
      }
    } else {
      var front := b[..|b| - 1];
      ReportAppend(a, front, report);
      assert (a + b)[..|a + b| - 1] == a + front;
      var x, y, p := ReportAll(a, report), ReportAll(front, report), report(b[|b| - 1]);
      if x.Ok? && y.Ok? && p.Ok? {
        assert Extend(x.value + y.value, p.value) == x.value + Extend(y.value, p.value);
      }
    }
  }

  /** The specification: the loop's groups of the points in range, reported. */
  function Downsampled(points: seq<Point>, interval: I64, agg: Aggregation, origin: I64, start: I64, end: I64)
    : Result<seq<Point>, AggregationError>
  {
    if interval <= 0 then Ok([])
    else ReportAll(LoopGroups(InRange(points, start, end), EndOf(origin, interval)), ReportOf(agg, origin, interval))
  }

  // ----- Points in range -----

  ghost predicate AllBelow(points: seq<Point>, bound: int) {
    forall i :: 0 <= i < |points| ==> points[i].ts < bound
  }

  ghost predicate AllFrom(points: seq<Point>, bound: int) {
    forall i :: 0 <= i < |points| ==> points[i].ts >= bound
  }

  lemma {:induction false} NoneInRange(points: seq<Point>, start: int, end: int)
    requires AllBelow(points, start) || AllFrom(points, end)
    ensures InRange(points, start, end) == []
    decreases |points|
  {
    if points != [] {
      NoneInRange(points[1..], start, end);
    }
  }

  lemma {:induction false} DropBelow(points: seq<Point>, start: int, end: int)
    ensures InRange(points, start, end) == InRange(points[RunBelow(points, start)..], start, end)
    ensures RunBelow(points, start) < |points| ==> points[RunBelow(points, start)].ts >= start
    decreases |points|
  {
    if points != [] && points[0].ts < start {
      DropBelow(points[1..], start, end);
      assert points[1..][RunBelow(points[1..], start)..] == points[RunBelow(points, start)..];
    }
  }

  lemma {:induction false} KeepBelow(points: seq<Point>, start: int, end: int)
    requires Sorted(points) && (points != [] ==> points[0].ts >= start)
    ensures InRange(points, start, end) == points[..RunBelow(points, end)]
    decreases |points|
  {
    if points != [] {
      if points[0].ts >= end {
        NoneInRange(points, start, end);
      } else {
        KeepBelow(points[1..], start, end);
        assert points[..RunBelow(points, end)] == [points[0]] + points[1..][..RunBelow(points[1..], end)];
      }
    }
  }

  /** Of sorted points, those in range are one slice. */
  lemma InRangeSlice(points: seq<Point>, start: int, end: int)
    requires Sorted(points)
    ensures
      var tail := points[RunBelow(points, start)..];
      InRange(points, start, end) == tail[..RunBelow(tail, end)]
  {
    DropBelow(points, start, end);
    KeepBelow(points[RunBelow(points, start)..], start, end);
  }

  lemma {:induction false} InRangeMeans(points: seq<Point>, start: int, end: int)
    ensures AllFrom(InRange(points, start, end), start) && AllBelow(InRange(points, start, end), end)
    decreases |points|
  {
    if points != [] {
      InRangeMeans(points[1..], start, end);
    }
  }

  lemma InRangeBounded(points: seq<Point>, start: I64, end: I64)
    requires Sorted(points)
    ensures Bounded(InRange(points, start, end))
  {
    InRangeSlice(points, start, end);
    InRangeMeans(points, start, end);
  }

  // ----- The loop -----

  /** The first index from `idx` on whose point is not before `bound`. */
  method SkipBelow(points: seq<Point>, idx: nat, bound: int) returns (next: nat)
    requires idx <= |points|
    ensures next == idx + RunBelow(points[idx..], bound) && next <= |points|
  {
    next := idx;
    while next < |points| && points[next].ts < bound
      invariant idx <= next <= |points|
      invariant next + RunBelow(points[next..], bound) == idx + RunBelow(points[idx..], bound)
    {
      assert points[next..][1..] == points[next + 1..];
      next := next + 1;
    }
  }

  lemma {:induction false} RunBelowBoth(points: seq<Point>, end: int, bound: int)
    ensures RunBelow(points, Min(end, bound)) == Min(RunBelow(points, end), RunBelow(points, bound))
    ensures RunBelow(points[..RunBelow(points, end)], bound) == Min(RunBelow(points, end), RunBelow(points, bound))
    decreases |points|
  {
    if points != [] {
      RunBelowBoth(points[1..], end, bound);
      var n := RunBelow(points, end);
      if n > 0 {
        assert points[..n][1..] == points[1..][..n - 1];
      }
    }
  }

  /** The next group of the points in range, as the inner loop finds it. */
  lemma NextGroup(points: seq<Point>, end: I64, idx: nat, next: nat, bound: int, endOf: int -> int)
    requires idx < |points| && points[idx].ts < end && points[idx].ts < bound && endOf(points[idx].ts) == bound
    requires next == idx + RunBelow(points[idx..], Min(end, bound))
    ensures idx < next <= |points|
    ensures
      var rest, after := points[idx..], points[next..];
      LoopGroups(rest[..RunBelow(rest, end)], endOf)
      == [points[idx..next]] + LoopGroups(after[..RunBelow(after, end)], endOf)
  {
    var rest, n := points[idx..], next - idx;
    RunBelowBoth(rest, end, bound);
    RunBelowAfter(rest, end, n);
    FirstLoopGroup(rest[..RunBelow(rest, end)], n, endOf);
    SameSlices(points, idx, next, RunBelow(rest, end));
  }

  lemma FirstLoopGroup(points: seq<Point>, n: nat, endOf: int -> int)
    requires points != [] && n >= 1 && n == RunBelow(points, endOf(points[0].ts))
    ensures LoopGroups(points, endOf) == [points[..n]] + LoopGroups(points[n..], endOf)
  {
  }

  lemma SameSlices(points: seq<Point>, idx: nat, next: nat, m: nat)
    requires idx <= next <= idx + m <= |points|
    ensures
      var inRange := points[idx..][..m];
      && inRange[..next - idx] == points[idx..next] && inRange[next - idx..] == points[next..][..m - (next - idx)]
      && points[idx..][next - idx..] == points[next..]
  {
  }

  lemma {:induction false} RunBelowAfter(points: seq<Point>, end: int, n: nat)
    requires n <= RunBelow(points, end)
    ensures RunBelow(points[n..], end) == RunBelow(points, end) - n
    decreases n
  {
    if n > 0 {
      RunBelowAfter(points[1..], end, n - 1);
      assert points[1..][n - 1..] == points[n..];
    }
  }

  /** Everything from `idx` on still has to be reported after `result`. */
  ghost predicate Remaining(points: seq<Point>, end: I64, idx: nat, endOf: int -> int, report: Report, result: seq<Point>,
                            total: Result<seq<Point>, AggregationError>)
    requires idx <= |points|
  {
    var rest := points[idx..];
    total == Joined(Ok(result), ReportAll(LoopGroups(rest[..RunBelow(rest, end)], endOf), report))
  }

  lemma ReportFirst(group: seq<Point>, groups: seq<seq<Point>>, report: Report, result: seq<Point>)
    ensures Joined(Ok(result), ReportAll([group] + groups, report))
         == if report(group).Err? then Err(report(group).error)
            else Joined(Ok(Extend(result, report(group).value)), ReportAll(groups, report))
  {
    ReportAppend([group], groups, report);
    assert [group][..0] == [];
    assert ReportAll([group], report) == if report(group).Err? then Err(report(group).error) else Ok(Extend([], report(group).value));
    var more := ReportAll(groups, report);
    if report(group).Ok? && more.Ok? {
      var p := report(group).value;
      assert result + (Extend([], p) + more.value) == Extend(result, p) + more.value;
    }
  }

  /** `downsample_points_with_origin` */
  method DownsamplePoints(points: seq<Point>, interval: I64, agg: Aggregation, origin: I64, start: I64, end: I64)
    returns (r: Result<seq<Point>, AggregationError>)
    requires Sorted(points)
    ensures r == Downsampled(points, interval, agg, origin, start, end)
  {
    if points == [] || interval <= 0 || start >= end {
      if points == [] || start >= end {
        EmptyRange(points, start, end);
      }
      return Ok([]);
    }
    ghost var endOf, report := EndOf(origin, interval), ReportOf(agg, origin, interval);
    ghost var total := Downsampled(points, interval, agg, origin, start, end);
    var idx := SkipBelow(points, 0, start);
    var result := [];
    StartRemaining(points, start, end, idx, endOf, report);
    while idx < |points|
      invariant idx <= |points| && Remaining(points, end, idx, endOf, report, result, total)
      decreases |points| - idx
    {
      if points[idx].ts >= end {
        break;
      }
      var bucketStart := BucketStart(points[idx].ts, origin, interval);
      var next := SkipBelow(points, idx, Min(end, BucketEnd(points[idx].ts, origin, interval)));
      EndIsBeyond(points[idx].ts, origin, interval);
      NextGroup(points, end, idx, next, BucketEnd(points[idx].ts, origin, interval), endOf);
      var point := agg(points[idx..next], bucketStart);
      NextRemaining(points, end, idx, next, endOf, report, result, total);
      assert report(points[idx..next]) == point;
      if point.Err? {
        return Err(point.error);
      }
      result := Extend(result, point.value);
      idx := next;
    }
    NothingRemains(points, end, idx, endOf, report, result, total);
    return Ok(result);
  }

  lemma EmptyRange(points: seq<Point>, start: int, end: int)
    requires points == [] || start >= end
    ensures InRange(points, start, end) == []
    decreases |points|
  {
    if points != [] {
      EmptyRange(points[1..], start, end);
    }
  }

  lemma StartRemaining(points: seq<Point>, start: I64, end: I64, idx: nat, endOf: int -> int, report: Report)
    requires Sorted(points) && start < end && idx == RunBelow(points[0..], start) && idx <= |points|
    ensures Remaining(points, end, idx, endOf, report, [], ReportAll(LoopGroups(InRange(points, start, end), endOf), report))
  {
    assert points[0..] == points;
    InRangeSlice(points, start, end);
    var reported := ReportAll(LoopGroups(InRange(points, start, end), endOf), report);
    if reported.Ok? {
      assert [] + reported.value == reported.value;
    }
  }

  lemma NextRemaining(points: seq<Point>, end: I64, idx: nat, next: nat, endOf: int -> int, report: Report,
                      result: seq<Point>, total: Result<seq<Point>, AggregationError>)
    requires idx < next <= |points| && Remaining(points, end, idx, endOf, report, result, total)
    requires
      var rest, after := points[idx..], points[next..];
      LoopGroups(rest[..RunBelow(rest, end)], endOf) == [points[idx..next]] + LoopGroups(after[..RunBelow(after, end)], endOf)
    ensures
      var point := report(points[idx..next]);
      if point.Err? then total == Err(point.error)
      else Remaining(points, end, next, endOf, report, Extend(result, point.value), total)
  {
    var after := points[next..];
    ReportFirst(points[idx..next], LoopGroups(after[..RunBelow(after, end)], endOf), report, result);
  }

  lemma NothingRemains(points: seq<Point>, end: I64, idx: nat, endOf: int -> int, report: Report, result: seq<Point>,
                       total: Result<seq<Point>, AggregationError>)
    requires idx <= |points| && Remaining(points, end, idx, endOf, report, result, total)
    requires idx < |points| ==> points[idx].ts >= end
    ensures total == Ok(result)
  {
    assert points[idx..][..0] == [];
    assert result + [] == result;
  }

  // ----- Theorems -----

  /** Downsampling aggregates per Euclidean bucket exactly when no clamped bucket swallows another. */
  lemma LoopGroupsAreBuckets(points: seq<Point>, origin: I64, interval: I64, start: I64, end: I64)
    requires Sorted(points) && interval > 0
    ensures
      var inRange := InRange(points, start, end);
      LoopGroups(inRange, EndOf(origin, interval)) == Groups(inRange, EuclideanBuckets(origin, interval))
      <==> !Merges(inRange, origin, interval)
  {
    var inRange := InRange(points, start, end);
    InRangeBounded(points, start, end);
    if Merges(inRange, origin, interval) {
      MergeDiffers(inRange, origin, interval);
    } else {
      LoopGroupsExact(inRange, origin, interval);
    }
  }

  /** Then no bucket is reported twice, and buckets come in rising order. */
  lemma BucketsRise(points: seq<Point>, origin: I64, interval: I64, start: I64, end: I64, i: nat, j: nat)
    requires Sorted(points) && interval > 0 && !Merges(InRange(points, start, end), origin, interval)
    requires i < j < |LoopGroups(InRange(points, start, end), EndOf(origin, interval))|
    ensures
      var groups, bucket := LoopGroups(InRange(points, start, end), EndOf(origin, interval)), EuclideanBuckets(origin, interval);
      groups[i] != [] && groups[j] != [] && bucket(groups[i][0].ts) < bucket(groups[j][0].ts)
  {
    LoopGroupsAreBuckets(points, origin, interval, start, end);
    InRangeBounded(points, start, end);
    EuclideanMonotone(origin, interval);
    GroupsRise(InRange(points, start, end), EuclideanBuckets(origin, interval), i, j);
  }

  /** Two points of different buckets that are reported as one. */
  lemma MergeExample()
    ensures Merges([Point(I64_MIN, 1), Point(I64_MIN + 5, 2)], I64_MIN + 5, 10)
    ensures IsAligned(I64_MIN + 5, I64_MIN + 5, 10)
    ensures Straddles([Point(I64_MIN, 1)], [Point(I64_MIN + 5, 2)], EndOf(I64_MIN + 5, 10))
  {
    var points := [Point(I64_MIN, 1), Point(I64_MIN + 5, 2)];
    assert EuclideanBuckets(I64_MIN + 5, 10)(points[1].ts) == 0;
    assert EuclideanBuckets(I64_MIN + 5, 10)(points[0].ts) == -1;
  }

  lemma {:induction false} RaiseStart(points: seq<Point>, start: int, middle: int, end: int)
    requires AllFrom(points, middle) && start <= middle
    ensures InRange(points, start, end) == InRange(points, middle, end)
    decreases |points|
  {
    if points != [] {
      RaiseStart(points[1..], start, middle, end);
    }
  }

  lemma {:induction false} InRangeSplit(points: seq<Point>, start: int, middle: int, end: int)
    requires Sorted(points) && start <= middle <= end
    ensures InRange(points, start, end) == InRange(points, start, middle) + InRange(points, middle, end)
    decreases |points|
  {
    if points != [] {
      if middle <= points[0].ts {
        assert AllFrom(points, middle);
        NoneInRange(points, start, middle);
        RaiseStart(points, start, middle, end);
      } else {
        InRangeSplit(points[1..], start, middle, end);
      }
    }
  }

  /** A bucket begun before the cut reaches beyond the first point after it. */
  ghost predicate Straddles(a: seq<Point>, b: seq<Point>, endOf: int -> int) {
    a != [] && b != [] && b[0].ts < endOf(a[0].ts)
  }

  /** Before an aligned timestamp every bucket has ended, unless it is the clamped one. */
  lemma EndedBefore(a: seq<Point>, b: seq<Point>, i: nat, middle: I64, origin: I64, interval: I64)
    requires interval > 0 && IsAligned(middle, origin, interval) && Bounded(a) && b != []
    requires AllBelow(a, middle) && AllFrom(b, middle) && !Straddles(a, b, EndOf(origin, interval)) && i < |a|
    ensures a[i].ts < EndOf(origin, interval)(a[i].ts) <= b[0].ts
  {
    EndIsBeyond(a[i].ts, origin, interval);
    AlignedStartsBucket(a[i].ts, middle, origin, interval);
    SameBucket(a[i].ts, middle, origin, interval);
    BucketBounds(middle, origin, interval);
    BucketBounds(a[i].ts, origin, interval);
    if Clamped(a[i].ts, origin, interval) {
      SameBucket(a[0].ts, a[i].ts, origin, interval);
      EndIsBeyond(a[0].ts, origin, interval);
    }
  }

  lemma {:induction false} RunBelowAppend(a: seq<Point>, b: seq<Point>, bound: int)
    requires b == [] || b[0].ts >= bound
    ensures RunBelow(a + b, bound) == RunBelow(a, bound)
    decreases |a|
  {
    if a == [] {
      assert a + b == b;
    } else {
      assert (a + b)[1..] == a[1..] + b;
      RunBelowAppend(a[1..], b, bound);
    }
  }

  ghost predicate EndBy(points: seq<Point>, bound: int, endOf: int -> int) {
    forall i :: 0 <= i < |points| ==> points[i].ts < endOf(points[i].ts) <= bound
  }

  lemma {:induction false} LoopGroupsAppend(a: seq<Point>, b: seq<Point>, endOf: int -> int)
    requires b != [] ==> EndBy(a, b[0].ts, endOf)
    ensures LoopGroups(a + b, endOf) == LoopGroups(a, endOf) + LoopGroups(b, endOf)
    decreases |a|
  {
    if a == [] {
      assert a + b == b;
    } else if b == [] {
      assert a + b == a;
    } else {
      var n := RunBelow(a, endOf(a[0].ts));
      FirstLoopGroup(a, n, endOf);
      FirstGroupOfBoth(a, b, n, endOf);
      LoopGroupsAppend(a[n..], b, endOf);
      Associate(a[..n], LoopGroups(a[n..], endOf), LoopGroups(b, endOf));
    }
  }

  lemma FirstGroupOfBoth(a: seq<Point>, b: seq<Point>, n: nat, endOf: int -> int)
    requires a != [] && b != [] && a[0].ts < endOf(a[0].ts) <= b[0].ts && n == RunBelow(a, endOf(a[0].ts))
    ensures LoopGroups(a + b, endOf) == [a[..n]] + LoopGroups(a[n..] + b, endOf)
  {
    RunBelowAppend(a, b, endOf(a[0].ts));
    FirstLoopGroup(a + b, n, endOf);
    assert (a + b)[..n] == a[..n] && (a + b)[n..] == a[n..] + b;
  }

  lemma Associate(g: seq<Point>, x: seq<seq<Point>>, y: seq<seq<Point>>)
    ensures [g] + (x + y) == ([g] + x) + y
  {
  }

  lemma StraddleDiffers(a: seq<Point>, b: seq<Point>, endOf: int -> int)
    requires Straddles(a, b, endOf) && forall i :: 0 <= i < |a| ==> a[i].ts <= b[0].ts
    ensures LoopGroups(a + b, endOf) != LoopGroups(a, endOf) + LoopGroups(b, endOf)
  {
    var bound, n := endOf(a[0].ts), RunBelow(a + b, endOf(a[0].ts));
    RunBelowMeans(a + b, bound);
    forall i | 0 <= i <= |a| ensures (a + b)[i].ts < bound {
    }
    assert n > |a|;
    assert LoopGroups(a + b, endOf)[0] == (a + b)[..n];
    assert |LoopGroups(a, endOf)[0]| <= |a|;
  }

  /** Cutting the range at a bucket boundary cuts no group exactly when no clamped bucket straddles the cut. */
  lemma SplitExactly(points: seq<Point>, interval: I64, origin: I64, start: I64, middle: I64, end: I64)
    requires Sorted(points) && interval > 0 && start <= middle <= end && IsAligned(middle, origin, interval)
    ensures
      var a, b, endOf := InRange(points, start, middle), InRange(points, middle, end), EndOf(origin, interval);
      && InRange(points, start, end) == a + b
      && (LoopGroups(a + b, endOf) == LoopGroups(a, endOf) + LoopGroups(b, endOf) <==> !Straddles(a, b, endOf))
  {
    var a, b, endOf := InRange(points, start, middle), InRange(points, middle, end), EndOf(origin, interval);
    InRangeSplit(points, start, middle, end);
    InRangeBounded(points, start, middle);
    InRangeMeans(points, start, middle);
    InRangeMeans(points, middle, end);
    if Straddles(a, b, endOf) {
      StraddleDiffers(a, b, endOf);
    } else {
      if b != [] {
        forall i | 0 <= i < |a| ensures a[i].ts < endOf(a[i].ts) <= b[0].ts {
          EndedBefore(a, b, i, middle, origin, interval);
        }
      }
      LoopGroupsAppend(a, b, endOf);
    }
  }

  /** Then the results of the two parts, joined, are the result of the whole. */
  lemma SplitAtAligned(points: seq<Point>, interval: I64, agg: Aggregation, origin: I64, start: I64, middle: I64, end: I64)
    requires Sorted(points) && interval > 0 && start <= middle <= end && IsAligned(middle, origin, interval)
    requires !Straddles(InRange(points, start, middle), InRange(points, middle, end), EndOf(origin, interval))
    ensures Downsampled(points, interval, agg, origin, start, end)
         == Joined(Downsampled(points, interval, agg, origin, start, middle),
                   Downsampled(points, interval, agg, origin, middle, end))
  {
    var a, b, endOf := InRange(points, start, middle), InRange(points, middle, end), EndOf(origin, interval);
    SplitExactly(points, interval, origin, start, middle, end);
    ReportAppend(LoopGroups(a, endOf), LoopGroups(b, endOf), ReportOf(agg, origin, interval));
  }

  /** What a caller can tell before looking at points: a part is empty, or the first bucket has ended by the cut. */
  predicate SafeCut(start: I64, middle: I64, end: I64, origin: I64, interval: I64)
    requires interval > 0
  {
    start == middle || middle == end || BucketEnd(start, origin, interval) <= middle
  }

  lemma SafeCutHolds(points: seq<Point>, interval: I64, origin: I64, start: I64, middle: I64, end: I64)
    requires Sorted(points) && interval > 0 && start <= middle <= end && IsAligned(middle, origin, interval)
    requires SafeCut(start, middle, end, origin, interval)
    ensures !Straddles(InRange(points, start, middle), InRange(points, middle, end), EndOf(origin, interval))
  {
    var a, b := InRange(points, start, middle), InRange(points, middle, end);
    InRangeMeans(points, start, middle);
    InRangeMeans(points, middle, end);
    if a != [] && b != [] {
      var first := a[0].ts;
      EndIsBeyond(first, origin, interval);
      AlignedStartsBucket(first, middle, origin, interval);
      SameBucket(first, middle, origin, interval);
      BucketBounds(middle, origin, interval);
      BucketBounds(first, origin, interval);
      SameBucket(start, first, origin, interval);
      BucketBounds(start, origin, interval);
    }
  }

  lemma UnsafeCutStraddles(interval: I64, origin: I64, start: I64, middle: I64, end: I64, points: seq<Point>)
    requires interval > 0 && start < middle < end && middle < BucketEnd(start, origin, interval)
    requires points == [Point(start, 0), Point(middle, 0)]
    ensures Straddles(InRange(points, start, middle), InRange(points, middle, end), EndOf(origin, interval))
  {
    var later := points[1..];
    assert later == [Point(middle, 0)] && later[1..] == [];
    assert InRange(later, start, middle) == InRange([], start, middle) == [];
    assert InRange(later, middle, end) == [later[0]] + InRange([], middle, end) == [later[0]];
    EndIsBeyond(start, origin, interval);
  }

  ghost predicate NeverStraddles(interval: I64, origin: I64, start: I64, middle: I64, end: I64)
    requires interval > 0
  {
    forall points :: Sorted(points) ==>
      !Straddles(InRange(points, start, middle), InRange(points, middle, end), EndOf(origin, interval))
  }

  /** A cut at an aligned timestamp is right for all points exactly when it is safe; an unclamped start makes it so. */
  lemma SafeCutExactly(interval: I64, origin: I64, start: I64, middle: I64, end: I64)
    requires interval > 0 && start <= middle <= end && IsAligned(middle, origin, interval)
    ensures NeverStraddles(interval, origin, start, middle, end) <==> SafeCut(start, middle, end, origin, interval)
    ensures !Clamped(start, origin, interval) ==> SafeCut(start, middle, end, origin, interval)
  {
    if SafeCut(start, middle, end, origin, interval) {
      forall points | Sorted(points)
        ensures !Straddles(InRange(points, start, middle), InRange(points, middle, end), EndOf(origin, interval))
      {
        SafeCutHolds(points, interval, origin, start, middle, end);
      }
    } else {
      var points := [Point(start, 0), Point(middle, 0)];
      UnsafeCutStraddles(interval, origin, start, middle, end, points);
      assert Sorted(points);
    }
    if start < middle && !Clamped(start, origin, interval) {
      AlignedStartsBucket(start, middle, origin, interval);
      SameBucket(start, middle, origin, interval);
      BucketBounds(middle, origin, interval);
      BucketBounds(start, origin, interval);
    }
  }

  /** `aligned_materialized_end`: none before anything was observed. */
  function MaterializedEnd(maxObserved: I64, origin: I64, interval: I64): Option<I64>
    requires interval > 0
  {
    if maxObserved == I64_MIN then None else Some(BucketStart(maxObserved, origin, interval))
  }

  /** It is the last aligned timestamp that is not after the last one observed. */
  lemma MaterializedEndIsLastAligned(maxObserved: I64, origin: I64, interval: I64, t: I64)
    requires interval > 0 && maxObserved != I64_MIN
    ensures
      var end := MaterializedEnd(maxObserved, origin, interval);
      end.Some? && end.value <= maxObserved && IsAligned(end.value, origin, interval)
      && (IsAligned(t, origin, interval) && t <= maxObserved ==> t <= end.value)
  {
    var end := BucketStart(maxObserved, origin, interval);
    BucketBounds(maxObserved, origin, interval);
    BucketBounds(end, origin, interval);
    SameBucket(end, maxObserved, origin, interval);
    if t <= maxObserved {
      BucketBounds(t, origin, interval);
      SameBucket(t, maxObserved, origin, interval);
    }
  }

  /** So what is materialised and what is still raw join to the whole. */
  lemma SplitAtMaterializedEnd(points: seq<Point>, interval: I64, agg: Aggregation, origin: I64, maxObserved: I64,
                               start: I64, end: I64)
    requires Sorted(points) && interval > 0 && maxObserved != I64_MIN
    requires var middle := BucketStart(maxObserved, origin, interval);
             && start <= middle <= end
             && !Straddles(InRange(points, start, middle), InRange(points, middle, end), EndOf(origin, interval))
    ensures
      var middle := MaterializedEnd(maxObserved, origin, interval).value;
      Downsampled(points, interval, agg, origin, start, end)
      == Joined(Downsampled(points, interval, agg, origin, start, middle),
                Downsampled(points, interval, agg, origin, middle, end))
  {
    MaterializedEndIsLastAligned(maxObserved, origin, interval, start);
    SplitAtAligned(points, interval, agg, origin, start, BucketStart(maxObserved, origin, interval), end);
  }
}
