/**
 Deletion tombstones (src/engine/tombstone.rs): half-open ranges kept in a normal form, the
 point and interval queries over them, and the update a delete computes (src/engine/deletion.rs).
 */
module Tombstones {
  import opened Common

  datatype Range = Range(start: int, end: int)

  ghost predicate Within(r: Range, t: int) {
    r.start <= t < r.end
  }

  ghost predicate Covers(ranges: seq<Range>, t: int) {
    exists i :: 0 <= i < |ranges| && Within(ranges[i], t)
  }

  ghost predicate SameCoverage(a: seq<Range>, b: seq<Range>) {
    forall t :: Covers(a, t) <==> Covers(b, t)
  }

  ghost predicate NonEmpty(ranges: seq<Range>) {
    forall i :: 0 <= i < |ranges| ==> ranges[i].start < ranges[i].end
  }

  ghost predicate SortedByStart(ranges: seq<Range>) {
    forall i, j :: 0 <= i < j < |ranges| ==> ranges[i].start <= ranges[j].start
  }

  /** Sorted, non-empty and non-touching. */
  ghost predicate Normal(ranges: seq<Range>) {
    && NonEmpty(ranges)
    && (forall i, j :: 0 <= i < j < |ranges| ==> ranges[i].end < ranges[j].start)
  }

  // ----- Merging -----

  function InsertByStart(r: Range, sorted: seq<Range>): seq<Range> {
    if sorted == [] || r.start < sorted[0].start then [r] + sorted
    else [sorted[0]] + InsertByStart(r, sorted[1..])
  }

  /** A stable sort by start: each range goes after the earlier ones with the same start. */
  function SortByStart(ranges: seq<Range>): seq<Range> {
    if ranges == [] then []
    else InsertByStart(ranges[|ranges| - 1], SortByStart(ranges[..|ranges| - 1]))
  }

  /** The sweep of `merge_tombstone_range` over what is left of the sorted list. */
  function Sweep(merged: seq<Range>, rest: seq<Range>): seq<Range>
    decreases |rest|
  {
    if rest == [] then merged
    else if merged != [] && merged[|merged| - 1].end >= rest[0].start then
      var last := merged[|merged| - 1];
      Sweep(merged[|merged| - 1 := last.(end := Max(last.end, rest[0].end))], rest[1..])
    else Sweep(merged + [rest[0]], rest[1..])
  }

  function Merge(ranges: seq<Range>, added: Range): seq<Range> {
    Sweep([], SortByStart(ranges + [added]))
  }

  lemma {:induction false} InsertByStartPermutes(r: Range, sorted: seq<Range>)
    ensures multiset(InsertByStart(r, sorted)) == multiset(sorted) + multiset{r}
  {
    if sorted != [] && r.start >= sorted[0].start {
      InsertByStartPermutes(r, sorted[1..]);
      assert sorted == [sorted[0]] + sorted[1..];
    }
  }

  lemma {:induction false} InsertByStartSorted(r: Range, sorted: seq<Range>)
    requires SortedByStart(sorted)
    ensures SortedByStart(InsertByStart(r, sorted))
    ensures sorted != [] ==> InsertByStart(r, sorted)[0].start == Min(r.start, sorted[0].start)
  {
    if sorted != [] && r.start >= sorted[0].start {
      InsertByStartSorted(r, sorted[1..]);
      var inserted := InsertByStart(r, sorted[1..]);
      assert sorted[0].start <= inserted[0].start;
      assert forall i :: 0 < i < |inserted| ==> inserted[0].start <= inserted[i].start;
    }
  }

  lemma {:induction false} SortByStartSorted(ranges: seq<Range>)
    ensures SortedByStart(SortByStart(ranges))
  {
    if ranges != [] {
      SortByStartSorted(ranges[..|ranges| - 1]);
      InsertByStartSorted(ranges[|ranges| - 1], SortByStart(ranges[..|ranges| - 1]));
    }
  }

  lemma {:induction false} SortByStartPermutes(ranges: seq<Range>)
    ensures multiset(SortByStart(ranges)) == multiset(ranges)
  {
    if ranges != [] {
      var init, last := ranges[..|ranges| - 1], ranges[|ranges| - 1];
      SortByStartPermutes(init);
      InsertByStartPermutes(last, SortByStart(init));
      assert ranges == init + [last];
    }
  }

  lemma PermutationCoverage(a: seq<Range>, b: seq<Range>)
    requires multiset(a) == multiset(b)
    ensures SameCoverage(a, b)
    ensures NonEmpty(a) ==> NonEmpty(b)
  {
    forall r ensures r in a <==> r in b {
      assert r in a <==> r in multiset(a);
      assert r in b <==> r in multiset(b);
    }
    forall t ensures Covers(a, t) <==> Covers(b, t) {
      if Covers(a, t) {
        var i :| 0 <= i < |a| && Within(a[i], t);
        assert a[i] in b;
      }
      if Covers(b, t) {
        var i :| 0 <= i < |b| && Within(b[i], t);
        assert b[i] in a;
      }
    }
    if NonEmpty(a) {
      forall i | 0 <= i < |b| ensures b[i].start < b[i].end {
        assert b[i] in a;
      }
    }
  }

  lemma CoversSplit(a: seq<Range>, b: seq<Range>, t: int)
    ensures Covers(a + b, t) <==> Covers(a, t) || Covers(b, t)
  {
    if Covers(a, t) {
      var i :| 0 <= i < |a| && Within(a[i], t);
      assert (a + b)[i] == a[i];
    }
    if Covers(b, t) {
      var i :| 0 <= i < |b| && Within(b[i], t);
      assert (a + b)[|a| + i] == b[i];
    }
  }

  lemma CoversOne(r: Range, t: int)
    ensures Covers([r], t) <==> Within(r, t)
  {
    assert [r][0] == r;
  }

  /** Widening the last range to take in one that starts at or before its end adds exactly that range. */
  lemma WidenLast(merged: seq<Range>, r: Range)
    requires merged != [] && Normal(merged) && r.start < r.end
    requires merged[|merged| - 1].start <= r.start <= merged[|merged| - 1].end
    ensures
      var last := merged[|merged| - 1];
      var widened := merged[|merged| - 1 := last.(end := Max(last.end, r.end))];
      Normal(widened) && (forall t :: Covers(widened, t) <==> Covers(merged, t) || Within(r, t))
  {
    var last := merged[|merged| - 1];
    var wide := last.(end := Max(last.end, r.end));
    var init := merged[..|merged| - 1];
    var widened := merged[|merged| - 1 := wide];
    assert merged == init + [last] && widened == init + [wide];
    forall t ensures Covers(widened, t) <==> Covers(merged, t) || Within(r, t) {
      CoversSplit(init, [last], t);
      CoversSplit(init, [wide], t);
      CoversOne(last, t);
      CoversOne(wide, t);
    }
  }

  lemma {:induction false} SweepNormal(merged: seq<Range>, rest: seq<Range>)
    requires Normal(merged) && NonEmpty(rest) && SortedByStart(rest)
    requires merged != [] && rest != [] ==> merged[|merged| - 1].start <= rest[0].start
    ensures Normal(Sweep(merged, rest))
    ensures forall t :: Covers(Sweep(merged, rest), t) <==> Covers(merged, t) || Covers(rest, t)
    decreases |rest|
  {
    if rest != [] {
      var r := rest[0];
      assert rest == [r] + rest[1..];
      forall t ensures Covers(rest, t) <==> Within(r, t) || Covers(rest[1..], t) {
        CoversSplit([r], rest[1..], t);
        CoversOne(r, t);
      }
      if merged != [] && merged[|merged| - 1].end >= r.start {
        WidenLast(merged, r);
        var last := merged[|merged| - 1];
        SweepNormal(merged[|merged| - 1 := last.(end := Max(last.end, r.end))], rest[1..]);
      } else {
        forall t ensures Covers(merged + [r], t) <==> Covers(merged, t) || Within(r, t) {
          CoversSplit(merged, [r], t);
          CoversOne(r, t);
        }
        SweepNormal(merged + [r], rest[1..]);
      }
    }
  }

  /** Merging keeps the normal form and covers exactly what was covered plus the new range. */
  lemma MergeCoverage(ranges: seq<Range>, added: Range)
    requires NonEmpty(ranges) && added.start < added.end
    ensures Normal(Merge(ranges, added))
    ensures forall t :: Covers(Merge(ranges, added), t) <==> Covers(ranges, t) || Within(added, t)
  {
    var all := ranges + [added];
    var sorted := SortByStart(all);
    SortByStartSorted(all);
    SortByStartPermutes(all);
    PermutationCoverage(all, sorted);
    SweepNormal([], sorted);
    forall t ensures Covers(all, t) <==> Covers(ranges, t) || Within(added, t) {
      CoversSplit(ranges, [added], t);
      CoversOne(added, t);
    }
  }

  // ----- The normal form is unique -----

  lemma FirstCovered(ranges: seq<Range>, t: int)
    requires Normal(ranges) && Covers(ranges, t)
    ensures ranges != [] && ranges[0].start <= t
    ensures ranges[0].end <= t ==> |ranges| > 1 && ranges[1].start <= t
  {
    var i :| 0 <= i < |ranges| && Within(ranges[i], t);
    if i > 0 {
      assert ranges[0].end < ranges[i].start;
      if i > 1 {
        assert ranges[1].end < ranges[i].start;
      }
    }
  }

  lemma FirstRangeAgrees(a: seq<Range>, b: seq<Range>)
    requires Normal(a) && Normal(b) && SameCoverage(a, b) && a != [] && b != []
    ensures a[0].start == b[0].start && a[0].end <= b[0].end
  {
    assert Within(a[0], a[0].start) && Within(b[0], b[0].start);
    assert Covers(a, a[0].start) && Covers(b, b[0].start);
    FirstCovered(b, a[0].start);
    FirstCovered(a, b[0].start);
    assert |b| > 1 ==> b[0].end < b[1].start;
    if a[0].end > b[0].end {
      assert Within(a[0], b[0].end) && Covers(a, b[0].end);
      FirstCovered(b, b[0].end);
    }
  }

  lemma TailCoverage(a: seq<Range>, t: int)
    requires Normal(a) && a != []
    ensures Covers(a[1..], t) <==> Covers(a, t) && t >= a[0].end
  {
    assert a == [a[0]] + a[1..];
    CoversSplit([a[0]], a[1..], t);
    CoversOne(a[0], t);
    if Covers(a[1..], t) {
      var i :| 0 <= i < |a[1..]| && Within(a[1..][i], t);
      assert a[0].end < a[i + 1].start;
    }
  }

  /** Two normal lists that cover the same timestamps are the same list. */
  lemma {:induction false} NormalFormUnique(a: seq<Range>, b: seq<Range>)
    requires Normal(a) && Normal(b) && SameCoverage(a, b)
    ensures a == b
    decreases |a|
  {
    if a == [] || b == [] {
      var other := if a == [] then b else a;
      if other != [] {
        assert Within(other[0], other[0].start) && Covers(other, other[0].start);
      }
    } else {
      FirstRangeAgrees(a, b);
      FirstRangeAgrees(b, a);
      forall t ensures Covers(a[1..], t) <==> Covers(b[1..], t) {
        TailCoverage(a, t);
        TailCoverage(b, t);
      }
      NormalFormUnique(a[1..], b[1..]);
      assert a == [a[0]] + a[1..] && b == [b[0]] + b[1..];
    }
  }

  // ----- Normalization -----

  datatype NormalizeError = InvalidRange

  function NormalizeFrom(normalized: seq<Range>, rest: seq<Range>): Result<seq<Range>, NormalizeError>
    decreases |rest|
  {
    if rest == [] then Ok(normalized)
    else if rest[0].start >= rest[0].end then Err(InvalidRange)
    else NormalizeFrom(Merge(normalized, rest[0]), rest[1..])
  }

  function Normalize(ranges: seq<Range>): Result<seq<Range>, NormalizeError> {
    NormalizeFrom([], ranges)
  }

  lemma {:induction false} NormalizeFromCoverage(normalized: seq<Range>, rest: seq<Range>)
    requires Normal(normalized)
    ensures NormalizeFrom(normalized, rest).Ok? <==> NonEmpty(rest)
    ensures NormalizeFrom(normalized, rest).Ok? ==> Normal(NormalizeFrom(normalized, rest).value)
    ensures NormalizeFrom(normalized, rest).Ok? ==>
      forall t :: Covers(NormalizeFrom(normalized, rest).value, t) <==> Covers(normalized, t) || Covers(rest, t)
    decreases |rest|
  {
    if rest != [] && rest[0].start < rest[0].end {
      MergeCoverage(normalized, rest[0]);
      NormalizeFromCoverage(Merge(normalized, rest[0]), rest[1..]);
      assert rest == [rest[0]] + rest[1..];
      forall t ensures Covers(rest, t) <==> Within(rest[0], t) || Covers(rest[1..], t) {
        CoversSplit([rest[0]], rest[1..], t);
        CoversOne(rest[0], t);
      }
    }
  }

  /** Normalizing depends only on what is covered, so neither order nor repetition matters. */
  lemma NormalizeCanonical(a: seq<Range>, b: seq<Range>)
    requires NonEmpty(a) && NonEmpty(b) && SameCoverage(a, b)
    ensures Normalize(a) == Normalize(b)
  {
    NormalizeFromCoverage([], a);
    NormalizeFromCoverage([], b);
    NormalFormUnique(Normalize(a).value, Normalize(b).value);
  }

  lemma NormalizeFixesNormal(a: seq<Range>)
    requires Normal(a)
    ensures Normalize(a) == Ok(a)
  {
    NormalizeFromCoverage([], a);
    NormalFormUnique(Normalize(a).value, a);
  }

  // ----- Queries -----

  /** The number of leading ranges that start at or before `t`, by bisection of [lo, hi). */
  function PartitionPoint(ranges: seq<Range>, t: int, lo: nat, hi: nat): (k: nat)
    requires lo <= hi <= |ranges|
    ensures lo <= k <= hi
    ensures SortedByStart(ranges) ==>
      && (forall i :: lo <= i < k ==> ranges[i].start <= t)
      && (forall i :: k <= i < hi ==> ranges[i].start > t)
    decreases hi - lo
  {
    if lo == hi then lo
    else
      var mid := (lo + hi) / 2;
      if ranges[mid].start <= t then PartitionPoint(ranges, t, mid + 1, hi) else PartitionPoint(ranges, t, lo, mid)
  }

  /** `timestamp_is_tombstoned` */
  function TimestampIsTombstoned(t: int, ranges: seq<Range>): (r: bool)
    ensures Normal(ranges) ==> (r <==> Covers(ranges, t))
  {
    var idx := PartitionPoint(ranges, t, 0, |ranges|);
    var r := idx != 0 && t < ranges[idx - 1].end;
    assert Normal(ranges) ==> (r <==> Covers(ranges, t)) by {
      if Normal(ranges) {
        NormalSorted(ranges);
        if r {
          assert Within(ranges[idx - 1], t);
        }
        if Covers(ranges, t) {
          var i :| 0 <= i < |ranges| && Within(ranges[i], t);
          assert i < idx;
          if i < idx - 1 {
            assert ranges[i].end < ranges[idx - 1].start;
          }
        }
      }
    }
    r
  }

  /** `interval_fully_tombstoned`: whether every timestamp of a non-empty closed interval is covered. */
  function IntervalFullyTombstoned(first: int, last: int, ranges: seq<Range>): (r: bool)
    ensures Normal(ranges) ==> (r <==> first <= last && forall t :: first <= t <= last ==> Covers(ranges, t))
  {
    if first > last then false
    else
      var idx := PartitionPoint(ranges, first, 0, |ranges|);
      var r := idx != 0 && ranges[idx - 1].end > last;
      assert Normal(ranges) ==> (r <==> forall t :: first <= t <= last ==> Covers(ranges, t)) by {
        if Normal(ranges) {
          NormalSorted(ranges);
          IntervalByRange(first, last, ranges, idx);
        }
      }
      r
  }

  lemma NormalSorted(ranges: seq<Range>)
    requires Normal(ranges)
    ensures SortedByStart(ranges)
  {
    forall i, j | 0 <= i < j < |ranges| ensures ranges[i].start <= ranges[j].start {
      assert ranges[i].start < ranges[i].end < ranges[j].start;
    }
  }

  /** An interval is covered exactly when one range covers all of it: touching ranges have been merged. */
  lemma IntervalByRange(first: int, last: int, ranges: seq<Range>, idx: nat)
    requires Normal(ranges) && first <= last && idx <= |ranges|
    requires forall i :: 0 <= i < idx ==> ranges[i].start <= first
    requires forall i :: idx <= i < |ranges| ==> ranges[i].start > first
    ensures (idx != 0 && ranges[idx - 1].end > last) <==> (forall t :: first <= t <= last ==> Covers(ranges, t))
  {
    if idx != 0 && ranges[idx - 1].end > last {
      forall t | first <= t <= last ensures Covers(ranges, t) {
        assert Within(ranges[idx - 1], t);
      }
    } else {
      var gap := if idx != 0 && ranges[idx - 1].end > first then ranges[idx - 1].end else first;
      forall i | 0 <= i < |ranges| ensures !Within(ranges[i], gap) {
        assert i < idx - 1 ==> ranges[i].end < ranges[idx - 1].start;
        assert 0 < idx <= i ==> ranges[idx - 1].end < ranges[i].start;
      }
      assert first <= gap <= last && !Covers(ranges, gap);
    }
  }

  // ----- The imperative merge and the delete -----

  /** `merge_tombstone_range` */
  method MergeTombstoneRange(ranges: seq<Range>, added: Range) returns (merged: seq<Range>)
    requires NonEmpty(ranges) && added.start < added.end
    ensures merged == Merge(ranges, added)
    ensures Normal(merged)
    ensures forall t :: Covers(merged, t) <==> Covers(ranges, t) || Within(added, t)
  {
    var sorted := SortByStart(ranges + [added]);
    merged := [];
    for i := 0 to |sorted|
      invariant Sweep(merged, sorted[i..]) == Merge(ranges, added)
    {
      assert sorted[i..][1..] == sorted[i + 1..];
      var range := sorted[i];
      if merged != [] && merged[|merged| - 1].end >= range.start {
        var last := merged[|merged| - 1];
        if range.end > last.end {
          last := last.(end := range.end);
        }
        merged := merged[|merged| - 1 := last];
      } else {
        merged := merged + [range];
      }
    }
    MergeCoverage(ranges, added);
  }

  type SeriesId = nat
  type TombstoneMap = map<SeriesId, seq<Range>>

  ghost predicate NormalMap(m: TombstoneMap) {
    forall id :: id in m ==> Normal(m[id])
  }

  ghost predicate Deleted(m: TombstoneMap, id: SeriesId, t: int) {
    id in m && Covers(m[id], t)
  }

  /**
   The update `delete_series_api` computes: applying it deletes exactly the requested range from
   exactly the matched series, and a series is updated exactly when its coverage grows.
   */
  method DeleteUpdates(current: TombstoneMap, series: seq<SeriesId>, range: Range) returns (updates: TombstoneMap)
    requires NormalMap(current) && range.start < range.end
    ensures NormalMap(updates) && NormalMap(current + updates)
    ensures forall id, t :: Deleted(current + updates, id, t) <==>
              Deleted(current, id, t) || (id in series && Within(range, t))
    ensures forall id :: id in updates <==>
              id in series && exists t :: Within(range, t) && !Deleted(current, id, t)
  {
    updates := map[];
    for i := 0 to |series|
      invariant NormalMap(updates) && Updated(current, series[..i], TargetOf(current, range), updates)
    {
      var merged := MergedFor(current, series[i], range, TargetOf(current, range));
      UpdatedStep(current, series[..i], series[i], TargetOf(current, range), updates);
      assert series[..i + 1] == series[..i] + [series[i]];
      if series[i] !in current || current[series[i]] != merged {
        updates := updates[series[i] := merged];
      }
    }
    assert series[..|series|] == series;
    DeleteUpdatesExact(current, series, range, updates);
  }

  method MergedFor(current: TombstoneMap, id: SeriesId, range: Range, ghost target: Target) returns (merged: seq<Range>)
    requires NormalMap(current) && range.start < range.end && target == TargetOf(current, range)
    ensures merged == target(id) && Normal(merged)
  {
    merged := MergeTombstoneRange(CurrentRanges(current, id), range);
  }

  /** What each series would hold after the deletion. */
  type Target = SeriesId -> seq<Range>

  ghost function TargetOf(current: TombstoneMap, range: Range): Target {
    (id: SeriesId) => Merge(CurrentRanges(current, id), range)
  }

  /** The series seen so far whose target differs from the stored list have an update. */
  ghost predicate Updated(current: TombstoneMap, seen: seq<SeriesId>, target: Target, updates: TombstoneMap) {
    && (forall id :: id in updates ==> id in seen && updates[id] == target(id))
    && (forall id :: id in seen && id !in updates ==> id in current && target(id) == current[id])
    && (forall id :: id in updates ==> id !in current || updates[id] != current[id])
  }

  lemma UpdatedStep(current: TombstoneMap, seen: seq<SeriesId>, id: SeriesId, target: Target, updates: TombstoneMap)
    requires Updated(current, seen, target, updates)
    ensures Updated(current, seen + [id], target,
                    if id !in current || current[id] != target(id) then updates[id := target(id)] else updates)
  {
  }

  function CurrentRanges(m: TombstoneMap, id: SeriesId): seq<Range> {
    if id in m then m[id] else []
  }

  lemma DeleteUpdatesExact(current: TombstoneMap, series: seq<SeriesId>, range: Range, updates: TombstoneMap)
    requires NormalMap(current) && range.start < range.end
    requires Updated(current, series, TargetOf(current, range), updates)
    ensures forall id, t :: Deleted(current + updates, id, t) <==>
              Deleted(current, id, t) || (id in series && Within(range, t))
    ensures forall id :: id in updates <==>
              id in series && exists t :: Within(range, t) && !Deleted(current, id, t)
  {
    forall id, t
      ensures Deleted(current + updates, id, t) <==> Deleted(current, id, t) || (id in series && Within(range, t))
    {
      MergeCoverage(CurrentRanges(current, id), range);
    }
    forall id
      ensures id in updates <==> id in series && exists t :: Within(range, t) && !Deleted(current, id, t)
    {
      if id in series {
        GrowsExactlyWhenChanged(current, id, range);
      }
    }
  }

  /** Merging changes the stored list exactly when the range covers something new. */
  lemma GrowsExactlyWhenChanged(current: TombstoneMap, id: SeriesId, range: Range)
    requires NormalMap(current) && range.start < range.end
    ensures (id !in current || Merge(current[id], range) != current[id]) <==>
            exists t :: Within(range, t) && !Deleted(current, id, t)
  {
    MergeCoverage(CurrentRanges(current, id), range);
    if id !in current {
      assert Within(range, range.start) && !Deleted(current, id, range.start);
    } else if forall t :: Within(range, t) ==> Deleted(current, id, t) {
      assert SameCoverage(Merge(current[id], range), current[id]);
      NormalFormUnique(Merge(current[id], range), current[id]);
    }
  }
}
