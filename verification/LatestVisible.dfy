/**
 The latest visible timestamp of a series, src/engine/core_impl.rs: the greatest timestamp at or
 below a ceiling that no tombstone covers, over active points, sealed chunks and persisted chunks.
 Each part is searched with the best answer so far as an exclusive floor.
 */
module LatestVisible {
  import opened Common
  import opened Timestamps
  import opened Tombstones
  import opened Varint

  type Ranges = Option<seq<Range>>

  ghost predicate Ordered(ranges: Ranges) {
    ranges.Some? ==> Normal(ranges.value)
  }

  ghost predicate Visible(t: int, ranges: Ranges) {
    ranges.None? || !Covers(ranges.value, t)
  }

  /** `timestamp_survives_tombstones` */
  predicate Survives(t: int, ranges: Ranges) {
    !(ranges.Some? && TimestampIsTombstoned(t, ranges.value))
  }

  /** The search window: above the floor, at or below the ceiling, and not deleted. */
  ghost predicate Eligible(t: int, ranges: Ranges, floor: int, ceiling: int) {
    floor < t <= ceiling && Visible(t, ranges)
  }

  /** `r` is the greatest eligible timestamp of `ts`. */
  ghost predicate IsLatest(r: Option<I64>, ts: seq<I64>, ranges: Ranges, floor: int, ceiling: int) {
    match r
    case None => forall i :: 0 <= i < |ts| ==> !Eligible(ts[i], ranges, floor, ceiling)
    case Some(v) =>
      && v in ts && Eligible(v, ranges, floor, ceiling)
      && forall i :: 0 <= i < |ts| && Eligible(ts[i], ranges, floor, ceiling) ==> ts[i] <= v
  }

  // ----- Points in any order -----

  /** `latest_visible_timestamp_in_points` */
  method LatestInPoints(ts: seq<I64>, ranges: Ranges, floor: I64, ceiling: I64) returns (r: Option<I64>)
    requires Ordered(ranges)
    ensures IsLatest(r, ts, ranges, floor, ceiling)
  {
    r := None;
    for i := 0 to |ts|
      invariant IsLatest(r, ts[..i], ranges, floor, ceiling)
    {
      assert ts[..i + 1] == ts[..i] + [ts[i]];
      if floor < ts[i] <= ceiling && Survives(ts[i], ranges) {
        r := Some(if r.Some? then Max(r.value, ts[i]) else ts[i]);
      }
    }
    assert ts[..|ts|] == ts;
  }

  // ----- Chunks in memory -----

  /** A sealed chunk: its header and what decoding it gives. */
  datatype SealedChunk = SealedChunk(minTs: I64, maxTs: I64, points: Result<seq<I64>, CodecError>)

  /** The header bounds are those of the points `ts`. */
  ghost predicate Bounds(minTs: I64, maxTs: I64, ts: seq<I64>) {
    minTs in ts && maxTs in ts && forall i :: 0 <= i < |ts| ==> minTs <= ts[i] <= maxTs
  }

  ghost predicate SealedHolds(chunk: SealedChunk, ts: seq<I64>) {
    Bounds(chunk.minTs, chunk.maxTs, ts) && (chunk.points.Ok? ==> chunk.points.value == ts)
  }

  datatype HeaderAnswer = Answered(latest: Option<I64>) | MustSearch

  /** What the header bounds alone decide, for sealed and persisted chunks alike. */
  function FromHeader(minTs: I64, maxTs: I64, ranges: Ranges, floor: I64, ceiling: I64): HeaderAnswer {
    if maxTs <= floor || minTs > ceiling then Answered(None)
    else if ranges.None? then
      if maxTs <= ceiling then Answered(Some(maxTs)) else MustSearch
    else if IntervalFullyTombstoned(minTs, maxTs, ranges.value) then Answered(None)
    else if maxTs <= ceiling && !TimestampIsTombstoned(maxTs, ranges.value) then Answered(Some(maxTs))
    else MustSearch
  }

  lemma HeaderAnswerExact(minTs: I64, maxTs: I64, ts: seq<I64>, ranges: Ranges, floor: I64, ceiling: I64)
    requires Bounds(minTs, maxTs, ts) && Ordered(ranges)
    ensures
      var answer := FromHeader(minTs, maxTs, ranges, floor, ceiling);
      answer.Answered? ==> IsLatest(answer.latest, ts, ranges, floor, ceiling)
  {
  }

  /** `latest_visible_timestamp_in_chunk` */
  method LatestInSealed(chunk: SealedChunk, ranges: Ranges, floor: I64, ceiling: I64, ghost ts: seq<I64>)
    returns (r: Result<Option<I64>, CodecError>)
    requires SealedHolds(chunk, ts) && Ordered(ranges)
    ensures r.Ok? ==> IsLatest(r.value, ts, ranges, floor, ceiling)
    ensures chunk.points.Ok? ==> r.Ok?
  {
    var answer := FromHeader(chunk.minTs, chunk.maxTs, ranges, floor, ceiling);
    HeaderAnswerExact(chunk.minTs, chunk.maxTs, ts, ranges, floor, ceiling);
    if answer.Answered? {
      return Ok(answer.latest);
    }
    var points :- chunk.points;
    var latest := LatestInPoints(points, ranges, floor, ceiling);
    return Ok(latest);
  }

  // ----- Chunks on disk -----

  /** A persisted chunk: its header, its timestamp column, and the search index once it was built. */
  datatype PersistedChunk = PersistedChunk(
    minTs: I64, maxTs: I64, codec: TimestampCodec, pointCount: nat, payload: seq<Byte>, cached: Option<SearchIndex>)

  ghost predicate PersistedHolds(chunk: PersistedChunk, ts: seq<I64>) {
    && Bounds(chunk.minTs, chunk.maxTs, ts) && Sorted(ts) && |ts| == chunk.pointCount
    && Holds(chunk.codec, chunk.payload, ts) && !(LooseEnd(chunk.codec, |ts|) && |chunk.payload| != 8)
    && (chunk.cached.Some? ==> Indexes(chunk.cached.value, chunk.payload, ts))
  }

  /** Nothing eligible at position `from` or later. */
  ghost predicate NoneFrom(ts: seq<I64>, from: int, ranges: Ranges, floor: int, ceiling: int) {
    forall i :: 0 <= from <= i < |ts| ==> !Eligible(ts[i], ranges, floor, ceiling)
  }

  datatype BlockAnswer = Found(latest: I64) | Below | Earlier

  /** The scan of one block from its end: an answer, or nothing eligible in this block. */
  method ScanBlock(block: seq<I64>, ranges: Ranges, floor: I64, ceiling: I64, ghost ts: seq<I64>, ghost begin: nat)
    returns (r: BlockAnswer)
    requires Ordered(ranges) && Sorted(ts)
    requires begin + |block| <= |ts| && block == ts[begin..begin + |block|]
    requires NoneFrom(ts, begin + |block|, ranges, floor, ceiling)
    ensures r.Found? ==> IsLatest(Some(r.latest), ts, ranges, floor, ceiling)
    ensures r.Below? ==> IsLatest(None, ts, ranges, floor, ceiling)
    ensures r.Earlier? ==> NoneFrom(ts, begin, ranges, floor, ceiling)
  {
    for j := |block| downto 0
      invariant NoneFrom(ts, begin + j, ranges, floor, ceiling)
    {
      assert block[j] == ts[begin + j];
      if block[j] > ceiling {
        continue;
      }
      if block[j] <= floor {
        return Below;
      }
      if Survives(block[j], ranges) {
        return Found(block[j]);
      }
    }
    return Earlier;
  }

  /** `latest_visible_timestamp_in_persisted_chunk_payload` */
  method LatestInPayload(chunk: PersistedChunk, index: SearchIndex, ranges: Ranges, floor: I64, ceiling: I64,
                         ghost ts: seq<I64>)
    returns (r: Result<Option<I64>, CodecError>)
    requires PersistedHolds(chunk, ts) && Indexes(index, chunk.payload, ts) && Ordered(ranges)
    ensures r.Ok? && IsLatest(r.value, ts, ranges, floor, ceiling)
  {
    var n := chunk.pointCount;
    var candidate := CandidateBlock(index, chunk.payload, n, ceiling, ts);
    if candidate.None? {
      return Ok(None);
    }
    var b := candidate.value;
    while true
      invariant SEARCH_BLOCK_POINTS * b < n
      invariant NoneFrom(ts, Min(n, SEARCH_BLOCK_POINTS * (b + 1)), ranges, floor, ceiling)
      decreases b
    {
      var decoded := DecodeBlock(index, chunk.payload, n, b, ts);
      var block := decoded.value;
      var answer := ScanBlock(block, ranges, floor, ceiling, ts, SEARCH_BLOCK_POINTS * b);
      if answer.Found? {
        return Ok(Some(answer.latest));
      }
      if answer.Below? || block[0] <= floor || b == 0 {
        return Ok(None);
      }
      b := b - 1;
    }
  }

  /** `latest_visible_timestamp_in_persisted_chunk` */
  method LatestInPersisted(chunk: PersistedChunk, ranges: Ranges, floor: I64, ceiling: I64, ghost ts: seq<I64>)
    returns (r: Result<Option<I64>, CodecError>)
    requires PersistedHolds(chunk, ts) && Ordered(ranges)
    ensures r.Ok? && IsLatest(r.value, ts, ranges, floor, ceiling)
  {
    var answer := FromHeader(chunk.minTs, chunk.maxTs, ranges, floor, ceiling);
    HeaderAnswerExact(chunk.minTs, chunk.maxTs, ts, ranges, floor, ceiling);
    if answer.Answered? {
      return Ok(answer.latest);
    }
    var index: SearchIndex;
    if chunk.cached.Some? {
      index := chunk.cached.value;
    } else {
      var built := BuildIndex(chunk.codec, chunk.payload, chunk.pointCount, ts);
      index := built.value;
    }
    r := LatestInPayload(chunk, index, ranges, floor, ceiling, ts);
  }

  // ----- A series -----

  /** The sentinel that stands for no answer yet. */
  function Answer(latest: I64): Option<I64> {
    if latest == I64_MIN then None else Some(latest)
  }

  function Raise(latest: I64, found: Option<I64>): I64 {
    if found.Some? then Max(latest, found.value) else latest
  }

  lemma Combine(latest: I64, done: seq<I64>, found: Option<I64>, more: seq<I64>, ranges: Ranges, ceiling: int)
    requires IsLatest(Answer(latest), done, ranges, I64_MIN, ceiling)
    requires IsLatest(found, more, ranges, latest, ceiling)
    ensures IsLatest(Answer(Raise(latest, found)), done + more, ranges, I64_MIN, ceiling)
  {
    var all := done + more;
    forall i | 0 <= i < |all| && Eligible(all[i], ranges, I64_MIN, ceiling) ensures all[i] <= Raise(latest, found) {
      if i < |done| {
        assert all[i] == done[i];
      } else {
        assert all[i] == more[i - |done|];
      }
    }
  }

  ghost function Flatten(columns: seq<seq<I64>>): seq<I64> {
    if columns == [] then [] else Flatten(columns[..|columns| - 1]) + columns[|columns| - 1]
  }

  lemma CombineColumn(latest: I64, before: seq<I64>, columns: seq<seq<I64>>, k: nat, found: Option<I64>,
                      ranges: Ranges, ceiling: int)
    requires k < |columns| && IsLatest(Answer(latest), before + Flatten(columns[..k]), ranges, I64_MIN, ceiling)
    requires IsLatest(found, columns[k], ranges, latest, ceiling)
    ensures IsLatest(Answer(Raise(latest, found)), before + Flatten(columns[..k + 1]), ranges, I64_MIN, ceiling)
  {
    Combine(latest, before + Flatten(columns[..k]), found, columns[k], ranges, ceiling);
    assert columns[..k + 1][..k] == columns[..k];
    assert before + Flatten(columns[..k]) + columns[k] == before + Flatten(columns[..k + 1]);
  }

  ghost predicate AllPersistedHold(chunks: seq<PersistedChunk>, columns: seq<seq<I64>>) {
    |columns| == |chunks| && forall k {:trigger chunks[k]} :: 0 <= k < |chunks| ==> PersistedHolds(chunks[k], columns[k])
  }

  lemma PersistedHoldsAt(chunks: seq<PersistedChunk>, columns: seq<seq<I64>>, k: nat)
    requires AllPersistedHold(chunks, columns) && k < |chunks|
    ensures PersistedHolds(chunks[k], columns[k])
  {
  }

  method LatestInAllSealed(chunks: seq<SealedChunk>, ranges: Ranges, floor: I64, ceiling: I64,
                           ghost before: seq<I64>, ghost columns: seq<seq<I64>>)
    returns (r: Result<I64, CodecError>)
    requires |columns| == |chunks| && forall k :: 0 <= k < |chunks| ==> SealedHolds(chunks[k], columns[k])
    requires Ordered(ranges) && IsLatest(Answer(floor), before, ranges, I64_MIN, ceiling)
    ensures r.Ok? ==> IsLatest(Answer(r.value), before + Flatten(columns), ranges, I64_MIN, ceiling)
    ensures (forall k :: 0 <= k < |chunks| ==> chunks[k].points.Ok?) ==> r.Ok?
  {
    var latest := floor;
    assert before + Flatten(columns[..0]) == before;
    for k := 0 to |chunks|
      invariant IsLatest(Answer(latest), before + Flatten(columns[..k]), ranges, I64_MIN, ceiling)
    {
      var found :- LatestInSealed(chunks[k], ranges, latest, ceiling, columns[k]);
      CombineColumn(latest, before, columns, k, found, ranges, ceiling);
      latest := Raise(latest, found);
    }
    assert columns[..|chunks|] == columns;
    return Ok(latest);
  }

  method LatestInAllPersisted(chunks: seq<PersistedChunk>, ranges: Ranges, floor: I64, ceiling: I64,
                              ghost before: seq<I64>, ghost columns: seq<seq<I64>>)
    returns (r: Result<I64, CodecError>)
    requires AllPersistedHold(chunks, columns)
    requires Ordered(ranges) && IsLatest(Answer(floor), before, ranges, I64_MIN, ceiling)
    ensures r.Ok? && IsLatest(Answer(r.value), before + Flatten(columns), ranges, I64_MIN, ceiling)
  {
    var latest := floor;
    assert before + Flatten(columns[..0]) == before;
    for k := 0 to |chunks|
      invariant IsLatest(Answer(latest), before + Flatten(columns[..k]), ranges, I64_MIN, ceiling)
    {
      PersistedHoldsAt(chunks, columns, k);
      var found := LatestInPersisted(chunks[k], ranges, latest, ceiling, columns[k]);
      CombineColumn(latest, before, columns, k, found.value, ranges, ceiling);
      latest := Raise(latest, found.value);
    }
    assert columns[..|chunks|] == columns;
    return Ok(latest);
  }

  /**
   `latest_visible_timestamp_for_series_locked_with_ceiling`: exact over everything the series
   holds, except that `i64::MIN` is never reported.
   */
  method LatestForSeries(active: seq<I64>, sealedChunks: seq<SealedChunk>, persisted: seq<PersistedChunk>,
                         ranges: Ranges, ceiling: I64,
                         ghost sealedColumns: seq<seq<I64>>, ghost persistedColumns: seq<seq<I64>>)
    returns (r: Result<Option<I64>, CodecError>)
    requires |sealedColumns| == |sealedChunks|
    requires forall k :: 0 <= k < |sealedChunks| ==> SealedHolds(sealedChunks[k], sealedColumns[k])
    requires AllPersistedHold(persisted, persistedColumns)
    requires Ordered(ranges)
    ensures r.Ok? ==>
              IsLatest(r.value, active + Flatten(sealedColumns) + Flatten(persistedColumns), ranges, I64_MIN, ceiling)
    ensures (forall k :: 0 <= k < |sealedChunks| ==> sealedChunks[k].points.Ok?) ==> r.Ok?
  {
    var found := LatestInPoints(active, ranges, I64_MIN, ceiling);
    Combine(I64_MIN, [], found, active, ranges, ceiling);
    assert [] + active == active;
    var latest :- LatestInAllSealed(sealedChunks, ranges, Raise(I64_MIN, found), ceiling, active, sealedColumns);
    var last := LatestInAllPersisted(persisted, ranges, latest, ceiling, active + Flatten(sealedColumns), persistedColumns);
    return Ok(Answer(last.value));
  }

  /** No visible timestamp at or below the ceiling other than the smallest one there is. */
  ghost predicate OnlyMinVisible(ts: seq<I64>, ranges: Ranges, ceiling: int) {
    && I64_MIN in ts && Visible(I64_MIN, ranges) && I64_MIN <= ceiling
    && forall i :: 0 <= i < |ts| && ts[i] <= ceiling && Visible(ts[i], ranges) ==> ts[i] == I64_MIN
  }

  /** The answer is the true maximum exactly when that maximum is not `i64::MIN`. */
  lemma SentinelExact(r: Option<I64>, ts: seq<I64>, ranges: Ranges, ceiling: I64)
    requires IsLatest(r, ts, ranges, I64_MIN, ceiling)
    ensures IsLatest(r, ts, ranges, I64_MIN - 1, ceiling) <==> !OnlyMinVisible(ts, ranges, ceiling)
  {
    if OnlyMinVisible(ts, ranges, ceiling) {
      var i :| 0 <= i < |ts| && ts[i] == I64_MIN;
      assert Eligible(ts[i], ranges, I64_MIN - 1, ceiling);
    } else if r.None? {
      forall i | 0 <= i < |ts| ensures !Eligible(ts[i], ranges, I64_MIN - 1, ceiling) {
        if Eligible(ts[i], ranges, I64_MIN - 1, ceiling) {
          assert ts[i] == I64_MIN;
          var j :| 0 <= j < |ts| && ts[j] <= ceiling && Visible(ts[j], ranges) && ts[j] != I64_MIN;
          assert Eligible(ts[j], ranges, I64_MIN, ceiling);
        }
      }
    }
  }

  /** A series whose only point lies at `i64::MIN`: it is visible, and the answer is none. */
  method SmallestTimestampMissed() returns (r: Result<Option<I64>, CodecError>)
    ensures r == Ok(None) && OnlyMinVisible([I64_MIN], None, I64_MAX)
    ensures !IsLatest(r.value, [I64_MIN], None, I64_MIN - 1, I64_MAX)
  {
    r := LatestForSeries([I64_MIN], [], [], None, I64_MAX, [], []);
    assert [I64_MIN] + Flatten([]) + Flatten([]) == [I64_MIN];
    assert [I64_MIN][0] == I64_MIN;
    SentinelExact(r.value, [I64_MIN], None, I64_MAX);
  }
}
