/**
 Timestamp columns of a chunk, src/engine/encoder/timestamps.rs: the sequential decoders of the three
 codecs, and the search index that decodes one block of 64 points at a time.
 */
module Timestamps {
  import opened Common
  import opened Varint

  /** `TIMESTAMP_SEARCH_BLOCK_POINTS` */
  const SEARCH_BLOCK_POINTS := 64

  datatype TimestampCodec = FixedStepRle | DeltaOfDelta | DeltaVarint

  /** Where a sequential decoder of a delta codec stands: the point just read and the next byte. */
  datatype Cursor = Cursor(idx: nat, ts: I64, delta: I64, pos: nat)

  /** Reads one point further. */
  type Reader = Cursor -> Result<Cursor, CodecError>

  function CheckedAdd(a: I64, b: I64): Result<I64, CodecError> {
    if Fits(a + b) then Ok(a + b) else Err(DataCorruption)
  }

  predicate Fits(v: int) {
    I64_MIN <= v <= I64_MAX
  }

  // ----- One point further -----

  function Start(payload: seq<Byte>): (r: Result<Cursor, CodecError>)
    ensures r.Ok? ==> r.value.idx == 0
  {
    var first :- ReadI64(payload, 0);
    Ok(Cursor(0, first.value, 0, first.pos))
  }

  /** The next stored number. Delta-of-delta stores its first delta as a full word. */
  function ReadStored(codec: TimestampCodec, payload: seq<Byte>, c: Cursor): Result<Decoded<I64>, CodecError> {
    if codec.DeltaOfDelta? && c.idx == 0 then ReadI64(payload, c.pos) else DecodeSvarint(payload, c.pos)
  }

  function Advance(codec: TimestampCodec, c: Cursor, stored: Decoded<I64>): (r: Result<Cursor, CodecError>)
    ensures r.Ok? ==> r.value.idx == c.idx + 1
  {
    var delta :- if codec.DeltaOfDelta? && c.idx > 0 then CheckedAdd(c.delta, stored.value) else Ok(stored.value);
    var ts :- CheckedAdd(c.ts, delta);
    Ok(Cursor(c.idx + 1, ts, if codec.DeltaOfDelta? then delta else 0, stored.pos))
  }

  function ReaderOf(codec: TimestampCodec, payload: seq<Byte>): (step: Reader)
    ensures Counts(step)
  {
    c =>
      var stored :- ReadStored(codec, payload, c);
      Advance(codec, c, stored)
  }

  ghost predicate Counts(step: Reader) {
    forall c {:trigger step(c)} :: step(c).Ok? ==> step(c).value.idx == c.idx + 1
  }

  // ----- Sequential decoding -----

  function Run(step: Reader, c: Cursor, steps: nat): Result<Cursor, CodecError>
    decreases steps
  {
    if steps == 0 then Ok(c)
    else
      var before :- Run(step, c, steps - 1);
      step(before)
  }

  /** The timestamp `steps` points after `c`, of a run that gets there. */
  function TsAt(step: Reader, c: Cursor, steps: nat): I64 {
    var r := Run(step, c, steps);
    if r.Ok? then r.value.ts else 0
  }

  lemma {:induction false} RunSplit(step: Reader, c: Cursor, first: nat, second: nat)
    ensures
      var mid := Run(step, c, first);
      Run(step, c, first + second) == if mid.Err? then mid else Run(step, mid.value, second)
    decreases second
  {
    if second > 0 {
      RunSplit(step, c, first, second - 1);
    }
  }

  lemma RunPrefix(step: Reader, c: Cursor, steps: nat, k: nat)
    requires k <= steps && Run(step, c, steps).Ok?
    ensures Run(step, c, k).Ok?
  {
    RunSplit(step, c, k, steps - k);
  }

  lemma {:induction false} RunCounts(step: Reader, c: Cursor, steps: nat)
    requires Counts(step) && Run(step, c, steps).Ok?
    ensures Run(step, c, steps).value.idx == c.idx + steps
    decreases steps
  {
    if steps > 0 {
      RunCounts(step, c, steps - 1);
      assert step(Run(step, c, steps - 1).value).Ok?;
    }
  }

  /** `r` is what reading `count` points from `c` on gives, with the cursor at the last of them. */
  ghost predicate ReadFrom(step: Reader, c: Cursor, count: nat, r: Result<(seq<I64>, Cursor), CodecError>) {
    && count > 0
    && if Run(step, c, count - 1).Err? then r.Err?
       else
         && r.Ok? && r.value.1 == Run(step, c, count - 1).value && |r.value.0| == count
         && forall i {:trigger r.value.0[i]} :: 0 <= i < count ==> r.value.0[i] == TsAt(step, c, i)
  }

  /** The loop shared by the full decoders and the block decoders. */
  method ReadPoints(step: Reader, c: Cursor, count: nat) returns (r: Result<(seq<I64>, Cursor), CodecError>)
    requires count > 0
    ensures ReadFrom(step, c, count, r)
  {
    var at, out := c, [c.ts];
    while |out| < count
      invariant 1 <= |out| <= count && ReadFrom(step, c, |out|, Ok((out, at)))
    {
      var next := step(at);
      assert Run(step, c, |out|) == next;
      if next.Err? {
        RunSplit(step, c, |out|, count - 1 - |out|);
        return Err(DataCorruption);
      }
      at, out := next.value, out + [next.value.ts];
    }
    return Ok((out, at));
  }

  // ----- Whole columns -----

  /** Point `i` of a fixed-step column. */
  function FixedAt(first: I64, step: I64, i: nat): Result<I64, CodecError> {
    if i > I64_MAX || !Fits(step * i) then Err(DataCorruption) else CheckedAdd(first, step * i)
  }

  /** Bytes after a single delta-of-delta point are read over. */
  predicate LooseEnd(codec: TimestampCodec, n: nat) {
    codec.DeltaOfDelta? && n == 1
  }

  /**
   `payload` holds exactly the column `ts`: as first point and step, or as first point and stored
   differences with no bytes left over.
   */
  ghost predicate Holds(codec: TimestampCodec, payload: seq<Byte>, ts: seq<I64>) {
    if codec.FixedStepRle? then
      && |payload| == 16
      && forall i {:trigger ts[i]} :: 0 <= i < |ts| ==>
        FixedAt(ReadI64(payload, 0).value.value, ReadI64(payload, 8).value.value, i) == Ok(ts[i])
    else
      ts != [] ==>
        var start, step := Start(payload), ReaderOf(codec, payload);
        && start.Ok?
        && ReadColumn(step, start.value, ts)
        && (LooseEnd(codec, |ts|) || Run(step, start.value, |ts| - 1).value.pos == |payload|)
  }

  ghost predicate ReadColumn(step: Reader, start: Cursor, ts: seq<I64>) {
    && ts != [] && Run(step, start, |ts| - 1).Ok?
    && forall i {:trigger ts[i]} :: 0 <= i < |ts| ==> ts[i] == TsAt(step, start, i)
  }

  ghost predicate HoldsColumn(codec: TimestampCodec, payload: seq<Byte>, n: nat) {
    exists ts :: Holds(codec, payload, ts) && |ts| == n
  }

  lemma ColumnRead(step: Reader, start: Cursor, n: nat) returns (ts: seq<I64>)
    requires n > 0 && Run(step, start, n - 1).Ok?
    ensures ReadColumn(step, start, ts) && |ts| == n
  {
    ts := seq(n, i requires 0 <= i < n => TsAt(step, start, i));
  }

  /** The run over `n` points goes through, and ends where the payload does. */
  ghost predicate RunsToEnd(codec: TimestampCodec, payload: seq<Byte>, start: Cursor, n: nat)
    requires n > 0
  {
    var last := Run(ReaderOf(codec, payload), start, n - 1);
    last.Ok? && (LooseEnd(codec, n) || last.value.pos == |payload|)
  }

  lemma HoldsWhatRuns(codec: TimestampCodec, payload: seq<Byte>, start: Cursor, ts: seq<I64>)
    requires !codec.FixedStepRle? && ts != [] && Start(payload) == Ok(start)
    ensures Holds(codec, payload, ts) <==>
              RunsToEnd(codec, payload, start, |ts|) && ReadColumn(ReaderOf(codec, payload), start, ts)
  {
  }

  lemma ReadableColumn(codec: TimestampCodec, payload: seq<Byte>, start: Cursor, n: nat)
    requires !codec.FixedStepRle? && n > 0 && Start(payload) == Ok(start)
    ensures HoldsColumn(codec, payload, n) <==> RunsToEnd(codec, payload, start, n)
  {
    if RunsToEnd(codec, payload, start, n) {
      var ts := ColumnRead(ReaderOf(codec, payload), start, n);
      HoldsWhatRuns(codec, payload, start, ts);
    }
    if HoldsColumn(codec, payload, n) {
      var ts :| Holds(codec, payload, ts) && |ts| == n;
      HoldsWhatRuns(codec, payload, start, ts);
    }
  }

  /** `decode_timestamps`: succeeds exactly when the payload holds a column of `n` points. */
  method DecodeTimestamps(codec: TimestampCodec, payload: seq<Byte>, n: nat) returns (r: Result<seq<I64>, CodecError>)
    ensures r.Ok? ==> |r.value| == n && Holds(codec, payload, r.value)
    ensures r.Err? ==> !HoldsColumn(codec, payload, n)
  {
    if codec.FixedStepRle? {
      r := DecodeFixedColumn(payload, n);
    } else if n == 0 {
      return Ok([]);
    } else {
      var start :- Start(payload);
      ReadableColumn(codec, payload, start, n);
      var points :- ReadPoints(ReaderOf(codec, payload), start, n);
      HoldsWhatRuns(codec, payload, start, points.0);
      if points.1.pos != |payload| && !LooseEnd(codec, n) {
        return Err(DataCorruption);
      }
      return Ok(points.0);
    }
  }

  method DecodeFixedColumn(payload: seq<Byte>, n: nat) returns (r: Result<seq<I64>, CodecError>)
    ensures r.Ok? ==> |r.value| == n && Holds(FixedStepRle, payload, r.value)
    ensures r.Err? ==> !HoldsColumn(FixedStepRle, payload, n)
  {
    if |payload| != 16 {
      return Err(DataCorruption);
    }
    var first := ReadI64(payload, 0).value.value;
    var step := ReadI64(payload, 8).value.value;
    r := ReadFixed(first, step, 0, n);
    if r.Err? {
      ghost var i :| 0 <= i < n && FixedAt(first, step, i).Err?;
      forall ts | Holds(FixedStepRle, payload, ts) ensures |ts| != n {
        FixedPoint(payload, ts, i);
      }
    }
  }

  lemma FixedPoint(payload: seq<Byte>, ts: seq<I64>, i: nat)
    requires Holds(FixedStepRle, payload, ts)
    ensures i < |ts| ==> FixedAt(ReadI64(payload, 0).value.value, ReadI64(payload, 8).value.value, i) == Ok(ts[i])
  {
    if i < |ts| {
      assert ts[i] == ts[i];
    }
  }

  /** Points `begin .. end - 1` of a fixed-step column. */
  method ReadFixed(first: I64, step: I64, begin: nat, end: nat) returns (r: Result<seq<I64>, CodecError>)
    requires begin <= end
    ensures r.Ok? ==> |r.value| == end - begin
    ensures r.Ok? ==> forall i {:trigger r.value[i]} :: 0 <= i < end - begin ==> FixedAt(first, step, begin + i) == Ok(r.value[i])
    ensures r.Err? ==> exists i :: begin <= i < end && FixedAt(first, step, i).Err?
  {
    var out := [];
    for i := begin to end
      invariant |out| == i - begin
      invariant forall j {:trigger out[j]} :: 0 <= j < |out| ==> FixedAt(first, step, begin + j) == Ok(out[j])
    {
      var t := FixedAt(first, step, i);
      if t.Err? {
        return Err(DataCorruption);
      }
      out := out + [t.value];
    }
    return Ok(out);
  }

  /** A payload holds at most one column of a given length. */
  lemma ColumnUnique(codec: TimestampCodec, payload: seq<Byte>, a: seq<I64>, b: seq<I64>)
    requires Holds(codec, payload, a) && Holds(codec, payload, b) && |a| == |b|
    ensures a == b
  {
    forall i | 0 <= i < |a| ensures a[i] == b[i] {
    }
  }

  // ----- The search index -----

  datatype SearchIndex =
    | FixedStep(first: I64, step: I64)
    | Anchored(codec: TimestampCodec, anchors: seq<Cursor>)

  /** One cursor for every 64th of the points `0 .. count - 1`. */
  ghost predicate AnchorsOf(step: Reader, start: Cursor, anchors: seq<Cursor>, count: nat) {
    && count <= SEARCH_BLOCK_POINTS * |anchors| < count + SEARCH_BLOCK_POINTS
    && forall b {:trigger anchors[b]} :: 0 <= b < |anchors| ==> Run(step, start, SEARCH_BLOCK_POINTS * b) == Ok(anchors[b])
  }

  /** The index describes the column `ts`. */
  ghost predicate Indexes(index: SearchIndex, payload: seq<Byte>, ts: seq<I64>) {
    match index
    case FixedStep(first, step) => forall i {:trigger ts[i]} :: 0 <= i < |ts| ==> FixedAt(first, step, i) == Ok(ts[i])
    case Anchored(codec, anchors) =>
      if ts == [] then anchors == []
      else
        && Start(payload).Ok?
        && ReadColumn(ReaderOf(codec, payload), Start(payload).value, ts)
        && AnchorsOf(ReaderOf(codec, payload), Start(payload).value, anchors, |ts|)
  }

  lemma AnchorsStep(step: Reader, start: Cursor, anchors: seq<Cursor>, k: nat, c: Cursor)
    requires k >= 1 && AnchorsOf(step, start, anchors, k) && Run(step, start, k) == Ok(c)
    ensures AnchorsOf(step, start, if k % SEARCH_BLOCK_POINTS == 0 then anchors + [c] else anchors, k + 1)
  {
    if k % SEARCH_BLOCK_POINTS == 0 {
      assert k == SEARCH_BLOCK_POINTS * |anchors|;
    }
  }

  /** The indexing loop: the anchors and the cursor at the last point. */
  method CollectAnchors(step: Reader, start: Cursor, n: nat) returns (r: Result<(seq<Cursor>, Cursor), CodecError>)
    requires n > 0
    ensures r.Ok? ==> AnchorsOf(step, start, r.value.0, n) && Run(step, start, n - 1) == Ok(r.value.1)
    ensures r.Err? ==> Run(step, start, n - 1).Err?
  {
    var c, anchors := start, [start];
    for k := 1 to n
      invariant Run(step, start, k - 1) == Ok(c) && AnchorsOf(step, start, anchors, k)
    {
      var next := step(c);
      assert Run(step, start, k) == next;
      if next.Err? {
        RunSplit(step, start, k, n - 1 - k);
        return Err(DataCorruption);
      }
      AnchorsStep(step, start, anchors, k, next.value);
      c := next.value;
      if k % SEARCH_BLOCK_POINTS == 0 {
        anchors := anchors + [c];
      }
    }
    return Ok((anchors, c));
  }

  /**
   `build_timestamp_search_index`: every column that can be decoded gets an index that describes
   it, unless bytes follow a single delta-of-delta point. A delta payload that holds no column of
   `n` points gets none; of a fixed-step payload only the length is looked at.
   */
  method BuildIndex(codec: TimestampCodec, payload: seq<Byte>, n: nat, ghost ts: seq<I64>)
    returns (r: Result<SearchIndex, CodecError>)
    ensures Holds(codec, payload, ts) && |ts| == n && !(LooseEnd(codec, n) && |payload| != 8) ==>
              r.Ok? && Indexes(r.value, payload, ts)
    ensures r.Ok? <==>
              if codec.FixedStepRle? then |payload| == 16
              else HoldsColumn(codec, payload, n) && !(LooseEnd(codec, n) && |payload| != 8)
  {
    if codec.FixedStepRle? {
      if |payload| != 16 {
        return Err(DataCorruption);
      }
      return Ok(FixedStep(ReadI64(payload, 0).value.value, ReadI64(payload, 8).value.value));
    }
    if n == 0 {
      assert Holds(codec, payload, []);
      return Ok(Anchored(codec, []));
    }
    var start :- Start(payload);
    ReadableColumn(codec, payload, start, n);
    var collected :- CollectAnchors(ReaderOf(codec, payload), start, n);
    if collected.1.pos != |payload| {
      return Err(DataCorruption);
    }
    return Ok(Anchored(codec, collected.0));
  }

  // ----- Reading one block -----

  /** `decode_*_timestamp_block`: of an index that describes `ts`, block `b` is its slice of `ts`. */
  method DecodeBlock(index: SearchIndex, payload: seq<Byte>, n: nat, b: nat, ghost ts: seq<I64>)
    returns (r: Result<seq<I64>, CodecError>)
    ensures Indexes(index, payload, ts) && |ts| == n ==>
              r == if SEARCH_BLOCK_POINTS * b < n then Ok(ts[SEARCH_BLOCK_POINTS * b..Min(n, SEARCH_BLOCK_POINTS * (b + 1))])
                   else Err(DataCorruption)
  {
    if index.FixedStep? {
      var begin := SEARCH_BLOCK_POINTS * b;
      if begin >= n {
        return Err(DataCorruption);
      }
      r := ReadFixed(index.first, index.step, begin, Min(n, begin + SEARCH_BLOCK_POINTS));
      if Indexes(index, payload, ts) && |ts| == n {
        FixedBlockIsSlice(index.first, index.step, ts, begin, Min(n, begin + SEARCH_BLOCK_POINTS), r);
      }
      return;
    }
    if b >= |index.anchors| {
      return Err(DataCorruption);
    }
    var anchor := index.anchors[b];
    var end := if b + 1 < |index.anchors| then index.anchors[b + 1].idx else n;
    var points := ReadPoints(ReaderOf(index.codec, payload), anchor, Max(end - anchor.idx, 1));
    if Indexes(index, payload, ts) && |ts| == n {
      BlockIsSlice(ReaderOf(index.codec, payload), Start(payload).value, index.anchors, ts, b, points);
    }
    return if points.Ok? then Ok(points.value.0) else Err(DataCorruption);
  }

  lemma FixedBlockIsSlice(first: I64, step: I64, ts: seq<I64>, begin: nat, end: nat, r: Result<seq<I64>, CodecError>)
    requires begin <= end <= |ts| && forall i {:trigger ts[i]} :: 0 <= i < |ts| ==> FixedAt(first, step, i) == Ok(ts[i])
    requires r.Ok? ==> |r.value| == end - begin
    requires r.Ok? ==> forall i {:trigger r.value[i]} :: 0 <= i < end - begin ==> FixedAt(first, step, begin + i) == Ok(r.value[i])
    requires r.Err? ==> exists i :: begin <= i < end && FixedAt(first, step, i).Err?
    ensures r == Ok(ts[begin..end])
  {
    forall i | begin <= i < end ensures FixedAt(first, step, i) == Ok(ts[i]) {
    }
    assert r.Ok?;
    forall i | 0 <= i < end - begin ensures r.value[i] == ts[begin + i] {
      assert FixedAt(first, step, begin + i) == Ok(ts[begin + i]);
    }
    assert r.value == ts[begin..end];
  }

  lemma BlockIsSlice(step: Reader, start: Cursor, anchors: seq<Cursor>, ts: seq<I64>, b: nat,
                     r: Result<(seq<I64>, Cursor), CodecError>)
    requires Counts(step) && start.idx == 0
    requires ReadColumn(step, start, ts) && AnchorsOf(step, start, anchors, |ts|) && b < |anchors|
    requires
      var end := if b + 1 < |anchors| then anchors[b + 1].idx else |ts|;
      ReadFrom(step, anchors[b], Max(end - anchors[b].idx, 1), r)
    ensures r.Ok? && r.value.0 == ts[SEARCH_BLOCK_POINTS * b..Min(|ts|, SEARCH_BLOCK_POINTS * (b + 1))]
  {
    var begin, count := SEARCH_BLOCK_POINTS * b, Min(|ts|, SEARCH_BLOCK_POINTS * (b + 1)) - SEARCH_BLOCK_POINTS * b;
    RunCounts(step, start, begin);
    if b + 1 < |anchors| {
      assert Run(step, start, SEARCH_BLOCK_POINTS * (b + 1)) == Ok(anchors[b + 1]);
      RunCounts(step, start, SEARCH_BLOCK_POINTS * (b + 1));
    }
    assert ReadFrom(step, anchors[b], count, r);
    forall i | 0 <= i < count
      ensures Run(step, anchors[b], i).Ok?
      ensures TsAt(step, anchors[b], i) == ts[begin + i]
    {
      RunSplit(step, start, begin, i);
      RunPrefix(step, start, |ts| - 1, begin + i);
    }
    assert Run(step, anchors[b], count - 1).Ok?;
    forall i | 0 <= i < count ensures r.value.0[i] == ts[begin + i] {
    }
  }

  // ----- Where to start looking -----

  ghost predicate Sorted(ts: seq<I64>) {
    forall i, j :: 0 <= i <= j < |ts| ==> ts[i] <= ts[j]
  }

  /** No point at or below the ceiling lies in a later block than `b`. */
  ghost predicate LastBlock(ts: seq<I64>, ceiling: int, b: nat) {
    SEARCH_BLOCK_POINTS * b < |ts| && forall i :: SEARCH_BLOCK_POINTS * (b + 1) <= i < |ts| ==> ts[i] > ceiling
  }

  /** `candidate_block_for_ceiling` */
  method CandidateBlock(index: SearchIndex, payload: seq<Byte>, n: nat, ceiling: I64, ghost ts: seq<I64>)
    returns (r: Option<nat>)
    requires Indexes(index, payload, ts) && |ts| == n && Sorted(ts)
    ensures r.None? ==> forall i :: 0 <= i < n ==> ts[i] > ceiling
    ensures r.Some? ==> LastBlock(ts, ceiling, r.value)
  {
    if n == 0 {
      return None;
    }
    if index.FixedStep? {
      assert FixedAt(index.first, index.step, 0) == Ok(ts[0]);
      if index.first > ceiling {
        return None;
      }
      var latest := if index.step <= 0 then n - 1 else Min(Min(ceiling - index.first, I64_MAX) / index.step, n - 1);
      FixedLatest(index.first, index.step, ts, ceiling);
      return Some(latest / SEARCH_BLOCK_POINTS);
    }
    r := CandidateAnchor(index.anchors, ceiling);
    AnchorTimestamps(ReaderOf(index.codec, payload), Start(payload).value, index.anchors, ts);
    forall i | 0 <= i < n && (if r.Some? then SEARCH_BLOCK_POINTS * (r.value + 1) <= i else true) ensures ts[i] > ceiling {
      var b := if r.Some? then r.value + 1 else 0;
      assert index.anchors[b].ts == ts[SEARCH_BLOCK_POINTS * b] > ceiling;
    }
  }

  lemma AnchorTimestamps(step: Reader, start: Cursor, anchors: seq<Cursor>, ts: seq<I64>)
    requires ReadColumn(step, start, ts) && AnchorsOf(step, start, anchors, |ts|)
    ensures forall b {:trigger anchors[b]} :: 0 <= b < |anchors| ==> anchors[b].ts == ts[SEARCH_BLOCK_POINTS * b]
  {
    forall b | 0 <= b < |anchors| ensures anchors[b].ts == ts[SEARCH_BLOCK_POINTS * b] {
      assert Run(step, start, SEARCH_BLOCK_POINTS * b) == Ok(anchors[b]);
    }
  }

  /** `candidate_anchor_block_for_ceiling`: the last anchor before the first one above the ceiling. */
  method CandidateAnchor(anchors: seq<Cursor>, ceiling: I64) returns (r: Option<nat>)
    ensures r.None? ==> anchors == [] || anchors[0].ts > ceiling
    ensures r.Some? ==> r.value < |anchors| && (r.value + 1 < |anchors| ==> anchors[r.value + 1].ts > ceiling)
    ensures r.Some? ==> forall b :: 0 <= b <= r.value ==> anchors[b].ts <= ceiling
  {
    r := None;
    for b := 0 to |anchors|
      invariant r == if b == 0 then None else Some(b - 1)
      invariant forall j :: 0 <= j < b ==> anchors[j].ts <= ceiling
    {
      if anchors[b].ts > ceiling {
        return;
      }
      r := Some(b);
    }
  }

  /** The saturating difference is harmless: a column that can be read spans no more than `I64_MAX`. */
  lemma FixedLatest(first: I64, step: I64, ts: seq<I64>, ceiling: I64)
    requires ts != [] && Sorted(ts) && first <= ceiling
    requires forall i {:trigger ts[i]} :: 0 <= i < |ts| ==> FixedAt(first, step, i) == Ok(ts[i])
    ensures
      var latest := if step <= 0 then |ts| - 1 else Min(Min(ceiling - first, I64_MAX) / step, |ts| - 1);
      0 <= latest < |ts| && LastBlock(ts, ceiling, latest / SEARCH_BLOCK_POINTS)
  {
    if step > 0 {
      var steps := Min(ceiling - first, I64_MAX) / step;
      forall i | steps < i < |ts| ensures ts[i] > ceiling {
        assert FixedAt(first, step, i) == Ok(ts[i]);
        BeyondSteps(ceiling - first, step, i);
      }
    }
  }

  lemma BeyondSteps(gap: int, step: int, i: nat)
    requires 0 < step && 0 <= gap && Min(gap, I64_MAX) / step < i && step * i <= I64_MAX
    ensures step * i > gap
  {
    var q := Min(gap, I64_MAX) / step;
    assert step * i >= step * (q + 1) > Min(gap, I64_MAX);
  }
}
