/**
 The builder of active chunks, src/engine/chunk.rs: appended points collect in a tail that is frozen
 into immutable blocks, range snapshots share or copy blocks, and a cursor walks a snapshot.
 */
module ChunkBuilding {
  import opened Common

  datatype Point = Point(ts: I64, value: int)

  /** `ACTIVE_POINT_SNAPSHOT_BLOCK_POINTS` */
  const SNAPSHOT_BLOCK_POINTS: nat := 64

  datatype FrozenBlock = FrozenBlock(points: seq<Point>, minTs: I64, maxTs: I64)

  // ----- Specification -----

  function Concat(blocks: seq<seq<Point>>): seq<Point> {
    if blocks == [] then [] else Concat(blocks[..|blocks| - 1]) + blocks[|blocks| - 1]
  }

  predicate In(p: Point, start: I64, end: I64) {
    start <= p.ts < end
  }

  /** The points in `[start, end)`, in order. */
  function Filter(points: seq<Point>, start: I64, end: I64): seq<Point> {
    if points == [] then []
    else
      var front, last := Filter(points[..|points| - 1], start, end), points[|points| - 1];
      if In(last, start, end) then front + [last] else front
  }

  ghost predicate SortedByTs(points: seq<Point>) {
    forall i :: 0 < i < |points| ==> points[i - 1].ts <= points[i].ts
  }

  /** The bounds of a block are those of its points. */
  ghost predicate Exact(b: FrozenBlock) {
    && b.points != []
    && (forall i :: 0 <= i < |b.points| ==> b.minTs <= b.points[i].ts <= b.maxTs)
    && (exists i :: 0 <= i < |b.points| && b.points[i].ts == b.minTs)
    && (exists i :: 0 <= i < |b.points| && b.points[i].ts == b.maxTs)
  }

  function Points(blocks: seq<FrozenBlock>): seq<Point> {
    if blocks == [] then [] else Points(blocks[..|blocks| - 1]) + blocks[|blocks| - 1].points
  }

  lemma {:induction false} FilterAppend(a: seq<Point>, b: seq<Point>, start: I64, end: I64)
    ensures Filter(a + b, start, end) == Filter(a, start, end) + Filter(b, start, end)
    decreases |b|
  {
    if b == [] {
      assert a + b == a;
    } else {
      assert (a + b)[..|a + b| - 1] == a + b[..|b| - 1];
      FilterAppend(a, b[..|b| - 1], start, end);
    }
  }

  lemma {:induction false} FilterAll(points: seq<Point>, start: I64, end: I64)
    requires forall i :: 0 <= i < |points| ==> In(points[i], start, end)
    ensures Filter(points, start, end) == points
    decreases |points|
  {
    if points != [] {
      FilterAll(points[..|points| - 1], start, end);
    }
  }

  lemma {:induction false} FilterNone(points: seq<Point>, start: I64, end: I64)
    requires forall i :: 0 <= i < |points| ==> !In(points[i], start, end)
    ensures Filter(points, start, end) == []
    decreases |points|
  {
    if points != [] {
      FilterNone(points[..|points| - 1], start, end);
    }
  }

  // ----- Freezing -----

  /** `FrozenPointBlock::new` */
  method Freeze(points: seq<Point>) returns (b: FrozenBlock)
    requires points != []
    ensures b.points == points && Exact(b)
  {
    var lo, hi := points[0].ts, points[0].ts;
    for i := 1 to |points|
      invariant forall k :: 0 <= k < i ==> lo <= points[k].ts <= hi
      invariant exists k :: 0 <= k < i && points[k].ts == lo
      invariant exists k :: 0 <= k < i && points[k].ts == hi
    {
      if points[i].ts < lo {
        lo := points[i].ts;
      }
      if points[i].ts > hi {
        hi := points[i].ts;
      }
    }
    return FrozenBlock(points, lo, hi);
  }

  /** `iter().filter().cloned().collect()` */
  method Select(points: seq<Point>, start: I64, end: I64) returns (out: seq<Point>)
    ensures out == Filter(points, start, end)
  {
    out := [];
    for i := 0 to |points|
      invariant out == Filter(points[..i], start, end)
    {
      assert points[..i + 1][..i] == points[..i];
      if In(points[i], start, end) {
        out := out + [points[i]];
      }
    }
    assert points[..|points|] == points;
  }

  // ----- Snapshots -----

  ghost predicate NonEmptyBlocks(blocks: seq<seq<Point>>) {
    forall i :: 0 <= i < |blocks| ==> blocks[i] != []
  }

  /** `push_block`: empty blocks are not kept. */
  function Push(blocks: seq<seq<Point>>, points: seq<Point>): seq<seq<Point>> {
    if points == [] then blocks else blocks + [points]
  }

  lemma PushConcat(blocks: seq<seq<Point>>, points: seq<Point>)
    requires NonEmptyBlocks(blocks)
    ensures Concat(Push(blocks, points)) == Concat(blocks) + points && NonEmptyBlocks(Push(blocks, points))
  {
    if points != [] {
      assert (blocks + [points])[..|blocks|] == blocks;
    }
  }

  predicate Overlaps(b: FrozenBlock, start: I64, end: I64) {
    b.maxTs >= start && b.minTs < end
  }

  predicate FullyWithin(b: FrozenBlock, start: I64, end: I64) {
    b.minTs >= start && b.maxTs < end
  }

  /** Skipping and sharing by bounds: both give what filtering the block would give. */
  lemma BoundsDecide(b: FrozenBlock, start: I64, end: I64)
    requires Exact(b)
    ensures !Overlaps(b, start, end) ==> Filter(b.points, start, end) == []
    ensures FullyWithin(b, start, end) ==> Filter(b.points, start, end) == b.points
  {
    if !Overlaps(b, start, end) {
      FilterNone(b.points, start, end);
    }
    if FullyWithin(b, start, end) {
      FilterAll(b.points, start, end);
    }
  }

  ghost predicate AllExact(blocks: seq<FrozenBlock>) {
    forall i :: 0 <= i < |blocks| ==> Exact(blocks[i])
  }

  /** The blocks of a snapshot so far. */
  ghost predicate Snapped(frozen: seq<FrozenBlock>, n: nat, start: I64, end: I64, blocks: seq<seq<Point>>) {
    n <= |frozen| && Concat(blocks) == Filter(Points(frozen[..n]), start, end) && NonEmptyBlocks(blocks)
  }

  lemma SnappedNext(frozen: seq<FrozenBlock>, n: nat, start: I64, end: I64, blocks: seq<seq<Point>>)
    requires n < |frozen| && Snapped(frozen, n, start, end, blocks)
    ensures Snapped(frozen, n + 1, start, end, Push(blocks, Filter(frozen[n].points, start, end)))
  {
    assert frozen[..n + 1][..n] == frozen[..n];
    FilterAppend(Points(frozen[..n]), frozen[n].points, start, end);
    PushConcat(blocks, Filter(frozen[n].points, start, end));
  }

  class ChunkBuilder {
    const maxPoints: nat
    const blockPoints: nat
    var frozen: seq<FrozenBlock>
    var tail: seq<Point>
    var pointCount: nat
    var isSorted: bool
    var lastTs: Option<I64>

    /** Every point appended so far, in order. */
    function Contents(): seq<Point>
      reads this
    {
      Points(frozen) + tail
    }

    ghost predicate Valid()
      reads this
    {
      && maxPoints >= 1 && blockPoints == Min(maxPoints, SNAPSHOT_BLOCK_POINTS)
      && |tail| < blockPoints && FullBlocks(frozen, blockPoints)
      && Tracks(Contents(), pointCount, isSorted, lastTs)
    }

    constructor (requested: nat)
      ensures Valid() && Contents() == [] && maxPoints == Max(requested, 1)
    {
      maxPoints := Max(requested, 1);
      blockPoints := Min(Max(requested, 1), SNAPSHOT_BLOCK_POINTS);
      frozen, tail, pointCount, isSorted, lastTs := [], [], 0, true, None;
    }

    /** `append`: the history grows by one point, frozen or not. */
    method Append(ts: I64, value: int)
      requires Valid()
      modifies this
      ensures Valid() && Contents() == old(Contents()) + [Point(ts, value)]
    {
      var p := Point(ts, value);
      TracksStep(Contents(), p, pointCount, isSorted, lastTs);
      TailStep(Points(frozen), tail, p);
      if lastTs.Some? && ts < lastTs.value {
        isSorted := false;
      }
      lastTs := Some(ts);
      pointCount := pointCount + 1;
      frozen, tail := FreezeIfFull(frozen, tail + [p], blockPoints);
    }

    /** `is_full` */
    method IsFull() returns (full: bool)
      requires Valid()
      ensures full <==> |Contents()| >= maxPoints
    {
      return pointCount >= maxPoints;
    }

    /** `snapshot_in_range`: exactly the points in range, in append order. */
    method SnapshotInRange(start: I64, end: I64) returns (blocks: seq<seq<Point>>)
      requires Valid()
      ensures Concat(blocks) == Filter(Contents(), start, end) && NonEmptyBlocks(blocks)
    {
      blocks := [];
      if end <= start {
        FilterNone(Contents(), start, end);
        return;
      }
      blocks := SnapshotFrozen(frozen, start, end);
      var selected := Select(tail, start, end);
      FilterAppend(Points(frozen), tail, start, end);
      PushConcat(blocks, selected);
      blocks := Push(blocks, selected);
    }

    /** `into_points` */
    method IntoPoints() returns (points: seq<Point>)
      requires Valid()
      ensures points == Contents()
    {
      points := [];
      for n := 0 to |frozen|
        invariant points == Points(frozen[..n])
      {
        assert frozen[..n + 1][..n] == frozen[..n];
        points := points + frozen[n].points;
      }
      assert frozen[..|frozen|] == frozen;
      points := points + tail;
    }
  }

  /** `freeze_full_tail_if_needed` */
  method FreezeIfFull(frozen: seq<FrozenBlock>, tail: seq<Point>, size: nat)
    returns (blocks: seq<FrozenBlock>, rest: seq<Point>)
    requires FullBlocks(frozen, size) && 1 <= |tail| <= size
    ensures FullBlocks(blocks, size) && |rest| < size && Points(blocks) + rest == Points(frozen) + tail
  {
    if |tail| < size {
      return frozen, tail;
    }
    var b := Freeze(tail);
    FreezeStep(frozen, tail, b, size);
    return frozen + [b], [];
  }

  /** Count, order flag and last timestamp are those of the points. */
  ghost predicate Tracks(points: seq<Point>, pointCount: nat, isSorted: bool, lastTs: Option<I64>) {
    && pointCount == |points| && (isSorted <==> SortedByTs(points))
    && lastTs == (if points == [] then None else Some(points[|points| - 1].ts))
  }

  lemma TracksStep(points: seq<Point>, p: Point, pointCount: nat, isSorted: bool, lastTs: Option<I64>)
    requires Tracks(points, pointCount, isSorted, lastTs)
    ensures Tracks(points + [p], pointCount + 1, isSorted && !(lastTs.Some? && p.ts < lastTs.value), Some(p.ts))
  {
    SortedStep(points, p);
  }

  lemma TailStep(a: seq<Point>, tail: seq<Point>, p: Point)
    ensures a + (tail + [p]) == a + tail + [p]
  {
  }

  ghost predicate FullBlocks(frozen: seq<FrozenBlock>, size: nat) {
    AllExact(frozen) && forall i :: 0 <= i < |frozen| ==> |frozen[i].points| == size
  }

  /** Freezing the tail moves it behind the frozen blocks and changes no contents. */
  lemma FreezeStep(frozen: seq<FrozenBlock>, tail: seq<Point>, b: FrozenBlock, size: nat)
    requires FullBlocks(frozen, size) && Exact(b) && b.points == tail && |tail| == size
    ensures FullBlocks(frozen + [b], size) && Points(frozen + [b]) + [] == Points(frozen) + tail
  {
    assert (frozen + [b])[..|frozen|] == frozen;
  }

  lemma SortedStep(points: seq<Point>, p: Point)
    ensures SortedByTs(points + [p]) <==> SortedByTs(points) && (points == [] || points[|points| - 1].ts <= p.ts)
  {
    var all := points + [p];
    assert forall i :: 0 <= i < |points| ==> all[i] == points[i];
    if SortedByTs(all) {
      forall i | 0 < i < |points| ensures points[i - 1].ts <= points[i].ts {
        assert all[i - 1].ts <= all[i].ts;
      }
      if points != [] {
        assert all[|points| - 1].ts <= all[|points|].ts;
      }
    }
  }

  /** The loop over frozen blocks: skip, share or copy. */
  method SnapshotFrozen(frozen: seq<FrozenBlock>, start: I64, end: I64) returns (blocks: seq<seq<Point>>)
    requires AllExact(frozen)
    ensures Concat(blocks) == Filter(Points(frozen), start, end) && NonEmptyBlocks(blocks)
  {
    blocks := [];
    for n := 0 to |frozen|
      invariant Snapped(frozen, n, start, end, blocks)
    {
      var b := frozen[n];
      SnappedNext(frozen, n, start, end, blocks);
      BoundsDecide(b, start, end);
      if !Overlaps(b, start, end) {
        continue;
      }
      if FullyWithin(b, start, end) {
        blocks := Push(blocks, b.points);
        continue;
      }
      var selected := Select(b.points, start, end);
      blocks := Push(blocks, selected);
    }
    assert frozen[..|frozen|] == frozen;
  }

  // ----- The cursor -----

  class SnapshotCursor {
    const blocks: seq<seq<Point>>
    var block: nat
    var point: nat

    /** What the cursor has not passed yet. */
    ghost function Remaining(): seq<Point>
      reads this
    {
      Rest(blocks, block, point)
    }

    ghost predicate Valid()
      reads this
    {
      && NonEmptyBlocks(blocks) && block <= |blocks|
      && (if block < |blocks| then point < |blocks[block]| else point == 0)
    }

    constructor (blocks: seq<seq<Point>>)
      requires NonEmptyBlocks(blocks)
      ensures Valid() && this.blocks == blocks && Remaining() == Concat(blocks)
    {
      this.blocks, block, point := blocks, 0, 0;
      new;
      RestAll(blocks);
    }

    method Peek() returns (p: Option<Point>)
      requires Valid()
      ensures p == if Remaining() == [] then None else Some(Remaining()[0])
    {
      RestFirst(blocks, block, point);
      return if block < |blocks| then Some(blocks[block][point]) else None;
    }

    method Advance() returns (moved: bool)
      requires Valid()
      modifies this
      ensures Valid() && moved == (old(Remaining()) != [])
      ensures Remaining() == if moved then old(Remaining())[1..] else []
    {
      RestFirst(blocks, block, point);
      if block < |blocks| {
        if point + 1 < |blocks[block]| {
          point := point + 1;
        } else {
          block, point := block + 1, 0;
        }
        return true;
      }
      return false;
    }
  }

  function From(blocks: seq<seq<Point>>, b: nat): seq<Point>
    requires b <= |blocks|
    decreases |blocks| - b
  {
    if b == |blocks| then [] else blocks[b] + From(blocks, b + 1)
  }

  /** Everything from point `p` of block `b` on. */
  function Rest(blocks: seq<seq<Point>>, b: nat, p: nat): seq<Point> {
    if b >= |blocks| || p > |blocks[b]| then [] else blocks[b][p..] + From(blocks, b + 1)
  }

  lemma {:induction false} FromConcat(blocks: seq<seq<Point>>, b: nat)
    requires b <= |blocks|
    ensures Concat(blocks[..b]) + From(blocks, b) == Concat(blocks)
    decreases |blocks| - b
  {
    if b == |blocks| {
      assert blocks[..b] == blocks;
    } else {
      FromConcat(blocks, b + 1);
      assert blocks[..b + 1][..b] == blocks[..b];
    }
  }

  lemma RestAll(blocks: seq<seq<Point>>)
    ensures Rest(blocks, 0, 0) == Concat(blocks)
  {
    FromConcat(blocks, 0);
    assert blocks[..0] == [];
    if blocks != [] {
      assert blocks[0][0..] == blocks[0];
    }
  }

  lemma RestFirst(blocks: seq<seq<Point>>, b: nat, p: nat)
    requires NonEmptyBlocks(blocks) && b <= |blocks| && (b < |blocks| ==> p < |blocks[b]|)
    ensures b == |blocks| ==> Rest(blocks, b, p) == []
    ensures b < |blocks| ==>
              && Rest(blocks, b, p) != [] && Rest(blocks, b, p)[0] == blocks[b][p]
              && Rest(blocks, b, p)[1..]
                 == if p + 1 < |blocks[b]| then Rest(blocks, b, p + 1) else Rest(blocks, b + 1, 0)
  {
    if b < |blocks| {
      assert blocks[b][p..][1..] == blocks[b][p + 1..];
      if p + 1 == |blocks[b]| && b + 1 < |blocks| {
        assert blocks[b + 1][0..] == blocks[b + 1];
      }
    }
  }

  lemma WalkStep(walked: seq<Point>, remaining: seq<Point>)
    requires remaining != []
    ensures walked + [remaining[0]] + remaining[1..] == walked + remaining
  {
  }

  /** Peeking and advancing until there is nothing left. */
  method Walk(cursor: SnapshotCursor) returns (walked: seq<Point>)
    requires cursor.Valid()
    modifies cursor
    ensures walked == old(cursor.Remaining())
  {
    walked := [];
    var p := cursor.Peek();
    while p.Some?
      invariant cursor.Valid() && walked + cursor.Remaining() == old(cursor.Remaining())
      invariant p == if cursor.Remaining() == [] then None else Some(cursor.Remaining()[0])
      decreases |cursor.Remaining()|
    {
      WalkStep(walked, cursor.Remaining());
      walked := walked + [p.value];
      var moved := cursor.Advance();
      p := cursor.Peek();
    }
  }

  /** Walking a range snapshot with its cursor yields exactly the appended points in range, in order. */
  method WalkRange(builder: ChunkBuilder, start: I64, end: I64) returns (walked: seq<Point>)
    requires builder.Valid()
    ensures walked == Filter(builder.Contents(), start, end)
  {
    var blocks := builder.SnapshotInRange(start, end);
    var cursor := new SnapshotCursor(blocks);
    walked := Walk(cursor);
  }
}
