/**
 Writing a timestamp column, src/engine/encoder/timestamps.rs: the three encoders, the choice of the
 shortest, and when what was chosen can be read back.
 */
module TimestampEncoding {
  import opened Common
  import opened Varint
  import opened Timestamps

  datatype EncodeError = DeltaOverflow

  function Delta(ts: seq<I64>, k: nat): int
    requires 1 <= k < |ts|
  {
    var now: int, before: int := ts[k], ts[k - 1];
    now - before
  }

  /** What a delta column stores for point `k`: its delta, or how far that is from the delta before. */
  function Stored(codec: TimestampCodec, ts: seq<I64>, k: nat): int
    requires 1 <= k < |ts|
  {
    if codec.DeltaOfDelta? && k > 1 then Delta(ts, k) - Delta(ts, k - 1) else Delta(ts, k)
  }

  ghost predicate PointFits(codec: TimestampCodec, ts: seq<I64>, k: nat) {
    1 <= k < |ts| ==> Fits(Delta(ts, k)) && Fits(Stored(codec, ts, k))
  }

  /** Every difference the codec takes is a 64-bit number. */
  ghost predicate Encodable(codec: TimestampCodec, ts: seq<I64>) {
    forall k: nat :: PointFits(codec, ts, k)
  }

  ghost predicate DeltasFit(ts: seq<I64>) {
    forall k: nat {:trigger PointFits(DeltaVarint, ts, k)} :: 1 <= k < |ts| ==> Fits(Delta(ts, k))
  }

  /** The bytes each point adds to a delta column. */
  type Words = nat -> seq<Byte>

  function WordOf(codec: TimestampCodec, k: nat, stored: I64): seq<Byte> {
    if codec.DeltaOfDelta? && k == 1 then I64Bytes(stored) else Svarint(stored)
  }

  function WordsOf(codec: TimestampCodec, ts: seq<I64>): Words {
    k => if 1 <= k < |ts| && Fits(Stored(codec, ts, k)) then WordOf(codec, k, Stored(codec, ts, k)) else []
  }

  function Concat(first: I64, words: Words, n: nat): (bytes: seq<Byte>)
    ensures |bytes| >= 8
  {
    if n <= 1 then I64Bytes(first) else Concat(first, words, n - 1) + words(n - 1)
  }

  /** The delta column of `ts`. */
  ghost function Column(codec: TimestampCodec, ts: seq<I64>): seq<Byte>
    requires ts != []
  {
    Concat(ts[0], WordsOf(codec, ts), |ts|)
  }

  lemma {:induction false} ConcatPrefix(first: I64, words: Words, k: nat, n: nat)
    requires k <= n
    ensures Concat(first, words, k) <= Concat(first, words, n)
    decreases n
  {
    if k < n {
      ConcatPrefix(first, words, k, n - 1);
    }
  }

  function StepOf(ts: seq<I64>): int {
    if |ts| > 1 then Delta(ts, 1) else 0
  }

  ghost predicate IsFixedStep(ts: seq<I64>) {
    Fits(StepOf(ts)) && forall k {:trigger Delta(ts, k)} :: 1 <= k < |ts| ==> Delta(ts, k) == StepOf(ts)
  }

  ghost function FixedColumn(ts: seq<I64>): seq<Byte>
    requires ts != [] && IsFixedStep(ts)
  {
    I64Bytes(ts[0]) + I64Bytes(StepOf(ts))
  }

  /** `encode_timestamps_fixed_step_rle` on a non-empty chunk. */
  method EncodeFixedStep(ts: seq<I64>) returns (r: Result<Option<seq<Byte>>, EncodeError>)
    requires ts != []
    ensures r.Err? ==> !DeltasFit(ts)
    ensures r.Ok? && r.value.Some? ==> IsFixedStep(ts) && r.value.value == FixedColumn(ts)
    ensures r.Ok? && r.value.None? ==> !IsFixedStep(ts)
  {
    var step := StepOf(ts);
    if !Fits(step) {
      assert !PointFits(DeltaVarint, ts, 1);
      return Err(DeltaOverflow);
    }
    for i := 1 to |ts|
      invariant forall k {:trigger Delta(ts, k)} :: 1 <= k < i ==> Delta(ts, k) == step
    {
      if !Fits(Delta(ts, i)) {
        assert !PointFits(DeltaVarint, ts, i);
        return Err(DeltaOverflow);
      }
      if Delta(ts, i) != step {
        return Ok(None);
      }
    }
    return Ok(Some(I64Bytes(ts[0]) + I64Bytes(step)));
  }

  /** `encode_timestamps_delta_varint` and `encode_timestamps_delta_of_delta` on a non-empty chunk. */
  method EncodeDeltas(codec: TimestampCodec, ts: seq<I64>) returns (r: Result<seq<Byte>, EncodeError>)
    requires ts != [] && !codec.FixedStepRle?
    ensures r.Ok? <==> Encodable(codec, ts)
    ensures r.Ok? ==> r.value == Column(codec, ts)
  {
    var out := I64Bytes(ts[0]);
    var prevDelta := 0;
    for k := 1 to |ts|
      invariant Encoded(codec, ts, k, prevDelta, out)
    {
      var delta := Delta(ts, k);
      var stored := if codec.DeltaOfDelta? && k > 1 then delta - prevDelta else delta;
      StoredDelta(codec, ts, k, prevDelta, delta, stored);
      if !Fits(delta) || !Fits(stored) {
        return Err(DeltaOverflow);
      }
      EncodedStep(codec, ts, k, prevDelta, out, stored);
      out := out + WordOf(codec, k, stored);
      prevDelta := delta;
    }
    return Ok(out);
  }

  /** The first `k` points are written. */
  ghost predicate Encoded(codec: TimestampCodec, ts: seq<I64>, k: nat, prevDelta: int, out: seq<Byte>) {
    && 1 <= k <= |ts| && (k > 1 ==> prevDelta == Delta(ts, k - 1))
    && (forall j: nat :: j < k ==> PointFits(codec, ts, j))
    && out == Concat(ts[0], WordsOf(codec, ts), k)
  }

  lemma StoredDelta(codec: TimestampCodec, ts: seq<I64>, k: nat, prevDelta: int, delta: int, stored: int)
    requires 1 <= k < |ts| && (k > 1 ==> prevDelta == Delta(ts, k - 1)) && delta == Delta(ts, k)
    requires stored == if codec.DeltaOfDelta? && k > 1 then delta - prevDelta else delta
    ensures stored == Stored(codec, ts, k) && (PointFits(codec, ts, k) <==> Fits(delta) && Fits(stored))
  {
  }

  lemma EncodedStep(codec: TimestampCodec, ts: seq<I64>, k: nat, prevDelta: int, out: seq<Byte>, stored: I64)
    requires k < |ts| && Encoded(codec, ts, k, prevDelta, out)
    requires PointFits(codec, ts, k) && stored == Stored(codec, ts, k)
    ensures Encoded(codec, ts, k + 1, Delta(ts, k), out + WordOf(codec, k, stored))
  {
    ColumnWord(codec, ts, k);
  }

  // ----- Round trip -----

  /** The bytes before point `k`, for a column laid out so that each word follows the one before it. */
  type Prefixes = nat -> seq<Byte>

  ghost function PrefixesOf(codec: TimestampCodec, ts: seq<I64>): Prefixes
    requires ts != []
  {
    n => Concat(ts[0], WordsOf(codec, ts), n)
  }

  ghost predicate Spelled(codec: TimestampCodec, ts: seq<I64>, upTo: Prefixes, k: nat) {
    1 <= k < |ts| && PointFits(codec, ts, k) ==> upTo(k + 1) == upTo(k) + WordOf(codec, k, Stored(codec, ts, k))
  }

  /** The cursor of a reader at point `k` of the column of `ts`. */
  ghost function AtPoint(codec: TimestampCodec, ts: seq<I64>, upTo: Prefixes, k: nat): Cursor
    requires k < |ts| && Encodable(codec, ts)
  {
    assert PointFits(codec, ts, k);
    Cursor(k, ts[k], if codec.DeltaOfDelta? && k > 0 then Delta(ts, k) else 0, |upTo(k + 1)|)
  }

  lemma WordIsRead(codec: TimestampCodec, before: seq<Byte>, stored: I64, after: seq<Byte>, payload: seq<Byte>, c: Cursor)
    requires c.pos == |before| && payload == before + WordOf(codec, c.idx + 1, stored) + after
    ensures ReadStored(codec, payload, c) == Ok(Decoded(stored, |before| + |WordOf(codec, c.idx + 1, stored)|))
  {
    if codec.DeltaOfDelta? && c.idx == 0 {
      I64RoundTrip(before, stored, after);
    } else {
      SvarintRoundTrip(before, stored, after);
    }
  }

  lemma PointAdvances(codec: TimestampCodec, ts: seq<I64>, k: nat, before: Cursor, end: nat)
    requires 1 <= k < |ts| && PointFits(codec, ts, k) && PointFits(codec, ts, k - 1)
    requires before.idx == k - 1 && before.ts == ts[k - 1]
    requires codec.DeltaOfDelta? && k > 1 ==> before.delta == Delta(ts, k - 1)
    ensures Advance(codec, before, Decoded(Stored(codec, ts, k), end))
         == Ok(Cursor(k, ts[k], if codec.DeltaOfDelta? then Delta(ts, k) else 0, end))
  {
  }

  lemma ReaderReads(codec: TimestampCodec, payload: seq<Byte>, c: Cursor, stored: Decoded<I64>, next: Cursor)
    requires ReadStored(codec, payload, c) == Ok(stored) && Advance(codec, c, stored) == Ok(next)
    ensures ReaderOf(codec, payload)(c) == Ok(next)
  {
  }

  lemma ColumnWord(codec: TimestampCodec, ts: seq<I64>, k: nat)
    requires 1 <= k < |ts| && PointFits(codec, ts, k)
    ensures Concat(ts[0], WordsOf(codec, ts), k + 1)
         == Concat(ts[0], WordsOf(codec, ts), k) + WordOf(codec, k, Stored(codec, ts, k))
  {
  }

  lemma PointStep(codec: TimestampCodec, ts: seq<I64>, upTo: Prefixes, k: nat, payload: seq<Byte>)
    requires k + 1 < |ts| && Encodable(codec, ts) && Spelled(codec, ts, upTo, k + 1) && upTo(k + 2) <= payload
    ensures ReaderOf(codec, payload)(AtPoint(codec, ts, upTo, k)) == Ok(AtPoint(codec, ts, upTo, k + 1))
  {
    var c, next := AtPoint(codec, ts, upTo, k), AtPoint(codec, ts, upTo, k + 1);
    assert PointFits(codec, ts, k) && PointFits(codec, ts, k + 1);
    var stored := Stored(codec, ts, k + 1);
    PointReads(codec, upTo(k + 1), stored, payload, c);
    PointAdvances(codec, ts, k + 1, c, next.pos);
    ReaderReads(codec, payload, c, Decoded(stored, next.pos), next);
  }

  lemma PointReads(codec: TimestampCodec, before: seq<Byte>, stored: I64, payload: seq<Byte>, c: Cursor)
    requires c.pos == |before| && before + WordOf(codec, c.idx + 1, stored) <= payload
    ensures ReadStored(codec, payload, c) == Ok(Decoded(stored, |before + WordOf(codec, c.idx + 1, stored)|))
  {
    var word := WordOf(codec, c.idx + 1, stored);
    var after := payload[|before + word|..];
    assert payload == before + word + after;
    WordIsRead(codec, before, stored, after, payload, c);
  }

  ghost predicate Follows(codec: TimestampCodec, ts: seq<I64>, upTo: Prefixes, step: Reader, k: nat)
    requires Encodable(codec, ts)
  {
    k + 1 < |ts| ==> step(AtPoint(codec, ts, upTo, k)) == Ok(AtPoint(codec, ts, upTo, k + 1))
  }

  lemma {:induction false} RunFollows(codec: TimestampCodec, ts: seq<I64>, upTo: Prefixes, step: Reader, k: nat)
    requires k < |ts| && Encodable(codec, ts) && forall j: nat :: Follows(codec, ts, upTo, step, j)
    ensures Run(step, AtPoint(codec, ts, upTo, 0), k) == Ok(AtPoint(codec, ts, upTo, k))
    decreases k
  {
    if k > 0 {
      RunFollows(codec, ts, upTo, step, k - 1);
      assert Follows(codec, ts, upTo, step, k - 1);
    }
  }

  ghost predicate LaidOut(codec: TimestampCodec, ts: seq<I64>, upTo: Prefixes, payload: seq<Byte>) {
    forall k: nat :: Spelled(codec, ts, upTo, k) && (k <= |ts| ==> upTo(k) <= payload)
  }

  lemma ColumnLaidOut(codec: TimestampCodec, ts: seq<I64>)
    requires ts != []
    ensures LaidOut(codec, ts, PrefixesOf(codec, ts), Column(codec, ts))
  {
    forall k: nat ensures Spelled(codec, ts, PrefixesOf(codec, ts), k) {
      ColumnSpelled(codec, ts, k);
    }
    forall k: nat | k <= |ts| ensures PrefixesOf(codec, ts)(k) <= Column(codec, ts) {
      ConcatPrefix(ts[0], WordsOf(codec, ts), k, |ts|);
    }
  }

  lemma ColumnSpelled(codec: TimestampCodec, ts: seq<I64>, k: nat)
    requires ts != []
    ensures Spelled(codec, ts, PrefixesOf(codec, ts), k)
  {
    if 1 <= k < |ts| && PointFits(codec, ts, k) {
      ColumnWord(codec, ts, k);
      PrefixIs(codec, ts, k);
      PrefixIs(codec, ts, k + 1);
    }
  }

  lemma PrefixIs(codec: TimestampCodec, ts: seq<I64>, n: nat)
    requires ts != []
    ensures PrefixesOf(codec, ts)(n) == Concat(ts[0], WordsOf(codec, ts), n)
  {
  }

  lemma ReaderFollows(codec: TimestampCodec, ts: seq<I64>, upTo: Prefixes, payload: seq<Byte>, k: nat)
    requires Encodable(codec, ts) && LaidOut(codec, ts, upTo, payload)
    ensures Follows(codec, ts, upTo, ReaderOf(codec, payload), k)
  {
    if k + 1 < |ts| {
      assert Spelled(codec, ts, upTo, k + 1) && upTo(k + 2) <= payload;
      PointStep(codec, ts, upTo, k, payload);
    }
  }

  lemma ColumnStart(codec: TimestampCodec, ts: seq<I64>, payload: seq<Byte>)
    requires ts != [] && Encodable(codec, ts) && I64Bytes(ts[0]) <= payload
    ensures Start(payload) == Ok(AtPoint(codec, ts, PrefixesOf(codec, ts), 0))
  {
    assert payload == [] + I64Bytes(ts[0]) + payload[8..];
    I64RoundTrip([], ts[0], payload[8..]);
  }

  lemma ReadsAll(codec: TimestampCodec, ts: seq<I64>, upTo: Prefixes, payload: seq<Byte>)
    requires ts != [] && Encodable(codec, ts) && LaidOut(codec, ts, upTo, payload)
    requires Start(payload) == Ok(AtPoint(codec, ts, upTo, 0)) && |upTo(|ts|)| == |payload|
    requires !codec.FixedStepRle?
    ensures Holds(codec, payload, ts)
  {
    var step := ReaderOf(codec, payload);
    forall k: nat ensures Follows(codec, ts, upTo, step, k) {
      ReaderFollows(codec, ts, upTo, payload, k);
    }
    RunFollows(codec, ts, upTo, step, |ts| - 1);
    forall k | 0 <= k < |ts| ensures ts[k] == TsAt(step, AtPoint(codec, ts, upTo, 0), k) {
      RunFollows(codec, ts, upTo, step, k);
    }
  }

  /** Both delta codecs give back every column they accept. */
  lemma DeltaRoundTrip(codec: TimestampCodec, ts: seq<I64>)
    requires ts != [] && Encodable(codec, ts) && !codec.FixedStepRle?
    ensures Holds(codec, Column(codec, ts), ts)
  {
    ColumnLaidOut(codec, ts);
    ConcatPrefix(ts[0], WordsOf(codec, ts), 1, |ts|);
    ColumnStart(codec, ts, Column(codec, ts));
    ReadsAll(codec, ts, PrefixesOf(codec, ts), Column(codec, ts));
  }

  lemma {:induction false} FixedValue(ts: seq<I64>, i: nat)
    requires IsFixedStep(ts) && i < |ts|
    ensures ts[i] == ts[0] + StepOf(ts) * i
  {
    if i > 0 {
      FixedValue(ts, i - 1);
      assert Delta(ts, i) == StepOf(ts);
      assert StepOf(ts) * i == StepOf(ts) * (i - 1) + StepOf(ts);
    }
  }

  /** The offset of the last point does not fit a 64-bit number, though the points themselves do. */
  ghost predicate SpanOverflows(ts: seq<I64>) {
    |ts| > 0 && IsFixedStep(ts) && (|ts| - 1 > I64_MAX || !Fits(StepOf(ts) * (|ts| - 1)))
  }

  lemma Between(step: int, i: nat, n: nat)
    requires i < n && Fits(step * (n - 1))
    ensures Fits(step * i)
  {
    if step >= 0 {
      assert 0 <= step * i <= step * (n - 1);
    } else {
      assert 0 >= step * i >= step * (n - 1);
    }
  }

  /** Reading back a fixed-step column works exactly when no offset overflows. */
  lemma FixedRoundTrip(ts: seq<I64>)
    requires ts != [] && IsFixedStep(ts)
    ensures Holds(FixedStepRle, FixedColumn(ts), ts) <==> !SpanOverflows(ts)
  {
    var payload, step := FixedColumn(ts), StepOf(ts);
    assert payload == [] + I64Bytes(ts[0]) + I64Bytes(step);
    assert payload == I64Bytes(ts[0]) + I64Bytes(step) + [];
    I64RoundTrip([], ts[0], I64Bytes(step));
    I64RoundTrip(I64Bytes(ts[0]), step, []);
    if SpanOverflows(ts) {
      assert FixedAt(ts[0], step, |ts| - 1) != Ok(ts[|ts| - 1]);
    } else {
      forall i | 0 <= i < |ts| ensures FixedAt(ts[0], step, i) == Ok(ts[i]) {
        Between(step, i, |ts|);
        FixedValue(ts, i);
      }
    }
  }

  // ----- The choice of a codec -----

  /** The column each codec has to offer, if any. */
  ghost function Candidate(codec: TimestampCodec, ts: seq<I64>): Option<seq<Byte>>
    requires ts != []
  {
    if codec.FixedStepRle? then
      if IsFixedStep(ts) then Some(FixedColumn(ts)) else None
    else
      if Encodable(codec, ts) then Some(Column(codec, ts)) else None
  }

  /** Fixed step is tried first, then delta of delta, then deltas. */
  function Order(codec: TimestampCodec): nat {
    if codec.FixedStepRle? then 0 else if codec.DeltaOfDelta? then 1 else 2
  }

  ghost predicate NoBetter(ts: seq<I64>, other: TimestampCodec, codec: TimestampCodec, payload: seq<Byte>)
    requires ts != []
  {
    var p := Candidate(other, ts);
    p.Some? ==> |payload| < |p.value| || (|payload| == |p.value| && Order(codec) <= Order(other))
  }

  /** The first of the shortest candidates. */
  ghost predicate Chosen(ts: seq<I64>, codec: TimestampCodec, payload: seq<Byte>)
    requires ts != []
  {
    Candidate(codec, ts) == Some(payload) && forall other :: NoBetter(ts, other, codec, payload)
  }

  /**
   `choose_best_timestamp_codec`: it fails exactly when some delta overflows, and what it picks is
   read back exactly when it is not a fixed-step column whose span overflows.
   */
  method ChooseTimestampCodec(ts: seq<I64>) returns (r: Result<(TimestampCodec, seq<Byte>), EncodeError>)
    requires ts != []
    ensures r.Ok? <==> DeltasFit(ts)
    ensures r.Ok? ==> Chosen(ts, r.value.0, r.value.1)
    ensures r.Ok? ==> (Holds(r.value.0, r.value.1, ts) <==> !SpanOverflows(ts))
  {
    assert Encodable(DeltaVarint, ts) <==> DeltasFit(ts) by {
      assert forall k: nat :: PointFits(DeltaVarint, ts, k) <==> (1 <= k < |ts| ==> Fits(Delta(ts, k)));
    }
    var fixedStep :- EncodeFixedStep(ts);
    var second := EncodeDeltas(DeltaOfDelta, ts);
    var deltas :- EncodeDeltas(DeltaVarint, ts);
    var codec, payload := DeltaVarint, deltas;
    if second.Ok? && |second.value| <= |payload| {
      codec, payload := DeltaOfDelta, second.value;
    }
    if fixedStep.Some? && |fixedStep.value| <= |payload| {
      codec, payload := FixedStepRle, fixedStep.value;
    }
    forall other ensures NoBetter(ts, other, codec, payload) {
      assert other.FixedStepRle? || other.DeltaOfDelta? || other.DeltaVarint?;
    }
    ReadBackExactly(ts, codec, payload);
    return Ok((codec, payload));
  }

  lemma {:induction false} UvarintLongAs(value: nat, k: nat)
    requires value >= Pow128(k)
    ensures |Uvarint(value)| >= k + 1
    decreases k
  {
    if k > 0 {
      assert value >= 128 && value / 128 >= Pow128(k - 1);
      UvarintLongAs(value / 128, k - 1);
    }
  }

  /** A step so large that at most seven of them overflow takes nine bytes. */
  lemma LargeStepIsLong(step: I64, count: nat)
    requires 1 <= count <= 7 && !Fits(step * count)
    ensures |Svarint(step)| >= 9
  {
    ZigzagRoundTrip(step);
    assert step > 0x1000_0000_0000_0000 || step < -0x1000_0000_0000_0000;
    assert Pow128(4) == 268435456;
    assert Pow128(8) == 72057594037927936;
    UvarintLongAs(Zigzag(step), 8);
  }

  lemma {:induction false} ConcatLength(first: I64, words: Words, n: nat, size: nat)
    requires n >= 1 && forall k :: 1 <= k < n ==> |words(k)| == size
    ensures |Concat(first, words, n)| == 8 + (n - 1) * size
    decreases n
  {
    if n > 1 {
      ConcatLength(first, words, n - 1, size);
      OneMore(n - 2, size);
    }
  }

  lemma OneMore(count: nat, size: nat)
    ensures (count + 1) * size == count * size + size
  {
  }

  /** When the span overflows, the other columns are no shorter than the sixteen bytes of this one. */
  lemma FixedStepWins(ts: seq<I64>, codec: TimestampCodec)
    requires SpanOverflows(ts) && Encodable(codec, ts) && !codec.FixedStepRle?
    ensures |Column(codec, ts)| >= 16
  {
    var step, words := StepOf(ts), WordsOf(codec, ts);
    if codec.DeltaVarint? {
      forall k | 1 <= k < |ts| ensures |words(k)| == |Svarint(step)| {
        assert Delta(ts, k) == step;
      }
      ConcatLength(ts[0], words, |ts|, |Svarint(step)|);
      StepsTakeEight(step, |ts| - 1);
    } else {
      assert |ts| >= 2;
      ConcatPrefix(ts[0], words, 2, |ts|);
      assert PointFits(codec, ts, 1);
      assert Concat(ts[0], words, 2) == Concat(ts[0], words, 1) + words(1);
    }
  }

  lemma StepsTakeEight(step: I64, count: nat)
    requires count > I64_MAX || !Fits(step * count)
    ensures count * |Svarint(step)| >= 8
  {
    if count <= 7 {
      LargeStepIsLong(step, count);
    }
    ManyBytes(count, |Svarint(step)|);
  }

  lemma ManyBytes(count: nat, size: nat)
    requires count >= 1 && size >= 1 && (count >= 8 || size >= 9)
    ensures count * size >= 8
  {
  }

  lemma ReadBackExactly(ts: seq<I64>, codec: TimestampCodec, payload: seq<Byte>)
    requires ts != [] && Chosen(ts, codec, payload)
    ensures Holds(codec, payload, ts) <==> !SpanOverflows(ts)
  {
    if codec.FixedStepRle? {
      FixedRoundTrip(ts);
    } else {
      DeltaRoundTrip(codec, ts);
      assert NoBetter(ts, FixedStepRle, codec, payload);
      if SpanOverflows(ts) {
        FixedStepWins(ts, codec);
      }
    }
  }

  /** Three points that are stored and cannot be read back. */
  lemma SpanOverflowExample()
    ensures SpanOverflows([I64_MIN, -1, I64_MAX - 1]) && DeltasFit([I64_MIN, -1, I64_MAX - 1])
  {
    var ts: seq<I64> := [I64_MIN, -1, I64_MAX - 1];
    assert Delta(ts, 1) == I64_MAX && Delta(ts, 2) == I64_MAX;
  }
}
