/**
 The durable queue of rows waiting to be sent upstream, crates/tsink-server/src/edge_sync.rs, as steps on
 values: a map of pending entries, an append-only log, compaction by atomic replacement, and replay
 of the log on open. Appends and compactions may fail, and a failed append may leave part of its line
 in the file, on which the next record then lands.
 */
module EdgeQueueSpec {
  import opened Common

  /** What an entry is, without the fields that only retries change. */
  datatype Core = Core(id: nat, body: int, bytes: nat, enqueuedMs: nat)

  datatype Entry = Entry(core: Core, attempts: nat, nextAttemptMs: nat)

  datatype Record = Put(entry: Entry) | Ack(id: nat)

  type Pos = n: nat | n > 0 witness 1

  /**
   What one append left in the file: a line, a record without its newline, or a part of a record. The
   text of a line is everything up to the next newline, so whatever follows the last two lands on the
   same line, which is then no record.
   */
  datatype Piece = Line(record: Record) | Unended(record: Record) | Torn(bytes: Pos)

  /** How an append ends: written, not begun, all but the newline, or cut short after some bytes. */
  datatype Write = Complete | Nothing | NoNewline | Partial(bytes: Pos)

  datatype Config = Config(
    maxEntries: nat, maxBytes: nat, maxRecordBytes: nat, maxLogBytes: nat, recordBytes: Record -> nat)

  /**
   `disk` is the file at the queue's path. After a compaction whose file could not be reopened the
   queue still writes to the replaced file: `attached` is false and appends do not reach `disk`.
   */
  datatype State = State(
    isOpen: bool, pending: map<nat, Entry>, disk: seq<Piece>, attached: bool,
    queuedBytes: nat, logBytes: nat, nextId: nat)

  /** How a compaction ends: completely, before the replacement, or between replacement and reopening. */
  datatype Compaction = Done | NotReplaced | NotReopened

  datatype Event =
    | Enqueue(body: int, bytes: nat, nowMs: nat, write: Write, compaction: Compaction)
    | AckEntry(id: nat, write: Write, compaction: Compaction)
    | Reschedule(id: nat, nowMs: nat, maxBackoffSecs: nat)
    | Expire(cutoffMs: nat, appends: nat, write: Write, compaction: Compaction)
    | CrashAndOpen(compaction: Compaction)

  datatype Outcome = Outcome(state: State, ok: bool)

  // ----- The log -----

  /** Every line is one record; the last one may lack its newline. */
  ghost predicate Readable(log: seq<Piece>) {
    forall k :: 0 <= k < |log| ==> log[k].Line? || (log[k].Unended? && k == |log| - 1)
  }

  ghost predicate AllLines(log: seq<Piece>) {
    forall k :: 0 <= k < |log| ==> log[k].Line?
  }

  /** `load_existing_records`, on a readable log. */
  function Replay(log: seq<Piece>): map<nat, Entry> {
    if log == [] then map[]
    else
      Applied(Replay(log[..|log| - 1]), log[|log| - 1])
  }

  function Applied(m: map<nat, Entry>, p: Piece): map<nat, Entry> {
    if p.Torn? then m
    else if p.record.Put? then m[p.record.entry.core.id := p.record.entry]
    else m - {p.record.id}
  }

  function NextIdOf(log: seq<Piece>): nat {
    if log == [] then 1 else NextIdAfter(NextIdOf(log[..|log| - 1]), log[|log| - 1])
  }

  function NextIdAfter(before: nat, p: Piece): nat {
    if p.Torn? || p.record.Ack? then before else Max(before, Min(p.record.entry.core.id + 1, U64_MAX))
  }

  function PieceBytes(cfg: Config, p: Piece): nat {
    if p.Torn? then p.bytes else if p.Line? then cfg.recordBytes(p.record) else Max(cfg.recordBytes(p.record) - 1, 0)
  }

  function LogBytes(cfg: Config, log: seq<Piece>): nat {
    if log == [] then 0 else LogBytes(cfg, log[..|log| - 1]) + PieceBytes(cfg, log[|log| - 1])
  }

  /** The records of the entries with ids below `n`, in id order. */
  function PutsBelow(pending: map<nat, Entry>, n: nat): seq<Piece> {
    if n == 0 then []
    else if n - 1 in pending then PutsBelow(pending, n - 1) + [Line(Put(pending[n - 1]))]
    else PutsBelow(pending, n - 1)
  }

  function BytesBelow(pending: map<nat, Entry>, n: nat): nat {
    if n == 0 then 0
    else BytesBelow(pending, n - 1) + (if n - 1 in pending then pending[n - 1].core.bytes else 0)
  }

  // ----- The steps -----

  function Pieces(r: Record, write: Write): seq<Piece> {
    match write
    case Complete => [Line(r)]
    case Nothing => []
    case NoNewline => [Unended(r)]
    case Partial(bytes) => [Torn(bytes)]
  }

  /** `append_log_record_locked`: only a complete line is counted. */
  function Appended(cfg: Config, s: State, r: Record, write: Write): State {
    s.(disk := if s.attached then s.disk + Pieces(r, write) else s.disk,
       logBytes := if write.Complete? then s.logBytes + cfg.recordBytes(r) else s.logBytes)
  }

  /** `compact_locked` */
  function Compact(cfg: Config, s: State, how: Compaction): Outcome {
    var puts := PutsBelow(s.pending, s.nextId + 1);
    match how
    case Done => Outcome(s.(disk := puts, attached := true, logBytes := LogBytes(cfg, puts)), true)
    case NotReplaced => Outcome(s, false)
    case NotReopened => Outcome(s.(disk := puts, attached := false), false)
  }

  function CompactIfLarge(cfg: Config, s: State, how: Compaction): Outcome {
    if s.logBytes > cfg.maxLogBytes then Compact(cfg, s, how) else Outcome(s, true)
  }

  /** `enqueue_rows` */
  function EnqueueStep(cfg: Config, s: State, e: Event): Outcome
    requires e.Enqueue?
  {
    if e.bytes > cfg.maxRecordBytes then Outcome(s, false)
    else if |s.pending| >= cfg.maxEntries then Outcome(s, false)
    else if s.queuedBytes + e.bytes > cfg.maxBytes then Outcome(s, false)
    else
      var entry := Entry(Core(s.nextId, e.body, e.bytes, e.nowMs), 0, e.nowMs);
      var numbered := s.(nextId := Min(s.nextId + 1, U64_MAX));
      var logged := Appended(cfg, numbered, Put(entry), e.write);
      if !e.write.Complete? then Outcome(logged, false)
      else
        CompactIfLarge(cfg, logged.(queuedBytes := s.queuedBytes + e.bytes,
                                    pending := s.pending[entry.core.id := entry]), e.compaction)
  }

  /** Removing an entry: out of the map first, then the log record, then the byte count. */
  function Remove(cfg: Config, s: State, id: nat, write: Write): Outcome
    requires id in s.pending
  {
    var logged := Appended(cfg, s.(pending := s.pending - {id}), Ack(id), write);
    if !write.Complete? then Outcome(logged, false)
    else Outcome(logged.(queuedBytes := Max(s.queuedBytes - s.pending[id].core.bytes, 0)), true)
  }

  /** `ack_entry` */
  function AckStep(cfg: Config, s: State, e: Event): Outcome
    requires e.AckEntry?
  {
    if e.id !in s.pending then Outcome(s, true)
    else
      var removed := Remove(cfg, s, e.id, e.write);
      if removed.ok then CompactIfLarge(cfg, removed.state, e.compaction) else removed
  }

  const U32_MAX: nat := 0xffff_ffff

  function Pow2(k: nat): nat {
    if k == 0 then 1 else 2 * Pow2(k - 1)
  }

  /** `reschedule_entry`: only the retry fields of one entry change. */
  function RescheduleStep(s: State, e: Event): Outcome
    requires e.Reschedule?
  {
    if e.id !in s.pending then Outcome(s, true)
    else Outcome(s.(pending := s.pending[e.id := RetriedEntry(s.pending[e.id], e.nowMs, e.maxBackoffSecs)]), true)
  }

  function RetriedEntry(entry: Entry, nowMs: nat, maxBackoffSecs: nat): Entry {
    var attempts := Min(entry.attempts + 1, U32_MAX);
    var backoff := Min(Pow2(Min(attempts, 16)), Max(maxBackoffSecs, 1));
    entry.(attempts := attempts, nextAttemptMs := Min(nowMs + Min(backoff * 1000, U64_MAX), U64_MAX))
  }

  /** The ids below `n` of entries enqueued before the cutoff. */
  function ExpiredBelow(pending: map<nat, Entry>, cutoffMs: nat, n: nat): (ids: seq<nat>)
    ensures forall k :: 0 <= k < |ids| ==> ids[k] < n && ids[k] in pending && pending[ids[k]].core.enqueuedMs < cutoffMs
    ensures forall j, k :: 0 <= j < k < |ids| ==> ids[j] < ids[k]
    ensures forall id :: id in pending && id < n && pending[id].core.enqueuedMs < cutoffMs ==> id in ids
  {
    if n == 0 then []
    else
      var ids := ExpiredBelow(pending, cutoffMs, n - 1);
      if n - 1 in pending && pending[n - 1].core.enqueuedMs < cutoffMs then ids + [n - 1] else ids
  }

  /** The first `appends` of a series of appends succeed and any further one ends as `write` says. */
  function WriteAt(k: nat, appends: nat, write: Write): Write {
    if k < appends then Complete else write
  }

  /** Removes the first `count` of `ids`, stopping at the append that fails. */
  function RemoveFirst(cfg: Config, s: State, ids: seq<nat>, count: nat, appends: nat, write: Write): Outcome
    requires count <= |ids|
  {
    if count == 0 then Outcome(s, true)
    else
      var before := RemoveFirst(cfg, s, ids, count - 1, appends, write);
      if !before.ok || ids[count - 1] !in before.state.pending then before
      else Remove(cfg, before.state, ids[count - 1], WriteAt(count - 1, appends, write))
  }

  /** `expire_before`: of its appends the first `appends` succeed. */
  function ExpireStep(cfg: Config, s: State, e: Event): Outcome
    requires e.Expire?
  {
    var ids := ExpiredBelow(s.pending, e.cutoffMs, s.nextId + 1);
    var removed := RemoveFirst(cfg, s, ids, |ids|, e.appends, e.write);
    if removed.ok then CompactIfLarge(cfg, removed.state, e.compaction) else removed
  }

  /** The queue is dropped at any point and opened again from the file at its path; `open` refuses an unreadable one. */
  ghost function OpenStep(cfg: Config, disk: seq<Piece>, how: Compaction): Outcome {
    if Readable(disk) then Loaded(cfg, disk, how)
    else Outcome(State(false, map[], disk, true, 0, 0, NextIdOf(disk)), false)
  }

  function Loaded(cfg: Config, disk: seq<Piece>, how: Compaction): Outcome {
    var pending, nextId := Replay(disk), NextIdOf(disk);
    var loaded := State(true, pending, disk, true, BytesBelow(pending, nextId + 1), LogBytes(cfg, disk), nextId);
    var r := CompactIfLarge(cfg, loaded, how);
    Outcome(r.state.(isOpen := r.ok), r.ok)
  }

  ghost function Next(cfg: Config, s: State, e: Event): Outcome {
    if e.CrashAndOpen? then OpenStep(cfg, s.disk, e.compaction)
    else if !s.isOpen then Outcome(s, false)
    else if e.Enqueue? then EnqueueStep(cfg, s, e)
    else if e.AckEntry? then AckStep(cfg, s, e)
    else if e.Reschedule? then RescheduleStep(s, e)
    else ExpireStep(cfg, s, e)
  }

  // ----- Facts about the log -----

  ghost predicate Keyed(m: map<nat, Entry>) {
    forall id :: id in m ==> m[id].core.id == id
  }

  ghost predicate Within(m: map<nat, Entry>, limit: nat) {
    forall id :: id in m ==> id < limit
  }

  ghost predicate PutsWithin(log: seq<Piece>, limit: nat) {
    forall k :: 0 <= k < |log| && !log[k].Torn? && log[k].record.Put? ==> log[k].record.entry.core.id < limit
  }

  lemma ReplayAppend(log: seq<Piece>, p: Piece)
    ensures Replay(log + [p]) == Applied(Replay(log), p)
  {
    assert (log + [p])[..|log|] == log;
  }

  /** What an append does to the replayed map: a record that got into the file counts, ended or not. */
  lemma ReplayPieces(log: seq<Piece>, r: Record, write: Write)
    ensures Replay(log + Pieces(r, write)) ==
            if write.Complete? || write.NoNewline? then Applied(Replay(log), Line(r)) else Replay(log)
  {
    if Pieces(r, write) == [] {
      assert log + [] == log;
    } else {
      ReplayAppend(log, Pieces(r, write)[0]);
      assert Pieces(r, write) == [Pieces(r, write)[0]];
    }
  }

  lemma {:induction false} ReplayKeyed(log: seq<Piece>)
    ensures Keyed(Replay(log))
  {
    if log != [] {
      ReplayKeyed(log[..|log| - 1]);
    }
  }

  lemma {:induction false} NextIdFresh(log: seq<Piece>, limit: nat)
    requires PutsWithin(log, limit) && 1 <= limit <= U64_MAX
    ensures Within(Replay(log), NextIdOf(log)) && 1 <= NextIdOf(log) <= limit
    ensures PutsWithin(log, NextIdOf(log))
    decreases |log|
  {
    if log != [] {
      NextIdFresh(log[..|log| - 1], limit);
    }
  }

  lemma {:induction false} ReplayPuts(pending: map<nat, Entry>, n: nat)
    requires Keyed(pending)
    ensures forall id :: id in Replay(PutsBelow(pending, n)) <==> id in pending && id < n
    ensures forall id :: id in Replay(PutsBelow(pending, n)) ==> Replay(PutsBelow(pending, n))[id] == pending[id]
    decreases n
  {
    if n > 0 {
      ReplayPuts(pending, n - 1);
      if n - 1 in pending {
        ReplayAppend(PutsBelow(pending, n - 1), Line(Put(pending[n - 1])));
      }
    }
  }

  lemma {:induction false} PutsInside(pending: map<nat, Entry>, n: nat, limit: nat)
    requires Keyed(pending) && Within(pending, limit)
    ensures PutsWithin(PutsBelow(pending, n), limit) && AllLines(PutsBelow(pending, n))
    decreases n
  {
    if n > 0 {
      PutsInside(pending, n - 1, limit);
    }
  }

  /** Replaying a compacted log gives the pending map. */
  lemma CompactedReplay(pending: map<nat, Entry>, n: nat)
    requires Keyed(pending) && Within(pending, n)
    ensures Replay(PutsBelow(pending, n)) == pending
  {
    ReplayPuts(pending, n);
  }

  lemma {:induction false} BytesUpdate(a: map<nat, Entry>, b: map<nat, Entry>, id: nat, n: nat)
    requires forall k :: k != id ==> (k in a <==> k in b) && (k in a ==> a[k].core == b[k].core)
    ensures BytesBelow(b, n) + (if id < n && id in a then a[id].core.bytes else 0)
         == BytesBelow(a, n) + (if id < n && id in b then b[id].core.bytes else 0)
    decreases n
  {
    if n > 0 {
      BytesUpdate(a, b, id, n - 1);
    }
  }

  lemma {:induction false} BytesBeyond(m: map<nat, Entry>, n: nat, more: nat)
    requires Within(m, n) && n <= more
    ensures BytesBelow(m, more) == BytesBelow(m, n)
    decreases more
  {
    if n < more {
      BytesBeyond(m, n, more - 1);
    }
  }
}
