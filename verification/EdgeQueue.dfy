/**
 `EdgeSyncQueue` of crates/tsink-server/src/edge_sync.rs: the mutable queue under its mutex. Every method is
 one step of the specification; which writes fail comes in as a parameter. Ordered maps are walked
 by ascending id.
 */
module EdgeQueue {
  import opened Common
  import opened EdgeQueueSpec

  /**
   `load_existing_records`: the loop over the lines of the log. Text that is already on the line, or a
   part of a record, makes the line no record.
   */
  method LoadRecords(log: seq<Piece>) returns (ok: bool, pending: map<nat, Entry>, nextId: nat)
    ensures ok <==> Readable(log)
    ensures ok ==> pending == Replay(log) && nextId == NextIdOf(log)
  {
    pending, nextId := map[], 1;
    var begun := false;
    for k := 0 to |log|
      invariant Readable(log[..k]) && (begun <==> k > 0 && log[k - 1].Unended?)
      invariant pending == Replay(log[..k]) && nextId == NextIdOf(log[..k])
    {
      assert log[..k + 1][..k] == log[..k];
      var p := log[k];
      if begun || p.Torn? {
        LineIsNoRecord(log, k);
        return false, pending, nextId;
      }
      if p.record.Put? {
        nextId := Max(nextId, Min(p.record.entry.core.id + 1, U64_MAX));
        pending := pending[p.record.entry.core.id := p.record.entry];
      } else {
        pending := pending - {p.record.id};
      }
      begun := p.Unended?;
    }
    assert log[..|log|] == log;
    return true, pending, nextId;
  }

  lemma LineIsNoRecord(log: seq<Piece>, k: nat)
    requires k < |log| && ((k > 0 && log[k - 1].Unended?) || log[k].Torn?)
    ensures !Readable(log)
  {
    if log[k].Torn? {
      assert !log[k].Line?;
    } else {
      assert !log[k - 1].Line?;
    }
  }

  /** The temporary file of a compaction and its length. */
  method WriteCompacted(cfg: Config, pending: map<nat, Entry>, bound: nat) returns (temp: seq<Piece>, bytes: nat)
    ensures temp == PutsBelow(pending, bound) && bytes == LogBytes(cfg, temp)
  {
    temp, bytes := [], 0;
    for id := 0 to bound
      invariant temp == PutsBelow(pending, id) && bytes == LogBytes(cfg, temp)
    {
      if id in pending {
        var p := Line(Put(pending[id]));
        assert (temp + [p])[..|temp|] == temp;
        temp, bytes := temp + [p], bytes + cfg.recordBytes(p.record);
      }
    }
  }

  method SumBytes(pending: map<nat, Entry>, bound: nat) returns (bytes: nat)
    ensures bytes == BytesBelow(pending, bound)
  {
    bytes := 0;
    for id := 0 to bound
      invariant bytes == BytesBelow(pending, id)
    {
      if id in pending {
        bytes := bytes + pending[id].core.bytes;
      }
    }
  }

  class EdgeSyncQueue {
    const cfg: Config
    var isOpen: bool
    var pending: map<nat, Entry>
    var disk: seq<Piece>
    var attached: bool
    var queuedBytes: nat
    var logBytes: nat
    var nextId: nat

    ghost function Model(): State
      reads this
    {
      State(isOpen, pending, disk, attached, queuedBytes, logBytes, nextId)
    }

    /** `open` on a log left by an earlier queue, or on an empty one. */
    constructor (cfg: Config, log: seq<Piece>, compaction: Compaction)
      ensures this.cfg == cfg && isOpen == OpenStep(cfg, log, compaction).ok
      ensures Readable(log) ==> Outcome(Model(), isOpen) == OpenStep(cfg, log, compaction)
      ensures disk == OpenStep(cfg, log, compaction).state.disk
    {
      var readable, loaded, next := LoadRecords(log);
      var queued := SumBytes(loaded, next + 1);
      this.cfg := cfg;
      pending, nextId, queuedBytes := loaded, next, queued;
      disk, attached, isOpen := log, true, readable;
      logBytes := LogBytes(cfg, log);
      new;
      if isOpen && logBytes > cfg.maxLogBytes {
        var ok := CompactLog(compaction);
        isOpen := ok;
      }
    }

    /** `append_log_record_locked` */
    method AppendRecord(r: Record, write: Write) returns (ok: bool)
      modifies this
      ensures ok == write.Complete? && Model() == Appended(cfg, old(Model()), r, write)
    {
      if attached {
        disk := disk + Pieces(r, write);
      }
      if !write.Complete? {
        return false;
      }
      logBytes := logBytes + cfg.recordBytes(r);
      return true;
    }

    /** `compact_locked` */
    method CompactLog(how: Compaction) returns (ok: bool)
      modifies this
      ensures Outcome(Model(), ok) == Compact(cfg, old(Model()), how)
    {
      var temp, bytes := WriteCompacted(cfg, pending, nextId + 1);
      if how.NotReplaced? {
        return false;
      }
      disk := temp;
      if how.NotReopened? {
        attached := false;
        return false;
      }
      attached, logBytes := true, bytes;
      return true;
    }

    /** `enqueue_rows` */
    method EnqueueRows(body: int, bytes: nat, nowMs: nat, write: Write, compaction: Compaction) returns (ok: bool)
      requires isOpen
      modifies this
      ensures Outcome(Model(), ok) == EnqueueStep(cfg, old(Model()), Enqueue(body, bytes, nowMs, write, compaction))
    {
      if bytes > cfg.maxRecordBytes || |pending| >= cfg.maxEntries || queuedBytes + bytes > cfg.maxBytes {
        return false;
      }
      var entry := Entry(Core(nextId, body, bytes, nowMs), 0, nowMs);
      nextId := Min(nextId + 1, U64_MAX);
      ok := AppendRecord(Put(entry), write);
      if !ok {
        return;
      }
      queuedBytes := queuedBytes + bytes;
      pending := pending[entry.core.id := entry];
      if logBytes > cfg.maxLogBytes {
        ok := CompactLog(compaction);
      }
    }

    method RemoveEntry(id: nat, write: Write) returns (ok: bool)
      requires id in pending
      modifies this
      ensures Outcome(Model(), ok) == Remove(cfg, old(Model()), id, write)
    {
      var entry := pending[id];
      pending := pending - {id};
      ok := AppendRecord(Ack(id), write);
      if ok {
        queuedBytes := Max(queuedBytes - entry.core.bytes, 0);
      }
    }

    /** `ack_entry` */
    method Acknowledge(id: nat, write: Write, compaction: Compaction) returns (ok: bool)
      requires isOpen
      modifies this
      ensures Outcome(Model(), ok) == AckStep(cfg, old(Model()), AckEntry(id, write, compaction))
    {
      if id !in pending {
        return true;
      }
      ok := RemoveEntry(id, write);
      if ok && logBytes > cfg.maxLogBytes {
        ok := CompactLog(compaction);
      }
    }

    /** `reschedule_entry` */
    method RescheduleEntry(id: nat, nowMs: nat, maxBackoffSecs: nat)
      requires isOpen
      modifies this
      ensures Outcome(Model(), true) == RescheduleStep(old(Model()), Reschedule(id, nowMs, maxBackoffSecs))
    {
      if id in pending {
        var entry := pending[id];
        var attempts := Min(entry.attempts + 1, U32_MAX);
        var backoff := Min(Pow2(Min(attempts, 16)), Max(maxBackoffSecs, 1));
        pending := pending[id := entry.(attempts := attempts,
                                        nextAttemptMs := Min(nowMs + Min(backoff * 1000, U64_MAX), U64_MAX))];
      }
    }

    /** The removals stop at the first append that fails. */
    method RemoveEntries(ids: seq<nat>, appends: nat, write: Write) returns (ok: bool)
      modifies this
      ensures Outcome(Model(), ok) == RemoveFirst(cfg, old(Model()), ids, |ids|, appends, write)
    {
      ghost var start := Model();
      for k := 0 to |ids|
        invariant Outcome(Model(), true) == RemoveFirst(cfg, start, ids, k, appends, write)
      {
        RemoveFirstNext(cfg, start, ids, k, appends, write, Model());
        if ids[k] in pending {
          var removed := RemoveEntry(ids[k], WriteAt(k, appends, write));
          if !removed {
            RemoveFirstStuck(cfg, start, ids, k + 1, |ids|, appends, write);
            return false;
          }
        }
      }
      return true;
    }

    /** `expire_before` */
    method ExpireBefore(cutoffMs: nat, appends: nat, write: Write, compaction: Compaction) returns (ok: bool)
      requires isOpen
      modifies this
      ensures Outcome(Model(), ok) == ExpireStep(cfg, old(Model()), Expire(cutoffMs, appends, write, compaction))
    {
      var ids := ExpiredBelow(pending, cutoffMs, nextId + 1);
      ok := RemoveEntries(ids, appends, write);
      if ok && logBytes > cfg.maxLogBytes {
        ok := CompactLog(compaction);
      }
    }
  }

  lemma RemoveFirstNext(cfg: Config, s: State, ids: seq<nat>, k: nat, appends: nat, write: Write, now: State)
    requires k < |ids| && RemoveFirst(cfg, s, ids, k, appends, write) == Outcome(now, true)
    ensures RemoveFirst(cfg, s, ids, k + 1, appends, write)
         == if ids[k] in now.pending then Remove(cfg, now, ids[k], WriteAt(k, appends, write)) else Outcome(now, true)
  {
  }

  lemma {:induction false} RemoveFirstStuck(
    cfg: Config, s: State, ids: seq<nat>, count: nat, more: nat, appends: nat, write: Write)
    requires count <= more <= |ids| && !RemoveFirst(cfg, s, ids, count, appends, write).ok
    ensures RemoveFirst(cfg, s, ids, more, appends, write) == RemoveFirst(cfg, s, ids, count, appends, write)
    decreases more
  {
    if count < more {
      RemoveFirstStuck(cfg, s, ids, count, more - 1, appends, write);
    }
  }
}
