/** What every run of the edge-sync queue keeps, with and without failing writes. */
module EdgeQueueTheorems {
  import opened Common
  import opened EdgeQueueSpec

  /** Everything in `a` is in `b`, up to retry fields. */
  ghost predicate Contained(a: map<nat, Core>, b: map<nat, Entry>) {
    forall id :: id in a ==> id in b && b[id].core == a[id]
  }

  ghost function Cores(m: map<nat, Entry>): map<nat, Core> {
    map id | id in m :: m[id].core
  }

  /**
   What holds whatever fails. `promised` are the entries whose enqueue succeeded and that were
   neither acknowledged nor expired since; `limit` bounds the ids handed out so far.
   */
  ghost predicate Safe(cfg: Config, s: State, promised: map<nat, Core>, limit: nat) {
    && Keyed(s.pending) && Within(s.pending, s.nextId) && PutsWithin(s.disk, s.nextId) && 1 <= s.nextId <= limit
    && Contained(promised, Replay(s.disk))
    && (s.isOpen ==>
          && Contained(promised, s.pending)
          && (s.attached ==> Contained(Cores(s.pending), Replay(s.disk)))
          && (!s.attached ==> s.logBytes > cfg.maxLogBytes)
          && BytesBelow(s.pending, limit) <= s.queuedBytes)
  }

  /** What a step from `s` with outcome `r` adds to and takes from the promises. */
  ghost function Promise(s: State, e: Event, r: Outcome, promised: map<nat, Core>): map<nat, Core> {
    if !s.isOpen then promised
    else if e.Enqueue? && r.ok then promised[s.nextId := Core(s.nextId, e.body, e.bytes, e.nowMs)]
    else if e.AckEntry? then promised - {e.id}
    else if e.Expire? then
      map id | id in promised && (promised[id].enqueuedMs >= e.cutoffMs || id in r.state.pending) :: promised[id]
    else promised
  }

  /** The promises about entries that are still pending. */
  ghost function Kept(promised: map<nat, Core>, pending: map<nat, Entry>): map<nat, Core> {
    map id | id in promised && id in pending :: promised[id]
  }

  lemma AllKept(promised: map<nat, Core>, pending: map<nat, Entry>)
    requires Contained(promised, pending)
    ensures Kept(promised, pending) == promised
  {
  }

  lemma KeptWithout(promised: map<nat, Core>, pending: map<nat, Entry>, id: nat)
    ensures Kept(promised, pending) - {id} == Kept(promised, pending - {id})
  {
  }

  // ----- Whatever fails -----

  lemma CompactSafe(cfg: Config, s: State, how: Compaction, promised: map<nat, Core>, limit: nat)
    requires Safe(cfg, s, promised, limit) && s.isOpen && s.logBytes > cfg.maxLogBytes
    ensures Safe(cfg, Compact(cfg, s, how).state, promised, limit)
    ensures Compact(cfg, s, how).state.pending == s.pending && Compact(cfg, s, how).state.isOpen
  {
    CompactedReplay(s.pending, s.nextId + 1);
    PutsInside(s.pending, s.nextId + 1, s.nextId);
  }

  lemma CompactIfLargeSafe(cfg: Config, s: State, how: Compaction, promised: map<nat, Core>, limit: nat)
    requires Safe(cfg, s, promised, limit) && s.isOpen
    ensures Safe(cfg, CompactIfLarge(cfg, s, how).state, promised, limit)
    ensures CompactIfLarge(cfg, s, how).state.pending == s.pending && CompactIfLarge(cfg, s, how).state.isOpen
  {
    if s.logBytes > cfg.maxLogBytes {
      CompactSafe(cfg, s, how, promised, limit);
    }
  }

  /** A successful compaction puts every pending entry on disk. */
  lemma CompactionPublishes(cfg: Config, s: State, how: Compaction)
    requires Keyed(s.pending) && Within(s.pending, s.nextId + 1)
    requires !s.attached ==> s.logBytes > cfg.maxLogBytes
    requires s.attached ==> Contained(Cores(s.pending), Replay(s.disk))
    ensures var r := CompactIfLarge(cfg, s, how); r.ok ==> r.state.attached && Contained(Cores(s.pending), Replay(r.state.disk))
  {
    if s.logBytes > cfg.maxLogBytes {
      CompactedReplay(s.pending, s.nextId + 1);
    }
  }

  /** The state right after an entry was logged and added, before any compaction. */
  ghost function WithEntry(cfg: Config, s: State, entry: Entry): State {
    Appended(cfg, s.(nextId := Min(s.nextId + 1, U64_MAX)), Put(entry), Complete).(
      queuedBytes := s.queuedBytes + entry.core.bytes, pending := s.pending[entry.core.id := entry])
  }

  lemma WithEntrySafe(cfg: Config, s: State, entry: Entry, promised: map<nat, Core>, limit: nat)
    requires Safe(cfg, s, promised, limit) && s.isOpen && limit < U64_MAX && entry.core.id == s.nextId
    ensures Safe(cfg, WithEntry(cfg, s, entry), promised, limit + 1)
  {
    BytesAdded(s.pending, entry, limit);
    ReplayPieces(s.disk, Put(entry), Complete);
  }

  /** The state after an append that failed: the id is used up, and part of the record may be in the file. */
  ghost function NotAdded(cfg: Config, s: State, entry: Entry, write: Write): State {
    Appended(cfg, s.(nextId := Min(s.nextId + 1, U64_MAX)), Put(entry), write)
  }

  lemma NotAddedSafe(cfg: Config, s: State, entry: Entry, write: Write, promised: map<nat, Core>, limit: nat)
    requires Safe(cfg, s, promised, limit) && s.isOpen && limit < U64_MAX && entry.core.id == s.nextId && !write.Complete?
    ensures Safe(cfg, NotAdded(cfg, s, entry, write), promised, limit + 1)
  {
    BytesBeyond(s.pending, limit, limit + 1);
    ReplayPieces(s.disk, Put(entry), write);
    ReplayWithin(s.disk, s.nextId);
  }

  lemma {:induction false} ReplayWithin(log: seq<Piece>, limit: nat)
    requires PutsWithin(log, limit)
    ensures Within(Replay(log), limit)
    decreases |log|
  {
    if log != [] {
      ReplayWithin(log[..|log| - 1], limit);
    }
  }

  lemma SafeForLonger(cfg: Config, s: State, promised: map<nat, Core>, limit: nat)
    requires Safe(cfg, s, promised, limit)
    ensures Safe(cfg, s, promised, limit + 1)
  {
    BytesBeyond(s.pending, limit, limit + 1);
  }

  predicate Accepted(cfg: Config, s: State, e: Event)
    requires e.Enqueue?
  {
    e.bytes <= cfg.maxRecordBytes && |s.pending| < cfg.maxEntries && s.queuedBytes + e.bytes <= cfg.maxBytes
  }

  function EntryOf(s: State, e: Event): Entry
    requires e.Enqueue?
  {
    Entry(Core(s.nextId, e.body, e.bytes, e.nowMs), 0, e.nowMs)
  }

  lemma EnqueueForms(cfg: Config, s: State, e: Event)
    requires e.Enqueue?
    ensures EnqueueStep(cfg, s, e) ==
            if !Accepted(cfg, s, e) then Outcome(s, false)
            else if !e.write.Complete? then Outcome(NotAdded(cfg, s, EntryOf(s, e), e.write), false)
            else CompactIfLarge(cfg, WithEntry(cfg, s, EntryOf(s, e)), e.compaction)
  {
  }

  lemma CompactedEnqueueSafe(cfg: Config, s: State, e: Event, promised: map<nat, Core>, limit: nat)
    requires e.Enqueue? && s.isOpen && Safe(cfg, s, promised, limit) && limit < U64_MAX
    ensures
      var r := CompactIfLarge(cfg, WithEntry(cfg, s, EntryOf(s, e)), e.compaction);
      Safe(cfg, r.state, Promise(s, e, r, promised), limit + 1)
  {
    var entry := EntryOf(s, e);
    var added := WithEntry(cfg, s, entry);
    WithEntrySafe(cfg, s, entry, promised, limit);
    CompactIfLargeSafe(cfg, added, e.compaction, promised, limit + 1);
    var r := CompactIfLarge(cfg, added, e.compaction);
    if r.ok {
      CompactionPublishes(cfg, added, e.compaction);
      assert Cores(added.pending)[s.nextId] == entry.core;
    }
  }

  lemma EnqueueSafe(cfg: Config, s: State, e: Event, promised: map<nat, Core>, limit: nat)
    requires e.Enqueue? && s.isOpen && Safe(cfg, s, promised, limit) && limit < U64_MAX
    ensures var r := EnqueueStep(cfg, s, e); Safe(cfg, r.state, Promise(s, e, r, promised), limit + 1)
  {
    EnqueueForms(cfg, s, e);
    if !Accepted(cfg, s, e) {
      SafeForLonger(cfg, s, promised, limit);
    } else if e.write.Complete? {
      CompactedEnqueueSafe(cfg, s, e, promised, limit);
    } else {
      NotAddedSafe(cfg, s, EntryOf(s, e), e.write, promised, limit);
    }
  }

  lemma RemoveSafe(cfg: Config, s: State, id: nat, write: Write, promised: map<nat, Core>, limit: nat)
    requires Safe(cfg, s, promised, limit) && s.isOpen && id in s.pending
    ensures Safe(cfg, Remove(cfg, s, id, write).state, promised - {id}, limit)
    ensures Remove(cfg, s, id, write).state.isOpen
  {
    BytesRemoved(s.pending, id, limit);
    ReplayPieces(s.disk, Ack(id), write);
  }

  lemma BytesRemoved(pending: map<nat, Entry>, id: nat, limit: nat)
    requires id in pending
    ensures BytesBelow(pending - {id}, limit) + (if id < limit then pending[id].core.bytes else 0) == BytesBelow(pending, limit)
  {
    BytesUpdate(pending, pending - {id}, id, limit);
  }

  lemma AckSafe(cfg: Config, s: State, e: Event, promised: map<nat, Core>, limit: nat)
    requires e.AckEntry? && s.isOpen && Safe(cfg, s, promised, limit)
    ensures var r := AckStep(cfg, s, e); Safe(cfg, r.state, Promise(s, e, r, promised), limit)
  {
    if e.id !in s.pending {
      assert promised - {e.id} == promised;
    } else {
      var removed := Remove(cfg, s, e.id, e.write);
      RemoveSafe(cfg, s, e.id, e.write, promised, limit);
      CompactIfLargeSafe(cfg, removed.state, e.compaction, promised - {e.id}, limit);
    }
  }

  lemma RescheduleSafe(cfg: Config, s: State, e: Event, promised: map<nat, Core>, limit: nat)
    requires e.Reschedule? && s.isOpen && Safe(cfg, s, promised, limit)
    ensures var r := RescheduleStep(s, e); Safe(cfg, r.state, Promise(s, e, r, promised), limit)
    ensures Cores(RescheduleStep(s, e).state.pending) == Cores(s.pending)
  {
    var r := RescheduleStep(s, e);
    BytesUpdate(s.pending, r.state.pending, e.id, limit);
  }

  lemma {:induction false} RemoveFirstSafe(cfg: Config, s: State, ids: seq<nat>, count: nat, appends: nat,
                                           write: Write, promised: map<nat, Core>, limit: nat)
    requires Safe(cfg, s, promised, limit) && s.isOpen && count <= |ids|
    ensures var r := RemoveFirst(cfg, s, ids, count, appends, write);
            r.state.isOpen && Safe(cfg, r.state, Kept(promised, r.state.pending), limit)
    decreases count
  {
    if count == 0 {
      AllKept(promised, s.pending);
    } else {
      RemoveFirstSafe(cfg, s, ids, count - 1, appends, write, promised, limit);
      var before := RemoveFirst(cfg, s, ids, count - 1, appends, write);
      var id := ids[count - 1];
      if before.ok && id in before.state.pending {
        var kept := Kept(promised, before.state.pending);
        var last := WriteAt(count - 1, appends, write);
        RemoveSafe(cfg, before.state, id, last, kept, limit);
        KeptWithout(promised, before.state.pending, id);
      }
    }
  }

  lemma ExpireSafe(cfg: Config, s: State, e: Event, promised: map<nat, Core>, limit: nat)
    requires e.Expire? && s.isOpen && Safe(cfg, s, promised, limit)
    ensures var r := ExpireStep(cfg, s, e); Safe(cfg, r.state, Promise(s, e, r, promised), limit)
  {
    var ids := ExpiredBelow(s.pending, e.cutoffMs, s.nextId + 1);
    var removed := RemoveFirst(cfg, s, ids, |ids|, e.appends, e.write);
    RemoveFirstSafe(cfg, s, ids, |ids|, e.appends, e.write, promised, limit);
    CompactIfLargeSafe(cfg, removed.state, e.compaction, Kept(promised, removed.state.pending), limit);
    RemoveFirstKeeps(cfg, s, ids, |ids|, e.appends, e.write);
    var r := ExpireStep(cfg, s, e);
    assert Promise(s, e, r, promised) == Kept(promised, removed.state.pending);
  }

  /** Only listed entries are removed. */
  lemma {:induction false} RemoveFirstKeeps(cfg: Config, s: State, ids: seq<nat>, count: nat, appends: nat, write: Write)
    requires count <= |ids|
    ensures var r := RemoveFirst(cfg, s, ids, count, appends, write);
            forall id :: id in s.pending && id !in ids ==> id in r.state.pending && r.state.pending[id] == s.pending[id]
    decreases count
  {
    if count > 0 {
      RemoveFirstKeeps(cfg, s, ids, count - 1, appends, write);
      assert ids[count - 1] in ids;
    }
  }

  lemma OpenSafe(cfg: Config, s: State, how: Compaction, promised: map<nat, Core>, limit: nat)
    requires Safe(cfg, s, promised, limit) && limit <= U64_MAX
    ensures Safe(cfg, OpenStep(cfg, s.disk, how).state, promised, limit)
  {
    var pending, nextId := Replay(s.disk), NextIdOf(s.disk);
    ReplayKeyed(s.disk);
    NextIdFresh(s.disk, limit);
    BytesBeyond(pending, nextId, limit);
    BytesBeyond(pending, nextId, nextId + 1);
    var loaded := State(true, pending, s.disk, true, BytesBelow(pending, nextId + 1), LogBytes(cfg, s.disk), nextId);
    assert Contained(Cores(pending), Replay(s.disk));
    if Readable(s.disk) {
      CompactIfLargeSafe(cfg, loaded, how, promised, limit);
    }
  }

  lemma NextSafe(cfg: Config, s: State, e: Event, promised: map<nat, Core>, limit: nat)
    requires Safe(cfg, s, promised, limit) && limit < U64_MAX
    ensures var r := Next(cfg, s, e); Safe(cfg, r.state, Promise(s, e, r, promised), limit + 1)
  {
    if e.CrashAndOpen? {
      OpenSafe(cfg, s, e.compaction, promised, limit);
    } else if !s.isOpen {
    } else if e.Enqueue? {
      EnqueueSafe(cfg, s, e, promised, limit);
      return;
    } else if e.AckEntry? {
      AckSafe(cfg, s, e, promised, limit);
    } else if e.Reschedule? {
      RescheduleSafe(cfg, s, e, promised, limit);
    } else {
      ExpireSafe(cfg, s, e, promised, limit);
    }
    var r := Next(cfg, s, e);
    SafeForLonger(cfg, r.state, Promise(s, e, r, promised), limit);
  }

  // ----- Whole runs -----

  /** A new queue on an empty path. */
  function Created(): State {
    State(true, map[], [], true, 0, 0, 1)
  }

  ghost function Final(cfg: Config, events: seq<Event>): State {
    if events == [] then Created() else Next(cfg, Final(cfg, events[..|events| - 1]), events[|events| - 1]).state
  }

  /** The entries whose enqueue succeeded and that were neither acknowledged nor expired since. */
  ghost function Promised(cfg: Config, events: seq<Event>): map<nat, Core> {
    if events == [] then map[]
    else
      var s, e := Final(cfg, events[..|events| - 1]), events[|events| - 1];
      Promise(s, e, Next(cfg, s, e), Promised(cfg, events[..|events| - 1]))
  }

  /**
   Whatever appends and compactions fail, however they fail, and wherever the process stops: the record
   of an entry whose enqueue succeeded is still in the file until it is acknowledged or expires. While
   the queue writes to its own file, the records of all of its entries are in that file.
   */
  lemma {:induction false} NothingPromisedIsLost(cfg: Config, events: seq<Event>)
    requires |events| < U64_MAX
    ensures Safe(cfg, Final(cfg, events), Promised(cfg, events), |events| + 1)
    decreases |events|
  {
    if events != [] {
      var front := events[..|events| - 1];
      NothingPromisedIsLost(cfg, front);
      NextSafe(cfg, Final(cfg, front), events[|events| - 1], Promised(cfg, front), |front| + 1);
    }
  }

  // ----- When the file opens -----

  /**
   Opening succeeds exactly when the file is readable and the compaction of a long one succeeds, and
   then every promise is queued again.
   */
  lemma OpensExactly(cfg: Config, events: seq<Event>, how: Compaction)
    requires |events| < U64_MAX
    ensures
      var s, promised := Final(cfg, events), Promised(cfg, events);
      var reopened := OpenStep(cfg, s.disk, how);
      && (reopened.ok <==> Readable(s.disk) && (LogBytes(cfg, s.disk) <= cfg.maxLogBytes || how.Done?))
      && (reopened.ok ==> reopened.state.isOpen && Contained(promised, reopened.state.pending))
      && (Contained(promised, reopened.state.pending) <==> Readable(s.disk) || promised == map[])
  {
    NothingPromisedIsLost(cfg, events);
    var s, promised := Final(cfg, events), Promised(cfg, events);
    if !Readable(s.disk) && promised != map[] {
      var id :| id in promised;
      assert id !in OpenStep(cfg, s.disk, how).state.pending;
    }
  }

  /** A queue that could not be opened because its file is unreadable stays closed, and the file as it is. */
  lemma UnreadableForGood(cfg: Config, s: State, e: Event)
    requires !s.isOpen && !Readable(s.disk)
    ensures !Next(cfg, s, e).state.isOpen && Next(cfg, s, e).state.disk == s.disk
  {
  }

  // ----- When all writes succeed -----

  /** The log says exactly what the map says, and the accounting is exact. */
  ghost predicate Exact(cfg: Config, s: State, limit: nat) {
    && s.isOpen && s.attached && 1 <= s.nextId <= limit
    && LogHolds(s.disk, s.pending, s.nextId) && Counted(cfg, s.pending, s.queuedBytes, limit)
  }

  ghost predicate LogHolds(disk: seq<Piece>, pending: map<nat, Entry>, nextId: nat) {
    && AllLines(disk) && Keyed(pending) && Within(pending, nextId) && PutsWithin(disk, nextId)
    && Cores(Replay(disk)) == Cores(pending)
  }

  ghost predicate Counted(cfg: Config, pending: map<nat, Entry>, queuedBytes: nat, limit: nat) {
    queuedBytes == BytesBelow(pending, limit) <= cfg.maxBytes && |pending| <= cfg.maxEntries
  }

  /** No append of this step fails, and neither does a compaction. */
  ghost predicate Succeeds(s: State, e: Event) {
    match e
    case Enqueue(_, _, _, write, compaction) => write.Complete? && compaction.Done?
    case AckEntry(_, write, compaction) => write.Complete? && compaction.Done?
    case Reschedule(_, _, _) => true
    case Expire(cutoffMs, appends, _, compaction) =>
      appends >= |ExpiredBelow(s.pending, cutoffMs, s.nextId + 1)| && compaction.Done?
    case CrashAndOpen(compaction) => compaction.Done?
  }

  lemma SameCoresSameBytes(a: map<nat, Entry>, b: map<nat, Entry>, n: nat)
    requires Cores(a) == Cores(b)
    ensures BytesBelow(a, n) == BytesBelow(b, n) && |a| == |b|
  {
    assert a.Keys == Cores(a).Keys == Cores(b).Keys == b.Keys;
    assert |a| == |a.Keys| && |b| == |b.Keys|;
    CoresAgree(a, b);
    BytesUpdate(a, b, n, n);
  }

  lemma CoresAgree(a: map<nat, Entry>, b: map<nat, Entry>)
    requires Cores(a) == Cores(b)
    ensures forall id :: (id in a <==> id in b) && (id in a ==> a[id].core == b[id].core)
  {
    forall id ensures (id in a <==> id in b) && (id in a ==> a[id].core == b[id].core) {
      assert id in Cores(a) <==> id in Cores(b);
      if id in a {
        assert Cores(a)[id] == Cores(b)[id];
      }
    }
  }

  lemma CompactIfLargeExact(cfg: Config, s: State, limit: nat)
    requires Exact(cfg, s, limit)
    ensures var r := CompactIfLarge(cfg, s, Done); r.ok && Exact(cfg, r.state, limit)
  {
    CompactedLog(s.pending, s.nextId);
  }

  lemma CompactedLog(pending: map<nat, Entry>, nextId: nat)
    requires Keyed(pending) && Within(pending, nextId)
    ensures LogHolds(PutsBelow(pending, nextId + 1), pending, nextId)
  {
    CompactedReplay(pending, nextId + 1);
    PutsInside(pending, nextId + 1, nextId);
  }

  lemma ExactForLonger(cfg: Config, s: State, limit: nat)
    requires Exact(cfg, s, limit)
    ensures Exact(cfg, s, limit + 1)
  {
    BytesBeyond(s.pending, limit, limit + 1);
  }

  lemma CoresPut(m: map<nat, Entry>, n: map<nat, Entry>, e: Entry)
    requires Cores(m) == Cores(n)
    ensures Cores(m[e.core.id := e]) == Cores(n[e.core.id := e])
    ensures Cores(m - {e.core.id}) == Cores(n - {e.core.id})
  {
    CoresAgree(m, n);
  }

  lemma WithEntryExact(cfg: Config, s: State, entry: Entry, limit: nat)
    requires Exact(cfg, s, limit) && limit < U64_MAX && entry.core.id == s.nextId
    requires |s.pending| < cfg.maxEntries && s.queuedBytes + entry.core.bytes <= cfg.maxBytes
    ensures Exact(cfg, WithEntry(cfg, s, entry), limit + 1)
  {
    LoggedEntry(s.disk, s.pending, s.nextId, entry);
    CountedEntry(cfg, s.pending, s.queuedBytes, entry, limit);
  }

  lemma LoggedEntry(disk: seq<Piece>, pending: map<nat, Entry>, nextId: nat, entry: Entry)
    requires LogHolds(disk, pending, nextId) && entry.core.id == nextId
    ensures LogHolds(disk + [Line(Put(entry))], pending[nextId := entry], nextId + 1)
  {
    AppendedCores(disk, pending, entry);
    PutsWithinAppend(disk, entry, nextId);
  }

  lemma PutsWithinAppend(disk: seq<Piece>, entry: Entry, nextId: nat)
    requires PutsWithin(disk, nextId) && entry.core.id == nextId && AllLines(disk)
    ensures PutsWithin(disk + [Line(Put(entry))], nextId + 1) && AllLines(disk + [Line(Put(entry))])
  {
  }

  lemma CountedEntry(cfg: Config, pending: map<nat, Entry>, queuedBytes: nat, entry: Entry, limit: nat)
    requires Counted(cfg, pending, queuedBytes, limit) && Within(pending, entry.core.id) && entry.core.id <= limit
    requires |pending| < cfg.maxEntries && queuedBytes + entry.core.bytes <= cfg.maxBytes
    ensures Counted(cfg, pending[entry.core.id := entry], queuedBytes + entry.core.bytes, limit + 1)
  {
    BytesAdded(pending, entry, limit);
    assert pending[entry.core.id := entry].Keys == pending.Keys + {entry.core.id};
  }

  lemma BytesAdded(pending: map<nat, Entry>, entry: Entry, limit: nat)
    requires Within(pending, entry.core.id) && entry.core.id <= limit
    ensures BytesBelow(pending[entry.core.id := entry], limit + 1) == BytesBelow(pending, limit) + entry.core.bytes
  {
    var id := entry.core.id;
    assert id !in pending;
    BytesBeyond(pending, id, limit);
    BytesBeyond(pending, id, limit + 1);
    BytesUpdate(pending, pending[id := entry], id, limit + 1);
  }

  lemma AppendedCores(disk: seq<Piece>, pending: map<nat, Entry>, entry: Entry)
    requires Cores(Replay(disk)) == Cores(pending)
    ensures Cores(Replay(disk + [Line(Put(entry))])) == Cores(pending[entry.core.id := entry])
    ensures Cores(Replay(disk + [Line(Ack(entry.core.id))])) == Cores(pending - {entry.core.id})
  {
    ReplayAppend(disk, Line(Put(entry)));
    ReplayAppend(disk, Line(Ack(entry.core.id)));
    CoresPut(Replay(disk), pending, entry);
  }

  lemma RemoveExact(cfg: Config, s: State, id: nat, limit: nat)
    requires Exact(cfg, s, limit) && id in s.pending
    ensures var r := Remove(cfg, s, id, Complete); r.ok && Exact(cfg, r.state, limit)
  {
    LoggedAck(s.disk, s.pending, s.nextId, id);
    CountedAck(cfg, s.pending, s.queuedBytes, id, limit);
  }

  lemma LoggedAck(disk: seq<Piece>, pending: map<nat, Entry>, nextId: nat, id: nat)
    requires LogHolds(disk, pending, nextId) && id in pending
    ensures LogHolds(disk + [Line(Ack(id))], pending - {id}, nextId)
  {
    AppendedCores(disk, pending, pending[id]);
  }

  lemma CountedAck(cfg: Config, pending: map<nat, Entry>, queuedBytes: nat, id: nat, limit: nat)
    requires Counted(cfg, pending, queuedBytes, limit) && Within(pending, limit) && id in pending
    ensures
      && queuedBytes >= pending[id].core.bytes
      && Counted(cfg, pending - {id}, queuedBytes - pending[id].core.bytes, limit)
  {
    BytesRemoved(pending, id, limit);
    assert (pending - {id}).Keys == pending.Keys - {id};
    assert |(pending - {id}).Keys| <= |pending.Keys|;
  }

  lemma {:induction false} RemoveFirstExact(
    cfg: Config, s: State, ids: seq<nat>, count: nat, appends: nat, write: Write, limit: nat)
    requires Exact(cfg, s, limit) && count <= |ids| <= appends
    ensures var r := RemoveFirst(cfg, s, ids, count, appends, write); r.ok && Exact(cfg, r.state, limit)
    decreases count
  {
    if count > 0 {
      RemoveFirstExact(cfg, s, ids, count - 1, appends, write, limit);
      var before := RemoveFirst(cfg, s, ids, count - 1, appends, write);
      RemoveNextExact(cfg, before.state, ids[count - 1], limit);
      assert WriteAt(count - 1, appends, write) == Complete;
    }
  }

  lemma RemoveNextExact(cfg: Config, s: State, id: nat, limit: nat)
    requires Exact(cfg, s, limit)
    ensures var r := if id in s.pending then Remove(cfg, s, id, Complete) else Outcome(s, true); r.ok && Exact(cfg, r.state, limit)
  {
    if id in s.pending {
      RemoveExact(cfg, s, id, limit);
    }
  }

  lemma RescheduleExact(cfg: Config, s: State, e: Event, limit: nat)
    requires e.Reschedule? && Exact(cfg, s, limit)
    ensures Exact(cfg, RescheduleStep(s, e).state, limit)
  {
    var r := RescheduleStep(s, e);
    BytesUpdate(s.pending, r.state.pending, e.id, limit);
    assert r.state.pending.Keys == s.pending.Keys;
    assert |r.state.pending| == |r.state.pending.Keys| == |s.pending|;
    assert Cores(r.state.pending) == Cores(s.pending);
  }

  lemma OpenExact(cfg: Config, s: State, limit: nat)
    requires Exact(cfg, s, limit) && limit <= U64_MAX
    ensures var r := OpenStep(cfg, s.disk, Done); r.ok && Exact(cfg, r.state, limit)
    ensures Cores(OpenStep(cfg, s.disk, Done).state.pending) == Cores(s.pending)
  {
    var pending, nextId := Replay(s.disk), NextIdOf(s.disk);
    ReplayKeyed(s.disk);
    NextIdFresh(s.disk, limit);
    SameCoresSameBytes(pending, s.pending, limit);
    BytesBeyond(pending, nextId, limit);
    BytesBeyond(pending, nextId, nextId + 1);
    var loaded := State(true, pending, s.disk, true, BytesBelow(pending, nextId + 1), LogBytes(cfg, s.disk), nextId);
    CompactIfLargeExact(cfg, loaded, limit);
  }

  lemma EnqueueExact(cfg: Config, s: State, e: Event, limit: nat)
    requires Exact(cfg, s, limit) && e.Enqueue? && Succeeds(s, e) && limit < U64_MAX
    ensures Exact(cfg, EnqueueStep(cfg, s, e).state, limit + 1)
  {
    EnqueueForms(cfg, s, e);
    if Accepted(cfg, s, e) {
      WithEntryExact(cfg, s, EntryOf(s, e), limit);
      CompactIfLargeExact(cfg, WithEntry(cfg, s, EntryOf(s, e)), limit + 1);
    } else {
      ExactForLonger(cfg, s, limit);
    }
  }

  lemma AckExact(cfg: Config, s: State, e: Event, limit: nat)
    requires Exact(cfg, s, limit) && e.AckEntry? && Succeeds(s, e)
    ensures Exact(cfg, AckStep(cfg, s, e).state, limit)
  {
    if e.id in s.pending {
      RemoveExact(cfg, s, e.id, limit);
      CompactIfLargeExact(cfg, Remove(cfg, s, e.id, Complete).state, limit);
    }
  }

  lemma ExpireExact(cfg: Config, s: State, e: Event, limit: nat)
    requires Exact(cfg, s, limit) && e.Expire? && Succeeds(s, e)
    ensures Exact(cfg, ExpireStep(cfg, s, e).state, limit)
  {
    var ids := ExpiredBelow(s.pending, e.cutoffMs, s.nextId + 1);
    RemoveFirstExact(cfg, s, ids, |ids|, e.appends, e.write, limit);
    CompactIfLargeExact(cfg, RemoveFirst(cfg, s, ids, |ids|, e.appends, e.write).state, limit);
  }

  lemma NextExact(cfg: Config, s: State, e: Event, limit: nat)
    requires Exact(cfg, s, limit) && Succeeds(s, e) && limit < U64_MAX
    ensures Exact(cfg, Next(cfg, s, e).state, limit + 1)
  {
    if e.Enqueue? {
      EnqueueExact(cfg, s, e, limit);
      return;
    }
    if e.AckEntry? {
      AckExact(cfg, s, e, limit);
    } else if e.Reschedule? {
      RescheduleExact(cfg, s, e, limit);
    } else if e.Expire? {
      ExpireExact(cfg, s, e, limit);
    } else {
      OpenExact(cfg, s, limit);
    }
    ExactForLonger(cfg, Next(cfg, s, e).state, limit);
  }

  ghost predicate AllSucceed(cfg: Config, events: seq<Event>) {
    forall k :: 0 <= k < |events| ==> Succeeds(Final(cfg, events[..k]), events[k])
  }

  /**
   In every run whose writes succeed, crashes included, replaying the file gives the pending
   entries up to retry fields, the byte count is their sum, and both limits hold.
   */
  lemma {:induction false} RunExact(cfg: Config, events: seq<Event>)
    requires |events| < U64_MAX && AllSucceed(cfg, events)
    ensures Exact(cfg, Final(cfg, events), |events| + 1)
    decreases |events|
  {
    if events != [] {
      var front := events[..|events| - 1];
      FrontSucceeds(cfg, events);
      RunExact(cfg, front);
      NextExact(cfg, Final(cfg, front), events[|events| - 1], |front| + 1);
    }
  }

  lemma FrontSucceeds(cfg: Config, events: seq<Event>)
    requires events != [] && AllSucceed(cfg, events)
    ensures AllSucceed(cfg, events[..|events| - 1])
    ensures Succeeds(Final(cfg, events[..|events| - 1]), events[|events| - 1])
  {
    var front := events[..|events| - 1];
    forall k | 0 <= k < |front| ensures Succeeds(Final(cfg, front[..k]), front[k]) {
      assert front[..k] == events[..k];
    }
  }

  // ----- Retries -----

  /** The state after the entry was rescheduled at each of the given times. */
  function Retried(s: State, id: nat, times: seq<nat>, maxBackoffSecs: nat): State {
    if times == [] then s
    else
      var before := Retried(s, id, times[..|times| - 1], maxBackoffSecs);
      RescheduleStep(before, Reschedule(id, times[|times| - 1], maxBackoffSecs)).state
  }

  /**
   The attempts count the failures so far, the wait doubles with each of them up to 2^16 seconds or
   the configured maximum, and nothing else in the queue changes.
   */
  lemma RetrySchedule(s: State, id: nat, times: seq<nat>, maxBackoffSecs: nat)
    requires id in s.pending && s.pending[id].attempts <= U32_MAX && times != []
    ensures
      var attempts := Min(s.pending[id].attempts + |times|, U32_MAX);
      var waited := Min(Pow2(Min(attempts, 16)), Max(maxBackoffSecs, 1));
      Retried(s, id, times, maxBackoffSecs) == s.(pending := s.pending[id := s.pending[id].(
        attempts := attempts, nextAttemptMs := Min(times[|times| - 1] + Min(waited * 1000, U64_MAX), U64_MAX))])
  {
    var entry := RetryAttempts(s, id, times[..|times| - 1], maxBackoffSecs);
    RetryAgain(s, id, entry, times[|times| - 1], maxBackoffSecs);
  }

  lemma RetryAgain(s: State, id: nat, entry: Entry, nowMs: nat, maxBackoffSecs: nat)
    ensures RescheduleStep(s.(pending := s.pending[id := entry]), Reschedule(id, nowMs, maxBackoffSecs)).state
         == s.(pending := s.pending[id := RetriedEntry(entry, nowMs, maxBackoffSecs)])
  {
    var retried := RetriedEntry(entry, nowMs, maxBackoffSecs);
    assert s.pending[id := entry][id := retried] == s.pending[id := retried];
  }

  lemma {:induction false} RetryAttempts(s: State, id: nat, times: seq<nat>, maxBackoffSecs: nat) returns (entry: Entry)
    requires id in s.pending && s.pending[id].attempts <= U32_MAX
    ensures Retried(s, id, times, maxBackoffSecs) == s.(pending := s.pending[id := entry])
    ensures entry.core == s.pending[id].core && entry.attempts == Min(s.pending[id].attempts + |times|, U32_MAX)
    decreases |times|
  {
    if times == [] {
      entry := s.pending[id];
      assert s.pending[id := entry] == s.pending;
    } else {
      var before := RetryAttempts(s, id, times[..|times| - 1], maxBackoffSecs);
      RetryAgain(s, id, before, times[|times| - 1], maxBackoffSecs);
      entry := RetriedEntry(before, times[|times| - 1], maxBackoffSecs);
    }
  }

  // ----- What failures do -----

  /** The acknowledgement got into the file, or a compaction replaced the file without the entry. */
  ghost predicate AckOnDisk(cfg: Config, s: State, e: Event)
    requires e.AckEntry?
  {
    || (s.attached && (e.write.Complete? || e.write.NoNewline?))
    || (e.write.Complete? && s.logBytes + cfg.recordBytes(Ack(e.id)) > cfg.maxLogBytes && !e.compaction.NotReplaced?)
  }

  /**
   An acknowledged entry is in the file afterwards exactly when it was before and neither the
   acknowledgement nor a compaction got there. So it is in a queue reopened from the file exactly when
   the file is readable and neither got there, and for an attached queue that is when nothing of the
   acknowledgement was written.
   */
  lemma AckReturnsExactly(cfg: Config, s: State, e: Event, promised: map<nat, Core>, limit: nat, how: Compaction)
    requires Safe(cfg, s, promised, limit) && s.isOpen && e.AckEntry? && e.id in s.pending
    ensures
      var r := AckStep(cfg, s, e);
      && e.id !in r.state.pending
      && (e.id in Replay(r.state.disk) <==> e.id in Replay(s.disk) && !AckOnDisk(cfg, s, e))
      && (e.id in OpenStep(cfg, r.state.disk, how).state.pending <==>
            Readable(r.state.disk) && e.id in Replay(s.disk) && !AckOnDisk(cfg, s, e))
    ensures
      s.attached && Readable(AckStep(cfg, s, e).state.disk) ==>
        (e.id in OpenStep(cfg, AckStep(cfg, s, e).state.disk, how).state.pending <==> e.write.Nothing?)
  {
    AckReplay(cfg, s, e, promised, limit);
    if s.attached {
      assert e.id in Cores(s.pending);
      if e.write.Partial? {
        AckTornUnreadable(cfg, s, e);
      }
    }
  }

  lemma AckReplay(cfg: Config, s: State, e: Event, promised: map<nat, Core>, limit: nat)
    requires Safe(cfg, s, promised, limit) && s.isOpen && e.AckEntry? && e.id in s.pending
    ensures
      var r := AckStep(cfg, s, e);
      e.id !in r.state.pending && (e.id in Replay(r.state.disk) <==> e.id in Replay(s.disk) && !AckOnDisk(cfg, s, e))
  {
    var removed := Remove(cfg, s, e.id, e.write).state;
    ReplayPieces(s.disk, Ack(e.id), e.write);
    if e.write.Complete? && removed.logBytes > cfg.maxLogBytes {
      CompactedReplay(removed.pending, removed.nextId + 1);
    }
  }

  lemma AckTornUnreadable(cfg: Config, s: State, e: Event)
    requires e.AckEntry? && e.id in s.pending && s.attached && e.write.Partial?
    ensures !Readable(AckStep(cfg, s, e).state.disk)
  {
    var disk := AckStep(cfg, s, e).state.disk;
    assert disk[|s.disk|].Torn?;
  }

  /** The bytes of an entry whose acknowledgement failed stay counted until the next open. */
  lemma FailedAckStaysCounted(cfg: Config, s: State, e: Event, limit: nat)
    requires Exact(cfg, s, limit) && e.AckEntry? && e.id in s.pending
    ensures
      var r := AckStep(cfg, s, e);
      r.state.queuedBytes == BytesBelow(r.state.pending, limit) + (if e.write.Complete? then 0 else s.pending[e.id].core.bytes)
  {
    BytesRemoved(s.pending, e.id, limit);
  }

  /**
   After a compaction whose file could not be reopened, an entry is missing from the file exactly
   when its enqueue reported the failure of the compaction that would have written it.
   */
  lemma DetachedEnqueue(cfg: Config, s: State, e: Event, promised: map<nat, Core>, limit: nat)
    requires Safe(cfg, s, promised, limit) && s.isOpen && !s.attached && e.Enqueue? && limit < U64_MAX
    requires Accepted(cfg, s, e) && e.write.Complete?
    ensures
      var r := EnqueueStep(cfg, s, e);
      && (r.ok <==> e.compaction.Done?)
      && (s.nextId in Replay(r.state.disk) <==> !e.compaction.NotReplaced?)
  {
    var entry := EntryOf(s, e);
    var added := WithEntry(cfg, s, entry);
    EnqueueForms(cfg, s, e);
    NextIdFresh(s.disk, s.nextId);
    WithEntrySafe(cfg, s, entry, promised, limit);
    CompactedReplay(added.pending, added.nextId + 1);
  }
}
