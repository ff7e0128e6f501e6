/**
 What the edge-sync queue does to its file: appends that may be cut short, and replacements. Over
 every run, which of them decide whether the file can be read back.
 */
module EdgeQueueFile {
  import opened Common
  import opened EdgeQueueSpec
  import opened EdgeQueueTheorems

  // ----- One operation -----

  /** How a log stands: whole lines only, a last record without its newline, or unreadable. */
  datatype Shape = Whole | NoEnd | Broken

  ghost function ShapeOf(log: seq<Piece>): Shape {
    if AllLines(log) then Whole else if Readable(log) then NoEnd else Broken
  }

  function ShapeAfter(shape: Shape, write: Write): Shape {
    match write
    case Nothing => shape
    case Complete => if shape.Whole? then Whole else Broken
    case NoNewline => if shape.Whole? then NoEnd else Broken
    case Partial(_) => Broken
  }

  /** An append to a log that has no whole last line breaks it, whether it succeeds or not. */
  lemma AppendShape(cfg: Config, s: State, r: Record, write: Write)
    requires s.attached
    ensures ShapeOf(Appended(cfg, s, r, write).disk) == ShapeAfter(ShapeOf(s.disk), write)
  {
    var log := s.disk + Pieces(r, write);
    assert forall k :: 0 <= k < |s.disk| ==> log[k] == s.disk[k];
    if !write.Nothing? {
      assert log[|s.disk|] == Pieces(r, write)[0];
    }
  }

  lemma {:induction false} PutsAreLines(pending: map<nat, Entry>, n: nat)
    ensures AllLines(PutsBelow(pending, n))
    decreases n
  {
    if n > 0 {
      PutsAreLines(pending, n - 1);
    }
  }

  /** Replacing the file mends it. */
  lemma CompactShape(cfg: Config, s: State, how: Compaction)
    ensures ShapeOf(Compact(cfg, s, how).state.disk) == if how.NotReplaced? then ShapeOf(s.disk) else Whole
  {
    PutsAreLines(s.pending, s.nextId + 1);
  }

  // ----- The operations of a run -----

  datatype FileOp = Written(write: Write) | Replaced

  function AppendOps(s: State, write: Write): seq<FileOp> {
    if s.attached then [Written(write)] else []
  }

  function CompactOps(cfg: Config, s: State, how: Compaction): seq<FileOp> {
    if s.logBytes > cfg.maxLogBytes && !how.NotReplaced? then [Replaced] else []
  }

  function RemoveFirstOps(cfg: Config, s: State, ids: seq<nat>, count: nat, appends: nat, write: Write): seq<FileOp>
    requires count <= |ids|
  {
    if count == 0 then []
    else
      var before := RemoveFirst(cfg, s, ids, count - 1, appends, write);
      var ops := RemoveFirstOps(cfg, s, ids, count - 1, appends, write);
      if !before.ok || ids[count - 1] !in before.state.pending then ops
      else ops + AppendOps(before.state, WriteAt(count - 1, appends, write))
  }

  ghost function EnqueueOps(cfg: Config, s: State, e: Event): seq<FileOp>
    requires e.Enqueue?
  {
    if !Accepted(cfg, s, e) then []
    else if !e.write.Complete? then AppendOps(s, e.write)
    else AppendOps(s, e.write) + CompactOps(cfg, WithEntry(cfg, s, EntryOf(s, e)), e.compaction)
  }

  ghost function AckOps(cfg: Config, s: State, e: Event): seq<FileOp>
    requires e.AckEntry?
  {
    if e.id !in s.pending then []
    else if !e.write.Complete? then AppendOps(s, e.write)
    else AppendOps(s, e.write) + CompactOps(cfg, Remove(cfg, s, e.id, e.write).state, e.compaction)
  }

  ghost function ExpireOps(cfg: Config, s: State, e: Event): seq<FileOp>
    requires e.Expire?
  {
    var ids := ExpiredBelow(s.pending, e.cutoffMs, s.nextId + 1);
    var removed := RemoveFirst(cfg, s, ids, |ids|, e.appends, e.write);
    var ops := RemoveFirstOps(cfg, s, ids, |ids|, e.appends, e.write);
    if removed.ok then ops + CompactOps(cfg, removed.state, e.compaction) else ops
  }

  /** What an event does to the file at the queue's path. */
  ghost function EventOps(cfg: Config, s: State, e: Event): seq<FileOp> {
    if e.CrashAndOpen? then
      if Readable(s.disk) && LogBytes(cfg, s.disk) > cfg.maxLogBytes && !e.compaction.NotReplaced? then [Replaced] else []
    else if !s.isOpen then []
    else if e.Enqueue? then EnqueueOps(cfg, s, e)
    else if e.AckEntry? then AckOps(cfg, s, e)
    else if e.Expire? then ExpireOps(cfg, s, e)
    else []
  }

  ghost function RunOps(cfg: Config, events: seq<Event>): seq<FileOp> {
    if events == [] then []
    else RunOps(cfg, events[..|events| - 1]) + EventOps(cfg, Final(cfg, events[..|events| - 1]), events[|events| - 1])
  }

  /** The appends since the file was last replaced. */
  function SinceReplaced(ops: seq<FileOp>): seq<Write> {
    if ops == [] || ops[|ops| - 1].Replaced? then []
    else SinceReplaced(ops[..|ops| - 1]) + [ops[|ops| - 1].write]
  }

  predicate WholeOrNothing(write: Write) {
    write.Complete? || write.Nothing?
  }

  ghost predicate AllWhole(writes: seq<Write>) {
    forall k :: 0 <= k < |writes| ==> WholeOrNothing(writes[k])
  }

  /** Append `k` is whole, or it lacks only its newline and nothing was written after it. */
  ghost predicate HarmlessAt(writes: seq<Write>, k: nat)
    requires k < |writes|
  {
    WholeOrNothing(writes[k]) || (writes[k].NoNewline? && forall j :: k < j < |writes| ==> writes[j].Nothing?)
  }

  ghost predicate Harmless(writes: seq<Write>) {
    forall k :: 0 <= k < |writes| ==> HarmlessAt(writes, k)
  }

  // ----- Folding them -----

  function Folded(shape: Shape, ops: seq<FileOp>): Shape {
    if ops == [] then shape
    else
      match ops[|ops| - 1]
      case Replaced => Whole
      case Written(write) => ShapeAfter(Folded(shape, ops[..|ops| - 1]), write)
  }

  lemma {:induction false} FoldedAppend(shape: Shape, a: seq<FileOp>, b: seq<FileOp>)
    ensures Folded(shape, a + b) == Folded(Folded(shape, a), b)
    decreases |b|
  {
    if b == [] {
      assert a + b == a;
    } else {
      FoldedAppend(shape, a, b[..|b| - 1]);
      assert (a + b)[..|a + b| - 1] == a + b[..|b| - 1];
    }
  }

  lemma HarmlessExtends(writes: seq<Write>, write: Write)
    ensures AllWhole(writes + [write]) <==> AllWhole(writes) && WholeOrNothing(write)
    ensures Harmless(writes + [write]) <==>
              if write.Nothing? then Harmless(writes) else AllWhole(writes) && !write.Partial?
  {
    var longer := writes + [write];
    assert longer[|writes|] == write;
    assert forall k :: 0 <= k < |writes| ==> longer[k] == writes[k];
    if Harmless(longer) {
      forall k | 0 <= k < |writes|
        ensures if write.Nothing? then HarmlessAt(writes, k) else WholeOrNothing(writes[k])
      {
        assert HarmlessAt(longer, k);
      }
      assert HarmlessAt(longer, |writes|);
    }
    if (if write.Nothing? then Harmless(writes) else AllWhole(writes) && !write.Partial?) {
      forall k | 0 <= k < |longer| ensures HarmlessAt(longer, k) {
        if k < |writes| && write.Nothing? {
          assert HarmlessAt(writes, k);
        }
      }
    }
  }

  lemma {:induction false} FoldedExactly(ops: seq<FileOp>)
    ensures Folded(Whole, ops).Whole? <==> AllWhole(SinceReplaced(ops))
    ensures Folded(Whole, ops).Broken? <==> !Harmless(SinceReplaced(ops))
    decreases |ops|
  {
    if ops != [] && ops[|ops| - 1].Written? {
      FoldedExactly(ops[..|ops| - 1]);
      HarmlessExtends(SinceReplaced(ops[..|ops| - 1]), ops[|ops| - 1].write);
    }
  }

  // ----- Steps do to the file what their operations say -----

  lemma AppendFolds(cfg: Config, s: State, r: Record, write: Write)
    ensures ShapeOf(Appended(cfg, s, r, write).disk) == Folded(ShapeOf(s.disk), AppendOps(s, write))
  {
    if s.attached {
      AppendShape(cfg, s, r, write);
      assert [Written(write)][..0] == [];
    }
  }

  lemma CompactFolds(cfg: Config, s: State, how: Compaction)
    ensures ShapeOf(CompactIfLarge(cfg, s, how).state.disk) == Folded(ShapeOf(s.disk), CompactOps(cfg, s, how))
  {
    CompactShape(cfg, s, how);
  }

  lemma {:induction false} RemoveFirstFolds(cfg: Config, s: State, ids: seq<nat>, count: nat, appends: nat, write: Write)
    requires count <= |ids|
    ensures ShapeOf(RemoveFirst(cfg, s, ids, count, appends, write).state.disk)
         == Folded(ShapeOf(s.disk), RemoveFirstOps(cfg, s, ids, count, appends, write))
    decreases count
  {
    if count > 0 {
      RemoveFirstFolds(cfg, s, ids, count - 1, appends, write);
      var before := RemoveFirst(cfg, s, ids, count - 1, appends, write);
      if before.ok && ids[count - 1] in before.state.pending {
        var id, how := ids[count - 1], WriteAt(count - 1, appends, write);
        AppendFolds(cfg, before.state.(pending := before.state.pending - {id}), Ack(id), how);
        FoldedAppend(ShapeOf(s.disk), RemoveFirstOps(cfg, s, ids, count - 1, appends, write), AppendOps(before.state, how));
      }
    }
  }

  lemma EnqueueFolds(cfg: Config, s: State, e: Event)
    requires e.Enqueue?
    ensures ShapeOf(EnqueueStep(cfg, s, e).state.disk) == Folded(ShapeOf(s.disk), EnqueueOps(cfg, s, e))
  {
    EnqueueForms(cfg, s, e);
    if Accepted(cfg, s, e) {
      var entry := EntryOf(s, e);
      AppendFolds(cfg, s.(nextId := Min(s.nextId + 1, U64_MAX)), Put(entry), e.write);
      if e.write.Complete? {
        var added := WithEntry(cfg, s, entry);
        CompactFolds(cfg, added, e.compaction);
        FoldedAppend(ShapeOf(s.disk), AppendOps(s, e.write), CompactOps(cfg, added, e.compaction));
      }
    }
  }

  lemma AckFolds(cfg: Config, s: State, e: Event)
    requires e.AckEntry?
    ensures ShapeOf(AckStep(cfg, s, e).state.disk) == Folded(ShapeOf(s.disk), AckOps(cfg, s, e))
  {
    if e.id in s.pending {
      AppendFolds(cfg, s.(pending := s.pending - {e.id}), Ack(e.id), e.write);
      if e.write.Complete? {
        var removed := Remove(cfg, s, e.id, e.write).state;
        CompactFolds(cfg, removed, e.compaction);
        FoldedAppend(ShapeOf(s.disk), AppendOps(s, e.write), CompactOps(cfg, removed, e.compaction));
      }
    }
  }

  lemma ExpireFolds(cfg: Config, s: State, e: Event)
    requires e.Expire?
    ensures ShapeOf(ExpireStep(cfg, s, e).state.disk) == Folded(ShapeOf(s.disk), ExpireOps(cfg, s, e))
  {
    var ids := ExpiredBelow(s.pending, e.cutoffMs, s.nextId + 1);
    var removed := RemoveFirst(cfg, s, ids, |ids|, e.appends, e.write);
    RemoveFirstFolds(cfg, s, ids, |ids|, e.appends, e.write);
    if removed.ok {
      CompactFolds(cfg, removed.state, e.compaction);
      FoldedAppend(ShapeOf(s.disk), RemoveFirstOps(cfg, s, ids, |ids|, e.appends, e.write),
                   CompactOps(cfg, removed.state, e.compaction));
    }
  }

  lemma NextFolds(cfg: Config, s: State, e: Event)
    ensures ShapeOf(Next(cfg, s, e).state.disk) == Folded(ShapeOf(s.disk), EventOps(cfg, s, e))
  {
    if e.CrashAndOpen? {
      var pending, nextId := Replay(s.disk), NextIdOf(s.disk);
      CompactFolds(
        cfg, State(true, pending, s.disk, true, BytesBelow(pending, nextId + 1), LogBytes(cfg, s.disk), nextId), e.compaction);
    } else if s.isOpen && e.Enqueue? {
      EnqueueFolds(cfg, s, e);
    } else if s.isOpen && e.AckEntry? {
      AckFolds(cfg, s, e);
    } else if s.isOpen && e.Expire? {
      ExpireFolds(cfg, s, e);
    }
  }

  lemma {:induction false} RunFolds(cfg: Config, events: seq<Event>)
    ensures ShapeOf(Final(cfg, events).disk) == Folded(Whole, RunOps(cfg, events))
    decreases |events|
  {
    if events != [] {
      var front, e := events[..|events| - 1], events[|events| - 1];
      RunFolds(cfg, front);
      NextFolds(cfg, Final(cfg, front), e);
      FoldedAppend(Whole, RunOps(cfg, front), EventOps(cfg, Final(cfg, front), e));
    }
  }

  // ----- Over every run -----

  /**
   The file can be read exactly when no append since it was last replaced was cut short, save one that
   lacked its newline and was the last to write. It opens exactly then, given that the compaction of a
   long one succeeds, and what was promised is queued again.
   */
  lemma PromisesReadExactly(cfg: Config, events: seq<Event>, how: Compaction)
    requires |events| < U64_MAX
    ensures
      var promised, harmless := Promised(cfg, events), Harmless(SinceReplaced(RunOps(cfg, events)));
      var disk := Final(cfg, events).disk;
      var reopened := OpenStep(cfg, disk, how);
      && (Readable(disk) <==> harmless)
      && (reopened.ok <==> harmless && (LogBytes(cfg, disk) <= cfg.maxLogBytes || how.Done?))
      && (reopened.ok ==> Contained(promised, reopened.state.pending))
      && (Contained(promised, reopened.state.pending) <==> harmless || promised == map[])
  {
    RunFolds(cfg, events);
    FoldedExactly(RunOps(cfg, events));
    OpensExactly(cfg, events, how);
  }

  /** The event never leaves part of a line: its appends are written whole or not at all. */
  predicate WritesWhole(e: Event) {
    (e.Enqueue? || e.AckEntry? || e.Expire?) ==> WholeOrNothing(e.write)
  }

  ghost predicate WholeOps(ops: seq<FileOp>) {
    forall k :: 0 <= k < |ops| && ops[k].Written? ==> WholeOrNothing(ops[k].write)
  }

  lemma {:induction false} WholeRemovals(cfg: Config, s: State, ids: seq<nat>, count: nat, appends: nat, write: Write)
    requires count <= |ids| && WholeOrNothing(write)
    ensures WholeOps(RemoveFirstOps(cfg, s, ids, count, appends, write))
    decreases count
  {
    if count > 0 {
      WholeRemovals(cfg, s, ids, count - 1, appends, write);
    }
  }

  lemma WholeEvent(cfg: Config, s: State, e: Event)
    requires WritesWhole(e)
    ensures WholeOps(EventOps(cfg, s, e))
  {
    if e.Expire? {
      var ids := ExpiredBelow(s.pending, e.cutoffMs, s.nextId + 1);
      WholeRemovals(cfg, s, ids, |ids|, e.appends, e.write);
    }
  }

  lemma {:induction false} WholeRun(cfg: Config, events: seq<Event>)
    requires forall k :: 0 <= k < |events| ==> WritesWhole(events[k])
    ensures WholeOps(RunOps(cfg, events))
    decreases |events|
  {
    if events != [] {
      WholeRun(cfg, events[..|events| - 1]);
      WholeEvent(cfg, Final(cfg, events[..|events| - 1]), events[|events| - 1]);
    }
  }

  lemma {:induction false} WholeSince(ops: seq<FileOp>)
    requires WholeOps(ops)
    ensures AllWhole(SinceReplaced(ops))
    decreases |ops|
  {
    if ops != [] && ops[|ops| - 1].Written? {
      WholeSince(ops[..|ops| - 1]);
    }
  }

  /** In particular every promise is kept if no append is cut short, whatever else fails. */
  lemma WholeWritesKeepPromises(cfg: Config, events: seq<Event>, how: Compaction)
    requires |events| < U64_MAX && forall k :: 0 <= k < |events| ==> WritesWhole(events[k])
    ensures
      var disk := Final(cfg, events).disk;
      var reopened := OpenStep(cfg, disk, how);
      && (LogBytes(cfg, disk) <= cfg.maxLogBytes || how.Done? ==> reopened.ok)
      && Contained(Promised(cfg, events), reopened.state.pending)
  {
    WholeRun(cfg, events);
    WholeSince(RunOps(cfg, events));
    PromisesReadExactly(cfg, events, how);
  }

  // ----- Runs that lose a promise -----

  lemma TwoEvents(cfg: Config, first: Event, second: Event)
    ensures
      var s := Next(cfg, Created(), first);
      var promised := Promise(Created(), first, s, map[]);
      && Final(cfg, [first, second]) == Next(cfg, s.state, second).state
      && Promised(cfg, [first, second]) == Promise(s.state, second, Next(cfg, s.state, second), promised)
  {
    var both := [first, second];
    assert both[..1] == [first] && [first][..0] == [];
    assert Final(cfg, [first]) == Next(cfg, Created(), first).state;
    assert Promised(cfg, [first]) == Promise(Created(), first, Next(cfg, Created(), first), map[]);
  }

  function Rows(body: int, write: Write): Event {
    Enqueue(body, 0, 0, write, Done)
  }

  /** The first enqueue on a new path, accepted and written. */
  lemma FirstEnqueue(cfg: Config, body: int)
    requires cfg.maxEntries > 0
    ensures
      var r := EnqueueStep(cfg, Created(), Rows(body, Complete));
      var put := Put(Entry(Core(1, body, 0, 0), 0, 0));
      && r.ok && r.state.isOpen && r.state.attached && r.state.disk == [Line(put)]
      && r.state.nextId == 2 && r.state.queuedBytes == 0 && |r.state.pending| == 1
  {
    var entry := Entry(Core(1, body, 0, 0), 0, 0);
    var pending: map<nat, Entry> := map[][1 := entry];
    assert PutsBelow(pending, 1) == [];
    assert PutsBelow(pending, 2) == [Line(Put(entry))];
    assert PutsBelow(pending, 3) == [Line(Put(entry))];
    assert |pending.Keys| == |{1}|;
  }

  /**
   A run that loses a promise: an append stops inside its record, and the file with the entry promised
   before cannot be opened any more.
   */
  lemma TornAppendLosesPromise(cfg: Config, bytes: Pos, how: Compaction)
    requires cfg.maxEntries >= 2
    ensures
      var events := [Rows(7, Complete), Rows(8, Partial(bytes))];
      1 in Promised(cfg, events) && !Readable(Final(cfg, events).disk)
      && 1 !in OpenStep(cfg, Final(cfg, events).disk, how).state.pending
  {
    TwoEvents(cfg, Rows(7, Complete), Rows(8, Partial(bytes)));
    FirstEnqueue(cfg, 7);
    var s := EnqueueStep(cfg, Created(), Rows(7, Complete)).state;
    var t := EnqueueStep(cfg, s, Rows(8, Partial(bytes))).state;
    assert t.disk == s.disk + [Torn(bytes)];
    assert t.disk[1].Torn?;
  }

  /**
   Another: an append lacks only its newline, so that the record of the next enqueue, which succeeds,
   lands on the same line.
   */
  lemma MissingNewlineLosesPromise(cfg: Config, how: Compaction)
    requires cfg.maxEntries >= 1 && cfg.recordBytes(Put(Entry(Core(2, 8, 0, 0), 0, 0))) <= cfg.maxLogBytes
    ensures
      var events := [Rows(7, NoNewline), Rows(8, Complete)];
      2 in Promised(cfg, events) && !Readable(Final(cfg, events).disk)
      && 2 !in OpenStep(cfg, Final(cfg, events).disk, how).state.pending
  {
    TwoEvents(cfg, Rows(7, NoNewline), Rows(8, Complete));
    var s := EnqueueStep(cfg, Created(), Rows(7, NoNewline)).state;
    var first := Unended(Put(Entry(Core(1, 7, 0, 0), 0, 0)));
    assert s.disk == [] + [first] == [first];
    var t := EnqueueStep(cfg, s, Rows(8, Complete)).state;
    assert t.disk == s.disk + [Line(Put(Entry(Core(2, 8, 0, 0), 0, 0)))];
    assert t.disk[0].Unended? && |t.disk| == 2;
  }
}
