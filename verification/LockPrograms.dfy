/**
 What the threads of the engine take and release, in order, and that every run of any number of them
 ends with all of them done. Programs are written with what comes after them as last argument.
 */
module LockPrograms {
  import opened LockProtocol
  import ShardLocks

  /** One batch of rows: its shards in lock order, and whether the memory budget is enforced after it. */
  datatype Batch = Batch(shards: seq<nat>, trims: bool)

  datatype Role =
    | Writer(invalidates: bool, batch: Batch)        // `insert_rows`
    | RollupPass(gated: bool, batches: seq<Batch>)   // the rollup worker, or a triggered pass
    | Snapshot                                       // `snapshot`: permits go back under the compaction gate
    | Close(passes: nat)                             // `close`
    | Maintenance(gated: bool, passes: nat)          // flush, refresh and compaction passes

  function LockShards(shards: seq<nat>, rest: seq<Op>): seq<Op> {
    if shards == [] then rest else [Lock(Shard(shards[0]))] + LockShards(shards[1..], rest)
  }

  function UnlockShards(shards: seq<nat>, rest: seq<Op>): seq<Op> {
    if shards == [] then rest else [Unlock(Shard(shards[0]))] + UnlockShards(shards[1..], rest)
  }

  function CompactionPasses(passes: nat, rest: seq<Op>): seq<Op> {
    if passes == 0 then rest else [Lock(Compaction)] + ([Unlock(Compaction)] + CompactionPasses(passes - 1, rest))
  }

  function GivePermits(count: nat, rest: seq<Op>): seq<Op> {
    if count == 0 then rest else [GivePermit] + GivePermits(count - 1, rest)
  }

  function Trim(batch: Batch, rest: seq<Op>): seq<Op> {
    CompactionPasses(if batch.trims then 1 else 0, rest)
  }

  function ShardSection(batch: Batch, rest: seq<Op>): seq<Op> {
    LockShards(batch.shards, UnlockShards(batch.shards, rest))
  }

  function WriteBatch(batch: Batch, rest: seq<Op>): seq<Op> {
    [TakePermit] + ShardSection(batch, [GivePermit] + Trim(batch, rest))
  }

  function WriteBatches(batches: seq<Batch>, rest: seq<Op>): seq<Op> {
    if batches == [] then rest else WriteBatch(batches[0], WriteBatches(batches[1..], rest))
  }

  function Gated(gated: bool, inner: seq<Op>): seq<Op> {
    if gated then [Lock(Gate)] + inner else inner
  }

  function Ungate(gated: bool): seq<Op> {
    if gated then [Unlock(Gate)] else []
  }

  /** A write that invalidates rollups takes the run lock before the permit and drops it before the permit. */
  function Program(role: Role, cap: nat): seq<Op> {
    match role
    case Writer(invalidates, batch) =>
      if invalidates then
        [Lock(RunLock)] + ([TakePermit] + ShardSection(batch, [Unlock(RunLock)] + ([GivePermit] + Trim(batch, []))))
      else WriteBatch(batch, [])
    case RollupPass(gated, batches) =>
      Gated(gated, [Lock(RunLock)] + WriteBatches(batches, [Unlock(RunLock)] + Ungate(gated)))
    case Snapshot =>
      [Lock(Gate)] + ([TakeAll] + ([Lock(Compaction)] + GivePermits(cap, [Unlock(Compaction)] + [Unlock(Gate)])))
    case Close(passes) =>
      [Lock(Gate)] + ([TakeAll] + CompactionPasses(passes, GivePermits(cap, [Unlock(Gate)])))
    case Maintenance(gated, passes) => Gated(gated, CompactionPasses(passes, Ungate(gated)))
  }

  /** Shards as `lock_write_shards_for_rows` takes them. */
  ghost predicate InLockOrder(batch: Batch) {
    ShardLocks.Ascending(batch.shards) && forall k :: 0 <= k < |batch.shards| ==> batch.shards[k] < ShardLocks.SHARD_COUNT
  }

  ghost predicate Plausible(role: Role) {
    match role
    case Writer(_, batch) => InLockOrder(batch)
    case RollupPass(_, batches) => forall k :: 0 <= k < |batches| ==> InLockOrder(batches[k])
    case Snapshot => true
    case Close(_) => true
    case Maintenance(_, _) => true
  }

  // ----- Every program keeps the order -----

  lemma Prepend(h: Held, op: Op, rest: seq<Op>, cap: nat)
    requires Legal(h, op) && Disciplined(After(h, op, cap), rest, cap)
    ensures Disciplined(h, [op] + rest, cap)
  {
    assert ([op] + rest)[1..] == rest;
  }

  ghost function Shards(shards: seq<nat>): set<Mutex> {
    set k | k in shards :: Shard(k)
  }

  lemma FirstShard(shards: seq<nat>)
    requires shards != [] && ShardLocks.Ascending(shards)
    ensures Shards(shards) == Shards(shards[1..]) + {Shard(shards[0])}
    ensures Shard(shards[0]) !in Shards(shards[1..])
    ensures ShardLocks.Ascending(shards[1..])
  {
    assert forall k :: k in shards <==> k == shards[0] || k in shards[1..];
  }

  lemma {:induction false} UnlockShardsDisciplined(h: Held, full: Held, shards: seq<nat>, rest: seq<Op>, cap: nat)
    requires ShardLocks.Ascending(shards) && forall m :: m in h.locks ==> !m.Shard?
    requires Disciplined(h, rest, cap) && full == h.(locks := h.locks + Shards(shards))
    ensures Disciplined(full, UnlockShards(shards, rest), cap)
    decreases |shards|
  {
    if shards == [] {
      assert full.locks == h.locks;
    } else {
      FirstShard(shards);
      var next := h.(locks := h.locks + Shards(shards[1..]));
      UnlockShardsDisciplined(h, next, shards[1..], rest, cap);
      assert After(full, Unlock(Shard(shards[0])), cap).locks == next.locks;
      Prepend(full, Unlock(Shard(shards[0])), UnlockShards(shards[1..], rest), cap);
    }
  }

  lemma {:induction false} LockShardsDisciplined(h: Held, full: Held, shards: seq<nat>, rest: seq<Op>, cap: nat)
    requires ShardLocks.Ascending(shards) && forall k :: 0 <= k < |shards| ==> shards[k] < ShardLocks.SHARD_COUNT
    requires forall m, k :: m in h.locks && 0 <= k < |shards| ==> MutexRank(m) < 3 + shards[k]
    requires full == h.(locks := h.locks + Shards(shards)) && Disciplined(full, rest, cap)
    ensures Disciplined(h, LockShards(shards, rest), cap)
    decreases |shards|
  {
    if shards == [] {
      assert full.locks == h.locks;
    } else {
      FirstShard(shards);
      var op := Lock(Shard(shards[0]));
      var next := After(h, op, cap);
      assert next.locks + Shards(shards[1..]) == full.locks;
      forall m, k | m in next.locks && 0 <= k < |shards[1..]| ensures MutexRank(m) < 3 + shards[1..][k] {
        assert shards[1..][k] == shards[k + 1];
      }
      LockShardsDisciplined(next, full, shards[1..], rest, cap);
      Prepend(h, op, LockShards(shards[1..], rest), cap);
    }
  }

  /** Locks of low rank only, as held around a permit. */
  ghost predicate Outer(h: Held) {
    forall m :: m in h.locks ==> m.Gate? || m.RunLock?
  }

  lemma ShardSectionDisciplined(h: Held, batch: Batch, rest: seq<Op>, cap: nat)
    requires InLockOrder(batch) && Outer(h) && Disciplined(h, rest, cap)
    ensures Disciplined(h, ShardSection(batch, rest), cap)
  {
    var full := h.(locks := h.locks + Shards(batch.shards));
    UnlockShardsDisciplined(h, full, batch.shards, rest, cap);
    LockShardsDisciplined(h, full, batch.shards, UnlockShards(batch.shards, rest), cap);
  }

  lemma {:induction false} CompactionPassesDisciplined(h: Held, passes: nat, rest: seq<Op>, cap: nat)
    requires Outer(h) && Disciplined(h, rest, cap)
    ensures Disciplined(h, CompactionPasses(passes, rest), cap)
    decreases passes
  {
    if passes > 0 {
      CompactionPassesDisciplined(h, passes - 1, rest, cap);
      var locked := After(h, Lock(Compaction), cap);
      assert After(locked, Unlock(Compaction), cap).locks == h.locks;
      Prepend(locked, Unlock(Compaction), CompactionPasses(passes - 1, rest), cap);
      Prepend(h, Lock(Compaction), [Unlock(Compaction)] + CompactionPasses(passes - 1, rest), cap);
    }
  }

  lemma {:induction false} GivePermitsDisciplined(h: Held, count: nat, rest: seq<Op>, cap: nat)
    requires h.permits == 0 && Disciplined(h, rest, cap)
    ensures Disciplined(h.(permits := count), GivePermits(count, rest), cap)
    decreases count
  {
    if count > 0 {
      GivePermitsDisciplined(h, count - 1, rest, cap);
      Prepend(h.(permits := count), GivePermit, GivePermits(count - 1, rest), cap);
    }
  }

  lemma WriteBatchDisciplined(h: Held, batch: Batch, rest: seq<Op>, cap: nat)
    requires InLockOrder(batch) && Outer(h) && h.permits == 0 && Disciplined(h, rest, cap)
    ensures Disciplined(h, WriteBatch(batch, rest), cap)
  {
    var one := h.(permits := 1);
    CompactionPassesDisciplined(h, if batch.trims then 1 else 0, rest, cap);
    Prepend(one, GivePermit, Trim(batch, rest), cap);
    ShardSectionDisciplined(one, batch, [GivePermit] + Trim(batch, rest), cap);
    Prepend(h, TakePermit, ShardSection(batch, [GivePermit] + Trim(batch, rest)), cap);
  }

  lemma {:induction false} WriteBatchesDisciplined(h: Held, batches: seq<Batch>, rest: seq<Op>, cap: nat)
    requires forall k :: 0 <= k < |batches| ==> InLockOrder(batches[k])
    requires Outer(h) && h.permits == 0 && Disciplined(h, rest, cap)
    ensures Disciplined(h, WriteBatches(batches, rest), cap)
    decreases |batches|
  {
    if batches != [] {
      WriteBatchesDisciplined(h, batches[1..], rest, cap);
      WriteBatchDisciplined(h, batches[0], WriteBatches(batches[1..], rest), cap);
    }
  }

  lemma InvalidatingWriterDisciplined(batch: Batch, cap: nat)
    requires InLockOrder(batch)
    ensures Disciplined(NOTHING, Program(Writer(true, batch), cap), cap)
  {
    var run, one := Held({RunLock}, 0), Held({}, 1);
    var tail := [GivePermit] + Trim(batch, []);
    CompactionPassesDisciplined(NOTHING, if batch.trims then 1 else 0, [], cap);
    Prepend(one, GivePermit, Trim(batch, []), cap);
    assert After(run.(permits := 1), Unlock(RunLock), cap).locks == {};
    Prepend(run.(permits := 1), Unlock(RunLock), tail, cap);
    ShardSectionDisciplined(run.(permits := 1), batch, [Unlock(RunLock)] + tail, cap);
    Prepend(run, TakePermit, ShardSection(batch, [Unlock(RunLock)] + tail), cap);
    assert After(NOTHING, Lock(RunLock), cap).locks == {RunLock};
    Prepend(NOTHING, Lock(RunLock), [TakePermit] + ShardSection(batch, [Unlock(RunLock)] + tail), cap);
  }

  lemma GatedDisciplined(gated: bool, inner: seq<Op>, cap: nat)
    requires Disciplined(if gated then Held({Gate}, 0) else NOTHING, inner, cap)
    ensures Disciplined(NOTHING, Gated(gated, inner), cap)
  {
    if gated {
      assert After(NOTHING, Lock(Gate), cap).locks == {Gate};
      Prepend(NOTHING, Lock(Gate), inner, cap);
    }
  }

  lemma UngateDisciplined(gated: bool, cap: nat)
    ensures Disciplined(if gated then Held({Gate}, 0) else NOTHING, Ungate(gated), cap)
  {
    if gated {
      assert After(Held({Gate}, 0), Unlock(Gate), cap).locks == {};
      Prepend(Held({Gate}, 0), Unlock(Gate), [], cap);
    }
  }

  lemma RollupPassDisciplined(gated: bool, batches: seq<Batch>, cap: nat)
    requires forall k :: 0 <= k < |batches| ==> InLockOrder(batches[k])
    ensures Disciplined(NOTHING, Program(RollupPass(gated, batches), cap), cap)
  {
    var outer := if gated then Held({Gate}, 0) else NOTHING;
    var run := outer.(locks := outer.locks + {RunLock});
    UngateDisciplined(gated, cap);
    assert After(run, Unlock(RunLock), cap).locks == outer.locks;
    Prepend(run, Unlock(RunLock), Ungate(gated), cap);
    WriteBatchesDisciplined(run, batches, [Unlock(RunLock)] + Ungate(gated), cap);
    Prepend(outer, Lock(RunLock), WriteBatches(batches, [Unlock(RunLock)] + Ungate(gated)), cap);
    GatedDisciplined(gated, [Lock(RunLock)] + WriteBatches(batches, [Unlock(RunLock)] + Ungate(gated)), cap);
  }

  lemma SnapshotDisciplined(cap: nat)
    ensures Disciplined(NOTHING, Program(Snapshot, cap), cap)
  {
    var gate, both := Held({Gate}, 0), Held({Gate, Compaction}, 0);
    UngateDisciplined(true, cap);
    assert After(both, Unlock(Compaction), cap).locks == {Gate};
    Prepend(both, Unlock(Compaction), [Unlock(Gate)], cap);
    GivePermitsDisciplined(both, cap, [Unlock(Compaction)] + [Unlock(Gate)], cap);
    var release := GivePermits(cap, [Unlock(Compaction)] + [Unlock(Gate)]);
    assert After(gate.(permits := cap), Lock(Compaction), cap) == both.(permits := cap);
    Prepend(gate.(permits := cap), Lock(Compaction), release, cap);
    Prepend(gate, TakeAll, [Lock(Compaction)] + release, cap);
    GatedDisciplined(true, [TakeAll] + ([Lock(Compaction)] + release), cap);
  }

  lemma CloseDisciplined(passes: nat, cap: nat)
    ensures Disciplined(NOTHING, Program(Close(passes), cap), cap)
  {
    var gate := Held({Gate}, 0);
    UngateDisciplined(true, cap);
    GivePermitsDisciplined(gate, cap, [Unlock(Gate)], cap);
    CompactionPassesDisciplined(gate.(permits := cap), passes, GivePermits(cap, [Unlock(Gate)]), cap);
    Prepend(gate, TakeAll, CompactionPasses(passes, GivePermits(cap, [Unlock(Gate)])), cap);
    GatedDisciplined(true, [TakeAll] + CompactionPasses(passes, GivePermits(cap, [Unlock(Gate)])), cap);
  }

  lemma ProgramDisciplined(role: Role, cap: nat)
    requires Plausible(role)
    ensures Disciplined(NOTHING, Program(role, cap), cap)
  {
    match role
    case Writer(invalidates, batch) =>
      if invalidates {
        InvalidatingWriterDisciplined(batch, cap);
      } else {
        WriteBatchDisciplined(NOTHING, batch, [], cap);
      }
    case RollupPass(gated, batches) => RollupPassDisciplined(gated, batches, cap);
    case Snapshot => SnapshotDisciplined(cap);
    case Close(passes) => CloseDisciplined(passes, cap);
    case Maintenance(gated, passes) =>
      UngateDisciplined(gated, cap);
      CompactionPassesDisciplined(if gated then Held({Gate}, 0) else NOTHING, passes, Ungate(gated), cap);
      GatedDisciplined(gated, CompactionPasses(passes, Ungate(gated)), cap);
  }

  // ----- Whole runs -----

  /** All permits free, and every thread at the start of its program. */
  ghost predicate Initial(s: System, roles: seq<Role>) {
    && s.cap >= 1 && s.free == s.cap && |s.threads| == |roles|
    && forall t :: 0 <= t < |roles| ==> Plausible(roles[t]) && s.threads[t] == Thread(Program(roles[t], s.cap), NOTHING, Running)
  }

  lemma {:induction false} NoPermitsHeld(threads: seq<Thread>)
    requires forall t :: 0 <= t < |threads| ==> threads[t].held.permits == 0
    ensures Sum(PERMITS, threads) == 0
    decreases |threads|
  {
    if threads != [] {
      NoPermitsHeld(threads[1..]);
    }
  }

  lemma InitialInvariant(s: System, roles: seq<Role>)
    requires Initial(s, roles)
    ensures Invariant(s)
  {
    NoPermitsHeld(s.threads);
    forall t | 0 <= t < |s.threads| ensures ThreadOk(s.threads[t], s.cap) {
      ProgramDisciplined(roles[t], s.cap);
    }
  }

  ghost predicate Stuck(s: System) {
    forall next :: !MovesOn(s, next)
  }

  /** Thread `t` does its next operation, which gives no permit back. */
  lemma Do(s: System, t: nat) returns (next: System)
    requires Enabled(s, t) && !s.threads[t].ops[0].GivePermit?
    ensures next.cap == s.cap && next.free == FreeAfter(s, s.threads[t].ops[0])
    ensures next.threads == s.threads[t := Proceed(s.threads[t], s.cap)] && MovesOn(s, next)
  {
    next := System(s.cap, FreeAfter(s, s.threads[t].ops[0]), s.threads[t := Proceed(s.threads[t], s.cap)]);
    assert Performs(s, t, next);
  }

  lemma SleepNow(s: System, t: nat) returns (next: System)
    requires Awake(s, t) && Takes(s.threads[t].ops[0]) && !Available(s, s.threads[t].ops[0])
    ensures next == s.(threads := s.threads[t := s.threads[t].(wait := Asleep)]) && MovesOn(s, next)
  {
    next := s.(threads := s.threads[t := s.threads[t].(wait := Asleep)]);
    assert Sleeps(s, t, next);
  }

  /**
   However writers, rollup passes, snapshots, closes and maintenance passes interleave, and whoever
   gives up on the way: the run has a bounded number of steps, permits and locks add up in its last
   state, and if no thread can get on from there then all of them are done and everything is free.
   */
  lemma EveryRunFinishes(run: seq<System>, roles: seq<Role>)
    requires IsRun(run) && Initial(run[0], roles)
    ensures |run| <= Sum(WEIGHT, run[0].threads) + 1
    ensures
      var last := run[|run| - 1];
      && last.free + Sum(PERMITS, last.threads) == last.cap
      && Exclusive(last.threads)
      && (Stuck(last) ==>
            Finished(last) && last.free == last.cap && forall m :: !Owned(last.threads, m))
  {
    InitialInvariant(run[0], roles);
    RunKeepsInvariant(run);
    var last := run[|run| - 1];
    if Stuck(last) {
      if !Finished(last) {
        var next := NoDeadlock(last);
      }
      forall t | 0 <= t < |last.threads| ensures last.threads[t].held == NOTHING {
        assert ThreadOk(last.threads[t], last.cap);
      }
      NoPermitsHeld(last.threads);
    }
  }

  // ----- The other order -----

  /** A write that invalidates rollups, with the permit taken before the run lock. */
  function SwappedProgram(): seq<Op> {
    [TakePermit, Lock(RunLock), Unlock(RunLock), GivePermit]
  }

  function OneRowPass(): Role {
    RollupPass(false, [Batch([], false)])
  }

  lemma OneRowPassProgram()
    ensures Program(OneRowPass(), 1) == [Lock(RunLock), TakePermit, GivePermit, Unlock(RunLock)]
  {
    var batches := [Batch([], false)];
    var rest := [Unlock(RunLock)] + Ungate(false);
    assert rest == [Unlock(RunLock)];
    assert batches[1..] == [];
    assert WriteBatches([], rest) == rest;
    assert Trim(batches[0], rest) == rest;
    assert ShardSection(batches[0], [GivePermit] + rest) == [GivePermit] + rest;
    assert WriteBatches(batches, rest) == WriteBatch(batches[0], rest);
  }

  /** Nobody can move: the pass sleeps on the permit the writer holds, and the writer waits for the pass. */
  lemma Embraced(s: System, next: System)
    requires |s.threads| == 2 && s.threads[0].wait.Asleep? && RunLock in s.threads[0].held.locks
    requires s.threads[1].ops != [] && s.threads[1].ops[0] == Lock(RunLock) && s.threads[1].wait.Running?
    ensures !MovesOn(s, next)
  {
    assert Owned(s.threads, RunLock);
    forall t: nat ensures !Performs(s, t, next) && !Sleeps(s, t, next) {
      assert t == 0 || t == 1 || t >= 2;
    }
  }

  /** With that order a rollup pass and one write deadlock: a run after which nobody can move. */
  lemma OtherOrderDeadlocks() returns (run: seq<System>)
    ensures IsRun(run)
    ensures run[0] == System(1, 1, [Thread(Program(OneRowPass(), 1), NOTHING, Running), Thread(SwappedProgram(), NOTHING, Running)])
    ensures !Finished(run[|run| - 1]) && Stuck(run[|run| - 1])
  {
    OneRowPassProgram();
    var pass, writer := Program(OneRowPass(), 1), SwappedProgram();
    var s0 := System(1, 1, [Thread(pass, NOTHING, Running), Thread(writer, NOTHING, Running)]);
    var s1 := Do(s0, 1);
    var s2 := Do(s1, 0);
    var s3 := SleepNow(s2, 0);
    run := [s0, s1, s2, s3];
    assert s3.threads[0].ops != [];
    forall next ensures !MovesOn(s3, next) {
      Embraced(s3, next);
    }
  }
}
