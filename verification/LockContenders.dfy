/**
 When an engine can lose a wake-up: a condition on the roles of its threads and the number of permits,
 and that no run without it loses one, as long as whoever fails drops its guards in the reverse order
 of their acquisition.
 */
module LockContenders {
  import opened LockProtocol
  import opened LockPrograms
  import opened LockWakeups

  // ----- Guards dropped in reverse order -----

  ghost predicate Falling(ops: seq<Op>) {
    forall i, j :: 0 <= i < j < |ops| ==> OpRank(ops[i]) >= OpRank(ops[j])
  }

  ghost predicate OrderedStep(s: System, next: System) {
    || MovesOn(s, next)
    || (exists t: nat :: TakesLate(s, t, next))
    || exists t: nat, unwind :: GivesUp(s, t, unwind, next) && Falling(unwind)
  }

  ghost predicate IsOrderedRun(run: seq<System>) {
    run != [] && forall k :: 0 <= k < |run| - 1 ==> OrderedStep(run[k], run[k + 1])
  }

  // ----- The condition -----

  predicate TakesEverything(role: Role) {
    role.Snapshot? || role.Close?
  }

  /** A pass that writes while the gate is somebody else's. */
  predicate UngatedWrites(role: Role) {
    role.RollupPass? && !role.gated && role.batches != []
  }

  function Writers(roles: seq<Role>): nat {
    if roles == [] then 0 else (if roles[0].Writer? then 1 else 0) + Writers(roles[1..])
  }

  ghost predicate HasUngatedPass(roles: seq<Role>) {
    exists k :: 0 <= k < |roles| && UngatedWrites(roles[k])
  }

  /**
   How many threads can hold or await a single permit at once while a snapshot or close holds the gate:
   all writers, and one of the ungated passes, which exclude each other by the run lock.
   */
  ghost function Contenders(roles: seq<Role>): nat {
    Writers(roles) + if HasUngatedPass(roles) then 1 else 0
  }

  ghost predicate CanLose(roles: seq<Role>, cap: nat) {
    && cap >= 2 && cap < Contenders(roles)
    && exists k :: 0 <= k < |roles| && TakesEverything(roles[k])
  }

  // ----- What the lock around a permit is worth -----

  function HasAfter(m: Mutex, has: bool, op: Op): bool {
    if op == Lock(m) then true else if op == Unlock(m) then false else has
  }

  function PermitsAfter(permits: nat, op: Op, cap: nat): nat {
    After(Held({}, permits), op, cap).permits
  }

  /** Through the rest of the program `m` is held whenever a permit is held or about to be taken. */
  predicate Shielded(m: Mutex, has: bool, permits: nat, ops: seq<Op>, cap: nat)
    decreases |ops|
  {
    && (permits > 0 ==> has)
    && (ops != [] ==>
          && (Takes(ops[0]) ==> has)
          && Shielded(m, HasAfter(m, has, ops[0]), PermitsAfter(permits, ops[0], cap), ops[1..], cap))
  }

  lemma ShieldedStep(m: Mutex, has: bool, permits: nat, op: Op, rest: seq<Op>, cap: nat)
    ensures Shielded(m, has, permits, [op] + rest, cap) <==>
              && (permits > 0 || Takes(op) ==> has)
              && Shielded(m, HasAfter(m, has, op), PermitsAfter(permits, op, cap), rest, cap)
  {
    assert ([op] + rest)[1..] == rest;
  }

  lemma {:induction false} ShardsShielded(m: Mutex, has: bool, permits: nat, shards: seq<nat>, rest: seq<Op>, cap: nat)
    requires !m.Shard? && Shielded(m, has, permits, rest, cap)
    ensures Shielded(m, has, permits, LockShards(shards, rest), cap)
    ensures Shielded(m, has, permits, UnlockShards(shards, rest), cap)
    decreases |shards|
  {
    if shards != [] {
      ShardsShielded(m, has, permits, shards[1..], rest, cap);
      ShieldedStep(m, has, permits, Lock(Shard(shards[0])), LockShards(shards[1..], rest), cap);
      ShieldedStep(m, has, permits, Unlock(Shard(shards[0])), UnlockShards(shards[1..], rest), cap);
    }
  }

  lemma {:induction false} PassesShielded(m: Mutex, has: bool, permits: nat, passes: nat, rest: seq<Op>, cap: nat)
    requires !m.Compaction? && Shielded(m, has, permits, rest, cap)
    ensures Shielded(m, has, permits, CompactionPasses(passes, rest), cap)
    decreases passes
  {
    if passes > 0 {
      PassesShielded(m, has, permits, passes - 1, rest, cap);
      ShieldedStep(m, has, permits, Unlock(Compaction), CompactionPasses(passes - 1, rest), cap);
      ShieldedStep(m, has, permits, Lock(Compaction), [Unlock(Compaction)] + CompactionPasses(passes - 1, rest), cap);
    }
  }

  lemma {:induction false} GivesShielded(m: Mutex, count: nat, rest: seq<Op>, cap: nat)
    requires Shielded(m, true, 0, rest, cap)
    ensures Shielded(m, true, count, GivePermits(count, rest), cap)
    decreases count
  {
    if count > 0 {
      GivesShielded(m, count - 1, rest, cap);
      ShieldedStep(m, true, count, GivePermit, GivePermits(count - 1, rest), cap);
    }
  }

  lemma BatchShielded(m: Mutex, batch: Batch, rest: seq<Op>, cap: nat)
    requires (m.Gate? || m.RunLock?) && Shielded(m, true, 0, rest, cap)
    ensures Shielded(m, true, 0, WriteBatch(batch, rest), cap)
  {
    PassesShielded(m, true, 0, if batch.trims then 1 else 0, rest, cap);
    var give := [GivePermit] + Trim(batch, rest);
    ShieldedStep(m, true, 1, GivePermit, Trim(batch, rest), cap);
    ShardsShielded(m, true, 1, batch.shards, give, cap);
    ShardsShielded(m, true, 1, batch.shards, UnlockShards(batch.shards, give), cap);
    ShieldedStep(m, true, 0, TakePermit, ShardSection(batch, give), cap);
  }

  lemma {:induction false} BatchesShielded(m: Mutex, batches: seq<Batch>, rest: seq<Op>, cap: nat)
    requires (m.Gate? || m.RunLock?) && Shielded(m, true, 0, rest, cap)
    ensures Shielded(m, true, 0, WriteBatches(batches, rest), cap)
    decreases |batches|
  {
    if batches != [] {
      BatchesShielded(m, batches[1..], rest, cap);
      BatchShielded(m, batches[0], WriteBatches(batches[1..], rest), cap);
    }
  }

  lemma PassShielded(gated: bool, batches: seq<Batch>, cap: nat)
    ensures Shielded(if gated then Gate else RunLock, false, 0, Program(RollupPass(gated, batches), cap), cap)
  {
    var m := if gated then Gate else RunLock;
    var done := [Unlock(RunLock)] + Ungate(gated);
    var inner := [Lock(RunLock)] + WriteBatches(batches, done);
    ShieldedStep(m, gated, 0, Unlock(Gate), [], cap);
    assert [Unlock(Gate)] + [] == [Unlock(Gate)];
    ShieldedStep(m, true, 0, Unlock(RunLock), Ungate(gated), cap);
    BatchesShielded(m, batches, done, cap);
    ShieldedStep(m, gated, 0, Lock(RunLock), WriteBatches(batches, done), cap);
    ShieldedStep(m, false, 0, Lock(Gate), inner, cap);
  }

  lemma SnapshotShielded(cap: nat)
    ensures Shielded(Gate, false, 0, Program(Snapshot, cap), cap)
  {
    var done := [Unlock(Compaction)] + [Unlock(Gate)];
    ShieldedStep(Gate, true, 0, Unlock(Gate), [], cap);
    assert [Unlock(Gate)] + [] == [Unlock(Gate)];
    ShieldedStep(Gate, true, 0, Unlock(Compaction), [Unlock(Gate)], cap);
    GivesShielded(Gate, cap, done, cap);
    ShieldedStep(Gate, true, cap, Lock(Compaction), GivePermits(cap, done), cap);
    ShieldedStep(Gate, true, 0, TakeAll, [Lock(Compaction)] + GivePermits(cap, done), cap);
    ShieldedStep(Gate, false, 0, Lock(Gate), [TakeAll] + ([Lock(Compaction)] + GivePermits(cap, done)), cap);
  }

  lemma CloseShielded(passes: nat, cap: nat)
    ensures Shielded(Gate, false, 0, Program(Close(passes), cap), cap)
  {
    var gives := GivePermits(cap, [Unlock(Gate)]);
    ShieldedStep(Gate, true, 0, Unlock(Gate), [], cap);
    assert [Unlock(Gate)] + [] == [Unlock(Gate)];
    GivesShielded(Gate, cap, [Unlock(Gate)], cap);
    PassesShielded(Gate, true, cap, passes, gives, cap);
    ShieldedStep(Gate, true, 0, TakeAll, CompactionPasses(passes, gives), cap);
    ShieldedStep(Gate, false, 0, Lock(Gate), [TakeAll] + CompactionPasses(passes, gives), cap);
  }

  // ----- What a thread of a given role can do from where it stands -----

  predicate TakesOne(role: Role) {
    role.Writer? || (role.RollupPass? && role.batches != [])
  }

  predicate ShieldedThread(m: Mutex, th: Thread, cap: nat) {
    Shielded(m, m in th.held.locks, th.held.permits, th.ops, cap)
  }

  ghost predicate Plays(th: Thread, role: Role, cap: nat) {
    && (TakesEverything(role) ==> ShieldedThread(Gate, th, cap))
    && (!TakesEverything(role) ==> TakeAll !in th.ops && th.held.permits <= 1)
    && (role.RollupPass? ==> ShieldedThread(if role.gated then Gate else RunLock, th, cap))
    && (!TakesOne(role) ==> TakePermit !in th.ops)
    && (!TakesOne(role) && !TakesEverything(role) ==> th.held.permits == 0)
  }

  ghost predicate AllPlay(s: System, roles: seq<Role>) {
    |s.threads| == |roles| && forall t :: 0 <= t < |roles| ==> Plays(s.threads[t], roles[t], s.cap)
  }

  lemma ProceedPlays(th: Thread, role: Role, cap: nat)
    requires ThreadOk(th, cap) && th.ops != [] && Plays(th, role, cap)
    ensures Plays(Proceed(th, cap), role, cap)
  {
    assert th.ops[0] in th.ops;
  }

  lemma {:induction false} PermitsComeBack(h: Held, ops: seq<Op>, cap: nat)
    requires Disciplined(h, ops, cap) && h.permits > 0
    ensures GivePermit in ops
    decreases |ops|
  {
    if !ops[0].GivePermit? {
      PermitsComeBack(After(h, ops[0], cap), ops[1..], cap);
    }
  }

  lemma UnlockedLast(m: Mutex, h: Held, ops: seq<Op>, cap: nat)
    requires Disciplined(h, ops, cap) && Falling(ops) && ops != [] && ops[0] == Unlock(m) && MutexRank(m) < PERMIT_RANK
    ensures h.permits == 0
  {
    if h.permits > 0 {
      PermitsComeBack(h, ops, cap);
    }
  }

  /** Guards dropped in reverse order: a lock taken before the permit outlives it. */
  lemma {:induction false} FallingShields(m: Mutex, h: Held, ops: seq<Op>, cap: nat)
    requires (forall k :: 0 <= k < |ops| ==> !Acquires(ops[k])) && Disciplined(h, ops, cap) && Falling(ops)
    requires MutexRank(m) < PERMIT_RANK && (h.permits > 0 ==> m in h.locks)
    ensures Shielded(m, m in h.locks, h.permits, ops, cap)
    decreases |ops|
  {
    if ops != [] {
      if ops[0] == Unlock(m) {
        UnlockedLast(m, h, ops, cap);
      }
      FallingShields(m, After(h, ops[0], cap), ops[1..], cap);
    }
  }

  lemma UnwindPlays(th: Thread, role: Role, unwind: seq<Op>, cap: nat)
    requires Plays(th, role, cap)
    requires Unwinds(th.held, unwind) && Disciplined(th.held, unwind, cap) && Falling(unwind)
    ensures Plays(Thread(unwind, th.held, Running), role, cap)
  {
    if TakesEverything(role) {
      FallingShields(Gate, th.held, unwind, cap);
    }
    if role.RollupPass? {
      FallingShields(if role.gated then Gate else RunLock, th.held, unwind, cap);
    }
  }

  lemma ReplacedPlay(s: System, roles: seq<Role>, t: nat, th: Thread, next: System)
    requires AllPlay(s, roles) && t < |roles| && Plays(th, roles[t], s.cap)
    requires next.cap == s.cap && next.threads == s.threads[t := th]
    ensures AllPlay(next, roles)
  {
  }

  lemma PerformsPlays(s: System, roles: seq<Role>, t: nat, next: System)
    requires Invariant(s) && AllPlay(s, roles) && Performs(s, t, next)
    ensures AllPlay(next, roles)
  {
    var threads := s.threads[t := Proceed(s.threads[t], s.cap)];
    assert ThreadOk(s.threads[t], s.cap);
    ProceedPlays(s.threads[t], roles[t], s.cap);
    var performed := System(s.cap, next.free, threads);
    ReplacedPlay(s, roles, t, Proceed(s.threads[t], s.cap), performed);
    if next.threads != threads {
      var u :| 0 <= u < |threads| && threads[u].wait.Asleep? && next.threads == threads[u := threads[u].(wait := Woken)];
      ReplacedPlay(performed, roles, u, threads[u].(wait := Woken), next);
    }
  }

  lemma StepPlays(s: System, roles: seq<Role>, next: System)
    requires Invariant(s) && AllPlay(s, roles) && OrderedStep(s, next)
    ensures AllPlay(next, roles) && next.cap == s.cap
  {
    if MovesOn(s, next) {
      var t: nat :| Performs(s, t, next) || Sleeps(s, t, next);
      if Performs(s, t, next) {
        PerformsPlays(s, roles, t, next);
      } else {
        ReplacedPlay(s, roles, t, s.threads[t].(wait := Asleep), next);
      }
    } else if t: nat :| TakesLate(s, t, next) {
      assert ThreadOk(s.threads[t], s.cap);
      ProceedPlays(s.threads[t], roles[t], s.cap);
      ReplacedPlay(s, roles, t, Proceed(s.threads[t], s.cap), next);
    } else {
      var t: nat, unwind :| GivesUp(s, t, unwind, next) && Falling(unwind);
      UnwindPlays(s.threads[t], roles[t], unwind, s.cap);
      ReplacedPlay(s, roles, t, Thread(unwind, s.threads[t].held, Running), next);
    }
  }

  lemma {:induction false} GivesTakeNothing(count: nat, rest: seq<Op>)
    ensures TakePermit in GivePermits(count, rest) <==> TakePermit in rest
    decreases count
  {
    if count > 0 {
      GivesTakeNothing(count - 1, rest);
    }
  }

  lemma {:induction false} PassesTakeNoPermit(passes: nat, rest: seq<Op>)
    ensures TakePermit in CompactionPasses(passes, rest) <==> TakePermit in rest
    decreases passes
  {
    if passes > 0 {
      PassesTakeNoPermit(passes - 1, rest);
    }
  }

  lemma OnlyTheseTakeOne(role: Role, cap: nat)
    requires !TakesOne(role)
    ensures TakePermit !in Program(role, cap)
  {
    match role
    case RollupPass(gated, batches) =>
      var done := [Unlock(RunLock)] + Ungate(gated);
      assert WriteBatches(batches, done) == done;
    case Snapshot => GivesTakeNothing(cap, [Unlock(Compaction)] + [Unlock(Gate)]);
    case Close(passes) =>
      GivesTakeNothing(cap, [Unlock(Gate)]);
      PassesTakeNoPermit(passes, GivePermits(cap, [Unlock(Gate)]));
    case Maintenance(gated, passes) => PassesTakeNoPermit(passes, Ungate(gated));
  }

  lemma StartPlays(role: Role, cap: nat)
    ensures Plays(Thread(Program(role, cap), NOTHING, Running), role, cap)
  {
    TakesAllExactly(role, cap);
    if !TakesOne(role) {
      OnlyTheseTakeOne(role, cap);
    }
    match role
    case RollupPass(gated, batches) => PassShielded(gated, batches, cap);
    case Snapshot => SnapshotShielded(cap);
    case Close(passes) => CloseShielded(passes, cap);
    case _ =>
  }

  // ----- How many can contend at once -----

  predicate At(th: Thread, op: Op) {
    th.ops != [] && th.ops[0] == op
  }

  const WOKEN_FOR_ONE: Thread -> nat := (th: Thread) => if th.wait.Woken? && At(th, TakePermit) then 1 else 0

  const WANTS_ONE: Thread -> nat := (th: Thread) => if WantsOne(th) then 1 else 0

  /** Holds a permit, was woken for one, or sleeps for one. */
  const CONTENDS: Thread -> nat := (th: Thread) => PERMITS(th) + WOKEN_FOR_ONE(th) + WANTS_ONE(th)

  lemma {:induction false} ContendsSum(threads: seq<Thread>)
    ensures Sum(CONTENDS, threads) == Sum(PERMITS, threads) + Sum(WOKEN_FOR_ONE, threads) + Sum(WANTS_ONE, threads)
    decreases |threads|
  {
    if threads != [] {
      ContendsSum(threads[1..]);
    }
  }

  /** Somebody waits at `acquire_all`, behind the gate. */
  ghost predicate TakesAllNow(s: System, t: nat) {
    t < |s.threads| && At(s.threads[t], TakeAll)
  }

  lemma GateHeld(s: System, roles: seq<Role>, t: nat)
    requires Invariant(s) && AllPlay(s, roles) && TakesAllNow(s, t)
    ensures TakesEverything(roles[t]) && Gate in s.threads[t].held.locks && s.threads[t].held.permits == 0
  {
    assert TakeAll in s.threads[t].ops;
    assert ThreadOk(s.threads[t], s.cap);
  }

  /** While the gate is held for `acquire_all`, only writers and passes without the gate contend, each for one permit. */
  lemma ContenderIs(s: System, roles: seq<Role>, t: nat, u: nat)
    requires Invariant(s) && AllPlay(s, roles) && TakesAllNow(s, t) && u < |roles|
    ensures CONTENDS(s.threads[u]) <= 1
    ensures CONTENDS(s.threads[u]) > 0 ==> roles[u].Writer? || (UngatedWrites(roles[u]) && RunLock in s.threads[u].held.locks)
  {
    var th, role := s.threads[u], roles[u];
    GateHeld(s, roles, t);
    assert ThreadOk(th, s.cap);
    assert Plays(th, role, s.cap);
    if At(th, TakePermit) {
      assert TakePermit in th.ops && th.held.permits == 0;
    }
    if CONTENDS(th) > 0 && (TakesEverything(role) || (role.RollupPass? && role.gated)) {
      NoGateNoPermit(th, role, s.cap);
    }
  }

  lemma NoGateNoPermit(th: Thread, role: Role, cap: nat)
    requires Plays(th, role, cap) && (TakesEverything(role) || (role.RollupPass? && role.gated))
    ensures th.held.permits > 0 || (th.ops != [] && Takes(th.ops[0])) ==> Gate in th.held.locks
  {
  }

  /** The only pass among the contenders, if there is one. */
  ghost predicate OnlyPass(threads: seq<Thread>, roles: seq<Role>, pass: int) {
    |threads| == |roles| && forall u :: 0 <= u < |roles| && u != pass && !roles[u].Writer? ==> CONTENDS(threads[u]) == 0
  }

  lemma {:induction false} ContendersBound(threads: seq<Thread>, roles: seq<Role>, pass: int)
    requires OnlyPass(threads, roles, pass) && forall u :: 0 <= u < |roles| ==> CONTENDS(threads[u]) <= 1
    ensures Sum(CONTENDS, threads) <= Writers(roles) + if 0 <= pass < |roles| then 1 else 0
    decreases |roles|
  {
    if roles != [] {
      forall u | 0 <= u < |roles[1..]| && u != pass - 1 && !roles[1..][u].Writer? ensures CONTENDS(threads[1..][u]) == 0 {
        assert roles[1..][u] == roles[u + 1] && threads[1..][u] == threads[u + 1];
      }
      forall u | 0 <= u < |roles[1..]| ensures CONTENDS(threads[1..][u]) <= 1 {
        assert threads[1..][u] == threads[u + 1];
      }
      ContendersBound(threads[1..], roles[1..], pass - 1);
    }
  }

  lemma ContendersCount(s: System, roles: seq<Role>, t: nat)
    requires Invariant(s) && AllPlay(s, roles) && TakesAllNow(s, t)
    ensures Sum(CONTENDS, s.threads) <= Contenders(roles)
  {
    forall u | 0 <= u < |roles|
      ensures CONTENDS(s.threads[u]) <= 1
      ensures CONTENDS(s.threads[u]) > 0 ==> roles[u].Writer? || (UngatedWrites(roles[u]) && RunLock in s.threads[u].held.locks)
    {
      ContenderIs(s, roles, t, u);
    }
    if pass :| 0 <= pass < |roles| && !roles[pass].Writer? && CONTENDS(s.threads[pass]) > 0 {
      ContendersBound(s.threads, roles, pass);
    } else {
      ContendersBound(s.threads, roles, -1);
    }
  }

  /** All permits are held or spoken for, and somebody sleeps for one more. */
  lemma MoreThanPermits(s: System, roles: seq<Role>, t: nat)
    requires Invariant(s) && AllPlay(s, roles) && TakesAllNow(s, t)
    requires SomeoneWantsOne(s.threads) && s.free <= Sum(WOKEN_FOR_ONE, s.threads)
    ensures s.cap < Contenders(roles)
  {
    ContendersCount(s, roles, t);
    ContendsSum(s.threads);
    var w :| 0 <= w < |s.threads| && WantsOne(s.threads[w]);
    SumUpdate(WANTS_ONE, s.threads, w, s.threads[w]);
  }

  // ----- Only where the condition holds -----

  /** If somebody sleeps for one permit while somebody waits for all, there are contenders enough. */
  ghost predicate Contested(s: System, roles: seq<Role>) {
    SomeoneWantsOne(s.threads) && (exists t: nat :: TakesAllNow(s, t)) ==> s.cap < Contenders(roles)
  }

  lemma {:induction false} SumSame(f: Thread -> nat, g: Thread -> nat, threads: seq<Thread>)
    requires forall u :: 0 <= u < |threads| ==> f(threads[u]) == g(threads[u])
    ensures Sum(f, threads) == Sum(g, threads)
    decreases |threads|
  {
    if threads != [] {
      forall u | 0 <= u < |threads[1..]| ensures f(threads[1..][u]) == g(threads[1..][u]) {
        assert threads[1..][u] == threads[u + 1];
      }
      SumSame(f, g, threads[1..]);
    }
  }

  /** Behind the gate only one thread waits for all permits; if it was not woken, who was woken wants one. */
  lemma WokenForOne(s: System, roles: seq<Role>, t: nat)
    requires Invariant(s) && AllPlay(s, roles) && TakesAllNow(s, t) && !s.threads[t].wait.Woken?
    ensures Sum(WOKEN, s.threads) == Sum(WOKEN_FOR_ONE, s.threads)
  {
    GateHeld(s, roles, t);
    forall u | 0 <= u < |s.threads| ensures WOKEN(s.threads[u]) == WOKEN_FOR_ONE(s.threads[u]) {
      assert ThreadOk(s.threads[u], s.cap);
      if TakesAllNow(s, u) {
        GateHeld(s, roles, u);
      }
    }
    SumSame(WOKEN, WOKEN_FOR_ONE, s.threads);
  }

  lemma NewSleeper(s: System, next: System)
    requires OrderedStep(s, next) && SomeoneWantsOne(next.threads)
    ensures SomeoneWantsOne(s.threads) || next.free == 0
  {
    if MovesOn(s, next) {
      var t: nat :| Performs(s, t, next) || Sleeps(s, t, next);
      if Performs(s, t, next) {
        var threads := s.threads[t := Proceed(s.threads[t], s.cap)];
        if s.threads[t].ops[0].GivePermit? {
          NotifiedSleeper(threads, next.threads);
        }
        NoNewSleeper(s.threads, t, Proceed(s.threads[t], s.cap));
      } else if s.threads[t].ops[0].TakeAll? {
        NoNewSleeper(s.threads, t, s.threads[t].(wait := Asleep));
      }
    } else if t: nat :| TakesLate(s, t, next) {
      NoNewSleeper(s.threads, t, Proceed(s.threads[t], s.cap));
    } else {
      var t: nat, unwind :| GivesUp(s, t, unwind, next) && Falling(unwind);
      NoNewSleeper(s.threads, t, Thread(unwind, s.threads[t].held, Running));
    }
  }

  lemma WokenWasThere(s: System, next: System, t: nat)
    requires OrderedStep(s, next) && t < |next.threads| && next.threads[t].wait.Woken?
    ensures t < |s.threads| && s.threads[t].ops == next.threads[t].ops
  {
    if MovesOn(s, next) {
      var u: nat :| Performs(s, u, next) || Sleeps(s, u, next);
    } else if u: nat :| TakesLate(s, u, next) {
    } else {
      var u: nat, unwind :| GivesUp(s, u, unwind, next) && Falling(unwind);
    }
  }

  lemma StepContested(s: System, roles: seq<Role>, next: System)
    requires OrderedStep(s, next) && Contested(s, roles) && next.cap == s.cap
    requires Invariant(next) && AllPlay(next, roles) && !WakeupLost(next)
    ensures Contested(next, roles)
  {
    if t: nat :| SomeoneWantsOne(next.threads) && TakesAllNow(next, t) {
      if next.threads[t].wait.Woken? {
        WokenWasThere(s, next, t);
        assert TakesAllNow(s, t);
        NewSleeper(s, next);
        if next.free == 0 {
          MoreThanPermits(next, roles, t);
        }
      } else {
        WokenForOne(next, roles, t);
        MoreThanPermits(next, roles, t);
      }
    }
  }

  /** The first loss: a thread that was woken for all permits, with the contenders there. */
  lemma FirstLoss(s: System, roles: seq<Role>, next: System)
    requires Invariant(s) && AllPlay(s, roles) && Contested(s, roles) && Step(s, next)
    requires !WakeupLost(s) && WakeupLost(next)
    ensures CanLose(roles, s.cap)
  {
    WakeupLostExactly(s, next);
    var t: nat :| Swallows(s, t, next);
    StepLighter(s, next);
    WokenUntilItSteps(s, t, next);
    GateHeld(s, roles, t);
    assert TakesAllNow(s, t);
    SumUpdate(WOKEN, s.threads, t, s.threads[t]);
    NotAllThere(s, t, next);
    NoNewSleeper(s.threads, t, next.threads[t]);
  }

  lemma NotAllThere(s: System, t: nat, next: System)
    requires Invariant(s) && Step(s, next) && t < |s.threads| && s.threads[t].wait.Woken? && At(s.threads[t], TakeAll)
    requires next == s.(threads := s.threads[t := next.threads[t]]) && !next.threads[t].wait.Woken?
    ensures s.free != s.cap && !WantsOne(next.threads[t])
  {
    if MovesOn(s, next) {
      var u: nat :| Performs(s, u, next) || Sleeps(s, u, next);
    } else if u: nat :| TakesLate(s, u, next) {
    } else {
      var u: nat, unwind :| GivesUp(s, u, unwind, next);
    }
  }

  lemma {:induction false} LosesOnlyIf(run: seq<System>, roles: seq<Role>)
    requires IsOrderedRun(run) && Initial(run[0], roles)
    ensures
      var last := run[|run| - 1];
      && Invariant(last) && AllPlay(last, roles) && last.cap == run[0].cap
      && (CanLose(roles, last.cap) || (!WakeupLost(last) && Contested(last, roles)))
    decreases |run|
  {
    if |run| == 1 {
      InitialInvariant(run[0], roles);
      forall t | 0 <= t < |roles| ensures Plays(run[0].threads[t], roles[t], run[0].cap) {
        StartPlays(roles[t], run[0].cap);
      }
    } else {
      var front, last := run[..|run| - 1], run[|run| - 1];
      forall k | 0 <= k < |front| - 1 ensures OrderedStep(front[k], front[k + 1]) {
        assert OrderedStep(run[k], run[k + 1]);
      }
      LosesOnlyIf(front, roles);
      var before := front[|front| - 1];
      assert OrderedStep(before, last);
      StepKeepsInvariant(before, last);
      StepPlays(before, roles, last);
      if !CanLose(roles, last.cap) {
        if WakeupLost(last) {
          FirstLoss(before, roles, last);
        }
        StepContested(before, roles, last);
      }
    }
  }
}
