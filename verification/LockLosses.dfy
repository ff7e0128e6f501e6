/** Every engine that meets the condition has a run that loses a wake-up, so the condition is exact. */
module LockLosses {
  import opened LockProtocol
  import opened LockPrograms
  import opened LockWakeups
  import opened LockContenders
  import ShardLocks

  // ----- Runs step by step -----

  ghost predicate Reaches(s: System, next: System) {
    exists run :: IsOrderedRun(run) && run[0] == s && run[|run| - 1] == next
  }

  lemma Here(s: System)
    ensures Reaches(s, s)
  {
    assert IsOrderedRun([s]);
  }

  lemma Then(s: System, at: System, next: System)
    requires Reaches(s, at) && MovesOn(at, next)
    ensures Reaches(s, next)
  {
    var run :| IsOrderedRun(run) && run[0] == s && run[|run| - 1] == at;
    var longer := run + [next];
    forall k | 0 <= k < |longer| - 1 ensures OrderedStep(longer[k], longer[k + 1]) {
      assert k < |run| - 1 ==> OrderedStep(run[k], run[k + 1]);
    }
    assert IsOrderedRun(longer);
  }

  /** `s` with thread `i` replaced. */
  ghost function With(s: System, i: nat, th: Thread): System
    requires i < |s.threads|
  {
    s.(threads := s.threads[i := th])
  }

  ghost predicate OthersFree(s: System, i: nat) {
    forall k :: 0 <= k < |s.threads| && k != i ==> s.threads[k].held.locks == {}
  }

  /** Thread `i`, which holds all the locks there are, does its next operation. */
  lemma GoOn(s0: System, s: System, i: nat) returns (next: System)
    requires Reaches(s0, s) && i < |s.threads| && OthersFree(s, i) && s.threads[i].wait.Running? && s.threads[i].ops != []
    requires var op := s.threads[i].ops[0];
             !op.GivePermit? && !op.TakeAll? && (op.TakePermit? ==> s.free > 0) && (op.Lock? ==> op.m !in s.threads[i].held.locks)
    ensures Reaches(s0, next) && OthersFree(next, i)
    ensures next == With(s, i, Proceed(s.threads[i], s.cap)).(free := FreeAfter(s, s.threads[i].ops[0]))
  {
    next := Do(s, i);
    Then(s0, s, next);
  }

  lemma {:induction false} LockAll(s0: System, s: System, i: nat, shards: seq<nat>, rest: seq<Op>) returns (next: System)
    requires Reaches(s0, s) && i < |s.threads| && OthersFree(s, i) && s.threads[i].wait.Running?
    requires s.threads[i].ops == LockShards(shards, rest) && ShardLocks.Ascending(shards)
    requires forall k :: k in shards ==> Shard(k) !in s.threads[i].held.locks
    ensures Reaches(s0, next) && OthersFree(next, i)
    ensures var held := s.threads[i].held;
            next == With(s, i, Thread(rest, held.(locks := held.locks + Shards(shards)), Running))
    decreases |shards|
  {
    var held := s.threads[i].held;
    if shards == [] {
      next := s;
      assert held.locks + Shards(shards) == held.locks;
    } else {
      FirstShard(shards);
      assert s.threads[i].ops[1..] == LockShards(shards[1..], rest);
      var first := GoOn(s0, s, i);
      assert first.threads[i].held.locks + Shards(shards[1..]) == held.locks + Shards(shards);
      next := LockAll(s0, first, i, shards[1..], rest);
    }
  }

  lemma {:induction false} UnlockAll(s0: System, s: System, i: nat, shards: seq<nat>, rest: seq<Op>) returns (next: System)
    requires Reaches(s0, s) && i < |s.threads| && OthersFree(s, i) && s.threads[i].wait.Running?
    requires s.threads[i].ops == UnlockShards(shards, rest) && ShardLocks.Ascending(shards)
    ensures Reaches(s0, next) && OthersFree(next, i)
    ensures var held := s.threads[i].held;
            next == With(s, i, Thread(rest, held.(locks := held.locks - Shards(shards)), Running))
    decreases |shards|
  {
    var held := s.threads[i].held;
    if shards == [] {
      next := s;
      assert held.locks - Shards(shards) == held.locks;
    } else {
      FirstShard(shards);
      assert s.threads[i].ops[1..] == UnlockShards(shards[1..], rest);
      var first := GoOn(s0, s, i);
      assert first.threads[i].held.locks - Shards(shards[1..]) == held.locks - Shards(shards);
      next := UnlockAll(s0, first, i, shards[1..], rest);
    }
  }

  /** A writer goes through its shards. */
  lemma ThroughShards(s0: System, s: System, i: nat, batch: Batch, rest: seq<Op>) returns (next: System)
    requires Reaches(s0, s) && i < |s.threads| && OthersFree(s, i) && s.threads[i].wait.Running?
    requires s.threads[i].ops == ShardSection(batch, rest) && InLockOrder(batch)
    requires forall m :: m in s.threads[i].held.locks ==> !m.Shard?
    ensures Reaches(s0, next) && OthersFree(next, i) && next == With(s, i, Thread(rest, s.threads[i].held, Running))
  {
    var held := s.threads[i].held;
    var locked := LockAll(s0, s, i, batch.shards, UnlockShards(batch.shards, rest));
    next := UnlockAll(s0, locked, i, batch.shards, rest);
    assert held.locks + Shards(batch.shards) - Shards(batch.shards) == held.locks;
  }

  predicate AtStart(th: Thread, role: Role, cap: nat) {
    th == Thread(Program(role, cap), NOTHING, Running)
  }

  /** Done with its shards, a writer is about to give its permit back. */
  predicate HoldsOne(th: Thread) {
    th.held == Held({}, 1) && th.wait.Running? && At(th, GivePermit)
  }

  lemma TakeOne(s0: System, s: System, role: Role, i: nat) returns (next: System)
    requires Reaches(s0, s) && i < |s.threads| && OthersFree(s, i) && s.free > 0
    requires role.Writer? && Plausible(role) && AtStart(s.threads[i], role, s.cap)
    ensures Reaches(s0, next) && i < |next.threads| && HoldsOne(next.threads[i])
    ensures next == With(s, i, next.threads[i]).(free := s.free - 1)
  {
    var batch := role.batch;
    if role.invalidates {
      var rest := [Unlock(RunLock)] + ([GivePermit] + Trim(batch, []));
      assert Program(role, s.cap)[1..] == [TakePermit] + ShardSection(batch, rest);
      assert ([TakePermit] + ShardSection(batch, rest))[1..] == ShardSection(batch, rest);
      var locked := GoOn(s0, s, i);
      var taken := GoOn(s0, locked, i);
      assert taken.threads[i].held.locks == {RunLock};
      var through := ThroughShards(s0, taken, i, batch, rest);
      next := GoOn(s0, through, i);
      assert rest[1..] == [GivePermit] + Trim(batch, []);
      assert next.threads[i].held.locks == {};
    } else {
      var rest := [GivePermit] + Trim(batch, []);
      assert Program(role, s.cap)[1..] == ShardSection(batch, rest);
      var taken := GoOn(s0, s, i);
      next := ThroughShards(s0, taken, i, batch, rest);
    }
  }

  /** Every thread is at its start, or a writer that holds a permit. */
  ghost predicate Filling(s: System, roles: seq<Role>) {
    && |s.threads| == |roles|
    && forall k :: 0 <= k < |roles| ==> AtStart(s.threads[k], roles[k], s.cap) || (roles[k].Writer? && HoldsOne(s.threads[k]))
  }

  lemma {:induction false} WritersAppend(a: seq<Role>, b: seq<Role>)
    ensures Writers(a + b) == Writers(a) + Writers(b)
    decreases |a|
  {
    if a == [] {
      assert a + b == b;
    } else {
      WritersAppend(a[1..], b);
      assert (a + b)[1..] == a[1..] + b;
    }
  }

  /** The first `n` writers. */
  lemma {:induction false} FirstWriters(roles: seq<Role>, n: nat) returns (j: nat)
    requires n <= Writers(roles)
    ensures j <= |roles| && Writers(roles[..j]) == n
    decreases |roles|
  {
    if Writers(roles) == n {
      j := |roles|;
      assert roles[..j] == roles;
    } else {
      var front := roles[..|roles| - 1];
      WritersAppend(front, [roles[|roles| - 1]]);
      assert front + [roles[|roles| - 1]] == roles;
      j := FirstWriters(front, n);
      assert front[..j] == roles[..j];
    }
  }

  lemma {:induction false} SomeWriter(roles: seq<Role>) returns (k: nat)
    requires Writers(roles) > 0
    ensures k < |roles| && roles[k].Writer?
  {
    if roles[0].Writer? {
      k := 0;
    } else {
      var rest := SomeWriter(roles[1..]);
      k := rest + 1;
    }
  }

  /** The writers among the first `j` roles take a permit each. */
  lemma {:induction false} Fill(s0: System, roles: seq<Role>, j: nat) returns (s: System)
    requires Initial(s0, roles) && j <= |roles| && Writers(roles[..j]) <= s0.cap
    ensures Reaches(s0, s) && Filling(s, roles) && s.cap == s0.cap && s.free == s.cap - Writers(roles[..j])
    ensures forall k :: j <= k < |roles| || (0 <= k < |roles| && !roles[k].Writer?) ==> AtStart(s.threads[k], roles[k], s.cap)
    decreases j
  {
    if j == 0 {
      Here(s0);
      s := s0;
    } else {
      WritersAppend(roles[..j - 1], [roles[j - 1]]);
      assert roles[..j] == roles[..j - 1] + [roles[j - 1]];
      s := Fill(s0, roles, j - 1);
      if roles[j - 1].Writer? {
        var before := s;
        s := TakeOne(s0, before, roles[j - 1], j - 1);
      }
    }
  }

  /** With no permit left a contender goes to sleep for one. */
  lemma SleepForOne(s0: System, s: System, role: Role, i: nat) returns (next: System)
    requires Reaches(s0, s) && i < |s.threads| && OthersFree(s, i) && s.free == 0
    requires (role.Writer? || UngatedWrites(role)) && AtStart(s.threads[i], role, s.cap)
    ensures Reaches(s0, next) && i < |next.threads| && next == With(s, i, next.threads[i])
    ensures WantsOne(next.threads[i]) && Gate !in next.threads[i].held.locks
  {
    var ready := s;
    if !role.Writer? || role.invalidates {
      SecondOp(role, s.cap);
      ready := GoOn(s0, s, i);
    }
    next := SleepNow(ready, i);
    Then(s0, ready, next);
  }

  lemma SecondOp(role: Role, cap: nat)
    requires UngatedWrites(role) || (role.Writer? && role.invalidates)
    ensures |Program(role, cap)| > 1 && Program(role, cap)[0] == Lock(RunLock) && Program(role, cap)[1] == TakePermit
  {
    if role.RollupPass? {
      var rest := [Unlock(RunLock)] + Ungate(false);
      assert WriteBatches(role.batches, rest) == WriteBatch(role.batches[0], WriteBatches(role.batches[1..], rest));
    }
  }

  /** And a snapshot or close goes to sleep for all of them. */
  lemma SleepForAll(s0: System, s: System, role: Role, i: nat) returns (next: System)
    requires Reaches(s0, s) && i < |s.threads| && !Owned(s.threads, Gate) && s.free != s.cap
    requires TakesEverything(role) && AtStart(s.threads[i], role, s.cap)
    ensures Reaches(s0, next) && i < |next.threads| && next == With(s, i, next.threads[i])
    ensures next.threads[i].wait.Asleep? && At(next.threads[i], TakeAll)
  {
    assert Program(role, s.cap)[0] == Lock(Gate) && Program(role, s.cap)[1] == TakeAll;
    var gated := Do(s, i);
    Then(s0, s, gated);
    next := SleepNow(gated, i);
    Then(s0, gated, next);
  }

  /** Thread `t` gives a permit back and `u` is the one notified. */
  lemma GiveTo(s: System, t: nat, u: nat) returns (next: System)
    requires Enabled(s, t) && s.threads[t].ops[0].GivePermit? && u < |s.threads| && u != t && s.threads[u].wait.Asleep?
    ensures next == System(s.cap, s.free + 1, s.threads[t := Proceed(s.threads[t], s.cap)][u := s.threads[u].(wait := Woken)])
    ensures MovesOn(s, next)
  {
    var threads := s.threads[t := Proceed(s.threads[t], s.cap)];
    next := System(s.cap, s.free + 1, threads[u := s.threads[u].(wait := Woken)]);
    assert threads[u].wait.Asleep? && next.threads == threads[u := threads[u].(wait := Woken)];
    assert Performs(s, t, next);
  }

  lemma {:induction false} NobodyWoken(threads: seq<Thread>)
    requires forall t :: 0 <= t < |threads| ==> !threads[t].wait.Woken?
    ensures Sum(WOKEN, threads) == 0
    decreases |threads|
  {
    if threads != [] {
      NobodyWoken(threads[1..]);
    }
  }

  /** The one who waits for all permits is notified of the first that comes back, and sleeps again. */
  lemma Lose(s0: System, s: System, g: nat, w: nat, c: nat) returns (next: System)
    requires Reaches(s0, s) && s.cap >= 2 && s.free == 0 && g < |s.threads| && w < |s.threads| && c < |s.threads| && g != w
    requires HoldsOne(s.threads[g]) && WantsOne(s.threads[w]) && s.threads[c].wait.Asleep? && At(s.threads[c], TakeAll)
    requires forall k :: 0 <= k < |s.threads| ==> !s.threads[k].wait.Woken?
    ensures Reaches(s0, next) && WakeupLost(next)
  {
    var given := GiveTo(s, g, c);
    Then(s0, s, given);
    next := SleepNow(given, c);
    Then(s0, given, next);
    assert WantsOne(next.threads[w]);
    NobodyWoken(next.threads);
  }

  lemma HolderAmong(s: System, roles: seq<Role>) returns (g: nat)
    requires Invariant(s) && Filling(s, roles) && s.free < s.cap
    ensures g < |roles| && HoldsOne(s.threads[g])
  {
    g := SumPositive(PERMITS, s.threads);
  }

  lemma LosesIf(s0: System, roles: seq<Role>) returns (last: System)
    requires Initial(s0, roles) && CanLose(roles, s0.cap)
    ensures Reaches(s0, last) && WakeupLost(last)
  {
    var j := FirstWriters(roles, s0.cap);
    var full := Fill(s0, roles, j);
    var w := Waiter(roles, j, s0.cap);
    var c :| 0 <= c < |roles| && TakesEverything(roles[c]);
    ReachedInvariant(s0, roles, full);
    var g := HolderAmong(full, roles);
    FillingFree(full, roles);
    last := SleepAndLose(s0, full, roles[w], roles[c], g, w, c);
  }

  ghost predicate NoneLocked(s: System) {
    forall k :: 0 <= k < |s.threads| ==> s.threads[k].held.locks == {} && s.threads[k].wait.Running?
  }

  lemma FillingFree(s: System, roles: seq<Role>)
    requires Filling(s, roles)
    ensures NoneLocked(s)
  {
  }

  lemma SleepAndLose(s0: System, s: System, one: Role, all: Role, g: nat, w: nat, c: nat) returns (last: System)
    requires Reaches(s0, s) && s.cap >= 2 && s.free == 0 && NoneLocked(s)
    requires g < |s.threads| && HoldsOne(s.threads[g])
    requires w < |s.threads| && (one.Writer? || UngatedWrites(one)) && AtStart(s.threads[w], one, s.cap)
    requires c < |s.threads| && TakesEverything(all) && AtStart(s.threads[c], all, s.cap) && w != c
    ensures Reaches(s0, last) && WakeupLost(last)
  {
    var waiting := SleepForOne(s0, s, one, w);
    assert !Owned(waiting.threads, Gate);
    var both := SleepForAll(s0, waiting, all, c);
    last := Lose(s0, both, g, w, c);
  }

  /** Somebody to sleep for one permit once the first writers hold them all. */
  lemma Waiter(roles: seq<Role>, j: nat, cap: nat) returns (w: nat)
    requires j <= |roles| && Writers(roles[..j]) == cap < Contenders(roles)
    ensures w < |roles| && ((roles[w].Writer? && j <= w) || UngatedWrites(roles[w]))
  {
    WritersAppend(roles[..j], roles[j..]);
    assert roles[..j] + roles[j..] == roles;
    if Writers(roles[j..]) > 0 {
      var k := SomeWriter(roles[j..]);
      w := j + k;
    } else {
      w :| 0 <= w < |roles| && UngatedWrites(roles[w]);
    }
  }

  lemma ReachedInvariant(s0: System, roles: seq<Role>, s: System)
    requires Initial(s0, roles) && Reaches(s0, s)
    ensures Invariant(s)
  {
    var run :| IsOrderedRun(run) && run[0] == s0 && run[|run| - 1] == s;
    LosesOnlyIf(run, roles);
  }

  /**
   An engine has a run that loses a wake-up if and only if it has two permits or more, a snapshot or a
   close, and more contenders for a single permit than permits.
   */
  lemma LosesExactly(s: System, roles: seq<Role>)
    requires Initial(s, roles)
    ensures (exists last :: Reaches(s, last) && WakeupLost(last)) <==> CanLose(roles, s.cap)
  {
    if CanLose(roles, s.cap) {
      var last := LosesIf(s, roles);
    } else if last :| Reaches(s, last) && WakeupLost(last) {
      var run :| IsOrderedRun(run) && run[0] == s && run[|run| - 1] == last;
      LosesOnlyIf(run, roles);
    }
  }

  function OneRowWriter(): Role {
    Writer(false, Batch([], false))
  }

  function StartOf(roles: seq<Role>, cap: nat): System {
    System(cap, cap, seq(|roles|, i requires 0 <= i < |roles| => Thread(Program(roles[i], cap), NOTHING, Running)))
  }

  lemma ThreeWritersAndClose(roles: seq<Role>)
    requires roles == [OneRowWriter(), OneRowWriter(), OneRowWriter(), Close(0)]
    ensures CanLose(roles, 2)
  {
    var two := roles[1..];
    var one := two[1..];
    assert one[1..] == [Close(0)] && Writers([Close(0)]) == 0;
    assert Writers(one) == 1 && Writers(two) == 2 && Writers(roles) == 3;
    assert TakesEverything(roles[3]);
  }

  /** Three writers, two permits and a close: such a run, among all runs. */
  lemma CloseLosesWakeup() returns (run: seq<System>)
    ensures IsRun(run) && Initial(run[0], [OneRowWriter(), OneRowWriter(), OneRowWriter(), Close(0)]) && run[0].cap == 2
    ensures WakeupLost(run[|run| - 1])
  {
    var roles := [OneRowWriter(), OneRowWriter(), OneRowWriter(), Close(0)];
    ThreeWritersAndClose(roles);
    run := LosingRun(StartOf(roles, 2), roles);
  }

  lemma LosingRun(s: System, roles: seq<Role>) returns (run: seq<System>)
    requires Initial(s, roles) && CanLose(roles, s.cap)
    ensures IsRun(run) && run[0] == s && WakeupLost(run[|run| - 1])
  {
    var last := LosesIf(s, roles);
    run :| IsOrderedRun(run) && run[0] == s && run[|run| - 1] == last;
    forall k | 0 <= k < |run| - 1 ensures Step(run[k], run[k + 1]) {
      assert OrderedStep(run[k], run[k + 1]);
    }
  }
}
