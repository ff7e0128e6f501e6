/**
 Wake-ups on the one condition variable that `acquire` and `acquire_all` share (src/concurrency.rs).
 `release` notifies one sleeper, whoever that is: an `acquire_all` may be the one, find too few
 permits and go back to sleep, while a permit is free and somebody who wants just one sleeps on.
 */
module LockWakeups {
  import opened LockProtocol
  import opened LockPrograms

  const WOKEN: Thread -> nat := (th: Thread) => if th.wait.Woken? then 1 else 0

  predicate WantsOne(th: Thread) {
    th.wait.Asleep? && th.ops != [] && th.ops[0].TakePermit?
  }

  ghost predicate SomeoneWantsOne(threads: seq<Thread>) {
    exists t :: 0 <= t < |threads| && WantsOne(threads[t])
  }

  /** Somebody sleeps for one permit although more permits are free than woken threads will look at. */
  ghost predicate WakeupLost(s: System) {
    SomeoneWantsOne(s.threads) && s.free > Sum(WOKEN, s.threads)
  }

  /**
   Thread `t` was woken for `acquire_all` and gives its wake-up away: it goes back to sleep or gives
   up, nothing is taken, and the others who were woken are too few for the free permits.
   */
  ghost predicate Swallows(s: System, t: nat, next: System) {
    && t < |s.threads| && t < |next.threads|
    && s.threads[t].wait.Woken? && s.threads[t].ops != [] && s.threads[t].ops[0].TakeAll?
    && !next.threads[t].wait.Woken? && next.free == s.free
    && s.free >= Sum(WOKEN, s.threads) && SomeoneWantsOne(next.threads)
  }

  /** Replacing thread `t` by one that is not newly waiting for one permit adds no such thread. */
  lemma NoNewSleeper(threads: seq<Thread>, t: nat, th: Thread)
    requires t < |threads| && (WantsOne(th) ==> WantsOne(threads[t])) && SomeoneWantsOne(threads[t := th])
    ensures SomeoneWantsOne(threads)
  {
    var u :| 0 <= u < |threads| && WantsOne(threads[t := th][u]);
    assert WantsOne(threads[u]);
  }

  lemma NotifiedSleeper(before: seq<Thread>, after: seq<Thread>)
    requires Notified(before, after) && SomeoneWantsOne(after)
    ensures SomeoneWantsOne(before) && Sum(WOKEN, after) == Sum(WOKEN, before) + 1
  {
    var u :| 0 <= u < |after| && WantsOne(after[u]);
    assert after[u].wait.Asleep?;
    if after != before {
      var t :| 0 <= t < |before| && before[t].wait.Asleep? && after == before[t := before[t].(wait := Woken)];
      NoNewSleeper(before, t, before[t].(wait := Woken));
      SumUpdate(WOKEN, before, t, before[t].(wait := Woken));
    }
  }

  lemma PerformsLosesNothing(s: System, t: nat, next: System)
    requires Invariant(s) && Performs(s, t, next) && WakeupLost(next)
    ensures WakeupLost(s)
  {
    var th, op := s.threads[t], s.threads[t].ops[0];
    var threads := s.threads[t := Proceed(th, s.cap)];
    assert ThreadOk(th, s.cap);
    SumUpdate(WOKEN, s.threads, t, Proceed(th, s.cap));
    if op.GivePermit? {
      NotifiedSleeper(threads, next.threads);
    }
    NoNewSleeper(s.threads, t, Proceed(th, s.cap));
  }

  lemma TakesLateLosesNothing(s: System, t: nat, next: System)
    requires Invariant(s) && TakesLate(s, t, next) && WakeupLost(next)
    ensures WakeupLost(s)
  {
    SumUpdate(WOKEN, s.threads, t, Proceed(s.threads[t], s.cap));
    NoNewSleeper(s.threads, t, Proceed(s.threads[t], s.cap));
  }

  lemma LeavesLosesExactly(s: System, t: nat, th: Thread, next: System)
    requires Invariant(s) && t < |s.threads| && next == s.(threads := s.threads[t := th]) && !WakeupLost(s)
    requires s.threads[t].ops != [] && Acquires(s.threads[t].ops[0]) && !th.wait.Woken?
    requires s.threads[t].wait.Woken? && s.threads[t].ops[0].TakePermit? ==> s.free == 0
    requires WantsOne(th) ==> WantsOne(s.threads[t]) || s.free == 0
    ensures WakeupLost(next) ==> Swallows(s, t, next)
  {
    assert ThreadOk(s.threads[t], s.cap);
    SumUpdate(WOKEN, s.threads, t, th);
    if WakeupLost(next) && s.free > 0 {
      NoNewSleeper(s.threads, t, th);
    }
  }

  lemma StepLosesOnlySo(s: System, next: System)
    requires Invariant(s) && Step(s, next) && !WakeupLost(s) && WakeupLost(next)
    ensures exists t: nat :: Swallows(s, t, next)
  {
    if MovesOn(s, next) {
      var t: nat :| Performs(s, t, next) || Sleeps(s, t, next);
      if Performs(s, t, next) {
        PerformsLosesNothing(s, t, next);
      } else {
        LeavesLosesExactly(s, t, s.threads[t].(wait := Asleep), next);
      }
    } else if t: nat :| TakesLate(s, t, next) {
      TakesLateLosesNothing(s, t, next);
    } else {
      var t: nat, unwind :| GivesUp(s, t, unwind, next);
      LeavesLosesExactly(s, t, Thread(unwind, s.threads[t].held, Running), next);
    }
  }

  /** Only a step of a woken thread itself ends its being woken. */
  lemma WokenUntilItSteps(s: System, t: nat, next: System)
    requires Invariant(s) && Step(s, next) && t < |s.threads| && s.threads[t].wait.Woken? && s.threads[t].ops != []
    requires s.threads[t].ops[0].TakeAll? && !next.threads[t].wait.Woken? && next.free == s.free
    requires |next.threads| == |s.threads|
    ensures next == s.(threads := s.threads[t := next.threads[t]])
  {
    if MovesOn(s, next) {
      var u: nat :| Performs(s, u, next) || Sleeps(s, u, next);
    } else if u: nat :| TakesLate(s, u, next) {
    } else {
      var u: nat, unwind :| GivesUp(s, u, unwind, next);
    }
  }

  /**
   A step loses a wake-up if and only if a woken `acquire_all` gives away one that somebody who sleeps
   for a single permit would have needed.
   */
  lemma WakeupLostExactly(s: System, next: System)
    requires Invariant(s) && Step(s, next) && !WakeupLost(s)
    ensures WakeupLost(next) <==> exists t: nat :: Swallows(s, t, next)
  {
    if WakeupLost(next) {
      StepLosesOnlySo(s, next);
    } else if t: nat :| Swallows(s, t, next) {
      StepLighter(s, next);
      WokenUntilItSteps(s, t, next);
      SumUpdate(WOKEN, s.threads, t, next.threads[t]);
    }
  }

  // ----- Without `acquire_all` -----

  ghost predicate NeverTakesAll(s: System) {
    forall t :: 0 <= t < |s.threads| ==> TakeAll !in s.threads[t].ops
  }

  lemma StepNeverTakesAll(s: System, next: System)
    requires NeverTakesAll(s) && Step(s, next)
    ensures NeverTakesAll(next)
  {
    if MovesOn(s, next) {
      var t: nat :| Performs(s, t, next) || Sleeps(s, t, next);
    } else if t: nat :| TakesLate(s, t, next) {
    } else {
      var t: nat, unwind :| GivesUp(s, t, unwind, next);
      assert forall k :: 0 <= k < |unwind| ==> !Acquires(unwind[k]);
    }
  }

  lemma NothingSwallowed(s: System, t: nat, next: System)
    requires NeverTakesAll(s)
    ensures !Swallows(s, t, next)
  {
    if t < |s.threads| && s.threads[t].ops != [] {
      assert s.threads[t].ops[0] in s.threads[t].ops;
    }
  }

  /** In every run in which nobody takes all permits no wake-up is ever lost. */
  lemma {:induction false} NoWakeupLost(run: seq<System>)
    requires IsRun(run) && Invariant(run[0]) && NeverTakesAll(run[0]) && !WakeupLost(run[0])
    ensures Invariant(run[|run| - 1]) && NeverTakesAll(run[|run| - 1]) && !WakeupLost(run[|run| - 1])
    decreases |run|
  {
    if |run| > 1 {
      var front, last := run[..|run| - 1], run[|run| - 1];
      forall k | 0 <= k < |front| - 1 ensures Step(front[k], front[k + 1]) {
        assert Step(run[k], run[k + 1]);
      }
      NoWakeupLost(front);
      var before := front[|front| - 1];
      assert Step(before, last);
      StepKeepsInvariant(before, last);
      StepNeverTakesAll(before, last);
      forall t: nat ensures !Swallows(before, t, last) {
        NothingSwallowed(before, t, last);
      }
      WakeupLostExactly(before, last);
    }
  }

  lemma {:induction false} ShardsTakeNothing(shards: seq<nat>, rest: seq<Op>)
    ensures TakeAll in LockShards(shards, rest) <==> TakeAll in rest
    ensures TakeAll in UnlockShards(shards, rest) <==> TakeAll in rest
    decreases |shards|
  {
    if shards != [] {
      ShardsTakeNothing(shards[1..], rest);
    }
  }

  lemma {:induction false} PassesTakeNothing(passes: nat, rest: seq<Op>)
    ensures TakeAll in CompactionPasses(passes, rest) <==> TakeAll in rest
    decreases passes
  {
    if passes > 0 {
      PassesTakeNothing(passes - 1, rest);
    }
  }

  lemma SectionTakesOne(batch: Batch, rest: seq<Op>)
    ensures TakeAll in ShardSection(batch, rest) <==> TakeAll in rest
  {
    ShardsTakeNothing(batch.shards, rest);
    ShardsTakeNothing(batch.shards, UnlockShards(batch.shards, rest));
  }

  lemma BatchTakesOne(batch: Batch, rest: seq<Op>)
    ensures TakeAll in WriteBatch(batch, rest) <==> TakeAll in rest
  {
    PassesTakeNothing(if batch.trims then 1 else 0, rest);
    SectionTakesOne(batch, [GivePermit] + Trim(batch, rest));
  }

  lemma {:induction false} BatchesTakeOne(batches: seq<Batch>, rest: seq<Op>)
    ensures TakeAll in WriteBatches(batches, rest) <==> TakeAll in rest
    decreases |batches|
  {
    if batches != [] {
      BatchesTakeOne(batches[1..], rest);
      BatchTakesOne(batches[0], WriteBatches(batches[1..], rest));
    }
  }

  /** Only snapshot and close take all permits. */
  lemma TakesAllExactly(role: Role, cap: nat)
    ensures TakeAll in Program(role, cap) <==> role.Snapshot? || role.Close?
  {
    match role
    case Writer(invalidates, batch) =>
      BatchTakesOne(batch, []);
      PassesTakeNothing(if batch.trims then 1 else 0, []);
      SectionTakesOne(batch, [Unlock(RunLock)] + ([GivePermit] + Trim(batch, [])));
    case RollupPass(gated, batches) => BatchesTakeOne(batches, [Unlock(RunLock)] + Ungate(gated));
    case Snapshot => assert Program(role, cap)[1] == TakeAll;
    case Close(_) => assert Program(role, cap)[1] == TakeAll;
    case Maintenance(gated, passes) => PassesTakeNothing(passes, Ungate(gated));
  }

  /** Writers, rollup passes and maintenance alone lose no wake-up in any run. */
  lemma EngineLosesNoWakeup(run: seq<System>, roles: seq<Role>)
    requires IsRun(run) && Initial(run[0], roles)
    requires forall t :: 0 <= t < |roles| ==> !roles[t].Snapshot? && !roles[t].Close?
    ensures !WakeupLost(run[|run| - 1])
  {
    InitialInvariant(run[0], roles);
    forall t | 0 <= t < |roles| ensures TakeAll !in run[0].threads[t].ops {
      TakesAllExactly(roles[t], run[0].cap);
    }
    NoWakeupLost(run);
  }
}
