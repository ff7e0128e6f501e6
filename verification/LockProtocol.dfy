/**
 The lock discipline of the write path as a state machine over all interleavings: the background
 maintenance gate, the rollup run lock, the write permits, the registry shard locks and the
 compaction gate, taken by writers (src/engine/ingest_pipeline.rs), rollup passes
 (src/engine/runtime.rs, src/engine/rollups/materialization.rs), snapshots (src/engine/engine.rs),
 close (src/engine/lifecycle/shutdown.rs) and maintenance passes. Permits are the semaphore of
 src/concurrency.rs with its condition variable.
 */
module LockProtocol {
  import opened Common
  import ShardLocks

  datatype Mutex = Gate | RunLock | Shard(i: nat) | Compaction

  datatype Op =
    | Lock(m: Mutex)
    | Unlock(m: Mutex)
    | TakePermit
    | TakeAll
    | GivePermit

  const PERMIT_RANK: nat := 2

  function MutexRank(m: Mutex): nat {
    if m.Gate? then 0 else if m.RunLock? then 1 else if m.Shard? then 3 + m.i else 3 + ShardLocks.SHARD_COUNT
  }

  /** The shards that exist lie below the compaction gate. */
  predicate Exists(m: Mutex) {
    m.Shard? ==> m.i < ShardLocks.SHARD_COUNT
  }

  // ----- One thread -----

  datatype Held = Held(locks: set<Mutex>, permits: nat)

  const NOTHING := Held({}, 0)

  /** Everything held ranks below `rank`. */
  ghost predicate Below(h: Held, rank: nat) {
    (forall m :: m in h.locks ==> MutexRank(m) < rank) && (h.permits > 0 ==> PERMIT_RANK < rank)
  }

  predicate Acquires(op: Op) {
    op.Lock? || op.TakePermit? || op.TakeAll?
  }

  predicate Takes(op: Op) {
    op.TakePermit? || op.TakeAll?
  }

  function OpRank(op: Op): nat {
    if op.Lock? || op.Unlock? then MutexRank(op.m) else PERMIT_RANK
  }

  /** An acquisition ranks above everything held; a release gives back something held. */
  ghost predicate Legal(h: Held, op: Op) {
    match op
    case Lock(m) => Exists(m) && Below(h, MutexRank(m))
    case Unlock(m) => m in h.locks
    case TakePermit => Below(h, PERMIT_RANK)
    case TakeAll => Below(h, PERMIT_RANK)
    case GivePermit => h.permits > 0
  }

  function After(h: Held, op: Op, cap: nat): Held {
    match op
    case Lock(m) => h.(locks := h.locks + {m})
    case Unlock(m) => h.(locks := h.locks - {m})
    case TakePermit => h.(permits := h.permits + 1)
    case TakeAll => h.(permits := h.permits + cap)
    case GivePermit => h.(permits := if h.permits > 0 then h.permits - 1 else 0)
  }

  /** The rest of a program that keeps the order and ends with nothing held. */
  ghost predicate Disciplined(h: Held, ops: seq<Op>, cap: nat)
    decreases |ops|
  {
    if ops == [] then h == NOTHING else Legal(h, ops[0]) && Disciplined(After(h, ops[0], cap), ops[1..], cap)
  }

  /** The guards a thread drops when it fails: `ops` releases exactly what `h` holds. */
  ghost predicate Unwinds(h: Held, ops: seq<Op>) {
    (forall k :: 0 <= k < |ops| ==> !Acquires(ops[k])) && |ops| == |h.locks| + h.permits
  }

  /** Running, asleep on the condition variable, or notified and about to look at the permits again. */
  datatype Wait = Running | Asleep | Woken

  datatype Thread = Thread(ops: seq<Op>, held: Held, wait: Wait)

  // ----- The system -----

  datatype System = System(cap: nat, free: nat, threads: seq<Thread>)

  ghost predicate Owned(threads: seq<Thread>, m: Mutex) {
    exists t :: 0 <= t < |threads| && m in threads[t].held.locks
  }

  /** `acquire` takes one of the free permits, `acquire_all` waits for all of them. */
  predicate Available(s: System, op: Op) {
    if op.TakeAll? then s.free == s.cap else s.free > 0
  }

  /** Thread `t` has an operation to do and is not asleep. */
  predicate Awake(s: System, t: nat) {
    t < |s.threads| && s.threads[t].ops != [] && !s.threads[t].wait.Asleep?
  }

  /** Thread `t` can do its next operation now. */
  ghost predicate Enabled(s: System, t: nat) {
    && Awake(s, t)
    && var op := s.threads[t].ops[0];
       (op.Lock? ==> !Owned(s.threads, op.m)) && (Takes(op) ==> Available(s, op))
  }

  function Proceed(th: Thread, cap: nat): Thread
    requires th.ops != []
  {
    Thread(th.ops[1..], After(th.held, th.ops[0], cap), Running)
  }

  function FreeAfter(s: System, op: Op): int {
    if op.TakePermit? then s.free - 1
    else if op.TakeAll? then 0
    else if op.GivePermit? then s.free + 1
    else s.free
  }

  /** `notify_one`: some sleeper wakes up to look again, if there is one. */
  ghost predicate Notified(before: seq<Thread>, after: seq<Thread>) {
    || (after == before && forall t :: 0 <= t < |before| ==> !before[t].wait.Asleep?)
    || (exists t :: 0 <= t < |before| && before[t].wait.Asleep? && after == before[t := before[t].(wait := Woken)])
  }

  /** One operation completes. */
  ghost predicate Performs(s: System, t: nat, next: System) {
    && Enabled(s, t)
    && var op := s.threads[t].ops[0];
       var threads := s.threads[t := Proceed(s.threads[t], s.cap)];
       && next.cap == s.cap && next.free == FreeAfter(s, op)
       && if op.GivePermit? then Notified(threads, next.threads) else next.threads == threads
  }

  /** Not enough permits: the thread goes to sleep on the condition variable. */
  ghost predicate Sleeps(s: System, t: nat, next: System) {
    && Awake(s, t) && Takes(s.threads[t].ops[0]) && !Available(s, s.threads[t].ops[0])
    && next == s.(threads := s.threads[t := s.threads[t].(wait := Asleep)])
  }

  /**
   A timeout or an error before the next acquisition: all guards are dropped. Who waited for
   permits looks at them once more before it gives up.
   */
  ghost predicate GivesUp(s: System, t: nat, unwind: seq<Op>, next: System) {
    && t < |s.threads| && s.threads[t].ops != [] && Acquires(s.threads[t].ops[0])
    && (s.threads[t].wait.Running? || !Available(s, s.threads[t].ops[0]))
    && Unwinds(s.threads[t].held, unwind) && Disciplined(s.threads[t].held, unwind, s.cap)
    && next == s.(threads := s.threads[t := Thread(unwind, s.threads[t].held, Running)])
  }

  /** Some thread gets on, without anyone giving up. */
  ghost predicate MovesOn(s: System, next: System) {
    exists t: nat :: Performs(s, t, next) || Sleeps(s, t, next)
  }

  /** A sleeper whose timeout runs out finds what it wants after all, and takes it. */
  ghost predicate TakesLate(s: System, t: nat, next: System) {
    && t < |s.threads| && s.threads[t].wait.Asleep? && s.threads[t].ops != []
    && Takes(s.threads[t].ops[0]) && Available(s, s.threads[t].ops[0])
    && next.cap == s.cap && next.free == FreeAfter(s, s.threads[t].ops[0])
    && next.threads == s.threads[t := Proceed(s.threads[t], s.cap)]
  }

  ghost predicate Step(s: System, next: System) {
    || MovesOn(s, next)
    || (exists t: nat :: TakesLate(s, t, next))
    || exists t: nat, unwind :: GivesUp(s, t, unwind, next)
  }

  // ----- What every reachable state satisfies -----

  function Sum(f: Thread -> nat, threads: seq<Thread>): nat {
    if threads == [] then 0 else f(threads[0]) + Sum(f, threads[1..])
  }

  lemma {:induction false} SumUpdate(f: Thread -> nat, threads: seq<Thread>, t: nat, th: Thread)
    requires t < |threads|
    ensures Sum(f, threads[t := th]) == Sum(f, threads) - f(threads[t]) + f(th)
    ensures Sum(f, threads) >= f(threads[t])
    decreases t
  {
    if t > 0 {
      assert threads[t := th][1..] == threads[1..][t - 1 := th];
      SumUpdate(f, threads[1..], t - 1, th);
    } else {
      assert threads[t := th][1..] == threads[1..];
    }
  }

  lemma {:induction false} SumPositive(f: Thread -> nat, threads: seq<Thread>) returns (t: nat)
    requires Sum(f, threads) > 0
    ensures t < |threads| && f(threads[t]) > 0
  {
    if f(threads[0]) > 0 {
      t := 0;
    } else {
      var rest := SumPositive(f, threads[1..]);
      t := rest + 1;
    }
  }

  const PERMITS: Thread -> nat := (th: Thread) => th.held.permits

  ghost predicate ThreadOk(th: Thread, cap: nat) {
    && Disciplined(th.held, th.ops, cap)
    && (!th.wait.Running? ==> th.ops != [] && Takes(th.ops[0]))
  }

  ghost predicate AllOk(threads: seq<Thread>, cap: nat) {
    forall t :: 0 <= t < |threads| ==> ThreadOk(threads[t], cap)
  }

  ghost predicate Exclusive(threads: seq<Thread>) {
    forall t, u, m :: 0 <= t < |threads| && 0 <= u < |threads| && m in threads[t].held.locks && m in threads[u].held.locks ==>
      t == u
  }

  ghost predicate AnyWaits(threads: seq<Thread>, wait: Wait) {
    exists t :: 0 <= t < |threads| && threads[t].wait == wait
  }

  /** With all permits free, nobody sleeps unless somebody was notified and has yet to look. */
  ghost predicate NobodyForgotten(s: System) {
    s.free == s.cap && AnyWaits(s.threads, Asleep) ==> AnyWaits(s.threads, Woken)
  }

  ghost predicate Invariant(s: System) {
    && s.cap >= 1
    && s.free + Sum(PERMITS, s.threads) == s.cap
    && AllOk(s.threads, s.cap)
    && Exclusive(s.threads)
    && NobodyForgotten(s)
  }

  /** Replacing one thread keeps everything but the accounting. */
  lemma ReplaceThread(threads: seq<Thread>, t: nat, th: Thread, cap: nat)
    requires t < |threads| && Exclusive(threads) && ThreadOk(th, cap)
    requires AllOk(threads, cap)
    requires forall m :: m in th.held.locks ==> m in threads[t].held.locks || !Owned(threads, m)
    ensures Exclusive(threads[t := th]) && AllOk(threads[t := th], cap)
  {
    var after := threads[t := th];
    forall u, v, m | 0 <= u < |after| && 0 <= v < |after| && m in after[u].held.locks && m in after[v].held.locks
      ensures u == v
    {
      assert u != t ==> m in threads[u].held.locks && Owned(threads, m);
      assert v != t ==> m in threads[v].held.locks && Owned(threads, m);
    }
  }

  lemma LegalProceed(th: Thread, cap: nat)
    requires th.ops != [] && ThreadOk(th, cap)
    ensures ThreadOk(Proceed(th, cap), cap)
  {
  }

  lemma PerformsKeepsInvariant(s: System, t: nat, next: System)
    requires Invariant(s) && Performs(s, t, next)
    ensures Invariant(next)
  {
    var th, op := s.threads[t], s.threads[t].ops[0];
    var threads := s.threads[t := Proceed(th, s.cap)];
    assert ThreadOk(th, s.cap);
    LegalProceed(th, s.cap);
    ReplaceThread(s.threads, t, Proceed(th, s.cap), s.cap);
    SumUpdate(PERMITS, s.threads, t, Proceed(th, s.cap));
    if op.GivePermit? {
      NotifyKeeps(threads, next.threads, s.cap);
    } else if !Takes(op) {
      if next.free == next.cap && AnyWaits(threads, Asleep) {
        StillWaits(s.threads, t, Proceed(th, s.cap));
      }
    }
  }

  /** Replacing a running thread by a running one changes who waits for nobody. */
  lemma StillWaits(threads: seq<Thread>, t: nat, th: Thread)
    requires t < |threads| && threads[t].wait.Running? && th.wait.Running?
    ensures forall w: Wait :: !w.Running? ==> (AnyWaits(threads, w) <==> AnyWaits(threads[t := th], w))
  {
    forall w: Wait | !w.Running? ensures AnyWaits(threads, w) <==> AnyWaits(threads[t := th], w) {
      if AnyWaits(threads, w) {
        var u :| 0 <= u < |threads| && threads[u].wait == w;
        assert threads[t := th][u].wait == w;
      }
      if AnyWaits(threads[t := th], w) {
        var u :| 0 <= u < |threads| && threads[t := th][u].wait == w;
        assert threads[u].wait == w;
      }
    }
  }

  lemma NotifyKeeps(before: seq<Thread>, after: seq<Thread>, cap: nat)
    requires Notified(before, after) && Exclusive(before)
    requires AllOk(before, cap)
    ensures Exclusive(after) && AllOk(after, cap)
    ensures Sum(PERMITS, after) == Sum(PERMITS, before)
    ensures AnyWaits(after, Asleep) ==> AnyWaits(after, Woken)
  {
    if after != before {
      var t :| 0 <= t < |before| && before[t].wait.Asleep? && after == before[t := before[t].(wait := Woken)];
      assert ThreadOk(before[t], cap);
      ReplaceThread(before, t, before[t].(wait := Woken), cap);
      SumUpdate(PERMITS, before, t, before[t].(wait := Woken));
      assert after[t].wait == Woken;
    }
  }

  lemma SleepsKeepsInvariant(s: System, t: nat, next: System)
    requires Invariant(s) && Sleeps(s, t, next)
    ensures Invariant(next)
  {
    var th := s.threads[t].(wait := Asleep);
    assert ThreadOk(s.threads[t], s.cap);
    ReplaceThread(s.threads, t, th, s.cap);
    SumUpdate(PERMITS, s.threads, t, th);
  }

  lemma GivesUpKeepsInvariant(s: System, t: nat, unwind: seq<Op>, next: System)
    requires Invariant(s) && GivesUp(s, t, unwind, next)
    ensures Invariant(next)
  {
    var th := Thread(unwind, s.threads[t].held, Running);
    assert ThreadOk(s.threads[t], s.cap);
    ReplaceThread(s.threads, t, th, s.cap);
    SumUpdate(PERMITS, s.threads, t, th);
    if next.free == next.cap && s.threads[t].wait.Running? {
      StillWaits(s.threads, t, th);
    }
  }

  lemma TakesLateKeepsInvariant(s: System, t: nat, next: System)
    requires Invariant(s) && TakesLate(s, t, next)
    ensures Invariant(next)
  {
    var th := s.threads[t];
    assert ThreadOk(th, s.cap);
    LegalProceed(th, s.cap);
    ReplaceThread(s.threads, t, Proceed(th, s.cap), s.cap);
    SumUpdate(PERMITS, s.threads, t, Proceed(th, s.cap));
  }

  lemma StepKeepsInvariant(s: System, next: System)
    requires Invariant(s) && Step(s, next)
    ensures Invariant(next)
  {
    if MovesOn(s, next) {
      var t: nat :| Performs(s, t, next) || Sleeps(s, t, next);
      if Performs(s, t, next) {
        PerformsKeepsInvariant(s, t, next);
      } else {
        SleepsKeepsInvariant(s, t, next);
      }
    } else if t: nat :| TakesLate(s, t, next) {
      TakesLateKeepsInvariant(s, t, next);
    } else {
      var t: nat, unwind :| GivesUp(s, t, unwind, next);
      GivesUpKeepsInvariant(s, t, unwind, next);
    }
  }

  // ----- No deadlock -----

  ghost predicate CanMove(s: System, t: nat) {
    Enabled(s, t) || (Awake(s, t) && Takes(s.threads[t].ops[0]) && !Available(s, s.threads[t].ops[0]))
  }

  lemma HolderContinues(s: System, t: nat)
    requires Invariant(s) && t < |s.threads|
    requires s.threads[t].held != NOTHING
    ensures s.threads[t].ops != []
    ensures Enabled(s, t) || Acquires(s.threads[t].ops[0])
    ensures Acquires(s.threads[t].ops[0]) ==> Below(s.threads[t].held, OpRank(s.threads[t].ops[0]))
    ensures OpRank(s.threads[t].ops[0]) <= 3 + ShardLocks.SHARD_COUNT || !Acquires(s.threads[t].ops[0])
  {
    assert ThreadOk(s.threads[t], s.cap);
  }

  /** Follow who waits for whom: each step goes to a higher rank, so it ends at a thread that can move. */
  lemma {:induction false} Follow(s: System, t: nat) returns (u: nat)
    requires Invariant(s) && t < |s.threads| && s.threads[t].ops != []
    ensures CanMove(s, u)
    decreases 3 + ShardLocks.SHARD_COUNT - OpRank(s.threads[t].ops[0])
  {
    var th := s.threads[t];
    var op := th.ops[0];
    assert ThreadOk(th, s.cap);
    if CanMove(s, t) {
      return t;
    }
    var holder: nat;
    if op.Lock? {
      holder :| 0 <= holder < |s.threads| && op.m in s.threads[holder].held.locks;
    } else {
      assert th.wait.Asleep?;
      assert AnyWaits(s.threads, Asleep);
      if s.free == s.cap {
        var w :| 0 <= w < |s.threads| && s.threads[w].wait == Woken;
        assert ThreadOk(s.threads[w], s.cap);
        return w;
      }
      holder := SumPositive(PERMITS, s.threads);
    }
    HolderContinues(s, holder);
    if CanMove(s, holder) {
      return holder;
    }
    u := Follow(s, holder);
  }

  ghost predicate Finished(s: System) {
    forall t :: 0 <= t < |s.threads| ==> s.threads[t].ops == []
  }

  /** As long as a thread has work left, some thread gets on without anyone giving up. */
  lemma NoDeadlock(s: System) returns (next: System)
    requires Invariant(s) && !Finished(s)
    ensures MovesOn(s, next)
  {
    var t :| 0 <= t < |s.threads| && s.threads[t].ops != [];
    var u := Follow(s, t);
    var op := s.threads[u].ops[0];
    if Enabled(s, u) {
      var threads := s.threads[u := Proceed(s.threads[u], s.cap)];
      var after := threads;
      if op.GivePermit? && AnyWaits(threads, Asleep) {
        var w :| 0 <= w < |threads| && threads[w].wait == Asleep;
        after := threads[w := threads[w].(wait := Woken)];
        assert Notified(threads, after);
      }
      next := System(s.cap, FreeAfter(s, op), after);
      assert Performs(s, u, next);
    } else {
      next := s.(threads := s.threads[u := s.threads[u].(wait := Asleep)]);
      assert Sleeps(s, u, next);
    }
  }

  // ----- Every run ends -----

  const WEIGHT: Thread -> nat := (th: Thread) => 2 * |th.ops| + (if th.wait.Asleep? then 0 else 1)

  lemma {:induction false} EnoughReleases(h: Held, ops: seq<Op>, cap: nat)
    requires Disciplined(h, ops, cap)
    ensures |ops| >= |h.locks| + h.permits
    decreases |ops|
  {
    if ops != [] {
      EnoughReleases(After(h, ops[0], cap), ops[1..], cap);
      if ops[0].Unlock? {
        assert h.locks == (h.locks - {ops[0].m}) + {ops[0].m};
      } else if ops[0].Lock? {
        assert h.locks <= h.locks + {ops[0].m};
        LocksGrow(h.locks, ops[0].m);
      }
    }
  }

  lemma LocksGrow(locks: set<Mutex>, m: Mutex)
    ensures |locks| <= |locks + {m}|
    ensures m !in locks ==> |locks + {m}| == |locks| + 1
  {
    if m in locks {
      assert locks + {m} == locks;
    }
  }

  lemma UnwindShorter(h: Held, ops: seq<Op>, cap: nat)
    requires cap >= 1 && Disciplined(h, ops, cap) && ops != [] && Acquires(ops[0])
    ensures |ops| >= |h.locks| + h.permits + 2
  {
    EnoughReleases(After(h, ops[0], cap), ops[1..], cap);
    if ops[0].Lock? {
      LocksGrow(h.locks, ops[0].m);
    }
  }

  lemma StepLighter(s: System, next: System)
    requires Invariant(s) && Step(s, next)
    ensures Sum(WEIGHT, next.threads) < Sum(WEIGHT, s.threads) && |next.threads| == |s.threads|
  {
    if MovesOn(s, next) {
      var t: nat :| Performs(s, t, next) || Sleeps(s, t, next);
      if Performs(s, t, next) {
        PerformsLighter(s, t, next);
      } else {
        SumUpdate(WEIGHT, s.threads, t, s.threads[t].(wait := Asleep));
      }
    } else if t: nat :| TakesLate(s, t, next) {
      SumUpdate(WEIGHT, s.threads, t, Proceed(s.threads[t], s.cap));
    } else {
      var t: nat, unwind :| GivesUp(s, t, unwind, next);
      assert ThreadOk(s.threads[t], s.cap);
      UnwindShorter(s.threads[t].held, s.threads[t].ops, s.cap);
      SumUpdate(WEIGHT, s.threads, t, Thread(unwind, s.threads[t].held, Running));
    }
  }

  lemma PerformsLighter(s: System, t: nat, next: System)
    requires Performs(s, t, next)
    ensures Sum(WEIGHT, next.threads) < Sum(WEIGHT, s.threads) && |next.threads| == |s.threads|
  {
    var threads := s.threads[t := Proceed(s.threads[t], s.cap)];
    SumUpdate(WEIGHT, s.threads, t, Proceed(s.threads[t], s.cap));
    if s.threads[t].ops[0].GivePermit? && next.threads != threads {
      var u :| 0 <= u < |threads| && threads[u].wait.Asleep? && next.threads == threads[u := threads[u].(wait := Woken)];
      SumUpdate(WEIGHT, threads, u, threads[u].(wait := Woken));
    }
  }

  ghost predicate IsRun(run: seq<System>) {
    run != [] && forall k :: 0 <= k < |run| - 1 ==> Step(run[k], run[k + 1])
  }

  lemma {:induction false} RunKeepsInvariant(run: seq<System>)
    requires IsRun(run) && Invariant(run[0])
    ensures Invariant(run[|run| - 1]) && |run| - 1 + Sum(WEIGHT, run[|run| - 1].threads) <= Sum(WEIGHT, run[0].threads)
    decreases |run|
  {
    if |run| > 1 {
      var front := run[..|run| - 1];
      forall k | 0 <= k < |front| - 1 ensures Step(front[k], front[k + 1]) {
        assert Step(run[k], run[k + 1]);
      }
      RunKeepsInvariant(front);
      StepKeepsInvariant(front[|front| - 1], run[|run| - 1]);
      StepLighter(front[|front| - 1], run[|run| - 1]);
    }
  }
}
