/**
 The counting semaphore of src/concurrency.rs. Each look at the counter happens under its mutex; what
 other threads do while this one waits on the condition variable comes in as the counts it finds
 when it wakes up.
 */
module SemaphoreModel {
  import opened Common

  /** The counter after one wait, and whether the wait ended by timeout. */
  datatype Wake = Wake(free: nat, timedOut: bool)

  class Semaphore {
    const maxPermits: nat
    var permits: nat
    ghost var guards: nat

    /** Free permits and live guards add up to the capacity. */
    ghost predicate Valid()
      reads this
    {
      maxPermits >= 1 && permits + guards == maxPermits
    }

    constructor (requested: nat)
      ensures Valid() && maxPermits == Max(requested, 1) && permits == maxPermits && guards == 0
    {
      maxPermits := Max(requested, 1);
      permits := Max(requested, 1);
      guards := 0;
    }

    /** How many permits an `acquire` or an `acquire_all` takes. */
    function Wanted(all: bool): nat {
      if all then maxPermits else 1
    }

    /** What the counter shows at look `k`. */
    ghost function Seen(first: nat, wakes: seq<Wake>, k: nat): nat
      requires k <= |wakes|
    {
      if k == 0 then first else wakes[k - 1].free
    }

    /**
     `try_acquire_for` and `acquire_all`: takes what it wants at the first look that finds it, and
     gives up only after a look that does not, when a wait timed out or the deadline passed.
     */
    method AcquireWithin(all: bool, wakes: seq<Wake>) returns (taken: bool, looks: nat)
      requires Valid() && forall k :: 0 <= k < |wakes| ==> wakes[k].free <= maxPermits
      modifies this
      ensures Valid() && looks <= |wakes|
      ensures forall k :: 0 <= k < looks ==> Seen(old(permits), wakes, k) < Wanted(all)
      ensures taken <==> Seen(old(permits), wakes, looks) >= Wanted(all)
      ensures permits == Seen(old(permits), wakes, looks) - (if taken then Wanted(all) else 0)
      ensures !taken ==> looks == |wakes| || (looks > 0 && wakes[looks - 1].timedOut)
    {
      looks := 0;
      while true
        invariant Valid() && looks <= |wakes| && permits == Seen(old(permits), wakes, looks)
        invariant forall k :: 0 <= k < looks ==> Seen(old(permits), wakes, k) < Wanted(all)
        decreases |wakes| - looks
      {
        if permits >= Wanted(all) {
          permits := permits - Wanted(all);
          guards := guards + Wanted(all);
          return true, looks;
        }
        if looks == |wakes| {
          return false, looks;
        }
        permits, guards := wakes[looks].free, maxPermits - wakes[looks].free;
        looks := looks + 1;
        if wakes[looks - 1].timedOut && permits < Wanted(all) {
          return false, looks;
        }
      }
    }

    /** `release`, on drop of a guard: the saturation check never holds back a permit. */
    method Release()
      requires Valid() && guards > 0
      modifies this
      ensures Valid() && permits == old(permits) + 1 && guards == old(guards) - 1
    {
      if permits < maxPermits {
        permits := permits + 1;
      }
      guards := guards - 1;
    }
  }
}
