/**
 The sharded tombstone store on disk (src/engine/tombstone.rs).  A write puts new shard files next
 to the old ones, swaps the manifest, and then removes the replaced files; `trace` records the disk
 after every one of those steps, which are the states a crash can leave behind.
 */
module TombstoneStore {
  import opened Common
  import opened Tombstones

  const SHARD_COUNT: nat := 256

  /** "shard-{index:03}-{counter:016x}.bin" */
  datatype ShardName = ShardName(index: nat, counter: nat)

  type Shards = seq<Option<ShardName>>

  /** An entry of the old single-file format, in which a series may have several. */
  datatype LegacyEntry = LegacyEntry(id: SeriesId, ranges: seq<Range>)

  /** The file at the store's path: absent, the old single-file format, or a shard manifest. */
  datatype ManifestFile = Absent | Legacy(entries: seq<LegacyEntry>) | Sharded(shards: Shards)

  datatype Disk = Disk(manifest: ManifestFile, files: map<ShardName, TombstoneMap>)

  datatype StoreError = MissingShard | CorruptRanges

  function ShardIndex(id: SeriesId): nat {
    id % SHARD_COUNT
  }

  // ----- Loading -----

  /** `normalize_tombstone_map`: every list normalized, empty lists dropped. */
  function NormalizeMap(m: TombstoneMap): Result<TombstoneMap, StoreError> {
    if exists id :: id in m && Normalize(m[id]).Err? then Err(CorruptRanges)
    else Ok(NormalizedEntries(m))
  }

  function NormalizedEntries(m: TombstoneMap): TombstoneMap
    requires forall id :: id in m ==> Normalize(m[id]).Ok?
  {
    map id | id in m && Normalize(m[id]).value != [] :: Normalize(m[id]).value
  }

  function ReadShard(files: map<ShardName, TombstoneMap>, name: ShardName): Result<TombstoneMap, StoreError> {
    if name !in files then Err(MissingShard) else NormalizeMap(files[name])
  }

  function LoadShards(shards: Shards, files: map<ShardName, TombstoneMap>, i: nat): Result<TombstoneMap, StoreError>
    requires i <= |shards|
    decreases |shards| - i
  {
    if i == |shards| then Ok(map[])
    else if shards[i].None? then LoadShards(shards, files, i + 1)
    else
      var m :- ReadShard(files, shards[i].value);
      var rest :- LoadShards(shards, files, i + 1);
      Ok(m + rest)
  }

  function MergeAll(ranges: seq<Range>, added: seq<Range>): seq<Range> {
    if added == [] then ranges else Merge(MergeAll(ranges, added[..|added| - 1]), added[|added| - 1])
  }

  /** What the entries of a legacy file say together, merged range by range. */
  function LegacyMap(entries: seq<LegacyEntry>): TombstoneMap {
    if entries == [] then map[]
    else
      var before, e := LegacyMap(entries[..|entries| - 1]), entries[|entries| - 1];
      if e.ranges == [] then before else before[e.id := MergeAll(CurrentRanges(before, e.id), e.ranges)]
  }

  function Load(d: Disk): Result<TombstoneMap, StoreError> {
    match d.manifest
    case Absent => Ok(map[])
    case Legacy(entries) => NormalizeMap(LegacyMap(entries))
    case Sharded(shards) =>
      var m :- LoadShards(shards, d.files, 0);
      NormalizeMap(m)
  }

  // ----- What a sound disk holds -----

  ghost predicate CleanMap(m: TombstoneMap) {
    forall id :: id in m ==> Normal(m[id]) && m[id] != []
  }

  ghost predicate ShardContent(m: TombstoneMap, i: nat) {
    CleanMap(m) && forall id :: id in m ==> ShardIndex(id) == i
  }

  ghost predicate SoundShards(shards: Shards, files: map<ShardName, TombstoneMap>) {
    && |shards| == SHARD_COUNT
    && (forall i :: 0 <= i < |shards| && shards[i].Some? ==>
          && shards[i].value.index == i
          && shards[i].value in files
          && ShardContent(files[shards[i].value], i))
  }

  /** The map a shard contributes; nothing when the manifest names no file for it. */
  function ShardAt(shards: Shards, files: map<ShardName, TombstoneMap>, i: nat): TombstoneMap
    requires SoundShards(shards, files) && i < SHARD_COUNT
  {
    if shards[i].None? then map[] else files[shards[i].value]
  }

  ghost predicate ListsExactly(m: TombstoneMap, shards: Shards, files: map<ShardName, TombstoneMap>)
    requires SoundShards(shards, files)
  {
    forall id :: (id in m <==> id in ShardAt(shards, files, ShardIndex(id)))
              && (id in m ==> m[id] == ShardAt(shards, files, ShardIndex(id))[id])
  }

  lemma NormalizeClean(m: TombstoneMap)
    requires CleanMap(m)
    ensures NormalizeMap(m) == Ok(m)
  {
    forall id | id in m ensures Normalize(m[id]) == Ok(m[id]) {
      NormalizeFixesNormal(m[id]);
    }
    assert NormalizedEntries(m) == m;
  }

  lemma {:induction false} LoadShardsSound(shards: Shards, files: map<ShardName, TombstoneMap>, i: nat)
    requires SoundShards(shards, files) && i <= |shards|
    ensures
      var r := LoadShards(shards, files, i);
      r.Ok? && forall id ::
        && (id in r.value <==> ShardIndex(id) >= i && id in ShardAt(shards, files, ShardIndex(id)))
        && (id in r.value ==> r.value[id] == ShardAt(shards, files, ShardIndex(id))[id])
    decreases |shards| - i
  {
    if i < |shards| {
      LoadShardsSound(shards, files, i + 1);
      if shards[i].Some? {
        NormalizeClean(files[shards[i].value]);
      }
    }
  }

  /** Loading a sound shard manifest succeeds and returns exactly what its shards hold. */
  lemma LoadSharded(shards: Shards, files: map<ShardName, TombstoneMap>)
    requires SoundShards(shards, files)
    ensures var r := Load(Disk(Sharded(shards), files)); r.Ok? && CleanMap(r.value) && ListsExactly(r.value, shards, files)
  {
    LoadShardsSound(shards, files, 0);
    var m := LoadShards(shards, files, 0).value;
    forall id | id in m ensures Normal(m[id]) && m[id] != [] {
      assert m[id] == ShardAt(shards, files, ShardIndex(id))[id];
    }
    NormalizeClean(m);
  }

  lemma ListsExactlyUnique(a: TombstoneMap, b: TombstoneMap, shards: Shards, files: map<ShardName, TombstoneMap>)
    requires SoundShards(shards, files) && ListsExactly(a, shards, files) && ListsExactly(b, shards, files)
    ensures a == b
  {
    assert forall id :: id in a <==> id in b;
    assert forall id :: id in a ==> a[id] == b[id];
  }

  // ----- Plans -----

  /** What a write does to each shard: none keeps the current file, some rewrites the shard. */
  type Plan = seq<Option<TombstoneMap>>

  ghost predicate SoundPlan(plan: Plan) {
    |plan| == SHARD_COUNT && forall i :: 0 <= i < |plan| && plan[i].Some? ==> ShardContent(plan[i].value, i)
  }

  /** The shard names in force before the write; a legacy or absent file names none. */
  function CurrentShards(d: Disk): Shards {
    if d.manifest.Sharded? then d.manifest.shards else seq(SHARD_COUNT, _ => None)
  }

  ghost predicate SoundBase(d: Disk) {
    SoundShards(CurrentShards(d), d.files)
  }

  /** What shard `i` holds once the plan is carried out. */
  ghost function Planned(plan: Plan, shards: Shards, files: map<ShardName, TombstoneMap>, i: nat): TombstoneMap
    requires SoundPlan(plan) && SoundShards(shards, files) && i < SHARD_COUNT
  {
    if plan[i].Some? then plan[i].value else ShardAt(shards, files, i)
  }

  ghost predicate RealizesPlan(m: TombstoneMap, plan: Plan, shards: Shards, files: map<ShardName, TombstoneMap>)
    requires SoundPlan(plan) && SoundShards(shards, files)
  {
    forall id :: (id in m <==> id in Planned(plan, shards, files, ShardIndex(id)))
              && (id in m ==> m[id] == Planned(plan, shards, files, ShardIndex(id))[id])
  }

  /** The plan writes a file for shard `i`. */
  predicate Writes(plan: Plan, i: nat) {
    i < |plan| && plan[i].Some? && plan[i].value != map[]
  }

  /** How many files the plan writes before shard `i`: each takes the next counter value. */
  function WritesBefore(plan: Plan, i: nat): nat
    requires i <= |plan|
  {
    if i == 0 then 0 else WritesBefore(plan, i - 1) + if Writes(plan, i - 1) then 1 else 0
  }

  /** Shard `i` is written to the very file the current manifest names for it. */
  predicate Overwrites(plan: Plan, shards: Shards, counter: nat, i: nat) {
    i < |plan| && i < |shards| && Writes(plan, i) && shards[i] == Some(ChosenName(plan, counter, i))
  }

  ghost predicate LoadsAs(d: Disk, m: TombstoneMap) {
    Load(d) == Ok(m)
  }

  /** Every state in the trace loads as before the write, or as the complete new map. */
  ghost predicate OldOrNew(trace: seq<Disk>, base: Disk, after: TombstoneMap) {
    forall k :: 0 <= k < |trace| ==> Load(trace[k]) == Load(base) || LoadsAs(trace[k], after)
  }

  /** Some state in the trace can be loaded and is neither. */
  ghost predicate SomeTorn(trace: seq<Disk>, base: Disk, after: TombstoneMap) {
    exists k :: 0 <= k < |trace| && Load(trace[k]).Ok? && Load(trace[k]) != Load(base) && !LoadsAs(trace[k], after)
  }

  /** Rewritten shards have the names their writes chose, empty ones none, and the others the name they had. */
  ghost predicate Renamed(d: Disk, base: Disk, plan: Plan, counter: nat)
    requires SoundBase(base) && SoundPlan(plan)
  {
    && d.manifest.Sharded? && |d.manifest.shards| == SHARD_COUNT
    && forall i :: 0 <= i < SHARD_COUNT ==>
         d.manifest.shards[i] ==
         if plan[i].None? then CurrentShards(base)[i]
         else if Writes(plan, i) then Some(ChosenName(plan, counter, i)) else None
  }

  /** Rewriting shard `i` gives it different contents. */
  ghost predicate Changes(plan: Plan, base: Disk, i: nat)
    requires SoundBase(base) && SoundPlan(plan) && i < SHARD_COUNT
  {
    plan[i].Some? && plan[i].value != ShardAt(CurrentShards(base), base.files, i)
  }

  /** A file in force is overwritten with different contents. */
  ghost predicate OverwritesChange(plan: Plan, base: Disk, counter: nat, i: nat)
    requires SoundBase(base) && SoundPlan(plan) && i < SHARD_COUNT
  {
    Overwrites(plan, CurrentShards(base), counter, i) && Changes(plan, base, i)
  }

  ghost predicate AtMostOneChanges(plan: Plan, base: Disk)
    requires SoundBase(base) && SoundPlan(plan)
  {
    forall i, j :: 0 <= i < SHARD_COUNT && 0 <= j < SHARD_COUNT && Changes(plan, base, i) && Changes(plan, base, j) ==> i == j
  }

  /** No file in force is overwritten with different contents, or only one shard changes at all. */
  ghost predicate CrashSafe(plan: Plan, base: Disk, counter: nat)
    requires SoundBase(base) && SoundPlan(plan)
  {
    || (forall i :: 0 <= i < SHARD_COUNT ==> !OverwritesChange(plan, base, counter, i))
    || AtMostOneChanges(plan, base)
  }

  // ----- States part of the way through a write -----

  /** The first `k` shards have been dealt with and the manifest is still the old one. */
  ghost predicate Partial(d: Disk, base: Disk, plan: Plan, counter: nat, k: nat)
    requires SoundBase(base) && SoundPlan(plan)
  {
    var shards := CurrentShards(base);
    && d.manifest == base.manifest
    && SoundShards(shards, d.files)
    && forall i :: 0 <= i < SHARD_COUNT ==>
         ShardAt(shards, d.files, i) ==
         if i < k && Overwrites(plan, shards, counter, i) then plan[i].value else ShardAt(shards, base.files, i)
  }

  lemma SameShardsSameLoad(shards: Shards, a: map<ShardName, TombstoneMap>, b: map<ShardName, TombstoneMap>)
    requires SoundShards(shards, a) && SoundShards(shards, b)
    requires forall i :: 0 <= i < SHARD_COUNT ==> ShardAt(shards, a, i) == ShardAt(shards, b, i)
    ensures Load(Disk(Sharded(shards), a)) == Load(Disk(Sharded(shards), b))
  {
    LoadSharded(shards, a);
    LoadSharded(shards, b);
    ListsExactlyUnique(Load(Disk(Sharded(shards), a)).value, Load(Disk(Sharded(shards), b)).value, shards, a);
  }

  /** Two loads that agree come from shards that agree. */
  lemma SameLoadSameShard(
    s1: Shards, f1: map<ShardName, TombstoneMap>, s2: Shards, f2: map<ShardName, TombstoneMap>, m: TombstoneMap, i: nat)
    requires SoundShards(s1, f1) && SoundShards(s2, f2) && i < SHARD_COUNT
    requires ListsExactly(m, s1, f1) && ListsExactly(m, s2, f2)
    ensures ShardAt(s1, f1, i) == ShardAt(s2, f2, i)
  {
    var a, b := ShardAt(s1, f1, i), ShardAt(s2, f2, i);
    forall id ensures id in a <==> id in b {
      assert id in a ==> id in m;
      assert id in b ==> id in m;
    }
    forall id | id in a ensures a[id] == b[id] {
      assert id in m;
    }
  }

  /** Until a shard file the manifest names is overwritten with other contents, the store still loads as before. */
  lemma PartialLoadsOld(d: Disk, base: Disk, plan: Plan, counter: nat, k: nat)
    requires SoundBase(base) && SoundPlan(plan) && Partial(d, base, plan, counter, k)
    requires forall i :: 0 <= i < k && i < SHARD_COUNT ==> !OverwritesChange(plan, base, counter, i)
    ensures Load(d) == Load(base)
  {
    if base.manifest.Sharded? {
      forall i | 0 <= i < SHARD_COUNT
        ensures ShardAt(base.manifest.shards, d.files, i) == ShardAt(base.manifest.shards, base.files, i)
      {
        assert i < k ==> !OverwritesChange(plan, base, counter, i);
      }
      SameShardsSameLoad(base.manifest.shards, d.files, base.files);
      assert d == Disk(Sharded(base.manifest.shards), d.files);
      assert base == Disk(Sharded(base.manifest.shards), base.files);
    } else {
      assert Load(d) == Load(base);
    }
  }

  /** The swap: from here on the store loads as the plan prescribes. */
  ghost predicate Swapped(d: Disk, base: Disk, plan: Plan)
    requires SoundBase(base) && SoundPlan(plan)
  {
    && d.manifest.Sharded? && SoundShards(d.manifest.shards, d.files)
    && forall i :: 0 <= i < SHARD_COUNT ==>
         ShardAt(d.manifest.shards, d.files, i) == Planned(plan, CurrentShards(base), base.files, i)
  }

  lemma SwappedLoad(d: Disk, base: Disk, plan: Plan)
    requires SoundBase(base) && SoundPlan(plan) && Swapped(d, base, plan)
    ensures Load(d).Ok? && RealizesPlan(Load(d).value, plan, CurrentShards(base), base.files)
  {
    LoadSharded(d.manifest.shards, d.files);
    assert d == Disk(Sharded(d.manifest.shards), d.files);
  }

  lemma RealizesPlanUnique(a: TombstoneMap, b: TombstoneMap, base: Disk, plan: Plan)
    requires SoundBase(base) && SoundPlan(plan)
    requires RealizesPlan(a, plan, CurrentShards(base), base.files)
    requires RealizesPlan(b, plan, CurrentShards(base), base.files)
    ensures a == b
  {
    assert forall id :: id in a <==> id in b;
    assert forall id :: id in a ==> a[id] == b[id];
  }

  /** When one shard only changes, overwriting its file is the whole change. */
  lemma SingleShardLoadsNew(d: Disk, base: Disk, plan: Plan, counter: nat, k: nat, only: nat)
    requires SoundBase(base) && SoundPlan(plan) && Partial(d, base, plan, counter, k)
    requires only < k && only < SHARD_COUNT && OverwritesChange(plan, base, counter, only) && AtMostOneChanges(plan, base)
    ensures Load(d).Ok? && RealizesPlan(Load(d).value, plan, CurrentShards(base), base.files)
  {
    LoadSharded(CurrentShards(base), d.files);
    assert d == Disk(Sharded(CurrentShards(base)), d.files);
    forall i | 0 <= i < SHARD_COUNT
      ensures ShardAt(CurrentShards(base), d.files, i) == Planned(plan, CurrentShards(base), base.files, i)
    {
      assert i == only || !Changes(plan, base, i);
    }
  }

  /** Two shards change and the file of one is overwritten: the state after that write is neither map. */
  lemma TornState(d: Disk, base: Disk, plan: Plan, counter: nat, first: nat, other: nat, after: TombstoneMap)
    requires SoundBase(base) && SoundPlan(plan) && Partial(d, base, plan, counter, first + 1)
    requires first < SHARD_COUNT && OverwritesChange(plan, base, counter, first)
    requires forall i :: 0 <= i < first ==> !OverwritesChange(plan, base, counter, i)
    requires other < SHARD_COUNT && other != first && Changes(plan, base, other)
    requires RealizesPlan(after, plan, CurrentShards(base), base.files)
    ensures Load(d).Ok? && Load(d) != Load(base) && Load(d).value != after
  {
    var shards := CurrentShards(base);
    LoadSharded(shards, d.files);
    LoadSharded(shards, base.files);
    assert d == Disk(Sharded(shards), d.files) && base == Disk(Sharded(shards), base.files);
    assert ShardAt(shards, d.files, first) != ShardAt(shards, base.files, first);
    if Load(d) == Load(base) {
      SameLoadSameShard(shards, d.files, shards, base.files, Load(d).value, first);
      assert false;
    }
    assert other < first ==> !OverwritesChange(plan, base, counter, other);
    if Load(d).value == after {
      PlannedShard(base, plan, d.files, after, other);
      assert false;
    }
  }

  /** A load that realizes the plan holds the planned contents in every shard. */
  lemma PlannedShard(base: Disk, plan: Plan, files: map<ShardName, TombstoneMap>, m: TombstoneMap, i: nat)
    requires SoundBase(base) && SoundPlan(plan) && SoundShards(CurrentShards(base), files) && i < SHARD_COUNT
    requires ListsExactly(m, CurrentShards(base), files)
    requires RealizesPlan(m, plan, CurrentShards(base), base.files)
    ensures ShardAt(CurrentShards(base), files, i) == Planned(plan, CurrentShards(base), base.files, i)
  {
    var a, b := ShardAt(CurrentShards(base), files, i), Planned(plan, CurrentShards(base), base.files, i);
    forall id | id in a ensures id in m && m[id] == a[id] {
      assert ShardIndex(id) == i;
    }
    forall id | id in b ensures id in m && m[id] == b[id] {
      assert ShardIndex(id) == i;
    }
    forall id | id in m && ShardIndex(id) == i ensures id in a && id in b {
    }
    SameContents(a, b, m, i);
  }

  lemma SameContents(a: TombstoneMap, b: TombstoneMap, m: TombstoneMap, i: nat)
    requires forall id :: id in a ==> id in m && m[id] == a[id] && ShardIndex(id) == i
    requires forall id :: id in b ==> id in m && m[id] == b[id] && ShardIndex(id) == i
    requires forall id :: id in m && ShardIndex(id) == i ==> id in a && id in b
    ensures a == b
  {
    assert forall id :: id in a <==> id in b;
  }

  class Store {
    var disk: Disk
    /** The process-wide file counter: it restarts at 1 with the process. */
    var counter: nat
    ghost var trace: seq<Disk>

    constructor (disk: Disk)
      ensures this.disk == disk && counter == 1 && trace == []
    {
      this.disk := disk;
      counter := 1;
      trace := [];
    }

    /** `write_shard_file`: an empty shard has no file. */
    method WriteShardFile(i: nat, m: TombstoneMap) returns (name: Option<ShardName>)
      modifies this
      ensures m == map[] ==> name == None && disk == old(disk) && counter == old(counter) && trace == old(trace)
      ensures m != map[] ==>
        && name == Some(ShardName(i, old(counter)))
        && disk == old(disk).(files := old(disk).files[name.value := m])
        && counter == old(counter) + 1 && trace == old(trace) + [disk]
    {
      if m == map[] {
        return None;
      }
      name := Some(ShardName(i, counter));
      counter := counter + 1;
      disk := disk.(files := disk.files[name.value := m]);
      trace := trace + [disk];
    }

    /** The shard-writing loop: afterwards every planned shard has its file and the old manifest is in force. */
    method WriteShards(plan: Plan) returns (next: Shards, ghost steps: seq<Disk>)
      requires SoundBase(disk) && SoundPlan(plan)
      modifies this
      ensures counter == old(counter) + WritesBefore(plan, SHARD_COUNT)
      ensures Partial(disk, old(disk), plan, old(counter), SHARD_COUNT)
      ensures Prepared(next, disk.files, old(disk), plan, old(counter), SHARD_COUNT)
      ensures trace == old(trace) + steps && Staged(steps, old(disk), plan, old(counter), SHARD_COUNT)
    {
      next, steps := CurrentShards(disk), [];
      ghost var base, start := disk, counter;
      for i := 0 to SHARD_COUNT
        invariant Progress(disk, counter, next, steps, base, start, plan, i)
        invariant trace == old(trace) + steps
      {
        if Writes(plan, i) {
          ProgressWrite(disk, counter, next, steps, base, start, plan, i);
        } else {
          ProgressSkip(disk, counter, next, steps, base, start, plan, i);
        }
        if plan[i].Some? {
          var name := WriteShardFile(i, plan[i].value);
          next := next[i := name];
          if Writes(plan, i) {
            steps := steps + [disk];
          }
        }
      }
    }

    /** `cleanup_replaced_shards`: removes the files of `previous` that `next` no longer names. */
    method CleanUp(ghost base: Disk, ghost plan: Plan, previous: Shards) returns (ghost steps: seq<Disk>)
      requires SoundBase(base) && SoundPlan(plan) && Swapped(disk, base, plan)
      modifies this
      ensures counter == old(counter) && disk.manifest == old(disk).manifest
      ensures Swapped(disk, base, plan)
      ensures trace == old(trace) + steps && AllSwapped(steps, base, plan)
    {
      steps := [];
      var keep := disk.manifest.shards;
      for i := 0 to |previous|
        invariant counter == old(counter) && disk.manifest == Sharded(keep) == old(disk).manifest
        invariant Swapped(disk, base, plan)
        invariant trace == old(trace) + steps && AllSwapped(steps, base, plan)
      {
        if previous[i].Some? && previous[i] !in keep {
          RemoveKeepsSwapped(disk, base, plan, previous[i].value);
          disk := disk.(files := disk.files - {previous[i].value});
          trace := trace + [disk];
          steps := steps + [disk];
        }
      }
    }

    /**
     Carries a plan out: shard files, manifest, clean-up.  `writes` are the states before the
     manifest is replaced and `swaps` those from then on.
     */
    method Commit(plan: Plan) returns (ghost writes: seq<Disk>, ghost swaps: seq<Disk>)
      requires SoundBase(disk) && SoundPlan(plan)
      modifies this
      ensures trace == old(trace) + writes + swaps
      ensures Staged(writes, old(disk), plan, old(counter), SHARD_COUNT) && AllSwapped(swaps, old(disk), plan)
      ensures Swapped(disk, old(disk), plan) && swaps != [] && Renamed(disk, old(disk), plan, old(counter))
      ensures CounterAhead(old(disk), old(counter)) ==> CounterAhead(disk, counter)
    {
      ghost var base := disk;
      var previous := CurrentShards(disk);
      var next;
      next, writes := WriteShards(plan);
      PreparedSwaps(next, disk, base, plan, old(counter));
      PreparedCounter(next, disk.files, base, plan, old(counter));
      disk := Disk(Sharded(next), disk.files);
      trace := trace + [disk];
      ghost var swap := disk;
      ghost var cleaned := CleanUp(base, plan, previous);
      swaps := [swap] + cleaned;
      assert old(trace) + writes + [swap] + cleaned == old(trace) + writes + swaps;
    }

    /**
     `persist_tombstone_updates`: the outcome, and exactly when a crash at any point leaves the old map
     or the new one.
     */
    method PersistUpdates(updates: TombstoneMap) returns (r: Result<(), StoreError>, ghost steps: seq<Disk>)
      requires SoundBase(disk)
      modifies this
      ensures SoundBase(disk) && trace == old(trace) + steps
      ensures NormalizeMap(updates).Err? ==> r == Err(NormalizeMap(updates).error)
      ensures NormalizeMap(updates).Ok? && NormalizeMap(updates).value == map[] ==> r == Ok(())
      ensures NormalizeMap(updates).Ok? && NormalizeMap(updates).value != map[] && Load(old(disk)).Err? ==>
                r == Err(Load(old(disk)).error)
      ensures !Applies(updates, old(disk)) ==> disk == old(disk) && counter == old(counter) && steps == []
      ensures Applies(updates, old(disk)) ==>
                var normalized := NormalizeMap(updates).value;
                var after := Load(old(disk)).value + normalized;
                var plan := PlanOfUpdates(old(disk), normalized);
                && r == Ok(()) && LoadsAs(disk, after) && SoundPlan(plan) && Renamed(disk, old(disk), plan, old(counter))
                && (OldOrNew(steps, old(disk), after) <==> CrashSafe(plan, old(disk), old(counter)))
                && (CrashSafe(plan, old(disk), old(counter)) || SomeTorn(steps, old(disk), after))
      ensures CounterAhead(old(disk), old(counter)) ==>
                && CounterAhead(disk, counter)
                && (Applies(updates, old(disk)) ==>
                      OldOrNew(steps, old(disk), Load(old(disk)).value + NormalizeMap(updates).value))
    {
      steps := [];
      var normalized := NormalizeMap(updates);
      if normalized.Err? {
        return Err(normalized.error), steps;
      }
      if normalized.value == map[] {
        return Ok(()), steps;
      }
      NormalizedIsClean(updates);
      var plan;
      ghost var after;
      if disk.manifest.Sharded? {
        LoadSharded(disk.manifest.shards, disk.files);
        assert disk == Disk(Sharded(disk.manifest.shards), disk.files);
        plan := UpdatePlan(disk.manifest.shards, disk.files, normalized.value);
        after := Load(disk).value + normalized.value;
        UpdatePlanRealizes(disk.manifest.shards, disk.files, Load(disk).value, normalized.value);
      } else {
        var current := Load(disk);
        if current.Err? {
          return Err(current.error), steps;
        }
        UnshardedIsClean(disk);
        after := current.value + normalized.value;
        plan := FullPlan(current.value + normalized.value);
        FullPlanRealizes(disk, after);
      }
      assert plan == PlanOfUpdates(disk, normalized.value);
      steps := CommitAs(plan, after);
      return Ok(()), steps;
    }

    /** `persist_tombstones`: replaces everything, or removes the store when nothing is left. */
    method Persist(tombstones: TombstoneMap) returns (r: Result<(), StoreError>, ghost steps: seq<Disk>)
      requires SoundBase(disk)
      modifies this
      ensures SoundBase(disk) && trace == old(trace) + steps
      ensures NormalizeMap(tombstones).Err? ==>
                r == Err(NormalizeMap(tombstones).error) && disk == old(disk) && counter == old(counter) && steps == []
      ensures NormalizeMap(tombstones).Ok? ==>
                var after := NormalizeMap(tombstones).value;
                && r == Ok(()) && LoadsAs(disk, after) && SoundPlan(FullPlan(after))
                && (OldOrNew(steps, old(disk), after) <==>
                      after == map[] || CrashSafe(FullPlan(after), old(disk), old(counter)))
      ensures CounterAhead(old(disk), old(counter)) ==>
                && CounterAhead(disk, counter)
                && (r.Ok? ==> OldOrNew(steps, old(disk), NormalizeMap(tombstones).value))
    {
      steps := [];
      var normalized := NormalizeMap(tombstones);
      if normalized.Err? {
        return Err(normalized.error), steps;
      }
      NormalizedIsClean(tombstones);
      FullPlanRealizes(disk, normalized.value);
      if normalized.value == map[] {
        disk := disk.(manifest := Absent);
        steps := [disk];
        disk := disk.(files := map[]);
        steps := steps + [disk];
        trace := trace + steps;
        return Ok(()), steps;
      }
      steps := CommitAs(FullPlan(normalized.value), normalized.value);
      return Ok(()), steps;
    }

    /** Commits a plan whose outcome is `after`. */
    method CommitAs(plan: Plan, ghost after: TombstoneMap) returns (ghost steps: seq<Disk>)
      requires SoundBase(disk) && SoundPlan(plan)
      requires RealizesPlan(after, plan, CurrentShards(disk), disk.files)
      modifies this
      ensures SoundBase(disk) && LoadsAs(disk, after) && trace == old(trace) + steps
      ensures Renamed(disk, old(disk), plan, old(counter))
      ensures OldOrNew(steps, old(disk), after) <==> CrashSafe(plan, old(disk), old(counter))
      ensures !CrashSafe(plan, old(disk), old(counter)) ==> SomeTorn(steps, old(disk), after)
      ensures CounterAhead(old(disk), old(counter)) ==> CounterAhead(disk, counter) && OldOrNew(steps, old(disk), after)
    {
      ghost var writes, swaps := Commit(plan);
      steps := writes + swaps;
      assert trace == old(trace) + steps;
      SwappedLoad(disk, old(disk), plan);
      RealizesPlanUnique(Load(disk).value, after, old(disk), plan);
      CrashAtomicExactly(writes, swaps, old(disk), plan, old(counter), after);
      if !CrashSafe(plan, old(disk), old(counter)) {
        ghost var t := TornTrace(writes, old(disk), plan, old(counter), after);
        assert steps[t] == writes[t];
      }
      if CounterAhead(old(disk), old(counter)) {
        CounterAheadIsFresh(old(disk), old(counter), plan);
      }
    }
  }

  // ----- The plans the two entry points build -----

  /** The entries of `m` that belong to shard `i`. */
  function Part(m: TombstoneMap, i: nat): TombstoneMap {
    m - (set id | id in m && ShardIndex(id) != i)
  }

  function FullPlan(m: TombstoneMap): Plan {
    seq(SHARD_COUNT, (i: nat) => Some(Part(m, i)))
  }

  /** Only the shards some update belongs to are rewritten, with the update overriding what they held. */
  function UpdatePlan(shards: Shards, files: map<ShardName, TombstoneMap>, updates: TombstoneMap): Plan
    requires SoundShards(shards, files)
  {
    seq(SHARD_COUNT, (i: nat) requires i < SHARD_COUNT =>
      if Part(updates, i) == map[] then None else Some(ShardAt(shards, files, i) + Part(updates, i)))
  }

  /** The plan of an update; a store that is not sharded yet is rewritten as a whole. */
  function PlanOfUpdates(d: Disk, updates: TombstoneMap): Plan
    requires SoundBase(d) && Load(d).Ok?
  {
    if d.manifest.Sharded? then UpdatePlan(d.manifest.shards, d.files, updates) else FullPlan(Load(d).value + updates)
  }

  /** The update is valid, says something, and what it adds to can be read. */
  ghost predicate Applies(updates: TombstoneMap, d: Disk) {
    NormalizeMap(updates).Ok? && NormalizeMap(updates).value != map[] && Load(d).Ok?
  }

  lemma UnshardedIsClean(d: Disk)
    requires !d.manifest.Sharded? && Load(d).Ok?
    ensures CleanMap(Load(d).value)
  {
    if d.manifest.Legacy? {
      NormalizedIsClean(LegacyMap(d.manifest.entries));
    }
  }

  // ----- The legacy format -----

  lemma {:induction false} MergeAllCoverage(ranges: seq<Range>, added: seq<Range>)
    requires Normal(ranges) && NonEmpty(added)
    ensures Normal(MergeAll(ranges, added))
    ensures forall t :: Covers(MergeAll(ranges, added), t) <==> Covers(ranges, t) || Covers(added, t)
    decreases |added|
  {
    if added != [] {
      var front, last := added[..|added| - 1], added[|added| - 1];
      MergeAllCoverage(ranges, front);
      MergeCoverage(MergeAll(ranges, front), last);
      assert added == front + [last];
      forall t ensures Covers(added, t) <==> Covers(front, t) || Within(last, t) {
        CoversAppend(front, last, t);
      }
    }
  }

  lemma CoversAppend(front: seq<Range>, last: Range, t: int)
    ensures Covers(front + [last], t) <==> Covers(front, t) || Within(last, t)
  {
    var all := front + [last];
    if Covers(front, t) {
      var i :| 0 <= i < |front| && Within(front[i], t);
      assert Within(all[i], t);
    }
    if Within(last, t) {
      assert Within(all[|front|], t);
    }
  }

  ghost predicate SaysDeleted(entries: seq<LegacyEntry>, id: SeriesId, t: int) {
    exists k :: 0 <= k < |entries| && entries[k].id == id && Covers(entries[k].ranges, t)
  }

  lemma SaysDeletedAppend(front: seq<LegacyEntry>, last: LegacyEntry, id: SeriesId, t: int)
    ensures SaysDeleted(front + [last], id, t) <==> SaysDeleted(front, id, t) || (last.id == id && Covers(last.ranges, t))
  {
    var all := front + [last];
    if SaysDeleted(front, id, t) {
      var k :| 0 <= k < |front| && front[k].id == id && Covers(front[k].ranges, t);
      assert all[k] == front[k];
    }
    if last.id == id && Covers(last.ranges, t) {
      assert all[|front|] == last;
    }
  }

  lemma LegacyStep(before: TombstoneMap, e: LegacyEntry)
    requires CleanMap(before) && NonEmpty(e.ranges) && e.ranges != []
    ensures
      var after := before[e.id := MergeAll(CurrentRanges(before, e.id), e.ranges)];
      && CleanMap(after)
      && forall id, t :: Deleted(after, id, t) <==> Deleted(before, id, t) || (e.id == id && Covers(e.ranges, t))
  {
    var merged := MergeAll(CurrentRanges(before, e.id), e.ranges);
    MergeAllCoverage(CurrentRanges(before, e.id), e.ranges);
    assert Within(e.ranges[0], e.ranges[0].start);
    assert Covers(merged, e.ranges[0].start);
  }

  /** A legacy file loads as the union of all its entries, however often a series occurs. */
  lemma {:induction false} LegacyLoads(entries: seq<LegacyEntry>, files: map<ShardName, TombstoneMap>)
    requires forall k :: 0 <= k < |entries| ==> NonEmpty(entries[k].ranges)
    ensures CleanMap(LegacyMap(entries)) && LoadsAs(Disk(Legacy(entries), files), LegacyMap(entries))
    ensures forall id, t :: Deleted(LegacyMap(entries), id, t) <==> SaysDeleted(entries, id, t)
    decreases |entries|
  {
    if entries != [] {
      var front, e := entries[..|entries| - 1], entries[|entries| - 1];
      LegacyLoads(front, files);
      assert entries == front + [e];
      if e.ranges != [] {
        LegacyStep(LegacyMap(front), e);
      }
      forall id, t ensures SaysDeleted(entries, id, t) <==> SaysDeleted(front, id, t) || (e.id == id && Covers(e.ranges, t)) {
        SaysDeletedAppend(front, e, id, t);
      }
    }
    NormalizeClean(LegacyMap(entries));
  }

  lemma NormalizedIsClean(m: TombstoneMap)
    requires NormalizeMap(m).Ok?
    ensures CleanMap(NormalizeMap(m).value)
  {
    forall id | id in m ensures Normal(Normalize(m[id]).value) {
      NormalizeFromCoverage([], m[id]);
    }
  }

  lemma FullPlanRealizes(base: Disk, m: TombstoneMap)
    requires SoundBase(base) && CleanMap(m)
    ensures SoundPlan(FullPlan(m)) && RealizesPlan(m, FullPlan(m), CurrentShards(base), base.files)
  {
  }

  lemma UpdatePlanSound(shards: Shards, files: map<ShardName, TombstoneMap>, updates: TombstoneMap)
    requires SoundShards(shards, files) && CleanMap(updates)
    ensures SoundPlan(UpdatePlan(shards, files, updates))
  {
  }

  lemma UpdatePlanRealizes(shards: Shards, files: map<ShardName, TombstoneMap>, before: TombstoneMap, updates: TombstoneMap)
    requires SoundShards(shards, files) && CleanMap(updates) && LoadsAs(Disk(Sharded(shards), files), before)
    ensures SoundPlan(UpdatePlan(shards, files, updates))
    ensures RealizesPlan(before + updates, UpdatePlan(shards, files, updates), shards, files)
  {
    UpdatePlanSound(shards, files, updates);
    LoadSharded(shards, files);
    var plan := UpdatePlan(shards, files, updates);
    forall id
      ensures id in before + updates <==> id in Planned(plan, shards, files, ShardIndex(id))
      ensures id in before + updates ==> (before + updates)[id] == Planned(plan, shards, files, ShardIndex(id))[id]
    {
      var part := Part(updates, ShardIndex(id));
      assert id in updates <==> id in part;
    }
  }

  /** The loop state after `k` shards of a plan started on `base` at counter `start`. */
  ghost predicate Progress(
    d: Disk, counter: nat, next: Shards, steps: seq<Disk>, base: Disk, start: nat, plan: Plan, k: nat)
  {
    && SoundBase(base) && SoundPlan(plan) && k <= SHARD_COUNT
    && counter == start + WritesBefore(plan, k)
    && Partial(d, base, plan, start, k)
    && Prepared(next, d.files, base, plan, start, k)
    && Staged(steps, base, plan, start, k)
  }

  lemma ProgressSkip(
    d: Disk, counter: nat, next: Shards, steps: seq<Disk>, base: Disk, start: nat, plan: Plan, i: nat)
    requires i < SHARD_COUNT && Progress(d, counter, next, steps, base, start, plan, i) && !Writes(plan, i)
    ensures Progress(d, counter, if plan[i].Some? then next[i := None] else next, steps, base, start, plan, i + 1)
  {
    if plan[i].Some? {
      WriteStep(d, base, plan, start, i, next);
    } else {
      SkipStep(d, base, plan, start, i, next);
    }
    StageSkip(steps, base, plan, start, i);
  }

  lemma ProgressWrite(
    d: Disk, counter: nat, next: Shards, steps: seq<Disk>, base: Disk, start: nat, plan: Plan, i: nat)
    requires i < SHARD_COUNT && Progress(d, counter, next, steps, base, start, plan, i) && Writes(plan, i)
    ensures
      var name := ShardName(i, counter);
      var d' := d.(files := d.files[name := plan[i].value]);
      Progress(d', counter + 1, next[i := Some(name)], steps + [d'], base, start, plan, i + 1)
  {
    var name := ChosenName(plan, start, i);
    assert name == ShardName(i, counter);
    var d' := d.(files := d.files[name := plan[i].value]);
    WriteStepPartial(d, base, plan, start, i);
    WriteStepPrepared(d.files, base, plan, start, i, next);
    StageStep(steps, d', base, plan, start, i);
    assert WritesBefore(plan, i + 1) == WritesBefore(plan, i) + 1;
  }

  lemma {:induction false} WritesBeforeMonotone(plan: Plan, i: nat, j: nat)
    requires i <= j <= |plan|
    ensures WritesBefore(plan, i) <= WritesBefore(plan, j)
    ensures i < j && Writes(plan, i) ==> WritesBefore(plan, i) < WritesBefore(plan, j)
    decreases j - i
  {
    if i < j {
      WritesBeforeMonotone(plan, i + 1, j);
    }
  }

  /** One state per written shard, in shard order: the one left by its write. */
  ghost predicate Staged(steps: seq<Disk>, base: Disk, plan: Plan, counter: nat, k: nat)
    requires SoundBase(base) && SoundPlan(plan) && k <= SHARD_COUNT
  {
    && |steps| == WritesBefore(plan, k)
    && forall i :: 0 <= i < k && Writes(plan, i) ==>
         WritesBefore(plan, i) < |steps| && Partial(steps[WritesBefore(plan, i)], base, plan, counter, i + 1)
  }

  lemma StageStep(steps: seq<Disk>, d: Disk, base: Disk, plan: Plan, counter: nat, i: nat)
    requires SoundBase(base) && SoundPlan(plan) && i < SHARD_COUNT && Writes(plan, i)
    requires Staged(steps, base, plan, counter, i) && Partial(d, base, plan, counter, i + 1)
    ensures Staged(steps + [d], base, plan, counter, i + 1)
  {
  }

  lemma StageSkip(steps: seq<Disk>, base: Disk, plan: Plan, counter: nat, i: nat)
    requires SoundBase(base) && SoundPlan(plan) && i < SHARD_COUNT && !Writes(plan, i)
    requires Staged(steps, base, plan, counter, i)
    ensures Staged(steps, base, plan, counter, i + 1)
  {
  }

  /** The shard whose write left the `t`-th state. */
  lemma {:induction false} StageOf(plan: Plan, k: nat, t: nat) returns (i: nat)
    requires k <= |plan| && t < WritesBefore(plan, k)
    ensures i < k && Writes(plan, i) && WritesBefore(plan, i) == t
  {
    if Writes(plan, k - 1) && WritesBefore(plan, k - 1) == t {
      i := k - 1;
    } else {
      i := StageOf(plan, k - 1, t);
    }
  }

  /** The file name the write of shard `i` takes. */
  function ChosenName(plan: Plan, counter: nat, i: nat): ShardName
    requires i <= |plan|
  {
    ShardName(i, counter + WritesBefore(plan, i))
  }

  ghost predicate PreparedAt(
    name: Option<ShardName>, files: map<ShardName, TombstoneMap>, base: Disk, plan: Plan, counter: nat, i: nat, dealtWith: bool)
    requires SoundBase(base) && SoundPlan(plan) && i < SHARD_COUNT
  {
    if !dealtWith || plan[i].None? then name == CurrentShards(base)[i]
    else if plan[i].value == map[] then name == None
    else
      var chosen := ChosenName(plan, counter, i);
      name == Some(chosen) && chosen in files && files[chosen] == plan[i].value
  }

  /** The names chosen for the first `k` shards resolve to the planned contents. */
  ghost predicate Prepared(
    next: Shards, files: map<ShardName, TombstoneMap>, base: Disk, plan: Plan, counter: nat, k: nat)
    requires SoundBase(base) && SoundPlan(plan)
  {
    && |next| == SHARD_COUNT
    && forall i :: 0 <= i < SHARD_COUNT ==> PreparedAt(next[i], files, base, plan, counter, i, i < k)
  }

  lemma WriteStepPartial(d: Disk, base: Disk, plan: Plan, counter: nat, i: nat)
    requires SoundBase(base) && SoundPlan(plan) && i < SHARD_COUNT && Writes(plan, i)
    requires Partial(d, base, plan, counter, i)
    ensures
      var name := ChosenName(plan, counter, i);
      Partial(d.(files := d.files[name := plan[i].value]), base, plan, counter, i + 1)
  {
    var shards := CurrentShards(base);
    var name := ChosenName(plan, counter, i);
    var files := d.files[name := plan[i].value];
    assert Overwrites(plan, shards, counter, i) <==> shards[i] == Some(name);
    forall j | 0 <= j < SHARD_COUNT && shards[j].Some?
      ensures files[shards[j].value] == if j == i && shards[i] == Some(name) then plan[i].value else d.files[shards[j].value]
    {
      assert shards[j].value.index == j;
    }
  }

  lemma WriteStepPrepared(files: map<ShardName, TombstoneMap>, base: Disk, plan: Plan, counter: nat, i: nat, next: Shards)
    requires SoundBase(base) && SoundPlan(plan) && i < SHARD_COUNT && Writes(plan, i)
    requires Prepared(next, files, base, plan, counter, i)
    ensures
      var name := ChosenName(plan, counter, i);
      Prepared(next[i := Some(name)], files[name := plan[i].value], base, plan, counter, i + 1)
  {
    var name := ChosenName(plan, counter, i);
    var next', files' := next[i := Some(name)], files[name := plan[i].value];
    forall j | 0 <= j < SHARD_COUNT ensures PreparedAt(next'[j], files', base, plan, counter, j, j < i + 1) {
      assert PreparedAt(next[j], files, base, plan, counter, j, j < i);
      assert j != i ==> ChosenName(plan, counter, j) != name;
    }
  }

  lemma WriteStep(d: Disk, base: Disk, plan: Plan, counter: nat, i: nat, next: Shards)
    requires SoundBase(base) && SoundPlan(plan) && i < SHARD_COUNT && plan[i].Some?
    requires Partial(d, base, plan, counter, i) && Prepared(next, d.files, base, plan, counter, i)
    ensures plan[i].value == map[] ==>
      Partial(d, base, plan, counter, i + 1) && Prepared(next[i := None], d.files, base, plan, counter, i + 1)
    ensures plan[i].value != map[] ==>
      var name := ChosenName(plan, counter, i);
      var files := d.files[name := plan[i].value];
      && Partial(d.(files := files), base, plan, counter, i + 1)
      && Prepared(next[i := Some(name)], files, base, plan, counter, i + 1)
  {
    if plan[i].value != map[] {
      WriteStepPartial(d, base, plan, counter, i);
      WriteStepPrepared(d.files, base, plan, counter, i, next);
    }
  }

  lemma SkipStep(d: Disk, base: Disk, plan: Plan, counter: nat, i: nat, next: Shards)
    requires SoundBase(base) && SoundPlan(plan) && i < SHARD_COUNT && plan[i].None?
    requires Partial(d, base, plan, counter, i) && Prepared(next, d.files, base, plan, counter, i)
    ensures Partial(d, base, plan, counter, i + 1) && Prepared(next, d.files, base, plan, counter, i + 1)
  {
  }

  ghost predicate AllSwapped(steps: seq<Disk>, base: Disk, plan: Plan)
    requires SoundBase(base) && SoundPlan(plan)
  {
    forall t :: 0 <= t < |steps| ==> Swapped(steps[t], base, plan)
  }

  lemma RemoveKeepsSwapped(d: Disk, base: Disk, plan: Plan, name: ShardName)
    requires SoundBase(base) && SoundPlan(plan) && Swapped(d, base, plan)
    requires Some(name) !in d.manifest.shards
    ensures Swapped(d.(files := d.files - {name}), base, plan)
  {
  }

  lemma PreparedSwaps(next: Shards, d: Disk, base: Disk, plan: Plan, counter: nat)
    requires SoundBase(base) && SoundPlan(plan)
    requires Partial(d, base, plan, counter, SHARD_COUNT) && Prepared(next, d.files, base, plan, counter, SHARD_COUNT)
    ensures Swapped(Disk(Sharded(next), d.files), base, plan)
  {
    var shards := CurrentShards(base);
    forall i | 0 <= i < SHARD_COUNT && plan[i].None?
      ensures ShardAt(shards, d.files, i) == ShardAt(shards, base.files, i)
    {
      assert !Overwrites(plan, shards, counter, i);
    }
  }

  // ----- Freshness of file names -----

  /** Every file the manifest names was numbered below the counter. */
  ghost predicate CounterAhead(d: Disk, counter: nat) {
    forall i :: 0 <= i < |CurrentShards(d)| && CurrentShards(d)[i].Some? ==> CurrentShards(d)[i].value.counter < counter
  }

  lemma PreparedCounter(next: Shards, files: map<ShardName, TombstoneMap>, base: Disk, plan: Plan, counter: nat)
    requires SoundBase(base) && SoundPlan(plan) && Prepared(next, files, base, plan, counter, SHARD_COUNT)
    requires |next| == SHARD_COUNT
    ensures CounterAhead(base, counter) ==>
      CounterAhead(Disk(Sharded(next), files), counter + WritesBefore(plan, SHARD_COUNT))
  {
    forall i | 0 <= i < SHARD_COUNT && Writes(plan, i)
      ensures WritesBefore(plan, i) < WritesBefore(plan, SHARD_COUNT)
    {
      WritesBeforeMonotone(plan, i, SHARD_COUNT);
    }
  }

  lemma CounterAheadIsFresh(d: Disk, counter: nat, plan: Plan)
    requires CounterAhead(d, counter) && SoundBase(d) && SoundPlan(plan)
    ensures CrashSafe(plan, d, counter)
  {
    forall i | 0 <= i < SHARD_COUNT ensures !Overwrites(plan, CurrentShards(d), counter, i) {
    }
  }

  // ----- Crash atomicity -----

  lemma SwapsLoadNew(swaps: seq<Disk>, base: Disk, plan: Plan, after: TombstoneMap, t: nat)
    requires SoundBase(base) && SoundPlan(plan) && AllSwapped(swaps, base, plan) && t < |swaps|
    requires RealizesPlan(after, plan, CurrentShards(base), base.files)
    ensures LoadsAs(swaps[t], after)
  {
    SwappedLoad(swaps[t], base, plan);
    RealizesPlanUnique(Load(swaps[t]).value, after, base, plan);
  }

  lemma WritesLoadOldOrNew(writes: seq<Disk>, base: Disk, plan: Plan, counter: nat, after: TombstoneMap, t: nat)
    requires SoundBase(base) && SoundPlan(plan) && Staged(writes, base, plan, counter, SHARD_COUNT) && t < |writes|
    requires RealizesPlan(after, plan, CurrentShards(base), base.files) && CrashSafe(plan, base, counter)
    ensures Load(writes[t]) == Load(base) || LoadsAs(writes[t], after)
  {
    var i := StageOf(plan, SHARD_COUNT, t);
    if only :| 0 <= only <= i && OverwritesChange(plan, base, counter, only) {
      SingleShardLoadsNew(writes[t], base, plan, counter, i + 1, only);
      RealizesPlanUnique(Load(writes[t]).value, after, base, plan);
    } else {
      PartialLoadsOld(writes[t], base, plan, counter, i + 1);
    }
  }

  lemma CrashAtomic(
    writes: seq<Disk>, swaps: seq<Disk>, base: Disk, plan: Plan, counter: nat, after: TombstoneMap)
    requires SoundBase(base) && SoundPlan(plan)
    requires Staged(writes, base, plan, counter, SHARD_COUNT) && AllSwapped(swaps, base, plan)
    requires RealizesPlan(after, plan, CurrentShards(base), base.files) && CrashSafe(plan, base, counter)
    ensures OldOrNew(writes + swaps, base, after)
  {
    forall t | 0 <= t < |writes + swaps|
      ensures Load((writes + swaps)[t]) == Load(base) || LoadsAs((writes + swaps)[t], after)
    {
      if t < |writes| {
        WritesLoadOldOrNew(writes, base, plan, counter, after, t);
      } else {
        SwapsLoadNew(swaps, base, plan, after, t - |writes|);
      }
    }
  }

  lemma FirstOverwrite(plan: Plan, base: Disk, counter: nat) returns (first: nat)
    requires SoundBase(base) && SoundPlan(plan) && !CrashSafe(plan, base, counter)
    ensures first < SHARD_COUNT && OverwritesChange(plan, base, counter, first)
    ensures forall j :: 0 <= j < first ==> !OverwritesChange(plan, base, counter, j)
  {
    var i: nat :| i < SHARD_COUNT && OverwritesChange(plan, base, counter, i);
    var p := (k: nat) => k < SHARD_COUNT && OverwritesChange(plan, base, counter, k);
    first := FirstWhere(p, i);
    forall j: nat | j < first ensures !OverwritesChange(plan, base, counter, j) {
      assert !p(j);
    }
  }

  lemma FirstWhere(p: nat -> bool, i: nat) returns (first: nat)
    requires p(i)
    ensures first <= i && p(first) && forall j: nat :: j < first ==> !p(j)
  {
    first := 0;
    while !p(first)
      invariant first <= i && forall j: nat :: j < first ==> !p(j)
      decreases i - first
    {
      first := first + 1;
    }
  }

  lemma OtherChange(plan: Plan, base: Disk, i: nat) returns (other: nat)
    requires SoundBase(base) && SoundPlan(plan) && !AtMostOneChanges(plan, base)
    ensures other < SHARD_COUNT && other != i && Changes(plan, base, other)
  {
    var a, b :| 0 <= a < SHARD_COUNT && 0 <= b < SHARD_COUNT && Changes(plan, base, a) && Changes(plan, base, b) && a != b;
    other := if a == i then b else a;
  }

  /** A file in force overwritten while two shards change: one of the states is neither map. */
  lemma TornTrace(writes: seq<Disk>, base: Disk, plan: Plan, counter: nat, after: TombstoneMap) returns (t: nat)
    requires SoundBase(base) && SoundPlan(plan) && Staged(writes, base, plan, counter, SHARD_COUNT)
    requires RealizesPlan(after, plan, CurrentShards(base), base.files) && !CrashSafe(plan, base, counter)
    ensures t < |writes| && Load(writes[t]).Ok? && Load(writes[t]) != Load(base) && !LoadsAs(writes[t], after)
  {
    var first := FirstOverwrite(plan, base, counter);
    var other := OtherChange(plan, base, first);
    t := WritesBefore(plan, first);
    TornState(writes[t], base, plan, counter, first, other, after);
  }

  /**
   A crash at any point leaves the old map or the complete new one if and only if no file in force is
   overwritten with different contents or only one shard changes.
   */
  lemma CrashAtomicExactly(
    writes: seq<Disk>, swaps: seq<Disk>, base: Disk, plan: Plan, counter: nat, after: TombstoneMap)
    requires SoundBase(base) && SoundPlan(plan)
    requires Staged(writes, base, plan, counter, SHARD_COUNT) && AllSwapped(swaps, base, plan)
    requires RealizesPlan(after, plan, CurrentShards(base), base.files)
    ensures OldOrNew(writes + swaps, base, after) <==> CrashSafe(plan, base, counter)
  {
    if CrashSafe(plan, base, counter) {
      CrashAtomic(writes, swaps, base, plan, counter, after);
    } else {
      var t := TornTrace(writes, base, plan, counter, after);
      assert (writes + swaps)[t] == writes[t];
    }
  }

  // ----- A restarted process -----

  function Until(end: int): seq<Range>
    requires 10 < end
    ensures Normal(Until(end))
  {
    [Range(10, end)]
  }

  /** Two series of two shards, deleted up to `end`. */
  function BothUntil(end: int): TombstoneMap
    requires 10 < end
  {
    map[1 := Until(end), 2 := Until(end)]
  }

  lemma BothUntilClean(end: int)
    requires 10 < end
    ensures CleanMap(BothUntil(end)) && BothUntil(end) != map[] && map[] + BothUntil(end) == BothUntil(end)
    ensures Part(BothUntil(end), 0) == map[]
    ensures Part(BothUntil(end), 1) == map[1 := Until(end)] && Part(BothUntil(end), 2) == map[2 := Until(end)]
  {
    assert 1 in BothUntil(end);
  }

  lemma WiderWins(end: int, wider: int)
    requires 10 < end < wider
    ensures BothUntil(end) + BothUntil(wider) == BothUntil(wider)
    ensures map[1 := Until(end)] + map[1 := Until(wider)] == map[1 := Until(wider)] != map[1 := Until(end)]
    ensures map[2 := Until(end)] + map[2 := Until(wider)] == map[2 := Until(wider)] != map[2 := Until(end)]
  {
    assert (map[1 := Until(wider)])[1] != (map[1 := Until(end)])[1];
    assert (map[2 := Until(wider)])[2] != (map[2 := Until(end)])[2];
  }

  /** A sharded store holds in each shard that part of the map it loads as. */
  lemma ShardIsPart(d: Disk, m: TombstoneMap, i: nat)
    requires SoundBase(d) && d.manifest.Sharded? && LoadsAs(d, m) && i < SHARD_COUNT
    ensures ShardAt(CurrentShards(d), d.files, i) == Part(m, i)
  {
    var held, part := ShardAt(d.manifest.shards, d.files, i), Part(m, i);
    assert d == Disk(Sharded(d.manifest.shards), d.files);
    LoadSharded(d.manifest.shards, d.files);
    assert ListsExactly(m, d.manifest.shards, d.files);
    assert forall id :: id in held ==> id in m && ShardIndex(id) == i;
    SameContents(held, part, m, i);
  }

  lemma PlanAt(d: Disk, updates: TombstoneMap, i: nat)
    requires SoundBase(d) && d.manifest.Sharded? && Load(d).Ok? && CleanMap(updates) && i < SHARD_COUNT
    ensures SoundPlan(PlanOfUpdates(d, updates))
    ensures ShardAt(CurrentShards(d), d.files, i) == Part(Load(d).value, i)
    ensures PlanOfUpdates(d, updates)[i] ==
            if Part(updates, i) == map[] then None else Some(Part(Load(d).value, i) + Part(updates, i))
  {
    UpdatePlanSound(d.manifest.shards, d.files, updates);
    ShardIsPart(d, Load(d).value, i);
  }

  /** The first file of an update is written under a name in force, and another shard changes too. */
  lemma FirstFileReused(d: Disk, plan: Plan, counter: nat)
    requires SoundBase(d) && SoundPlan(plan) && Changes(plan, d, 1) && Changes(plan, d, 2) && !Writes(plan, 0) && Writes(plan, 1)
    requires CurrentShards(d)[1] == Some(ShardName(1, counter))
    ensures !CrashSafe(plan, d, counter)
  {
    assert WritesBefore(plan, 1) == 0;
    assert OverwritesChange(plan, d, counter, 1);
  }

  /**
   The counter restarts at 1 with the process. Where an earlier process wrote the lowest shard with its
   first file, an update that widens that shard and another one reuses its name and is not crash-safe.
   */
  lemma RestartReusesNames(d: Disk, end: int, wider: int)
    requires 10 < end < wider && SoundBase(d) && LoadsAs(d, BothUntil(end))
    requires d.manifest.Sharded? && d.manifest.shards[1] == Some(ShardName(1, 1))
    ensures SoundPlan(PlanOfUpdates(d, BothUntil(wider))) && !CrashSafe(PlanOfUpdates(d, BothUntil(wider)), d, 1)
  {
    BothUntilClean(end);
    BothUntilClean(wider);
    WiderWins(end, wider);
    var updates := BothUntil(wider);
    PlanAt(d, updates, 0);
    PlanAt(d, updates, 1);
    PlanAt(d, updates, 2);
    FirstFileReused(d, PlanOfUpdates(d, updates), 1);
  }

  lemma FirstNames(end: int)
    requires 10 < end
    ensures |FullPlan(BothUntil(end))| == SHARD_COUNT && Writes(FullPlan(BothUntil(end)), 1)
    ensures ChosenName(FullPlan(BothUntil(end)), 1, 1) == ShardName(1, 1)
  {
    var plan := FullPlan(BothUntil(end));
    BothUntilClean(end);
    assert plan[0] == Some(Part(BothUntil(end), 0)) && plan[1] == Some(Part(BothUntil(end), 1));
    assert 1 in Part(BothUntil(end), 1);
    assert WritesBefore(plan, 1) == WritesBefore(plan, 0) + if Writes(plan, 0) then 1 else 0;
  }

  /** What a process leaves that starts without a store and deletes from both series. */
  method FirstProcess(end: int) returns (store: Store)
    requires 10 < end
    ensures SoundBase(store.disk) && LoadsAs(store.disk, BothUntil(end))
    ensures store.disk.manifest.Sharded? && store.disk.manifest.shards[1] == Some(ShardName(1, 1))
  {
    var m := BothUntil(end);
    BothUntilClean(end);
    NormalizeClean(m);
    store := new Store(Disk(Absent, map[]));
    var _, _ := store.PersistUpdates(m);
    FirstNames(end);
  }

  /** It is restarted, and its first update widens both deletions: a crash can leave half of that visible. */
  method RestartTears(end: int, wider: int) returns (store: Store, ghost torn: Disk)
    requires 10 < end < wider
    ensures LoadsAs(store.disk, BothUntil(wider)) && torn in store.trace
    ensures Load(torn).Ok? && Load(torn).value != BothUntil(end) && Load(torn).value != BothUntil(wider)
  {
    BothUntilClean(wider);
    NormalizeClean(BothUntil(wider));
    WiderWins(end, wider);
    var first := FirstProcess(end);
    RestartReusesNames(first.disk, end, wider);
    store := new Store(first.disk);
    var _, steps := store.PersistUpdates(BothUntil(wider));
    ghost var k :| 0 <= k < |steps| && Load(steps[k]).Ok? && Load(steps[k]) != Load(first.disk)
                   && !LoadsAs(steps[k], BothUntil(wider));
    torn := steps[k];
  }
}
