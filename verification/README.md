# A verified model of tsink's core

tsink is a time-series database. This project models the parts of it whose correctness is hardest to
see from the code, in Dafny 4.11, and proves what those parts promise. `dafny verify dfyconfig.toml`
checks everything.

The model takes the form of the code. A structure that is updated in place is a class whose methods
are proved against a specification function; a loop is a loop with invariants; the lock protocol, the
edge queue and the closing handshake are state machines whose theorems speak about every run. Input
from outside (reads, appends, renames and reopens that may fail, clocks, hashes, wake-ups) is a
parameter, so a theorem holds for every behaviour of the outside.

| component | files | main results |
|---|---|---|
| PromQL parser | `PromqlAst`, `PromqlGrammar`, `PromqlParser`, `PromqlTheorems`, `PromqlModifiers` | the parser and a printer are inverse on exactly the well-formed trees |
| Series catalog cache | `CatalogSpec`, `CatalogCache` | the incremental catalog equals the one built from scratch, after every history |
| Tombstones | `Tombstones`, `TombstoneStore` | a canonical form for sets of deleted timestamps; when exactly the sharded store survives a crash at any point |
| Timestamp columns | `Varint`, `Timestamps`, `TimestampEncoding`, `LatestVisible` | codecs round-trip, an index-driven search finds the greatest visible timestamp |
| Write path locking | `Bits`, `ShardLocks`, `LockProtocol`, `LockPrograms`, `LockWakeups`, `LockContenders`, `LockLosses`, `Semaphore` | no deadlock, every run ends with everything released, and exactly which step loses a wake-up and which engines can |
| Edge sync queue | `EdgeQueueSpec`, `EdgeQueueTheorems`, `EdgeQueueFile`, `EdgeQueue` | the record of an enqueue that succeeded stays in the file, whatever fails and wherever the process stops; exactly when the file can be read back |
| Exemplar store | `TopK`, `Exemplars` | two nested limits keep exactly the latest exemplars |
| Regex literals | `RegexLiterals` | a literal set replaces a pattern without changing what it matches |
| Downsampling | `Grouping`, `Downsample` | the loop forms Euclidean buckets and can be split at boundaries, with the exact exceptions |
| Paging | `Paging` | following page offsets visits every row exactly once |
| Series identity | `Sorting`, `LabelIdentity`, `WindowDigest` | identities are injective up to label order; replicas with the same window agree, and replicas that agree on different windows exhibit a collision |
| Closing the async handle | `AsyncClose` | one close at a time, queued writes run first, CLOSED is final; exactly when CLOSING is final too |
| Chunk builder | `ChunkBuilder` | freezing, snapshots and cursors lose nothing |
| Numbers | `FloatExact` | which integers convert to binary64 without rounding |

## Where the code and its promise part

Each of these is a theorem with the exact condition and, where it helps, a concrete example.

- A chunk of constant step whose `step * (n - 1)` exceeds 64 bits is stored in the fixed-step codec and
  cannot be read back (`TimestampEncoding.ChooseTimestampCodec`, `TimestampEncoding.SpanOverflowExample`).
- The latest-timestamp search uses `i64::MIN` for "nothing yet", so it never reports that timestamp
  (`LatestVisible.SentinelExact`, `LatestVisible.SmallestTimestampMissed`).
- Shard file names come from a counter that restarts with the process. A write that overwrites a file in
  force with different contents while it changes two or more shards is not crash-atomic; every other
  write is (`TombstoneStore.CrashAtomicExactly`, `TombstoneStore.RestartTears`).
- A bucket that would start before `i64::MIN` is clamped and then swallows points of the next bucket
  (`Downsample.LoopGroupsAreBuckets`, `Downsample.SplitExactly`, `Downsample.SafeCutExactly`).
- An append that is cut short leaves part of a line, which no later open accepts; one that lacks only its
  newline puts the next record on the same line. The edge queue's file is then refused, with everything
  promised in it, unless a compaction replaces it first (`EdgeQueueFile.PromisesReadExactly`,
  `EdgeQueueFile.TornAppendLosesPromise`, `EdgeQueueFile.MissingNewlineLosesPromise`).
- An acknowledgement of which nothing reaches the log removes the entry from memory but not its bytes, and
  the entry comes back on the next open (`EdgeQueueTheorems.AckReturnsExactly`,
  `EdgeQueueTheorems.FailedAckStaysCounted`). A failed reopen after compaction leaves the queue writing to
  the replaced file until a later compaction (`EdgeQueueTheorems.DetachedEnqueue`).
- `acquire` and `acquire_all` share one condition variable, and a released permit wakes one thread. If that
  thread waits for all permits, a writer sleeps on while a permit is free, until the next release or its
  timeout (`LockWakeups.WakeupLostExactly`, `LockLosses.LosesExactly`, `LockLosses.CloseLosesWakeup`).
- `ignoring() on(x)` is accepted, because a repeated clause is recognised by its labels or by `on`, and
  `offset 0s offset 5m` is, because a repeated offset is recognised by not being zero
  (`PromqlModifiers.ClausesAcceptedExactly`, `PromqlModifiers.EmptyIgnoringThenOn`,
  `PromqlModifiers.OffsetsExactly`).
- The search index refuses bytes after a single delta-of-delta point, which the decoder reads over
  (`Timestamps.BuildIndex`).
- If the async worker dies with a close queued or in hand, no event ever leaves CLOSING
  (`AsyncClose.StuckExactlyWhenAbandoned`, `AsyncClose.AbandonedRun`).

Two places where the documentation differs from the code, which the model follows: the grammar summary
in docs/promql.md allows one sign before an operand where `src/promql/parser.rs` allows any number, and a
sign binds tighter than `^`, on which that summary's precedence table is silent.

## Model

| member | source | states |
|---|---|---|
| `PromqlTheorems.ParsePrinted` | src/promql/parser.rs:10-16 | every well-formed tree is rebuilt from its printed tokens, with all of them consumed: precedence, associativity, signs, modifiers and postfix forms all survive the round trip |
| `PromqlTheorems.ParseSound` | src/promql/parser.rs:55-78 | whatever token stream is accepted, the tree is well formed and its printed form parses to the same tree |
| `PromqlTheorems.AcceptedExactlyWhenWellFormed` | src/promql/parser.rs:10-16 | the well-formed trees are exactly the trees some token stream denotes |
| `PromqlTheorems.ExprRoundTrip` | src/promql/parser.rs:55-78 | parsing a printed operand at any precedence level rebuilds it and leaves the operator loop in the state of having that operand in hand |
| `PromqlTheorems.RightOperandRoundTrip` | src/promql/parser.rs:63-66 | modifiers and right operand of every binary operator are read back, the operand at the level its associativity demands |
| `PromqlTheorems.ModifiersRoundTrip` | src/promql/parser.rs:80-139 | `bool`, `on`/`ignoring` and `group_left`/`group_right` clauses are read back for every operator that may carry them |
| `PromqlTheorems.PostfixFormRoundTrip` | src/promql/parser.rs:363-388 | selectors, ranges, subqueries, `offset`, `@`, calls, aggregations and parentheses are read back, and the postfix loop resumes right behind them |
| `PromqlTheorems.AggregationRoundTrip` | src/promql/parser.rs:245-278 | an aggregation is read back with its parameter and its grouping |
| `PromqlTheorems.TrailingGroupingRoundTrip` | src/promql/parser.rs:267-270 | a grouping behind the brackets gives the same tree as one before them |
| `PromqlTheorems.TwoOperators` | src/promql/parser.rs:516-536 | of two operators in a row the later one takes the middle operand exactly when it stands on a tighter level of the table in docs/promql.md or both are `^` |
| `PromqlParser.ParseTokens` | src/promql/parser.rs:10-16 | the imperative parser accepts and rejects exactly as the grammar does; what it accepts is well formed, and it accepts the printed form of every well-formed tree as that tree |
| `PromqlParser.Parser.ParseExpression` | src/promql/parser.rs:55-78 | precedence climbing with mutable position agrees with the grammar: result, error and tokens left |
| `PromqlParser.Parser.ParseOperators` | src/promql/parser.rs:58-75 | the operator loop agrees with the grammar from any operand in hand |
| `PromqlParser.Parser.PeekBinaryOp` | src/promql/parser.rs:516-536 | the next token as an operator |
| `PromqlParser.Parser.ParseRight` | src/promql/parser.rs:63-66 | modifiers and right operand, in that order |
| `PromqlParser.Parser.ParseModifiers` | src/promql/parser.rs:80-139 | the modifier loop and its final legality checks agree with the grammar |
| `PromqlParser.Parser.ParseClause` | src/promql/parser.rs:141-167 | one matching or grouping clause |
| `PromqlParser.MergeVectorMatching` | src/promql/parser.rs:718-760 | the merge of one clause into what was read so far follows the rule of the grammar, whose exact effect on a list of clauses `PromqlModifiers.ClausesAcceptedExactly` states |
| `PromqlModifiers.ClausesAcceptedExactly` | src/promql/parser.rs:718-760 | a list of clauses of any length is accepted if and only if no earlier one fixed what a later one fixes and the labels stay apart, and the merged matching is then built from them |
| `PromqlModifiers.ClausesParse` | src/promql/parser.rs:80-139 | the modifier loop on the printed clauses gives exactly that outcome |
| `PromqlModifiers.EmptyIgnoringThenOn` | src/promql/parser.rs:738-742 | `ignoring() on(x)` is read as `on(x)` |
| `PromqlModifiers.OffsetsExactly` | src/promql/parser.rs:648-680 | any number of `offset` modifiers in a row is accepted if and only if none but the last is other than zero, and the last one is what the expression ends with |
| `PromqlParser.Parser.ParseUnaryExpression` | src/promql/parser.rs:169-190 | sign prefixes, then a primary and its postfix forms |
| `PromqlParser.Parser.ParsePrimaryExpression` | src/promql/parser.rs:192-236 | literals, brackets, selectors and names |
| `PromqlParser.Parser.ParseNamed` | src/promql/parser.rs:217-230 | an identifier starts an aggregation, a call or a selector |
| `PromqlParser.Parser.ParseAggregationExpression` | src/promql/parser.rs:245-278 | grouping before or after the brackets, a parameter exactly for the operators that take one |
| `PromqlParser.Parser.ParseGroupingClause` | src/promql/parser.rs:280-306 | `by` or `without`, or nothing |
| `PromqlParser.Parser.ParseLabels` | src/promql/parser.rs:308-323 | a bracketed label list |
| `PromqlParser.Parser.ParseCallExpression` | src/promql/parser.rs:325-341 | a call and its arguments |
| `PromqlParser.Parser.ParseSelector` | src/promql/parser.rs:343-361 | a selector; one without a metric name must have a matcher that rejects the empty string |
| `PromqlParser.FindNonEmptyMatcher` | src/promql/parser.rs:625-641 | whether some matcher rejects the empty string, or that a pattern does not compile, whichever comes first |
| `PromqlParser.Parser.ParsePostfixForms` | src/promql/parser.rs:363-388 | the postfix loop |
| `PromqlParser.Parser.ParseBracket` | src/promql/parser.rs:390-421 | a range turns a selector into a matrix; with a colon any operand becomes a subquery |
| `PromqlParser.Parser.ParseAtModifier` | src/promql/parser.rs:423-462 | a signed timestamp, `start()` or `end()` |
| `PromqlParser.Parser.ParseMatchers` | src/promql/parser.rs:464-514 | label matchers in braces |
| `PromqlParser.Parser.ExpectSignedDurationTokens` | src/promql/parser.rs:610-622 | an optional sign and a duration |
| `CatalogSpec.BuildCatalogSpec` | src/engine/registry_catalog.rs:356-447 | the from-scratch build accepts exactly the source lists whose series pair ids and keys off one to one, in any order of the sources, and its result lists exactly those series |
| `CatalogCache.RegistryCatalogCache.Catalog` | src/engine/registry_catalog.rs:159-183 | after any history of the cache the catalog equals the from-scratch one whenever all reads succeed, and a failing read can only make it fail with an I/O error |
| `CatalogCache.RegistryCatalogCache.RefreshFingerprint` | src/engine/registry_catalog.rs:164-177 | a missing fingerprint is recomputed from the loaded series; a conflict is reported only if the segments do conflict |
| `CatalogCache.RegistryCatalogCache.SyncSegments` | src/engine/registry_catalog.rs:213-242 | afterwards exactly the listed roots are cached, with all reference counts still exact |
| `CatalogCache.RegistryCatalogCache.LoadSeries` | src/engine/registry_catalog.rs:244-302 | a refused or unreadable segment leaves the cache as it was |
| `CatalogCache.ScanSeries` | src/engine/registry_catalog.rs:253-286 | a segment is refused exactly when its series and the known ones do not pair ids and keys off one to one |
| `CatalogCache.AdmitSegment` | src/engine/registry_catalog.rs:253-301 | admitting a segment raises each series count by one and keeps both lookup maps inverse to each other |
| `CatalogCache.RegistryCatalogCache.RemoveSegment` | src/engine/registry_catalog.rs:304-323 | a root is forgotten together with exactly the series no other loaded segment holds |
| `CatalogCache.ReleaseSeries` | src/engine/registry_catalog.rs:312-322 | the counting loop leaves counts, ids and keys exact for the remaining segments |
| `CatalogCache.RegistryCatalogCache.Entries` | src/engine/registry_catalog.rs:185-196 | the sorted entries of the listed segments |
| `CatalogCache.RegistryCatalogCache.Adopt` | src/engine/registry_catalog.rs:198-211 | a file of an earlier build is taken over only when its entries are the current ones, and its fingerprint is then the true one unless two segments, one listed now and one then, have equal entries and different series |
| `CatalogCache.RegistryCatalogCache.PersistCatalog` | src/engine/registry_catalog.rs:95-115 | on success the file at the catalog path is the from-scratch catalog, whether rewritten, adopted under that proviso or left alone; on failure it is unchanged |
| `CatalogCache.SameEntriesSameBindings` | src/engine/registry_catalog.rs:198-211 | equal sorted entries mean equal series unless an entry of the one list collides with one of the other |
| `CatalogCache.HeldExactly` | src/engine/registry_catalog.rs:304-323 | a series is in the cache exactly while some loaded segment holds it |
| `Tombstones.MergeCoverage` | src/engine/tombstone.rs:58-74 | merging a range keeps the list sorted, disjoint and not touching, and covers exactly the old timestamps and the new ones |
| `Tombstones.NormalFormUnique` | src/engine/tombstone.rs:58-74 | two normal lists that cover the same timestamps are equal |
| `Tombstones.NormalizeCanonical` | src/engine/tombstone.rs:109-122 | normalizing depends only on what is covered, not on order or repetition |
| `Tombstones.MergeTombstoneRange` | src/engine/tombstone.rs:58-74 | the loop computes that merge |
| `Tombstones.TimestampIsTombstoned` | src/engine/tombstone.rs:76-82 | bisection answers exactly whether the timestamp is covered |
| `Tombstones.IntervalFullyTombstoned` | src/engine/tombstone.rs:84-99 | one lookup answers exactly whether every timestamp of the closed interval is covered |
| `Tombstones.IntervalByRange` | src/engine/tombstone.rs:84-99 | in normal form an interval is covered exactly when a single range covers it |
| `Tombstones.DeleteUpdates` | src/engine/deletion.rs:76-121 | the update deletes exactly the requested range from exactly the matched series, and names exactly the series whose coverage grows |
| `Tombstones.GrowsExactlyWhenChanged` | src/engine/deletion.rs:94-104 | the stored list changes exactly when some timestamp becomes newly deleted |
| `TombstoneStore.LoadSharded` | src/engine/tombstone.rs:236-252 | loading a manifest whose shards are present returns exactly what they hold, each series from its own shard |
| `TombstoneStore.Store.WriteShardFile` | src/engine/tombstone.rs:254-267 | one new file under the next counter value, or none for an empty shard |
| `TombstoneStore.Store.WriteShards` | src/engine/tombstone.rs:427-445 | after each write the old manifest is still in force and only the written names have changed |
| `TombstoneStore.Store.CleanUp` | src/engine/tombstone.rs:269-290 | removing replaced files never removes one the new manifest names |
| `TombstoneStore.Store.Commit` | src/engine/tombstone.rs:387-450 | shard files, then the manifest, then clean-up; shards outside the plan keep their file |
| `TombstoneStore.Store.PersistUpdates` | src/engine/tombstone.rs:387-450 | afterwards the store loads as the old map overridden by the normalized updates; rewritten shards have the names the counter gave, untouched ones keep their file; every intermediate state loads as the old or the new map if and only if the update is crash-safe, and otherwise some loadable one is neither; bad ranges and an unreadable store are reported and nothing is written |
| `TombstoneStore.Store.Persist` | src/engine/tombstone.rs:368-385 | the same, with the same condition, for rewriting all 256 shards, and for removing the store when the map is empty, which is always crash-atomic |
| `TombstoneStore.CrashAtomic` | src/engine/tombstone.rs:387-450 | a crash after any disk step of a crash-safe write leaves the complete old or the complete new map |
| `TombstoneStore.CrashAtomicExactly` | src/engine/tombstone.rs:387-450 | for every plan: crash atomicity holds if and only if no file in force is overwritten with different contents, or at most one shard changes |
| `TombstoneStore.TornTrace` | src/engine/tombstone.rs:254-267 | otherwise one of the states loads, and is neither map |
| `TombstoneStore.RestartReusesNames` | src/engine/tombstone.rs:23-23 | the counter restarts at 1 with the process: where the lowest shard has the first name, an update that widens it and another shard is not crash-safe |
| `TombstoneStore.RestartTears` | src/engine/tombstone.rs:387-450 | one process creates the store, is restarted and widens two deletions: on the way the disk loads as neither map |
| `TombstoneStore.LegacyLoads` | src/engine/tombstone.rs:350-365 | a legacy file, entries repeated and ranges overlapping or unsorted, loads as a clean map that deletes exactly what its entries delete |
| `Varint.EncodeUvarint` | src/engine/encoder.rs:454-460 | appends the base-128 digits, at most ten bytes |
| `Varint.ReadUvarint` | src/engine/encoder.rs:462-488 | the loop agrees with the specification on every buffer |
| `Varint.DecodeUvarintExact` | src/engine/encoder.rs:462-488 | decoding succeeds exactly on a terminated group of at most ten bytes that denotes a 64-bit number, returns that number and stops behind the group |
| `Varint.UvarintRoundTrip` | src/engine/encoder.rs:454-488 | every 64-bit number is read back, whatever surrounds it |
| `Varint.SvarintRoundTrip` | src/engine/encoder.rs:490-498 | every signed 64-bit number is read back |
| `Varint.ZigzagRoundTrip` | src/engine/encoder.rs:490-498 | the sign folding is a bijection, with its closed form |
| `Timestamps.DecodeTimestamps` | src/engine/encoder/timestamps.rs:112-124 | succeeds exactly when the payload holds a column of that many points, for all three codecs, and returns that column |
| `Timestamps.ReadPoints` | src/engine/encoder/timestamps.rs:543-580 | the decoding loop shared by the delta codecs |
| `Timestamps.ReadFixed` | src/engine/encoder/timestamps.rs:458-482 | the fixed-step loop fails exactly when an offset or a sum overflows |
| `Timestamps.ColumnUnique` | src/engine/encoder/timestamps.rs:112-124 | a payload holds at most one column of a given length |
| `Timestamps.BuildIndex` | src/engine/encoder/timestamps.rs:142-295 | an index is built if and only if the payload holds a column of that many points and, for a single delta-of-delta point, nothing follows it, and it describes that column; of a fixed-step payload only the length decides |
| `Timestamps.CollectAnchors` | src/engine/encoder/timestamps.rs:171-215 | the anchors are the decoder states at every 64th point |
| `Timestamps.DecodeBlock` | src/engine/encoder.rs:113-130 | decoding block `b` through the index gives the slice of the fully decoded column, and an error past the end |
| `Timestamps.CandidateBlock` | src/engine/encoder.rs:75-111 | the block returned contains the last timestamp at or below the ceiling, for all three kinds of index |
| `Timestamps.CandidateAnchor` | src/engine/encoder/timestamps.rs:297-312 | the last anchor before the first one above the ceiling |
| `Timestamps.FixedLatest` | src/engine/encoder.rs:85-101 | the saturating arithmetic of the fixed-step index never changes its answer on a readable column |
| `TimestampEncoding.EncodeFixedStep` | src/engine/encoder/timestamps.rs:25-61 | produces the fixed-step column exactly for constant steps |
| `TimestampEncoding.EncodeDeltas` | src/engine/encoder/timestamps.rs:63-110 | succeeds exactly when every stored difference is a 64-bit number, and then produces the column |
| `TimestampEncoding.DeltaRoundTrip` | src/engine/encoder/timestamps.rs:484-580 | both delta codecs give back every column they accept |
| `TimestampEncoding.FixedRoundTrip` | src/engine/encoder/timestamps.rs:458-482 | a fixed-step column is given back if and only if step times last index fits 64 bits |
| `TimestampEncoding.ChooseTimestampCodec` | src/engine/encoder/timestamps.rs:3-23 | fails exactly when a delta overflows; the chosen payload is a shortest one and is read back if and only if the span of a fixed-step column does not overflow |
| `TimestampEncoding.ReadBackExactly` | src/engine/encoder/timestamps.rs:3-23 | whichever codec wins: read back if and only if the span does not overflow |
| `TimestampEncoding.FixedStepWins` | src/engine/encoder.rs:443-452 | when the span overflows, no other codec is shorter, so the unreadable column is the one chosen |
| `TimestampEncoding.SpanOverflowExample` | src/engine/encoder/timestamps.rs:25-61 | three points that are stored and cannot be read back |
| `LatestVisible.LatestInPoints` | src/engine/core_impl.rs:159-177 | the greatest timestamp above the floor, at or below the ceiling and not deleted |
| `LatestVisible.HeaderAnswerExact` | src/engine/core_impl.rs:200-226 | whenever the chunk header alone decides, its answer is the greatest visible timestamp of the points |
| `LatestVisible.LatestInSealed` | src/engine/core_impl.rs:194-234 | exact for a sealed chunk, decoded points or not |
| `LatestVisible.ScanBlock` | src/engine/core_impl.rs:294-313 | scanning a block backwards, with the early exit below the floor |
| `LatestVisible.LatestInPayload` | src/engine/core_impl.rs:272-316 | the index-driven backward block search returns exactly the greatest visible timestamp of the whole column |
| `LatestVisible.LatestInPersisted` | src/engine/core_impl.rs:318-370 | exact for a persisted chunk, through header or index |
| `LatestVisible.LatestForSeries` | src/engine/core_impl.rs:106-157 | exact over active points, sealed chunks and persisted chunks together, each search pruned by the best answer so far, except that `i64::MIN` is never reported |
| `LatestVisible.SentinelExact` | src/engine/core_impl.rs:106-157 | the answer is the true maximum if and only if that maximum is not `i64::MIN` |
| `LatestVisible.SmallestTimestampMissed` | src/engine/core_impl.rs:106-157 | a series whose only point lies at `i64::MIN` is answered with none |
| `ShardLocks.LockWriteShards` | src/engine/shard_routing.rs:4-28 | every required shard is locked exactly once, in strictly ascending order, and no other |
| `ShardLocks.ShardBits` | src/engine/shard_routing.rs:5-11 | a bit is set exactly for the shards some row hashes to |
| `ShardLocks.LockWord` | src/engine/shard_routing.rs:18-26 | clearing lowest set bits visits the set bits of a word in ascending order |
| `LockProtocol.StepKeepsInvariant` | src/concurrency.rs:29-144 | across every step of every thread, failures and permits found at the last moment included: permits are conserved, locks are exclusive, and when all permits are free a thread that sleeps has somebody woken beside it |
| `LockWakeups.WakeupLostExactly` | src/concurrency.rs:29-144 | a step leaves somebody asleep for one permit while more permits are free than threads are woken if and only if a thread woken for `acquire_all` goes back to sleep or gives up without passing its wake-up on |
| `LockWakeups.NoWakeupLost` | src/concurrency.rs:50-88 | where nobody takes all permits, no run loses a wake-up |
| `LockWakeups.EngineLosesNoWakeup` | src/engine/ingest_pipeline.rs:46-99 | any number of writers, rollup passes and maintenance passes in any interleaving lose none |
| `LockWakeups.TakesAllExactly` | src/engine/engine.rs:490-500 | snapshot and close are the only programs that take all permits |
| `LockContenders.LosesOnlyIf` | src/engine/engine.rs:490-500 | every run that loses a wake-up has two permits or more, a snapshot or close, and more threads than permits that can contend for one permit behind the gate: the writers, and one ungated rollup pass, since passes exclude each other by the run lock |
| `LockLosses.LosesIf` | src/concurrency.rs:92-144 | and every engine that meets this condition has such a run |
| `LockLosses.LosesExactly` | src/concurrency.rs:92-144 | so, for any threads and any number of permits, a wake-up can be lost if and only if the condition holds, guards being dropped in the reverse order of their acquisition |
| `LockLosses.CloseLosesWakeup` | src/concurrency.rs:92-144 | for instance by three writers, two permits and a close |
| `LockProtocol.NoDeadlock` | src/engine/ingest_pipeline.rs:46-99 | as long as a thread has work left, some thread can get on without anyone giving up |
| `LockProtocol.StepLighter` | src/concurrency.rs:50-126 | every step, waiting and being woken included, lowers a measure of the work left |
| `LockProtocol.RunKeepsInvariant` | src/engine/ingest_pipeline.rs:46-99 | the invariant in every reachable state, and a bound on the length of every run |
| `LockPrograms.ProgramDisciplined` | src/engine/engine.rs:490-600 | the lock sequences of writers, rollup passes, snapshot, close and maintenance all respect one order and end with nothing held; a snapshot gives its permits back under the compaction gate |
| `LockPrograms.EveryRunFinishes` | src/engine/runtime.rs:143-183 | any number of such threads in any interleaving: runs are bounded, and a run that cannot go on has finished with all permits and locks free |
| `LockPrograms.OtherOrderDeadlocks` | src/engine/ingest_pipeline.rs:46-60 | a run in which a program that takes the permit before the rollup run lock meets a rollup pass and neither can go on |
| `SemaphoreModel.Semaphore.constructor` | src/concurrency.rs:19-26 | at least one permit, all free |
| `SemaphoreModel.Semaphore.AcquireWithin` | src/concurrency.rs:50-126 | takes what it wants at the first look that finds it, and gives up only after a look that does not |
| `SemaphoreModel.Semaphore.Release` | src/concurrency.rs:132-144 | a dropped guard always returns its permit |
| `EdgeQueueTheorems.NothingPromisedIsLost` | crates/tsink-server/src/edge_sync.rs:671-884 | over every run of enqueues, acknowledgements, retries, expiries, crashes and reopens, with appends failing or cut short anywhere and compactions failing anywhere: the record of an entry whose enqueue succeeded is in the file, not overridden, until acknowledged or expired |
| `EdgeQueueTheorems.OpensExactly` | crates/tsink-server/src/edge_sync.rs:955-1000 | after every run an open succeeds if and only if every line of the file is a record and the compaction of a long file succeeds, and everything promised is then queued again |
| `EdgeQueueFile.PromisesReadExactly` | crates/tsink-server/src/edge_sync.rs:671-884 | over every run: the file can be read if and only if no append since it was last replaced was cut short, save one that lacked only its newline and was the last to write; it opens exactly then, given that the compaction of a long one succeeds, with everything promised |
| `EdgeQueueFile.AppendShape` | crates/tsink-server/src/edge_sync.rs:1002-1019 | an append keeps a file of whole lines whole if and only if it is written whole or not at all; an append that writes anything to a file whose last line is unfinished makes it unreadable, even if it succeeds |
| `EdgeQueueFile.CompactShape` | crates/tsink-server/src/edge_sync.rs:1021-1068 | a compaction that replaces the file mends it, whatever it held, and one that does not leaves it as it was |
| `EdgeQueueTheorems.UnreadableForGood` | crates/tsink-server/src/edge_sync.rs:979-984 | once the process has stopped, no event opens an unreadable file or changes it |
| `EdgeQueueFile.WholeWritesKeepPromises` | crates/tsink-server/src/edge_sync.rs:671-884 | over every run in which no append is cut short, whatever else fails: the file opens, unless the compaction of a long one fails, and everything promised is queued again |
| `EdgeQueueFile.TornAppendLosesPromise` | crates/tsink-server/src/edge_sync.rs:1002-1019 | a run in which a second enqueue is cut short and the first, which had succeeded, cannot be read back |
| `EdgeQueueFile.MissingNewlineLosesPromise` | crates/tsink-server/src/edge_sync.rs:1008-1013 | a run in which an enqueue fails at its newline and the next, which succeeds, cannot be read back |
| `EdgeQueueTheorems.RunExact` | crates/tsink-server/src/edge_sync.rs:671-884 | over every run whose writes succeed: replaying the log gives the pending entries up to retry fields, the byte counter is their sum and both limits hold |
| `EdgeQueueTheorems.RetrySchedule` | crates/tsink-server/src/edge_sync.rs:840-855 | after any number of failed attempts: the attempt count, a wait that doubled with each of them up to its caps, and nothing else changed |
| `EdgeQueueTheorems.CompactionPublishes` | crates/tsink-server/src/edge_sync.rs:1021-1068 | a successful compaction reattaches the log and puts every pending entry on disk |
| `EdgeQueueTheorems.AckReturnsExactly` | crates/tsink-server/src/edge_sync.rs:824-838 | an acknowledged entry leaves memory, and returns on the next open if and only if the file opens and neither the record of the acknowledgement nor a compaction after it reached the file; with the log attached, if and only if nothing of the record was written |
| `EdgeQueueTheorems.FailedAckStaysCounted` | crates/tsink-server/src/edge_sync.rs:824-838 | the byte counter exceeds the pending entries by exactly the bytes of the entry whose acknowledgement failed |
| `EdgeQueueTheorems.DetachedEnqueue` | crates/tsink-server/src/edge_sync.rs:1052-1067 | after a compaction whose file could not be reopened, an enqueue succeeds exactly when its own compaction does, and the entry is on disk exactly when that compaction replaced the file |
| `EdgeQueueSpec.CompactedReplay` | crates/tsink-server/src/edge_sync.rs:1029-1045 | replaying a compacted log gives the pending map |
| `EdgeQueue.LoadRecords` | crates/tsink-server/src/edge_sync.rs:955-1000 | the replay loop and the next id; it refuses exactly the files with a line that is no record |
| `EdgeQueue.WriteCompacted` | crates/tsink-server/src/edge_sync.rs:1029-1045 | the compacted file lists the pending entries by id |
| `EdgeQueue.EdgeSyncQueue.constructor` | crates/tsink-server/src/edge_sync.rs:671-732 | opening a log refines the open step of the protocol, refusal included |
| `EdgeQueue.EdgeSyncQueue.EnqueueRows` | crates/tsink-server/src/edge_sync.rs:734-790 | the three limits, the id, the record and the compaction, as the enqueue step of the protocol has them |
| `EdgeQueue.EdgeSyncQueue.Acknowledge` | crates/tsink-server/src/edge_sync.rs:824-838 | the acknowledgement step |
| `EdgeQueue.EdgeSyncQueue.RescheduleEntry` | crates/tsink-server/src/edge_sync.rs:840-855 | the retry step: exponential backoff, saturated and capped |
| `EdgeQueue.EdgeSyncQueue.ExpireBefore` | crates/tsink-server/src/edge_sync.rs:857-883 | the expiry step: exactly the entries before the cutoff, by id, stopping at the append that fails |
| `EdgeQueue.EdgeSyncQueue.AppendRecord` | crates/tsink-server/src/edge_sync.rs:1002-1019 | a record, or what a failing write leaves of it, in the attached file; only a whole line is counted |
| `EdgeQueue.EdgeSyncQueue.CompactLog` | crates/tsink-server/src/edge_sync.rs:1021-1068 | compaction with each of its outcomes |
| `Exemplars.ExemplarStore.ApplyWrites` | crates/tsink-server/src/exemplar_store.rs:193-258 | of everything in the series after the batch exactly the globally latest stay; accepted, dropped and kept exemplars add up; the file holds the old store or the new one |
| `Exemplars.InsertInto` | crates/tsink-server/src/exemplar_store.rs:214-234 | one write: an existing timestamp is overwritten, a new one competes for the per-series limit |
| `Exemplars.InsertAll` | crates/tsink-server/src/exemplar_store.rs:209-235 | the batch loop and its drop count |
| `Exemplars.EvictOldest` | crates/tsink-server/src/exemplar_store.rs:237-243 | the eviction loop leaves exactly the greatest by timestamp and series |
| `Exemplars.OldestId` | crates/tsink-server/src/exemplar_store.rs:367-390 | the least of all exemplars, ties broken by series |
| `Exemplars.SeriesStep` | crates/tsink-server/src/exemplar_store.rs:214-234 | cutting after every write equals cutting once at the end |
| `Exemplars.BoundedSeriesAfter` | crates/tsink-server/src/exemplar_store.rs:209-235 | a series within its limit ends as the latest exemplars ever written to it |
| `Exemplars.PersistRoundTrip` | crates/tsink-server/src/exemplar_store.rs:392-435 | loading what was written gives the same store |
| `Exemplars.ListStore` | crates/tsink-server/src/exemplar_store.rs:437-500 | every exemplar once, by series and timestamp |
| `RegexLiterals.FiniteLiteralsExact` | src/query_matcher.rs:125-132 | looking a string up in the extracted set is the same as matching the anchored pattern; the set has between 1 and 64 strings |
| `RegexLiterals.ExtractExact` | src/query_matcher.rs:73-123 | for every tree and limit: the extracted strings are exactly the language, at most `limit` of them |
| `RegexLiterals.ExtractSucceeds` | src/query_matcher.rs:73-123 | a pattern built of literals, finite repetitions, concatenations and alternatives with at most `limit` combinations is always extracted |
| `RegexLiterals.LiteralCrossProduct` | src/query_matcher.rs:50-71 | the nested loops and their cut-off |
| `RegexLiterals.FiniteLiteralValues` | src/query_matcher.rs:73-123 | the recursion over the tree with its loops |
| `Downsample.DownsamplePoints` | src/query_aggregation.rs:606-648 | the loop reports exactly the groups of the points in range, the first error winning |
| `Downsample.LoopGroupsAreBuckets` | src/query_aggregation.rs:606-648 | the groups are the Euclidean buckets of the origin if and only if no clamped first bucket swallows points of the next one |
| `Downsample.BucketsRise` | src/query_aggregation.rs:606-648 | without such a merge no bucket is reported twice and buckets come in rising order |
| `Downsample.SplitExactly` | src/engine/rollups.rs:289-296 | cutting the range at an aligned timestamp cuts no group if and only if no clamped bucket straddles the cut |
| `Downsample.SplitAtAligned` | src/engine/rollups.rs:289-296 | then downsampling the parts and joining them is downsampling the whole, errors included |
| `Downsample.SafeCutExactly` | src/engine/rollups.rs:289-296 | a cut is right for all points if and only if a part is empty or the first bucket has ended by the cut, which an unclamped start guarantees |
| `Downsample.MaterializedEndIsLastAligned` | src/engine/rollups.rs:289-292 | the end of what a rollup may materialise is the last aligned timestamp that is not after the last one observed |
| `Downsample.SplitAtMaterializedEnd` | src/engine/rollups/materialization.rs:315-317 | so the materialised part and the raw rest join to the whole |
| `Downsample.MergeExample` | src/query_aggregation.rs:590-594 | two points of different buckets that are reported as one |
| `Grouping.GroupsCover` | src/query_aggregation.rs:606-648 | concatenated, the groups are the points again, and each group lies in one bucket |
| `Grouping.GroupsRise` | src/query_aggregation.rs:606-648 | of sorted points, different groups lie in different buckets, in rising order |
| `Paging.PageExact` | src/storage.rs:772-858 | a page is the longest stretch within both budgets; it is truncated exactly when rows are left and then names the next row; it is never empty while rows are left; the reported number of series is that of the page, plus one when the row budget ends right before a new series |
| `Paging.AllPagesVisitAll` | src/storage.rs:772-858 | following the offsets from page to page visits every remaining row exactly once, in order |
| `Paging.ScanRows` | src/storage.rs:772-919 | the nested scanning loops with their early exit compute that page; options that allow no row are refused |
| `LabelIdentity.IdentityRoundTrip` | src/label.rs:72-195 | unmarshalling a marshalled identity gives the metric and the sorted labels |
| `LabelIdentity.IdentityExact` | src/label.rs:51-53 | two validated series have the same identity exactly when metrics agree and labels are permutations of each other |
| `LabelIdentity.IdentityKeyExact` | src/label.rs:56-69 | the same for the hexadecimal key |
| `LabelIdentity.MarshalMetricName` | src/label.rs:72-107 | the buffer loop writes the length-prefixed fields in label order |
| `LabelIdentity.UnmarshalMetricName` | src/label.rs:121-195 | the decoding loop and all of its refusals |
| `LabelIdentity.ValidateLabels` | src/validation.rs:19-44 | one pass accepts exactly the label lists with legal, distinct names and legal lengths |
| `WindowDigest.ComputeDigest` | src/storage.rs:705-770 | the loop over the sorted series computes the digest of the window |
| `WindowDigest.DigestForgetsOrder` | src/storage.rs:705-770 | listings that hold the same points of the same series, in any order of series, labels and points and whatever series without points they list, get the same digest |
| `WindowDigest.FingerprintsExactly` | src/storage.rs:705-770 | two computations over as many series end in the same fingerprint if and only if their entries are equal or there is a place where they mix different values to the same one and continue alike |
| `WindowDigest.DigestsEqualExactly` | src/storage.rs:705-770 | digests are equal if and only if the counts are and that holds |
| `WindowDigest.DigestExact` | src/storage.rs:705-770 | for any hash and mixing, 64 bits or not: equal windows have equal digests, and equal digests of different windows exhibit either different points of one series with the same hash or that place, the values being those of the two computations |
| `AsyncClose.EveryRun` | src/async.rs:413-478 | in every state of every run CLOSING holds exactly while one close is being sent, queued or executed, commands ran in the order sent, and CLOSED stays |
| `AsyncClose.NextInvariant` | src/async.rs:638-680 | every step of callers, worker, dropped futures and dropped handles keeps that, the death of the worker included |
| `AsyncClose.QueuedBeforeCloseRan` | src/async.rs:665-673 | when the worker executes a close, everything queued before it has run and no other close is queued |
| `AsyncClose.StuckExactlyWhenAbandoned` | src/async.rs:452-478 | from CLOSING, no sequence of events leaves CLOSING if and only if the worker has died with the close queued or in hand; otherwise both OPEN, by a failed or cancelled close, and CLOSED can be reached |
| `AsyncClose.AbandonedRun` | src/async.rs:638-680 | a run that gets there |
| `ChunkBuilding.ChunkBuilder.constructor` | src/engine/chunk.rs:321-335 | an empty builder of at least one point |
| `ChunkBuilding.ChunkBuilder.Append` | src/engine/chunk.rs:337-347 | the history grows by one point, through freezing and all; count, order flag and block bounds stay exact |
| `ChunkBuilding.FreezeIfFull` | src/engine/chunk.rs:463-472 | freezing a full tail loses and moves nothing |
| `ChunkBuilding.Freeze` | src/engine/chunk.rs:148-167 | the bounds of a frozen block are those of its points |
| `ChunkBuilding.BoundsDecide` | src/engine/chunk.rs:177-183 | skipping or sharing a block by its bounds gives what filtering it would |
| `ChunkBuilding.ChunkBuilder.SnapshotInRange` | src/engine/chunk.rs:395-432 | a snapshot is exactly the points in range, in append order |
| `ChunkBuilding.ChunkBuilder.IsFull` | src/engine/chunk.rs:349-351 | full exactly when the history has reached the limit |
| `ChunkBuilding.ChunkBuilder.IntoPoints` | src/engine/chunk.rs:474-481 | the whole history |
| `ChunkBuilding.SnapshotCursor.Advance` | src/engine/chunk.rs:305-317 | drops exactly the current point and stays at the end |
| `ChunkBuilding.SnapshotCursor.Peek` | src/engine/chunk.rs:298-303 | the current point |
| `ChunkBuilding.WalkRange` | src/engine/chunk.rs:395-432 | walking a snapshot with its cursor yields exactly the appended points in range |
| `FloatExact.ExactIffRepresentable` | src/value.rs:115-142 | both bit tests accept exactly the integers binary64 can hold |
| `FloatExact.ExactWithIffRepresentable` | src/value.rs:117-126 | the same for a significand of any width |

## Left out

- Character-level lexing of PromQL and the compilation of regular expressions; the parser starts from tokens, and whether a pattern compiles and matches the empty string is a parameter.
- Error texts and positions; errors are distinguished by kind only.
- Evaluation of PromQL, aggregation functions and floating-point values; downsampling takes the aggregation as a parameter.
- The write-ahead log, segment files, compaction of segments, tiering, retention and the query planner.
- The value codecs (XOR, zstd and the others); only the timestamp column of a chunk is modelled.
- Clustering, replication, the HTTP and ingestion protocols, tenants and security.
- TombstoneStore.Store.PersistUpdates: starts from a disk that the store itself could have left; damage by other programs, and failures of single file operations other than a crash, are not modelled.
- TombstoneStore.Store.Persist: has the same restriction.
- CatalogCache.RegistryCatalogCache.PersistCatalog: a failing write of the catalog file itself is not modelled; failing reads are.
- Hash functions (series fingerprint, FNV, shard hash) are parameters; nothing is claimed about how likely collisions are.
- Saturation of counters at 2^64 (rows, bytes, accepted and dropped exemplars), except where it changes a result that is stated.
- EdgeQueueTheorems.NothingPromisedIsLost: covers runs of fewer than 2^64 events, where ids do not saturate.
- EdgeQueueTheorems.RunExact: has the same bound.
- EdgeQueueTheorems.OpensExactly: has the same bound.
- EdgeQueueFile.PromisesReadExactly: has the same bound.
- EdgeQueueFile.WholeWritesKeepPromises: has the same bound.
- What an operating system loses on power failure after accepting a write; a stopped process loses nothing it has written.
- Decoding of log lines as text; a part of a record, and two records on one line, are taken to be no record.
- The snapshot of due entries and the delivery of edge sync batches over the network.
- The order of waiting threads and the length of waits in the semaphore; in the lock protocol a wait ends by notification, by what is found when the time is up, or by giving up, and spurious wake-ups appear only in the model of the semaphore itself.
- LockLosses.LosesExactly: speaks of runs in which a failing thread drops its guards in the reverse order of their acquisition, as the language does; the other lock theorems allow any order.
- LockContenders.LosesOnlyIf: has the same restriction.
- UTF-8 validity of decoded label bytes is a parameter of the identity decoder.
- The cache that keeps a timestamp search index between queries; each search builds or is given its index.
- Regex trees use the constructors that the extraction distinguishes; character classes are sets of characters, and look-around assertions are a constructor that is never extracted.
- Finalizing a chunk builder into an encoded chunk.
