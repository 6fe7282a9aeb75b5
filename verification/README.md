# dq: the replication protocols and segment algorithms, verified

dq reads raw events from a DuckLake catalog and serves vehicle telemetry. A single
materializer decodes the insert change feed into `lake.signals` and `lake.events`,
maintains a daily rollup of the latest readings (`lake.signals_latest`), and publishes
the same readings to a NATS key-value bucket. Query pods answer from those tables,
and detect trips and other segments from the decoded signals.

This project models the parts of dq whose correctness rests on an argument rather
than on a statement, and proves that argument:

- **The daily rollup** (`Rollup`, `DailyRollup`, `DailyProtocol`, `DailyRefresh`): an
  incremental view with a watermark and a late set that equals a full recompute after
  every step of every run.
- **The latest-value cache** (`LatestEntry`, `CacheAgreement`, `EntryStore`,
  `Publisher`, `Reconcile`, `Completeness`, `Coverage`, `Contract`, `Reporter`): a last-write-wins fold that agrees with the
  rollup, a compare-and-swap store without lost updates, the reconcile pass, and the
  coverage contract under which a miss may be served as "no data".
- **Ingest** (`Feed`, `RowStore`, `Ingest`, `Drain`): windows that partition the feed,
  idempotent inserts, and a cursor that moves only with the last window, under
  crashes, lost acknowledgements and expired history.
- **Segments and coordinates** (`TimeRanges`, `Segments`, `ChangePoint`, `Ignition`, `Pagination`,
  `DailyActivity`, `Coordinates`): loops over sorted lists proved against declarative
  specifications.

Objects whose methods update fields are classes; loops are loops; each is proved
against a function or predicate whose own properties are the lemmas. Protocols are
state machines with one step per transaction, request or critical section. A request
that may fail, or land without being acknowledged, is a nondeterministic choice; a
parameter `calm` rules failures and interference out, and the contracts say what is
then guaranteed.

`dafny verify dfyconfig.toml` checks everything.

## Premises

- Daily rollup: state is loaded before the first commit; an error after the fold has
  committed counts as a restart; the late set does not overflow; one process, no
  backfill, no pruning; rows with the same subject, name, timestamp and
  cloud_event_id carry the same reading. The second and the third are shown to be needed
  (`DailyProtocol.CommitIsExactIff`, `DailyProtocol.OverflowClearIsExactIff`).
- Cache: one publishing process; a clean record left by a predecessor is still true at
  boot (`Coverage.AdoptedRecordOutlivesTruth` shows that the protocol does not ensure
  it); each key holds a decodable entry. The reporter's three check-then-act blocks
  release the mutex inside; safety is proved for runs in which no publish failure is
  observed inside one, and is shown to fail otherwise. Two more places look at the
  proof and act later: a tick before its heartbeat, which the bound on trust excludes,
  and the shutdown record, whose truth is stated for both cases.
- Coverage: a proof vouches for what its merge pass could reach. That it reaches the
  whole lake is no premise: `Coverage` and `Reporter` carry what the pass missed, and
  `Contract` names it.
- Reconcile: both queries read one catalog state; `SplitSnapshotVisitsIff` states what
  happens when they do not.
- Ingest: steady mode, one writer, an intact cursor row, distinct (subject, time, id)
  per feed, and decode as a fixed function of the event.
- Refresh: boundaries lie after the epoch. A first boundary that does not is still
  seeded as the recompute, but no later fold may rely on it.

## Where the code does not do what it says

- A refresh that fails after its fold has committed returns with `dailyWatermark` and
  `dailyLateSeen` as they were. Late rows between the two watermarks, and late rows of
  subjects a chunk has unmarked, are then not marked, and the rollup stays wrong for
  them; so does every late row after a seed whose last commit landed unseen
  (`StaleWatermarkLosesLateRow`, `StaleSeenLosesLateRow`, `UnseenSeedLosesLateRow`).
- After a failure past the fold the runner logs that it will retry on the next
  caught-up pass, but no retry can succeed until the process restarts: the fold's
  compare-and-swap expects the older watermark (`StuckUntilRestart`).
- The overflow branch clears the late marks before it reseeds (`OverflowLosesLateRows`,
  `PartialReseedIsExactIff`).
- The fold tests `loc_ts > epoch` for "the tail has a fix" and so loses a fix stamped
  at the epoch or before (`FoldIsRecomputeIff`).
- A configured refresh delay of more than a day is accepted, but a boundary then becomes
  due before the delay has passed (`LatestDueIff`).
- Rollup and cache can serve different fixes for the same rows, because the rollup
  deduplicates before it filters out (0,0) (`LocationAgreesWithRollupIff`).
- A publish failure observed inside adoption, between the barrier check and the
  sampling of the failure counter, or between the raced check and the end of the
  assertion is certified away (`FailureDuringAdoption`, `FailureBeforeSample`,
  `FailureDuringAssertion`).
- `PublishSignals` says that a failing subject does not short-circuit the others; its
  errgroup cancels them. Only "nil means every subject was folded" is claimed here.
- A failed publish of a subject new to the lake, all of whose rows are late, is certified
  away even with the settle barrier and the failure counter at work: the merge pass does
  not reach it (`LateSubjectIsCertifiedAway`).
- A cached reading that came from the rollup carries no cloud_event_id and so never
  yields to a reading with the same timestamp, also when another tied row has since
  become the rollup's winner (`ReconcileIsFresh`).
- Adoption leaves the clean record in place. If the publish then fails and the process
  dies before a heartbeat has replaced it, the successor adopts a false record
  (`AdoptedRecordOutlivesTruth`). A failure observed while the shutdown record is
  written has the same effect (`FailureDuringRetirement`).
- A tick does not look at the proof again before its heartbeat, so a failure in between
  does not stop it (`LateHeartbeatVouches`).
- The reconcile pass misses a subject all of whose rows are late and not recomputed yet
  (`MissedIff`), one whose rows all lie between two watermarks when a fold commits
  between its queries (`SplitSnapshotVisitsIff`), and during the first seed every one
  whose bucket is still to come (`SeedVisitsIff`).
- `maybeRecoverExpired` reports the new floor even if its compare-and-swap matched no
  row (`StaleRecoverReportsPastCursorIff`).
- `RunOnce` documents zero as "caught up", but also returns zero without error after a
  lost commit conflict (`RunOnce`).
- A replay of rows older than the thirty-day probe floor stores duplicates
  (`ReplayDuplicatesIff`).
- An HDOP reading on its own creates a location at (0,0) (`CreatedByTriples`).
- A segment that ends exactly at midnight is counted on the following day with no
  activity (`CountedWithoutActivityIff`), and an ongoing one is charged to the end of
  the last day, future included (`ActiveSecondsAreConserved`).
- Idling pagination stops early at a moving stretch as long as the candidate cap, even
  if idle segments follow (`StuckIff`).
- Change-point detection ignores a configured signal count threshold (`DetectChangePoint`).

## Model

| member | source | states |
|---|---|---|
| `Rollup.FoldIsRecomputeIff` | internal/materializer/daily_rollup.go:446-493 | For every boundary and every key: merging the stored rollup with that of the tail gives the rollup of all rows, in every column, if and only if the newest fix the tail keeps for the key lies after the epoch, or it keeps none |
| `Rollup.FoldHomomorphism` | internal/materializer/daily_rollup.go:446-493 | Hence for a boundary after the epoch the fold is the recompute for all keys: value, last nonzero fix and its time, deduplicated count, first and last seen |
| `Rollup.EarlyBoundaryLosesFix` | internal/materializer/daily_rollup.go:446-493 | For no other boundary is it: a fix stamped at any boundary at or before the epoch is lost |
| `Rollup.DedupKeeps` | internal/materializer/ducklake.go:1919-1935 | Deduplication keeps exactly one row per (subject, name, timestamp) and loses no timestamp |
| `Rollup.SelectKeys` | internal/materializer/ducklake.go:1919-1935 | The recompute has a row for a key if and only if the base has one |
| `Rollup.SelectIsLocal` | internal/materializer/ducklake.go:1919-1935 | The recompute of a key depends on that key's rows only, which is what allows recomputing bucket by bucket and subject by subject |
| `Rollup.SelectSummarizes` | internal/materializer/ducklake.go:1919-1935 | Stated over the base rows alone: time and value of a recomputed row are those of the newest timestamp's row with the least cloud_event_id, the count is the number of distinct timestamps, first and last seen are the least and the greatest, and the fix is that of the newest such row that has one, or none |
| `Rollup.SummaryIsUnique` | internal/materializer/ducklake.go:1919-1935 | No other row says all that of the same base rows |
| `Buckets.ComputeHashBucket` | internal/service/duck/bucket.go:17-27 | The loop over the subject's UTF-8 bytes computes 32-bit FNV-1a modulo 256 |
| `Buckets.XorBit` | internal/service/duck/bucket.go:17-27 | The arithmetic exclusive or is the bitwise one |
| `Buckets.HashBucket` | internal/service/duck/bucket.go:17-27 | The bucket of every subject is one of the 256 the seed iterates over |
| `RollupCatalog.CommitKeepsExact` | internal/materializer/ducklake.go:1562-1640 | A batch whose late subjects are marked in the same transaction keeps every unmarked subject equal to the full recompute |
| `RollupCatalog.CommitAccounts` | internal/materializer/ducklake.go:1562-1640 | And makes exactly its new rows below the watermark pending: every key, marked or not, stays the recompute of the rows below the watermark that are not pending |
| `RollupCatalog.SeedBucketAdvances` | internal/materializer/daily_rollup.go:394-438 | One more bucket seeded: exactly the keys of the buckets so far hold their recompute, all others nothing |
| `RollupCatalog.SeedFinishIsRecompute` | internal/materializer/daily_rollup.go:394-438 | After all buckets the whole table is the recompute, whatever it was before, and nothing is pending |
| `RollupCatalog.FoldAccounts` | internal/materializer/daily_rollup.go:446-516 | A fold to a later watermark keeps that account of every key with the same pending rows |
| `RollupCatalog.LateChunkAccounts` | internal/materializer/daily_rollup.go:587-613 | Recomputing and unmarking any chunk of subjects keeps the account, with exactly their rows no longer pending |
| `RollupCatalog.AccountedIsExact` | internal/materializer/daily_rollup.go:57-63 | The account implies that every unmarked subject equals the full recompute, with one row per key |
| `RollupCatalog.NoMarksNothingPending` | internal/materializer/daily_rollup.go:523-581 | With no late mark left nothing is pending and the table is the full recompute, row for row |
| `DailyProtocol.StepKeepsInvariant` | internal/materializer/daily_rollup.go:335-658 | Every step (load, commit, seed, fold, late chunk, finish, crash) keeps the protocol invariant |
| `DailyProtocol.EveryRunIsExact` | internal/materializer/daily_rollup.go:335-658 | In every run, after every step, each unmarked subject has exactly the rows of the full recompute below the stored watermark, and no key has two rows |
| `DailyProtocol.EveryRunIsAccounted` | internal/materializer/daily_rollup.go:335-658 | And every subject, marked ones included, has the recompute of its rows below the watermark other than those that arrived late since its last recompute, all of which are marked |
| `DailyProtocol.EveryRunSummarizes` | internal/materializer/daily_rollup.go:335-658 | In every run, an unmarked subject has a stored row for a name exactly if it has base rows for it below the stored watermark, one row then, and it summarizes them in every column |
| `DailyProtocol.RunKeepsInvariant` | internal/materializer/daily_rollup.go:335-658 | The invariant, memory and progress of a refresh included, holds along every run from any state that has it |
| `DailyProtocol.FinishedRefreshIsRecompute` | internal/materializer/daily_rollup.go:335-381 | A refresh that reaches its end leaves every key equal to the full recompute at the new watermark |
| `DailyProtocol.FreshRowChangesRecompute` | internal/materializer/ducklake.go:1919-1935 | A row with a new timestamp always changes the recompute of its key, so an unmarked late row is never harmless |
| `DailyProtocol.CommitIsExactIff` | internal/materializer/daily_rollup.go:622-644 | Whatever `dailyWatermark` and `dailyLateSeen` hold, a commit of new timestamps keeps the rollup exact if and only if every subject of a row below the stored watermark is marked, already or by that commit |
| `DailyProtocol.StaleWatermarkIsExactIff` | internal/materializer/daily_rollup.go:622-644 | With the dedup set intact and `dailyWatermark` behind the stored watermark only rows between the two can break it |
| `DailyProtocol.StaleWatermarkLosesLateRow` | internal/materializer/daily_rollup.go:361-364 | First path there: a refresh that fails after its fold has landed leaves `dailyWatermark` behind, and a late row between the two watermarks is lost |
| `DailyProtocol.StaleSeenLosesLateRow` | internal/materializer/daily_rollup.go:361-364 | Second: a late chunk lands and a later one fails; `dailyLateSeen` still holds the unmarked subjects, and a late row of theirs is lost, also one below the old watermark |
| `DailyProtocol.FailureAfterFoldIsStuck` | internal/materializer/daily_rollup.go:361-364 | On both paths the two watermarks differ from then on |
| `DailyProtocol.StuckUntilRestart` | internal/materializer/daily_rollup.go:500-509 | And the process never refreshes again: until it restarts, no run moves a watermark or touches the rollup, and no fold or seed is possible |
| `DailyProtocol.UnseenSeedLosesLateRow` | internal/materializer/daily_rollup.go:418-438 | Third: the seed's last commit lands unseen; memory knows no watermark, and every late row is lost |
| `DailyProtocol.OverflowClearIsExactIff` | internal/materializer/daily_rollup.go:544-551 | Clearing the late marks ahead of the reseed keeps the invariant if and only if nothing is pending, for pending rows with new timestamps from any number of batches and folds |
| `DailyProtocol.OverflowLosesLateRows` | internal/materializer/daily_rollup.go:544-551 | For every cap a batch overflows it and is lost that way if the process dies before the reseed |
| `DailyProtocol.PartialReseedIsExactIff` | internal/materializer/daily_rollup.go:394-438 | If it dies inside the reseed, the invariant survives if and only if every subject with a row below the watermark lies in a bucket already reached, whatever was pending |
| `DailyRefresh.LatestDueIff` | internal/materializer/daily_rollup.go:300-310 | The targeted boundary is the last midnight at least the delay in the past if and only if the delay exceeds the time of day by at most a day, and falls short of it by less than one |
| `DailyRefresh.DelayBeyondADay` | internal/materializer/daily_rollup.go:300-310 | So it is at all times exactly for delays between zero and a day; the source accepts longer ones |
| `DailyRefresh.Materializer.LoadDailyRollupState` | internal/materializer/daily_rollup.go:154-204 | The first successful load takes the stored watermark and an empty dedup set; a later or failed one changes nothing; no table changes |
| `DailyRefresh.Materializer.LateDailyInsert` | internal/materializer/daily_rollup.go:622-644 | Returns exactly the subjects with a row stamped before the watermark that are not known to be recorded, each once |
| `DailyRefresh.Materializer.MarkLateDailySeen` | internal/materializer/daily_rollup.go:649-658 | Adds exactly the subjects stamped before the watermark, and forgets all of them exactly when they exceed the cap |
| `DailyRefresh.Materializer.CommitBatch` | internal/materializer/ducklake.go:1562-1640 | Rows and late marks land together or, on error, possibly not at all; the invariant survives either way, a hidden landing included |
| `DailyRefresh.Materializer.SeedDailyRollup` | internal/materializer/daily_rollup.go:394-438 | Either the watermark is at the boundary, nothing is marked and the table is the recompute, which success implies, or watermark and marks are as before; a final commit that lands unseen is covered |
| `DailyRefresh.Materializer.RecomputeDailyChunk` | internal/materializer/daily_rollup.go:587-613 | Success unmarks exactly the chunk; a chunk that lands unseen keeps the account too |
| `DailyRefresh.Materializer.RecomputeLateDailySubjects` | internal/materializer/daily_rollup.go:523-581 | Success leaves no late mark and an exact table; a failure at any chunk still leaves every key accounted for unless the late set had overflowed |
| `DailyRefresh.Materializer.FoldDailyRollup` | internal/materializer/daily_rollup.go:446-516 | Success moves an exact table from one watermark to the next; a watermark other than the expected one is refused with nothing changed; a fold that lands unseen, or a failure after it, leaves every key accounted for unless the late set had overflowed |
| `DailyRefresh.Materializer.RunDailyRollupRefresh` | internal/materializer/daily_rollup.go:335-381 | Success leaves every key equal to the full recompute at the boundary; a boundary that is no midnight is refused; one not ahead of the watermark changes nothing; a failure that left the watermark leaves the process valid; after any other the catalog is one the protocol can restart from, unless the late set had overflowed; a retry with an older watermark in memory changes nothing and cannot reach a later boundary, one with none reseeds |
| `DailyRefresh.Materializer.MaybeDailyRollupRefresh` | internal/materializer/daily_rollup.go:317-329 | For every clock and positive delay: success leaves a watermark less than a day plus the delay old, refreshes to the targeted boundary in one go when behind it and changes nothing otherwise; after a failure past the fold every retry fails and changes nothing |
| `LatestEntry.Entry.FoldValue` | internal/latestkv/latestkv.go:109-128 | The entry becomes the last-write-wins fold, value and location part independently; a change is reported if and only if the entry changed |
| `LatestEntry.Entry.Fold` | internal/latestkv/latestkv.go:97-103 | The same for a live reading, whose (0,0) fix carries no location |
| `LatestEntry.Entry.FoldBatch` | internal/latestkv/store.go:165-175 | Folding a batch reports a change if and only if the entry differs from the one before the batch, so skipping the write of an unchanged entry loses nothing |
| `LatestEntry.Entry.LastSeen` | internal/latestkv/latestkv.go:132-140 | The maximum value timestamp of the entry, never before the zero time |
| `LatestEntry.JoinIsUpperBound` | internal/latestkv/latestkv.go:109-128 | The join of two entries contains both, at the same tag or a newer one |
| `LatestEntry.JoinAssociative` | internal/latestkv/latestkv.go:109-128 | Joining is associative |
| `LatestEntry.JoinIdempotent` | internal/latestkv/latestkv.go:109-128 | Joining the same contribution twice changes nothing |
| `LatestEntry.JoinCommutes` | internal/latestkv/latestkv.go:147-152 | Joining commutes when equal tags carry equal readings |
| `LatestEntry.FoldRowsIsJoin` | internal/latestkv/store.go:165-175 | Folding a batch of readings is joining one contribution |
| `LatestEntry.FoldNeverReturns` | internal/latestkv/latestkv.go:109-128 | A fold that changes an entry cannot bring back an earlier one |
| `CacheAgreement.FoldMirrorsRows` | internal/latestkv/latestkv.go:97-152 | Folding the readings of a subject in any order leaves, for every name, exactly the answer of the tail query over their set |
| `CacheAgreement.FoldIsOrderFree` | internal/latestkv/latestkv.go:97-152 | Order, batching and repetition do not matter: the same set of readings gives the same entry |
| `CacheAgreement.ReplayIsNoOp` | internal/latestkv/latestkv.go:97-152 | Replaying readings the entry already holds changes nothing |
| `CacheAgreement.ValueAgreesWithRollup` | internal/materializer/ducklake.go:1919-1935 | The value part and last-seen time of the rollup equal those of the recency order, although the rollup deduplicates first |
| `CacheAgreement.LocationAgreesWithRollupIff` | internal/latestkv/store.go:531-551 | Rollup and cache serve the same fix if and only if no (0,0) row with a smaller cloud_event_id shares the timestamp of the newest real fix |
| `EntryStore.StepKeepsInvariant` | internal/latestkv/store.go:210-338 | Every step of every interleaving keeps the key equal to the join of what landed, and only advances it |
| `EntryStore.NoLostUpdate` | internal/latestkv/store.go:210-338 | After any interleaving of any number of calls on a key: the entry is the join of the initial one and all landed contributions; every call that returned nil is included; a call that ran out of attempts saw at least 8 writes by others |
| `EntryStore.RunKeepsInvariant` | internal/latestkv/store.go:210-338 | What a run has stored, every longer run still includes |
| `EntryStore.Key.UpdateEntry` | internal/latestkv/store.go:210-235 | Under interference between any two requests the key ends with the join of what it held and all that landed meanwhile; nil means the own contribution landed exactly once among them, or changed nothing when the entry was read; giving up means at least 8 foreign writes and no own one; without errors and other writers the result is nil and the key holds the fold of the contribution |
| `EntryStore.IncludedIsBelow` | internal/latestkv/store.go:210-235 | After nil the key contains both what it held and the contribution, whatever landed besides |
| `Publisher.GroupBySubject` | internal/latestkv/store.go:137-161 | Each group holds exactly the batch's rows of its subject, by position, in batch order |
| `Publisher.PublishSignals` | internal/latestkv/store.go:137-161 | A nil result, which an absence of errors guarantees, means that over a bucket holding the recency winners of earlier readings it now holds those of the batch too, for every subject and name; on error each subject was folded or left alone; no other key changes and none moves back |
| `Reconcile.MergeScan` | internal/latestkv/store.go:439-511 | The scan with its `pending` map joins each scanned subject's readings in exactly once and touches no other key; on error a prefix of the scan has been merged; the count is the number of distinct subjects |
| `Reconcile.MergeFromRollup` | internal/latestkv/store.go:439-606 | A pass that succeeds, as one without errors does, leaves for every key the fold of what was cached, what the rollup holds and what the tail adds, and exactly the keys that were there or were visited; it returns the number of subjects each scan visited; nothing ever moves back |
| `Completeness.StoredIff` | internal/latestkv/store.go:439-511 | The rollup scan visits a subject if and only if one of its rows before the watermark is not pending |
| `Completeness.MissedIff` | internal/latestkv/store.go:439-606 | Once a watermark exists a pass misses a subject if and only if all its rows arrived below the watermark since its last recompute |
| `Completeness.MissedOnlyWhileMarked` | internal/materializer/daily_rollup.go:57-63 | In every run of the rollup protocol a missed subject of the lake carries a late mark |
| `Completeness.NewLateSubjectIsMissed` | internal/latestkv/store.go:439-606 | A late row of a subject new to the lake leaves that subject missed |
| `Completeness.MissedSubjectIsReached` | internal/latestkv/store.go:439-606 | A run from an empty catalog gets there |
| `Completeness.SeedVisitsIff` | internal/latestkv/store.go:518-526 | While the first seed is under way there is no tail, and a subject is visited if and only if its bucket has been seeded and it has a row below the boundary |
| `Completeness.SplitSnapshotVisitsIff` | internal/latestkv/store.go:518-526 | When a fold commits between the two queries, a subject is visited if and only if it has a row before the old watermark that is not pending, or one at or after the new |
| `Completeness.ReconcileServesNewest` | internal/latestkv/store.go:439-606 | For every key the two queries together serve the newest reading, by the recency order, of all rows that are not pending, with its cloud_event_id if it lies at or after the watermark and an empty one otherwise |
| `Completeness.ReconcileIsFresh` | internal/latestkv/store.go:439-606 | Over an existing entry the pass serves the later of that and the lake's newest reading; on a tie the lake's exactly if the id it is served with is smaller, so a reading from the rollup never yields to a tied one |
| `Completeness.ReconcileServesFixIff` | internal/latestkv/store.go:531-551 | The pass serves the newest real fix of the rows that are not pending if and only if it lies at or after the watermark or no (0,0) row with a smaller cloud_event_id shares its timestamp; with no real fix it serves none |
| `Coverage.StepKeepsInvariant` | internal/latestkv/coverage.go:303-601 | Every step that is not a publish failure observed inside one of the three check-then-act blocks keeps the coverage invariant |
| `Coverage.RunKeepsInvariant` | internal/latestkv/coverage.go:303-601 | So does every run of such steps |
| `Coverage.ProofImpliesCovered` | internal/materializer/latest_publisher.go:53-59 | In every such interleaving, whenever the reporter holds a proof every subject of the lake has a key, except those the merge pass behind the proof did not reach: its own last one, or its predecessor's behind an adopted record |
| `Coverage.LastPassDecides` | internal/latestkv/coverage.go:498-563 | From a merge pass on, until another begins or a record is adopted, a proof means that only subjects this pass did not reach can lack a key, whatever earlier passes missed; if it reached all, none does and no failed publish is certified away |
| `Coverage.MissedSubjectIsCertified` | internal/latestkv/coverage.go:498-563 | If one does not, a failed publish is, in a run from boot with no failure inside a block |
| `Contract.StepKeepsInvariant` | internal/latestkv/coverage.go:303-601 | Reporter, publisher and daily rollup interleaved over one lake: every step keeps both invariants |
| `Contract.RunKeepsInvariant` | internal/latestkv/coverage.go:303-601 | So does every run, and the gap is exactly what the merge pass behind the proof did not reach in the catalog it read |
| `Contract.ProofImpliesCovered` | internal/materializer/latest_publisher.go:53-59 | In every joint run, whenever the reporter holds a proof every subject of `lake.signals` has a key except those that the one merge pass behind the proof did not reach in the stored rollup and its tail |
| `Contract.LastPassDecides` | internal/latestkv/coverage.go:498-563 | That pass is the last one, until a record is adopted: what it read is all that counts, whatever earlier passes missed |
| `Contract.MissedArePending` | internal/latestkv/store.go:439-606 | Once a watermark exists, those are the subjects all of whose rows are late and not recomputed yet, all of them marked |
| `Contract.SettledProofIsComplete` | internal/latestkv/store.go:439-606 | So a proof means a complete bucket whenever the pass behind it read a catalog with a watermark and an empty late set |
| `Contract.LateSubjectIsCertifiedAway` | internal/latestkv/coverage.go:498-563 | And not otherwise: after a seed, a late row of a new subject whose publish fails is certified away, though the failure is observed and its batch settles before the proof |
| `Coverage.FailureDuringAdoption` | internal/latestkv/coverage.go:430-478 | A failure observed while the clean record is read is certified away |
| `Coverage.FailureBeforeSample` | internal/latestkv/coverage.go:455-510 | A failure observed between the barrier check and the sampling of the failure counter is certified away, whatever the lake holds |
| `Coverage.FailureDuringAssertion` | internal/latestkv/coverage.go:525-559 | A failure observed between the raced check and the end of the assertion is certified away |
| `Coverage.AdoptionMeetsFailure` | internal/latestkv/coverage.go:430-478 | Adoption is entered from boot with a failure pending |
| `Coverage.BarrierMeetsFailure` | internal/latestkv/coverage.go:455-510 | So is the gap after the barrier check |
| `Coverage.AssertionMeetsFailure` | internal/latestkv/coverage.go:525-559 | And the assertion |
| `Coverage.AdoptedRecordOutlivesTruth` | internal/latestkv/coverage.go:465-483 | The premise that a clean record is true is needed: adoption leaves it in place, so a failure and a crash before the first heartbeat leave a clean record of an incomplete bucket |
| `Coverage.RetirementIsTrue` | internal/latestkv/coverage.go:607-618 | The clean record of a shutdown is true when it lands if no failure was observed since the proof was seen |
| `Coverage.FailureDuringRetirement` | internal/latestkv/coverage.go:607-618 | And false if one was |
| `Coverage.RetirementMeetsFailure` | internal/latestkv/coverage.go:607-618 | Which a shutdown meets, from boot |
| `Coverage.LastWriteDecidesTrust` | internal/latestkv/coverage.go:97-106 | The stored record is trusted at exactly the times within 90 s of the one the last landed write vouches for; after a degraded flag, or a zero time, at none |
| `Coverage.TrustDecays` | internal/latestkv/coverage.go:229-234 | After a publish failure at F that is not re-proved, and was not observed between the last look at the proof and the start of a write, no record ever stored is trusted after F + 5 s + 90 s, whatever a reader last saw |
| `Coverage.LateHeartbeatVouches` | internal/latestkv/coverage.go:412-419 | The exception is real: a failure between tick's look at the proof and the heartbeat does not stop the heartbeat from vouching, for as late a time as it begins |
| `Coverage.HeartbeatMeetsFailure` | internal/latestkv/coverage.go:412-419 | Which happens, from boot |
| `Coverage.VouchingEnds` | internal/latestkv/coverage.go:578-601 | Once the proof is gone no later step can vouch for a time beyond the heartbeat in flight |
| `Coverage.SilenceRevokesTrust` | internal/latestkv/coverage.go:229-234 | A writer that stops storing records loses all trust 90 s after its last assertion |
| `Reporting.CoverageReporter.ObservePublish` | internal/latestkv/coverage.go:303-322 | A failure drops the proof, raises the failure counter and arms the barrier so that it is not met; success changes nothing |
| `Reporting.CoverageReporter.AdoptClean` | internal/latestkv/coverage.go:465-483 | Under interference: true means a proof is held and every subject of the lake has a key at that moment except what the pass behind the clean record missed; otherwise none is taken |
| `Reporting.CoverageReporter.Scan` | internal/latestkv/coverage.go:498-515 | The merge pass under interference, for every bound on what its queries miss: it reports an error, or, unless a publish failed since the counter was sampled, every subject of the lake outside that bound has a key; it takes no proof |
| `Reporting.CoverageReporter.RunReconcile` | internal/latestkv/coverage.go:498-563 | Under interference: true, which calm guarantees, means a proof is held and every subject of the lake outside that bound has a key at that moment; otherwise none is taken |
| `Reporting.CoverageReporter.Establish` | internal/latestkv/coverage.go:429-461 | The same for the whole of establish, or up to the adopted record's gap, with its single adoption attempt, the degraded flag and the barrier; nothing is attempted before the back-off is over, and none lasts longer than ten minutes; false leaves no proof; when all is calm and the barrier is met it succeeds |
| `Reporting.CoverageReporter.BackOff` | internal/latestkv/coverage.go:565-573 | The back-off starts at 30 s, doubles, and ends at ten minutes |
| `Reporting.CoverageReporter.Heartbeat` | internal/latestkv/coverage.go:578-601 | Under interference: never overwrites a degraded record, and otherwise vouches for no time later than now; when all is calm it vouches for now |
| `Reporting.CoverageReporter.RunTick` | internal/latestkv/coverage.go:412-419 | Whenever a proof is held every subject of the lake has a key except a gap that is the one before, the adopted record's, or within the bound |
| `Reporting.CoverageReporter.MarkClean` | internal/latestkv/coverage.go:607-618 | Writes a clean record only if a proof was held, when all is calm always then, and one that is true up to the gap if no failure was observed meanwhile |
| `Feed.BeyondIsSuffix` | internal/materializer/ducklake.go:965-1003 | In key order the pagination predicate leaves exactly the rows not consumed yet |
| `Feed.ReadDeltaWindow` | internal/materializer/ducklake.go:965-1003 | A page is the next rows of the feed, as many as the limit or the rest, with their resident bytes and the key of the last |
| `Feed.NextWindow` | internal/materializer/ducklake.go:1043-1094 | A window is the next rows of the feed, none skipped or repeated; within a positive row cap; all pages but the last under a positive byte budget; it ends only at the end of the feed, at the row cap or with the byte budget used up; the loop terminates |
| `RowStore.ProbeReaches` | internal/materializer/ducklake.go:1789-1805 | The clamped probe window contains a batch row if and only if it is not below the floor |
| `RowStore.InsertEffect` | internal/materializer/ducklake.go:2260-2272 | The exact multiplicity of every identity after the anti-join insert |
| `RowStore.InsertMembers` | internal/materializer/ducklake.go:2260-2272 | Nothing is lost and nothing else appears, whatever the probe missed |
| `RowStore.InsertGainsNothing` | internal/materializer/ducklake.go:2260-2272 | No row at rest at or above the floor gains a copy, whatever is inserted |
| `RowStore.InsertKeepsNoDuplicates` | internal/materializer/ducklake.go:2260-2272 | A duplicate-free batch inside the probe's reach keeps the table duplicate-free |
| `RowStore.ReplayDuplicatesIff` | internal/materializer/ducklake.go:1789-1805 | A replay stores no second copy if and only if every row is at or above the thirty-day floor |
| `RowStore.CutDoesNotMatter` | internal/materializer/ducklake.go:1104-1152 | However a span is cut into windows, and whatever probe floor each has at its time, the rows at rest equal those of a single transaction, if no row already at rest crosses the floor meanwhile |
| `RowStore.RetryCollapses` | internal/materializer/ducklake.go:1104-1152 | A crash after some windows followed by a later retry of the whole span stores what one transaction at the retry would have, while what landed is within the retry's reach |
| `Ingest.StepKeepsInvariant` | internal/materializer/ducklake.go:548-751 | Every step (windows, commits, aborts, skips, expiry, recovery, reports) keeps the ingest invariant |
| `Ingest.RunKeepsInvariant` | internal/materializer/ducklake.go:548-751 | So does every run, and the cursor never moves back |
| `Ingest.EveryRunIsComplete` | internal/materializer/ducklake.go:1104-1152 | For every schedule of crashes, lost acknowledgements and retries: the decode of every event up to the cursor is at rest except in snapshots that had expired, everything at rest is the decode of an event in a snapshot of an opened span, and the reported floor releases nothing still needed |
| `Ingest.EveryRunIsDuplicateFree` | internal/materializer/ducklake.go:1483-1685 | No such schedule stores a row twice while the windows decode without repetition inside the probe's reach |
| `Ingest.EveryRunIsExactlyOnce` | internal/materializer/ducklake.go:1104-1152 | Exactly once in one statement: in every run inside the probe's reach with an honoured floor and no span abandoned beyond the cursor, each row of the decoded feed up to the cursor is at rest once, and nothing else is |
| `Ingest.DistinctEventsDecodeDistinct` | internal/materializer/ducklake.go:1483-1553 | Events with distinct ids that each decode to distinct rows carrying that id decode without repetition |
| `Ingest.FloorStaysBehindCursor` | internal/materializer/ducklake.go:788-822 | Without a stale reset the reported floor never exceeds the stored cursor |
| `Ingest.FloorPreventsLoss` | internal/materializer/ducklake.go:831-856 | What the floor is for: as long as maintenance expires nothing after it, no snapshot is ever skipped and the floor never exceeds the cursor, in any run |
| `Ingest.HonouredRunIsComplete` | internal/materializer/ducklake.go:831-856 | Then the decode of every event up to the cursor is at rest, without exception |
| `Ingest.StaleRecoverReportsPastCursorIff` | internal/materializer/ducklake.go:722-751 | A reset that matches no row reports past the cursor if and only if the cursor has itself expired |
| `Ingest.StaleRecoverIsReached` | internal/materializer/ducklake.go:722-751 | A run from the start gets there, whatever is in the feed |
| `Drain.FeedIsOrdered` | internal/materializer/ducklake.go:965-1003 | The feed of a span is in strict key order and has exactly the span's rows |
| `Drain.DuckLakeMaterializer.ReportProgressNow` | internal/materializer/ducklake.go:788-806 | The floor becomes the given snapshot or stays; the remembered one follows only a successful report |
| `Drain.DuckLakeMaterializer.WriteWindow` | internal/materializer/ducklake.go:1649-1685 | Success puts the window at rest; no outcome loses a row or moves the cursor; a conflict changes nothing; no row at rest within the probe's reach gains a copy, and nothing is stored twice if the window decodes without repetition within it |
| `Drain.DuckLakeMaterializer.DecodeAndWriteSpan` | internal/materializer/ducklake.go:1104-1152 | Success with rows, which an absence of errors guarantees, moves the cursor with the whole span at rest; the windows concatenate to the feed, none empty, each within the row cap and, but for its last page, under the byte budget; an empty span or a conflict leaves the cursor; copies as for one window |
| `Drain.DuckLakeMaterializer.Commit` | internal/materializer/ducklake.go:1483-1553 | The last window and the cursor land together; nil means the cursor is at the target, a lost acknowledgement included; a conflict leaves it; copies as for a window |
| `Drain.DuckLakeMaterializer.MaybeRecoverExpired` | internal/materializer/ducklake.go:722-751 | The cursor moves only when the range behind it has expired, and then exactly past the unretained prefix; a retained range is never skipped |
| `Drain.DuckLakeMaterializer.ProcessChunk` | internal/materializer/ducklake.go:620-694 | Opens a span no longer than the cap; not done means an empty sub-span was passed; a positive count means the cursor moved; zero without error means no raw insert up to the target, or a lost commit conflict; copies as for a span |
| `Drain.DuckLakeMaterializer.RunOnce` | internal/materializer/ducklake.go:548-598 | Terminates; the cursor never moves back; a positive count means it moved; zero without error means no raw insert is left up to the head, unless a commit conflict was lost; without errors it reports neither; no row within the probe's reach is ever stored twice while the spans decode without repetition |
| `TimeRanges.MergeTimeRanges` | internal/segments/util.go:56-85 | The loop with its running range returns the clipped runs of the sorted input |
| `TimeRanges.RunsAreComponents` | internal/segments/util.go:56-85 | The runs are the connected components under "gap at most maxGap": every range lies in one, each is tight and bridged, and they are further apart than the gap |
| `TimeRanges.ComponentsAreUnique` | internal/segments/util.go:56-85 | There is only one such list |
| `TimeRanges.MergeIsCanonical` | internal/segments/util.go:56-85 | Order and repetition of the input do not matter |
| `TimeRanges.AnySortWillDo` | internal/segments/util.go:56-85 | Nor does the order in which an unstable sort leaves ranges with equal starts |
| `TimeRanges.ClipIff` | internal/segments/util.go:90-111 | Clipping returns exactly the visible part of a run, and nothing exactly when that is empty or too short without being cut at `from` off a run that was long enough |
| `TimeRanges.ClipAllComplete` | internal/segments/util.go:90-111 | No run with such a visible part is left out |
| `TimeRanges.ClipAllSpaced` | internal/segments/util.go:90-111 | Clipping keeps the runs ordered and further apart than the gap |
| `TimeRanges.MergeResult` | internal/segments/util.go:56-111 | The whole result: its members are exactly the clipped components, strictly increasing and separated by more than the gap |
| `Segments.MergeWindowsIntoSegments` | internal/segments/util.go:137-179 | Windows are clamped, merged and turned into segments |
| `Segments.SegmentsAreRuns` | internal/segments/util.go:137-179 | Each run but the last is reported as completed; the last is ongoing if it still runs, and missing exactly when it still runs and is too short up to the end of the query |
| `Segments.DetectedSegmentsIncrease` | internal/segments/util.go:137-179 | Detected segments start in strictly increasing order and only the last can be ongoing |
| `Segments.SegmentWithin` | internal/segments/util.go:137-179 | Each lies in the query, and a completed one is not empty |
| `Segments.SegmentEdges` | internal/segments/util.go:137-179 | A segment starts with a window or the range, and a completed one ends with one of them |
| `Segments.ActivityIsReported` | internal/segments/util.go:137-179 | What the query shows of two windows at most the gap apart, if long enough, lies in one segment; if it began before the range, that segment starts where the range does and says so |
| `ChangePoint.CusumIsLargestSuffixSum` | internal/segments/changepoint.go:78-100 | The running statistic is the largest suffix sum of deviations, the empty one included |
| `ChangePoint.ApplyCUSUM` | internal/segments/changepoint.go:78-100 | Returns, in order and by position, exactly the windows after which the statistic exceeds the threshold |
| `ChangePoint.ActiveIffSuffixExceeds` | internal/segments/changepoint.go:78-100 | A window is active if and only if some run of windows ending with it deviates by more than the threshold in total |
| `ChangePoint.BusyWindowsAreActive` | internal/segments/source.go:38-41 | Windows that each meet the source's count threshold are all active |
| `ChangePoint.DetectFrequency` | internal/segments/frequency.go:29-58 | Over windows that begin in the range the segments lie in the query, start in strictly increasing order, and only the last can be ongoing |
| `ChangePoint.LookBack` | internal/segments/frequency.go:29-58 | Activity that began up to one gap before the range, the configured one or 300 s, and runs on into it long enough is reported from the range's start and marked as started before |
| `ChangePoint.DetectChangePoint` | internal/segments/changepoint.go:33-65 | The same, and over a source that keeps busy windows only the result is that of frequency detection at the default threshold, whatever is configured |
| `ChangePoint.DetectorsAgree` | internal/segments/frequency.go:38-57 | Over such a source no window is dropped by the change-point statistic |
| `Ignition.FilterNoise` | internal/segments/ignition.go:95-139 | The linear next-ON pass keeps exactly the changes the naive quadratic rule keeps, in order |
| `Ignition.NoiseByNextOn` | internal/segments/ignition.go:95-139 | In time order the first later ON decides whether an OFF is noise |
| `Ignition.TripsAreDebounced` | internal/segments/ignition.go:46-91 | Every segment runs from a real ON to the first OFF that is not noise and is long enough; they follow one another; only the last can be ongoing; no opening ON with a long enough stretch is left out |
| `Ignition.SegmentsAreApart` | internal/segments/ignition.go:46-91 | Consecutive segments are at least minIdle apart |
| `Ignition.InnerOffsAreNoise` | internal/segments/ignition.go:46-91 | Every OFF strictly inside a segment is followed by an ON in less than minIdle |
| `Ignition.BuildSegmentsWithDebouncing` | internal/segments/ignition.go:46-91 | Each returned segment starts at an opening ON, ends at the first later OFF that is not noise or is ongoing, has the whole seconds in between as its duration, at least the minimum, and says whether it started before the range; they are at least minIdle apart, only the last has no end, and no opening ON with a long enough stretch is left out |
| `Pagination.SegmentsStartingAfter` | internal/repositories/segments.go:328-336 | The segments that start strictly after the cursor, in order |
| `Pagination.FilterIdlingBySpeed` | internal/repositories/segments.go:461-470 | The segments without movement, in order |
| `Pagination.GetPage` | internal/repositories/segments.go:234-254 | A page holds at most the limit of segments, all detected, all after the cursor and, for idling, all without movement; a page below the limit holds all of those, for idling if there are at most 1600 candidates |
| `Pagination.CursorIsSuffix` | internal/repositories/segments.go:328-336 | With strictly increasing starts the cursor leaves exactly what follows its segment |
| `Pagination.FollowCursor` | internal/repositories/segments.go:234-320 | Following the last start as cursor terminates and returns every segment exactly once, in order; for idling it returns segments without movement only, in order, and all of them if and only if none comes right after a moving stretch as long as the candidate cap |
| `Pagination.StuckIff` | internal/repositories/segments.go:348-369 | An empty idling page is the end of the idle segments exactly under that condition |
| `Pagination.FewCandidates` | internal/repositories/segments.go:348-369 | With at most 1600 candidates the condition holds |
| `DailyActivity.DaySegmentStats` | internal/repositories/segments.go:703-728 | The number of segments counted on a day, their active seconds there, and the first and last of them |
| `DailyActivity.SegmentConserved` | internal/repositories/segments.go:703-728 | Over the first n contiguous days a segment is charged exactly for the part of it they cover |
| `DailyActivity.ActiveSecondsAreConserved` | internal/repositories/segments.go:636-638 | Over all days the active seconds add up to the lengths of the segments, an ongoing one being charged to the end of the last day |
| `DailyActivity.SecondsAreChargedOnce` | internal/repositories/segments.go:703-728 | No second is charged to two days, and each second of a segment is charged to its day |
| `DailyActivity.CountedWithoutActivityIff` | internal/repositories/segments.go:703-728 | A segment is counted on a day without any activity there if and only if it ends exactly as the day begins |
| `Coordinates.SignalOrder` | internal/materializer/location.go:87-118 | Ordering by timestamp and then name is a total preorder |
| `Coordinates.StepKeepsAccount` | internal/materializer/location.go:120-152 | Processing one signal keeps the whole account: every raw coordinate so far is in exactly one triple, in the right place, renamed and timed as it should be |
| `Coordinates.PassResult` | internal/materializer/location.go:87-118 | After the pass every raw coordinate is in exactly one triple, within 500 ms of its time; a triple is followed by another only because that one's first part could not join it; what survives is the other signals, unchanged and in sorted order |
| `Coordinates.CreatesIff` | internal/materializer/location.go:161-238 | A triple yields a location exactly for a latitude within 90 and a longitude within 180 degrees that are not both zero, or an HDOP; any other coordinate is a mismatch |
| `Coordinates.CreatedByTriples` | internal/materializer/location.go:161-223 | A location exists exactly for the triples that yield one |
| `Coordinates.LocationCarriesParts` | internal/materializer/location.go:161-223 | A location carries the latitude, longitude and HDOP of its own triple's parts, the triple's time, and the header and id of its latitude, else its longitude, else its HDOP |
| `Coordinates.OthersAreOther` | internal/materializer/location.go:87-118 | The survivors are exactly the signals that are neither raw coordinates nor reserved |
| `Coordinates.OthersSelects` | internal/materializer/location.go:87-118 | Each keeps its place in the sorted order, and none is repeated |
| `Coordinates.CoordinateStore.TryCreateLocation` | internal/materializer/location.go:161-223 | Emits what the active triple gives, marks its parts for removal, records a mismatch, starts over |
| `Coordinates.CoordinateStore.ProcessSignal` | internal/materializer/location.go:120-152 | Closes a triple that is too old or whose place is taken, then adds the signal |
| `Coordinates.CoordinateStore.ProcessSignals` | internal/materializer/location.go:87-118 | Returns the other signals in sorted order followed by the created locations, one for each triple that yields one, in order, and fails exactly when some coordinate was unpaired or out of range |

## Left out

- HTTP, gRPC, GraphQL, JWT and privilege checks: plumbing with one-branch logic.
- DuckDB, DuckLake, NATS, S3 and AES-GCM internals: present only as atomic transactions, key revisions, snapshot reads and ordered query results.
- Metrics, logging, configuration, reconnects, readiness, retry backoff and request limiters: no property worth a proof.
- RunBackfill, PersistDailyLateSubjects, the shadow-table promote, PruneDecoded and cursor-row re-seeding: they bypass the invariants here and need premises of their own.
- The missing-table branch of RunOnce, which returns zero before anything is read.
- Vendor decoding, payload parsing, blob fetching and decryption: decode is a fixed function of the event.
- Refuel, recharge and idling detection and the merge predicate they pass to the range merge: floating-point heuristics.
- The events rollup and the raw-types rollup: delete-and-recompute without an incremental step.
- Location aggregation, geofence filters and H3 rounding: foreign functions.
- Damaged entries, which the source rebuilds from the batch at hand, and DeleteSubject.
- FlushDegraded, which only a publish-only process calls, and the reasons carried with the degraded flag.
- Identifiers: cloud_event_ids and feed subjects are represented by their rank in collation order, so byte-string comparison itself is not modelled; floating-point values are reals, with NaN and infinities only in coordinates, and ignition states are integers; counts are unbounded integers.
- Signals and events share one table of row identities in the ingest model; lake.rollup_late_subjects is a set, its duplicate rows invisible.
- Slices reused in place (`out := segments[:0]`, pruned signals) are sequences that are reassigned, so aliasing with the caller's slice is not captured.
- Sorting by the standard library is an insertion sort on values. For time ranges the order of equal elements is shown not to matter; for signals with equal timestamp and name it is not captured.
- EntryStore.NoLostUpdate: a call that fails for another reason than conflict may or may not have landed, as in the source, so nothing is claimed of it.
- Drain.DuckLakeMaterializer.RunOnce: new snapshots and expiry during one call are steps of the ingest protocol only, because the class changes them through no method.
