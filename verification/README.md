# Verification of FrankensteinDB

This project models the parts of FrankensteinDB that keep SQLite and the search index together, read
in sorted order, compile filters and share state between threads, and proves what they promise.
SQLite holds the rows; a search index projects them; everything is read from the index.

`dafny verify dfyconfig.toml` checks the whole project.

## What is modelled

**The durable outbox** (`Outbox*.dfy`). A database is a value `Db`: the rows, outbox records, dirty
flags and index directories on disk, and the deferred ids, staged ids and queued writer operations in
memory. `Outbox.Do` performs the smallest step a crash or an I/O error can fall between, and each
database call is a script of such steps. `OutboxInvariant` states what every step keeps, key by key:
a value newer than the committed document is in an outstanding record or queued in a writer.
`OutboxRows` says what the rows are before and after a call: what SQLite accepts and what it leaves.
`OutboxFiles` follows the directories through a rebuild; `OutboxScripts`, `OutboxWrites`,
`OutboxRollback`, `OutboxStops` and `OutboxRuns` lift the invariant to calls stopped anywhere and to
runs. `OutboxTheorems`, `OutboxGuards` and `OutboxNames` hold the main results.
`OutboxDatabase.Database` is the mutable object itself: its methods perform the calls on fields, with
`if *` for an I/O error, and are proved to follow the scripts and to keep the invariant wherever they
stop.

**Top-K reads** (`Sorting`, `TopKBuffers`, `JsonOrder`, `HitOrder`, `SegmentRanges`,
`RangeCollection`, `TopKRead`, `ScoredTopK`). One specification, "sort everything, skip, take", is
refined by three collectors that divide the documents into ranges, keep bounded buffers and merge; it
is also stated without sorting, by how many hits come before each returned one (`TopKRead.IsWindow`). A
hit is a document address; its keys are functions of the address on a fixed snapshot.

**Keyset pagination** (`Pagination`, `PagedRead`). The generated filter, the lookahead row, whole runs of
pages, and the page that the compiled filter and the block collector return.

**Filters** (`Filters`, `FilterCompiler`, `FilterErasure`). A denotation for filters, the matches and
scores of queries, both compilers, and the erasure of a facet's own column.

**Schema changes** (`SchemaPlan`). Folding a list of changes into one plan and copying rows once.

**Scheduling and shared state** (`MergeBalance`, `Limiter`, `AggregationCache`, `AggregationLru`). The
merge-group balancer with its approximation bound, the wide-query limiter and the aggregation cache as machines
over all interleavings, with the objects whose critical sections they are.

**Map tiles** (`Morton`, `GeoGrid`). Bit interleaving and the bounded tile histogram.

## What turned out not to hold everywhere

- The repository's README says the outbox is replayed on reopen when publishing fails or the process
  stops. That restores the rows exactly under a guard (`GuardIsExact`): a record that is published
  alone must not change a key that an outstanding deferred upsert or delete names. A published write
  publishes its record alone once its transaction has committed, unless a crash comes before the record
  is deleted; a deferred write does when it stops between its transaction and the deferral and the
  process carries on. `GuardedRunIsExact` says the same for whole runs, and `GuardIsNecessary` gives a
  trace in which reopening brings the older value back.
- A rebuild uses directories whose names can belong to another table, because any name is accepted that
  does not start with `__aq_`: rebuilding `a` removes the index of `a.retired`, which nothing rebuilds
  (`RebuildSparesIff`, `RetiredNames`, `ClashIsFatal`). `NamesAreExact` says which sets of names are safe.
- The ranges of a segment lose its last document when the last range end does not fit 32 bits
  (`RangesCoverIff`, `LargestSegmentOverflows`). It does fit for every segment there is, because
  the index library creates none of more than 2^31 documents (`CastsAlwaysFit`).
- A rename or alteration spelled in another case than the table's leaves a column without source and
  default and, under the old name, a source without a column (`ChangeKeepsComplete`,
  `OtherCaseLosesSource`). A column added later under that name takes the old values instead of its
  default, and nothing fails (`StaleSourceShadowsDefault`). `FollowsIff` gives the exact condition for a
  plan to follow its changes one by one: all of them spelled exactly.
- Generations start again at 1 when a definition changes, and also when a publication has failed after
  it had taken the table out of the catalog, or has left the table out. An aggregation delayed over such
  a restart can be served from the cache although it is outdated (`DelayedStoreIsStale`);
  `RestartIsSafeIff` says exactly when a restart is safe.
- Erasing a column drops empty containers and predicates on the column that do not compile, such as an
  empty list of values: a filter that has one is refused, but what is left of it may compile
  (`AcceptedIff`, `ErasureAccepts`).
- A plan without source and default for a column makes the copy of a row panic rather than fail
  (`PanicsIff`).

## Model

| member | source | states |
|---|---|---|
| OutboxFacts.RecordsEffect | src/database_index.rs:75-84 | queueing a list of records gives each key the value of the newest operation that names it and leaves every other key as it was |
| OutboxFacts.RefreshesLikeUpserts | src/database_api.rs:117-140 | for a bulk write the refreshes that are stored for recovery mean the same as the upserts that are queued at once |
| OutboxFacts.PlannedIsRecorded | src/database_mutation.rs:296-330 | the operations recorded for a mutation name every key it changes, and give each its new row |
| OutboxFacts.BatchIsDescribed | src/database_mutation.rs:46-65 | the same for a whole batch of mutations, over all their records in id order |
| OutboxRows.PlannedAcceptedIff | src/database_mutation.rs:296-330 | SQLite accepts a mutation if and only if an insert brings keys that are new and different, and a refreshed row is there |
| OutboxRows.PlannedPerformsIff | src/mutation/execute.rs:4-60 | an accepted mutation leaves exactly this: an update gives every named row that is there its assignments, a delete removes the named keys, an insert or upsert leaves for each key the last row brought for it; every other row, column and key is as it was |
| OutboxRows.BatchPerformsIff | src/database_mutation.rs:46-65 | the same for a batch: each mutation works on the rows the one before it left, and the other tables are untouched |
| OutboxRows.CallTables | src/database_mutation.rs:160-330 | a call that writes, wherever it stops and whether or not it fails, leaves all rows as they were or the whole batch performed; the whole batch if it succeeds |
| OutboxRows.ReplacedByCall | src/database_admin.rs:58-67 | replacing a table changes its rows to the new ones or nothing, and no other table |
| OutboxRows.RemovedByCall | src/database_admin.rs:41-55 | dropping a table removes it or nothing, and no other table |
| OutboxFacts.SnapshotAgrees | src/database_index.rs:178-200 | a rebuild writes exactly one document for each row and none besides |
| OutboxInvariant.WriteStep | src/database_index.rs:238-251 | queueing an operation for a key that has an unstaged record keeps the invariant |
| OutboxInvariant.CommitStep | src/database_index.rs:143-146 | a commit of a fully staged table makes its documents equal to its rows; any commit keeps the invariant |
| OutboxInvariant.PurgeStep | src/database_index.rs:148-152 | deleting published records keeps the invariant if the deleted ids are all records or exactly the unstaged ones |
| OutboxInvariant.ForgetStep | src/database_index.rs:153-156 | forgetting the ids of deleted records keeps the invariant |
| OutboxInvariant.DeferStep | src/database_api.rs:142-144 | remembering the newest, fully queued record as deferred keeps the invariant |
| OutboxInvariant.TransactStep | src/database_mutation.rs:46-62 | a transaction keeps the invariant while nothing is unstaged; at the crash-safe level only if it does not overtake a deferred record |
| OutboxInvariant.DirtyTableStep | src/database_index.rs:161-230 | while a table is dirty or dropped, nothing done to its writer or to directories in which no other table is installed can break the invariant |
| OutboxInvariant.MarkCleanStep | src/database_index.rs:204-205 | the dirty flag may be cleared once the installed generation holds the rows |
| OutboxInvariant.CrashStep | src/database_api.rs:63-70 | from a recoverable state a crash, which wipes the deferred ids, the staged ids and the writers, leads to a state in which everything on disk is replayable |
| OutboxScripts.GroupGood | src/database_index.rs:121-157 | at every step of publishing one table the invariant holds, and at the end the table is published and its chosen records are gone |
| OutboxScripts.ApplyGood | src/database_index.rs:105-159 | the same for all tables; staged records that were not chosen are published too but stay in the outbox |
| OutboxScripts.FlushGood | src/database_api.rs:149-163 | a flush keeps the invariant at each step and ends with an empty outbox and every clean table equal to its rows |
| OutboxScripts.ReplayGood | src/database_index.rs:41-54 | the same for a replay, which ends with exactly the deferred records outstanding |
| OutboxFiles.ActionDoes | src/database_index.rs:161-230 | one step on the directories of a table: a removal that stops half-way leaves a torn one, a rename takes a directory that is there to its new name, and nothing else is touched |
| OutboxFiles.SwapInstalls | src/database_index.rs:161-230 | for every table name and from any combination of final, retired and building directories, whole, torn or absent, build and swap end with the rows installed, nothing of the table left over and every other directory as it was |
| OutboxFiles.ApartSpares | src/database_index.rs:212 | tables whose directories do not clash pass through none of each other |
| OutboxScripts.RebuildGood | src/database_index.rs:161-207 | at every step of a rebuild either the table is dirty or the installed generation and the outstanding records give its rows |
| OutboxScripts.RebuildEffect | src/database_index.rs:161-207 | a rebuild installs the rows whatever it starts from, and leaves every other table as it was if the names in the catalog are apart |
| OutboxScripts.RecoverGood | src/database_admin.rs:69-83 | recovery keeps the invariant at each step, clears every dirty flag and leaves exactly the deferred records |
| OutboxRollback.ScriptInstalls | src/database_index.rs:210-230 | no call installs a generation while the catalog calls the table clean |
| OutboxRollback.StoppedGood | src/database_index.rs:220-225 | stopping a call anywhere, also with the retired generation moved back after a failed rename, keeps the invariant |
| OutboxWrites.DeferredGood | src/database_mutation.rs:198-215 | a deferred write keeps the invariant at each step and leaves nothing unstaged |
| OutboxWrites.PublishedGood | src/database_mutation.rs:208 | a published write keeps the invariant at each step; at the crash-safe level only if it does not overtake a deferred record |
| OutboxWrites.CallKeepsLive | src/database_read.rs:5-30 | as long as the process lives no call, complete or cut short, needs a guard on what it writes; a new table needs a name apart from the others |
| OutboxStops.GuardedCall | src/database_mutation.rs:77-107 | a guarded call is recoverable at each of its steps and leaves the next call as safe |
| OutboxStops.PublishedUntilPurge | src/database_mutation.rs:208-209 | until its record is deleted a published write is crash-safe, whatever it overtakes |
| OutboxStops.DeferredCall | src/database_mutation.rs:209-214 | a deferred write is safe, whatever it overtakes, unless it stops between its transaction and the deferral and the process carries on |
| OutboxRuns.CrashableIsRecoverable | src/database_index.rs:41-54 | the key-by-key invariant holds exactly when replaying the outbox over the committed documents gives the rows |
| OutboxRuns.ReopenRestores | src/database_api.rs:63-72 | reopening a recoverable database ends with an empty outbox, no dirty table and every index equal to its rows |
| OutboxRuns.CrashConvergence | src/database_index.rs:41-159 | in every guarded run of deferred and published writes, flushes, rebuilds, failures and crashes, over tables whose names do not clash, replaying the outbox over the committed index gives the rows, and reopening restores index = rows |
| OutboxRuns.CrashConvergenceInside | src/database_index.rs:105-230 | the same at each step inside the last call of the run |
| OutboxRuns.EmptyDatabase | src/lib.rs:37-48 | a new database satisfies the invariant every run starts from |
| OutboxTheorems.ReopenIsReplay | src/database_admin.rs:69-83 | what reopening leaves in each index is the outbox replayed in id order over the committed documents, a dirty table being rebuilt first |
| OutboxTheorems.ReopenIffRecoverable | src/database_admin.rs:69-83 | reopening restores every index if and only if the disk was recoverable |
| OutboxGuards.OvertakenKeyReverts | src/database_mutation.rs:160-215 | once a record is published alone that overtakes a deferred upsert or delete of a key, the outbox replays that key to its old value |
| OutboxGuards.NextRecovery | src/database_index.rs:41-54 | a write that stopped between its transaction and its publication or deferral is published alone by the next recovery |
| OutboxGuards.GuardIsExact | src/database_mutation.rs:77-107 | for every call, wherever it stops and whether or not a crash follows: the next recovery, or the disk after the crash, still has the rows if and only if the call was guarded |
| OutboxGuards.GuardedRunIsExact | src/database_mutation.rs:77-107 | for every run: every prefix of it survives, be it followed by a crash or by the recovery of the next call, if and only if the run is guarded |
| OutboxGuards.GuardIsNecessary | src/database_mutation.rs:67-75 | the trace as a run of a new database: create a table, deferred update of a key, published update of the same key, crash, reopen; the index then shows the first update while SQLite holds the second |
| OutboxNames.DirectoriesOf | src/database_index.rs:163-165 | the three directories of a table: its name, its name with `retired` for its extension, and its name between a dot and `building` |
| OutboxNames.RebuildSparesIff | src/database_index.rs:212-228 | rebuilding one table leaves the index of another installed if and only if their directories do not clash, and removes it otherwise |
| OutboxNames.AcceptedIff | src/sql_schema.rs:8-13 | a table name is accepted unless it begins with `__aq_` |
| OutboxNames.RetiredNames | src/database_index.rs:212 | a concrete clash between accepted names: the retired directory of a or a.b is the installed one of a.retired |
| OutboxNames.BuildingNames | src/database_index.rs:165 | and the building directory of x is the installed one of .x.building, which is an accepted name too |
| OutboxNames.ClashIsFatal | src/sql_schema.rs:8-13 | creating two tables with clashing names removes the first index for good, although nothing is dirty or outstanding |
| OutboxNames.NamesAreExact | src/database_index.rs:161-230 | crash convergence holds for every otherwise guarded run over a set of table names if and only if no two of them clash |
| OutboxTheorems.PrefixConsistency | src/database_index.rs:105-159 | along every crash-free run, with failures and without a guard on the writes, the index of a table equals, whenever the table is clean, its rows in some earlier state, which never moves back; and it holds at most one document for each key |
| OutboxTheorems.CompleteCallTracks | src/database_index.rs:153-156 | after complete calls the deferred and staged ids are ids of outstanding records |
| OutboxTheorems.FlushPublishesEverything | src/database_api.rs:149-163 | a flush then leaves every index equal to its rows and the outbox, the deferred and the staged ids empty |
| OutboxCalls.CollectIsKeep | src/database_index.rs:106-119 | looking the ids up one by one finds exactly the records a selection by id keeps, in order |
| OutboxCalls.ServesAsEvent | src/database_api.rs:92-163 | what a method of the database leaves is what an event of a run leaves, so the theorems about runs speak about the methods |
| OutboxDatabase.Database.constructor | src/database_api.rs:63-70 | a new object has empty sets and writers |
| OutboxDatabase.Database.CrashAndForget | src/database_api.rs:63-70 | a crash keeps what is on disk and empties what is in memory |
| OutboxDatabase.Database.StageRowOperations | src/database_index.rs:232-253 | queues a prefix of "delete the key, add the row" for each operation, all of it on success; refuses an unresolved refresh |
| OutboxDatabase.Database.StageOutbox | src/database_index.rs:75-84 | queues one outstanding record of the table with its refreshes resolved; nothing when the record or the table is missing |
| OutboxDatabase.Database.StageGroup | src/database_index.rs:123-128 | queues the records of the group that are not staged yet |
| OutboxDatabase.Database.CommitIndex | src/database_index.rs:143-146 | folds everything queued into the visible documents, or fails and changes nothing |
| OutboxDatabase.Database.ForgetIds | src/database_index.rs:153-156 | removes the ids from both in-memory sets |
| OutboxDatabase.Database.PurgeGroup | src/database_index.rs:148-156 | deletes the published records in one transaction and then forgets their ids, or does nothing |
| OutboxDatabase.Database.PublishGroup | src/database_index.rs:121-157 | follows the steps of one table: stage, commit, delete the records, forget their ids |
| OutboxDatabase.Database.ApplyGroup | src/database_index.rs:121-157 | the same, keeping the invariant wherever it stops |
| OutboxDatabase.Database.GroupByTable | src/database_index.rs:106-119 | groups the outstanding ids by table, tables in name order |
| OutboxDatabase.Database.ApplyOutboxes | src/database_index.rs:105-159 | publishes the named records table by table; keeps the invariant, also when it fails half-way |
| OutboxDatabase.Database.ReplayOutbox | src/database_index.rs:41-54 | publishes every record that is not deferred |
| OutboxDatabase.Database.Flush | src/database_api.rs:149-163 | publishes every record and forgets every id |
| OutboxDatabase.Database.RemoveDirectory | src/database_index.rs:166-168 | removal of a directory can stop half-way |
| OutboxDatabase.Database.BuildGeneration | src/database_index.rs:165-202 | writes the rows to a new generation beside the installed one |
| OutboxDatabase.Database.SwapIndexGeneration | src/database_index.rs:211-230 | installs the new generation through the retired directory |
| OutboxDatabase.Database.MoveAndRetire | src/database_index.rs:215-228 | only if a previous generation is there it is moved away first and removed afterwards |
| OutboxDatabase.Database.MoveIntoPlace | src/database_index.rs:216-225 | when the new generation cannot be moved into place the previous one is moved back |
| OutboxDatabase.Database.RebuildTable | src/database_index.rs:161-207 | follows the steps of a rebuild and keeps the invariant |
| OutboxDatabase.Database.Recover | src/database_admin.rs:69-83 | rebuilds the dirty tables in some order and replays the outbox |
| OutboxDatabase.Database.Persist | src/database_mutation.rs:54-62 | runs a batch in one transaction, each non-empty mutation with its own record, or changes nothing |
| OutboxDatabase.Database.RunMutations | src/database_mutation.rs:46-65 | runs the mutations of a batch one after another; the first one that fails fails the batch |
| OutboxDatabase.Database.PersistAndPublish | src/database_mutation.rs:160-209 | commits a batch and publishes the records it added |
| OutboxDatabase.Database.PersistAndDefer | src/database_mutation.rs:209-214 | commits a mutation, queues it and leaves its record deferred |
| OutboxDatabase.Database.Open | src/database_api.rs:25-73 | opening after a crash recovers |
| OutboxDatabase.Database.MutateTyped | src/database_mutation.rs:77-107 | an update or delete is the event of a run, refused when it names more rows than allowed; if it succeeds, every named row has its assignments or is gone and every other row is as it was |
| OutboxDatabase.Database.BulkWrite | src/database_api.rs:92-146 | so is a bulk insert or upsert, which is flushed only after it succeeded; if it succeeds, the rows are those it brings and the others |
| OutboxDatabase.Database.MutateBatch | src/database_mutation.rs:46-65 | so is a batch on top of a flushed index; if it succeeds, every mutation of it has been performed in order |
| OutboxDatabase.Database.ReplaceTable | src/database_admin.rs:58-67 | so is a rebuild of a table with new contents, which no other table notices; it keeps the invariant if the name is apart from the others |
| OutboxDatabase.Database.DropTable | src/database_admin.rs:41-55 | so is dropping a table, after which its rows are gone and those of the other tables are not |
| Sorting.SortedUnique | src/query/block_top_k.rs:142 | a multiset has one sorted arrangement, so an unstable sort by a strict total order has one result |
| Sorting.TopOfPart | src/query/block_top_k.rs:300-303 | cutting one part to its own best n does not change the best n of the whole |
| Sorting.MergeTop | src/query/block_top_k.rs:141-148 | merging the best n of every part gives the best n of everything |
| Sorting.SortCongruent | src/query/scored_top_k/segment.rs:133-139 | two orders that agree on the elements sort them alike |
| TopKBuffers.RejectedHit | src/query/block_top_k.rs:283-289 | a hit at or above the threshold changes nothing about the best n |
| TopKBuffers.StillBounds | src/query/block_top_k.rs:304-308 | a threshold stays one whatever is pushed later |
| TopKBuffers.SelectNth | src/query/block_top_k.rs:300-302 | selection leaves the smaller elements before the n-th position; the index is in bounds |
| TopKBuffers.BufferedTopK.constructor | src/query/block_top_k.rs:273-280 | starts empty with the capacity it asked for |
| TopKBuffers.BufferedTopK.Push | src/query/block_top_k.rs:282-294 | keeps the best n of all hits pushed and never grows beyond its capacity |
| TopKBuffers.BufferedTopK.Truncate | src/query/block_top_k.rs:296-309 | cuts back to the best n and sets a threshold |
| TopKBuffers.BufferedTopK.Finish | src/query/block_top_k.rs:311-314 | returns exactly the best n of all hits pushed |
| TopKBuffers.MaterializedBuffer.constructor | src/query/materialized_top_k.rs:84-90 | starts empty with the capacity it asked for |
| TopKBuffers.MaterializedBuffer.Push | src/query/materialized_top_k.rs:92-97 | keeps the best n of all rows pushed and stays below its capacity |
| TopKBuffers.MaterializedBuffer.Truncate | src/query/materialized_top_k.rs:99-106 | cuts back to the best n |
| TopKBuffers.MaterializedBuffer.Finish | src/query/materialized_top_k.rs:108-111 | returns exactly the best n of all rows pushed |
| Ordering.FirstCharacterDecides | src/query/projection.rs:113 | text is ordered by the first character that differs, a proper prefix coming first |
| JsonOrder.EqualIsSame | src/query/projection.rs:104-145 | only equal JSON values compare as equal |
| JsonOrder.ScalarsByContent | src/query/projection.rs:109-114 | numbers, texts and truth values follow their contents, false before true |
| JsonOrder.KindsInOrder | src/query/projection.rs:106-108 | values of different kinds: truth values, numbers, texts, arrays, objects, and null after all of them |
| JsonOrder.FirstItemDecides | src/query/projection.rs:138-144 | arrays are ordered by the first item that differs, a proper prefix coming first |
| JsonOrder.FirstEntryDecides | src/query/projection.rs:116-133 | objects are ordered by the first entry that differs, by its key and then by its value, a proper prefix coming first |
| JsonOrder.CompareObjects | src/query/projection.rs:116-134 | walking both entry lists at once gives the order of the objects |
| JsonOrder.JsonMirror | src/query/projection.rs:104-145 | swapping two JSON values mirrors their comparison |
| JsonOrder.JsonChain | src/query/projection.rs:104-145 | comparisons of JSON values chain, and so does equality |
| JsonOrder.JsonIsOrdered | src/query/projection.rs:104-156 | the order of JSON values is a total preorder |
| HitOrder.HitsAreOrdered | src/query/materialized_top_k.rs:114-121 | sort columns in any mix of directions with the address tie-break are a strict total order on documents |
| HitOrder.FirstColumnDecides | src/query/materialized_top_k.rs:114-121 | the first column that tells two documents apart decides; if none does, the segment and then the number of the document |
| HitOrder.MissingKeyPlacement | src/query/projection.rs:104-108 | a missing key comes last in an ascending and first in a descending column of the fallback sort |
| HitOrder.OrderedValuesAreColumns | src/query/projection.rs:25-43 | comparing the key lists of two rows is comparing their columns one after another |
| HitOrder.BlockKeysAreColumns | src/query/block_top_k.rs:317-332 | comparing one- or two-part block keys is comparing their columns one after another |
| HitOrder.OptionalOrdered | src/query/block_top_k.rs:334-345 | missing values, greatest before the direction is applied, keep the order total |
| SegmentRanges.UsefulRanges | src/segment_ranges.rs:84-89 | a segment is divided among all workers, or among as many as have 250,000 documents each apart from the last, in the smallest chunks that cover it |
| SegmentRanges.RangesCover | src/segment_ranges.rs:68-82 | the ranges of a segment cover its documents without gap or overlap, at most one for each useful worker |
| SegmentRanges.CastsFit | src/segment_ranges.rs:76-77 | the casts to 32 bits are exact whenever document count and worker count together fit |
| SegmentRanges.CastsAlwaysFit | src/segment_ranges.rs:76-77 | for the segments the index library creates, of at most 2^31 documents, they are exact for every number of workers |
| SegmentRanges.RangesCoverIff | src/segment_ranges.rs:68-82 | every document is in a range if and only if no cast overflows |
| SegmentRanges.OverflowLosesLast | src/segment_ranges.rs:76-80 | when one does, the last document of the segment is in no range |
| SegmentRanges.LargestSegmentOverflows | src/segment_ranges.rs:76-80 | a concrete overflow: two workers on 2^32 - 1 documents |
| SegmentRanges.Candidate | src/segment_ranges.rs:38-47 | picks the last splittable segment whose chunk with one more worker is largest |
| SegmentRanges.Allocate | src/segment_ranges.rs:35-52 | terminates with all workers handed out or no segment splittable, and no split segment has a smaller chunk than a splittable one would get |
| SegmentRanges.BalancedIsBest | src/segment_ranges.rs:37-52 | no other way to place as many workers has a larger smallest chunk among its split segments |
| SegmentRanges.SearcherDocRanges | src/segment_ranges.rs:22-66 | for any number of workers, the plan covers every non-empty segment once and no other, with at most max(workers, segments) ranges |
| RangeCollection.Seek | src/segment_ranges.rs:98-101 | moves to the first match at or after the start of the range |
| RangeCollection.BufferDoc | src/segment_ranges.rs:109-114 | stores one document and delivers a full buffer |
| RangeCollection.CollectMatchingDocs | src/segment_ranges.rs:91-122 | the delivered blocks put together are the live matches of the range, ascending; every block holds 1 to 64, all but the last exactly 64 |
| RangeCollection.CoveredOnce | src/segment_ranges.rs:68-122 | ranges that cover a segment deliver each of its live matches once, in order |
| RangeCollection.AllLiveOnce | src/query/doc_order.rs:7-33 | the list of all live matches holds every matching document that is not deleted once, and nothing besides |
| RangeCollection.AllLiveAscends | src/query/doc_order.rs:7-33 | it is ordered by segment and then by document |
| RangeCollection.WindowAt | src/query/doc_order.rs:7-33 | a window starts `offset` elements in and has `limit` elements, or as many as are left |
| RangeCollection.VisitSegment | src/query/doc_order.rs:20-27 | visiting stops as soon as the window is full and loses nothing |
| RangeCollection.CollectDocOrder | src/query/doc_order.rs:7-33 | returns exactly the slice [offset, offset + limit) of all live matches in document order |
| TopKRead.DeliversAll | src/segment_ranges.rs:22-66 | any covering plan, in any order, delivers exactly the live matches |
| TopKRead.SplitIndependence | src/query/block_top_k.rs:132-149 | for any division into ranges, merging their best and taking the window gives the window of one global sort |
| TopKRead.SortedWindow | src/query/block_top_k.rs:132-149 | cutting a slice out of the sorted hits is a window of the set of hits: as long as asked for or as there are hits left, its k-th address being the hit with exactly offset + k hits before it |
| TopKRead.WindowOrder | src/query/block_top_k.rs:132-149 | of two documents in a window, the first column that tells them apart does not put the later one first |
| TopKRead.BufferSizes | src/query/block_top_k.rs:273-280 | a read asks for as many hits as limit and offset together (line 31) and its buffer for that many times the factor, cut down only to the machine word |
| TopKRead.CollectBlockRange | src/query/block_top_k.rs:60-66 | one range yields its best n |
| TopKRead.CollectBlock | src/query/block_top_k.rs:205-218 | a block pushes each of its documents |
| TopKRead.CollectBlockTopK | src/query/block_top_k.rs:21-71 | the block read, split or not, returns skip(offset).take(limit) of all documents sorted by the block keys: the k-th address is the live match with exactly offset + k live matches before it |
| TopKRead.CollectMaterializedRange | src/query/materialized_top_k.rs:38-63 | one range yields its best n rows |
| TopKRead.CollectMaterializedTopK | src/query/materialized_top_k.rs:14-75 | the materialized read returns skip(offset).take(limit) of all documents sorted by their JSON keys: the k-th address is the live match with exactly offset + k live matches before it |
| ScoredTopK.StoredLikeValue | src/query/scored_top_k/segment.rs:166-197 | inside one segment, comparing stored numbers, addresses or ordinals is comparing the values they stand for, missing ones included |
| ScoredTopK.OrdersAgree | src/query/scored_top_k/segment.rs:141-164 | so the local order and the merge order agree on the documents of a segment, for any list of sort fields |
| ScoredTopK.GlobalComparable | src/query/scored_top_k.rs:240-300 | the merge order is total |
| ScoredTopK.MissingPlacement | src/query/scored_top_k.rs:285-289 | missing values come last in ascending and first in descending order |
| ScoredTopK.ScorePlacement | src/query/scored_top_k.rs:240-300 | two documents in score order, by either direction |
| ScoredTopK.HitsAreCollected | src/query/scored_top_k.rs:195-217 | collected are the documents that match, are not deleted and score at least the minimum, each once; without a minimum all live matches |
| ScoredTopK.PruningIsSound | src/query/scored_top_k/segment.rs:31-74 | pruning by ordinals keeps the best n by value |
| ScoredTopK.CollectHits | src/query/scored_top_k.rs:195-217 | hits below the minimum score are skipped, of the others the best n are kept |
| ScoredTopK.CollectSegment | src/query/scored_top_k.rs:141-230 | a segment yields its best n in its own order |
| ScoredTopK.CollectScoredTopK | src/query/scored_top_k.rs:95-182 | the scored read returns the window of the live matches that score at least the minimum, sorted by value: the k-th address is the one with exactly offset + k of them before it |
| Pagination.TieBroken | src/query/cursor.rs:28-41 | the sort begins with the request's own columns; behind them stands at most the primary key, ascending, and exactly when an explicit sort that is no aggregation has neither the score nor the primary key |
| Pagination.BuildAlternative | src/query/cursor.rs:84-112 | one alternative: equality with every earlier column, then the comparison of this one |
| Pagination.FilterAfterCursor | src/query/cursor.rs:45-123 | accepts a cursor exactly under the stated conditions and then returns the filter of the rows after it |
| Pagination.CursorsAreAccepted | src/query/cursor.rs:125-138 | cursors are given out exactly when every cursor of the right length would be accepted next |
| Pagination.CursorSelectsAfter | src/query/cursor.rs:82-116 | the generated filter matches exactly the rows strictly after the cursor row in lexicographic order, under any mix of directions |
| Pagination.RestAfter | src/query/cursor.rs:82-122 | with a cursor, the rows in order are those after the cursor row, none lost and none repeated |
| Pagination.PageAt | src/query/typed_projection.rs:137-148 | a page is the next limit rows, and it has a cursor exactly when rows are left |
| Pagination.FollowedSoFar | src/database_read.rs:113-125 | following cursors visits the rows in order, page by page |
| Pagination.PagesVisitEverything | src/query/typed_projection.rs:137-148 | following the cursors to the end visits every matching row exactly once in sort order, after at most one page for each row |
| PagedRead.SortedRead | src/query/block_top_k.rs:15-50 | the documents the compiled filter finds, sorted by their block keys, are the matching rows in the order of the cursors |
| PagedRead.ReadBlockPage | src/database_read.rs:113-150 | a page read by the block collector, for any number of workers, is the page that following the cursors speaks about |
| Filters.SilentFilter | src/query/filter_score.rs:3-29 | a filter that does not contribute to the score scores nothing |
| Filters.SameNameIff | src/query/compiler.rs:13-19 | names are the same if they differ at most in the case of ASCII letters |
| FilterCompiler.NegateMatches | src/query/compiler.rs:3-8 | negation matches exactly what the query does not |
| FilterCompiler.ComparisonMeaning | src/query/typed_values.rs:3-31 | a compiled comparison matches the documents with a value that satisfies it; inequality those without an equal value |
| FilterCompiler.JsonComparisonMeaning | src/query/typed_compiler.rs:223-260 | the same for JSON paths, where equality is a closed range |
| FilterCompiler.LeafMeaning | src/query/typed_compiler.rs:40-202 | every compiled leaf matches what it denotes |
| FilterCompiler.LeafAcceptedIff | src/query/typed_values.rs:33-93 | a predicate is accepted if and only if: its column is there and indexed; its values are of the column's type, numbers within its 64 bits, and there is one; below a JSON column the path is not blank and the value has the type asked for; truth values are compared for (in)equality only |
| FilterCompiler.RawMeaning | src/query/typed_compiler.rs:203-286 | every compiled filter matches exactly what it denotes |
| FilterCompiler.CompiledMeaning | src/query/typed_compiler.rs:20-32 | wrapping for the score does not change the matches |
| FilterCompiler.CompiledFilterMeaning | src/query/typed_compiler.rs:4-18 | without a filter every document matches |
| FilterCompiler.CompiledScore | src/query/typed_compiler.rs:20-32 | whatever structural queries would score, a match scores the sum over the matching full-text leaves not below Not |
| FilterCompiler.UnsupportedLeaves | src/aggregation_api/filter.rs:86-146 | geo filters, and full-text requests other than search, fuzzy and prefix ones, are not supported inside an aggregation |
| FilterCompiler.LeavesAgree | src/aggregation_api/filter.rs:46-131 | the compilers, each with its own treatment of the predicates, compile a supported one alike and the aggregation compiler refuses the others |
| FilterCompiler.CompilersAgree | src/aggregation_api/filter.rs:40-165 | the aggregation compiler succeeds exactly on the supported filters the read compiler accepts, and matches the same documents |
| FilterCompiler.SameMatches | src/aggregation_api/filter.rs:40-165 | whenever it succeeds, both compiled queries have the same matches |
| FilterErasure.ErasedLeaf | src/filter.rs:146-168 | comparisons, ranges, lists and null tests of the column are erased, however its name is spelled, and every other predicate stays |
| FilterErasure.ErasedIgnoresColumn | src/filter.rs:146-181 | what is left says nothing about the column: documents that differ only in its values both match or neither does |
| FilterErasure.CompilesIff | src/query/typed_compiler.rs:203-286 | a filter compiles if and only if no container is empty and every predicate is accepted |
| FilterErasure.ResultIsFree | src/filter.rs:146-168 | no structural predicate on the column is left |
| FilterErasure.ErasureMeaning | src/filter.rs:146-181 | the result means the filter with the column's predicates made neutral in their containers |
| FilterErasure.Independent | src/filter.rs:146-168 | filters that differ only in the column's own predicates have the same result |
| FilterErasure.NothingToErase | src/filter.rs:170-181 | a simplified filter that does not mention the column is unchanged |
| FilterErasure.Idempotent | src/filter.rs:146-181 | erasing twice is erasing once |
| FilterErasure.PreservesMatches | src/filter.rs:146-181 | without a predicate on the column and without empty containers every document matches as before |
| FilterErasure.ErasedMatches | src/search_diagnostics.rs:174-191 | whenever a filter compiles so does what is left of it, and matches the documents its neutral meaning does not exclude |
| FilterErasure.PreservesSearch | src/filter.rs:146-181 | a filter that compiles and has no predicate on the column matches the same documents as before, with no further condition |
| FilterErasure.AcceptedIff | src/filter.rs:170-181 | for every filter: it compiles if and only if it has no empty container, its predicates on the column compile, and what is left of it compiles |
| FilterErasure.ErasureAccepts | src/filter.rs:146-181 | refused filters of which erasure leaves one that is accepted: with an empty container, and with an empty list of values for the column |
| SchemaPlan.Build | src/database_schema.rs:57-138 | builds the plan change by change; the first refused change refuses the list |
| SchemaPlan.AcceptedIff | src/database_schema.rs:66-131 | a change is accepted if and only if: the name of a new column is free and it is nullable or has a default; a column to drop, rename or alter is there and is not the primary key; its new name is free; an altered definition keeps the name |
| SchemaPlan.RefusedIff | src/database_schema.rs:57-138 | a list is refused if and only if one of its changes is not acceptable after those before it |
| SchemaPlan.ChangeDoes | src/database_schema.rs:66-131 | an accepted change adds its column behind the others, removes the one it names, changes only its name, or puts the definition in its place; all others stay as they are, and the document store changes only if told to |
| SchemaPlan.TargetIsDefined | src/database_schema.rs:57-138 | the columns of the plan are those the list defines: each with the definition and under the name last given to it, and no others |
| SchemaPlan.StaysUnlessNamed | src/database_schema.rs:57-138 | a column that no later change names keeps its definition to the end |
| SchemaPlan.LastDefinitionCounts | src/database_schema.rs:116-127 | the definition last given to a column is the one in the plan |
| SchemaPlan.ChangeKeepsComplete | src/database_schema.rs:66-131 | an accepted change keeps "exactly one of source and default for each target column, sources different old columns" if and only if it spells its column in exact case |
| SchemaPlan.PlanIsComplete | src/database_schema.rs:57-138 | so a plan of exactly spelled changes is complete |
| SchemaPlan.ExactListIff | src/database_schema.rs:57-138 | the plan of an accepted list is complete after every change if and only if every change is spelled exactly |
| SchemaPlan.OtherCaseLosesSource | src/database_schema.rs:95-115 | a column renamed in another case has neither source nor default |
| SchemaPlan.StaleSourceShadowsDefault | src/database_schema.rs:95-115 | renamed in another case, dropped and added again with a default: every column has a source or a default, but the rows keep the old value instead of the default |
| SchemaPlan.PlanIsStepwise | src/database_schema.rs:167-174 | for every row, the plan takes for each target column what applying the changes one at a time leaves there |
| SchemaPlan.StepFollowsIff | src/database_schema.rs:66-131 | one accepted change of a plan that follows the changes before it: the plan still follows if and only if the change is spelled in exact case |
| SchemaPlan.FollowsIff | src/database_schema.rs:57-138 | for every accepted list and row: the plan gives what applying the changes one at a time leaves, after every change, if and only if every change is spelled exactly |
| SchemaPlan.CopyConvertedRows | src/database_schema.rs:141-184 | the batches inserted are together all converted rows in order, each batch but the last exactly 2000; a row that does not convert fails the copy, and it panics only if converting the rows does |
| SchemaPlan.ConvertedInOrder | src/database_schema.rs:165-178 | a copied row has one value for each target column, in their order: what its source or default gives, converted to the type of that column |
| SchemaPlan.NothingMissing | src/database_schema.rs:167-174 | with a complete plan no row lacks a value |
| SchemaPlan.PanicsIff | src/database_schema.rs:167-174 | when every value converts, copying a row panics if and only if a target column has neither source nor default |
| MergeBalance.Lightest | src/database_admin/optimize.rs:102-105 | the first group with the smallest (documents, segments) |
| MergeBalance.SortByDocs | src/database_admin/optimize.rs:95-96 | a permutation with the largest first, ties in any order |
| MergeBalance.BalancedMergeGroups | src/database_admin/optimize.rs:87-109 | min(target, n) non-empty groups, each segment placed on a lightest group; few segments stay alone |
| MergeBalance.GroupsPartition | src/database_admin/optimize.rs:97-108 | every segment is in exactly one group |
| MergeBalance.LongJobsFit | src/database_admin/optimize.rs:100-107 | a segment longer than a third of the best heaviest group is placed without exceeding it |
| MergeBalance.GreedyBound | src/database_admin/optimize.rs:100-107 | the heaviest group is at most 4/3 - 1/(3m) times as heavy as that of any assignment |
| MergeBalance.HeaviestGroupBound | src/database_admin/optimize.rs:87-109 | the same for the merge groups against any division of the segments into m groups |
| Limiter.StepSafe | src/search_runtime.rs:177-203 | every critical section of every thread keeps: active = permits <= limit, no lost wake-up; releasing never clamps |
| Limiter.EveryRunIsSafe | src/search_runtime.rs:161-203 | so it holds in every interleaving of any number of threads |
| Limiter.FreePermitIsTaken | src/search_runtime.rs:181-187 | when a permit is free and somebody waits, a notified thread can take it at once |
| Limiter.NoDeadlock | src/search_runtime.rs:181-187 | while somebody waits, a permit is held or a notified thread can go on |
| Limiter.StartsFree | src/search_runtime.rs:167-174 | at the start there is at least one permit, as many as asked for, and nobody holds or awaits one |
| Limiter.WideQueryLimiter.constructor | src/search_runtime.rs:167-174 | a limit below one is one |
| Limiter.WideQueryLimiter.Test | src/search_runtime.rs:181-188 | one turn of the waiting loop changes the counter as the machine does |
| Limiter.WideQueryLimiter.Drop | src/search_runtime.rs:196-203 | giving a permit back subtracts exactly one |
| AggregationCache.TaskStepCoherent | src/search_service.rs:116-131 | each step of an aggregation keeps: cached and computed values are no older than their generation |
| AggregationCache.PublicationStepCoherent | src/search_service.rs:238-301 | each step of a publication that does not start the generations again keeps it, also a failed one and one that leaves the table out |
| AggregationCache.AnswersAreCurrent | src/search_service.rs:116-131 | in every interleaving in which the generations never start again, with failed publications or without, the value returned for a handle of generation g is the request evaluated on a snapshot no older than the one published as g |
| AggregationCache.OpenedReady | src/search_service.rs:238-301 | a table opened for the first time is served, with an empty cache and the committed version shown as generation 1 |
| AggregationCache.AnswersBySearching | src/search_service.rs:116-131 | an aggregation that nobody interrupts answers with the request evaluated on what the reader of the current handle shows, and leaves that in the cache |
| AggregationCache.AnswersFromCache | src/search_service.rs:122-127 | one that finds its key in the cache answers with what is there |
| AggregationCache.Publishes | src/search_service.rs:247-298 | a publication that succeeds shows what is committed under a new handle and empties the cache: the next generation of the same reader, or generation 1 of a new one when the definition has changed or the table is not listed |
| AggregationCache.FailsOrOmits | src/search_service.rs:247-284 | after a publication that failed, or one without the table, the next one opens the table anew; without the table nothing is looked up any more |
| AggregationCache.RestartEnds | src/search_service.rs:267-284 | every restart of every run ends in generation 1 of a reader that no earlier aggregation holds |
| AggregationCache.RestartIsSafeIff | src/search_service.rs:116-131 | after a restart, every continuation without another one gives current answers for the new handles if and only if the aggregations under way and the entries left are harmless |
| AggregationCache.HarmlessIff | src/search_service.rs:122-130 | an aggregation under way is harmless if and only if it evaluates the same definition for generation 1 on a snapshot as new as the one published |
| AggregationCache.IdleRestartIsSafe | src/search_service.rs:267-284 | in particular a restart is safe when no aggregation is under way and the cache is empty |
| AggregationCache.DelayedStoreIsStale | src/search_service.rs:247-284 | the trace: an aggregation is delayed while the definition changes, or while a publication fails and the next one opens the unchanged table again; its value is then served for a newer snapshot |
| AggregationLru.LruCache.constructor | src/search_runtime.rs:234-238 | starts empty; capacity zero switches it off |
| AggregationLru.LruCache.Get | src/search_runtime.rs:240-242 | returns what is stored and makes it the most recently used; a miss changes nothing |
| AggregationLru.LruCache.Insert | src/search_runtime.rs:244-248 | stores the value; only a full cache drops one other entry, the least recently used |
| AggregationLru.OthersInOrder | src/search_runtime.rs:240-248 | taking out the entry of a key keeps the order of the others |
| AggregationLru.OtherTablesInOrder | src/search_runtime.rs:250-261 | removing a table keeps the order of the other entries |
| AggregationLru.LruCache.RemoveTable | src/search_runtime.rs:250-261 | removes exactly the entries of the table |
| Morton.OrAbove | src/geo/encoding.rs:210-211 | or-ing in a bit above all set ones is adding it |
| Morton.Interleave | src/geo/encoding.rs:207-214 | the loop interleaves 31 bits of both coordinates, below 2^62 |
| Morton.MortonXY | src/geo/encoding.rs:179-188 | the loop separates the even and the odd bits up to the zoom; a zoom above 31 is refused |
| Morton.SeparateInverts | src/geo/encoding.rs:179-214 | separating undoes interleaving |
| Morton.InterleaveInverts | src/geo/encoding.rs:179-214 | interleaving undoes separating |
| Morton.TileAtZoom | src/geo/encoding.rs:170-188 | the tile of (x, y) at a zoom is (x >> k, y >> k) for the k levels dropped |
| Morton.ParentTile | src/geo/encoding.rs:170-177 | one zoom level less is the quarter of the code |
| GeoGrid.TilesCount | src/geo/aggregation.rs:122-132 | in document mode sorting and deduplicating leaves each tile of a document once |
| GeoGrid.SegmentCollector.constructor | src/geo/aggregation.rs:62-73 | starts with no counts and no failure |
| GeoGrid.SegmentCollector.Increment | src/geo/aggregation.rs:149-155 | counts a tile, or reports an overflow instead of a tile too many |
| GeoGrid.SegmentCollector.Collect | src/geo/aggregation.rs:108-137 | after each document: without a failure the counts are exact, a failure is justified by the documents seen |
| GeoGrid.SegmentCollector.Harvest | src/geo/aggregation.rs:139-145 | the result reports exactly that |
| GeoGrid.AddCounts | src/geo/aggregation.rs:94-99 | adds counts tile by tile and fails exactly when the union has too many tiles |
| GeoGrid.MergeFruits | src/geo/aggregation.rs:80-102 | fails exactly when some coordinates are corrupt or the distinct tiles exceed the limit, however the documents are divided; otherwise the global count |
| GeoGrid.ShareOfPoints | src/geo/aggregation.rs:122-137 | a document adds to a tile the number of its points inside the bounds that lie there, or one exactly if it has such a point |
| GeoGrid.CountOfPoints | src/geo/aggregation.rs:122-137 | a tile counts the points that lie in it, by document and position, or the documents that have one |
| GeoGrid.TilesOfAll | src/geo/aggregation.rs:122-137 | the tiles are exactly those of the points inside the bounds |
| GeoGrid.CollectGrid | src/geo/aggregation.rs:158-195 | the whole aggregation fails exactly when some coordinates are corrupt or the points inside the bounds lie in more tiles than allowed; otherwise its keys are those tiles, each with the number of points in it or of documents that have one |
| GeoGrid.TileIsItsChildren | src/geo/aggregation.rs:122-137 | counting points, a tile has as many as its four children one zoom level further in |

## Left out

- The index library: tokenizers, query parsing, relevance scores, segment merging and reader caches.
  Full-text and geo leaves are abstract predicates with abstract scores; a writer is a list of
  delete-term and add-document operations that a commit folds into the visible documents.
- A writer commit that fails is assumed to leave what was queued in the writer, so that records already
  staged need not be staged again; the source relies on the same when it skips staged ids.
- Table names that are not a single file name (empty, `.`, `..`, or with a path separator), and file
  systems that ignore case: directories are told apart by their names.
- Reloading a reader after a commit is not a step of its own in the outbox model: a search sees the
  committed documents.
- SQL text, the SQLite driver, serialization and hashing: a transaction is atomic and a request hash
  is injective.
- The search that turns the filter of an update or delete into keys: the keys are parameters.
- Aliases and definitions of tables in the catalog: create, reindex and schema change are one call
  that sets rows and the dirty flag; table names are compared exactly.
- The order in which a rebuild scans rows, and in which ties of documents are counted, is fixed in the
  model; no result depends on it.
- OutboxDatabase.Database.BulkWrite: does not model the conversion of JSON values, which can only make
  the call fail before its transaction.
- OutboxTheorems.PrefixConsistency: does not name outbox ids; a prefix is a state of the run, because a
  write and the record it stores change the database in the same step.
- Floating-point geometry, distances and geo cursors; numbers and scores are compared as reals, so
  rounding and the order of the two zeros are not modelled.
- PagedRead.ReadBlockPage: does not model a cursor read by a text column or by three or more columns,
  which the index library's own collector serves.
- ScoredTopK.GlobalComparable: does not model how values of different kinds compare, because a column
  has one kind in all segments.
- Reals, dates, addresses, blobs and facets in filters: values are 64-bit integers, texts and truth
  values, and a text column is not analysed.
- Type-by-type value conversion in schema changes: a conversion is a parameter.
- TopKBuffers.BufferedTopK.constructor: does not model a failed allocation; it requires that ten times
  the requested size does not saturate.
- TopKBuffers.MaterializedBuffer.constructor: does not model a failed allocation either; here it is twice
  the requested size.
- Thread pools and poisoned locks: any partition, any order and any interleaving instead.
- The saturation of the generation counter after 2^64 publications.
- HTTP server, authentication, metrics, jobs, imports, command line, backups, warm-up, highlighting,
  explanations and profiles.
- Path types of dynamic JSON fields and their cache; they would add only easy members.
