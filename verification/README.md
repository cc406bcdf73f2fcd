# Verification of the sampled-grid query pipeline, the AIS merge and the config assembler

This project models, in Dafny, the parts of the adapter whose correctness is hardest to see from one function body, and
proves what they promise over all inputs, all runs and all interleavings.

* **Canonical snapshot cache.** `SnapshotStore` holds the shared state and one function per locked operation,
  `SnapshotInvariants` what every operation keeps, `SnapshotCache` the class that updates its fields in place to exactly
  those values, `SnapshotExpiry` which commit a lookup answers from and how old it may be, and `SingleFlight` the threads:
  every locked section of `get_or_load` is one step, and any number of calls, lookups, commits, reconfigurations and
  clearings interleave between them.
* **Resolution fallback.** `ResolutionFallback` is the retry and coarser-resolution loop, run through the cache whatever the
  cache already holds or aliases, against a reference answer computed from the source alone.
* **Batch executor.** `CapacityPool` is the pool, `BatchProtocol` the steps of any number of `execute` generators and their
  jobs on one pool, `BatchProgress` what each batch delivers and why a batch with the pool to itself ends, `BatchOutcomes`
  that it delivers each operation's own packet or error, `BatchClosing` that one that is given up can end.
* **Sharded reads.** `ShardPlanning` clips, snaps and cuts the window, `WindowSnapping` says which cells a window holds and
  which requests have none; `ShardIdentity` is the text that names a shard and the reader that inverts it; `ShardValidation` the two validators; `GridFrames` and `FrameMerging` the columnar frames;
  `GridMapping` the row mapper and the column mapper, `MappedCells` what they put under each field and where, `CellsInShards`
  that this is where the planner has the cell; `ShardAssembly` the assembler, `TwoCellStitches` its smallest windows;
  `ShardLoading` the whole request through
  the cache, with shards finishing in any order. `ConcurrentLoads` makes snapshot and shard loads calls of the single-flight
  protocol and carries their results to every interleaving.
* **AIS.** `AisMerge` is the buffer, the store with its own staleness rule and the worker between them; `AisSchedules` cuts a
  run into what is flushed together and says when the flush schedule shows; `AisSnapshots` is the periodic snapshots, and
  `AisSnapshotSchedules` says when the flush schedule shows in them.
* **Configuration.** `ConfigMerge` is the deep merge, `ConfigAssembly` the include graph.

Numbers and clocks are integers or reals; a JSON value is `Prelude.Value`, where a text carries the number it denotes, if any.
What the source updates in place is a class here, with the same fields; each of its methods is proved to reach exactly the
state that a specification function gives, and the lemmas are about that function.

Where the code and its documentation or intent differ, the model follows the code:

* the row and the column mapper can differ when a resolution is missing or no number next to a single advertised resolution,
  when a cell is only partly placed, when a row states its own bounds, and when a source column has an empty name
  (`ColumnsEqualRowsIff` gives the exact condition over all packets on the fast path, `OtherPackets` what happens to the rest;
  `UsualRowAgreesIff`, `StatedBoundsIff` and `EmptyColumnNameIff` say what the condition comes to in each case, and
  `NullResolutionDiffers`, `PartlyPlacedDiffers`, `StatedBoundsDiffer` and `EmptyColumnNameDiffers` are packets that fail it);
* a stale speed, course or heading can reach the stored row through the buffer, although the repository's README says that stale
  updates are rejected (`FieldFlushIff` says exactly when one flush does it, `FieldScheduleIff` when a run does,
  `FreshEntriesIndependence` when none can, and `StaleSpeedSurfaces` is one run under two schedules); the stored receipt time
  and source depend on when the buffer is flushed (`ReceiptFlushIff` and `ReceiptScheduleIff` say exactly when,
  `ReceiptDependsOnFlush` shows it under two schedules);
* the flush schedule also decides which periodic snapshots a vessel has: a flush offers its latest position only
  (`SnapshotScheduleIff` says exactly when a snapshot does not get as near as it could, `AroundOneOClock` is one that is lost);
  and if the snapshot interval does not divide the day, a later event can have an earlier snapshot (`SnapshotsGoBack`);
* shards can only be stitched if date and resolution are constant over the whole window or vary within every single shard
  (`PiecesMergeIff`), and, if the cell identity is not mapped, only if a column named `cell_id` or `id` tells the cells apart
  (`UnmappedIdentityIff`; `ThreeWindows` shows a stitch that fails for each reason and one that does not);
* `deep_merge` is not associative (`AssociativeIff` gives the exact condition, `ObjectScalarObject` the smallest case);
* an alias of the cache can shadow a live entry of the same key (`AliasCanShadowLiveEntry`); the answers are still right.

## Model

| member | source | states |
|---|---|---|
| SnapshotStore.KeyIdentifiesDeclaredRoles | common_adapter/query/snapshot_cache.py:80-85 | two identities share a cache key exactly when they agree on every declared role |
| SnapshotInvariants.RemoveValid | common_adapter/query/snapshot_cache.py:136-151 | removal keeps all structures in agreement: recency lists, entries, aliases and the exact row total, so the clamp at zero never acts |
| SnapshotInvariants.ResolveValid | common_adapter/query/snapshot_cache.py:165-185 | a lookup keeps the agreement whether it hits, misses or expires an entry; the dangling-alias branch finds nothing to do |
| SnapshotInvariants.ResolveFinds | common_adapter/query/snapshot_cache.py:133-185 | a lookup finds exactly the entry one alias hop away, if the policy has no ttl or the entry was created no longer ago than that |
| SnapshotInvariants.LruIsLive | common_adapter/query/snapshot_cache.py:114-163 | the global recency list names exactly the live entries |
| SnapshotInvariants.TrimBound | common_adapter/query/snapshot_cache.py:158-163 | the global trim leaves the most recent part of the recency order, within the budget or a single entry |
| SnapshotInvariants.TrimMinimal | common_adapter/query/snapshot_cache.py:158-163 | nothing is dropped without need: before each removal the remaining rows exceeded the budget |
| SnapshotInvariants.EvictLeavesOthers | common_adapter/query/snapshot_cache.py:232-236 | the per-namespace bound never touches another namespace |
| SnapshotInvariants.CommitValid | common_adapter/query/snapshot_cache.py:206-237 | a commit keeps the agreement and only drops, never changes, other entries |
| SnapshotInvariants.CommitBounds | common_adapter/query/snapshot_cache.py:206-237 | after a commit the new entry is live and most recent, with its identity, payload, time and number of rows; the namespace holds at most its bound, the rows are within budget or one entry is left |
| SnapshotInvariants.CommitVictimsAreOldest | common_adapter/query/snapshot_cache.py:232-236 | both eviction loops drop least recently used entries only |
| SnapshotInvariants.ConfigureSpec | common_adapter/query/snapshot_cache.py:126-131 | a new row budget takes effect at once, oldest entries first |
| SnapshotInvariants.ClearSpec | common_adapter/query/snapshot_cache.py:306-315 | clearing removes exactly one namespace's entries, or all |
| SnapshotInvariants.ResolveFaithful | common_adapter/query/snapshot_cache.py:165-204 | a lookup in a cache that holds the source's answers returns the source's answer for the requested key, shadowed entries or not |
| SnapshotInvariants.CommitFaithful | common_adapter/query/snapshot_cache.py:206-237 | committing a load whose actual key has the same answer as the requested one keeps every entry and alias right |
| SnapshotInvariants.AliasCanShadowLiveEntry | common_adapter/query/snapshot_cache.py:165-170 | after two commits a lookup of a live key answers with another key's entry |
| SnapshotCache.CanonicalSnapshotCache.RemoveLocked | common_adapter/query/snapshot_cache.py:136-151 | reaches the specified state in place, alias filtering included |
| SnapshotCache.CanonicalSnapshotCache.TrimGlobalLocked | common_adapter/query/snapshot_cache.py:158-163 | the eviction loop reaches the specified state |
| SnapshotCache.CanonicalSnapshotCache.ResolveLocked | common_adapter/query/snapshot_cache.py:165-185 | finds what the specification finds and moves it to the end of both orders |
| SnapshotCache.CanonicalSnapshotCache.RememberLocked | common_adapter/query/snapshot_cache.py:206-237 | commits, aliases and evicts to the specified state, within the bounds; an actual identity without its roles changes nothing |
| SnapshotCache.CanonicalSnapshotCache.GetOrLoad | common_adapter/query/snapshot_cache.py:250-304 | for a caller that finds no load in flight: the cached snapshot, or the loader's, committed; a failing loader leaves what the lookup left |
| SnapshotCache.CanonicalSnapshotCache.Configure | common_adapter/query/snapshot_cache.py:126-131 | rejects a budget below one and otherwise trims at once |
| SnapshotCache.CanonicalSnapshotCache.ClearLocked | common_adapter/query/snapshot_cache.py:306-315 | clears one namespace or everything to the specified state |
| SingleFlight.RunInvariant | common_adapter/query/snapshot_cache.py:250-304 | in every reachable state of any number of threads the cache structures agree and the protocol invariant holds |
| SingleFlight.SingleOwner | common_adapter/query/snapshot_cache.py:262-304 | at most one call owns the load of a key, and a key is in flight exactly while a call does |
| SingleFlight.WaitersAreServed | common_adapter/query/snapshot_cache.py:272-304 | a waiter's load has a live owner, or its event is set with either a result or an error: the missing-result error is never raised |
| SingleFlight.SharedOutcome | common_adapter/query/snapshot_cache.py:272-304 | an owner and all its waiters get the same payload or error |
| SingleFlight.NoDeadlock | common_adapter/query/snapshot_cache.py:250-304 | while a call is under way some loader may end, some owner may leave or some waiter may wake |
| SingleFlight.RunsAreBounded | common_adapter/query/snapshot_cache.py:250-304 | n calls take at most 3n steps, whatever else is interleaved |
| SingleFlight.CacheTransparency | common_adapter/query/snapshot_cache.py:165-304 | after any interleaving of calls, lookups, commits, expiry, eviction, reconfiguration and clearing, whatever was returned, or would be found now, is the source's payload for the requested key |
| SingleFlight.CallKeepsItsSlot | common_adapter/query/snapshot_cache.py:250-304 | whether it hits, loads or waits, a call works on the key it asked for, to its end |
| SingleFlight.OutcomesAreAnswers | common_adapter/query/snapshot_cache.py:250-304 | if loaders end as their keys determine, errors included, every finished call has returned or raised what its key determines, in every run |
| SnapshotExpiry.CommittedIsFound | common_adapter/query/snapshot_cache.py:133-237 | a committed load is found under its own key, unless an alias leads elsewhere, exactly while the reader has no ttl or the commit is no longer ago than that |
| SnapshotExpiry.EntriesAreLastCommits | common_adapter/query/snapshot_cache.py:206-237 | in every reachable state each entry is the last load that the run committed under its key, with its time and rows |
| SnapshotExpiry.LookupIff | common_adapter/query/snapshot_cache.py:133-185 | in every reachable state a lookup finds that load exactly when it is still there and within the reader's ttl |
| SnapshotExpiry.HitsAreRecent | common_adapter/query/snapshot_cache.py:250-271 | in every run a call that is answered at once gets a payload that some loader returned, committed no longer ago than the call's ttl |
| SnapshotExpiry.EnterIff | common_adapter/query/snapshot_cache.py:250-285 | a call is answered at once exactly when the entry that its key leads to is live and not too old; otherwise it waits for the load under way for its key, or becomes the one that loads |
| SnapshotExpiry.LookupStepLeaves | common_adapter/query/snapshot_cache.py:153-185 | what a lookup finds becomes the most recent entry, the others keeping their order; what is too old is gone afterwards |
| SnapshotExpiry.ClearForgets | common_adapter/query/snapshot_cache.py:306-315 | clearing forgets exactly the entries of the namespace, or all of them |
| SnapshotExpiry.BudgetTakesHold | common_adapter/query/snapshot_cache.py:126-131 | a new row budget holds at once, but for a single entry |
| ResolutionFallback.AnswerIsSmallestUsable | common_adapter/endpoint/sampled_grid.py:853-975 | the reference answer is the outcome of the smallest candidate that does not fail with a fallback-eligible error |
| ResolutionFallback.FetchResolution | common_adapter/endpoint/sampled_grid.py:892-948 | the retry loop ends with the first attempt that does not fail transiently, or with the last one allowed |
| ResolutionFallback.SnapshotKey | common_adapter/endpoint/sampled_grid.py:440-452 | a cached snapshot's key stands for the answer of its date, coverage and resolution |
| ResolutionFallback.LoadWithIsAnswer | common_adapter/endpoint/sampled_grid.py:853-970 | whichever candidates the lookups find, the loader gives the reference answer, under a resolution that has the same one |
| ResolutionFallback.LoadCandidates | common_adapter/endpoint/sampled_grid.py:853-970 | the loop is the loader with what its lookups found: whatever is cached it gives the reference answer, within candidates times attempts, and never falls off its end |
| ResolutionFallback.ResolutionIsAsked | common_adapter/endpoint/sampled_grid.py:178-188 | a positive explicit resolution is rounded up to the least advertised one, or down to the greatest when there is none above; without one the least is taken |
| ResolutionFallback.AnswerIsServed | common_adapter/endpoint/sampled_grid.py:853-975 | the reference answer for an advertised resolution is the outcome of the least one at or above it that does not fail as too fine, if falling back is allowed |
| ResolutionFallback.LoadCanonicalSnapshot | common_adapter/endpoint/sampled_grid.py:824-978 | a request through the cache gives the outcome of the resolution that answers what was asked for, and keeps the cache right |
| CapacityPool.NormalizedConcurrency | common_adapter/query/batch.py:12-17 | always between 1 and 16, and the value itself inside that range |
| CapacityPool.ReleaseUndoesAcquire | common_adapter/query/batch.py:51-72 | a release undoes one acquire of its source and no other's |
| CapacityPool.SourceCapacityPool.TryAcquire | common_adapter/query/batch.py:51-58 | grants exactly below the limit and stays within it |
| CapacityPool.SourceCapacityPool.Release | common_adapter/query/batch.py:64-72 | gives one permit back and forgets a source without permits |
| BatchProtocol.PermitConservation | common_adapter/query/batch.py:87-174 | in every reachable state of any number of concurrent batches a source's count is exactly the permits held for it |
| BatchProtocol.AbandonedBatchesLeakNothing | common_adapter/query/batch.py:141-174 | once all batches are finished or abandoned and no worker runs, the pool is empty |
| BatchClosing.GivenUpBatchCloses | common_adapter/query/batch.py:152-174 | a batch that its caller gives up, or an exception ends, in any reachable state can close on its own within two steps for each of its jobs; those that have not started are cancelled, those that have run on |
| BatchProtocol.CapacityNeverExceeded | common_adapter/query/batch.py:44-72 | a source's permits never exceed what the operations taken so far ask for, nor 16 |
| BatchProgress.EveryOperationAccounted | common_adapter/query/batch.py:119-174 | in every reachable state each input operation is queued, deferred, in hand, a job, about to be yielded or yielded, once |
| BatchProgress.ExactlyOnce | common_adapter/query/batch.py:119-174 | a batch consumed to its end has yielded one result per operation, failed or not |
| BatchOutcomes.ResultsAreTruthful | common_adapter/query/batch.py:87-117 | in every reachable state of any number of batches each result, published, about to be yielded or yielded, carries its own operation's packet or error |
| BatchOutcomes.ExactlyTheOutcomes | common_adapter/query/batch.py:87-167 | a batch consumed to its end has yielded exactly its operations with their outcomes, each as often as it was given |
| BatchProgress.LoneScanSubmits | common_adapter/query/batch.py:132-157 | a batch alone on the pool that holds no permit is admitted at once |
| BatchProgress.LoneRun | common_adapter/query/batch.py:119-167 | a single batch stays so in every orderly run and never spins |
| BatchProgress.LoneBatchDescends | common_adapter/query/batch.py:119-167 | each of its steps leaves fewer steps to take |
| BatchProgress.LoneBatchIsBounded | common_adapter/query/batch.py:119-167 | a batch of n operations that is alone takes at most n(n + 15)/2 + 1 steps, its workers' included, whatever the capacities |
| BatchProgress.LoneBatchCanMove | common_adapter/query/batch.py:119-167 | until it is finished some step is possible |
| BatchProgress.WokenBatchRescans | common_adapter/query/batch.py:132-175 | a batch that waits for nothing but a permit scans again when the pool changes, and takes the permit if there is one |
| BatchProgress.Scan | common_adapter/query/batch.py:132-157 | one pass over the queue splits it into submitted and deferred operations in order, with one permit for each submitted one |
| ShardIdentity.NumberRoundTrip | common_adapter/query/sampled_grid_paging.py:284-287 | a number padded to six places is read back, whatever follows it |
| ShardIdentity.ShardIdInjective | common_adapter/query/sampled_grid_paging.py:284-287 | two source windows have the same shard text exactly when they are the same window |
| ShardIdentity.PaddedWidth | common_adapter/query/sampled_grid_paging.py:284-287 | a number of the identity is six characters wide, sign included, if it fits, and has no zeros in front if it does not |
| ShardIdentity.ShardIdForm | common_adapter/query/sampled_grid_paging.py:284-287 | the identity is the text of the two row and the two column indexes, in that order |
| ShardPlanning.ClippingIsIntersection | common_adapter/query/sampled_grid_paging.py:109-127 | the clipped box holds exactly the points of the coverage that are in the viewport, if there is one; none means they share no area; boxes without area are refused |
| ShardPlanning.SnappingBound | common_adapter/query/sampled_grid_paging.py:214-307 | the snapped box stays inside the coverage, falls short of the clipped viewport by at most 1e-9 of a cell and overshoots it by less than a cell on every side |
| WindowSnapping.WindowIsReached | common_adapter/query/sampled_grid_paging.py:109-307 | the snapped window holds exactly the cells of the coverage that reach into the viewport by more than 1e-9 of a cell, all of them without a viewport; the coverage is a whole number of cells wide and high |
| WindowSnapping.SnapOutcome | common_adapter/query/sampled_grid_paging.py:96-248 | which requests have a window and which error the others get: incomplete geometry, a box without area, boxes that do not meet, a coverage that is no whole number of cells, a viewport that reaches into no cell |
| ShardPlanning.BandCountIsTopology | common_adapter/query/sampled_grid_paging.py:252-258 | bands of equal height never exceed the page and their number is the advertised shard count |
| ShardPlanning.BandsTile | common_adapter/query/sampled_grid_paging.py:262-263 | the loop's bands are contiguous, disjoint and cover the query rows |
| ShardPlanning.FewestBands | common_adapter/query/sampled_grid_paging.py:252-258 | no cut into full-width bands that fit the page has fewer |
| ShardPlanning.PlanShards | common_adapter/query/sampled_grid_paging.py:155-324 | the planning loop computes the specified plan, or the first error in the source's order |
| ShardPlanning.PlanTiles | common_adapter/query/sampled_grid_paging.py:262-300 | the shards of a plan fit the page, abut in window rows and in source rows, and their limits add up to the window |
| ShardPlanning.ShardIdsDiffer | common_adapter/query/sampled_grid_paging.py:281-300 | no two shards of a plan share an identity |
| ShardPlanning.PlanIsBestTiling | common_adapter/query/sampled_grid_paging.py:155-324 | every returned plan tiles the snapped window with distinct shards, as few as any cut into full-width bands |
| ShardPlanning.PlanExistsIff | common_adapter/query/sampled_grid_paging.py:252-279 | a snapped window can be planned exactly when a page holds one row, its four edges have integer source indexes and, unless one page holds all of it, a band is a whole number of source rows high; otherwise the error tells a page too small from indexes that are no integers |
| ShardPlanning.UnitGridsArePlanned | common_adapter/query/sampled_grid_paging.py:252-279 | at the base resolution the page size is the only obstacle |
| ShardValidation.RowPassesIff | common_adapter/query/sampled_grid_paging.py:399-429 | a row passes at a position exactly when it is the cell the row-major listing has there |
| ShardValidation.ExpectedInjective | common_adapter/query/sampled_grid_paging.py:418-429 | different positions of a window are different cells |
| ShardValidation.MetadataIff | common_adapter/query/sampled_grid_paging.py:338-372 | page metadata pass exactly when they describe the planned shard: mode, offset, counts, continuation and the four window indexes; else the first fault is reported |
| ShardValidation.AcceptedIffRowMajor | common_adapter/query/sampled_grid_paging.py:338-429 | the row form accepts exactly the row-major listing of the window |
| ShardValidation.ValidateRows | common_adapter/query/sampled_grid_paging.py:375-438 | reports bad metadata or the first misplaced row; its own check for duplicates and missing cells never fires |
| ShardValidation.ValidateColumns | common_adapter/query/sampled_grid_paging.py:441-501 | the column form accepts exactly the same listing |
| GridFrames.HoistingKeepsEveryValue | common_adapter/query/grid_frame.py:241-282 | every field of every appended row reads back from the built frame |
| GridFrames.CanonicalGridFrameBuilder.AppendValues | common_adapter/query/grid_frame.py:256-271 | a row of the right width is appended, any other is refused and changes nothing |
| GridFrames.CanonicalGridFrameBuilder.AppendMapping | common_adapter/query/grid_frame.py:256-271 | the appended row has the mapping's value for every field, null where it has none |
| GridFrames.CanonicalGridFrameBuilder.Build | common_adapter/query/grid_frame.py:273-282 | builds the hoisted frame of the appended rows |
| GridFrames.RowHolds | common_adapter/query/grid_frame.py:39-118 | a row of a view has the frame fields, the plain columns they do not override, and bounds nested from the bounds columns when one of them has a value there, each with its value at the position shown, and nothing else |
| GridFrames.BuiltRowsComeBack | common_adapter/query/grid_frame.py:32-282 | the rows of a built frame give back every appended row: as many, in order, each plain field as it was and the bounds fields nested |
| GridFrames.SelectIsFilter | common_adapter/query/grid_frame.py:147-179 | selecting keeps exactly the rows whose position satisfies the predicate, in order |
| GridFrames.MatchingComposes | common_adapter/query/grid_frame.py:147-179 | narrowing a view by two tests of the frame's rows, one after the other in either order, shows what both at once show |
| GridFrames.SlicedIsSlice | common_adapter/query/grid_frame.py:181-189 | a slice is that stretch of the view's rows, nothing past the end |
| GridFrames.SliceHolds | common_adapter/query/grid_frame.py:181-189 | row by row: from the offset, or from the start if that is negative, as far as there are rows and the limit goes |
| GridFrames.PagesPartition | common_adapter/query/grid_frame.py:142-189 | cutting a view anywhere and reading both parts gives it back |
| GridFrames.TransportAccepts | common_adapter/query/grid_frame.py:315-326 | a frame is rebuilt exactly from a transport of this version that is well formed; another version is refused first |
| GridFrames.TransportRoundTrip | common_adapter/query/grid_frame.py:191-326 | a transported and rebuilt view has the same rows |
| FrameMerging.MergeViews | common_adapter/query/grid_frame.py:208-238 | the merging loops compute the specified merge or its first conflict |
| FrameMerging.MergeIsConcatenation | common_adapter/query/grid_frame.py:208-238 | a merge lists every row of every view, in the order of the views |
| FrameMerging.PiecesMergeIff | common_adapter/query/grid_frame.py:208-282 | the frames of the pieces of one listing merge exactly when each frame field is constant over all of it or varies in every piece, and then into the frame of the whole listing |
| GridMapping.MapRows | common_adapter/query/sampled_grid.py:550-777 | the one-pass loop builds the frame of the mapped rows |
| GridMapping.MapColumns | common_adapter/query/sampled_grid.py:780-933 | the column computation gives the frame of its columns, or maps transposed rows when the fast path does not apply |
| GridMapping.FrameOfKeepsEveryValue | common_adapter/query/sampled_grid.py:761-777 | every value of the mapped columns reads back from the frame |
| GridMapping.RowFrameIsHoisted | common_adapter/query/sampled_grid.py:761-777 | the mapper's frame is the hoisted frame of its rows |
| MappedCells.MappedFramesShow | common_adapter/query/sampled_grid.py:550-777 | the row mapper's frame has every mapped row's values under their canonical field names |
| MappedCells.FastFramesShow | common_adapter/query/sampled_grid.py:887-933 | so has the column mapper's |
| MappedCells.MappedRowReads | common_adapter/query/sampled_grid.py:640-770 | each role comes from the mapped column, else the canonical one, else the one named like the role, else the request; a resolution that is no number from a single advertised one |
| MappedCells.StatedRowPlaced | common_adapter/query/sampled_grid.py:613-638 | a row lies in the bounds it states, nested or in the four mapped columns, its point in their middle |
| MappedCells.IndexedRowPlaced | common_adapter/query/sampled_grid.py:668-713 | a row of an indexed grid lies where its indexes say: so many rows south and columns east of the origin, as large as its resolution says; without both indexes it has no bounds |
| MappedCells.CentredRowPlaced | common_adapter/query/sampled_grid.py:701-713 | a row of a centred grid lies around its own point, as wide and high as the grid says |
| MappedCells.FastRowPlaced | common_adapter/query/sampled_grid.py:856-885 | the column mapper puts each side of a cell where the indexes say, as far as they are there |
| MappedCells.EmptySteps | common_adapter/query/sampled_grid.py:390-401 | an empty step of a path stays where it is; an empty path leads nowhere |
| MappedCells.PathSteps | common_adapter/query/sampled_grid.py:390-401 | a dotted path is followed step by step through nested objects |
| CellsInShards.PlannedCellIsPlaced | common_adapter/query/sampled_grid_paging.py:216-307 | the mapper puts the source cell that the planner numbers for a slot into that slot of the coverage, inside the planned extent |
| CellsInShards.NeighboursAbut | common_adapter/query/sampled_grid_paging.py:216-307 | and neighbouring slots share a side |
| GridMapping.ColumnLookup | common_adapter/query/sampled_grid.py:832-894 | looking a role up by column gives what looking it up in each row gives, or what a column with an empty name holds |
| GridMapping.PlacementEqualIff | common_adapter/query/sampled_grid.py:846-885 | two ways of placing a cell agree exactly when the indexes give the whole of the other one's box, or neither has anything to place it by |
| GridMapping.ColumnsEqualRowsIff | common_adapter/query/sampled_grid.py:550-933 | for every packet on the fast path the column mapper gives the row mapper's frame exactly when every row's values, resolution and placement agree |
| GridMapping.OtherPackets | common_adapter/query/sampled_grid.py:789-829 | a packet is refused exactly when the count is negative or a column has another length; one that is not, but lacks an index column, complete geometry or undotted paths, is mapped row by row |
| GridMapping.NullResolutionDiffers | common_adapter/query/sampled_grid.py:847-854 | a null resolution next to a single advertised one maps differently |
| GridMapping.PartlyPlacedDiffers | common_adapter/query/sampled_grid.py:862-885 | a cell with a row index only has a northern edge from the column mapper and none from the row mapper |
| GridMapping.UsualRowAgreesIff | common_adapter/query/sampled_grid.py:832-885 | without bounds of its own and without an empty column name, a row agrees exactly when its resolution is a number or left to the single advertised one, and its cell is placed completely or not at all |
| GridMapping.StatedBoundsIff | common_adapter/query/sampled_grid.py:623-638 | a row that states its bounds is placed alike exactly when its indexes give that very box; if they do not the frames differ |
| GridMapping.StatedBoundsDiffer | common_adapter/query/sampled_grid.py:623-638 | a packet whose row states other bounds than its indexes give |
| GridMapping.EmptyColumnNameIff | common_adapter/query/sampled_grid.py:832-839 | a column with an empty name is read as every unmapped role: role by role the mapped values agree exactly when it holds what the row mapper looks up; if one differs the frames do |
| GridMapping.EmptyColumnNameDiffers | common_adapter/query/sampled_grid.py:832-839 | a packet whose column without a name is taken for the identity |
| ShardAssembly.SampledGridFrameAssembler.AddShard | common_adapter/query/sampled_grid_paging.py:511-520 | a shard is added once and only with its planned number of rows |
| ShardAssembly.SampledGridFrameAssembler.Finish | common_adapter/query/sampled_grid_paging.py:522-558 | reports missing shards, else stitches in plan order whatever the order of adding |
| ShardAssembly.PagesListWindow | common_adapter/query/sampled_grid_paging.py:522-558 | accepted pages in plan order are the row-major listing of the whole window |
| ShardAssembly.StitchedIff | common_adapter/query/sampled_grid_paging.py:530-558 | parts are stitched exactly when their frames merge into as many cells as the window has, no two with one identity, and which error they get otherwise |
| ShardAssembly.EveryCellOnce | common_adapter/query/sampled_grid_paging.py:418-429 | in such a listing every cell of the window stands at exactly one position |
| ShardAssembly.StitchRefinesPlainRead | common_adapter/query/sampled_grid_paging.py:504-558 | the stitched frame is the mapping of that listing; it fails only on disagreeing hoisting or equal cell identities |
| ShardAssembly.UnmappedIdentityIff | common_adapter/query/sampled_grid_paging.py:538-549 | with no mapped identity, accepted pages are stitched exactly when they hoist alike and a column named cell_id or id, or failing both the request's value, differs from row to row |
| ShardAssembly.UnmappedIdentityFails | common_adapter/query/sampled_grid_paging.py:544-546 | with no mapped identity, no window with two rows that carry neither column can be stitched |
| TwoCellStitches.PlainCellsStitchIff | common_adapter/query/sampled_grid_paging.py:522-558 | two cells on two pages of the planner's own plan are stitched exactly when their dates agree and their rows tell them apart |
| TwoCellStitches.ThreeWindows | common_adapter/query/sampled_grid_paging.py:522-558 | three such windows: rows that name their cells in no way fail, rows with an unmapped cell_id are stitched, rows that also have a date each fail |
| ShardLoading.ShardOfItsWindow | common_adapter/query/sampled_grid_paging.py:262-300 | a planned shard is determined by its source window, so shards cached for one viewport serve another |
| ShardLoading.ShardKey | common_adapter/endpoint/sampled_grid.py:454-469 | a cached shard's key stands for the answer of the window its text names |
| ShardLoading.CachedShardWeighs | common_adapter/query/snapshot_cache.py:30-38 | a cached shard weighs as many rows as its frame has |
| ShardLoading.LoadShard | common_adapter/endpoint/sampled_grid.py:639-729 | a shard, cached or fresh, is the source's answer for its window, and the cache stays right |
| ShardLoading.LoadShards | common_adapter/endpoint/sampled_grid.py:731-752 | in any order of completion all answers are collected, or a failing shard's error is raised |
| ShardLoading.Assemble | common_adapter/endpoint/sampled_grid.py:753-789 | all shards missing give an empty frame, some missing an error, none the stitched frame |
| ShardLoading.LoadPaginatedSnapshot | common_adapter/endpoint/sampled_grid.py:611-822 | whatever is cached and whichever shard finishes first, the request gives the source's stitched answer, the plan's error or a failing shard's |
| ShardLoading.AnswersIffServed | common_adapter/endpoint/sampled_grid.py:647-722 | every shard answers with cells exactly when the source sends each window's row-major listing with matching metadata |
| ShardLoading.ShardedReadRefinesPlainRead | common_adapter/endpoint/sampled_grid.py:611-822 | with every shard answered the result is the mapping of the row-major listing of the snapped window, exactly when hoisting agrees and identities differ |
| ShardLoading.SameRowsAsOneRead | common_adapter/endpoint/sampled_grid.py:611-822 | a source that determines rows by cell gives, shard by shard, the rows of one read |
| CellsInShards.PlannedInGeometry | common_adapter/query/sampled_grid_paging.py:155-213 | a request is planned in the mapping's geometry over the coverage's bounds, if the page size is positive and the geometry is indexed and complete, and refused otherwise |
| CellsInShards.ReadCellIsPlaced | common_adapter/endpoint/sampled_grid.py:611-822 | position by position, the rows of a sharded read are mapped into the slots of the planned window, row by row |
| ConcurrentLoads.ShardLoaderIsExact | common_adapter/endpoint/sampled_grid.py:639-729 | the loader of a shard returns, or raises, what the key of its window determines |
| ConcurrentLoads.ShardCallsAnswer | common_adapter/endpoint/sampled_grid.py:639-729 | under any interleaving with other calls, expiry, eviction and clearing, a finished call for a shard has the source's answer for its window |
| ConcurrentLoads.ConcurrentShardsAnswer | common_adapter/endpoint/sampled_grid.py:731-752 | so the calls of a sharded read hand the assembler exactly the answers of the plan, and one raises exactly when a window fails, with that window's error |
| ConcurrentLoads.ConcurrentRead | common_adapter/endpoint/sampled_grid.py:731-789 | the whole request among other threads: collected in any order of completion, its calls give the stitched answer of the source, or the first failing window's error |
| ConcurrentLoads.SnapshotLoaderIsExact | common_adapter/endpoint/sampled_grid.py:853-970 | the loader of a snapshot, its lookups made at any moments of the run, returns or raises what the requested key determines |
| ConcurrentLoads.SnapshotCallsAnswer | common_adapter/endpoint/sampled_grid.py:853-978 | under any interleaving a finished call for a snapshot has the reference answer of the resolution it asked for |
| AisMerge.FlushIsUpserts | common_adapter/ais/ingest.py:843-848 | the order in which a flush writes its rows does not matter |
| AisMerge.AisIngestWorker.UpsertLatestRows | common_adapter/ais/ingest.py:935-985 | the rows are upserted one after the other, and counted as written or as stale |
| AisMerge.SkippedIff | common_adapter/ais/ingest.py:892-985 | a row is skipped, and changes nothing, exactly when its vessel is stored with something newer of every kind that it carries; any other row leaves its receipt |
| AisMerge.AisIngestWorker.Consume | common_adapter/ais/ingest.py:825-850 | the receive loop reaches the state of the fold over its ticks, flushed by size or by time; a buffered update is always its own vessel's |
| AisMerge.FlushScheduleIndependence | common_adapter/ais/ingest.py:825-985 | at every moment of every run, whenever flushes happen, position time, place, static time and name are those of applying each message directly |
| AisMerge.LatestPositionWins | common_adapter/ais/stream.py:279-302 | the latest event time wins, ties go to the later message |
| AisMerge.LatestNameWins | common_adapter/ais/stream.py:279-302 | the same for the name |
| AisMerge.PositionFields | common_adapter/ais/stream.py:279-302 | a position that is not older sets time, place and each of speed, course and heading it carries; the others stay; an older one changes nothing |
| AisMerge.TimesNeverGoBack | common_adapter/ais/ingest.py:892-933 | stored event times never go back |
| AisSchedules.RunIsBatches | common_adapter/ais/ingest.py:825-850 | a run is its batches: the stored row is that of the flushed ones, the buffer holds the open one, and direct application does not see the cuts |
| AisSchedules.PendingIsApplied | common_adapter/ais/ingest.py:825-985 | what a vessel's row is after a run, the buffer taken into account, is each batch merged and then upserted, in turn |
| AisSchedules.FreshEntriesIndependence | common_adapter/ais/ingest.py:825-985 | if no position that opens a batch is older than the stored one, the whole position record is that of direct application at every moment, whatever comes out of order after it |
| AisSchedules.InOrderIndependence | common_adapter/ais/ingest.py:825-985 | positions in order are such a case |
| AisSchedules.FieldFlushIff | common_adapter/ais/stream.py:279-302 | one flush gives speed, course or heading their directly applied value unless a stale record carried another value and no accepted record after it carries any |
| AisSchedules.FieldIsDecided | common_adapter/ais/stream.py:279-316 | over any batches a field has its directly applied value unless a stale value surfaces, and then it has that one |
| AisSchedules.FieldScheduleIff | common_adapter/ais/ingest.py:825-985 | after any run, under any schedule, a field has its directly applied value exactly when no stale value surfaces through a batch, or only the same one |
| AisSchedules.StaleSpeedSurfaces | common_adapter/ais/ingest.py:825-985 | two messages a worker can receive leave the stored speed under one schedule and a stale one under another |
| AisSchedules.ReceiptFlushIff | common_adapter/ais/ingest.py:892-933 | one flush stores the receipt time, and likewise the source, of direct application exactly when no message of the batch changes the row or the last one that does has that of the message received last |
| AisSchedules.ReceiptScheduleIff | common_adapter/ais/ingest.py:825-985 | after any run, under any schedule, they are those of direct application exactly when no message changes the row or this holds of the last batch with one that does |
| AisSchedules.ReceiptDependsOnFlush | common_adapter/ais/ingest.py:927-933 | the same two messages leave different receipt times and sources under two schedules, for any stored row |
| AisSnapshots.SnapshotTimeIsCeiling | common_adapter/ais/ingest.py:742-756 | the snapshot time is the least point of the day grid at or after the event, less than one interval away, so there always is one |
| AisSnapshots.SameSnapshotIff | common_adapter/ais/ingest.py:742-756 | if the interval divides the day, a later event has the same snapshot exactly when it is not after that snapshot |
| AisSnapshots.SnapshotsGoBack | common_adapter/ais/ingest.py:742-756 | with an interval of five hours an event at midnight has an earlier snapshot than one an hour before |
| AisSnapshots.OneOffer | common_adapter/ais/ingest.py:987-1083 | a message within the window of its snapshot sets a missing or more distant row to its own time, place, distance, source and optional fields, those it lacks staying; any other leaves the row alone |
| AisSnapshots.AisSnapshotTable.UpsertSnapshotRows | common_adapter/ais/ingest.py:1028-1083 | upserts the offered rows one after the other, and counts as skipped exactly those that offer nothing or nothing nearer |
| AisSnapshots.NearestRowIsKept | common_adapter/ais/ingest.py:987-1083 | each snapshot keeps the least distance ever offered, with the time and place of the first row that attained it |
| AisSnapshots.UpsertsStayNear | common_adapter/ais/ingest.py:987-1083 | every stored row lies under the snapshot time of its own event, within the window |
| AisSnapshotSchedules.FlushIsStored | common_adapter/ais/ingest.py:843-849 | the order in which a flush offers its rows does not matter |
| AisSnapshotSchedules.SnapshotsAreBatches | common_adapter/ais/ingest.py:825-850 | after any run, under any schedule, a vessel's snapshots are those of its flushed batches, each merged and then offered |
| AisSnapshotSchedules.SnapshotScheduleIff | common_adapter/ais/ingest.py:825-1083 | flushing never gets nearer than offering each message by itself, and as near exactly when nothing was offered, the stored row was as near already, or a nearest message was flushed in a batch whose latest position has the same snapshot |
| AisSnapshotSchedules.SurvivesIff | common_adapter/ais/ingest.py:742-756 | if the interval divides the day, that last condition is that nothing flushed with it is later than the snapshot |
| AisSnapshotSchedules.SnapshotPlaceIndependence | common_adapter/ais/ingest.py:987-1083 | a snapshot that gets as near has the same time and place, if its nearest messages agree on them |
| AisSnapshotSchedules.SnapshotDependsOnFlush | common_adapter/ais/ingest.py:825-1083 | two messages on either side of a snapshot leave it a row under one schedule and none under another |
| AisSnapshotSchedules.AroundOneOClock | common_adapter/ais/ingest.py:825-1083 | two such messages, with a snapshot every hour |
| ConfigMerge.MergeInPlace | common_adapter/config/contracts.py:36-47 | the merging loop computes the right-biased deep merge, in any order of keys |
| ConfigMerge.CoveredIff | common_adapter/config/contracts.py:36-47 | merging under an object changes nothing of it exactly when it covers what lies below |
| ConfigMerge.AssociativeIff | common_adapter/config/contracts.py:36-47 | deep merge associates exactly when no object hidden by another kind of value resurfaces uncovered |
| ConfigMerge.ObjectScalarObject | common_adapter/config/contracts.py:36-47 | an object, a plain value and an object under one key do not associate |
| ConfigMerge.FoldAssociates | common_adapter/config/contracts.py:112-117 | without shape conflicts, merging a folded list is folding on |
| ConfigAssembly.LoadAssembledConfig | common_adapter/config/contracts.py:101-121 | the recursive loader terminates on every include graph with the specified result |
| ConfigAssembly.LoadedConfig | common_adapter/config/contracts.py:61-121 | a loaded configuration names its path and its fragments in order, the router manifest's for the root if it lists any, keeps its own values over theirs and drops the keys that only describe a file |
| ConfigAssembly.LoadsIff | common_adapter/config/contracts.py:101-121 | loading succeeds exactly when every include chain leads to readable files and repeats none |
| ConfigAssembly.CycleErrorIff | common_adapter/config/contracts.py:104-107 | when every file that include chains from the root reach can be read, the cycle error is raised exactly when one of them repeats a file |
| ConfigAssembly.RankedLoads | common_adapter/config/contracts.py:101-121 | an include graph loads, diamonds included, if the files that chains from the root reach can be read and ranked above what they include |
| ConfigAssembly.AssemblyIsFlatFold | common_adapter/config/contracts.py:101-121 | without shape conflicts, nested assembly is a flat fold of the own payloads, includes first |

## Left out

- Floating point: slots, indexes and bounds are exact reals; the 1e-7 alignment tolerances are exact alignment, the 1e-9 slot epsilon is kept.
- HTTP, JSON, SQL and threads themselves: sources are functions of what they are asked and, where they are retried, of the attempt; tables are maps with exact timestamps, a locked section is one step.
- Timing fields, backoff sleeps, `wait_for_change` timeouts and the degrade reason: they carry no result.
- Value hashing in `SnapshotCachePolicy.key`, fnmatch patterns of data statuses, date parsing: values are compared as they are, the status mapping is an arbitrary function, timestamps are integers. JSON booleans are not modelled.
- `QueryBatchExecutor.close()` and the size of the thread pool: a submitted job may start at any time.
- SingleFlight.CacheTransparency: calls with a disabled policy are not among its steps; they go straight to the loader (`GetOrLoad`).
- SnapshotCache.CanonicalSnapshotCache.GetOrLoad: only for a caller that finds no load in flight, with nothing between its two locked sections; joining a load and interleaving are the steps of `SingleFlight`.
- ResolutionFallback.LoadCandidates: no other thread acts on the cache between its lookups; `LoadWithIsAnswer` and `ConcurrentLoads.SnapshotLoaderIsExact` cover the loop among other threads.
- ResolutionFallback.LoadCanonicalSnapshot: the same; `ConcurrentLoads.SnapshotCallsAnswer` covers the request among other threads. It uses a cache of its own payload type, and so do sharded reads; their keys differ by the shard role.
- ShardLoading.LoadShard: the pages are in row form; for the column form `ValidateColumns` and `ColumnsEqualRowsIff` give the connection. Retries are not modelled, the outcome of a window being fixed.
- ShardLoading.LoadShards: shards are loaded one after the other in an arbitrary order of completion; `ConcurrentLoads.ConcurrentShardsAnswer` covers them among other threads. An error ends the loop; the cancelling of jobs that have not started is not modelled.
- ShardLoading.LoadPaginatedSnapshot: the same two restrictions, on pages and on interleaving.
- BatchProgress.Scan: no permit is released while the queue is scanned; with releases in between the scan is the step-by-step one of `BatchProtocol`.
- ShardPlanning.PlanShards: the text checks on pagination mode, stable order and window parameters come first in the source and are not modelled; some errors that the source words differently share one message.
- GridMapping.MapColumns: the row count is always given, as its caller does; rows that are no mappings are filtered out before, and JSON booleans are not modelled.
- GridFrames.MatchingComposes: `intersecting` is a selection by an arbitrary test of the frame's row; its arithmetic on bounds is not modelled. `canonical_grid_frame_from_rows` is not part of this model.
- The compilation of mappings: what it guarantees (unreserved, distinct extension names, no blank paths) is assumed as `GridMapping.Compiled`. The older mapper of single rows is not part of this model.
- AisMerge.FlushScheduleIndependence: the normalization of raw messages; what it guarantees is the shape of `Update`. All optional columns are taken to be configured. The collector's status table, reconnects and the handoff file are not part of this model.
- AisSnapshots.NearestRowIsKept: pruning of old snapshots; like the latest state, a snapshot's optional fields may come from an earlier row.
- ConfigAssembly.LoadAssembledConfig: a file's references are given in order and already resolved; the grouping of references in `_iter_config_refs` and path resolution are not part of this model.
- Coverage choice, request planning, records and tiles, the developer console, the browser code and the other small caches.
