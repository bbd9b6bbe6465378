# fscache verification

A Dafny 4.11 model of the stateful core of fscache, the predictive SSD cache in front of a slow
backing store, with proofs about it. `dafny verify dfyconfig.toml` checks everything.

What is modelled, one module per component:

- **The copy pipeline** (`src/cache/io.rs`). `Pipeline` holds the queue, the `known` map and the abort
  controls: the meaning of each critical section as a change of one value, and a class that performs
  it in place. `Protocol` lets submissions, the dispatcher, the workers, expiry, aborts and restarts
  interleave freely, one critical section or table write at a time. `DispatchOrder`, `DeferredRows`
  and `AbortIsolation` prove what holds over every run of it.
- **Cache coherence** (`src/cache/io.rs`, `src/cache/manager.rs`). `CopyLoop` is one copy against a
  backing path that may change at any instant. `Coherence` puts the pipeline together with the backing
  store, the cache directory, the rows and everyone who touches them, interleaved at the grain of
  single calls, and proves that a fresh answer means equal bytes. `CoherenceLimits` proves exactly when
  it does, from the number of permits, the name and the origin of the row, with runs from an empty
  process for every case that fails. `Backing` and `CacheRows` hold the shared vocabulary.
- **Eviction, sweeps and reconciliation** (`src/cache/manager.rs`, `src/cache/db.rs`). `CacheTable` is
  the table shared by all mounts; `CacheManager` works on it in place.
- **Validation** (`src/cache/io.rs`): `Validation` is what the validate worker does with each answer.
- **The inode table** (`src/fuse/inode.rs`). `Inodes` holds the table and its renames, `RenameOrder`
  says exactly when the iteration order of a rename matters, `InodeRuns` what holds over whole runs.
- **The event machines**: `Debounce` (`src/backing_watch.rs`) and `AccessFilter` (`src/engine/action.rs`).
- **Prediction and traversal**: `StableSort` and `Prediction` (`src/prediction_utils.rs`), `Traversal`
  (`src/presets/prefetch.rs`).

Conventions. A path is a sequence of components; the mount root is the empty one. Integers are
unbounded except where the source saturates (refcounts stop at the 64-bit maximum, subtractions at
zero). A hash map's iteration order is an arbitrary order, kept as a ghost sequence where the result
could depend on it. What the outside world decides enters as a parameter: the time, whether the
caching window is open, whether a system call succeeds (`stuck` is the set of files that cannot be
deleted), what a stat or a listing returns, how names parse. Three fields have no counterpart in the
source and decide nothing: `ticket` numbers submitted jobs, `first` and `since` number the input that
opened a window or a wait.

Where the code and its comments differ, the model follows the code:

- `expire_stale` calls the queue ordered by enqueue time (src/cache/io.rs:256-259). That rests on the
  order in which `load_deferred` returns its rows (src/cache/db.rs:458-477), and its query has no ORDER
  BY. `Pipeline.ExpiryIsFilterIff` shows that a sorted queue is exactly what expiry needs, and
  `DispatchOrder.SweepIsFilter` shows that every run whose restarts load oldest first has one.
- A deferred TTL of 0 switches expiry off (src/cache/io.rs:261-263), but at start-up the same 0 loads
  only rows whose timestamp is not before the current second (src/cache/db.rs:459). `Protocol` has both.
- `known` is described as airtight (src/cache/io.rs:52-58). It is, per (path, kind):
  `Protocol.RunExclusive`. A populate and a replace of one path may still run together when there is
  more than one permit, and `CoherenceLimits.PermitsDecide` shows that it comes down to exactly that.

## Model

| member | source | states |
|---|---|---|
| Pipeline.ExpiredCount | src/cache/io.rs:268-271 | the count stops at the first job that is not older than the cutoff and has only older ones before it |
| Pipeline.PopIndex | src/cache/io.rs:352-360 | with the window closed the first validation is taken, if any; with it open, the front |
| Pipeline.SetFlag | src/cache/io.rs:250-252 | raises one control's flag and no other |
| Pipeline.RehydratedShape | src/cache/io.rs:109-126 | a restart queues each loaded row once, in load order with its old timestamp, and knows exactly their populate keys, none promoted |
| Pipeline.SortedExpiryIsFilter | src/cache/io.rs:256-279 | on a queue in timestamp order, dropping from the front is filtering out the old jobs |
| Pipeline.ExpiryIsFilterIff | src/cache/io.rs:256-279 | dropping from the front filters out the old jobs for every cutoff if and only if the queue is in timestamp order |
| Pipeline.MisorderBreaksExpiry | src/cache/io.rs:256-279 | a job behind a younger one outlives a sweep that should take it |
| Pipeline.ExpiryByAge | src/cache/io.rs:260-279 | in seconds: what a sweep leaves of a queue in timestamp order are the jobs at most the time-to-live, in minutes of 60 seconds, old |
| Pipeline.SubmittedIsKnown | src/cache/io.rs:192-227 | a submitted replacement or validation is known afterwards whether or not the path is cached, a populate unless the path is cached; the queue grows by exactly the newly known job, with the time of submission |
| Pipeline.PipelineState.constructor | src/cache/io.rs:68-73 | a new pipeline is empty |
| Pipeline.PipelineState.Rehydrate | src/cache/io.rs:111-126 | loading the deferred rows, skipping repeated paths, yields the rehydrated pipeline |
| Pipeline.PipelineState.Submit | src/cache/io.rs:192-227 | admits exactly the jobs that are not known, except populates of cached paths; an admitted job goes to the back of the queue and is known, anything else changes nothing |
| Pipeline.PipelineState.MarkAbort | src/cache/io.rs:247-254 | raises the flags of the path's populate and replace in flight; no other control is even writable |
| Pipeline.PipelineState.ExpireStale | src/cache/io.rs:260-279 | removes the expired front with its keys and returns its populate paths; TTL 0 does nothing |
| Pipeline.PipelineState.PopNextJob | src/cache/io.rs:352-360 | takes the job at `PopIndex` out, keeping the others in order, and leaves `known` alone |
| Pipeline.PipelineState.Promote | src/cache/io.rs:369-377 | installs a fresh control, not aborted, under the job's key |
| Pipeline.PipelineState.FinishKnown | src/cache/io.rs:490-495 | forgets the key under the lock, before any row is deleted |
| Protocol.InitExclusive | src/cache/io.rs:67-74 | a new process satisfies the exclusivity invariant |
| Protocol.StepExclusive | src/cache/io.rs:192-377 | every step keeps the exclusivity invariant |
| Protocol.RunExclusive | src/cache/io.rs:52-65 | in every reachable state the known keys are the disjoint union of queued, held and worked keys, one job each; at most as many copy workers as permits plus one copy job held by the dispatcher; each promoted worker owns the control of its key |
| DispatchOrder.RunOrderly | src/cache/io.rs:311-348 | in every reachable state submitted jobs are conserved, tickets rise along the queue, and per kind everything dequeued or expired was submitted before everything still queued |
| DispatchOrder.EveryJobOnce | src/cache/io.rs:311-348 | each submitted job is queued, dequeued or expired exactly once; each kind is dequeued in submission order; no copy job leaves at a closed window |
| DispatchOrder.RunTimely | src/cache/io.rs:211-216 | when restarts load oldest first the queue is in timestamp order in every reachable state, removals from the middle included |
| DispatchOrder.RunSortedIff | src/cache/io.rs:111-126 | over a whole run the queue is in timestamp order in every state if and only if every restart loads oldest first |
| DispatchOrder.SweepIsFilter | src/cache/io.rs:260-279 | in any such run a sweep keeps exactly the jobs not older than the cutoff, in order, and drops exactly the keys of the others |
| DispatchOrder.SweepByAge | src/cache/io.rs:260-279 | in any such run a sweep leaves queued exactly the jobs at most the time-to-live, in minutes of 60 seconds, old |
| DeferredRows.RunAccounted | src/cache/io.rs:265-286 | with expiry and finishing split in two, in every reachable state each row young enough to be loaded belongs to a known populate key or to a deletion not yet made |
| DeferredRows.RowLostIff | src/cache/io.rs:490-499 | a step leaves a known populate key without its row exactly when it is the delayed deletion of a path that has been admitted again |
| DeferredRows.RunBackedIff | src/cache/io.rs:490-499 | over a whole run every known populate key has its row in every state if and only if no step is such a delayed deletion |
| DeferredRows.ResubmissionRace | src/cache/io.rs:490-499 | six steps from an empty process to a queued populate job that has no row |
| DeferredRows.MoveRunKeepsRows | src/cache/io.rs:210-225 | with each taken as one step, in every reachable state every populate job still owed has its row with its own timestamp and every loadable row has its key |
| DeferredRows.RestartRequeuesOwed | src/cache/io.rs:109-126 | a restart at any point of such a run requeues each unfinished, unexpired populate path once, with its timestamp, and nothing else |
| AbortIsolation.FlagRaisedIff | src/cache/io.rs:246-254 | a step raises the flag of a copy in flight if and only if it aborts that copy's path |
| AbortIsolation.OthersSpared | src/cache/io.rs:246-254 | an abort leaves the flags of copies of other paths alone |
| AbortIsolation.EarlyAbortIsLost | src/cache/io.rs:246-254 | an abort of a path with no promoted copy changes nothing |
| AbortIsolation.PromotionStartsClear | src/cache/io.rs:369-377 | promotion installs a control whose flag is down |
| AbortIsolation.AbortThenValidate | src/backing_watch.rs:354-360 | for a cached path the watcher leaves a validation known and raises the flags of exactly the copies of that path in flight; a path that is not cached is left alone |
| AbortIsolation.AbortedSincePromotionIff | src/cache/io.rs:246-254 | over whole runs a copy's flag is up if and only if its path was aborted since its own promotion |
| CopyLoop.ReadsAreAPrefix | src/cache/io.rs:602-613 | if the path shows one mtime at open and at the final stat, what any number of passes has read is a prefix of that one version |
| CopyLoop.CommitsIff | src/cache/io.rs:552-653 | a copy commits if and only if every call succeeds, the file is read to its end, no abort is seen, and the path is gone or shows the mtime and size it showed at opening |
| CopyLoop.CommitIsOneVersion | src/cache/io.rs:602-653 | for any interleaving of backing writes with the chunk loop, a copy that commits and finds the file at its final stat publishes exactly the bytes of the one version it fingerprints |
| CopyLoop.OneVersionIff | src/cache/io.rs:626-647 | for every history of the path, instant of opening and instant of the final stat: each copy that commits publishes the version it opened if and only if that stat finds the file |
| CopyLoop.GoneMidwayCommits | src/cache/io.rs:632-647 | the concrete witness: a copy whose file is gone at the final stat commits bytes of no version |
| CopyLoop.CacheDir.PerformCopy | src/cache/io.rs:552-569 | a commit returns what the path shows at the final stat, attributes included, or what it showed at opening if it is gone; the destination then holds the data and no working file is left; otherwise every other file is as it was, and no working file is left when the clean-up delete works |
| CopyLoop.CacheDir.PerformCopyInner | src/cache/io.rs:571-662 | the chunk loop writes what it read, in order; each failure returns before the rename; a commit returns the final stat's metadata if there is a file |
| CacheRows.RefreshKeepsAnswer | src/cache/manager.rs:181-200 | a metadata refresh never changes what the staleness check answers, now or later |
| CacheRows.CachedRowAnswers | src/cache/manager.rs:161-178 | a row written from one stat is fresh against another if and only if there is one with the same mtime and size; the other answers are fixed too, whatever the attributes |
| CacheRows.RefreshedRow | src/cache/manager.rs:181-200 | a refresh leaves a fingerprinted row whose content matches with the live attributes, any other row as it was, and size, mtime and access columns alone |
| CacheRows.HitKeepsAnswer | src/cache/db.rs:285-294 | a hit changes the access columns only |
| Coherence.CopyStepCoherent | src/cache/io.rs:571-653 | every call a copy makes keeps the coherence invariant |
| Coherence.BackingEventCoherent | src/cache/io.rs:626-641 | any change, removal or attribute change of a backing file keeps it |
| Coherence.RefreshWriteCoherent | src/cache/manager.rs:181-200 | the delayed write of a refresh keeps it, whatever replaced the row meanwhile |
| Coherence.PipeCoherent | src/cache/io.rs:192-377 | every step of the pipeline keeps it, restarts included |
| Coherence.EventCoherent | src/cache/io.rs:571-662 | every event keeps it |
| Coherence.FreshMeansEqualBytes | src/cache/manager.rs:149-178 | with at most one permit, in every reachable state: if the check answers fresh for a row a copy wrote and at most refreshes touched, the cache file, if present, holds exactly the bytes the backing path shows |
| Coherence.InstalledIsOneVersion | src/cache/io.rs:632-653 | with at most one permit, in every run, an install whose final stat found the file publishes the bytes of the one version whose mtime and size it goes on to record |
| Coherence.RowRecordsCheck | src/cache/io.rs:626-648 | over whole runs the row a copy writes records exactly what the path showed at its check, attributes, size and mtime |
| Coherence.CheckPassesIff | src/cache/io.rs:626-641 | a copy passes its check if and only if no abort has landed and the path, if still there, shows the mtime and size it showed at opening |
| Coherence.OnlyInstallReplaces | src/cache/io.rs:552-653 | only the rename of its own copy or a deletion ever changes a cached file |
| Coherence.AbortPreventsCommit | src/cache/io.rs:626-641 | with any number of permits, an abort that lands after promotion and before the check keeps that copy from ever passing it |
| CoherenceLimits.GuaranteeIff | src/cache/io.rs:337-347 | for every number of permits and every file: in every run a fresh answer for a row a copy wrote means equal bytes if and only if there is no permit, or one permit and the file is not named like a working file, that is, has no extension `partial` |
| CoherenceLimits.PermitsDecide | src/cache/io.rs:337-347 | the guarantee holds for every file that is not named like a working file if and only if there is at most one permit |
| CoherenceLimits.NameDecides | src/cache/io.rs:664-668 | with one permit the guarantee holds for a file if and only if it has no extension `partial` |
| CoherenceLimits.OriginDecides | src/utils.rs:29-35 | with recovered and backfilled rows counted in, the guarantee holds for a file if and only if nothing can ever be copied, or there is one permit and start-up leaves the file out of its walk without any copy working under its name |
| CoherenceLimits.NeverRecovered | src/cache/db.rs:407-431 | in every run a file that start-up leaves out has no row but one from a copy, and no refresh of another origin |
| CoherenceLimits.NeverNeedsBackfill | src/cache/manager.rs:161-178 | with at most one permit the check never asks for a backfill of such a file |
| CoherenceLimits.TwoPermitsReachTear | src/cache/io.rs:337-347 | any number of permits above one leads from an empty process to two copies of one path that have both opened it: a cached file goes stale, its replacement opens it, the old file and row are evicted, and the path is populated |
| CoherenceLimits.TwoPermitsTear | src/cache/io.rs:596-653 | from there a run leads to a torn file under a row that answers fresh |
| CoherenceLimits.ManyPermitsBreak | src/cache/io.rs:596-653 | so with more than one permit every file has a run from an empty process that breaks the guarantee |
| CoherenceLimits.WorkingNameBreaks | src/cache/io.rs:596-600 | every file with extension `partial` has a run from an empty process, with any positive number of permits, in which the copy that works under its name truncates it while its row answers fresh |
| CoherenceLimits.RecoveredRowLies | src/cache/db.rs:407-431 | a run from an empty process for every file the start-up walk collects: a copy is cut off between install and row, the path changes, the file is adopted and backfilled, and its row answers fresh over the old bytes |
| CacheTable.VictimsAreShortestPrefix | src/cache/manager.rs:335-351 | what an eviction takes is a prefix of the deletable rows in LRU order that frees enough or is all of them, and no shorter prefix does |
| CacheTable.SumOfRemoved | src/cache/db.rs:361-370 | removing listed rows lowers the global sum by exactly their sizes |
| CacheTable.EvictionEffect | src/cache/manager.rs:291-310 | an eviction spares other mounts, accounts for every byte, and ends within its target or with nothing deletable left, for any pattern of failing deletes |
| CacheTable.OldestGoFirst | src/cache/manager.rs:291-310 | whichever row an eviction takes, it takes every deletable row hit before it |
| CacheTable.NoneGoNeedlessly | src/cache/manager.rs:291-353 | nothing goes from a table within the target, only deletable rows go, and with the newest of them put back the sum would be above the target |
| CacheTable.OneCandidateList | src/cache/db.rs:307-325 | without ties in `last_hit_at` there is only one candidate list |
| CacheTable.AllMountsWithin | src/cache/manager.rs:269-320 | one run on each row-owning mount, in any order, with no inserts between, brings the global sum within the budget |
| CacheManager.EvictionBringsWithin | src/cache/manager.rs:269-320 | a run whose deletes succeed leaves the global sum within the budget or its mount without rows |
| CacheManager.ExpiredGoFirst | src/cache/manager.rs:269-320 | an eviction takes every deletable row hit longer ago than the expiry, and others only if the sum without those is above the budget, oldest first |
| CacheManager.FitMakesRoom | src/cache/manager.rs:325-353 | afterwards the pending bytes fit, or nothing is left to count or to delete; nothing goes if they fitted before, and no row goes needlessly or before an older one |
| CacheManager.FitZeroIsSizePhase | src/cache/manager.rs:291-353 | making room for 0 bytes leaves the same rows as the size phase, whichever deletes fail, given the same order of ties |
| CacheManager.Manager.EvictionCandidates | src/cache/db.rs:307-325 | returns every row of the mount once with its size, oldest hit first |
| CacheManager.Manager.TotalCachedBytesGlobal | src/cache/db.rs:361-370 | returns the byte sum of all mounts |
| CacheManager.Manager.EvictExpired | src/cache/manager.rs:274-289 | a row goes if and only if it is the mount's, was hit longer ago than the expiry, and its file can be deleted; returns exactly the bytes these counted for |
| CacheManager.Manager.EvictIfNeeded | src/cache/manager.rs:269-320 | within the budget exactly the deletable rows past their expiry go; above it others follow, oldest first, only as far as the budget needs; each file goes with its row, the sum drops by exactly the bytes reclaimed, other mounts are untouched, and with working deletes no expired row is left and the budget holds or the mount is empty |
| CacheManager.Manager.EvictToFit | src/cache/manager.rs:325-353 | removes the shortest LRU prefix of the deletable rows that lets the pending bytes fit in the budget, or all of them, each with its file, and returns exactly the bytes removed |
| CacheManager.Manager.SweepStale | src/cache/manager.rs:236-256 | a row of the mount stays if and only if its file is there and it has no fingerprint or one matching in mtime and size; then it ends up with what the file shows; files go with dropped rows where they can be deleted, and both counts are right |
| CacheManager.Manager.RefreshSourceMetadata | src/cache/manager.rs:181-200 | writes only when the row's content still matches and its attributes differ |
| CacheManager.Manager.DropStale | src/cache/manager.rs:205-224 | the row goes even when its file cannot be deleted |
| CacheManager.Manager.ReconcileWithDisk | src/cache/db.rs:376-441 | a file goes if and only if it has extension `partial` and can be deleted; rows stay, unchanged, if and only if something remains under their path, and each collected file without a row gets one |
| CacheManager.SweepSettlesIff | src/cache/manager.rs:236-256 | while the backing store stands still a second sweep drops nothing; the rows left all check fresh if and only if all their files show a nonzero mtime, and that is also exactly when no later sweep changes a row |
| CacheManager.ReconciledRows | src/cache/db.rs:376-431 | the reconciled rows are the old ones whose files exist, unchanged, plus one zero-fingerprint row for each collected file without one; other mounts are untouched |
| CacheManager.ReconcileSettles | src/cache/db.rs:376-431 | reconciling again on the unchanged disk changes nothing, and no file with extension `partial` is left |
| CacheManager.ReconciledFollows | src/cache/db.rs:376-431 | the same from the files before the call, with size, time and missing fingerprint of each new row |
| CacheManager.PartialsGone | src/cache/db.rs:791-807 | removing working files takes exactly the deletable files with that extension and keeps the sizes of the others |
| Validation.Validator.Validate | src/cache/io.rs:509-520 | changed content leaves row and file alone and a replacement known, queued if it was not; a path that is gone loses its row and, if that can be deleted, its file; any other tracked row ends up with what the path shows; the validation itself is no longer known |
| Paths.NamesByStem | src/utils.rs:29-35 | which names have extension `partial` and which the start-up walk leaves out |
| Inodes.RenameOrderIndependent | src/fuse/inode.rs:57-86 | between incomparable paths every iteration order of the hash map gives the one closed-form table |
| RenameOrder.OrderFreeIff | src/fuse/inode.rs:69-85 | every iteration order gives the same table if and only if the rename is onto itself or no name to be moved is where another one is moved to |
| Inodes.NestedRenameDependsOnOrder | src/fuse/inode.rs:69-85 | a concrete witness: into its own subtree two orders give two different tables |
| Inodes.RenameMovesSubtree | src/fuse/inode.rs:57-86 | every path below the old name arrives below the new one with its inode and refcount, nothing stays behind, and a stale name below the target survives exactly when no moved name lands on it |
| Inodes.RenameLeavesOthers | src/fuse/inode.rs:57-86 | names outside both subtrees keep their inodes and entries |
| Inodes.RenameRoundTrip | src/fuse/inode.rs:57-86 | with a free target, renaming there and back restores the table |
| Inodes.RenamedConsistent | src/fuse/inode.rs:57-86 | the closed form keeps the invariant |
| Inodes.RenameKeepsLinkedIff | src/fuse/inode.rs:57-86 | the two maps stay inverse to each other if and only if no moved name lands on a stale one |
| Inodes.RenameConsistentIff | src/fuse/inode.rs:57-86 | a rename in any order, nested ones included, keeps the invariant unless it puts a tracked path onto the root, and then it does not |
| Inodes.WithoutAllIsSet | src/fuse/inode.rs:88-101 | removing names one at a time in any order removes them and their inodes at once |
| Inodes.WithoutSubtreeConsistent | src/fuse/inode.rs:88-101 | removing a subtree keeps the invariant |
| Inodes.ApplyConsistent | src/fuse/inode.rs:48-138 | every operation keeps the invariant, does not panic, and issues a number only when it makes an entry |
| Inodes.RunsAreSafe | src/fuse/inode.rs:22-138 | over every sequence of operations: each path's inode names it back, no two paths share one, the root stays 1, no lookup panics, and issued numbers strictly rise |
| Inodes.InodeTable.constructor | src/fuse/inode.rs:22-38 | a new table holds the root alone |
| Inodes.InodeTable.GetOrCreate | src/fuse/inode.rs:106-123 | returns the path's inode with one more reference, or a number never used before with one; every other name and inode is as it was; keeps the invariant |
| Inodes.InodeTable.RemovePath | src/fuse/inode.rs:48-55 | removes the name and its inode; the root is refused |
| Inodes.InodeTable.RenamePath | src/fuse/inode.rs:57-86 | the table afterwards is the rename in the order met, and its closed form between incomparable paths |
| Inodes.InodeTable.RemoveSubtree | src/fuse/inode.rs:88-101 | exactly the names at or below the path go, with their inodes; the others keep inode and entry |
| Inodes.InodeTable.Forget | src/fuse/inode.rs:126-138 | with references left only the count drops; with none left the entry goes, and whatever inode its path maps to by then loses that name; the root and unknown numbers change nothing |
| InodeRuns.ForgetTakesOwnNameIff | src/fuse/inode.rs:126-138 | the last forget of an inode takes no other inode's name if and only if its own name has not been taken over |
| InodeRuns.ForgetOrphans | src/fuse/inode.rs:106-138 | otherwise the inode that took the name over stays without it, and the next lookup of the path issues a second number |
| InodeRuns.PartialForgetKeeps | src/fuse/inode.rs:126-138 | a forget that returns fewer references than an inode has keeps it, its path and every name, and changes no other inode |
| InodeRuns.PresenceStep | src/fuse/inode.rs:48-138 | an inode outlasts an operation if and only if that neither takes its name nor returns all its references |
| InodeRuns.PresentIff | src/fuse/inode.rs:106-138 | over every run, as long as no step takes its name, an issued inode is in the table if and only if the lookups it answered exceed what forgets have given back |
| InodeRuns.StepKeepsLinkedIff | src/fuse/inode.rs:48-138 | an operation on inverse maps leaves them inverse if and only if it is not a colliding rename |
| InodeRuns.RunLinkedIff | src/fuse/inode.rs:48-138 | over every run the maps have been inverse so far if and only if no rename has collided so far |
| InodeRuns.RefcountIsBalance | src/fuse/inode.rs:106-138 | over every run, through renames and removals, the refcount of an inode is its lookups less its forgets, and positive |
| Debounce.WorstIsMaximum | src/backing_watch.rs:42-50 | the severity of a window is an upper bound of its events' severities that one of them attains |
| Debounce.WorstByFlags | src/backing_watch.rs:293-305 | a window reports a deletion if some event of it carries the flag of a deletion or a move away, else a modification, else a change of attributes, else an appearance |
| Debounce.EveryEventDispatchedOnce | src/backing_watch.rs:147-168 | over any sequence of events and ticks: once a tick comes a full window after a recorded event, exactly one dispatch of its entry covers it, made at the first tick not before the deadline its window's first event fixed, with the highest severity of that window |
| Debounce.NamedEventsDispatched | src/backing_watch.rs:279-324 | in terms of raw events: every named event of a known watch is so covered, under the watched directory's inode and that name; other events leave no trace |
| Debounce.Debouncer.HandleEvent | src/backing_watch.rs:279-324 | opens a window or merges into it, keeping its deadline; nameless events and unknown watches are ignored |
| Debounce.Debouncer.DrainTick | src/backing_watch.rs:147-168 | dispatches each due window once and keeps the others |
| AccessFilter.PendingCounts | src/engine/action.rs:127-188 | over any sequence: while a path waits, its handle count is 1 plus later accepted opens minus closes and positive, and its byte count is the sum of those closes |
| AccessFilter.PromotedOnceAsPrescribed | src/engine/action.rs:129-209 | over any sequence: each wait ends once, at the first due tick and then promoted, or at the close of its last handle and then promoted if and only if its closes cover a nonempty file |
| AccessFilter.HeldOpenIsPromoted | src/engine/action.rs:195-209 | a file that stays open until a tick `min_access_secs` later is covered by exactly one wait, promoted by that tick |
| AccessFilter.SubmitCandidates | src/engine/action.rs:252-287 | submits the uncached candidates before the first one that would exceed the budget, the first of them always |
| AccessFilter.RoundWithinBudget | src/engine/action.rs:268-284 | whatever is taken beyond the first file keeps the total within the budget, and the stopping point is unique |
| AccessFilter.RoundTakesAll | src/engine/action.rs:252-287 | without a budget, or when everything fits, every uncached candidate is taken; the first one always is |
| AccessFilter.Filter.OnAccess | src/engine/action.rs:121-188 | an open below the size floor changes nothing; other opens wait, or are handed on where there is no gate; a close of a path that does not wait is handed on; a close of one that does takes one handle, and with the last one ends the wait, handing its event on if and only if its closes cover a nonempty file; other paths are left alone |
| AccessFilter.Filter.OnTick | src/engine/action.rs:195-209 | promotes exactly the waits that are due, each once |
| StableSort.SortIsStable | src/prediction_utils.rs:69-70 | the sort orders by key and keeps equal keys in their order |
| StableSort.SortKeepsAll | src/prediction_utils.rs:69-70 | the sort loses and adds nothing |
| StableSort.SortIsTheOnlyStableSort | src/prediction_utils.rs:69-70 | a sequence is the sort of another if and only if it is sorted and has the same elements of each key in the same order |
| Prediction.FindNextEpisodes | src/prediction_utils.rs:44-139 | returns the first `lookahead` paths of the two phases, nothing for a name that does not parse |
| Prediction.FillFromSeasons | src/prediction_utils.rs:98-115 | the labelled break stops exactly when enough episodes are gathered |
| Prediction.FillFromFlat | src/prediction_utils.rs:116-135 | appends the first missing ones of the higher seasons |
| Prediction.FlatIsSortAndTake | src/prediction_utils.rs:116-135 | flat layout: the two phases give the first `lookahead` of the stable sort of all episodes after the current one |
| Prediction.FlatFromListing | src/prediction_utils.rs:55-138 | flat layout, from listing and parser directly: the result is sorted and holds only listed files that parse as later episodes, and all of them unless it is full and none left out comes before any in it |
| Prediction.StructuredIsSortAndTake | src/prediction_utils.rs:80-115 | structured layout: the same over the union of the season directories, when their numbers are distinct and their files agree with them |
| Prediction.StructuredFromListing | src/prediction_utils.rs:55-138 | structured layout: the same for the entries of all listed season directories of the show |
| Traversal.CollectRecursive | src/presets/prefetch.rs:112-129 | the recursive loop builds the collected list |
| Traversal.CollectedIff | src/presets/prefetch.rs:112-129 | a path is collected if and only if it is a passing file reached through listed directories at depth 1 to `depth` |
| Traversal.CollectedOnce | src/presets/prefetch.rs:112-129 | with distinct sibling names no file is collected twice |
| Traversal.ShallowIsFilteredDeep | src/presets/prefetch.rs:112-129 | a smaller depth gives exactly the not too deep files of a larger one, in the same order |
| Traversal.DepthOneIsNeighbors | src/presets/prefetch.rs:92-129 | at depth 1 the list is that of `collect_neighbors` |
| Traversal.FilterLaws | src/presets/prefetch.rs:84-90 | a nonempty whitelist decides alone; without one exactly the names that some blacklist pattern matches are kept out |
| Traversal.BlacklistIrrelevant | src/presets/prefetch.rs:84-129 | under a nonempty whitelist the blacklist makes no difference to what is collected |
| Traversal.OneMorePattern | src/presets/prefetch.rs:84-129 | one more whitelist pattern adds exactly the files it matches, one more blacklist pattern takes away exactly those |

## Left out

- SQLite itself, its pragmas, migrations and errors: tables are maps, queries always answer, byte sums do not overflow 63 bits.
- FUSE request handling, file descriptors, extended attributes, ownership and umask, and all libc calls: they have no state of the cache's own. Rename flags such as exchange are not modelled; the table does not see them.
- The scheduler and wall clocks: the window is an arbitrary boolean at each check, time an arbitrary nondecreasing number.
- Regular expressions and the reading of `SxxExx` and season names: arbitrary functions from names.
- Process discovery, IPC, the TUI, telemetry, logging and configuration: reporting and plumbing.
- Free-space queries and floating-point gigabytes: whether a copy proceeds is arbitrary, budgets are natural numbers.
- Wrap-around of `next_ino` at 64 bits and of handle counts at 32 bits.
- The watch map and its size limit (`touch_or_add`): kernel descriptor reuse is not visible in the source. `Debounce` takes the watches installed at each event as given.
- Shutdown: a cancelled dispatcher, copy, drain or filter just stops.
- Panics of a copy thread are failures like any other, except that no clean-up delete follows.
- A manager without a backing store, whose checks always answer "not tracked".
- Liveness of change detection: a validation submitted while one of the same path is in flight is dropped (src/cache/io.rs:202-208), so no claim is made that every event leads to a fresh check.
- Several mounts sharing the deferred rows: their key is the relative path alone (src/cache/io.rs:222-224). `Protocol` has one mount.
- Other agents during one eviction, sweep, reconciliation or validation: `CacheManager` and `Validation` take each as a whole. `Coherence` interleaves single deletions of files and rows with everything else.
- Presets other than their file lists, and the order in which an access event's actions interleave with the pipeline.
- Coherence.FreshMeansEqualBytes: assumes at most one permit (the default is one, src/config.rs:312), that each change of content or recreation of a path gives it a nonzero mtime it never had, that opening a source and reading its metadata is one instant, that nobody else writes the cache directory, that the table starts empty (rows from before a migration are not modelled), and a file without the extension `partial`; recovered and backfilled rows are outside it. `CoherenceLimits` proves that the conditions on permits, name and origin are exact.
- Path text: rows and deferred events are keyed by a lossy conversion of the path to text (src/cache/db.rs:247, src/cache/db.rs:448), so two names that are not valid UTF-8 can share a row; here the key is the path itself.
- Coherence.InstalledIsOneVersion: says nothing of a copy whose final stat finds no file, which commits all the same; `CopyLoop.OneVersionIff` shows that this is the whole gap.
- CopyLoop.CommitIsOneVersion: a copy that overlaps another of the same path is outside it; `Coherence` covers whole runs.
- DispatchOrder.SweepIsFilter: assumes that restarts load the deferred rows oldest first, which the query does not ask for; `DispatchOrder.RunSortedIff` shows that nothing less keeps the queue in order.
- Inodes.RunsAreSafe: excludes renames onto the root, which the kernel does not send; `Inodes.RenameConsistentIff` says what one would do.
- Inodes.NestedRenameDependsOnOrder: the kernel refuses to rename a directory into itself or over one of its ancestors, so such a rename does not arrive; `RenameOrder.OrderFreeIff` says when its order would matter.
- InodeRuns.RunLinkedIff: covers the renames the kernel sends, between paths neither of which contains the other.
- InodeRuns.RefcountIsBalance: stops where an inode has been looked up more often than 64 bits can count; from there on the count saturates.
- Prediction.StructuredIsSortAndTake: assumes that the current file's season is its directory's number and that its directory is listed in the show directory.
