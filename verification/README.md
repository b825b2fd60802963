# Brain, modelled in Dafny

This project models the parts of Brain in which many steps have to agree with each other: the bitemporal
fact store, the connection pool with its schema queue, the migrator, the changefeed consumer, and the
caches and index algorithms that must agree with something simpler. Every main result is a statement
about all inputs, all runs or all interleavings. `dafny verify dfyconfig.toml` checks everything.

| files | what they model |
|---|---|
| `FactModel`, `Facts`, `Lifecycle`, `FactLaws` | fact rows, the asOf read, retract with cascade and revive, whole runs of the store; each write column by column |
| `Resolver`, `MemoryDiff` | one run of the dreams resolver; the window diff over the fact table |
| `ConnectionPool`, `PoolProtocol`, `PoolSafety`, `PoolLiveness`, `PoolLaws`, `PoolProvision`, `PoolJam` | one pool as an object; both pools, the schema queue and the migrator connection as a step system, with safety, termination and exactly when there is no deadlock |
| `Migrator`, `Manifest` | restartable migrations with retries and cuts; loading the migration files |
| `Changefeed` | cursor, batches, crashes |
| `LruCache`, `BatchedLru`, `OverlappingCalls`, `Embedder`, `PredicateRegistry`, `TraceBuffer` | caches and indexes against the history or table they stand for |
| `Reranker`, `Shuffling`, `ParallelMap` | Borda aggregation over untrusted replies; bounded-parallel map |
| `ClauseText`, `SentenceSplit`, `ClauseSplitter`, `ClauseLaws`, `ClauseAtoms` | clause offsets |
| `CollapsePatterns` | collapse spans |
| `Common`, `Ordering`, `Text` | shared vocabulary |

Objects whose methods update fields are classes, loops are loops, and each method is proved against a
function of the old state. Protocols with interleaved callers are step systems: a state, the steps that
are enabled in it, and runs as sequences of steps.

## What the proofs brought out

- **Which writes rewrite the past.** `README.md:42-45` says the past can be replayed exactly and is never
  rewritten. Two kinds of write break that. A retract reads `existing.validUntil`, but its SELECT does not fetch
  that column (`src/facts/facts.service.ts:102,138`), so `now` is written over an earlier end and a fact can
  *appear* in a past read (`Lifecycle.RetractCanRewriteThePast`). A supersede, by the dreams resolver or at
  ingest, moves the loser's end to the winner's start whenever the winner was learned, so a fact can *disappear*
  from a past read (`Lifecycle.SupersedeCanRewriteThePast`). `Lifecycle.PastFrozenIff` says for every write
  exactly when it leaves all earlier reads as they were, in any store, `Lifecycle.PastKeptIff` exactly when it takes nothing
  out of them, and `Lifecycle.ReplayedExactly` lifts the condition to whole runs.
- **A retract can take facts out of past reads, through revival.** Neither supersede tests whether the loser had
  already ended. If it had, superseding stretches its end, and reviving it later takes the stretch back
  (`Lifecycle.DisjointPairLosesPast`). `Lifecycle.PastReadsKeptIff` gives the exact condition in every reachable
  store; runs that never close a fact later than it had ended satisfy it (`Lifecycle.PastReadsKept`).
- **A retraction is final unless the resolver comes late.** The resolver tests `status = 'competing'` only when it
  selects its pairs (`src/dreams/resolver.service.ts:180`); `markSuperseded` writes unconditionally, up to one model
  call per pair later. If the loser was retracted in between, it becomes superseded *and* retracted, and retracting
  its winner revives it (`Lifecycle.LateSupersedeUndoesRetraction`). `Lifecycle.TidyRunIff`,
  `Lifecycle.FinalRunIff` and `Lifecycle.LateSupersedeIff` say exactly when that can happen.
- **Groups of three are counted among aged facts only**: a key's facts are left alone if and only if its aged
  rivals are not exactly two (`Resolver.KeyUntouchedIff`), so a young third rival does not protect the other two
  (`Resolver.YoungThirdIsIgnored`).
- **A superseded fact is silent in the diff** until it is retracted: superseding sets no `retractedAt`
  (`MemoryDiff.SupersedeIsSilent`). The comments speak of superseded facts as changed; the code is followed.
- **Created windows compose exactly when no fact recorded in the second window was already retracted as
  replaced in the first** (`MemoryDiff.CreatesComposeIff`); changed and retracted always compose.
- **The dedicated migrator connection is what breaks the deadlock**: with a shared connection the jam is reachable
  for every pool size (`PoolJam.SharedMigratorDeadlocks`).
- **Deadlock freedom needs every pool in use to have a connection, and nothing more**
  (`PoolProvision.DeadlockFreeIff`). The scoped pool's size is not validated like the root pool's
  (`src/db/surreal.service.ts:133-154`), and at 0 every scoped request in every run can only time out
  (`PoolProvision.EmptyPoolStarves`).
- **A migration must be restartable statement by statement**, exactly (`Migrator.ConvergesIff`); idempotence of the
  whole file is not enough (`Migrator.WholeIdempotenceIsNotEnough`).
- **The manifest is cached before the duplicate check**, so the second call returns what the first refused
  (`Manifest.ManifestLoader.LoadAgain`); a run over it applies the repeated file, fails to record it, and never sees it again
  (`Manifest.RepeatAppliedOnce`).
- **`embedMany` looks up first and stores later**, and so is not LRU: a larger cache can lose a key a smaller one
  keeps. Growing from `small` to `large` is safe for batches of at most d distinct texts if and only if
  d <= large - small + 1 (`BatchedLru.BatchInclusionIff`). With `embed` alone, growing never hurts
  as long as calls do not overlap, and for any two sizes two overlapping calls are enough to break it
  (`OverlappingCalls.OverlapIff`).
- **The collapse scan resumes at the end of a rejected hit** and can pass over a word-bounded occurrence;
  `CollapsePatterns.ScanCompleteIff` says for which patterns.
- **Clause offsets hold on every input**, sentinel characters included.

## Model

| member | source | states |
|---|---|---|
| `Facts.FactsService.Retract` | src/facts/facts.service.ts:89-164 | outcome by case (missing, not permitted, already retracted, done); on success the cascade list is exactly the derived facts, each once, the revived list exactly the superseded facts that name the root, and the two are disjoint |
| `Facts.FactsService.CascadeRetract` | src/facts/facts.service.ts:229-261 | on any derivedFrom graph, cycles included, the walk ends and retracts exactly what is reachable through facts unretracted at the start, each listed once |
| `Facts.FactsService.RetractChildren` | src/facts/facts.service.ts:235-258 | one round retracts exactly the unretracted children and shrinks the set of unretracted facts whenever it finds any |
| `Facts.FactsService.ReviveSupersededBy` | src/facts/facts.service.ts:184-220 | revives exactly the facts superseded by the root, each once, and changes nothing else |
| `FactLaws.RootRow` | src/facts/facts.service.ts:131-145 | column by column: the retracted root is 'retracted', ends and is retracted at `now`, with actor and reason; every other column is as it was |
| `FactLaws.CascadedRow` | src/facts/facts.service.ts:249-255 | column by column: a cascaded fact is 'retracted', ends and is retracted at `now`, by "cascade", with the parent's reason quoted; every other column is as it was |
| `FactLaws.OtherRow` | src/facts/facts.service.ts:184-220 | any other fact changes exactly when it is superseded by the root under the sentinel reason, and then comes back active with its remembered end and no links |
| `FactLaws.DerivedIs` | src/facts/facts.service.ts:238-243 | the cascade takes exactly the unretracted facts that name the root or a cascaded fact among their parents |
| `FactLaws.GateIs` | src/facts/facts.service.ts:17-33 | billing events, human-declared facts and legal sources are the ones that need the administrator's scope |
| `FactLaws.ReadReturns` | src/entities/entities.service.ts:106-118 | a read as of t, clause by clause; at the instant of its retraction or end a fact is gone |
| `FactLaws.SupersededRow` | src/dreams/resolver.service.ts:356-384 | column by column: what the resolver's supersede leaves in the loser's row and in all others |
| `FactLaws.DisplacedRow` | src/db/migrations/0034_supersede_no_retracted_at_fix.surql:177-185 | column by column: what a displacement at ingest leaves |
| `FactLaws.StatusRow` | src/compaction/compaction.service.ts:234-240 | compaction changes the status and drops the embedding, a contest changes the status, nothing else |
| `Facts.ClosedHoldsPath` | src/facts/facts.service.ts:229-261 | a set closed under taking children contains the end of every derivation path |
| `Facts.DerivedIsLeast` | src/facts/facts.service.ts:229-261 | what a finished walk found is the whole closure |
| `Facts.NewChildren` | src/facts/facts.service.ts:235-258 | later rounds, on partly retracted rows, still find children in terms of the rows at the start |
| `Facts.WalkStep` | src/facts/facts.service.ts:229-261 | one round keeps the invariant of the walk |
| `Lifecycle.RetractRow` | src/facts/facts.service.ts:131-149 | fact by fact: which of root, cascaded, revived or untouched a row becomes |
| `Lifecycle.StepKeepsInv` | src/dreams/resolver.service.ts:356-384 | every write, including a resolver's or compactor's write to a fact that has changed since it was selected, keeps the store invariant: active and competing facts carry no links, a superseded fact has an end, a retracted one has its instant, an open fact remembers no end |
| `Lifecycle.RunKeepsInv` | src/facts/facts.service.ts:131-149 | the store invariant holds after every run of inserts, contests, displacements, supersedes, retracts and compactions |
| `Lifecycle.TidyStepIff` | src/dreams/resolver.service.ts:322-384 | a write keeps superseded facts unretracted if and only if it is not a resolver's supersede of a retracted loser |
| `Lifecycle.TidyRunIff` | src/dreams/resolver.service.ts:322-384 | superseded facts stay unretracted throughout a run if and only if every resolver's write in it finds its loser unretracted |
| `Lifecycle.PastKeptIff` | src/entities/entities.service.ts:106-118 | any write takes nothing out of any asOf read before its instant if and only if no row it touches is shown less far than before |
| `Lifecycle.PastReadsKeptIff` | src/facts/facts.service.ts:184-220 | in every reachable store a retract keeps every earlier asOf read if and only if no revived fact's remembered end falls short of what was shown |
| `Lifecycle.PastReadsKept` | src/facts/facts.service.ts:131-149 | after every run whose supersedes close no fact later than it had ended, a retract at `now` removes nothing from any asOf read before `now` |
| `Lifecycle.ShorteningRemembers` | src/dreams/resolver.service.ts:356-384 | such writes keep: a superseded fact's priorValidUntil is absent or not before its validUntil |
| `Lifecycle.RetractedStayHidden` | src/entities/entities.service.ts:106-118 | through any later run that revives no retracted fact, no asOf read at or after `now` returns the root or a cascaded fact |
| `Lifecycle.RetractionsStandIff` | src/facts/facts.service.ts:184-220 | in any store a write leaves every retraction standing, at its instant, if and only if it is not a retract that revives a retracted fact |
| `Lifecycle.FinalRunIff` | src/facts/facts.service.ts:184-220 | every write of a run leaves all retractions standing if and only if none of its retracts revives a retracted fact |
| `Lifecycle.RetractionIsFinal` | src/facts/facts.service.ts:184-220 | through such a run a fact's retractedAt is neither cleared nor moved |
| `Lifecycle.PromptRunIsFinal` | src/dreams/resolver.service.ts:322-384 | runs in which every resolver's write finds its loser unretracted are such runs |
| `Lifecycle.LateSupersedeIff` | src/dreams/resolver.service.ts:322-384 | after a resolver's write some next retract would revive a retracted fact, if and only if the write found its loser retracted and its winner not |
| `Lifecycle.LateSupersedeResurrects` | src/facts/facts.service.ts:184-220 | retracting that winner then leaves the loser active with no retractedAt |
| `Lifecycle.LateSupersedeUndoesRetraction` | src/dreams/resolver.service.ts:171-204 | two selected rivals, one retracted before the verdict arrives and superseded all the same: retracting the other brings it back |
| `Lifecycle.SecondRetractShows` | src/facts/facts.service.ts:131-149 | retracting it once more puts it into a read that the first retract had cleared |
| `Lifecycle.PastFrozenIff` | README.md:42-45 | any write leaves every earlier read unchanged if and only if each row it touches is shown exactly as far as before: stated for insert, displacement, supersede and retract, and always true of contest and compaction |
| `Lifecycle.ReplayedExactly` | README.md:42-45 | over any run of writes that each meet that condition, every read before the first of them stays as it was |
| `Lifecycle.InsertAdds` | src/db/migrations/0034_supersede_no_retracted_at_fix.surql:79-90 | an insert never removes anything from a past read, and adds nothing exactly when the fact is not shown before `now` |
| `Lifecycle.RetractCanRewriteThePast` | src/facts/facts.service.ts:102-138 | a fact that ended at 5 and is retracted at 10 starts to show up in the read at 7 |
| `Lifecycle.SupersedeCanRewriteThePast` | src/dreams/resolver.service.ts:356-384 | an overlapping rival learned at 15 and valid from 5 supersedes an open fact, and the read at 7 loses it |
| `Lifecycle.DisjointPairLosesPast` | src/db/migrations/0034_supersede_no_retracted_at_fix.surql:171-187 | on either supersede path, a fact that had ended is stretched, and retracting its winner loses it from a past read |
| `Lifecycle.SupersedeRetractRoundTrip` | src/facts/facts.service.ts:184-220 | superseding a loser and, after any run that leaves it alone, retracting the winner restores the loser's row with its original end, if and only if it carried no links and is not derived from the winner |
| `Lifecycle.LoserStaysIff` | src/facts/facts.service.ts:131-149 | a superseded fact whose winner gets retracted stays superseded if and only if the winner goes by cascade and the fact is neither the root nor derived from it |
| `Resolver.DreamsResolver.GroupByKey` | src/dreams/resolver.service.ts:188-196 | the aged competing facts are partitioned by key |
| `Resolver.DreamsResolver.FindCompetingPairs` | src/dreams/resolver.service.ts:171-204 | the pairs are whole groups of exactly two, pairwise different keys, capped, and complete when the cap is not reached |
| `Resolver.DreamsResolver.Run` | src/dreams/resolver.service.ts:115-163 | the store afterwards follows from the verdicts on the considered pairs; reported are exactly the winners and losers the verdicts name, and the unsure ones are counted |
| `Resolver.PairsAreDisjoint` | src/dreams/resolver.service.ts:188-203 | no fact is in two considered pairs |
| `Resolver.ResolvedAlone` | src/dreams/resolver.service.ts:133-160 | every pair comes out as if it had been the only one in the run |
| `Resolver.OutsideUntouched` | src/dreams/resolver.service.ts:133-160 | facts outside the considered pairs keep their rows |
| `Resolver.OtherGroupsUntouched` | src/dreams/resolver.service.ts:197-203 | facts in groups of one, or of three or more, keep their rows |
| `Resolver.DecidedPairIsDisjoint` | src/dreams/resolver.service.ts:356-384 | after a decision no instant lies in both valid-time intervals, the loser's interval is not inverted, and the winner is unchanged |
| `FactLaws.VerdictHonoured` | src/dreams/resolver.service.ts:139-150 | when the first of a pair wins it keeps its row and the second is superseded by it, the other way round when the second wins, and nothing happens when the judge is unsure |
| `FactLaws.PairIs` | src/dreams/resolver.service.ts:171-203 | a considered pair is exactly two facts that are alone, among competing, unretracted facts recorded no later than the cutoff, about their entity and predicate |
| `FactLaws.OldRivalsAreConsidered` | src/dreams/resolver.service.ts:197-203 | with the cap not reached every such couple is considered |
| `Resolver.NextRunSkipsLosers` | src/dreams/resolver.service.ts:171-204 | no later run considers a pair with a decided loser |
| `Resolver.RowChangesIff` | src/dreams/resolver.service.ts:133-160 | a run changes a fact's row if and only if the fact is one of exactly two aged rivals under its key and was decided against |
| `Resolver.KeyUntouchedIff` | src/dreams/resolver.service.ts:188-203 | with the cap not reached and every verdict decided, all facts under a key keep their rows if and only if its aged rivals are not exactly two |
| `Resolver.YoungThirdIsIgnored` | src/dreams/resolver.service.ts:171-204 | three rivals, one of them young: the other two are resolved all the same |
| `MemoryDiff.DiffWindow` | src/diff/memory-diff.service.ts:44-173 | rejects exactly empty windows; created, changed and retracted are the net creates, the replaced and the purely retracted rows of the window, each change with its replacement's row |
| `MemoryDiff.Partition` | src/diff/memory-diff.service.ts:108-135 | rows with a replacement are changes, the others retractions, both in order |
| `MemoryDiff.Hydrate` | src/diff/memory-diff.service.ts:143-168 | every change gets the current row of its replacement, nothing else moves |
| `MemoryDiff.NoDoubleSpend` | src/diff/memory-diff.service.ts:169-173 | a fact recorded in the window is in exactly one of created and changed; changed and retracted are disjoint and cover the retractions |
| `MemoryDiff.WindowIs` | src/diff/memory-diff.service.ts:23-27 | what happens at `from` is in the window and what happens at `to` is not; replaced rows are the changes |
| `MemoryDiff.WindowInOrder` | src/diff/memory-diff.service.ts:54-74 | created rows come in order of recording, retracted ones in order of retraction |
| `MemoryDiff.LookupIs` | src/diff/memory-diff.service.ts:143-168 | looking a replacement up finds its row, and nothing when it is gone |
| `MemoryDiff.ChangesCompose` | src/diff/memory-diff.service.ts:23-27 | over adjacent windows changed and retracted concatenate, order included |
| `MemoryDiff.CreatesComposeIff` | src/diff/memory-diff.service.ts:169-173 | created over the union is created of the first minus changed of the second, followed by created of the second, if and only if no fact of the second window was retracted as replaced in the first |
| `MemoryDiff.SupersedeSilentIff` | src/diff/memory-diff.service.ts:54-74 | a superseded fact is in neither changed nor retracted of any window, if and only if it is not retracted too |
| `MemoryDiff.SupersedeIsSilent` | src/diff/memory-diff.service.ts:54-74 | so it is in every store reached without a resolver's write to a retracted fact |
| `ConnectionPool.PoolService.Acquire` | src/db/surreal.service.ts:431-455 | takes the first idle connection or joins the queue, keeping the pool invariant |
| `ConnectionPool.PoolService.Release` | src/db/surreal.service.ts:393-417 | hands the connection to the longest waiter or makes it idle |
| `ConnectionPool.PoolService.TimeOut` | src/db/surreal.service.ts:440-452 | the expired waiter, and only it, leaves the queue |
| `ConnectionPool.AcquireKeepsInv` | src/db/surreal.service.ts:431-455 | waiters exist only when nothing is idle; served plus waiting is the arrival order without the expired |
| `ConnectionPool.ReleaseKeepsInv` | src/db/surreal.service.ts:393-417 | the same, across a release |
| `ConnectionPool.TimeOutKeepsInv` | src/db/surreal.service.ts:440-452 | the same, across a timeout |
| `ConnectionPool.ServedInArrivalOrder` | src/db/surreal.service.ts:393-455 | of two served requests the earlier arrival was served first |
| `ConnectionPool.ExpiredNeverServed` | src/db/surreal.service.ts:440-452 | a timed-out waiter never receives a connection |
| `PoolSafety.StepKeepsInv` | src/db/surreal.service.ts:101-126 | every step of every caller, rebuilds and failures included, keeps bookkeeping, conservation, single migration and the migration ledger |
| `PoolSafety.HandOffConserved` | src/db/surreal.service.ts:393-417 | handing a connection to a waiter conserves slots |
| `PoolSafety.RebuildConserved` | src/db/surreal.service.ts:101-126 | swapping a dead connection for a new one conserves slots |
| `PoolLiveness.Safety` | src/db/surreal.service.ts:248-516 | in every reachable state idle plus held is the pool size, each connection has one owner, waiters exist only when nothing is idle, arrival order is kept, at most one migration runs, none for a known database, and a database is migrated again only after a drop |
| `PoolLaws.CallbackNeedsSchema` | src/db/surreal.service.ts:465-516 | whatever step starts a callback, its database is known to be migrated then |
| `PoolLaws.KnownChanges` | src/db/surreal.service.ts:465-516 | a database becomes known exactly when the migration running on it at the head of the queue has been applied, which is recorded, and becomes unknown exactly when it is dropped |
| `PoolLaws.NoCallbackUnmigrated` | src/db/surreal.service.ts:248-266 | in every run no callback is under way on a database that was never migrated |
| `PoolLaws.TurnSchema` | src/db/surreal.service.ts:465-516 | the head of the queue migrates, unless its database has become known meanwhile |
| `PoolLaws.EnterSchema` | src/db/surreal.service.ts:352-366 | a drop forgets the database and ends; any other request goes on if its database is known and queues up if not |
| `PoolLaws.AcquireTakes` | src/db/surreal.service.ts:431-455 | an idle connection is taken from the front, otherwise the request joins the end of its pool's queue |
| `PoolLaws.EndingReleases` | src/db/surreal.service.ts:393-417 | a request that ends gives its connection to the longest waiter of its pool, or back to the end of the idle list |
| `PoolLaws.SignInSwaps` | src/db/surreal.service.ts:101-126 | signing in keeps the connection or puts a brand new one in its slot, and touches no other |
| `PoolLiveness.StepDescends` | src/db/surreal.service.ts:248-346 | every step brings some request nearer its end and none further away |
| `PoolLiveness.RunsEnd` | src/db/surreal.service.ts:248-346 | no run is longer than seven steps per request |
| `PoolLiveness.NeverStuck` | src/db/surreal.service.ts:61-69 | with non-empty pools, while any request is unfinished some step other than a timeout is enabled |
| `PoolLiveness.NothingLeaks` | src/db/surreal.service.ts:248-346 | when nothing but timeouts is left, every request is finished and every connection idle |
| `PoolLiveness.WaiterHasHolder` | src/db/surreal.service.ts:431-455 | somebody waits only while somebody holds |
| `PoolLiveness.HeadMoves` | src/db/surreal.service.ts:465-516 | the head of the schema queue can always move |
| `PoolJam.SharedMigratorDeadlocks` | src/db/surreal.service.ts:61-69 | for every pool size, if the migration had to take a pooled connection, a reachable state has no enabled step; with the dedicated one it has |
| `PoolProvision.EmptyPoolStarves` | src/db/surreal.service.ts:133-154 | in every run of every configuration a request to a pool of size 0 never gets further than waiting, and fails only by its own timeout |
| `PoolProvision.DeadlockFreeIff` | src/db/surreal.service.ts:61-69 | every reachable state with an unfinished request has an enabled step other than a timeout, if and only if every pool in use has a connection |
| `PoolProvision.RunOut` | src/db/surreal.service.ts:248-346 | from every state a run without timeouts reaches a state where nothing but timeouts is left |
| `PoolProvision.UnheldStep` | src/db/surreal.service.ts:393-455 | what any step can do to a request that holds nothing: wait, be handed a connection, or time out |
| `Manifest.RepeatInterrupts` | src/db/migrator.service.ts:76-110 | a run over files with a repeated id applies them up to and including the first repeat, records all but the repeat, and fails |
| `Manifest.RepeatAppliedOnce` | src/db/migrator.service.ts:45-51 | from an empty log the repeated file takes effect once, unrecorded, and is never pending again |
| `Migrator.Convergence` | src/db/migrator.service.ts:62-116 | after any history of partial applies, cuts and recordings from an empty log, the recorded ids are a prefix of the manifest, and once all are recorded the schema is each migration applied once in order |
| `Migrator.HappenOnTrack` | src/db/migrator.service.ts:62-116 | every event, a cut between two statements included, leaves the database on the way to the same goal |
| `Migrator.ConvergesIff` | src/db/migrator.service.ts:62-116 | however often it is cut off and started over, a migration that gets recorded has taken effect once, if and only if starting it over after any part of it ends in the same schema |
| `Migrator.CutAndRestart` | src/db/migrator.service.ts:75-104 | the history cut after k statements, start over, record, and the schema it leaves |
| `Migrator.WholeIdempotenceIsNotEnough` | src/db/migrator.service.ts:75-104 | a migration idempotent as a whole that a cut in the middle spoils |
| `Migrator.SchemaMigrator.ApplyWithRetry` | src/db/migrator.service.ts:75-104 | succeeds exactly when an Ok comes after at most four read conflicts and nothing else before it; whatever the replies, the sends form a valid history |
| `Migrator.SchemaMigrator.CreateRow` | src/db/migrator.service.ts:62-116 | the row may be written even when the reply is lost; nothing else is |
| `Migrator.SchemaMigrator.ApplyNext` | src/db/migrator.service.ts:62-116 | one turn records at most the next id, and exactly it on success |
| `Migrator.SchemaMigrator.Migrate` | src/db/migrator.service.ts:62-116 | a run settles if and only if both preliminary calls are answered and each pending migration gets through in turn; it is a valid history; a settled one records every id once and reports exactly the rest; on a complete log it applies nothing |
| `Migrator.SchemaMigrator.ApplyPending` | src/db/migrator.service.ts:75-110 | the loop goes through to the end exactly when every pending migration gets through |
| `Migrator.AllOkGetsThrough` | src/db/migrator.service.ts:62-116 | a healthy database is always migrated in full |
| `Migrator.PendingIsSuffix` | src/db/migrator.service.ts:62-74 | what is pending is the rest of the manifest, in order |
| `Manifest.BuildIs` | src/db/migrator.service.ts:119-135 | the manifest is made of exactly the files named NNNN_description.surql, each under its four digits |
| `Manifest.SortFilesOrders` | src/db/migrator.service.ts:119-144 | files come out in name order |
| `Manifest.FirstRepeat` | src/db/migrator.service.ts:136-142 | reports an id exactly when some id occurs twice |
| `Manifest.Ascending` | src/db/migrator.service.ts:119-144 | distinct ids come out in strictly increasing numeric order |
| `Manifest.ManifestLoader.LoadManifest` | src/db/migrator.service.ts:119-144 | no files, a duplicate id or the sorted manifest, each exactly when due, and what is cached |
| `Manifest.ManifestLoader.LoadAgain` | src/db/migrator.service.ts:119-144 | a manifest refused for a duplicate id is returned by the next call |
| `Changefeed.NoLossExactRepeats` | src/audit/changefeed-consumer.service.ts:246-302 | in every interleaving of appends, ticks and crashes the audit table is, as a multiset, the events up to the cursor plus exactly the batches whose cursor write was missed |
| `Changefeed.NothingLost` | src/audit/changefeed-consumer.service.ts:361-386 | in every run each item of each change the cursor has passed is in the audit table, with the change's stamp and its own operation and record id |
| `Changefeed.NothingInvented` | src/audit/changefeed-consumer.service.ts:361-386 | and every audit event comes from an item of the log |
| `Changefeed.CrashFreeIsExact` | src/audit/changefeed-consumer.service.ts:246-302 | without crashes it is the log's event sequence up to the cursor: each once, in versionstamp order |
| `Changefeed.RetryCoversCrash` | src/audit/changefeed-consumer.service.ts:269-292 | the tick after a crash starts at the same change and covers the crashed batch |
| `Changefeed.StepKeeps` | src/audit/changefeed-consumer.service.ts:388-401 | every step keeps the consumer sound and never lowers the cursor |
| `Changefeed.RunKeeps` | src/audit/changefeed-consumer.service.ts:388-401 | the same over whole runs |
| `Changefeed.Advance` | src/audit/changefeed-consumer.service.ts:246-302 | n quiet ticks advance by n batches or to the end of the log |
| `Changefeed.Drain` | src/audit/changefeed-consumer.service.ts:246-302 | k pending changes are gone after n ticks if and only if n times the limit is at least k |
| `Changefeed.FetchIsPending` | src/audit/changefeed-consumer.service.ts:316-341 | rows of an inclusive SINCE, filtered and sorted, are the unconsumed log, whatever order they came in |
| `Changefeed.ChangefeedConsumer.BuildAuditEventBatch` | src/audit/changefeed-consumer.service.ts:353-386 | as many events as items; those of a change stand together behind those of earlier changes, and the k-th carries the change's stamp and its k-th item |
| `Changefeed.ChangefeedConsumer.ConsumeSource` | src/audit/changefeed-consumer.service.ts:253-302 | a tick is the protocol's consume step, committed unless the process dies before the cursor write, and reports consumed and remaining counts that add up |
| `LruCache.LRUCache.Get` | src/common/lru-cache.ts:18-24 | returns the stored value and moves the key to the recent end |
| `LruCache.LRUCache.Set` | src/common/lru-cache.ts:26-33 | stores at the recent end, evicting the oldest entry when full |
| `LruCache.GetRefreshes` | src/common/lru-cache.ts:18-24 | a get acts on the key order as a refresh |
| `LruCache.SetTouches` | src/common/lru-cache.ts:26-33 | a set acts on the key order as a touch |
| `LruCache.HoldsMostRecent` | src/common/lru-cache.ts:18-33 | after any sequence of uses the cache holds exactly the `capacity` most recently used distinct keys, in recency order |
| `LruCache.Inclusion` | src/common/lru-cache.ts:18-33 | a larger cache holds everything a smaller one does |
| `LruCache.GrowingNeverHurts` | src/common/lru-cache.ts:18-33 | over any sequence of uses, each over before the next begins, a larger cache has at most as many misses |
| `Embedder.EmbedderService.Embed` | src/ai/embedder.service.ts:118-156 | the provider's vector of the trimmed text, zeros for blank text, hit or miss; the key order is touched |
| `Embedder.ExpectedIs` | src/ai/embedder.service.ts:118-121 | blank text embeds as zeros, one per dimension; any other text is sent trimmed |
| `Embedder.EmbedderService.EmbedMany` | src/ai/embedder.service.ts:170-208 | at each position what `embed` returns for that text, whatever the cache state, evictions or duplicates |
| `Embedder.EmbedderService.LookUp` | src/ai/embedder.service.ts:118-125 | the first step of a call: a hit gives the provider's vector and refreshes the key, a miss changes nothing |
| `Embedder.EmbedderService.Store` | src/ai/embedder.service.ts:150-156 | the step after the provider's reply, whatever came in between: the key is touched and the cache stays coherent |
| `OverlappingCalls.OverlapIff` | src/ai/embedder.service.ts:118-156 | over every interleaving of calls with at most m under way, at every moment, the larger cache holds what the smaller one holds, if and only if m is at most 1 |
| `OverlappingCalls.OneAtATime` | src/ai/embedder.service.ts:118-156 | without overlap the two steps of each call come to one use of its key |
| `OverlappingCalls.SingleCallsInclude` | src/ai/embedder.service.ts:118-156 | the safe half, at every moment of every schedule without overlap |
| `OverlappingCalls.OverlapBreaks` | src/ai/embedder.service.ts:124-154 | the other half: for any two sizes, a call that is overlapped by others leaves its key in the smaller cache only |
| `Embedder.EmbedderService.LookUpAll` | src/ai/embedder.service.ts:170-190 | every position is answered or listed as a miss, in order |
| `Embedder.EmbedderService.StoreMisses` | src/ai/embedder.service.ts:195-207 | storing the misses keeps the cache coherent with the provider |
| `BatchedLru.BatchInclusionIff` | src/ai/embedder.service.ts:170-208 | after every history of batches of at most d distinct keys the larger cache holds what the smaller one holds, if and only if d <= large - small + 1 |
| `BatchedLru.NarrowInclusion` | src/ai/embedder.service.ts:170-208 | the safe direction, for any key type and any history |
| `BatchedLru.HoldsLatestBatches` | src/ai/embedder.service.ts:170-208 | after any batches the cache is the end of a list in which keys of later batches follow those of earlier ones, whatever the capacity |
| `BatchedLru.SmallKeeps` | src/ai/embedder.service.ts:170-208 | a history after which the smaller cache still holds a key ... |
| `BatchedLru.LargeLoses` | src/ai/embedder.service.ts:170-208 | ... that the larger one has lost, for all sizes |
| `PredicateRegistry.Follow` | src/ai/predicate-registry.service.ts:475-486 | the chain is followed to its end or for eight hops, cycles and dangling aliases included |
| `PredicateRegistry.FollowIsComplete` | src/ai/predicate-registry.service.ts:475-490 | what the loop ends on is the only active row reachable in at most eight hops |
| `PredicateRegistry.BuildAliasMap` | src/ai/predicate-registry.service.ts:469-490 | the map sends x to y if and only if y is active and reached from x in at most eight alias hops |
| `PredicateRegistry.ResolvesUnique` | src/ai/predicate-registry.service.ts:469-490 | a predicate resolves to at most one id |
| `PredicateRegistry.AliasMapIdempotent` | src/ai/predicate-registry.service.ts:469-490 | canonical ids are active and map to themselves |
| `PredicateRegistry.BestIsFirstMaximum` | src/ai/predicate-registry.service.ts:552-566 | the running best is the first candidate of maximal similarity |
| `PredicateRegistry.KnownIsMatched` | src/ai/predicate-registry.service.ts:541-550 | a predicate with a canonical id is matched to it, an active one to itself |
| `PredicateRegistry.ThresholdDecides` | src/ai/predicate-registry.service.ts:552-600 | any other predicate is aliased exactly when some candidate reaches the threshold, the threshold included, and then to the first of the most similar; else it is proposed under its own id |
| `PredicateRegistry.ScoredIs` | src/ai/predicate-registry.service.ts:492-506 | candidates are exactly the active rows that have an embedding |
| `PredicateRegistry.EightHops` | src/ai/predicate-registry.service.ts:475-486 | eight hops are followed, nine are not |
| `PredicateRegistry.AliasTargetIsActive` | src/ai/predicate-registry.service.ts:552-600 | a predicate is only ever aliased to an active one |
| `PredicateRegistry.CanonicalIdIsStable` | src/ai/predicate-registry.service.ts:533-651 | canonicalizing an unknown predicate twice with the same active set gives the same id, `aliased` followed by `matched` |
| `PredicateRegistry.PredicateRegistryService.LoadFresh` | src/ai/predicate-registry.service.ts:448-508 | the snapshot agrees with the table: active rows, alias map, embeddings |
| `PredicateRegistry.PredicateRegistryService.GetSnapshot` | src/ai/predicate-registry.service.ts:223-232 | the cached snapshot while it lasts, a fresh one otherwise |
| `PredicateRegistry.PredicateRegistryService.Canonicalize` | src/ai/predicate-registry.service.ts:533-651 | the decision on the snapshot used, the row it adds, and when the cache is dropped |
| `PredicateRegistry.PredicateRegistryService.Closest` | src/ai/predicate-registry.service.ts:552-566 | the loop computes the best match |
| `Reranker.Validate` | src/ai/reranker.service.ts:218-231 | accepts exactly replies of in-range integers without repetition |
| `Reranker.SingleRerank` | src/ai/reranker.service.ts:150-231 | always a ranking: a valid reply mapped back through the presentation order, the identity otherwise |
| `Reranker.CompleteRanking` | src/ai/cross-encoder.service.ts:131-153 | always a ranking: a valid partial reply is a prefix, the rest follows in original order |
| `Reranker.Shuffle` | src/ai/reranker.service.ts:244-251 | a permutation, the one the random draws determine |
| `Reranker.EveryOrderComesUp` | src/ai/reranker.service.ts:244-251 | every order of the candidates comes up for some draws |
| `Shuffling.SwapInPlace` | src/ai/reranker.service.ts:244-251 | the loop of swaps on the array is the shuffle as a function of the draws |
| `Reranker.PointsDecide` | src/ai/reranker.service.ts:268-271 | more points come first, the lower index on a tie |
| `Reranker.OneRankingGives` | src/ai/reranker.service.ts:260-267 | one more ranking gives n points to its first candidate, n - 1 to the next, down to 1 |
| `Reranker.AskAll` | src/ai/reranker.service.ts:117-129 | the k-th ranking is what the k-th reply says of the k-th presentation |
| `Reranker.BordaAggregate` | src/ai/reranker.service.ts:260-271 | a ranking ordered by total points, ties by index |
| `Reranker.PointsConserved` | src/ai/reranker.service.ts:260-271 | m rankings of n candidates hand out m*n*(n+1)/2 points |
| `Reranker.AgreedTally` | src/ai/reranker.service.ts:260-271 | agreement on a before b is worth at least one point per ranking |
| `Reranker.AgreementRespected` | src/ai/reranker.service.ts:260-271 | if every ranking puts a before b, so does the aggregate |
| `Reranker.UnanimityKept` | src/ai/reranker.service.ts:260-271 | unanimous rankings come back unchanged |
| `Reranker.Rerank` | src/ai/reranker.service.ts:105-140 | whatever the model returns, a permutation of the candidates; each ranking is what its reply says of its presentation; one call presents the original order and is taken as it is, several are aggregated; the early exits give the identity |
| `ParallelMap.StepKeeps` | src/common/parallel.ts:11-34 | every claim and every settling keeps: claimed indices are an initial segment, each settled slot holds its own item's outcome, unsettled claims are in flight |
| `ParallelMap.StepDescends` | src/common/parallel.ts:20-33 | every step reduces the work left |
| `ParallelMap.Interleavings` | src/common/parallel.ts:11-34 | in every interleaving the invariant holds with at most `cap` workers, and a run has at most 2n + cap steps |
| `ParallelMap.InFlightBound` | src/common/parallel.ts:17-20 | at no time are more calls in flight than the concurrency asked for, at least one, nor more than there are items |
| `ParallelMap.EqualsSequentialMap` | src/common/parallel.ts:11-34 | when no step is left the output is the sequential map, null only at failing items, and each index was claimed once |
| `TraceBuffer.TraceBufferService.constructor` | src/common/trace-buffer.service.ts:69-79 | starts empty; an unusable byte budget falls back to 64 MiB |
| `TraceBuffer.TraceBufferService.Add` | src/common/trace-buffer.service.ts:81-95 | after any sequence of adds the buffer is the longest newest-first prefix of the whole history within both caps, never without the newest, and the byte counter is the sum of the estimates |
| `TraceBuffer.TraceBufferService.EvictByCount` | src/common/trace-buffer.service.ts:88-91 | drops from the old end down to the count cap, and nothing longer fits |
| `TraceBuffer.TraceBufferService.EvictByBytes` | src/common/trace-buffer.service.ts:92-95 | drops from the old end until the bytes fit or one is left, and nothing longer fits |
| `TraceBuffer.EstimateSnapshotBytes` | src/common/trace-buffer.service.ts:228-247 | the loop computes the estimate |
| `TraceBuffer.BufferStandsForHistory` | src/common/trace-buffer.service.ts:81-95 | the longest prefix of old buffer plus newcomer is the longest prefix of the whole history: evicted traces never matter again |
| `TraceBuffer.HundredFit` | src/common/trace-buffer.service.ts:52-53 | at most a hundred traces are kept, and a hundred that fit the budget together are kept all |
| `TraceBuffer.EstimateIs` | src/common/trace-buffer.service.ts:228-247 | what a span, a text, an object and any other artifact weigh |
| `TraceBuffer.LongestIsUnique` | src/common/trace-buffer.service.ts:81-95 | the history determines the buffer |
| `TraceBuffer.LargerBudgetKeepsMore` | src/common/trace-buffer.service.ts:69-95 | a larger byte budget keeps a prefix at least as long |
| `SentenceSplit.MarkSplitRoundTrip` | src/ai/clause-splitter.ts:51-56 | marking boundaries with the sentinel and splitting at it yields verbatim slices of the text, sentinels in the input included |
| `SentenceSplit.SentencesChain` | src/ai/clause-splitter.ts:51-56 | neighbouring sentences are separated by one sentinel, or by white space before a capital |
| `ClauseSplitter.SplitClauses` | src/ai/clause-splitter.ts:47-91 | the routine with its searches finds the same clauses as the definition by spans; each is its slice of the input, in increasing order, pairwise disjoint |
| `ClauseSplitter.SplitSentence` | src/ai/clause-splitter.ts:61-88 | the search for a sentence always succeeds on the intended position |
| `ClauseSplitter.SplitOnInternalBoundaries` | src/ai/clause-splitter.ts:93-126 | the loop ends and cuts at the leftmost separators |
| `ClauseSplitter.TrimPart` | src/ai/clause-splitter.ts:78-86 | trim, strip and trim again, located by search, is the core span of the part |
| `ClauseSplitter.OffsetsAreFaithful` | src/ai/clause-splitter.ts:47-91 | every clause is a nonempty slice at its offsets; clauses increase and never overlap |
| `ClauseSplitter.SentenceIsFound` | src/ai/clause-splitter.ts:66-70 | from a cursor with only sentinels, or white space before a capital, in between, indexOf lands on the sentence |
| `ClauseSplitter.CoreIsFound` | src/ai/clause-splitter.ts:82-84 | indexOf of the trimmed clause lands behind the leading white space |
| `ClauseLaws.NothingLost` | src/ai/clause-splitter.ts:11-20 | every character outside the clauses is white space, closing punctuation, a sentinel, or part of a free-standing conjunction |
| `ClauseLaws.ConjunctionDrops` | src/ai/clause-splitter.ts:36-36 | a conjunction match consists of white space and one listed word between white space |
| `ClauseAtoms.ClausesAreAtoms` | src/ai/clause-splitter.ts:47-126 | splitting the text of a clause gives that clause back: splitting is complete and idempotent |
| `ClauseAtoms.NoConjunctionLeft` | src/ai/clause-splitter.ts:36-36 | none of the seven conjunctions stands free in a clause |
| `ClauseAtoms.NoSemicolonLeft` | src/ai/clause-splitter.ts:37-37 | no semicolon in a clause has white space behind it |
| `ClauseAtoms.NoBoundaryLeft` | src/ai/clause-splitter.ts:35-35 | no terminator, white space and capital follow one another in a clause |
| `ClauseAtoms.EndsAreClean` | src/ai/clause-splitter.ts:79-79 | clauses have no white space at their ends and no closing punctuation |
| `ClauseAtoms.NoInnerBoundary` | src/ai/clause-splitter.ts:35-35 | no sentence boundary lies inside a sentence |
| `CollapsePatterns.ExtractCollapseEditsLocally` | src/admin/collapse-pattern.service.ts:180-228 | the nested scan claims word-bounded hits first come first served, longest patterns first; the spans are disjoint |
| `CollapsePatterns.Scan` | src/admin/collapse-pattern.service.ts:199-225 | one pattern's scan visits leftmost occurrences, each search resuming where the last ended |
| `CollapsePatterns.SpansAreGenuine` | src/admin/collapse-pattern.service.ts:199-225 | every span is in range, case-fold-matches a known pattern and is word-bounded |
| `CollapsePatterns.SpansReadLikePatterns` | src/admin/collapse-pattern.service.ts:199-225 | every span reads like its pattern up to case, character by character, with no letter or digit on either side |
| `CollapsePatterns.OccurrenceIs` | src/admin/collapse-pattern.service.ts:202-212 | and such text is exactly what counts as an occurrence |
| `CollapsePatterns.SpansAreDisjoint` | src/admin/collapse-pattern.service.ts:213-223 | spans are pairwise disjoint |
| `CollapsePatterns.LongestWins` | src/admin/collapse-pattern.service.ts:174-178 | a visited word-bounded occurrence is emitted or overlaps an emitted span of a pattern at least as long |
| `CollapsePatterns.PassedOver` | src/admin/collapse-pattern.service.ts:202-224 | an occurrence is passed over only when a visited occurrence of the same needle runs into it |
| `CollapsePatterns.ScanCompleteIff` | src/admin/collapse-pattern.service.ts:202-224 | the scan visits every word-bounded occurrence in every message if and only if the pattern cannot restart inside itself behind a non-word character |
| `CollapsePatterns.NothingEscapes` | src/admin/collapse-pattern.service.ts:174-178 | for such patterns every word-bounded occurrence overlaps an emitted span at least as long |
| `CollapsePatterns.MissedPhrase` | src/admin/collapse-pattern.service.ts:202-224 | "ba a a" scanned for "a a" yields nothing although a word-bounded copy stands at 3 |

## Left out

- Migrator.SchemaMigrator.Migrate: assumes distinct ids, and that the recorded ids are a prefix of the manifest, which every history from an empty log keeps; a file inserted below recorded ids is not modelled.
- Reranker.Rerank: takes at least one call, as the service's configuration guarantees; rejected calls do not occur because a failed call already falls back to the identity.
- PoolLiveness.NeverStuck: callbacks that take a second connection while holding one are outside the model; some callers nest.
- Changefeed.ChangefeedConsumer.ConsumeSource: one source at a time and one consumer at a time; the in-flight flag does not exclude `drainNow` beside `tick`. Versionstamps are taken to be positive and strictly increasing.
- PredicateRegistry.CanonicalIdIsStable: an active predicate with an empty id is not matched the second time, because the code tests the id for truthiness; the contract says so.
- CollapsePatterns.ScanCompleteIff: case folding maps one character to one character, and characters that fold alike are alike letters or not; foldings that change the length of a string are not modelled.
- OverlappingCalls.OverlapIff: overlapping `embedMany` calls are not modelled; a call that hits counts as under way until its own end.
- Embedder.EmbedderService.EmbedMany: one provider throughout; cache keys are the provider name and the text, with the hash taken as injective.
- ClauseSplitter.SplitSentence: has no branch for a failed search, because the search is proved to succeed.
- Resolver.DreamsResolver.Run: row order of the query is arbitrary, and the group key is one string; the judge is any verdict per pair.
- Facts.FactsService.Retract: audit events, artifact invalidation and metrics are not modelled; the clock and the caller's scopes are parameters.
- Lifecycle.StepKeepsInv: of `fn::resolve_fact` only the writes are modelled (src/db/migrations/0034_supersede_no_retracted_at_fix.surql:171-199), for any pair; its scoring is not.
- Lifecycle.PastFrozenIff: deletion is not among the writes; forgetting an entity (src/entities/entities.service.ts:366) removes its facts from every past read.
- Lifecycle.RetractRow: a retract is several queries without a transaction and counts as one step, and so does `markSuperseded` with its two reads and its write; writers in between them are not modelled.
- Lifecycle.PastReadsKept: the code does not test that a supersede closes a fact no later than it had ended; `Lifecycle.PastReadsKeptIff` covers the runs where it does not.
- BatchedLru.BatchInclusionIff: takes small + large + 1 different keys to exist, as they do among texts.
- Timestamps are integers, time-to-live checks and timers are parameters or arbitrary steps, similarity is an arbitrary real-valued function.
- Row limits (100, 1000), scope filters, the PII gate and after-image redaction.
- Compaction summaries, password resync after a migration, tenant provisioning details.
- `LRUCache.delete`, trace persistence and listing, pattern recording: they would only add easy members.
- The error callback of `mapWithLimit` throwing, and a concurrency that is not a number.
- Search, ingest prediction, artifacts, extraction, leader lease, job claims, controllers, guards and the landing site.
