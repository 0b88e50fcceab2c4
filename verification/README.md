# A verified model of mmmcp

mmmcp puts several MCP servers behind one endpoint. This project models the parts of
it whose correctness depends on interleavings, on arithmetic over tables, or on names
that may collide, and proves what they keep.

| Part | Modules |
|---|---|
| Event replay store: two tables, index allocation, expiry, a size bound and a purge watermark | `EventTables`, `EventReplay`, `EventPrune`, `EventSteps`, `EventStore` |
| Idle retirement of a stdio component's runtime | `ManagerSections`, `StdioManager`, `ManagerRuns` |
| Pool of runtimes shared by key, with session cleanup and shutdown | `PoolSections`, `ComponentPool`, `PoolRuns` |
| Catalog registry: single-flight cache with a debounced background refresh | `RegistrySections`, `CatalogRegistry`, `RegistryRuns`, `RegistryMemory`, `RegistryThreads`, `RegistryFreshness`, `RegistryWaits`, `RegistryCallbacks`, `RegistryInvalidation`, `RegistryResults`, `RegistryAging`, `RegistryProgress`, `RegistryAnswers`, `RegistrySteps`, `RegistryFindings` |
| Names, catalog compilation and route tables | `Namespace`, `CatalogTypes`, `FamilyCompiler`, `CatalogCompiler`, `CatalogExactness`, `CatalogRoutes`, `CatalogCalls` |
| Discovery worker pool | `DiscoverySections`, `Discovery`, `DiscoveryRuns` |
| Request-scoped catalogs and tool calls | `ToolCalls`, `RequestCatalog`, `RequestExactness`, `ScopedSelection` |
| Paging of catalogs and of tool search | `Pagination`, `CatalogPages`, `ToolSearch` |
| Header values and rewriting of resource URIs | `Base64`, `ParamHeader`, `Rewrite` |

## How concurrency is modelled

Each critical section under a mutex is one function on the state that the mutex guards,
and one method of a class (`SQLStore`, `Manager`, `Pool`, `Registry`) that updates its
fields step by step and is proved to compute that function. A run is any sequence of
actions of any number of threads; between two sections of a thread every other thread
may act, opens and compiles may end in any way, and timers may fire at any time while
they are armed. Main results speak about every run.

- Event store: a transaction is one atomic, serializable step, and `fault` stands for a
  transaction that was rolled back. The clock is a parameter of every operation and may
  run backwards unless a result requires `ClockMonotone`.
- Manager: timer callbacks that were ever armed may fire at any time, also after `Stop`;
  a run's state records the activity that the frontend reported last.
- Pool: runs are unrestricted, and `evicted` records the entries that another entry's
  failed open removed from the table. `DisciplinedRun` says that nobody acquires for a
  session after its cleanup; then nothing is ever evicted.
- Registry: an armed timer fires at most once per arming. A configuration stands for its
  own fingerprint. A catalog remembers when its compile began. Besides the registry, a
  run's state records the past: requests, invalidations, compile outcomes, deliveries, the
  reply of every `Get`,
  and the configurations for which some timer has outlived its entry (`disturbed`).
- Compilation: discovery, the URI and template parsers, the argument parser and the
  revision digest are functions in an `Environment`. Where a result needs it, it says
  that discovery does not look at the prefix (`PrefixBlind`) and that the registry's
  cache returns what compiling yields (`Faithful`); `ScopedSelection.HypothesesHold`
  gives two components and a cached catalog of which both hold, and of which one
  component is selected.
- Tools, prompts, resources and templates follow one scheme, and one parametrized
  function and method compiles all four; only tools use overrides as an allow-list.

## Where the code and its intent part

Each is a lemma with a concrete run, next to the exact condition where there is one.

- A `Get` whose entry is invalidated while it waits, and replaced by one that is not ready
  yet, reads neither a catalog nor an error (`catalog/registry.go:207-213`), and line 108
  then looks into a nil catalog: `NilCatalogRead`. It happens exactly while the creator of
  the installed entry still compiles and nothing has dealt with that entry since
  (`NilReadExactly`), and never to a waiter whose own entry is still installed.
- A `Get` that looks at its entry only after it was invalidated opens a new channel on it
  and waits until its context ends: `LostWakeup`. A wait on a dropped entry can end exactly
  if explicit refreshes of it are still to end: one, or two if a notification is pending
  (`WaitEndsExactly`).
- An entry that is asked to refresh before it is ready may be refreshed first and then
  overwritten by its creator's older catalog: `CreatorOverwritesFresher`, and
  `CreatorStoresFresh` and `AgesOnlyWhen` give the exact condition.
- A compile that began before an invalidation can still get its catalog into the table
  after it, although `catalog/registry.go:128-131` rules that out for first compiles: an
  explicit refresh that marked no entry overwrites the replacement
  (`RefreshOverwritesReplacement`), and a `Get`'s compile with its own credentials is
  published where nothing is installed (`OwnCompileOutdated`). These are the only two
  ways, and `OutdatedExactly` also says how long such a catalog stays. If that explicit
  refresh fails instead, it holds the replacement back (`FailedRefreshHoldsBack`, with
  `HeldBackExactly`).
- A timer can outlive the entry that armed it, in four ways (`TimerOutlivesExactly`). It
  then refreshes whatever entry has taken the place, and two refreshes of one entry may
  overlap, so that the older one releases its snapshot: `OutlivedTimerServesStale`.
  `AgedExactly` says which steps make an entry serve a catalog older than the latest
  request and which undo that, in every run; `FailClosedExactly` that a request is
  honoured exactly unless such a step came after it; and `AgesOnlyWhen` that a refresh
  does this only where a timer has outlived an entry.
- Such overlaps can also leave an installed, stale entry with a timer that has fired in
  vain (`catalog/registry.go:379-382`): a `Get` then waits with no refresh under way and
  no timer armed, and so does every later one, unless a notification resets that timer,
  another outlived timer fires, or invalidation or shutdown drops the entry
  (`StalledWait`). As long as a refresh is under way or the timer armed, these alone end
  the wait, whatever their outcome (`HeldWaitEndsExactly`); otherwise the timer is dead
  (`NoLostWakeups`), and `TimerDiesExactly` says which firing kills it. Without
  shutdown, invalidation and new notifications, what else can still end the wait is
  exactly another armed timer of the configuration, an explicit refresh that replaces the
  entry, or, on an entry dropped earlier, an explicit refresh with a notification pending
  or a `Get` that has yet to look (`MovesExactly`).
- A failed open deletes the pool entry under its key even if it is another one
  (`FailedOpenSparesOthers`, `EvictedExactly`), whose runtime is then never closed:
  `UndisciplinedLeak`. When `Close` has returned, the runtimes that were not closed are
  exactly the evicted ones (`ShutdownComplete`, `LeaksExactly`).

## Model

| member | source | states |
|---|---|---|
| `EventStore.SQLStore.Open` | storage/eventstore.go:19-35 | the transaction upserts the stream and prunes, or changes nothing when rolled back; the history starts empty with the row |
| `EventStore.SQLStore.Append` | storage/eventstore.go:38-81 | allocates the next index, records the payload, extends the lifetime and prunes; fails exactly for an unknown stream |
| `EventStore.SQLStore.ReadAfter` | storage/eventstore.go:100-156 | returns exactly the suffix of the history after the index, or purged, as `ReplayCorrect` demands |
| `EventStore.SQLStore.SessionClosed` | storage/eventstore.go:159-174 | removes all and only the session's streams and events, and leaves every other row as it was, stated over the fields |
| `EventStore.SQLStore.Prune` | storage/eventstore_sqlite.go:14-25 | one pruning transaction |
| `EventStore.SQLStore.PruneTables` | storage/eventstore_sqlite.go:27-83 | the loop computes expiry and then eviction; its running totals are the table's true totals in every iteration, and it ends |
| `EventStore.SQLStore.DeleteEvent` | storage/eventstore_sqlite.go:62-80 | removes one event, raises the watermark above it, and changes the totals by exactly that event |
| `EventReplay.RunKeepsInv` | storage/eventstore.go:38-81 | after any run, under any clock, every index from the watermark on is in the log with its original payload, the log holds nothing else than history, and the watermark never exceeds the next index |
| `EventReplay.ReplayRefinesHistory` | storage/eventstore.go:83-156 | a replay is refused exactly when the stream is unknown or something after the index is gone, and otherwise is the history's suffix: no gap, duplicate or reordering, and nil stays apart from empty |
| `EventReplay.RetainedExactly` | storage/eventstore_sqlite.go:48-81 | while the clock never runs backwards, a stream's rows are exactly the indexes from the watermark up to the next one |
| `EventReplay.PurgedFromTheFront` | storage/eventstore_sqlite.go:48-81 | under such a clock a stream loses events only from its front, so a replay is refused exactly when the event after the index is gone |
| `EventPrune.EvictKeepsLargestFittingSuffix` | storage/eventstore_sqlite.go:48-81 | what the size bound keeps is the largest suffix of the retention order that fits: the victims are a minimal prefix |
| `EventPrune.EvictWatermarks` | storage/eventstore_sqlite.go:68-78 | each watermark ends one above the highest victim of its stream, or stays |
| `EventPrune.RunBounded` | storage/eventstore_sqlite.go:11-83 | after any run the retained bytes fit the bound or at most one event is left |
| `EventSteps.SessionClosedExactly` | storage/eventstore.go:159-174 | in any run, closing a session deletes exactly its streams, histories and events, and the others keep their rows |
| `EventSteps.StreamsExactly` | storage/eventstore.go:19-81 | in any run, a transaction lets live exactly the stream it opens or appends to and the others that neither expire nor lose their session; it renews that one's lifetime, and extends that one's history, alone |
| `EventSteps.LivesExactly` | storage/eventstore_sqlite.go:28-40 | a stream exists after a run exactly if some transaction opened or appended to it, none has since, none has pruned at or after the end of the lifetime this gave it, and its session has not been closed since |
| `EventSteps.EventsExactly` | storage/eventstore_sqlite.go:27-83 | in any run, a transaction keeps the events of living streams, adds the one it appends, and if it prunes keeps the largest suffix of the retention order that fits |
| `EventSteps.RetentionOrder` | storage/eventstore_sqlite.go:51-55 | the retention order compares creation times, then sessions, streams and indexes |
| `EventPrune.PruneExpires` | storage/eventstore_sqlite.go:28-40 | pruning deletes exactly the expired streams, with all their events |
| `StdioManager.Manager.Enter` | component/stdio/manager.go:47-72 | one pass of acquire up to where it returns, waits or opens |
| `StdioManager.Manager.Publish` | component/stdio/manager.go:74-92 | the section after open: install, discard or report failure |
| `StdioManager.Manager.Release` | component/stdio/manager.go:95-102 | gives back an operation and arms the timer when idle |
| `StdioManager.Manager.SetFrontendActivity` | component/stdio/manager.go:104-116 | clamps the activity and stops or arms the timer |
| `StdioManager.Manager.StopTimer` | component/stdio/manager.go:118-124 | forgets the timer and starts a new generation |
| `StdioManager.Manager.ArmTimer` | component/stdio/manager.go:126-133 | arms a timer of a new generation exactly when idle and none is armed |
| `StdioManager.Manager.Retire` | component/stdio/manager.go:135-152 | takes the runtime only for the current generation of an idle manager |
| `StdioManager.Manager.Close` | component/stdio/manager.go:195-213 | closes once and hands out the installed runtime |
| `ManagerRuns.IdleTimerExact` | component/stdio/manager.go:95-152 | in every reachable state the timer is set exactly when the manager is open, has a runtime, nobody holds it and the last reported activity is not positive; a callback acts exactly when it is current, and then finds a runtime, so the nil branch of retire is unreachable |
| `ManagerRuns.ActivityExact` | component/stdio/manager.go:104-116 | in every run the activity is the last report clamped at zero, and while that is positive no callback takes the runtime |
| `ManagerRuns.AcquireExactly` | component/stdio/manager.go:47-73 | in every run an acquire is refused exactly by a closed manager, joins exactly the installed runtime, waits exactly for an open in flight, and otherwise opens |
| `ManagerRuns.PublishExactly` | component/stdio/manager.go:74-92 | a returned open is installed and held exactly if it succeeded and the manager is still open, is closed by its opener if it comes too late, and releases whoever waits |
| `ManagerRuns.RuntimeTakenExactly` | component/stdio/manager.go:135-152 | an installed runtime is taken exactly by Close or by the callback of the armed timer, and whoever takes it closes it |
| `ManagerRuns.AcquisitionsExact` | component/stdio/manager.go:47-102 | activeOperations is the number of holders; at most one open is in flight, and none while a runtime is installed |
| `ManagerRuns.RetireSparesHolders` | component/stdio/manager.go:135-152 | no timer callback closes a runtime that someone holds |
| `ManagerRuns.NoRuntimeLeaks` | component/stdio/manager.go:74-92 | no runtime is closed twice; after Close, with nothing in flight, every runtime ever opened was closed exactly once |
| `ManagerRuns.WaitersWake` | component/stdio/manager.go:61-82 | every waiter's channel is closed or belongs to an open in flight |
| `ComponentPool.Pool.Acquire` | component/pool.go:51-86 | the section that joins an entry, or creates one and watches its session |
| `ComponentPool.Pool.Publish` | component/pool.go:88-94 | the section after OpenRuntime, deleting by key on failure |
| `ComponentPool.Pool.Release` | component/pool.go:110-116 | gives back a reference of an entry that is still installed |
| `ComponentPool.Pool.CloseSession` | component/pool.go:144-164 | the loop detaches all and only the session's entries and registers the cleanup first |
| `ComponentPool.Pool.Close` | component/pool.go:184-199 | the loop drains the table, once |
| `PoolRuns.TableExactly` | component/pool.go:57-199 | in every run the table changes exactly so: an acquire that finds nothing adds an entry, a failed open removes what has its key, a session takes along its entries and shutdown all |
| `PoolRuns.AcquireExactly` | component/pool.go:57-108 | an acquire is refused exactly by a closed pool, waits for the entry under its key, or opens one; it gets the runtime exactly if that open succeeds |
| `PoolRuns.DetachedExactly` | component/pool.go:144-199 | whoever ends a session or shuts down must close exactly the entries this removes |
| `PoolRuns.SharedExactly` | component/pool.go:57-116 | one installed entry per key, whose refs equal its holders, waiters and opener; it is open or opening and its session is watched, in every run; its session has not ended if nobody acquires for an ended one |
| `PoolRuns.ShutdownComplete` | component/pool.go:144-219 | in every run nothing is closed twice; when Close returns, every runtime ever opened, in flight or detached, was closed exactly once unless its entry was evicted, and then never; cleanupFailures counts the failed session closes |
| `PoolRuns.LeaksExactly` | component/pool.go:88-94 | when Close returns, every opened runtime was closed exactly if no entry whose runtime opened was ever evicted |
| `PoolRuns.EvictedExactly` | component/pool.go:88-94 | a step evicts an entry exactly if the entry leaves the table without having failed and with nobody left to close it, and only a failed open that finds it under its key does that; what is evicted stays out of reach |
| `PoolRuns.DisciplinedShutdown` | component/pool.go:144-219 | if nobody acquires for an ended session, nothing is evicted and every runtime is closed exactly once |
| `PoolRuns.FailedOpenSparesOthers` | component/pool.go:88-94 | a failed open leaves every other live entry installed exactly when the entry under its key is its own |
| `PoolRuns.UndisciplinedLeak` | component/pool.go:88-94 | a run in which a reused session key leaks a runtime |
| `CatalogRegistry.Registry.EntryForConfig` | catalog/registry.go:161-170 | finds the entry or installs an empty one |
| `CatalogRegistry.Registry.PublishFirst` | catalog/registry.go:120-141 | stores a first compile, drops the entry if it is still its own and the compile failed or is pending, and opens it |
| `CatalogRegistry.Registry.PublishOwn` | catalog/registry.go:145-158 | installs a waiter's own ready catalog unless the place is taken |
| `CatalogRegistry.Registry.WaitSection` | catalog/registry.go:181-197 | the answer, or the channel to wait for with a refresh armed |
| `CatalogRegistry.Registry.ReadCurrent` | catalog/registry.go:207-213 | the re-read after waiting, of whichever entry is installed |
| `CatalogRegistry.Registry.Cached` | catalog/registry.go:77-96 | a ready, fresh, error-free and complete catalog or nothing |
| `CatalogRegistry.Registry.BeginRefresh` | catalog/registry.go:226-263 | one pass of Refresh's loop |
| `CatalogRegistry.Registry.EndRefresh` | catalog/registry.go:268-278 | the end of a search refresh |
| `CatalogRegistry.Registry.ReplaceEntry` | catalog/registry.go:279-311 | the end of any other refresh: replace on success, mark stale on failure |
| `CatalogRegistry.Registry.RequestRefresh` | catalog/registry.go:347-374 | records the callback, holds back the snapshot and schedules |
| `CatalogRegistry.Registry.BeginRerun` | catalog/registry.go:376-389 | what a firing timer takes before it compiles |
| `CatalogRegistry.Registry.EndRerun` | catalog/registry.go:393-402 | finishes only on the entry it started with |
| `CatalogRegistry.Registry.FinishRefresh` | catalog/registry.go:408-431 | installs a success, releases the waiters once nothing is pending, re-arms otherwise |
| `CatalogRegistry.Registry.InvalidateComponent` | catalog/registry.go:315-343 | the loop, in any order, drops exactly the entries that list the component, stops their timers and closes their channels |
| `CatalogRegistry.Registry.Close` | catalog/registry.go:434-453 | the loop, in any order, settles every installed entry |
| `CatalogRegistry.ReleasedAll` | catalog/registry.go:319-342 | the order in which the map is walked does not matter |
| `RegistryAnswers.AnsweredExactly` | catalog/registry.go:99-115 | in every run and for every configuration, a Get that looks at a ready entry is refused exactly with its creator's failure, compiles for itself exactly if that one lacked credentials or is pending, is served the stored catalog exactly if that is finished and not held back, and otherwise waits or gives up |
| `RegistryAnswers.ErrorByRun` | catalog/registry.go:120-141 | a ready entry holds an error exactly if its creator's compile failed with it |
| `RegistryAnswers.CatalogByRun` | catalog/registry.go:117-158 | an entry holds a catalog exactly if some step ended that compile for it, and none has ended a later one since |
| `RegistryAnswers.AwaitedExactly` | catalog/registry.go:199-214 | after a wait for a refresh a Get is served what is installed by then, unless that is held back, gone, pending or not there yet |
| `RegistryAnswers.CompilerAnswered` | catalog/registry.go:109-141 | whoever compiles, first or with its own credentials, is answered what that compile came to |
| `RegistryAnswers.AnsweredIsOver` | catalog/registry.go:99-141 | a Get that is answered is over, and so is one that gives up |
| `RegistryAnswers.CachedIsServed` | catalog/registry.go:77-96 | what Cached hands out, a Get that looks at that entry next is served |
| `RegistryAnswers.RepliesJustified` | catalog/registry.go:99-214 | every catalog ever served comes from a compile on record as a success, pending ones only with deferral, and nobody is refused without a failure on record |
| `RegistrySteps.TableExactly` | catalog/registry.go:117-343 | in every run, the exact steps that install, replace and remove a configuration's entry, and by what |
| `RegistrySteps.GetExactly` | catalog/registry.go:161-170 | a Get compiles exactly if nothing is installed, and otherwise waits for the installed entry |
| `RegistrySteps.RefreshExactly` | catalog/registry.go:217-263 | an explicit refresh stops, waits or compiles exactly as the registry, the entry and its refreshDone demand, and what it marks |
| `RegistrySteps.RequestExactly` | catalog/registry.go:347-374 | a request is remembered whole: callback, hold, channel, and the timer or the pending flag |
| `RegistrySteps.FireExactly` | catalog/registry.go:376-389 | a firing timer refreshes exactly the installed entry, with all its callbacks, unless one is marked as under way |
| `RegistrySteps.EndExactly` | catalog/registry.go:408-431 | the end of a refresh, for every configuration: what is stored, held back, released and re-armed |
| `RegistrySteps.SweptExactly` | catalog/registry.go:315-343 | invalidation and shutdown stop the timers and release the waiters of exactly the entries they are about |
| `RegistryResults.OnlyGoodCatalogsCached` | catalog/registry.go:120-158 | in every interleaving a ready installed entry holds a finished catalog without error, and that is exactly what Cached hands out |
| `RegistryResults.InvalidatedCompileHarmless` | catalog/registry.go:128-131 | every compile that has an entry of its own, which was invalidated or replaced since, changes neither the table nor any other entry; a background one changes nothing, and only an explicit refresh with another request pending arms a timer |
| `RegistryInvalidation.OutdatedExactly` | catalog/registry.go:279-311 | after any step the installed catalog began before an invalidation of one of its components exactly if the step ended such a compile in one of the two ways above, or it was so before and the step did not renew it |
| `RegistryFindings.RefreshOverwritesReplacement` | catalog/registry.go:279-311 | a run in which an explicit refresh that began before an invalidation overwrites the replacement |
| `RegistryFindings.FailedRefreshHoldsBack` | catalog/registry.go:279-288 | a run in which an explicit refresh that began before an invalidation fails and holds back the replacement |
| `RegistryFindings.OwnCompileOutdated` | catalog/registry.go:143-158 | a run in which a waiter publishes what it discovered before an invalidation |
| `RegistryResults.FailClosedFreshness` | catalog/registry.go:174-214 | for a ready, installed search entry, every Get after a request or explicit refresh returns an error or a catalog whose compile began no earlier, also when requests arrive during a compile; as long as no timer has outlived an entry of its configuration, and unless it was asked for before it was ready |
| `RegistryAging.FailClosedExactly` | catalog/registry.go:174-214 | after any request, in every run, each section in which a Get reads the entry fails closed for the latest request exactly unless a later step has aged the entry and none has cured it since |
| `RegistryAging.AgedExactly` | catalog/registry.go:391-431 | in every run, an entry serves a catalog older than the latest request after a step exactly if the step ends a refresh that began before that request, well and with nothing pending, or its creator's compile while it is not held back; or if it did before and the step neither asks for it, ends a refresh of it, nor fails beside it |
| `RegistryAging.AgedByRun` | catalog/registry.go:391-431 | a run leaves an entry aged exactly if one of its steps aged it and none has cured it since |
| `RegistryAging.ServedExactly` | catalog/registry.go:181-214 | a ready search entry, installed or not, fails closed in every read exactly if it is not aged, and otherwise hands out its older catalog without error |
| `RegistryAging.AgesOnlyWhen` | catalog/registry.go:376-431 | a refresh ages its entry only after a timer has outlived an entry of the configuration; a creator does exactly if the entry is not held back and was asked for before it was ready |
| `RegistryAging.HeldBackExactly` | catalog/registry.go:268-288 | a search entry is held back after a step exactly if the step asks for it, ends a refresh of it in vain or with another pending, or is the failure of any explicit refresh that marked no entry; or if it was and no refresh of it ended |
| `RegistryResults.CreatorStoresFresh` | catalog/registry.go:120-141 | a creator stores a catalog no older than the last request exactly when no request came before the entry was ready |
| `RegistryResults.RefreshDoneExact` | catalog/registry.go:357-374 | while open, an installed search entry with refreshDone set has a timer or a refresh under way; as long as no timer has outlived an entry of its configuration, refreshDone is set exactly when the timer is armed or one refresh is under way, never both |
| `RegistryResults.RefreshDoneBreaksExactly` | catalog/registry.go:376-431 | in any configuration, that correspondence is undone exactly when a timer fires while refreshDone is nil, or one of several refreshes of the entry ends before the others; both take an outlived timer |
| `RegistryResults.StartsMarked` | catalog/registry.go:161-170 | every new entry meets that correspondence |
| `RegistryResults.NoLostWakeups` | catalog/registry.go:181-206 | whoever began to wait on an installed entry waits on a closed channel, or on that entry's: then a refresh is under way or its timer is armed, or exactly otherwise its timer is dead, which takes a timer that has outlived an entry of the configuration |
| `RegistryResults.TimerDiesExactly` | catalog/registry.go:376-382 | the timer of an installed entry dies exactly when it fires while a refresh of the entry is marked as under way |
| `RegistryProgress.HeldWaitEndsExactly` | catalog/registry.go:181-206 | an open wait that began on an installed entry is ended by the refreshes and timers under way, however the compiles end, if one of them is the entry's; and without shutdown, invalidation and new notifications it can end exactly if something is under way for the configuration |
| `RegistryProgress.WorkReleases` | catalog/registry.go:376-431 | a refresh of an installed entry under way, or any armed timer of its configuration, leads to its channel's closing by firing timers and ending refreshes alone, whatever the outcomes |
| `RegistryProgress.MovesExactly` | catalog/registry.go:181-431 | without shutdown, invalidation and new notifications, the channel of an installed entry can close exactly if a refresh of it is under way, a timer of its configuration is armed, an explicit refresh is to replace it, or a refresh or a Get is to arm a timer for an entry dropped earlier |
| `RegistryWaits.WaitEndsExactly` | catalog/registry.go:181-206 | an open wait, on any entry, can end in some continuation exactly if the entry is installed, or the registry is open and an explicit refresh of the entry is still to end: two if a notification is pending; for an installed entry this may take shutdown |
| `RegistryWaits.AbandonedForever` | catalog/registry.go:315-343 | the channel of a dropped entry without such a refresh stays open in every continuation, background refreshes or not |
| `RegistryResults.ReadyWillCome` | catalog/registry.go:175-179 | whoever waits for ready has a creator at work |
| `RegistryResults.NextGetRearms` | catalog/registry.go:190-196 | the next Get of a stale entry with nothing under way waits on an open channel with the refresh armed, exactly unless the entry's timer is dead; it is never dead while no timer has outlived an entry of the configuration |
| `RegistryResults.ShutdownSettles` | catalog/registry.go:434-453 | after Close no installed entry has a timer or refreshDone, also after later sections |
| `RegistryResults.TimerOutlivesExactly` | catalog/registry.go:408-431 | a timer outlives its search entry exactly in the four listed ways |
| `RegistryCallbacks.CallbacksDeliveredOnce` | catalog/registry.go:347-406 | no callback is delivered twice, and each is told the outcome of a compile that began after it was registered |
| `RegistryCallbacks.CallbacksAccounted` | catalog/registry.go:347-406 | a callback is taken on exactly by a request for an installed entry of an open registry, and is then collected by its entry, carried by the refresh that took it, or delivered: none is lost |
| `RegistryCallbacks.OutcomesRecorded` | catalog/registry.go:391-405 | every compile that ends is on record under its own start time, with its outcome and for good |
| `RegistryCallbacks.RerunReports` | catalog/registry.go:391-405 | a background refresh hands on exactly the callbacks it took, each registered before it began and not delivered yet, with the outcome that goes on record for it |
| `RegistryFindings.NilCatalogRead` | catalog/registry.go:207-213 | a run that ends in a read of neither catalog nor error |
| `RegistryFindings.NilReadExactly` | catalog/registry.go:209-213 | such a read of a search catalog happens exactly when the installed entry's creator still compiles and no request, failed explicit refresh or background refresh has dealt with the entry |
| `RegistryFindings.OwnEntryNeverNil` | catalog/registry.go:207-213 | whoever waited on an entry that is still installed reads a catalog or that none is available |
| `RegistryFindings.LostWakeup` | catalog/registry.go:190-206 | a Get that looks at an invalidated entry waits on a channel that no continuation closes |
| `RegistryFindings.StalledWait` | catalog/registry.go:376-382 | a run after which a Get waits on an installed entry with no refresh under way and no timer armed, another Get would change nothing, and nothing that is under way can end the wait |
| `RegistryFindings.CreatorOverwritesFresher` | catalog/registry.go:120-123 | a run in which a creator serves a catalog older than a request |
| `RegistryFindings.OutlivedTimerServesStale` | catalog/registry.go:376-389 | a run in which an outlived timer serves a catalog older than an explicit refresh |
| `Namespace.ValidatePart` | namespace/namespace.go:74-88 | the scan accepts exactly the valid parts |
| `Namespace.BuildPrefix` | namespace/namespace.go:14-40 | the builder loop computes the prefix |
| `Namespace.PrefixValid` | namespace/namespace.go:14-40 | a prefix is a valid part; a derived one is lower-case and has no underscore at its ends |
| `Namespace.PrefixExists` | namespace/namespace.go:22-39 | a component gets a derived prefix exactly when its name has a valid character other than an underscore |
| `Namespace.PrefixFixed` | namespace/namespace.go:14-40 | deriving a prefix again changes nothing |
| `Namespace.DerivedExactly` | namespace/namespace.go:22-39 | a derived prefix is the component's name in lower case with an underscore for each inner gap, trimmed, and exists unless nothing else is left |
| `Namespace.RunesExactly` | namespace/namespace.go:86-88 | the valid characters and their lower-case forms, one by one |
| `Namespace.NamesExactly` | namespace/namespace.go:52-72 | a name exists exactly within the limit and for valid parts, is the two parts apart by underscores, and otherwise the first fault is reported |
| `Namespace.NamesInjective` | namespace/namespace.go:52-72 | under one prefix a name determines the local name, and is itself valid and within the limit |
| `Namespace.NamesAmbiguous` | namespace/namespace.go:61-67 | two prefixes can build the same name |
| `Namespace.UrisExactly` | namespace/uri.go:12-52 | which URIs exist, how they are built, and which fault is reported otherwise |
| `Namespace.UrisInjective` | namespace/uri.go:12-26 | a prefixed URI determines its prefix and its original |
| `FamilyCompiler.BuildKeyedOverrides` | catalog/compiler.go:397-407 | the loop keys the overrides or reports a repeated key |
| `FamilyCompiler.KeyedExactly` | catalog/compiler.go:397-407 | the map exists exactly when no key repeats, and then holds each override under its key |
| `FamilyCompiler.CompileSection` | catalog/compiler.go:222-266 | the loop over one family of one component |
| `FamilyCompiler.AddAllExactly` | catalog/compiler.go:230-265 | it succeeds exactly when nothing is nil or repeated, every allowed name is valid, and no name is taken or built twice; then it installs exactly the offers |
| `FamilyCompiler.OffersExactly` | catalog/compiler.go:231-263 | the offers are exactly the allowed features, each under its name and with its overrides; what is allowed is `RouteTableExact`'s subject |
| `FamilyCompiler.FaultExactly` | catalog/compiler.go:231-253 | a failure reports the fault of the first feature that cannot be added, and between which components |
| `CatalogCompiler.CompileFamilies` | catalog/compiler.go:100-128 | one component's four families in turn |
| `CatalogCompiler.CompileServers` | catalog/compiler.go:54-59 | the loop over the components |
| `CatalogCompiler.BuildPrefixes` | catalog/compiler.go:32-42 | the loop over the prefixes |
| `CatalogCompiler.CompileConfig` | catalog/compiler.go:30-86 | the whole of compile |
| `CatalogExactness.AcceptedExactly` | catalog/compiler.go:251-253 | components fit in one after the other exactly when they are coherent pair by pair |
| `CatalogExactness.AllExactly` | catalog/compiler.go:54-59 | components compile together exactly when each fits in every family, and then each section is what the offers add up to |
| `CatalogExactness.CompileExactly` | catalog/compiler.go:30-86 | a configuration compiles exactly when every component has the prefix it is due and lists its features, or asks for an authorization that may be deferred; in each family every component's offers are sound and no two components offer the same name; and no tool takes the reserved name |
| `CatalogExactness.FindExactly` | catalog/compiler.go:164-201 | what discovering one coherent component comes to, and its error otherwise |
| `CatalogExactness.SortSorts` | catalog/catalog.go:84-92 | sorting orders by name and permutes |
| `CatalogRoutes.RouteTableExact` | catalog/compiler.go:222-266 | over the configuration itself: a name has a route exactly when some component reports a feature, or maps a URI, that is selected (no tools if they are disabled, only tools with an enabled override once there are any, elsewhere whatever no override disables), takes its override's local name or its own, and gets this name; the route leads back to it |
| `CatalogCalls.DefinitionsExactly` | catalog/compiler.go:255-263 | a catalog holds exactly the selected features, each under its name with the component's body and the texts of its override where it has any |
| `CatalogRoutes.ExposedExactly` | catalog/catalog.go:84-92 | the exposed names are strictly sorted and are exactly the names with routes |
| `CatalogRoutes.PendingExactly` | catalog/compiler.go:65-79 | a catalog is pending exactly when some component asked for authorization, which never happens without deferral; it routes nothing |
| `CatalogRoutes.CatalogPresents` | catalog/compiler.go:44-79 | a pending catalog names exactly the components that ask for authorization, in order; a catalog presents itself as its only component does |
| `Discovery.Pool.Claim` | catalog/compiler.go:152-162 | the section in which a worker takes a component |
| `Discovery.Pool.Report` | catalog/compiler.go:164-201 | what a worker does with a discovery |
| `DiscoveryRuns.ParallelExactly` | catalog/compiler.go:143-150 | one worker for each component, up to eight |
| `DiscoveryRuns.ClaimedOnce` | catalog/compiler.go:143-162 | components are taken in order, each at most once |
| `DiscoveryRuns.SuccessIsSequential` | catalog/compiler.go:134-220 | without error the workers found exactly what discovering one after the other finds, in the same order |
| `DiscoveryRuns.OutcomeExactly` | catalog/compiler.go:164-219 | unless the caller cancels, the pool fails exactly when a component fails; challenges cancel nobody and are joined in configuration order |
| `DiscoveryRuns.WorkersFinish` | catalog/compiler.go:150-206 | no deadlock, and every step of a worker brings the end closer |
| `ToolCalls.SearchDocuments` | catalog/search.go:11-25 | the loop indexes the revision of every routed tool |
| `ToolCalls.ScanTools` | catalog/search.go:62-71 | the scan finds the first tool of a name |
| `ToolCalls.CatalogResolves` | catalog/search.go:52-73 | with or without an index, a catalog resolves a name to the one offer under it, with that offer's revision |
| `CatalogCalls.CallsExactly` | catalog/tool_calls.go:30-74 | for every compiled catalog, from what the components expose: direct calls are forwarded exactly to the tool of that name; with tool search only the two generic tools are callable, and the calling one forwards exactly to the tool of that name and revision, and tells bad arguments, unavailable tools and stale references apart |
| `CatalogCalls.PendingCallsNothing` | catalog/tool_calls.go:30-38 | a pending catalog forwards no call |
| `RequestCatalog.BuildRequestConfig` | request_catalog.go:15-55 | family restriction and the cases without selection |
| `RequestCatalog.BuildSelection` | request_catalog.go:56-100 | the candidate loop and the cached-owner loop |
| `RequestExactness.ScopeExactly` | request_catalog.go:13-100 | a request's configuration differs in its components alone: which are kept, for every method, mode and argument, up to the owner that a cached catalog knows |
| `RequestExactness.FamilyExactly` | request_catalog.go:22-33 | which family a method is limited to |
| `RequestExactness.CandidateExactly` | request_catalog.go:56-77 | a component is a candidate exactly if names under its prefix start as the wanted one does |
| `ScopedSelection.KeepFinds` | request_catalog.go:56-77 | the candidates offer the same tool under the name as all components do, also when none owns it |
| `ScopedSelection.OwnerSelected` | request_catalog.go:84-97 | the cached owner alone offers the same tool |
| `ScopedSelection.BadArguments` | request_catalog.go:46-51 | arguments that do not parse get the same answer from no components |
| `ScopedSelection.ScopedSelectionPreserves` | request_catalog.go:13-100 | whenever the full tools catalog compiles, the reduced one compiles and resolves every name alike: same tool, prefix, protocol version and revision, and the same component up to its prefix field |
| `Pagination.RejectedExactly` | catalog/pagination.go:28-40 | a cursor is rejected exactly when it is of another catalog or family or names no identity; otherwise the page starts right after that identity |
| `Pagination.PageAdvances` | catalog/pagination.go:41-49 | a page is full unless the list ends, is empty only at the end, and its cursor leads right behind it |
| `Pagination.WalkComplete` | catalog/pagination.go:28-50 | with any page sizes, following cursors lists every identity exactly once, in order, and ends |
| `Pagination.FeaturesPaged` | catalog/pagination.go:73-105 | a page holds the features of its span, each in its place |
| `CatalogPages.CatalogWalk` | catalog/pagination.go:71-105 | in every compiled catalog and family, also of search and pending catalogs, such a walk lists every name that the catalog shows there exactly once, in order |
| `CatalogPages.PagedExactly` | catalog/pagination.go:73-105 | a pending catalog shows one tool and nothing else, a search catalog shows the two tools that find and call the others, and all else shows exactly the names with routes |
| `ToolSearch.Search` | toolsearch/search.go:432-533 | the method returns the page of the full list and whether more follows, although it fetches one hit more than the page at most |
| `ToolSearch.SortPromotes` | toolsearch/search.go:502-516 | the sort puts the exact name first and leaves the ranking otherwise |
| `ToolSearch.FetchSuffices` | toolsearch/search.go:448-500 | what is fetched and promoted is a prefix of the full list, and longer than the page exactly when the full list is |
| `ToolSearch.WalkComplete` | toolsearch/search.go:432-533 | walking the pages returns the exactly named tool first and then every other match, each once, and ends |
| `Base64.EncodeExactly` | component/http/client.go:444 | each three bytes become four symbols of the same 24-bit number, with zero bits and padding at the end as section 4 of RFC 4648 demands |
| `Base64.SymbolExactly` | component/http/client.go:444 | the symbols are those of table 1 of RFC 4648 |
| `Base64.RoundTrip` | component/http/client.go:444 | decoding undoes encoding |
| `ParamHeader.EncodeParamHeader` | component/http/client.go:418-446 | the method wraps exactly what must be wrapped |
| `ParamHeader.WrappedExactly` | component/http/client.go:437-445 | a text is sent as it is exactly if it is printable ASCII without spaces at its ends and does not look wrapped, and otherwise in base 64 between the markers |
| `ParamHeader.TextExactly` | component/http/client.go:420-436 | flags are spelled out, and exactly texts, flags and safe integers have a header |
| `ParamHeader.HeaderRoundTrip` | component/http/client.go:437-445 | unwrapping a wrapped header, and taking any other as it is, gives back every string |
| `ParamHeader.HeaderInjective` | component/http/client.go:437-445 | different strings get different headers |
| `ParamHeader.HeaderPrintable` | component/http/client.go:437-445 | every header is printable ASCII without spaces or tabs around it |
| `ParamHeader.NumberHeader` | component/http/client.go:429-433 | a number has a header exactly when it is an integer of at most 53 bits, in decimal notation and never wrapped |
| `Rewrite.ToCompositeURI` | catalog/rewrite.go:96-114 | the search through the map, in any order |
| `Rewrite.RewriteOneContent` | catalog/rewrite.go:64-94 | rewrites every URI of a content and nothing else |
| `Rewrite.RewriteContent` | catalog/rewrite.go:53-62 | the same for a list |
| `Rewrite.RewriteThenRoute` | catalog/rewrite.go:53-114 | in nested content the shape stays, and every URI of an exactly listed resource routes back to itself |
| `Rewrite.RoutesExactly` | catalog/catalog.go:72-82 | a URI routes to the resource listed under it, and only otherwise through the templates |
| `Rewrite.UnlistedBecomes` | catalog/rewrite.go:102-114 | a URI that is listed nowhere goes through the templates or is wrapped so that it still names its component |
| `Rewrite.RewriteExactly` | catalog/rewrite.go:96-101 | in a compiled catalog, what an original becomes is independent of the map's order exactly if at most one component with that prefix exposes it |
| `Rewrite.RewriteDeterministic` | catalog/rewrite.go:96-101 | without shared prefixes it routes back to the same component, and does not depend on the map's order |

## Left out

- SQL drivers, isolation levels and the retry loop of `runTransaction`: a committed transaction is one step, an error is a rollback.
- Iteration through `After`: it yields what `readAfter` returns.
- `CatalogRegistry.Registry.PublishFirst`: does not model the search index that is started with a compile, nor do the other sections.
- Registry and pool entries are records in a map named by identity, not objects of their own: that a waiter and the table refer to one entry is a shared name.
- A `Reset` or a `Stop` that loses against a timer that is already firing (`catalog/registry.go:331-333, 371, 434-453`); debounce lengths and other durations.
- `onOpen` and `onClose` hooks of the pool, `SetFrontendActivity` on pooled runtimes, and the texts of errors.
- Contexts appear only as the choice to stop waiting.
- `CatalogCompiler.CompileConfig`: when several components fail, it reports the first in configuration order; which one the workers report depends on timing, and `OutcomeExactly` covers all of them.
- Hashing of fingerprints, revisions and catalog identities, and the JSON forms around them.
- Template matching: template routes are given functions, and the routing-back results are about exactly listed resources.
- `Rewrite.RewriteContent`: does not model the wrappers for tool, prompt and read results, which apply it to each part.
- `Pagination.PageOf`: does not model overflow of page arithmetic; integers are unbounded throughout, also for generations and indexes.
- `ToolSearch.Search`: does not model index building, waiting and scoring; the engine is a fixed total ranking of which it returns the best entries.
- HTTP handlers, SSE, stdio transports, process launching, OAuth, configuration loading, health probes and settings.
