# Verification of the dispatch service, the currency stores and the data history job

This project models four stateful parts of the trading engine in Dafny and proves what they
promise, over every input, every iteration order and every run.

* **Dispatch** (`DispatchProtocol`, `DispatchSafety`, `DispatchJobs`, `Dispatcher`). Relayers, senders,
  job queues, routes and the channel pool as a transition system with one step for every locked
  region or channel operation. A start allocates a *generation* (job channel and shutdown channel);
  goroutines that already wait keep the generation they saw, so a stop that times out and a restart
  are ordinary runs. Every stop leaves a goroutine in a call of Wait, which is held, released and
  returns in steps of its own; a panic ends a run. `Dispatcher` holds the object whose methods refine the steps.
* **Currency registry and pairs** (`Currency`, `Registry`, `RegistryFile`, `Pairs`, `PairChanges`,
  `PairLookup`, `PairsManager`, `UpdatePairs`, `UpdatePairsLaws`, `UpdatePairsEffects`, `Translation`,
  `PairParsing`). Items are
  heap objects and equality of codes is identity of items. The registry is append-only; the pair
  store keeps an index next to its lists; the update of an exchange's pairs compacts the enabled
  list in place. The *stripped name* of a pair is its lower-case base followed by its lower-case
  quote; different pairs can share it.
* **Foreign exchange table** (`CrossRates`, `Conversion`, `ConversionLaws`). The matrix of cross rates
  that is filled from partial quotes met in any order, the lookups in it, where some currencies stand
  for others, and the cells registered conversions share.
* **Data history job** (`DataHistory`, `DataHistoryRuns`, `DataHistoryResults`). A retry and batch scheduler over date
  ranges; one attempt at a range is an oracle.

`dafny verify dfyconfig.toml` checks the whole project.

## Conventions

* Loops over Go maps take the keys in any order. Random choices, the pool's choice of a channel, the
  answers of exchanges and databases and the generated identifiers are parameters.
* Errors are values (`Outcome`, `Result`, `Option`); messages and wrapped text are not kept.
* Strings are ASCII. Rates are real numbers, and a division by zero gives zero. Which updates succeed
  and which pairs get rates is exact for all quotes; what is said of the rates themselves is meant for
  quotes without a zero, which never lead to such a division.

## Findings

* A job whose range failed first and then succeeded is never finished, because the completion check
  looks at the first result of a range only (`DataHistoryRuns.FailedThenCompleteStaysOpen`). Without
  overwriting, a failed range whose data arrives by other means is stranded too
  (`DataHistoryRuns.CoveredFailureStaysOpen`); the exact condition is in
  `DataHistoryRuns.CoveredJobFinishesIff`.
* Loading a dumped currency file merges a stable and an unset entry of one symbol, because the unset
  list is loaded first; this is the only loss of entries (`RegistryFile.DumpThenLoad`). A dump that
  is loaded without having been written and read back always ends in an error, because the time of the
  last update then is an integer, which the load does not handle.
* With format upgrades bypassed, updating the pairs twice is not the same as once
  (`UpdatePairsLaws.BypassedUpdateTwiceCanChange`); the exact condition is in `UpdatePairsLaws.UpdateTwice`.
* Whether an exchange rate update succeeds can depend on the iteration order of the quotes
  (`ConversionLaws.OrderMatters`). `ConversionLaws.SucceedsInEveryOrderIff` and
  `ConversionLaws.SucceedsInSomeOrderIff` say when, and `ConversionLaws.SameInEveryOrderIff` says when the
  table does not depend on it either.
* A lookup replaces tether by the dollar and the old rouble by the new one, an update does not. A quoted
  old rouble is not found when the new one is not quoted (`ConversionLaws.OldRoubleNotFound`), and the law of
  no arbitrage holds for lookups exactly when what the quoted currencies stand for is quoted too
  (`ConversionLaws.NoArbitrageIff`).
* After a stop that timed out, a restart can leave more relayers alive than its limit
  (`DispatchSafety.TimedOutStopExceedsLimit`; exactly when in `DispatchSafety.RestartExceedsIff`). It can
  also panic, because the goroutine of that stop may not have returned from Wait yet
  (`DispatchSafety.RestartCanPanic`; exactly when in `DispatchSafety.RestartPanicsIff`). A later stop without a
  timeout does not rule this out (`DispatchSafety.CleanStopIsNotEnough`).
* The comment on `Register` in `currency/conversion.go` says that a missing rate is added and that
  updates are quick; the code refuses a missing rate, and an update allocates new cells, so that a
  registered conversion keeps its old rates. The model follows the code.

## Model

| member | source | states |
|---|---|---|
| `DispatchSafety.PanicsIff` | dispatch/dispatch.go:73-234 | In every run, timed-out stops and restarts included, no send meets a closed pipe, publish never pushes to a closed job queue, no channel is closed twice and the wait group never goes negative: a step panics if and only if it reuses the wait group before a Wait has returned |
| `DispatchSafety.RestartPanicsIff` | dispatch/dispatch.go:104-135 | A restart panics, or lets a goroutine panic next, if and only if the Wait of an earlier stop is not over |
| `DispatchSafety.HazardOnlyByRestart` | dispatch/dispatch.go:130-141 | No step but a restart makes a panic possible, and a restart does exactly when a goroutine released from Wait has not returned |
| `DispatchSafety.GuardedNeverPanics` | dispatch/dispatch.go:73-234 | When every start comes after all earlier waits are over, no run panics, timed-out stops included |
| `DispatchSafety.CleanRunNeverPanics` | dispatch/dispatch.go:130-141 | Without a timed-out stop no run panics |
| `DispatchSafety.RestartCanPanic` | dispatch/dispatch.go:130-141 | A run with a timed-out stop and a restart that ends in a panic |
| `DispatchSafety.CleanStopIsNotEnough` | dispatch/dispatch.go:130-141 | A run whose last stop returned without a timeout, and in which the Wait of an earlier stop is still not over |
| `DispatchSafety.OnlyOpenIsUsed` | dispatch/dispatch.go:111-234 | In every run sends, publishes and closes meet open channels only, and goroutines end only when their generation was stopped |
| `DispatchSafety.UnsubscribeRemoves` | dispatch/dispatch.go:294-320 | The given pipe leaves the routes and goes to the pool; every other pipe and route stays as it is, and a drained value was sent to that pipe |
| `DispatchSafety.WaitGroupCounts` | dispatch/dispatch.go:104-107 | In every run the wait group equals live relayers plus live senders, and stop closes pipes only when there are none |
| `DispatchSafety.StepKeeps` | dispatch/dispatch.go:73-350 | Every step that does not panic (each locked region or channel operation) keeps the whole invariant: counts, open generations, waiting goroutines, places of pipes, senders, subscriber count |
| `DispatchSafety.RunKeeps` | dispatch/dispatch.go:73-350 | The invariant holds at the end of every run |
| `DispatchSafety.PipeHasOnePlace` | dispatch/dispatch.go:238-322 | A pipe is at one position of one route, or in the pool, or closed, and never two of these |
| `DispatchSafety.ZeroCountMeansNoSubscriber` | dispatch/mux.go:68-70 | The subscriber count is the number of routed pipes plus the pipes stop closed; when it reads zero no route has a subscriber, so the early return drops nothing |
| `DispatchSafety.RoutedSwapRemove` | dispatch/dispatch.go:298-306 | The in-place removal takes exactly one pipe out of the routes and keeps every other at a single position |
| `DispatchSafety.WorkersWithinLimit` | dispatch/dispatch.go:104-107 | Without a timed-out stop no more relayers live than the last start asked for |
| `DispatchSafety.LimitExceededIff` | dispatch/dispatch.go:104-107 | The relayers come to exceed the limit only by a start, and exactly when some are alive before it |
| `DispatchSafety.RestartExceedsIff` | dispatch/dispatch.go:73-107 | Wherever start is possible it exceeds its limit if and only if relayers are still alive, and none are when the last stop returned without a timeout |
| `DispatchSafety.TimedOutStopExceedsLimit` | dispatch/dispatch.go:137-141 | A run in which a stop that times out and a restart leave more relayers alive than the limit |
| `DispatchJobs.JobsConserved` | dispatch/dispatch.go:170-234 | In every run the accepted copies of each job are queued, held by a relayer, relayed, or found without a route |
| `DispatchJobs.RelayServesItsRoute` | dispatch/dispatch.go:186-196 | Relaying a job gives every pipe registered for its identifier exactly one more sender carrying it, and no other pipe or job any |
| `DispatchJobs.NothingForged` | dispatch/dispatch.go:170-234 | In every run a sender only carries a job that publish accepted |
| `DispatchJobs.DeliveryServesOne` | dispatch/dispatch.go:188-194 | A delivery or an exit takes away exactly one sender, that of its job to its pipe |
| `DispatchJobs.FirstInFirstOut` | dispatch/dispatch.go:170-228 | Over any run, what was published to a job channel is what relayers took from it, in that order, and then what is still queued |
| `DispatchJobs.WaitsOnNewest` | dispatch/dispatch.go:171-201 | A goroutine that evaluates its select waits on the channels of the newest start |
| `DispatchJobs.HeadIsServed` | dispatch/dispatch.go:170-196 | While the service runs an idle relayer can take the head of the queue and give every subscriber one sender with it |
| `DispatchJobs.OnlyGoroutinesMove` | dispatch/dispatch.go:130-141 | While stop waits callers are locked out, and routes stay as they are |
| `DispatchJobs.PotentialLowers` | dispatch/dispatch.go:170-202 | Every goroutine move other than reading a zero job lowers the bound on the moves left; reading a zero job raises it by one |
| `DispatchJobs.DrainBounded` | dispatch/dispatch.go:125-141 | Whatever the schedule, goroutines, those that wait for the others included, make boundedly many moves besides reading zero jobs |
| `DispatchJobs.NoGoroutineStuck` | dispatch/dispatch.go:132-135 | While stop waits every live relayer and sender has an enabled move towards its exit, and once they are gone so has every goroutine in Wait |
| `DispatchJobs.CanDrain` | dispatch/dispatch.go:125-141 | From every reachable waiting stop a schedule without deliveries and panics ends all relayers and senders and lets stop see the end of its wait |
| `Dispatcher.Dispatcher.StartWorkers` | dispatch/dispatch.go:73-108 | Refines the start step, defaults included, unless the start panics; refuses while running |
| `Dispatcher.StartRuns` | dispatch/dispatch.go:84-107 | A start adds as many relayers as asked for, or ten, and an open queue of the given capacity, or a hundred; those still alive stay |
| `Dispatcher.Dispatcher.BeginStop` | dispatch/dispatch.go:111-135 | Refines closing the job channel and then the shutdown channel, which leaves a goroutine about to wait |
| `Dispatcher.StopCloses` | dispatch/dispatch.go:122-135 | A stop ends the service and closes the newest generation with its queue as it is |
| `Dispatcher.Dispatcher.EndStop` | dispatch/dispatch.go:137-156 | Refines the timed-out end of stop, which changes no route, and the end that closes exactly the routed pipes, once each, and empties the routes |
| `Dispatcher.Dispatcher.CloseRoutes` | dispatch/dispatch.go:144-151 | In any order of the routes, closes all routed pipes, none twice, and empties the routes |
| `Dispatcher.NotYetClosed` | dispatch/dispatch.go:145-150 | While routes are closed one by one, the pipes of the routes still to come are open and distinct |
| `Dispatcher.Dispatcher.PublishJob` | dispatch/dispatch.go:205-234 | Puts the job last in the newest queue and changes nothing else, or answers the error of a missing identifier, missing data or full queue and changes nothing; drops it silently when not running |
| `Dispatcher.PublishQueues` | dispatch/dispatch.go:220-234 | While the service runs, a publish with identifier and data queues its job last if there is room, and fails for the full queue otherwise |
| `Dispatcher.PublishAllQueues` | dispatch/mux.go:71-77 | With room for all, publishing to several identifiers queues one job for each, in their order |
| `Dispatcher.PublishAllStops` | dispatch/mux.go:71-77 | Publishing to several identifiers ends with the first error and keeps what was queued before |
| `Dispatcher.Dispatcher.AddSubscriber` | dispatch/dispatch.go:238-269 | Refines the subscribe step: the pipe handed out is in no route and not closed, and is now last in its route |
| `Dispatcher.Dispatcher.RemoveSubscriber` | dispatch/dispatch.go:272-322 | Refines the unsubscribe step, with each error case: the given pipe leaves the routes and is pooled, and no other one |
| `Dispatcher.Dispatcher.GetNewId` | dispatch/dispatch.go:325-350 | Registers an unused identifier, or answers the generator error or a collision |
| `Dispatcher.Dispatcher.RelayJob` | dispatch/dispatch.go:181-196 | Refines the relay step: one sender per pipe of the route |
| `Dispatcher.Mux.PublishTo` | dispatch/mux.go:55-78 | Returns early when no subscriber is counted; else publishes in order up to the first error, and with room for all queues one job for each identifier, in their order |
| `DataHistory.DataHistoryJob.SetLimits` | engine/datahistory_manager.go:1219-1226 | Non-positive limits become the defaults, so both limits are positive |
| `DataHistory.DataHistoryJob.Tally` | engine/datahistory_manager.go:409-424 | Finds whether a range has a result with issues, and otherwise counts failures and sees a completion |
| `DataHistory.DataHistoryJob.HandleRange` | engine/datahistory_manager.go:361-466 | Handles one range as decided: skip, placeholder, give up, or one attempt, whose answer is appended to the results of the range |
| `DataHistory.DataHistoryJob.CheckCompletion` | engine/datahistory_manager.go:467-491 | Completed exactly when the first result of every range allows it; the two flags say which firsts occur |
| `DataHistory.DataHistoryJob.CompleteJob` | engine/datahistory_manager.go:603-621 | Sets the status from the two flags, and refuses both at once |
| `DataHistory.DataHistoryJob.Run` | engine/datahistory_manager.go:290-347 | One run behind the guards of runJob, equal to the run function |
| `DataHistoryRuns.DecideMeans` | engine/datahistory_manager.go:381-437 | A range is tried only with fewer failures than the limit and nothing else, given up with exactly the limit of failures, and skipped within the batch only when settled |
| `DataHistoryRuns.RunKeeps` | engine/datahistory_manager.go:395-397 | A run keeps the shape of all histories, makes at most RunBatchLimit attempts, and leaves settled ranges alone |
| `DataHistoryRuns.RetriesBounded` | engine/datahistory_manager.go:426-433 | Over any runs no range holds more than MaxRetryAttempts results |
| `DataHistoryRuns.RunLowers` | engine/datahistory_manager.go:360-466 | With overwriting, a run without error that finds an unsettled range strictly lowers the work left |
| `DataHistoryRuns.AllRangesSettle` | engine/datahistory_manager.go:360-466 | With overwriting, n ranges settle within n*(MaxRetryAttempts+1) runs that end without error |
| `DataHistoryRuns.CompletionByFirsts` | engine/datahistory_manager.go:467-497 | The job leaves the active status exactly when every first result is Complete or IssuesFound; which status it gets; the guard against both flags is unreachable |
| `DataHistoryRuns.FailedThenCompleteStaysOpen` | engine/datahistory_manager.go:476-489 | A range that succeeded only after a failure keeps its job active through every later run |
| `DataHistoryRuns.SettledJobFinishesIff` | engine/datahistory_manager.go:467-497 | With all ranges settled, a run finishes the job if and only if no first attempt failed |
| `DataHistoryRuns.CoveredFailureStaysOpen` | engine/datahistory_manager.go:369-393 | Without overwriting, a failed range whose data arrives by other means is never retried nor marked, and its job stays active |
| `DataHistoryRuns.CoveredJobFinishesIff` | engine/datahistory_manager.go:369-393 | Without overwriting and with data for all ranges, a run finishes the job if and only if no range that has results starts with a failure |
| `DataHistoryResults.DecideIff` | engine/datahistory_manager.go:361-437 | A range is attempted exactly when it is not covered, the batch has room, it has not settled and has failed less often than allowed; given up when as often; entered as a success when covered without results |
| `DataHistoryResults.NextRecords` | engine/datahistory_manager.go:369-466 | An attempt appends exactly one result to its range, Complete if it was complete and Failed if not, and giving up marks every result; other ranges keep theirs |
| `DataHistoryResults.SuccessHasCause` | engine/datahistory_manager.go:369-466 | Over any runs from no results, a range has a success only if an attempt at it was complete or, without overwriting, all its intervals were said to have data |
| `DataHistoryResults.FirstRunCompletesIff` | engine/datahistory_manager.go:360-497 | With overwriting and room in the batch, the first run completes the job if and only if every attempt was complete, and leaves it active otherwise |
| `DataHistoryResults.RunErrors` | engine/datahistory_manager.go:290-347 | A run refuses a job that is not active or has no ranges, and keeps what was recorded before the error of an attempt |
| `DataHistoryResults.AbortedAt` | engine/datahistory_manager.go:456-462 | A pass is aborted by the error of an attempt, and leaves that range and the later ones as they were |
| `Currency.CaseFolds` | currency/code.go:192 | Upper- and lower-casing forget exactly the letter case |
| `Currency.CasingIsOfLetters` | currency/code.go:192-195 | Casing exchanges the letters of the two alphabets one for one and leaves other characters alone |
| `Currency.CryptocurrencyRoles` | currency/code.go:334-336 | The roles that count as cryptocurrencies, having none among them |
| `Registry.RunKeeps` | currency/code.go:137-254 | In every reachable registry the roles of a symbol are pairwise distinct, and an unset role is last |
| `Registry.RunExtends` | currency/code.go:137-254 | No run removes or reorders an item, and a role changes at most once, from unset |
| `Registry.ApplyWrites` | currency/code.go:137-254 | An operation without error writes one entry of its symbol: a new one with the details given, or an old one, of which only an update changes details, and only those given |
| `Registry.SameItemForever` | currency/code.go:184-221 | Registering a symbol again without a role returns the same item after any run, whatever the letter case |
| `Registry.SameRoleItemForever` | currency/code.go:201-215 | Registering a symbol again with the same role returns the same item after any run, whatever the letter case |
| `Registry.BaseCodes.RegisterCode` | currency/code.go:184-221 | Returns the item found or added and its case flag, and refines the registration on values |
| `Registry.BaseCodes.UpdateCurrency` | currency/code.go:138-180 | Each error case; otherwise refines the update on values, and what it stores is the item given |
| `Registry.BaseCodes.LoadItem` | currency/code.go:224-254 | The errors of no item and of the empty one; otherwise refines the load on values, and what it stores is the item given |
| `RegistryFile.DumpThenLoad` | currency/storage.go:413-470 | Loading a dump that was written and read back into an empty registry never fails, and restores the same symbols, roles and details if and only if no symbol has both a stable and an unset entry, and the time if and only if it was a whole second; a dump that was not written loads the same entries and then always ends in an error |
| `RegistryFile.SymbolRestored` | currency/storage.go:413-455 | The lists of a dump load without an error, and restore a symbol exactly when it does not have both a stable and an unset entry |
| `RegistryFile.LoadOneMeans` | currency/storage.go:403-411 | An item with another role than its list is refused, one without a role gets that of the list, and what is loaded without an error is then listed with that role |
| `RegistryFile.LoadingStops` | currency/storage.go:414-469 | The first error ends the loading and leaves the time as it was |
| `RegistryFile.NamedRolesAre` | currency/code.go:99-115 | The roles that have a list |
| `RegistryFile.Storage.SetLastMainUpdate` | currency/storage.go:457-468 | Sets the time from a text that parses or from a floating-point number, and refuses anything else |
| `RegistryFile.StableReplacesUnset` | currency/storage.go:449-454 | Loading the stable list replaces the unset entry of each symbol it names, and touches no other symbol |
| `RegistryFile.ListAppends` | currency/storage.go:413-447 | A dumped list of one role appends to each symbol it names its entry of that role once, when no unset entry stands in the way |
| `RegistryFile.ClashIsReachable` | currency/code.go:243-253 | A registry with a stable and an unset entry of one symbol is reachable |
| `RegistryFile.Storage.GetFullCurrencyData` | currency/code.go:92-118 | In any order of the symbols the dump lists exactly the entries of each role, with the time in whole seconds, and fails exactly when some role has no list |
| `RegistryFile.Storage.CheckFileCurrencyData` | currency/storage.go:403-411 | Fills an unset role, refuses another role, and loads the item |
| `RegistryFile.Storage.LoadFileCurrencyData` | currency/storage.go:413-470 | Loads the six lists in the program order up to the first error, and then the time from a text or a floating-point number |
| `Currency.FormatKeeps` | currency/pair_methods.go:73-79 | Formatting keeps the currencies and the stripped name and leaves no format difference; printing in the empty format gives the stripped name |
| `Currency.DiffersIff` | currency/pair.go:149-153 | A pair differs from a format exactly when its delimiter or the print of one of its codes does |
| `Currency.FormatPrints` | currency/pair_methods.go:73-79 | A formatted pair prints the two symbols in the letter case and around the delimiter of the format |
| `Currency.EqualMeans` | currency/pair_methods.go:82-91 | Equality is identity of both items, or of them crosswise; an empty pair is one whose codes print nothing |
| `Pairs.MatchIsKeyEquality` | currency/pair_methods.go:82-91 | Equality, with or without the reciprocal, is equality of a key |
| `Pairs.ContainsPair` | currency/pairs.go:113-121 | Finds whether some pair of the list matches |
| `Pairs.ContainsAll` | currency/pairs.go:124-150 | The loop with in-place removal computes the inclusion outcome |
| `Pairs.ContainsAllIsInclusion` | currency/pairs.go:123-150 | Succeeds exactly for a non-empty list included as a multiset; otherwise blames the first pair in excess, for duplication exactly when it occurs in the receiver |
| `Pairs.WithoutContains` | currency/pairs.go:203-211 | Removing keeps exactly the pairs not named, and the list itself when nothing goes |
| `Pairs.AddAllContains` | currency/pairs.go:214-222 | Adding gives the union of the two lists |
| `Pairs.AddAllAppends` | currency/pairs.go:214-222 | Adding leaves the list as it is and appends pairs of the other list, none present before |
| `Pairs.WithoutConcat` | currency/pairs.go:203-211 | Removing goes pair by pair, in order: each stays as it is, or goes when the other list contains it |
| `Pairs.Add` | currency/pairs.go:214-222 | The loop computes the addition without duplicates |
| `Pairs.Remove` | currency/pairs.go:203-211 | The loop computes the removal |
| `PairChanges.FindDifferences` | currency/pairs.go:242-282 | The two loops compute added and removed pairs, the format difference, and the first error |
| `PairChanges.NoErrorMeans` | currency/pairs.go:246-259 | The incoming list raises no error exactly when it has no empty pair and no repeated one |
| `PairChanges.DifferencesConserve` | currency/pairs.go:241-282 | keys(old) + keys(added) = keys(removed) + keys(incoming) as multisets, for every old list |
| `PairChanges.AddedMembers` | currency/pairs.go:246-263 | The added pairs are, as they came, the incoming ones whose currencies are new |
| `PairChanges.RemovedMembers` | currency/pairs.go:266-278 | The removed pairs are existing ones, among them all whose currencies are not incoming |
| `PairChanges.FormatDifferenceMeans` | currency/pairs.go:250-273 | A format difference is reported exactly when some pair of either list is not in the format |
| `PairChanges.ComparesIff` | currency/pairs.go:242-282 | The lists are compared unless a pair of either is empty or the incoming list repeats one |
| `PairChanges.IncomingErrorMeans` | currency/pairs.go:246-259 | The error is for the first incoming pair that is empty or repeats one, and says which |
| `PairLookup.DeriveFrom` | currency/pairs.go:300-329 | The scan finds the first pair whose lower-case base and quote spell the lower-case symbol, and fails exactly when there is none; each error case |
| `PairLookup.ValidateAndConform` | currency/pairs.go:415-437 | The loop formats the list or reports the first empty or repeated pair |
| `PairLookup.ConformMeans` | currency/pairs.go:415-428 | A list conforms exactly when it has no empty pair and no stripped name twice |
| `PairLookup.ConformErrorMeans` | currency/pairs.go:415-437 | The error is for the first pair that is empty or repeats a name, and says which |
| `PairLookup.ConformedKeeps` | currency/pairs.go:429-433 | Conforming keeps currencies and names, and leaves no format difference unless bypassed |
| `PairsManager.IndexIsUnique` | currency/manager.go:460-468 | There is only one index of given available lists |
| `PairsManager.FirstIsLast` | currency/pairs.go:309-327 | With distinct names the first and the last pair of a name are the same |
| `PairsManager.LastNamedIs` | currency/manager.go:460-468 | The pair a symbol finds is the last one of its name |
| `PairsManager.GetPairsMeans` | currency/manager.go:117-146 | Reading gives the list of the chosen kind, with an error exactly when enabled pairs are not all available |
| `PairsManager.StoredPairsMeans` | currency/manager.go:210-238 | Storing a list changes that list of that asset, whose store starts empty, and nothing else |
| `PairsManager.FormatMeans` | currency/manager.go:180-206 | The format is the global one or that of the asset, for requests or for the configuration |
| `PairsManager.PairsManager.Reindex` | currency/manager.go:460-468 | In any order of the assets, the index finds exactly the last pair of each name in each list |
| `PairsManager.PairsManager.Match` | currency/manager.go:65-80 | Finds the last available pair of the name; with distinct names, what the linear scan of the available list finds |
| `PairsManager.PairsManager.Store` | currency/manager.go:83-98 | Stores an asset and keeps the index that of the available lists |
| `PairsManager.PairsManager.StorePairs` | currency/manager.go:210-236 | Replaces one list of an asset and keeps the index that of the available lists |
| `PairsManager.PairsManager.Delete` | currency/manager.go:101-113 | Removes an asset, and its names from the index, which stays that of the remaining lists |
| `PairsManager.PairsManager.Load` | currency/manager.go:443-456 | Takes over the seed and rebuilds the index |
| `PairsManager.PairsManager.GetPairs` | currency/manager.go:117-147 | The stored list, with the inclusion error for enabled pairs |
| `PairsManager.PairsManager.GetFormat` | currency/manager.go:180-206 | The global or the asset format, with each error case |
| `PairsManager.PairsManager.StoreFormat` | currency/manager.go:150-177 | Sets one format of an asset, which reading it then gives back, while every other format and the index stay |
| `PairsManager.PairsManager.EnablePair` | currency/manager.go:305-332 | Adds an available pair that is not enabled, keeping the enabled pairs within the available ones; each error case |
| `PairsManager.PairsManager.DisablePair` | currency/manager.go:275-301 | Removes an enabled pair, keeping the rest within the available ones; each error case |
| `PairsManager.PairsManager.EnsureOnePairEnabled` | currency/manager.go:242-272 | Enables one available pair only when no switched-on asset has any; fails exactly when there is none to choose |
| `PairsManager.EnableKeepsWithin` | currency/manager.go:322-330 | Enabling an available, not yet enabled pair keeps reading the enabled pairs free of errors |
| `PairsManager.DisableKeepsWithin` | currency/manager.go:294 | Disabling a pair keeps reading the enabled pairs free of errors |
| `UpdatePairs.Compact` | exchanges/exchange.go:757-780 | The in-place compaction, with its changing set of removed pairs, computes a function of the list and the set as it was |
| `UpdatePairs.CompactedMeans` | exchanges/exchange.go:757-780 | What survives, in order, is each distinct enabled name that some incoming pair has, with that pair's currencies in the required format |
| `UpdatePairs.KeptMeans` | exchanges/exchange.go:757-769 | The pair written for a name is the incoming pair of that name, and nothing is written without one |
| `UpdatePairs.Base.UpdatePairs` | exchanges/exchange.go:663-807 | Both stores and the error are those of the update function, for every combination of the flags |
| `UpdatePairs.Base.RepairEnabled` | exchanges/exchange.go:732-807 | The second half: the enabled pairs follow the available ones in both stores |
| `UpdatePairs.Base.FormatSymbol` | exchanges/exchange.go:1383-1389 | Prints in the request format, or as it is with the error |
| `UpdatePairs.Base.MatchSymbolWithAvailablePairs` | exchanges/exchange.go:1770-1780 | Matches the symbol, without its first punctuation character when it has a delimiter |
| `UpdatePairsLaws.UpdateIsSound` | exchanges/exchange.go:661-807 | After a successful update of the available pairs: available are the incoming currencies, enabled have no name twice and are all available so that reading them gives no error, and are not left empty while there are incoming pairs |
| `UpdatePairsLaws.UpdateTwice` | exchanges/exchange.go:661-807 | Repeating a successful update without force changes nothing, unless upgrades are bypassed and an enabled pair differs from the format, exactly then the enabled pairs change |
| `UpdatePairsLaws.BypassedUpdateTwiceCanChange` | exchanges/exchange.go:774-789 | With upgrades bypassed, a randomly enabled pair is reformatted by the repetition |
| `UpdatePairsLaws.NoDifferenceFollows` | exchanges/exchange.go:684 | Without a difference the stored list already has the incoming currencies, each once |
| `UpdatePairsLaws.FormattedSymbolMatches` | exchanges/exchange.go:1383-1389 | With distinct names an available pair is matched again by its formatted symbol |
| `UpdatePairsEffects.UpdateSucceedsIff` | exchanges/exchange.go:661-755 | An update of the available pairs succeeds if and only if the asset is valid, the incoming pairs are not empty and have distinct names, and no stored pair of the asset is empty |
| `UpdatePairsEffects.EnabledUpdateSucceedsIff` | exchanges/exchange.go:661-732 | Likewise for the enabled pairs, which also have to be available beforehand |
| `UpdatePairsEffects.AvailableUpdateWrites` | exchanges/exchange.go:684-807 | A successful update of the available pairs stores the conformed ones in both stores exactly when forced or something differs, then repairs the enabled pairs in both alike exactly when they need it, and changes nothing else |
| `UpdatePairsEffects.EnabledUpdateWrites` | exchanges/exchange.go:684-732 | A successful update of the enabled pairs stores the conformed ones in both stores exactly when forced or something differs, and changes nothing else |
| `UpdatePairsEffects.UpdateFormats` | exchanges/exchange.go:684-807 | After a successful update of the available pairs without bypass every available and enabled pair prints in the format |
| `UpdatePairsEffects.FailedUpdateWrites` | exchanges/exchange.go:661-755 | A failed update leaves both stores as they were, or has stored the available pairs before the repair failed |
| `UpdatePairsEffects.ChangedIffDiffers` | exchanges/exchange.go:684 | Something differs exactly when the lists have other currencies or some pair of either is not in the format |
| `CrossRates.FillableIff` | currency/conversion.go:163-200 | The matrix can be filled exactly when all pairs are quoted directly or all against the main currency |
| `CrossRates.FilledInverse` | currency/conversion.go:168-197 | Every rate of the filled matrix is the inverse of the opposite one, quotes of zero included |
| `CrossRates.ArbitrageFreeIff` | currency/conversion.go:174-186 | With all currencies quoted against a listed main one, the matrix is free of arbitrage exactly when the other quotes are consistent with those |
| `Conversion.ReadQuotes` | currency/conversion.go:110-161 | For some order of the keys, the direct rates and the list are those of reading the quotes in that order, later quotes replacing earlier ones, and the main currency is that of the first key |
| `Conversion.ReadInOrder` | currency/conversion.go:110-161 | In any order every direct rate comes from a quote, every quote has a rate, inverses stand side by side, and exactly the mentioned currencies are listed |
| `Conversion.FillMatrix` | currency/conversion.go:163-200 | The nested loops over the matrix being filled give its cross rates, and fail exactly when a value is missing |
| `Conversion.DeriveRate` | currency/conversion.go:172-189 | A missing rate derived from the matrix as filled so far is the one derived from the direct quotes alone |
| `Conversion.ConversionRates.Update` | currency/conversion.go:96-223 | The answer and the new table, in new cells, are those of some order of the quotes; on an error the old table stays; old cells keep their rates in either case |
| `Conversion.ConversionRates.GetRate` | currency/conversion.go:26-58 | The lookup of what the currencies stand for, one for equal ones |
| `Conversion.ConversionRates.Register` | currency/conversion.go:62-92 | Refuses cryptocurrencies and missing rates; otherwise hands out the two cells, whose rates are mutually inverse |
| `Conversion.ConvertBack` | currency/conversion.go:315-348 | Converting there and back at a rate that is not zero returns the amount |
| `Conversion.ConvertCases` | currency/conversion.go:315-348 | Amounts stay between equal or missing currencies; otherwise both have to be fiat, and the two cells are the factors |
| `ConversionLaws.SucceedsIff` | currency/conversion.go:163-200 | In a given order, success exactly when all mentioned currencies are quoted against each other or against the first one met |
| `ConversionLaws.SucceedsInEveryOrderIff` | currency/conversion.go:110-200 | Success in every order exactly when all mentioned currencies are quoted against each other, or the first currency of every quote against all others |
| `ConversionLaws.SucceedsInSomeOrderIff` | currency/conversion.go:110-200 | Success in some order exactly when all mentioned currencies are quoted against each other, or the first currency of some quote against all others |
| `ConversionLaws.OrderMatters` | currency/conversion.go:113-115 | Two quotes with which the update succeeds in one order and fails in the other |
| `ConversionLaws.SameInEveryOrderIff` | currency/conversion.go:110-200 | All orders give the same outcome exactly when all fail, or no two quotes disagree and all currencies are quoted against each other or all possible main currencies derive the same rates |
| `ConversionLaws.UpdatedInverse` | currency/conversion.go:152-221 | After any successful update without zero quotes the rates of all mentioned pairs are mutually inverse |
| `ConversionLaws.OneBaseUpdate` | currency/conversion.go:96-223 | Quotes from one base: success in every order, no arbitrage in the table, and every rate the quotient of two quoted rates, so that quoted rates are kept |
| `ConversionLaws.OneBaseOrderIrrelevant` | currency/conversion.go:110 | Quotes from one base give the same table in every order |
| `ConversionLaws.LookupFoundIff` | currency/conversion.go:27-57 | After any update a lookup finds a rate exactly when both currencies stand for the same one or for mentioned ones |
| `ConversionLaws.AllLookupsSucceedIff` | currency/conversion.go:27-57 | After any update all lookups of mentioned currencies succeed exactly when what they stand for is mentioned |
| `ConversionLaws.LookupsInverse` | currency/conversion.go:27-57 | Lookups in opposite directions find inverse rates |
| `ConversionLaws.LookupsMultiply` | currency/conversion.go:27-57 | In a table without arbitrage two lookups in a row that succeed multiply to the third |
| `ConversionLaws.NoArbitrageIff` | currency/conversion.go:26-58 | After an update from one base all lookups of mentioned currencies succeed and multiply along any three, if and only if what the mentioned currencies stand for is mentioned |
| `ConversionLaws.OneBaseLookup` | currency/conversion.go:26-58 | After an update from one base a lookup finds exactly the quotient of the quoted rates of what the currencies stand for |
| `ConversionLaws.QuotedRateFoundIff` | currency/conversion.go:26-58 | The lookup of a quoted pair finds the quoted rate exactly when the quotes give what the two currencies stand for the same ratio |
| `ConversionLaws.OldRoubleNotFound` | currency/conversion.go:35-53 | With the old rouble quoted and the new one not, its rate is in the table and a lookup ends in an error |
| `ConversionLaws.StandIns` | currency/conversion.go:27-41 | A lookup treats tether as the dollar and the old rouble as the new one, on either side |
| `ConversionLaws.PlainLookup` | currency/conversion.go:43-57 | Of other currencies a lookup finds the rate in the table, and one between equal ones |
| `ConversionLaws.ConvertsAtQuotedRate` | currency/conversion.go:62-92 | A conversion registered after an update from one base turns amounts of the base into the quoted rate times the amount, and back |
| `Translation.FindMatchingPairsBetween` | currency/translation.go:82-105 | The map relates exactly the joined pairs: the last left with the last right pair of a common key |
| `Translation.JoinIsUnique` | currency/translation.go:82-105 | There is only one such map |
| `Translation.JoinOfDistinct` | currency/translation.go:82-105 | With distinct keys on each side, two pairs are related exactly when their keys agree |
| `Translation.SwapInverts` | currency/translation.go:82-105 | With distinct keys on each side, swapping the sides inverts the map |
| `Translation.TranslatedPairsJoin` | currency/translation.go:45-54 | Translating one side only, distinct pairs are joined exactly when the table takes both currencies of the one to those of the other |
| `Translation.CommonKeyMeans` | currency/translation.go:45-54 | A pair is compared under what the table gives its two currencies, or under the currencies themselves without an entry or a table |
| `Translation.LastWithIs` | currency/translation.go:86-99 | The last pair of a key is the one found |
| `PairParsing.SplitCount` | currency/pairs.go:42 | Splitting at commas gives one piece more than there are commas |
| `PairParsing.JoinSplit` | currency/pairs.go:42 | Joining the pieces with any separator gives the string back, and no piece has the separator in it |
| `PairParsing.PunctuationIs` | currency/pair.go:75-79 | The printable characters that count as punctuation, listed |
| `PairParsing.SplitsAsExpected` | currency/pair.go:71-90 | A symbol of letters and digits with a dash, underscore, slash or colon splits there, one without after three characters; each error |
| `PairParsing.SplitJoin` | currency/pairs.go:38-57 | Splitting undoes joining when no string holds a comma |
| `PairParsing.KnownCode` | currency/code.go:267-275 | Registering a printed first-registered code gives its item again, printing the same |
| `PairParsing.SplitsBack` | currency/pair.go:71-90 | The exact condition under which a printed pair splits where it was put together |
| `PairParsing.ParsePrinted` | currency/pair.go:71-90 | A printed pair of first-registered codes parses to the same pair if and only if it meets that condition |
| `PairParsing.ParseJoined` | currency/pairs.go:24-57 | The joined list parses to the same pairs, printed the same, if and only if it is not empty and every pair meets the condition and has no comma |
| `PairParsing.NewCode` | currency/code.go:257-259 | A known name gives the first item of its symbol and leaves the registry alone |
| `PairParsing.NewPairFromString` | currency/pair.go:71-90 | Splits at the first punctuation character or after three characters, with each error, and registers both names; a delimited symbol gives its delimiter and its two names |
| `PairParsing.NewPairsFromString` | currency/pairs.go:38-43 | Parses every piece into the pair of its two names, or fails exactly when some piece does not split |

## Left out

- DispatchJobs.DrainBounded: does not bound how often zero jobs are read, because select chooses among ready cases at random and nothing but fairness ends that loop.
- PairLookup.DeriveFrom: compares ASCII strings only, because case mapping of other alphabets is not modelled.
- Conversion.ConversionRates.Update: does not give the rates of floating point for quotes of zero, where the program gets infinities, nor does it round.
- Registry.BaseCodes.LoadItem: takes the caller's item with its symbol already in upper case and the name as the caller has it, because the symbol of an item never changes in the model.
- Registry.BaseCodes.UpdateCurrency: takes the caller's item in the same way.
- RegistryFile.Storage.CheckFileCurrencyData: makes a new item from the entry of a file, as reading a written file does; a dump in memory shares its items with the registry.
- A relayer reads the two channel fields of the dispatcher in one step; a restart between the two reads is not modelled.
- The channel that carries the result of Wait to stop: stop sees the end of its wait once its goroutine has returned from Wait.
- Collection of pooled channels: a channel that is dropped by the pool behaves like one that is never handed out again.
- What a reader of a reused channel receives: a sender of its earlier route may still deliver to it.
- Overflow of the subscriber count, and fairness of the scheduler.
- Resolving the two halves of a quote's key is a function given to the update, as `Registry.SameRoleItemForever` allows; the list of fiat currencies kept beside the registry is not modelled.
- The index points into the available lists; the model keeps the pairs themselves, which agree because the functions that rewrite a list in place without reindexing are set-up code and are not modelled.
- Pair stores are values inside the manager, since the program clones them on the way in and out; nil stores are not modelled.
- Getters and switches of the pair manager without an effect on the lists (asset types, asset enabled, pair available, pair enabled), and the separator of a pair format.
- Translators other than translation tables, and the global table of synonyms.
- The validation jobs of the data history manager, whose choice of intervals depends on map order and can revisit completed ones.
- Databases, prerequisite jobs, exchanges, logging, JSON, files, locks and clocks in all parts.
