# zever in Dafny

This project models six groups of algorithms and protocols of zever, a Go application toolkit, and proves
what they keep or compute:

* the IN-list fan-out of the ORM (a predicate tree is split into statements that fit a parameter budget),
  counting and streaming over the planned statements;
* nested transactions on a stack of savepoints, and transactions that are retried;
* the wiring of the container: validation of the provider graph, concurrent resolution, build-once cells,
  shared pools, and the order and hand-off of shutdown;
* the reloadable rate limiter that closes a replaced limiter once its last call has drained;
* Preload, keyset and offset pagination, and the opaque page tokens of cursors;
* `${VAR}` expansion of dotenv files and the "did you mean" distance.

`dafny verify dfyconfig.toml` checks everything.

## How the model is built

**Predicates.** `Node` has one constructor per kind that the planner tells apart. IN, AND, OR and NOT follow
the three-valued logic of SQL (section 8.4, in predicate, of ISO/IEC 9075-2); every other leaf is an arbitrary
three-valued oracle in `Row`, which also says what `column = value` is for each value. Go values are told apart
as far as map keys and `==` go: null, comparable, not-a-number, unhashable.

**Concurrency.** Lazy cells, provider resolution, pools, the limiter and the close hand-off are state machines.
A critical section, an atomic access or a channel operation is one step; `Enabled` says whether a thread can
take it; a schedule is any sequence of threads, so a lemma over schedules speaks of every interleaving of any
number of goroutines. What the environment decides (how a builder ends, what a factory returns, when a timeout
fires) is part of the schedule. The list of what builders, factories, opens and closing goroutines
came to in a run is computed from the schedule, and what callers are given is proved against that list.

**Expansion of `${VAR}`.** The scanner and the passes are modelled on characters. What the passes amount to is
proved for values in which plain text cannot grow into a reference: a plain dollar sign is followed by plain text
of the same value other than a brace. `DotEnvDepth.PlainTextCanFuse` shows why.

**Loops and objects.** Code that updates variables or fields is a method or a class with the same loops
(validation, close order, planning, savepoints, Preload's passes over its array, the dotenv scanner and passes,
the distance table), proved against a function or property of its inputs.

**Places where the code and its comments disagree.** The comment on `replaceInValues` (orm/inchunks.go:258-262)
says that the list on the path to the target is swapped. As written, the test at orm/inchunks.go:278 compares
the address of a node in a fresh copy of the children with one in the original array, so a target below the root
is never found. `InChunks` models the documented replacement along the path and proves the properties of the
plan. `InChunksAsWritten` models the addresses and proves exactly when the code as written returns at all: for a
list that has to be cut below the root it calls itself on an unchanged tree for ever.

**Other results about limits of the code.** Each is stated with the exact condition or a concrete input:

* a nested transaction handed the context of an outer one breaks rollback exactly when it leaves a savepoint behind
  and something had changed (`NestedTx.RollbackAfterStaleCall`);
* a retry inside a transaction is all or nothing exactly while ROLLBACK TO and RELEASE go through
  (`NestedTx.AllOrNothingExactly`);
* the limiter's guarantees hold of limiters exactly for calls that hand over fresh ones
  (`Reload.LimitersAreRightExactly`);
* Count and Stream see a row twice exactly when two chunks of the list that is cut are both TRUE of it
  (`Query.PlannedRowsAreTheRows`); a []byte value listed twice is enough, as those are not deduplicated
  (`InChunks.RepeatedBytesAreSeenTwice`);
* with LIMIT or OFFSET on the child query Preload gives each parent what a query of its own would exactly under a
  condition on the rows of each chunk (`Preload.Preload`, `KeyedPages.PagedAlikeExactly`); two parents with a child each
  and LIMIT 1 do not meet it (`KeyedPages.SecondKeyIsLost`);
* keyset pages are complete exactly when any two matching rows differ in some ordering column with no NULL before or
  in it (`KeysetTies.PagesRightlyExactly`), a row with NULL where the keys would have to be told apart is on no later
  page (`Keyset.NullKeyIsNeverAfter`), and the offset of a page is right for all results
  exactly while it fits into 64 bits (`Keyset.OffsetPageIsRight`);
* an instance provided under two keys may be closed before a dependent (`CloseProviders.SharedInstanceClosesEarly`);
* names that Close reports fit the instances exactly while no provider that is resolved between the two snapshots is
  listed before an older one (`CloseOrder.LabelsLineUp`);
* Stream can run a statement over budget, exactly when only repeated values make the predicate too long
  (`Query.StreamWheres`);
* n passes allow exactly n levels of references to values that are never rewritten, but 2^n - 1 among expandable ones,
  and 2^n not always (`DotEnvDepth.LiteralChainsExpandExactly`, `DotEnvDepth.DeepExpandsWhenAllExpandable`,
  `DotEnvLadder.DepthBoundIsSharp`);
* the edit distance is not a metric (`EditDistance.NoTriangleInequality`).

## Model

| member | source | states |
|---|---|---|
| Predicates.CombineLoop | orm/predicate.go:159-176 | the loop of combine drops unset predicates and never wraps a lone one |
| Predicates.AndMatches | orm/predicate.go:159-176 | And, however it collapses, lets a row through exactly when every argument does |
| Predicates.OrMatches | orm/predicate.go:159-176 | Or, however it collapses, lets a row through exactly when some set argument does, or when none is set |
| InChunks.DedupeLoop | orm/inchunks.go:91-116 | the loop keeps the first of equal values, in order, and every unhashable or not-a-number value |
| InChunks.DedupeValuesPrefix | orm/inchunks.go:91-116 | the first occurrence wins: whatever comes later only appends |
| InChunks.DedupeKeepsMeaning | orm/inchunks.go:64-116 | deduplicating every splittable IN changes no row's truth value when SQL comparison respects Go equality |
| InChunks.DedupeChangesListsOnly | orm/inchunks.go:64-89 | deduplication changes nothing but the splittable INs |
| InChunks.WalkLargest | orm/inchunks.go:189-220 | the walk with a captured best finds the list that the recursive definition prefers |
| InChunks.LargestIsLongest | orm/inchunks.go:189-220 | no splittable IN anywhere in the tree is longer than the one chosen |
| InChunks.LargestIsFirst | orm/inchunks.go:189-220 | of the longest ones it is the first in depth-first order |
| InChunks.WalkOversized | orm/inchunks.go:226-256 | the walk with a captured flag reports an over-budget IN in an unsplittable position |
| InChunks.SplitWhere | orm/inchunks.go:144-183 | the loop that cuts and recurses is the one-level split: a deeper level is never needed |
| InChunks.PlanInChunks | orm/inchunks.go:29-54 | the method with its early returns computes the plan |
| InChunks.PlansFitBudget | orm/inchunks.go:29-54 | every planned statement binds at most budget arguments |
| InChunks.PlansFillBudget | orm/inchunks.go:144-183 | every planned statement but the last uses up the budget |
| InChunks.CountsWhatIsBound | orm/inchunks.go:310-350 | the arguments that are counted are the values that the rendered predicate binds |
| InChunks.PlanSucceeds | orm/inchunks.go:29-54 | planning succeeds if and only if the tree fits, or no over-budget IN is unsplittable and either the deduplicated tree fits or some splittable IN leaves fewer than budget arguments outside it |
| InChunks.SinglePlan | orm/inchunks.go:34-53 | a successful plan is a single statement if and only if the tree fits, with or without its repeated values |
| InChunks.OversizedTestIsRedundant | orm/inchunks.go:38-40 | on trees as the builders make them the test for unsplittable lists refuses nothing that the split would not refuse |
| InChunks.PlanKeepsMeaning | orm/inchunks.go:29-183 | for every oracle and every row for which values equal in Go compare alike in SQL, the original predicate is TRUE if and only if some plan is |
| InChunks.MatchedOnceExactly | orm/inchunks.go:29-183 | for a row for which values equal in Go compare alike in SQL: it is TRUE in no plan unless it matches, and a matching row is TRUE in exactly one plan if and only if the predicate is not cut, or no two chunks of the list that is cut are both TRUE of it |
| InChunks.PlansAreDisjoint | orm/inchunks.go:64-183 | what is enough for that: a predicate that fits, or lists in which a row equals one Go value at most, and no []byte value at two places |
| InChunks.RepeatedBytesAreSeenTwice | orm/inchunks.go:91-116 | a []byte value listed twice is not deduplicated: cut into two statements, it returns each row equal to it twice |
| InChunksAsWritten.ReplaceMissesBelowRoot | orm/inchunks.go:263-287 | as written, replacing a target below the root leaves the predicate as it was |
| InChunksAsWritten.NestedSplitNeverReturns | orm/inchunks.go:144-183 | as written, cutting a list below the root needs more nested calls than any number |
| InChunksAsWritten.OtherSplitsReturn | orm/inchunks.go:144-183 | as written, every other split returns within two levels with the documented result |
| InChunksAsWritten.PlanAsWrittenReturns | orm/inchunks.go:29-54 | planning as written returns if and only if no list below the root has to be cut, and then gives the documented plan |
| InChunksAsWritten.SmallestNestedSplit | orm/inchunks.go:263-287 | a two-leaf predicate and a budget for which the code as written never returns |
| Query.PlannedRowsExactly | orm/stream.go:59-80 | where values equal in Go compare alike in SQL, the planned statements return together the rows of the original predicate, each as often, if no matching row is in two of them, and more rows otherwise |
| Query.PlannedRowsAreTheRows | orm/stream.go:33-80 | the same as an if-and-only-if, for the rows and for their number |
| Query.DistinguishedIsSeenOnce | orm/query.go:757-758 | no matching row is in two statements if the predicate fits, or if no row equals two Go values of a list or one []byte value at two places |
| Query.Count | orm/query.go:759-786 | where values equal in Go compare alike in SQL, the sum over the planned statements is at least the count of the original predicate, and that count if and only if no matching row is in two statements; locking is refused |
| Query.StreamWheres | orm/stream.go:91-111 | the statements let the same rows through as the predicate; a shaped query gets one or an error; a statement is over budget exactly when only repeated values make the predicate too long |
| Query.Stream | orm/stream.go:36-82 | where values equal in Go compare alike in SQL, the rows streamed without LIMIT and OFFSET are those of the original predicate, each as often, if and only if no matching row is in two statements; a shaped query is one statement with its LIMIT and OFFSET, or an error |
| Query.AddWhereMatches | orm/query.go:189-197 | Where adds a condition: a row must pass the old and the new one |
| NestedTx.SavepointNamesDiffer | orm/tx.go:25-30 | different depths have different savepoint names |
| NestedTx.SavepointNameIsValid | orm/tx.go:25-30 | every name is a plain identifier |
| NestedTx.YoungestAbove | orm/tx.go:25-79 | names resolve to the youngest savepoint, and above a call's own savepoint its name does not occur |
| NestedTx.BodyRefines | orm/tx.go:53-79 | every program of writes, failures, panics and nested calls has its functional meaning; what it leaves on the stack is deeper |
| NestedTx.NestedRefines | orm/tx.go:53-79 | a nested call that fails restores its entry data, one that succeeds keeps its writes, although rolled-back savepoints stay |
| NestedTx.TxRefines | orm/tx.go:53-79 | the outermost transaction commits the meant data or nothing |
| NestedTx.FailedCallRestores | orm/tx.go:62-78 | exactly when a call that reports an error has left its entry data, whichever driver call failed |
| NestedTx.RollbackAfterStaleCall | orm/tx.go:18-78 | after a nested call with the context of an outer body, rolling back to the name they share restores the right data if and only if the call was refused or succeeded, or nothing had changed |
| NestedTx.StaleContextBreaksRollback | orm/tx.go:18-60 | an instance: a program that passes an outer context commits data that should have been rolled back |
| NestedTx.Tx.Savepoint | orm/tx.go:62-64 | SAVEPOINT pushes the data of the moment under the name |
| NestedTx.Tx.RollbackTo | orm/tx.go:66-72 | ROLLBACK TO restores the youngest savepoint of that name and keeps it |
| NestedTx.Tx.Release | orm/tx.go:74-76 | RELEASE forgets the youngest savepoint of that name and all younger ones |
| NestedTx.RunBodyIn | orm/tx.go:53-79 | a body run against the transaction object does what the function on values says |
| NestedTx.WithNestedTx | orm/tx.go:53-79 | the method on the transaction object has the functional meaning of the call |
| NestedTx.AttemptIsTransaction | orm/retry.go:126-135 | one attempt is a whole transaction of its own, or a nested call inside the one the context carries |
| NestedTx.RetryTx | orm/retry.go:86-135 | with MaxAttempts attempts, three where it is not positive: the outcome and the data are exactly what the last attempt to run decides, each before it having failed retryably on what the ones before left, without an interrupted wait: success, a panic, an error that is not retryable, an interrupted wait, or exhaustion |
| NestedTx.FailedAttemptRestores | orm/retry.go:129-135 | exactly when an attempt that fails leaves the data as it was |
| NestedTx.RetryIsAllOrNothing | orm/retry.go:86-135 | if each attempt that fails restores its data, in the exact sense of FailedCallRestores, one attempt on the initial data is kept whole or the data is the initial data |
| NestedTx.AllOrNothingExactly | orm/retry.go:86-135 | for given driver faults every retry is all or nothing if and only if it is not nested, or each attempt is refused its savepoint or has its ROLLBACK TO and RELEASE go through |
| NestedTx.FailedReleaseIsRetriedOnTop | orm/tx.go:74-76 | a nested attempt whose RELEASE fails is retried on top of its own writes, which are then kept |
| NestedTx.RetryExhausts | orm/retry.go:86-124 | whatever the driver does, all attempts are used if and only if each fails retryably on what the ones before it left and no wait is interrupted |
| Lazy.StepInv | container/lazy.go:64-153 | every atomic step of get and leaderBuild keeps the invariant of cell, flights and threads |
| Lazy.EveryRunIsSafe | container/lazy.go:64-153 | in every run at most one build succeeds and one flight is live, ready implies done, all values returned are one |
| Lazy.ValueIsFinal | container/lazy.go:116-153 | once done, the value never changes |
| Lazy.WaiterSharesResult | container/lazy.go:81-93 | waiters of a settled flight return that flight's own value or error and never build |
| Lazy.NoWaiterIsWedged | container/lazy.go:73-104 | the flight of a parked call is closed or its leader is at work |
| Lazy.SomeThreadMoves | container/lazy.go:64-153 | while a call is unfinished some call can move |
| Lazy.EveryRunEnds | container/lazy.go:64-153 | n calls take at most n * (8n + 13) steps, and a run that cannot go on has all calls finished |
| Lazy.IdleCellLetsNextLead | container/lazy.go:73-104 | after a failure or Goexit the next call that gets the lock leads a new build |
| Lazy.ResolvedStaysResolved | container/lazy.go:156-174 | what getIfResolved reports it reports for ever |
| LazyValues.ValueIsTheBuilders | container/lazy.go:64-174 | in every run what the cell holds, and every value returned, is what the one build that succeeded returned |
| LazyValues.ErrorsAreOfOwnFlights | container/lazy.go:81-153 | an error or a panic that a call returns is how the builder of a flight ended that the call led or waited for |
| LazyValues.FlightsAreBuiltOnce | container/lazy.go:105-153 | no flight is built twice |
| ProviderGraph.Validator.RecordDuplicates | container/provide.go:396-409 | a key has a duplicate error exactly when it is declared twice; the error names its first and its last site |
| ProviderGraph.SitesMean | container/provide.go:396-409 | the sites named are those of the first and the last declaration of the key |
| ProviderGraph.Validator.RecordMissing | container/provide.go:416-428 | the first undeclared dependency of a provider that is not optional is its error |
| ProviderGraph.Validator.RecordUnwired | container/provide.go:411-429 | after both loops a key has an error exactly when it is duplicated or misses a provider |
| ProviderGraph.Validator.FoundCycle | container/provide.go:431-475 | a key met again on the stack gives a real cycle, recorded for every provider on it that has no error yet and for no other |
| ProviderGraph.Validator.Visit | container/provide.go:455-493 | the search terminates on every graph and leaves a finished order in which dependencies come first, up to errors |
| ProviderGraph.ValidateProviders | container/provide.go:392-500 | every error recorded is true, every structural error is found, and the rest can be ordered so that dependencies come first |
| ProviderGraph.NoCycleWithoutError | container/provide.go:392-500 | every cycle of the wiring has a provider with an error on it: what is left is acyclic |
| Resolve.StepInv | container/provide.go:515-623 | every step of any number of resolvers keeps the invariant of slots, entries and stacks |
| Resolve.BuildsAreUnique | container/provide.go:529-569 | at most one build of a key is in flight |
| Resolve.ReadyForever | container/provide.go:529-569 | a resolved entry is never replaced or evicted |
| Resolve.CallersAgree | container/provide.go:515-570 | all who ever resolve a key get one value, and its dependencies were resolved before |
| Resolve.FailedBuildIsRetried | container/provide.go:532-547 | a failed build leaves no entry, and the next thread to look for the key builds it |
| Resolve.WokenWaiterMovesOn | container/provide.go:557-563 | a woken waiter never waits for the same build again |
| Resolve.RecursionIsBounded | container/provide.go:577-598 | the recursion is never deeper than there are declared providers without an error |
| Resolve.NoDeadlock | container/provide.go:515-623 | no set of resolvers waits on each other in a loop: some call can always move |
| Resolve.ResolvedAreClosable | container/provide.go:577-598 | resolved providers are wired, without an error, and closed under dependencies |
| Resolve.RecordingFailureIsSafe | container/container.go:205-218 | recording a failed eager build as its key's error keeps everything the resolvers rely on |
| ResolveValues.ValuesAreTheFactorys | container/provide.go:529-570 | in every run a value that is cached or returned for a key is what its factory returned, and the factory has returned a value exactly once |
| ResolveValues.FactoriesGetTheirDependencies | container/provide.go:577-620 | every factory is called with the values its dependencies resolved to, in their order, and only an optional provider does without one that nobody provides |
| ResolveValues.ErrorsAreTheCallers | container/provide.go:515-620 | a call returns the recorded error of its key exactly when there is one, and "not provided" exactly for an undeclared key; any other error arose in the caller's own build of the key, or of something it needs along dependencies |
| ResolveEnds.StepLowers | container/provide.go:515-623 | every step lowers a measure, retries included |
| ResolveEnds.EveryCallReturns | container/provide.go:515-623 | under any schedule that picks a thread that can move, every call of resolve returns |
| Container.IndexDefs | container/container.go:194-200 | the first declaration of a key is the one kept |
| Container.Wire | container/container.go:194-202 | what validation found holds of the kept declarations too |
| Container.ResolveAlone | container/provide.go:515-570 | a call alone returns; an error leaves no entry, no resolved provider is lost, and none is resolved that the key does not need |
| Container.BuildEager | container/container.go:205-218 | a provider that is not eager or has an error already is left alone; for any other the error recorded is the one its resolution returned |
| Container.New | container/container.go:168-221 | each eager provider is resolved or has an error on record, not both; only what an eager provider needs is resolved, with its factory's value; the wiring meets what resolution and Close rely on |
| CloseOrder.Orderer.Visit | container/provide.go:716-730 | a resolved provider enters the order after its dependencies, whatever cycles there are among others |
| CloseOrder.ProviderCloseOrder | container/provide.go:710-737 | the order holds every provider once, dependencies of resolved ones first, and depends on the wiring alone |
| CloseOrder.ProviderSnapshots | container/provide.go:743-758 | Close walks exactly the resolved providers, once each, each before all it depends on |
| CloseOrder.LabelsLineUp | container/provide.go:743-776 | names taken after the instances, when more may be resolved, are never too few, and fit the instances if and only if no newly resolved provider is listed before one that was resolved |
| Pools.StepInv | container/pools.go:196-257 | every step of any number of borrowers keeps the invariant of pools and channels |
| Pools.OneOpenPerKey | container/pools.go:203-229 | at most one open per key is in flight |
| Pools.PoolForever | container/pools.go:196-257 | an open pool is never replaced or evicted, its knobs never change, its services only grow |
| Pools.BorrowersShare | container/pools.go:196-257 | all who borrow under one key hold one connection |
| Pools.FirstOpenerDecides | container/pools.go:218-229 | backend and knobs are the first successful opener's for good |
| Pools.FailedOpenIsRetried | container/pools.go:203-217 | a failed open leaves no entry, and the next call to look for the pool opens it |
| Pools.ServicesAreTheBorrowers | container/pools.go:218-243 | a pool lists exactly the services that hold it, without duplicates |
| Pools.LogIsComplete | container/pools.go:244-252 | at every moment of every run the mismatch log holds one entry for each returned call whose cap was ignored, and no other |
| Pools.NoWaiterIsWedged | container/pools.go:231-237 | whoever a waiter waits for can move |
| Pools.BorrowsEnd | container/pools.go:196-257 | n borrowers take at most n * (6n + 4) steps, whatever fails |
| PoolOpens.ConnectionIsTheOpeners | container/pools.go:196-257 | in every run whoever borrows under a key holds the connection that its only successful open returned, with that opener's backend and cap |
| PoolOpens.FailureIsOwn | container/pools.go:203-217 | a call that fails made the open that failed itself, and returns its error |
| Reload.StepInv | container/reload.go:312-456 | every step of Allow, Reset, Swap and Close keeps the invariant of boxes and callers |
| Reload.EveryRunIsSafe | container/reload.go:298-456 | a limiter is closed at most once, owned, retired and drained; the first never; a retired box is current only after Close; a call that acquired its box is never on a closed limiter |
| Reload.EverythingIsClosedInTheEnd | container/reload.go:325-353 | when all calls have returned each owned limiter is closed exactly once, but for the current one before Close |
| Reload.LimitersAreRightExactly | container/reload.go:298-456 | in every run each limiter is closed at most once, the initial one never, and none under calls that hold it or can get it, if and only if no limiter is handed to Swap twice and the initial one only where no other swap and no Close can retire it |
| Reload.SwappingTwiceSuffices | container/reload.go:386-399 | an instance: two swaps of one limiter end with it closed and current |
| Reload.RejectedSwapDisturbsNobody | container/reload.go:386-393 | a swap without a limiter or after Close leaves every run of all others as if it were over |
| ReloadAnswers.SwapsFormAChain | container/reload.go:386-399 | whatever runs beside them, each swap reports the limiter that the one before it put in, the first the initial one, and the last one put in is current |
| ReloadAnswers.EveryCallIsAnswered | container/reload.go:386-428 | a call that has returned has run its function exactly once, on a limiter that was current when it looked; a swap was refused only without a limiter or after Close, and told which one stays |
| Reload.SomeThreadMoves | container/reload.go:386-456 | whoever holds the mutex can move |
| Reload.EveryRunEnds | container/reload.go:402-420 | the retry loop never spins for ever: n calls take at most n * (4n + 9) steps |
| CloseHandoff.StepInv | container/close.go:175-244 | every step of Close and of its goroutines, late ones included, keeps the invariant of channels |
| CloseHandoff.ReceivedIsItsOwn | container/close.go:204-229 | a received result was sent by the goroutine of the service being closed |
| CloseHandoff.NoSendBlocks | container/close.go:379-387 | a goroutine's send never blocks, however late |
| CloseHandoff.LateSendGoesNowhere | container/close.go:208-243 | an abandoned goroutine sends into a channel that Close has let go of |
| CloseHandoff.InstancesCloseOnce | container/close.go:180-191 | an instance is closed at most once per Close, and one service is dealt with before the next begins |
| CloseHandoff.EveryServiceIsDealtWith | container/close.go:175-244 | at the end every service is closed, or the earlier one that is the same instance |
| CloseErrors.ErrorsTellAll | container/close.go:204-243 | the errors are those of the services that failed to close, panicked or took too long, each under its service's name unless it names it already, in the order of the services, and no other |
| CloseErrors.SuccessExactly | container/close.go:204-243 | Close reports no error if and only if every service it turned to closed in time and without one |
| CloseErrors.ReceivedIsTheOutcome | container/close.go:379-387 | a result received is how the goroutine of that service ended, which it did once |
| CloseHandoff.CloseEnds | container/close.go:175-244 | Close takes at most two steps a service, whatever the services do |
| CloseHandoff.CloseCanMove | container/close.go:193-243 | Close is never stuck: it can turn to the next service or time out, and what it waits for is there or its goroutine can move |
| CloseHandoff.SomeEnd | container/close.go:175-244 | from every state Close can come to the end, without a timeout if the services return |
| CloseProviders.ClosedInListOrder | container/close.go:175-244 | one service is closed before another if and only if its instance is first listed before the other one is |
| CloseProviders.DependentsCloseFirst | container/close.go:266-279 | with instances that are all different, a resolved provider is closed, and waited for, before any provider it depends on |
| CloseProviders.SharedInstanceClosesEarly | container/close.go:180-191 | an instance provided under two keys: declared as d, u, x, with u depending on d, the providers are listed x, u, d, and every Close that comes to the end closes the instance of d before that of u |
| CloseProviders.SharedInstanceIsClosed | container/close.go:175-244 | and every such Close, however it began, can come to the end |
| Preload.ChunkStatementFits | orm/preload.go:196-222 | each chunk's statement fits the budget with its tail, and is always a single plan |
| Preload.ChunkSizeIsLargest | orm/preload.go:196-222 | chunks are as large as the budget allows beside the other arguments, up to a thousand ids, and there is an error if and only if not even one fits |
| Preload.FetchChunks | orm/preload.go:108-124 | the ids are fetched chunk by chunk; with the computed chunk size no statement fails |
| Preload.FetchedAsAlone | orm/preload.go:80-124 | of all chunks together every id has what a query for that id alone returns, in its order, if LIMIT and OFFSET do no harm to any chunk; and only if, where there is no OFFSET or rows differ |
| Preload.DistinctIds | orm/preload.go:80-92 | each parent key once, in order of first appearance: the ids of the first rows come first |
| Preload.CountChildren | orm/preload.go:135-149 | the counting pass finds how many children each key has |
| Preload.AssignOffsets | orm/preload.go:151-159 | in any map iteration order the spans are disjoint and tile the array |
| Preload.FillChildren | orm/preload.go:161-170 | the filling pass puts each key's children into its span, in order |
| Preload.Preload | orm/preload.go:60-189 | without LIMIT and OFFSET each parent gets exactly what a query of its own would, for every chunk size and map order; with them if and only if they do no harm to any chunk (with an OFFSET, of rows that differ); slices of different keys are disjoint, cannot grow and tile the array |
| KeyedPages.PagedAlikeExactly | orm/preload.go:101-124 | LIMIT and OFFSET on rows of several keys leave each key what they leave of its own rows if and only if all rows fit, or there is one key, or all rows are skipped, or one key has all rows up to the end of the page and no other more than are skipped |
| KeyedPages.SecondKeyIsLost | orm/preload.go:101-124 | an instance: two keys with one row each and LIMIT 1 |
| Keyset.KeysetAfter | orm/cursor.go:148-169 | the nested loops build the OR-expansion |
| Keyset.AfterTuple | orm/cursor.go:134-144 | no columns and a length mismatch are errors, everything else the OR-expansion |
| Keyset.CursorIsTupleOfOne | orm/cursor.go:87-103 | the predicate of a cursor, and so the next page, is the tuple form with one column |
| Keyset.AfterMatches | orm/cursor.go:148-169 | for every row, NULLs included: some column is beyond its value and all before it equal theirs |
| Keyset.AfterIsLexicographic | orm/cursor.go:121-169 | the OR-expansion is strict lexicographic order in either direction, for any number of columns, where a NULL decides nothing |
| Keyset.ApartIsDecided | orm/cursor.go:121-169 | in either direction one of two keys is strictly after the other if and only if some column tells them apart and no NULL stands before or in it |
| Keyset.NullKeyIsNeverAfter | orm/cursor.go:148-169 | a row with NULL in an ordering column is after no row that no earlier column puts it behind, in either direction and wherever NULLs are sorted |
| Keyset.NextPageSeesTheRest | orm/cursor.go:95-103 | the next page's statement sees exactly the rows not read yet |
| Keyset.PagesMakeTheTable | orm/cursor.go:95-169 | for keys any two of which some column tells apart, such as distinct ones without NULLs, the pages of a whole run, in a row, are the complete sorted result: no row lost, none repeated |
| KeysetTies.PagesRightlyExactly | orm/cursor.go:95-169 | whole runs of every page size give the complete result if and only if any two matching rows are told apart by some ordering column with no NULL before or in it; rows the predicate excludes may have any keys |
| KeysetTies.NeverTieWithoutNulls | orm/cursor.go:95-169 | without NULLs in matching rows that is: if and only if no two of them have one key |
| KeysetTies.SomeRun | orm/cursor.go:95-103 | from every position there is a run of pages to the end |
| Keyset.OffsetPageIsRight | orm/cursor.go:109-119 | an offset page is right for all results if and only if its offset fits into an int |
| Keyset.OffsetPage | orm/cursor.go:109-119 | a page or a size below one is refused, the page first, and nothing else |
| Keyset.OffsetPagesTile | orm/cursor.go:105-119 | the first pages in a row are the first rows |
| CursorToken.UvarintRoundTrip | orm/cursor.go:311-330 | every uint64 is read back, with the bytes it took |
| CursorToken.StringRoundTrip | orm/cursor.go:311-330 | a length-prefixed string is read back, whatever follows it |
| CursorToken.ValueRoundTrip | orm/cursor.go:340-489 | every string, byte slice, integer, float bit pattern and bool is read back under its tag |
| CursorToken.ValueHasKind | orm/cursor.go:417-489 | whatever bytes a value is read from, it is in the range of its type |
| CursorToken.Base64RoundTrip | orm/cursor.go:231-245 | unpadded base64url is read back |
| CursorToken.DecodeOfEncode | orm/cursor.go:212-301 | a token decodes to its cursor for its own column and type, and to the specific error for any other |
| CursorToken.NoTokenIsNoCursor | orm/cursor.go:240-243 | there is no cursor if and only if there is no token |
| CursorToken.ForeignTokensAreRefused | orm/cursor.go:245-252 | what is not base64url, or not of version 1, is refused as such |
| CursorToken.BrokenNamesAreRefused | orm/cursor.go:254-264 | a token that breaks off in its table or column name is refused as such |
| CursorToken.WholeTokensAreRead | orm/cursor.go:266-300 | with both names there: a wrong column, no value, a wrong type and a corrupt value are told apart in this order, and the lowest bit gives the direction |
| CursorToken.OneToken | orm/cursor.go:212-232 | a token to the letter |
| CursorToken.TagsAreLetters | orm/cursor.go:196-203 | the letters that stand for the types |
| CursorToken.LongIntegersWrap | orm/cursor.go:429-435 | an integer too long for an int32 is accepted and keeps its low 32 bits |
| CursorToken.LongBitsAreRefused | orm/cursor.go:436-453 | bits too long for a float32 are an error |
| CursorToken.OneByteIsBool | orm/cursor.go:454-459 | a bool is one byte, and 1 alone is true |
| CursorToken.EncodeIsInjective | orm/cursor.go:212-232 | different cursors have different tokens, across columns and types |
| CursorToken.AcceptedIsWellTyped | orm/cursor.go:240-301 | any token accepted, however made, gives a well-typed cursor on the column asked for, that round-trips |
| CursorToken.NewlinesDoNoHarm | orm/cursor.go:245 | newlines anywhere in a token are ignored |
| CursorToken.BytesBehindNumberAreIgnored | orm/cursor.go:421-448 | bytes behind an integer or a float change nothing |
| CursorToken.BytesBehindStringAreRefused | orm/cursor.go:466-474 | bytes behind a string are an error |
| DotEnv.IsDotEnvKey | config/dotenv.go:267-279 | the loop accepts a letter or underscore followed by letters, underscores and digits |
| DotEnv.ExpandDotEnvValue | config/dotenv.go:320-346 | the index loop replaces each reference once, left to right, and fails on the first malformed one |
| DotEnv.FirstMalformedIsTheError | config/dotenv.go:324-338 | the first malformed reference of a value is its error, whatever stands before and after it |
| DotEnvExpand.ExpandDotEnv | config/dotenv.go:285-313 | with its 16 passes: each expandable value becomes its full expansion and no other value changes, or the depth is the error; references up to 16 deep always expand, exactly those where they lead to values that are never rewritten, and up to 65535 deep where every name is expandable; a cycle is the depth error |
| DotEnv.ExpandIsSubst | config/dotenv.go:320-346 | on values whose plain text cannot fuse into a reference the scanner is substitution of tokens |
| DotEnv.PassesAreSubstPasses | config/dotenv.go:285-313 | on such values all passes are substitutions and the only error is depth |
| DotEnvDepth.SuccessIsFullExpansion | config/dotenv.go:281-313 | success is never partial: each expandable value is its full recursive expansion, others are unchanged |
| DotEnvDepth.FullIsPlain | config/dotenv.go:281-284 | a full expansion has no reference left in it |
| DotEnvDepth.ShallowAlwaysExpands | config/dotenv.go:281-313 | references no deeper than there are passes always expand, whatever mix of old and new values a pass reads |
| DotEnvDepth.CycleAlwaysFails | config/dotenv.go:281-313 | an expandable value that leads to a cycle always ends in an error |
| DotEnvDepth.BottomlessIsCycle | config/dotenv.go:281-313 | depth without bound is a cycle and nothing else |
| DotEnvDepth.LiteralChainsExpandExactly | config/dotenv.go:285-313 | where references lead to values that are never rewritten, n passes succeed if and only if no chain is longer than n |
| DotEnvDepth.DeepExpandsWhenAllExpandable | config/dotenv.go:285-313 | where every name is expandable, n passes expand depth 2^n - 1 |
| DotEnvLadder.LadderExpandsExactly | config/dotenv.go:285-313 | a chain visited from its head expands in n passes if and only if it is no deeper than 2^n - 1 |
| DotEnvLadder.DepthBoundIsSharp | config/dotenv.go:285-313 | for every n there are values of depth 2^n, all of them expandable, that n passes do not expand |
| DotEnvDepth.PlainTextCanFuse | config/dotenv.go:328-345 | a value for which plain text fuses into a new reference |
| EditDistance.DamerauLevenshtein | config/suggest.go:53-94 | the table filled in place computes the recursive distance |
| EditDistance.DistIsLeastCost | config/suggest.go:53-94 | a number is the distance if and only if it is the least cost of all edit scripts of insertions, deletions, substitutions and neighbour swaps |
| EditDistance.Symmetric | config/suggest.go:53-94 | the distance is symmetric |
| EditDistance.ZeroIffEqual | config/suggest.go:53-94 | it is zero if and only if the strings are equal |
| EditDistance.Bounds | config/suggest.go:53-94 | it is between the difference of the lengths and the longer one |
| EditDistance.NoTriangleInequality | config/suggest.go:53-94 | a third string can make a way shorter, since edits do not overlap |
| EditDistance.ScoreMeans | config/suggest.go:29-33 | a candidate that continues the input counts as far as it is longer, less one if that is two or more; any other as far as it is |
| EditDistance.Closest | config/suggest.go:16-51 | the first of the closest candidates if it is close enough for the input's length, else nothing |

## Left out

- SQL text, dialects, joins, scanners and the typed builder surface: predicates are modelled by meaning, the budget as a number.
- Arguments of subquery, function, raw, JSON and full-text leaves count as zero, as in the code.
- Writers between the statements of a chunked read: the table is one sequence, in the order the statement asks for.
- Errors of the database itself in Count, Stream and Preload, and the failure of the parents' query.
- Preload.Preload: with an OFFSET, that some parent gets something else is promised only for child rows that differ.
- Preload.Preload: foreign keys are compared with Go's `==` on map keys, so not-a-number keys are not modelled; what SQL finds equal to an id must be read back as that id.
- Float meaning and time values in cursors: floats are bit patterns, times are not among the value types.
- NestedTx.RetryTx: back-off sleeps, classification of errors and the transaction begun by db.WithTx, which commits or leaves nothing.
- Factories and builders that re-enter the container, limiter callbacks that panic, and the error returned by ReloadableLimiter.Close.
- Resolve.StepInv: whether the one look at the environment fails is given; seeding and applying options is part of what a factory returns.
- CloseHandoff.StepInv: the list of services is given, with the providers anywhere in it; what the fixed bands around them are, gRPC's graceful stop and the logging of abandoned goroutines are not part of the model.
- Pools.StepInv: key normalisation, log lines and the sorting of snapshots.
- DotEnv.ExpandIsSubst: values whose plain text can fuse into a new reference are scanned as the code does, but no claim is made about what they expand to.
- DotEnvExpand.ExpandDotEnv: file parsing and merging, and which file and line an error names; keys come in any order, not only sorted.
- EditDistance.Closest: strings.ToLower is a parameter.
- The rendering of errors as text.
