# Verification of Umari

Umari is an event-sourcing runtime over one append-only log.  This project models its two
protocols on that log and the machines around them, and proves what they promise.

* **Commands.**  A command builds a query from the entries of its folds and its bindings, reads
  the matching events with a pinned watermark, folds, decides, and appends under a fence.
  `EventLog`, `Grouping`, `DomainQuery`, `Folds`, `BuiltinFolds`, `Transactions`, `Replay`,
  `FoldQueries`, `CommandRun` and `Serializability` go from the query to serial execution of
  every interleaving.  `JsBindings` and `JsFoldRunner` do the same for the TypeScript SDK,
  `UiProjection` for the UI's query builder.
* **Durable delivery.**  `EffectActor`, `EffectDelivery`, `EffectBatches`, `EffectGuarantees`,
  `EffectRuns` and `Worker` are the dispatcher of an effect, its pool, its acks and its
  persisted watermark, over all runs with failures and restarts.  `ProjectorDelivery` and
  `ProjectorActor` are the transactional delivery to projectors.
* **Supporting machines.**  `Supervisor` (hand-over, deletion, backoff), `ModuleStore` and
  `CryptoKeys` (the SQLite tables), `Output` (line splitting and ring buffer), `Words`, `Sha1`,
  `Sha1Sync` and `Uuid` (the hand-written SHA-1 and UUID code).

Objects whose methods update fields are classes, loops are loops, and both are proved against
functions; the functions carry the run-level theorems.  A protocol is a deterministic step
function over step labels; a step that is not enabled changes nothing, and a run is any
sequence of labels.

## What is assumed of foreign code

* The log: positions start at 1 and grow; a read returns exactly the matching events up to its
  watermark; a conditional append is atomic; a subscription takes an exclusive lower bound and
  its cursor is past the batch it returned; an item matches when its type is listed (no listed
  type means any) and all its tags are carried.  These are definitions in `EventLog` and
  `Transactions`, not axioms.
* SQLite transactions are serializable: a transaction sees the database as of its first
  statement and commits only if nobody committed since; a crash rolls it back.
* Mailboxes are first in, first out; a dispatcher handles acks only between batches.
* Workers are restarted without limit by their dispatcher (`crates/runtime/src/module/actor.rs:252-262`),
  when it comes to the notice of a worker's death.  The failure ack is sent before the worker dies,
  so it is ahead of that notice in the dispatcher's mailbox, and it stops the dispatcher.  Within
  an incarnation a failed worker is therefore taken to be down for good.
* The cipher is a seal/open pair that round-trips (`CryptoKeys.RoundTrips`); SHA-256 in the
  module store is an uninterpreted function.
* Handlers, partition functions, decoders, `apply` and decision functions are arbitrary total
  functions; a handler failure is an outcome.

## Where a promise needs a condition

* An event that can no longer be read is acked in the middle of its batch.  If nothing is in
  flight, the watermark jumps to the cursor.  `EffectRuns.AtLeastOnceExactly` says which runs
  lose nothing: exactly those where no such jump passes an event of the batch that is still to be
  done.  `EffectRuns.UnsafeSkipLosesAnEvent` is a run that loses an event.
* The fold filter looks at the first entry of an event type only, and a command's fold filters
  by its own domain-id fields only: `Folds.TakesOnlyWhatItFetchesExactly` and
  `Folds.DropsNothingItFetchesExactly` say exactly when that is harmless;
  `BuiltinFolds.TogglesWithMismatchedFieldsInterfere` and `Folds.SecondVariantIsDropped` are
  folds where it is not.  In the TypeScript SDK a command's folds bring their own bindings, under
  the same condition (`JsFoldRunner.JsCommandFoldsDoNotInterfere`).
* A commit without events is not fenced: `Serializability.Serializable` is about the commits
  that append; the others are placed at their read.
* The supervisor forgets a stopping actor's name: `Supervisor.AtMostOneLiveActorExactly` says
  that there is one live actor per module exactly on the runs whose loads and resets wait until
  the module's previous actor is dealt with.
* The removal of a deleted module's files looks at the loaded entry only:
  `Supervisor.WipesUnderALiveActorExactly` says when they go under a live actor,
  `Supervisor.DeleteAfterDeactivateHitsAStoppingActor` and
  `Supervisor.LateWipeHitsAStoppingActor` are such runs.
* The TypeScript query key splits at the unit separator.  The comment at
  `packages/js/src/util/bindings.ts:109` calls that safe because field names do not contain it;
  values may.  The runtime also rejects repeated tags, which the Rust builder's sets cannot hold,
  and empty types.  There are exact conditions for each step: for being accepted
  (`JsBindings.AcceptedExactly`), for being the Rust query
  (`JsBindings.JsQueryIsTheRustQueryExactly`), for meaning what the entries ask for
  (`JsBindings.AcceptedQueryDenotesExactly`), and for serving one fold
  (`JsBindings.FetchesWhatAFoldTakesExactly`, `JsFoldRunner.KeepsItsStateExactly`).
  `JsBindings.SeparatorLosesAWantedEvent` and `JsFoldRunner.SeparatorLosesState` are the query and
  the fold that miss an event.

## Model

| member | source | states |
|---|---|---|
| EventLog.SeenExactly | crates/runtime/src/module/actor.rs:580-611 | A reader gets an event as stored, with null for a payload whose key is deleted, and skips it iff it has a scope and is null, from the start or for want of its key. |
| EventLog.StoredExactly | crates/runtime/src/wit/command.rs:251-273 | The event at a position is handed out with its type, tags, payload, keys and scope. |
| EventLog.ReadIgnoresLaterEvents | crates/runtime/src/wit/command.rs:251-273 | A read pinned to a watermark returns the same events however far the log grows afterwards. |
| EventLog.ReadIsSound | crates/runtime/src/wit/command.rs:251-273 | Every event a read returns is the stored event at its position, matches the query and lies above the lower bound and at or below the watermark. |
| EventLog.ReadIsComplete | crates/runtime/src/wit/command.rs:251-273 | No matching position inside the range is missing from a read. |
| EventLog.ReadIsOrdered | crates/runtime/src/wit/command.rs:251-273 | A read is strictly increasing in position. |
| EventLog.ReadSkipsQuietTail | crates/runtime/src/module/actor.rs:480-485 | Moving the cursor over a non-matching tail changes nothing that is delivered. |
| Grouping.GroupIsExact | crates/umari/src/command.rs:300-346 | Grouping keeps exactly the (tag set, type) pairs asked for, under distinct keys and with no empty group, whatever their order and repetition. |
| Grouping.GroupFollowsRenaming | packages/js/src/util/bindings.ts:88-127 | Grouping under one-to-one renamed keys gives the renamed groups in the same order. |
| Grouping.AddMember | crates/umari/src/command.rs:300-346 | One insertion into the insertion-ordered map keeps it equal to the grouping of everything inserted so far. |
| DomainQuery.DcbQueryMeansItsEntries | crates/umari/src/command.rs:300-346 | An event matches the grouped query iff it matches some ungrouped entry under some binding set; items have distinct tag sets and at least one type. |
| DomainQuery.ItemsMeanTheNeeds | crates/umari/src/command.rs:300-346 | An event matches the items of a grouping iff some requested pair has its type and tags all carried by the event. |
| DomainQuery.CollectTags | crates/umari/src/command.rs:305-330 | The tags of one entry under one binding set: bound dynamic fields and all static fields. |
| DomainQuery.BuildDcbQuery | crates/umari/src/command.rs:300-346 | The nested loops over binding sets and entries return the grouped query that the lemmas are about. |
| JsBindings.SortedIsUnique | packages/js/src/util/bindings.ts:100-115 | A multiset of tags has one sorted order, so a sorted key does not depend on insertion order. |
| JsBindings.KeyRoundTripsExactly | packages/js/src/util/bindings.ts:100-127 | Splitting the joined key gives back the tags iff no tag contains the unit separator. |
| JsBindings.JsGroupsAreTheRustGroups | packages/js/src/util/bindings.ts:88-127 | With separator-free, duplicate-free tags the TypeScript groups are the Rust groups, in the same order. |
| JsBindings.JsQueryIsTheRustQueryExactly | packages/js/src/util/bindings.ts:88-127 | The TypeScript query is accepted and is the Rust query item for item iff no tag contains the unit separator, no entry yields a tag twice, and no type asked for is empty. |
| JsBindings.CleanQueryIsTheRustQuery | packages/js/src/util/bindings.ts:88-127 | With separator-free tags the runtime accepts the query iff no tag is repeated and no type empty, and an accepted query is the Rust one. |
| JsBindings.AcceptedExactly | packages/js/src/util/bindings.ts:88-127 | The runtime accepts the TypeScript query iff for every pair of entry and binding set the type is not empty and the tags read off the pair's key are non-empty and distinct. |
| JsBindings.AcceptedQueryMatchesExactly | packages/js/src/util/bindings.ts:88-127 | An accepted query matches an event iff the key of some pair of its type asks for no tag that the event does not carry. |
| JsBindings.AcceptedQueryDenotesExactly | packages/js/src/util/bindings.ts:88-127 | An accepted query means what its entries ask for iff, pair by pair, some key of the type asks for no more than the pair's tags and some pair for no more than its key. |
| JsBindings.FetchesWhatAFoldTakesExactly | packages/js/src/runtime/fold-runner.ts:42-53 | An accepted query fetches everything a fold takes iff for the first entry of each of its types some pair of the type has a key that asks for no further tag than the entry does under the fold's own bindings. |
| JsBindings.SeparatorLosesAWantedEvent | packages/js/src/util/bindings.ts:100-127 | Counter-run: with a unit separator inside a value the runtime accepts the query, and the query misses an event that the entry asks for and the Rust query matches. |
| JsBindings.ToItemsIsPointwise | crates/runtime/src/wit/common.rs:27-60 | A list of filters converts iff every filter converts, element by element. |
| JsBindings.BuildDcbQueryJs | packages/js/src/util/bindings.ts:88-127 | The loops over a Map keyed by joined tags return the filters of the grouping. |
| JsBindings.MatchesFoldQueryJs | packages/js/src/util/bindings.ts:133-149 | The comparisons with whole tags decide the same filter as the Rust prefix-stripping code. |
| UiProjection.BuildQuery | crates/ui/src/projection.rs:125-158 | Fails iff some type name is empty; otherwise its items are exactly the groups of the declared entries, each once. |
| UiProjection.UiQueryMeansItsEntries | crates/ui/src/projection.rs:125-158 | Whatever the order of items, an event matches iff some declared entry has its type and the event carries, for every field of the scope, the tag of field and value as it prints. |
| UiProjection.UiQueryAgreesWithRust | crates/ui/src/projection.rs:121-125 | The same declarations written for the Rust builder, with each scope as static fields, match the same events. |
| Folds.FoldFilterIsTagInclusion | crates/umari/src/folds.rs:815-851 | The search for stripped tags accepts an event iff the tags of the first entry of its type are all carried by it. |
| Folds.FindEntryFindsTheFirst | crates/umari/src/folds.rs:823-828 | The filter looks at the first entry of the event's type and at no other. |
| Folds.FoldComputes | crates/umari/src/folds.rs:321-367 | A replay is the left fold of `apply` from the initial state over the events taken, in log order; it fails iff a readable event inside the filter does not deserialize. |
| Folds.OneEventExactly | crates/umari/src/folds.rs:329-367 | On the stored event: one that cannot be read, is outside the filter or not in the event set leaves the state alone, a malformed one fails, every other one is applied to that very state. |
| Folds.FailureIsFinal | crates/umari/src/command.rs:139-142 | A replay that failed stays failed whatever events follow. |
| Folds.QueryFiltersNothingTheFoldTakes | crates/umari/src/folds.rs:329-367 | If a query fetches at least what a fold takes, the fold over the query's events is the fold over the whole log. |
| Folds.TakesOnlyWhatItFetchesExactly | crates/umari/src/folds.rs:294-318 | Iff condition for a fold with bindings of its own to take only events that its own entries ask for under the command's input. |
| Folds.DropsNothingItFetchesExactly | crates/umari/src/folds.rs:815-851 | Iff condition for a fold to drop nothing that its own entries fetched. |
| Folds.UsualFoldsQualify | crates/umari/src/folds.rs:294-318 | Fields bound alike give the first condition; one entry per event type with fields bound alike gives the second. |
| Folds.CommandFoldsDoNotInterfere | crates/umari/src/folds.rs:294-367 | Whatever other folds widen the query, a qualifying fold ends in the state it has alone over the whole log. |
| Folds.SecondVariantIsDropped | crates/umari/src/folds.rs:815-851 | Counter-run: of two variants of one type told apart by a static field, an event of the second is asked for and fetched but not folded; with the variants declared the other way round it is. |
| Folds.OnlyTheFirstVariantIsTaken | crates/macros/src/derive_event_set.rs:91-184 | A fold over two scoped variants of one type takes an event iff it is of the variant declared first. |
| BuiltinFolds.SingleEventFoldsCompute | crates/umari/src/folds.rs:370-605 | `EventFold` returns exactly the events it takes, in log order, `EventCounter` is their number in 64-bit arithmetic and `LatestEvent` the last; all fail iff a readable event inside the filter does not parse. |
| BuiltinFolds.SingleEventFoldsAgree | crates/umari/src/folds.rs:427-605 | On every log `EventCounter` is the length of `EventFold`'s list in 64-bit arithmetic and `LatestEvent` its last element. |
| BuiltinFolds.ToggleIsTheLaterOfTheTwo | crates/umari/src/folds.rs:662-712 | For distinct types under the same bindings `EventToggle` holds whichever of the two `LatestEvent` states has the greater position. |
| BuiltinFolds.SingleEventFoldsQualify | crates/umari/src/folds.rs:580-605 | The single-event folds meet both non-interference conditions for every input. |
| BuiltinFolds.ToggleQualifiesExactly | crates/umari/src/folds.rs:607-660 | A toggle takes only what it fetches iff every bound field of its second event is one of its first event's fields. |
| BuiltinFolds.TogglesWithMismatchedFieldsInterfere | crates/umari/src/folds.rs:607-660 | Counterexample: with mismatched fields another fold's entries change a toggle's state. |
| Replay.ApplyToAll | crates/umari/src/command.rs:139-142 | Offering one event to every fold, in any map order, advances each fold by it alone, or fails because some fold fails. |
| Replay.ReplayBatch | crates/umari/src/fold_query.rs:96-108 | Replaying a batch leaves every fold in its state alone over all events so far, or fails because some fold alone fails. |
| FoldQueries.FoldsOfOneQueryDoNotInterfere | crates/umari/src/fold_query.rs:84-95 | With all entries crossed with all bindings every fold ends as alone over the whole log, with no side condition. |
| FoldQueries.FoldQuery.Fold | crates/umari/src/fold_query.rs:42-58 | Adds one fold under a fresh key and extends the query by its entries. |
| FoldQueries.FoldQuery.FoldIter | crates/umari/src/fold_query.rs:60-82 | Adds the folds of an iterator under consecutive keys of one handle; the shared entries are added once, even for an empty iterator. |
| FoldQueries.FoldQuery.Extract | crates/umari/src/folds.rs:71-76 | Every handle takes its own states out of the map; no key is missing and none is taken twice. |
| FoldQueries.Drain | crates/umari/src/fold_query.rs:96-112 | The loop to the empty batch ends with every fold over everything the transaction read. |
| FoldQueries.FoldQuery.Run | crates/umari/src/fold_query.rs:84-116 | On success every handle, including each element of an iterator's, gets its fold's state alone over the whole log; a failure is some fold's own failure; the log is untouched. |
| CommandRun.ReplayUntilDuplicate | crates/umari/src/command.rs:119-143 | Stops at the first event carrying the very key, with no fold failing before it, or replays the whole batch, none of whose events carries it. |
| CommandRun.ReplayAll | crates/umari/src/command.rs:118-144 | The same over all batches of one transaction, leaving its fence as it was. |
| CommandRun.CommandBuilder.AddFold | crates/umari/src/command.rs:59-78 | Adds a fold and its entries, keeping every fold's entries in the query. |
| CommandRun.CommandBuilder.Run | crates/umari/src/command.rs:100-200 | Alone on the log the command appends exactly what it decides on the events of its query, stamped with its key, or nothing; without its own key among them it appends all that `decide` emits; each error case leaves the log alone. |
| CommandRun.DecidesExactly | crates/umari/src/command.rs:118-165 | A command without a key, or with a key that no event read carries, commits all that it decides on its folds' states, or aborts on a rejection or a failing fold. |
| CommandRun.DuplicateDecidesExactly | crates/umari/src/command.rs:118-137 | A command that reads its own key commits nothing, unless a fold fails before the first event that carries it. |
| CommandRun.DuplicateEmitsNothing | crates/umari/src/command.rs:124-137 | A command that meets its own key among its events emits nothing. |
| CommandRun.CommandSeesWholeLogStates | crates/umari/src/command.rs:100-150 | The states a command decides on are those of its folds alone over the whole log. |
| JsFoldRunner.RunFolds | packages/js/src/runtime/fold-runner.ts:55-95 | Ends early iff an event carries the caller's key; otherwise every slot holds its own fold over everything the transaction returned. |
| JsFoldRunner.JsOneEventExactly | packages/js/src/runtime/fold-runner.ts:76-92 | On the stored event: one that cannot be read or is outside the filter leaves a slot alone; every other one leaves the state that `apply` returns, or the one it changed in place. |
| JsFoldRunner.FetchedFoldKeepsItsState | packages/js/src/runtime/fold-runner.ts:42-95 | A fold over what an accepted query returns is the fold alone over the whole log, whatever else the query serves, when the query fetches what the fold takes. |
| JsFoldRunner.KeepsItsStateExactly | packages/js/src/runtime/fold-runner.ts:42-95 | The condition is exact for states: the counting fold with given entries and bindings keeps its whole-log state on every log iff the query fetches what such a fold takes. |
| JsFoldRunner.JsFoldsDoNotInterfere | packages/js/src/runtime/fold-runner.ts:42-53 | Whenever the runtime accepts the per-set query, a fold whose own tags carry no unit separator ends, over what it returns, as alone over the whole log, whatever the other folds' tags are. |
| JsFoldRunner.SeparatorLosesState | packages/js/src/runtime/fold-runner.ts:42-53 | Counter-run: with a unit separator in a fold's own binding the accepted query makes it miss an event of its own filter. |
| JsFoldRunner.JsCommandFoldsDoNotInterfere | packages/js/src/runtime/command-exports.ts:80-95 | A command's query uses the command's bindings, each fold filters by its own: whenever the query is accepted, a fold that takes only what its entries fetch under the command's bindings, separator-free there, has its whole-log state. |
| JsFoldRunner.FoldBoundElsewhereMissesItsEvents | packages/js/src/runtime/command-exports.ts:80-95 | Counter-run: a fold bound to another id than its command's misses the events of its own id. |
| Transactions.EventStore.Append | crates/runtime/src/wit/command.rs:421-438 | Appends all or nothing, and refuses iff an event matching the condition lies after its position. |
| Transactions.TransactionHost.New | crates/runtime/src/wit/command.rs:226-241 | Opens under an unused key, reading the matching events and the watermark in one snapshot unless the query is empty. |
| Transactions.TransactionHost.NextBatch | crates/runtime/src/wit/command.rs:275-325 | Hands out the whole matching set once, decrypted, and nothing afterwards; errors on a closed transaction. |
| Transactions.TransactionHost.Commit | crates/runtime/src/wit/command.rs:328-441 | Closes the transaction in every case, rejects events that do not parse or have invalid names, then scopes without a key, appends every emitted event field by field or nothing, under the fence, and reports position or watermark. |
| Transactions.StampedIsCommitted | crates/runtime/src/wit/command.rs:347-419 | Appending the stamped events appends one event for each emitted one, in order, with its type, tags, payload and scope, the command's idempotency key and the key id of its scope. |
| Transactions.CommittedIsReadBack | crates/runtime/src/wit/command.rs:347-441 | Whatever lands later, a reader whose query matches an emitted event's type and tags is handed it at its position with the payload emitted, or null iff its scope's key is deleted. |
| Transactions.TransactionHost.Drop | crates/runtime/src/wit/command.rs:443-451 | Closes the transaction and touches nothing else. |
| Transactions.EmptyQueryNeverConflicts | crates/runtime/src/wit/command.rs:243-245 | A query without items matches nothing, so appending without a fence loses nothing. |
| Serializability.RunKeepsInv | crates/runtime/src/wit/command.rs:226-441 | Every step of every interleaving keeps each open transaction in step with the log at its watermark and each commit explained by its own read. |
| Serializability.Serializable | crates/runtime/src/wit/command.rs:226-441 | For every interleaving of any number of commands, with readability fixed, the log is the one produced by running the appending commands one at a time in commit order, each on the whole log before it. |
| Serializability.EveryCommitIsSerialAtItsPoint | crates/runtime/src/wit/command.rs:226-441 | Every commit equals its command alone on the whole log before it if it appends, else on the prefix its read was pinned to. |
| Serializability.QuietReadOnlyCommitIsSerial | crates/runtime/src/wit/command.rs:434-438 | A commit without events is also serial at its commit point when nothing matching landed since its read. |
| Serializability.ReadOnlyCommitsAreNotSerialInCommitOrder | crates/runtime/src/wit/command.rs:434-438 | Counter-run: a commit without events is not fenced and need not be serial in commit order. |
| Serializability.KeyedCommandAppendsNothingTwice | crates/umari/src/command.rs:118-137 | If an event with the command's key matching its query is already in the log before the commit, the commit appends nothing, in any interleaving and with any keys shredded. |
| Serializability.OneKeyOneEffect | crates/umari/src/command.rs:118-137 | Of two executions with one key and query, once the first batch holds a matching event the other has appended nothing, even if that event was shredded since. |
| EffectActor.WatermarkIsBelowInFlight | crates/runtime/src/module/actor.rs:570-578 | The persisted watermark stays below everything in flight, one below the lowest; once drained it is exactly the cursor. |
| EffectActor.Route | crates/runtime/src/module/actor.rs:53-60 | Every key reaches a worker in range, keyed events never the global one and all others always. |
| EffectActor.KeysShareAWorkerExactly | crates/runtime/src/module/actor.rs:53-60 | Two keys share a worker iff their hashes agree modulo the number of keyed workers. |
| EffectActor.DeliveredExactly | crates/runtime/src/module/actor.rs:404-462 | On the stored event: one with a scope whose payload is null or whose key is deleted reaches no worker; every other one goes to the end of its partition worker's queue and is in flight. |
| EffectActor.ModuleDb.CompareAndSet | crates/runtime/src/module/actor.rs:533-544 | Sets the position iff it is what the caller expects, and says so. |
| EffectActor.Dispatcher.HandleAck | crates/runtime/src/module/actor.rs:517-556 | Computes the books, the persisted position and the verdict of one ack. |
| EffectActor.Dispatcher.ProcessBatch | crates/runtime/src/module/actor.rs:404-462 | Delivers a batch as specified event by event, stopping at a lost compare-and-set. |
| EffectActor.Dispatcher.LeastInFlight | crates/runtime/src/module/actor.rs:571-574 | The search returns the least position in flight. |
| EffectBatches.SmallStepsAreOneCall | crates/runtime/src/module/actor.rs:404-462 | The delivery system's small steps over a batch, with nothing in between, compute the books, position, queues and verdict of the one call. |
| EffectDelivery.LiveExactly | crates/runtime/src/module/actor.rs:404-418 | An event is live iff it matches and has no scope, or a payload whose key is not deleted. |
| EffectDelivery.ActorNextKeepsActor | crates/runtime/src/module/actor.rs:317-556 | Every step of an actor keeps cursor, batch, dispatches, acks, workers and queues consistent, and completions are never taken back. |
| EffectGuarantees.WatermarkIsSafe | crates/runtime/src/module/actor.rs:570-578 | With everything accounted for, all live events up to the new watermark are completed, provided a drained pool leaves nothing to be done in the batch. |
| EffectGuarantees.ActorNextKeepsCovered | crates/runtime/src/module/actor.rs:317-556 | Every exact step keeps everything live up to the cursor completed or accounted for and writes only watermarks below which everything live is completed. |
| EffectGuarantees.ActorNextRaises | crates/runtime/src/module/actor.rs:317-556 | Every step without a readable event behind a skip with an empty pool writes watermarks at least as high as the one before. |
| EffectRuns.RunKeepsOk | crates/runtime/src/module/actor.rs:317-556 | The bookkeeping invariant holds after every run of appends, shredding, batches, worker steps, failures, acks and restarts of any number of incarnations. |
| EffectRuns.AtLeastOnceExactly | crates/runtime/src/module/actor.rs:404-578 | Over every run of any number of incarnations: at every moment each live matching event at or below the persisted watermark has been completed, so that a restart loses none, iff no skip of the run writes the cursor past an event of its batch that is still to be done. |
| EffectRuns.StepLosesNothingExactly | crates/runtime/src/module/actor.rs:404-556 | Where everything is accounted for so far, a step loses nothing iff it is exact, and then everything stays accounted for. |
| EffectRuns.WatermarkNeverDecreases | crates/runtime/src/module/actor.rs:517-556 | On runs in which no skip with an empty pool has a readable event behind it in its batch, the persisted watermark never goes back, and nothing is lost. |
| EffectRuns.BooksBalance | crates/runtime/src/module/actor.rs:317-350 | Between batches, on every run, `in_flight` is exactly the dispatched and un-acked positions and never larger than 100 plus the largest batch. |
| EffectRuns.DrainPersistsCursor | crates/runtime/src/module/actor.rs:517-556 | An ack that drains the pool persists exactly the cursor; it stops the actor iff another incarnation wrote in between and there was something to write. |
| EffectRuns.DispatchOrder | crates/runtime/src/module/actor.rs:433-461 | On every run an incarnation dispatches each event at most once, in log order; a worker begins only events routed to it, each once, in log order; unkeyed ones go to the global worker. |
| EffectRuns.PartitionOrder | crates/runtime/src/module/actor.rs:433-461 | On every run, when a worker has begun an event, every event the incarnation dispatched to it earlier, so every earlier one of the same key, was begun before it there and nowhere else, and is completed. |
| EffectGuarantees.SkipLosesNothingExactly | crates/runtime/src/module/actor.rs:411-418 | A skip that writes the cursor loses nothing iff nothing behind it in its batch is still to be done. |
| EffectRuns.LostForever | crates/runtime/src/module/actor.rs:143-151 | An event left behind by the watermark is never completed on any continuation, by any incarnation. |
| EffectRuns.UnsafeSkipLosesAnEvent | crates/runtime/src/module/actor.rs:411-418 | Counter-run: a shredded event followed by a readable one in one batch, then a stop; the readable one is below the watermark and on no continuation completed. |
| Worker.ModuleWorker.ProcessEvent | crates/runtime/src/worker.rs:161-203 | Commit before ack; a guest error is acked as a failure; a panic or failed commit leaves the position set and acks nothing. |
| Worker.ModuleWorker.OnPanic | crates/runtime/src/worker.rs:125-155 | Sends one failure ack iff a position is still set, and clears it. |
| Worker.ModuleWorker.Receive | crates/runtime/src/worker.rs:125-203 | Exactly one ack per event, a success iff its effects are committed. |
| Worker.ModuleWorker.Drain | crates/runtime/src/worker.rs:125-203 | The mailbox is worked off in order up to the first failure. |
| Worker.OneAckEach | crates/runtime/src/worker.rs:125-203 | Acks are one per event begun, in order, and the success acks are exactly the commits. |
| Worker.ReceiveIsAWalk | crates/runtime/src/worker.rs:161-203 | What the worker does with an event is a walk of the delivery system, with the same ack and completion; a failure takes the worker down. |
| ProjectorDelivery.LiveExactly | crates/runtime/src/module/actor.rs:463-471 | An event is live iff it matches and has no scope, or a payload whose key is not deleted. |
| ProjectorDelivery.HandedExactly | crates/runtime/src/module/actor.rs:463-478 | On the stored event: one with a scope whose payload is null or whose key is deleted is passed over; every other one goes to the handler on the open transaction's model. |
| ProjectorDelivery.RunKeepsOk | crates/runtime/src/module/actor.rs:463-512 | Every step of any number of incarnations keeps the committed model a fold of what was applied and every current transaction its continuation. |
| ProjectorDelivery.CommitKeepsDatabase | crates/runtime/src/module/actor.rs:483-502 | A commit that goes through continues the fold exactly where the last one stopped. |
| ProjectorDelivery.AppliedExactlyOnce | crates/runtime/src/module/actor.rs:463-512 | On every run the committed model is the handler folded over events applied at most once, in log order, none past the persisted position and none still readable missing. |
| ProjectorDelivery.ModelIsTheFold | crates/runtime/src/module/actor.rs:463-512 | With readability fixed, crashes anywhere and any number of incarnations, the committed model is the handler folded once, in order, over the matching readable events up to the persisted position. |
| ProjectorDelivery.StaleIncarnationFails | crates/runtime/src/module/actor.rs:487-499 | An incarnation whose last position is not the persisted one commits nothing: with something to write it stops, with nothing to write it goes back to waiting. |
| ProjectorDelivery.OneReading | crates/runtime/src/module/actor.rs:464-469 | There is exactly one complete, ordered reading of the readable events up to a position. |
| ProjectorActor.Actor.ProcessBatch | crates/runtime/src/module/actor.rs:463-512 | All or nothing: model and cursor are committed together iff no handler fails and the compare-and-set holds; otherwise the database is as before. |
| ProjectorActor.KeptExactly | crates/runtime/src/module/actor.rs:463-471 | The events of a batch that are handled are those without a scope and those with a payload whose key is not deleted, in order. |
| ProjectorActor.UndisturbedIncarnationCommits | crates/runtime/src/module/actor.rs:463-512 | In every reachable state a new incarnation takes up strictly after the persisted position and, left alone, commits the handler folded over the readable events of its batch with the new position, unless a handler fails. |
| ProjectorActor.SmallStepsFoldTheBatch | crates/runtime/src/module/actor.rs:463-478 | The system's steps over a whole batch hold in their transaction the handler folded over its readable events, or take the incarnation down iff a handler fails. |
| Supervisor.OneOwner | crates/runtime/src/module/supervisor.rs:187-285 | In every reachable state an actor is in at most one of the three maps and under one name, so its death takes one branch. |
| Supervisor.StoppedIsNoFailure | crates/runtime/src/module/supervisor.rs:223-231 | A death counts as a failure iff the actor is still a module's entry, and such an actor was never asked to stop. |
| Supervisor.RunKeepsOwnership | crates/runtime/src/module/supervisor.rs:187-467 | Every message and death keeps entries, waiting lists and stop requests consistent. |
| Supervisor.AtMostOneLiveActorExactly | crates/runtime/src/module/supervisor.rs:187-422 | On a run there is at most one live actor per module at every moment, and after whichever death is dealt with next, iff no load of it, nor a reset that finds an active version, arrives while an actor of it is on its way out. |
| Supervisor.HandOverLeavesOneActorExactly | crates/runtime/src/module/supervisor.rs:300-422 | A hand-over, of a load or a reset, leaves at most one live actor of the module iff no live actor of it is off the modules map. |
| Supervisor.DeadPredecessorSpawnsBeside | crates/runtime/src/module/supervisor.rs:187-205 | A hand-over beside a dead predecessor that still waits for its notice ends with two live actors once the notice is dealt with. |
| Supervisor.PatienceIsExact | crates/runtime/src/module/supervisor.rs:187-422 | One hand-over keeps to one live actor, now and whichever death is dealt with next, iff no actor of the module is on its way out. |
| Supervisor.ActivationTakesEffect | crates/runtime/src/module/supervisor.rs:386-592 | After an activation the module runs at the version, or its actor was asked to stop and the module runs at the version as soon as that actor's death is dealt with. |
| Supervisor.ResetsExactly | crates/runtime/src/module/supervisor.rs:300-346 | A step records a database reset iff it is a reset with an active version that finds no live entry, or deals with the death of an actor whose successor waits with a reset; no load or restart records one. |
| Supervisor.WaitingExactly | crates/runtime/src/module/supervisor.rs:386-422 | A load, and a reset with an active version, that find the module alive promise its actor a successor at that version, with a database reset iff it was a reset; only dealing with that death ends the wait. |
| Supervisor.WaitsForItsDeath | crates/runtime/src/module/supervisor.rs:187-205 | A promised successor goes on waiting, unchanged, until its predecessor's death is dealt with. |
| Supervisor.FailureIsBackedOff | crates/runtime/src/module/supervisor.rs:223-285 | A counted failure adds one attempt of that module at the position found, and nothing without retries. |
| Supervisor.RestartsExactly | crates/runtime/src/module/supervisor.rs:436-467 | A restart runs the module at the version with its database kept iff it is backing off and not alive; otherwise it changes nothing. |
| Supervisor.FailedModuleIsRestarted | crates/runtime/src/module/supervisor.rs:223-285 | With retries, a module that failed is running again after its restart. |
| Supervisor.NoRetriesNoBackoff | crates/runtime/src/module/supervisor.rs:233-285 | Without retries nothing ever backs off and no restart ever runs. |
| Supervisor.SecondReloadSpawnsBeside | crates/runtime/src/module/supervisor.rs:404-421 | Counter-run: a second reload finds no entry and spawns beside the stopping actor. |
| Supervisor.WipesOnlyUnloaded | crates/runtime/src/module/supervisor.rs:207-221 | State files are removed on exactly two occasions, a deletion without a live entry and the death of a deleted actor, and never while a module of the name is loaded. |
| Supervisor.WipesUnderALiveActorExactly | crates/runtime/src/module/supervisor.rs:637-658 | In every reachable state a step removes files under a live actor of the name iff it is a deletion without a live entry while an actor of the name is alive, or deals with the death of a deleted actor of an unloaded name while another actor of it is alive. |
| Supervisor.DeleteAfterDeactivateHitsAStoppingActor | crates/runtime/src/module/supervisor.rs:621-658 | Counter-run: a deactivated module that is deleted at once loses its files under the actor that is still stopping. |
| Supervisor.LateWipeHitsAStoppingActor | crates/runtime/src/module/supervisor.rs:207-221 | Counter-run: a name taken and given up again meanwhile loses its files under an actor that is still stopping. |
| Supervisor.DelayDoubles | crates/runtime/src/module/supervisor.rs:233-252 | After n+1 failures in a row at one position the delay is the first one doubled n times, capped at ten minutes: 2^n seconds at a new position, 2^(n+1) for a module that never persisted one; the attempt counter is n+1 higher. |
| Supervisor.ModuleSupervisor.SpawnModule | crates/runtime/src/module/supervisor.rs:469-537 | Resets the database if asked and enters a new actor under the name. |
| Supervisor.ModuleSupervisor.LoadModule | crates/runtime/src/module/supervisor.rs:386-434 | Hand-over of a live predecessor or immediate spawn. |
| Supervisor.ModuleSupervisor.Reset | crates/runtime/src/module/supervisor.rs:300-346 | Fails without an active version; otherwise hands over to a successor with a fresh database. |
| Supervisor.ModuleSupervisor.RestartModule | crates/runtime/src/module/supervisor.rs:436-467 | Restarts only a module that is still backing off and not alive. |
| Supervisor.ModuleSupervisor.Deactivated | crates/runtime/src/module/supervisor.rs:621-636 | Takes the entry off and asks its actor to stop. |
| Supervisor.ModuleSupervisor.Deleted | crates/runtime/src/module/supervisor.rs:637-658 | Defers the removal of files until a live actor has stopped, else removes them at once. |
| Supervisor.ModuleSupervisor.FindModule | crates/runtime/src/module/supervisor.rs:225-230 | Finds the entry of an actor iff there is one. |
| Supervisor.ModuleSupervisor.OnLinkDied | crates/runtime/src/module/supervisor.rs:187-285 | The four branches of a death, on the object's own maps. |
| ModuleStore.IntegrityHolds | crates/runtime/src/module_store/sqlite.rs:71-306 | Over all operation sequences, with row ids used again, every active row points to an existing module of its own type and name, versions are unique and hashes are right. |
| ModuleStore.SaveIsAllOrNothing | crates/runtime/src/module_store/sqlite.rs:71-133 | A save stores module and variables iff the name is valid and the version new; otherwise nothing changes. |
| ModuleStore.WholeDeleteIsExact | crates/runtime/src/module_store/sqlite.rs:285-306 | A whole-module delete leaves no row of any kind for the name and every other row as it was. |
| ModuleStore.SavedIsLoaded | crates/runtime/src/module_store/sqlite.rs:71-163 | What was saved is loaded back unchanged after any operations that do not delete it; the integrity check never fails. |
| ModuleStore.ActivatedStaysActive | crates/runtime/src/module_store/sqlite.rs:165-228 | An activated version stays the active one, with its saved bytes, until the module is activated, deactivated or deleted. |
| ModuleStore.VariablesAreReadBack | crates/runtime/src/module_store/sqlite.rs:412-437 | A variable that was set has its value, and one that was deleted has none, after any operations that do not touch it. |
| ModuleStore.DeactivatedStaysInactive | crates/runtime/src/module_store/sqlite.rs:230-241 | A deactivated module has no active version until it is activated again; nothing else changes. |
| ModuleStore.VersionDeleteIsExact | crates/runtime/src/module_store/sqlite.rs:243-283 | In every reachable state deleting a version removes it and nothing else iff it is stored and not active; otherwise it changes nothing. |
| ModuleStore.SqliteModuleStore.SaveModule | crates/runtime/src/module_store/sqlite.rs:71-133 | The staged transaction commits whole or leaves every table alone, with the error the source returns: the name iff it is empty or has a character outside a-z, 0-9 and the dash, the same or another hash otherwise. |
| ModuleStore.SqliteModuleStore.LoadModule | crates/runtime/src/module_store/sqlite.rs:135-163 | Returns the bytes and hash of a stored version iff the bytes hash to it, an integrity error otherwise, and never that on tables only this store has written. |
| ModuleStore.SqliteModuleStore.ActivateModule | crates/runtime/src/module_store/sqlite.rs:165-198 | Points the active row at the version or reports that it does not exist. |
| ModuleStore.SqliteModuleStore.DeactivateModule | crates/runtime/src/module_store/sqlite.rs:230-241 | Removes the active row and says whether there was one. |
| ModuleStore.SqliteModuleStore.DeleteModuleVersion | crates/runtime/src/module_store/sqlite.rs:243-283 | Refuses exactly the active version of the module, although it looks for the row id alone. |
| ModuleStore.SqliteModuleStore.DeleteModule | crates/runtime/src/module_store/sqlite.rs:285-306 | Removes the three kinds of rows and says whether a module row was removed. |
| ModuleStore.SqliteModuleStore.SetEnvVar | crates/runtime/src/module_store/sqlite.rs:412-424 | Sets one variable of one module. |
| ModuleStore.SqliteModuleStore.DeleteEnvVar | crates/runtime/src/module_store/sqlite.rs:426-437 | Removes one variable and says whether it was there. |
| CryptoKeys.OneKeyPerScope | crates/runtime/src/module_store/sqlite.rs:439-502 | Over every run each scope has at most one key that is not deleted. |
| CryptoKeys.ShreddingIsExact | crates/runtime/src/wit/command.rs:489-516 | After every run an event reads as null iff its scope's key was deleted after its commit obtained it, and as the sealed value otherwise, whatever was rotated. |
| CryptoKeys.AcquireHolds | crates/runtime/src/wit/command.rs:388-403 | An acquisition that finds an active key, or a free new id, leaves the commit holding the scope's key: the one it holds, else the active one, else the new one. |
| CryptoKeys.SealedIsReadBack | crates/runtime/src/wit/command.rs:388-415 | A commit holding a key seals exactly one event under its id; on every continuation it reads as the very value given, unless the scope's key was deleted after the commit obtained it, and then as null. |
| CryptoKeys.ShreddedForever | crates/runtime/src/module_store/sqlite.rs:495-501 | Once an event reads as null it does so on every continuation. |
| CryptoKeys.EventsAreKept | crates/runtime/src/wit/command.rs:421-438 | A longer run keeps every sealed event as it was. |
| CryptoKeys.RevealIsReadBack | crates/runtime/src/module/actor.rs:580-611 | Reading by the set of deleted key ids, as the rest of the model does, is reading through the key table and cipher. |
| CryptoKeys.CryptoKeyTable.GetCryptoKey | crates/runtime/src/module_store/sqlite.rs:439-462 | Returns the scope's undeleted key iff there is one. |
| CryptoKeys.CryptoKeyTable.GetCryptoKeyById | crates/runtime/src/module_store/sqlite.rs:464-478 | Returns the material of a key iff it exists and is not deleted. |
| CryptoKeys.CryptoKeyTable.CreateCryptoKey | crates/runtime/src/module_store/sqlite.rs:480-493 | Returns the scope's key, or a new one, or fails on a taken id; never a second undeleted key. |
| CryptoKeys.CryptoKeyTable.DeleteCryptoKey | crates/runtime/src/module_store/sqlite.rs:495-501 | Clears the scope's key and leaves every other row. |
| Output.LinesAreUnique | crates/runtime/src/output.rs:73-84 | There is one way to write a text as newline-free lines and a newline-free rest, and the splitter finds it. |
| Output.LinesGlueBack | crates/runtime/src/output.rs:73-84 | The lines with their newlines and the rest give back the text. |
| Output.ChunksJoin | crates/runtime/src/output.rs:73-84 | Writing in two pieces commits the same lines and leaves the same rest as writing at once. |
| Output.TrimCr | crates/runtime/src/output.rs:76 | The longest prefix of a line that does not end in a carriage return, cutting nothing else. |
| Output.ChunkingDoesNotMatter | crates/runtime/src/output.rs:73-97 | After any interleaving of writes to both streams and entries pushed as they are, on the same stream or not, the lines cut from a stream and its remainder are those of all its text at once, and the other entries are those pushed. |
| Output.OutputInner.PushEntry | crates/runtime/src/output.rs:48-71 | The kept entries are exactly the last `max_entries` pushed, or all while there are fewer, one when the limit is zero. |
| Output.OutputInner.PushStdout | crates/runtime/src/output.rs:73-84 | The draining loop commits the lines of buffer and text, trimmed, and keeps the rest. |
| Output.OutputInner.PushStderr | crates/runtime/src/output.rs:86-97 | The same for standard error, leaving standard output alone. |
| Output.OutputInner.AllEntries | crates/runtime/src/output.rs:140-158 | The kept entries followed by the unfinished line of each stream that has one. |
| Sha1.PadLenIsLeast | packages/js/src/util/uuid.ts:96-97 | The padded length is the least multiple of 64 that is at least n+9. |
| Sha1.ZeroBitsAreLeast | packages/js/src/util/uuid.ts:96-97 | The number of zero bits is the least one section 5.1.1 of FIPS 180-4 allows. |
| Sha1.PaddingIsStandard | packages/js/src/util/uuid.ts:96-103 | The padded bytes are the padded message of section 5.1.1 of FIPS 180-4. |
| Words.ShiftsRotate | packages/js/src/util/uuid.ts:118 | Two JavaScript shifts and an or are a circular shift of the 32-bit word. |
| Words.OperatorsOnWords | packages/js/src/util/uuid.ts:129-138 | JavaScript's signed bitwise results stand for the bitwise operations on words. |
| Sha1Sync.RoundFunction | packages/js/src/util/uuid.ts:125-140 | The branches of a round compute the functions of section 4.1.1 of FIPS 180-4 and pick the constants of section 4.2.1. |
| Sha1Sync.FiveSummands | packages/js/src/util/uuid.ts:141 | One wrap after four exact sums is four additions modulo two to the 32. |
| Sha1Sync.JsExpand | packages/js/src/util/uuid.ts:117-118 | One expanded word is that of the message schedule. |
| Sha1Sync.PadMessage | packages/js/src/util/uuid.ts:94-103 | Fills the array with message, one bit, zeros and the 64-bit length. |
| Sha1Sync.FillSchedule | packages/js/src/util/uuid.ts:113-119 | The two loops leave the 80 words of the block's message schedule. |
| Sha1Sync.OneRound | packages/js/src/util/uuid.ts:125-147 | One iteration is one round of section 6.1.2 of FIPS 180-4, with every intermediate sum below 2^53. |
| Sha1Sync.RunRounds | packages/js/src/util/uuid.ts:120-147 | The loop computes the eighty rounds. |
| Sha1Sync.HashAll | packages/js/src/util/uuid.ts:105-153 | The outer loop computes the hash of all blocks. |
| Sha1Sync.Sha1Sync | packages/js/src/util/uuid.ts:93-163 | The 20 bytes returned are the SHA-1 digest of the input bits. |
| Uuid.IndexOf | packages/js/src/util/uuid.ts:16-19 | Looking a character up in the table gives its value as a hexadecimal digit, or -1 for every other character. |
| Uuid.UuidToBytes | packages/js/src/util/uuid.ts:9-24 | Accepts exactly the texts with 32 hexadecimal digits, in either case and with dashes anywhere, and returns the bytes they spell. |
| Uuid.BytesRoundTrip | packages/js/src/util/uuid.ts:9-38 | Text made from 16 bytes is accepted and read back as those bytes. |
| Uuid.TextRoundTrip | packages/js/src/util/uuid.ts:9-38 | Bytes read from a text are written back as its canonical lower-case form. |
| Uuid.CaseDoesNotMatter | packages/js/src/util/uuid.ts:10 | A text and its upper-case form have the same digits, so both are accepted or neither, and as the same bytes. |
| Uuid.SameBytesExactly | packages/js/src/util/uuid.ts:9-24 | Two texts are read as the same bytes iff they have the same digits. |
| Uuid.MasksAreStandard | packages/js/src/util/uuid.ts:72-75 | The masks put version and variant bits where section 4.3 of RFC 4122 has them and change no other bit. |
| Uuid.Uuidv5Sync | packages/js/src/util/uuid.ts:66-76 | Fails iff the namespace is no UUID; otherwise the canonical text of the stamped digest of namespace and name. |
| Uuid.EventKeyLayout | packages/js/src/util/idempotency.ts:22-28 | The key is the 16 bytes of the correlation, the 16 of the causation, and the index modulo 2^32 in four big-endian bytes. |
| Uuid.KeysCollideExactly | packages/js/src/util/idempotency.ts:22-28 | Two event-id keys are equal iff correlation and causation are equal and the indexes agree modulo 2^32; below 2^32 the key is injective. |
| Uuid.BuildKey | crates/umari/src/command.rs:157-162 | The three regions written into one 36-byte array. |
| Uuid.EventIdFromCausation | packages/js/src/util/idempotency.ts:17-30 | Fails iff one of the ids is no UUID; otherwise the version 5 id of the key in the fixed namespace, in canonical form. |

## Left out

- The stored order of types and tags inside one query item: items hold sets, as matching only
  asks for membership.
- Decryption of a command's batch is one step; a key deleted between two events of one batch is
  not told apart from one deleted before or after it.
- A lookup of a key that times out in the delivery path reads as shredded; it is not modelled
  separately.
- Handlers that issue their own COMMIT or touch `module_meta`, and state a guest keeps outside
  its database.
- The constructor of a projector's handler, which may set up its schema on every start: the
  initial model is the one after it.
- The database reset on a change of the major version, and the deletion of state files as a
  file-system effect (the supervisor only records it).
- A compile that fails or finishes out of order before a load: a load may arrive at any time with
  any version.
- WipesOnlyUnloaded: does not promise that no actor of the name is alive, because the source removes
  the files of a stopping actor too; `Supervisor.WipesUnderALiveActorExactly` says when.
- Effects' `Dispatcher` holds worker mailboxes as sequences; panics of the dispatcher itself are
  the stop step of the delivery system.
- UTF-8 decoding of output written in pieces that split a character, entry timestamps, and the
  log file beside the ring buffer.
- The masks of the version 5 id are written as remainder and sum, which agree with the bit
  operations on a byte; the asynchronous `uuidv5`, `uuidv4` and the platform's own SHA-1.
- Lower-casing of characters outside ASCII in a UUID text: such a text is rejected either way.
- JSON text of payloads, envelopes, timestamps, and the typed plumbing of fold handles.
- HTTP, authentication, UI rendering, the command line, metrics, QuickJS, the compile cache and
  tracing.
- The listing getters of the module store (`get_all_active_modules`, `get_module_versions`,
  `get_all_module_names`, `get_env_vars`): each returns rows of the tables as they are, ordered by
  SQLite.
- `CommandActor`: the map from command names to loaded versions that activations and
  deactivations keep, the guest's fixed clock and random seeds, the fresh correlation id of a
  command that brings none, and the schema read when a command is loaded.
- A key created for a commit that fails afterwards stays in the key table; commits and key
  creation are separate machines here (`Transactions` and `CryptoKeys`).
- The error values for an event id, an event name and a payload that cannot be used are one
  (`InvalidEvent`).
