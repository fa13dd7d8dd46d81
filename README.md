# Live collection tables, modelled in Dafny

This project models the bookkeeping core of the live-collection extension of
the Azure Mobile Apps .NET client. A *live table* keeps an observable,
in-memory collection of a table's records in step with the local store:

- every upsert and delete that the SQLite store commits is relayed to the live
  table registered under the same name;
- the table reconciles the incoming records with its collection and raises
  collection-changed notifications for what it removed and added;
- server pulls are queued by query identity and drained one after another
  once the initial load has completed;
- a reference counter drives the `ServerPullingChanged` notification.

Around that core sit the query-identity combinators (`QueryPair`), the
parsing of a query response (`QueryResult`) and the small text helpers of
`MobileServiceTable` (etag quoting, the `If-Match` header, the
`__includeDeleted` system parameter, query-string concatenation).

Modules, one per file:

| file | module | what it holds |
|---|---|---|
| common.dfy | `Common` | `Option`, `Result`, sequence associativity |
| records.dfy | `Records` | a record (`IBaseModel<T>`: id, timestamps, deleted flag, version) and the injected `UpdateFrom` |
| collection.dfy | `ObservableCollection` | `AddRange` / `RemoveRange` of the observable collection and the change they report |
| query_pair.dfy | `QueryPairs` | query identities and their `Or` / `And` combinators |
| live_spec.dfy | `LiveSpec` | the value-level specification: the pulling counter, the pending queue, the reconciliation of a batch, local deletes |
| live_table.dfy | `LiveTables` | class `LiveTable` (the mutable table) and class `Registry` (the static `Tables` dictionary) |
| store.dfy | `LiveStore` | the store overrides that relay writes to the registry |
| query_result.dfy | `QueryResults` | a JSON value type, `Parse`, the proxy-envelope `Parse`, `ToJObject` |
| table_helpers.dfy | `TableHelpers` | etag quoting and unquoting, `If-Match`, `AddSystemParameter`, query concatenation |

The mutable parts are modelled as classes. `LiveTable` has the collection, the
pending-query list, the `_pulling` flag, `IsLoading` and the pull counter as
fields. It keeps a log `events` of every notification raised, in order. Each
method is proved against a function of `LiveSpec`, and the properties are
proved about those functions as lemmas.

A batch of incoming `JObject`s is a `seq<Option<Record>>`. `None` stands
for an object that does not convert into a record, which is where the source
throws. The record type's `UpdateFrom` is a function parameter
`updateFrom: (Record, Record) -> Record`. The lemmas that need it to keep the
identity require `KeepsIds`.

## Behaviour of the code worth knowing

The model follows the code, including where it behaves in ways a reader might not expect:

- **Counter notifications.** The setter of `IsServerPulling` raises its
  notification whenever the counter lands on 1 or 0 after the step. Lowering
  2 to 1 therefore raises `ServerPullingChanged(true)` a second time
  (`LiveSpec.LoweringTrace`, `LiveSpec.NestedPullsTrace`).
- **Failed pulls.** When the inner pull throws, the counter is never lowered
  and the table stays "pulling" (`LiveTables.FailedPullScenario`).
- **Pulls are not serialised.** `InnerPullAsync` does not await the pull
  task before it clears `_pulling` and starts the next pending request. The
  model records each pull start as a `PullStarted` event in call order.
  `Task.Run` in `ProcessNextPendingServerRefresh` is taken as an immediate
  call, so a drain is a mutual recursion between the two methods that ends
  because the queue shrinks. "Left out" says what this reading hides.
- **Identity combinators.** The "all" identity of `Or` / `And` is textual.
  `Or(all, b)` is `b` (the default pair has no predicate), and the
  combinators are not associative on identities
  (`QueryPairs.OrIdentityNotAssociative`).
- **Idempotence needs consistent batches.** Re-applying a batch is silent only
  when no identity arrives both deleted and live
  (`LiveSpec.MixedBatchNotIdempotent`). With `AddRange` modelled as appending
  every item, an identity that arrives live twice while absent is inserted
  twice (`LiveSpec.DuplicateInsertCase`).
- **Removal notices.** `ProcessJObjects` passes whatever `RemoveRange`
  reports to `OnCollectionChanged` without checking it. The model logs that
  report as it is. Delete items are only collected for identities the
  collection holds, so under removal by identity the report is never empty
  (`LiveSpec.ReconcileNotifications`).
- **A null request wedges the queue.** `PullAsync(null)` queues the null.
  When the table is idle and loaded, `InnerPullAsync` sets `_pulling`, then
  throws on `queryPair.Id`; `_pulling` stays set and the null stays queued.
  While loading, `ProcessNextPendingServerRefresh` skips the null head, so
  the queue never drains. In both cases every later `PullAsync` throws when
  its duplicate check reads the queued null's `Id`. The model has no null
  request (see "Left out").
- **Delete by query.** It is not relayed to the live table
  (`LiveStore.DeleteByQueryAsync`).
- **Bare arrays at the HTTP level.** The proxy-aware `Parse` of an HTTP
  response reads values only from a one-element array envelope. A bare array
  of any other length gives a result without values
  (`QueryResults.BareArrayAtHttpLevel`).
- **How removal matches records.** `RemoveRange` of the concurrent collection
  is modelled as removing every held record whose identity is that of an
  item. `ProcessJObjects` hands it the freshly deserialised server copies,
  which match the held records only by identity; see "Left out".

## Model

| member | source | states |
|---|---|---|
| ObservableCollection.FirstIndex | src/Microsoft.Azure.Mobile.Client/Table/Sync/LiveCollectionTable.cs:223 | the position of the first record with the id, no earlier record has it, and none exactly when the id is absent |
| ObservableCollection.Without | src/Microsoft.Azure.Mobile.Client/Table/Sync/LiveCollectionTable.cs:241 | a record stays exactly when it was there and its id is not removed; likewise for ids |
| ObservableCollection.WithoutConcat | src/Microsoft.Azure.Mobile.Client/Table/Sync/LiveCollectionTable.cs:241 | the survivors of a concatenation are the survivors of each part, in order |
| ObservableCollection.WithoutSingle | src/Microsoft.Azure.Mobile.Client/Table/Sync/LiveCollectionTable.cs:241 | a single record survives exactly when its id is not removed |
| ObservableCollection.Matching | src/Microsoft.Azure.Mobile.Client/Table/Sync/LiveCollectionTable.cs:241 | a record is matched exactly when it is held and its id is named; empty exactly when no named id is held |
| ObservableCollection.AddRange | src/Microsoft.Azure.Mobile.Client/Table/Sync/LiveCollectionTable.cs:243 | the collection becomes the old one followed by the items; a change is reported exactly when there are items, as an addition at the old length |
| ObservableCollection.RemoveRange | src/Microsoft.Azure.Mobile.Client/Table/Sync/LiveCollectionTable.cs:241 | an id stays exactly when it was held and is not among the items; a removal of the matching held records is reported exactly when some item's id is held; the rest keep their order |
| QueryPairs.Default | src/Microsoft.Azure.Mobile.Client/Table/Query/QueryPair.cs:20-23 | the default pair has identity "all" and no predicate or lambda |
| QueryPairs.Make | src/Microsoft.Azure.Mobile.Client/Table/Query/QueryPair.cs:25-30 | identity and predicate are kept; a lambda exists exactly when a predicate does and is compiled from it |
| QueryPairs.HasPredicate | src/Microsoft.Azure.Mobile.Client/Table/Query/QueryPair.cs:39 | an operand counts as having a predicate exactly when it is present and its predicate is not null |
| QueryPairs.Combine | src/Microsoft.Azure.Mobile.Client/Table/Query/QueryPair.cs:35-77 | the shared shape of `Or` and `And`: both predicates combine with the identity "(a)WORD(b)", one predicate keeps that pair's identity and predicate, none gives "all" (stated case by case by `Or` and `And`) |
| QueryPairs.Or | src/Microsoft.Azure.Mobile.Client/Table/Query/QueryPair.cs:35-55 | all four cases: both predicates give "(a)OR(b)" and their disjunction, one gives that pair, none gives "all"; lambda exactly when predicate |
| QueryPairs.And | src/Microsoft.Azure.Mobile.Client/Table/Query/QueryPair.cs:57-77 | the same four cases with "(a)AND(b)" and the conjunction |
| QueryPairs.ToString | src/Microsoft.Azure.Mobile.Client/Table/Query/QueryPair.cs:81-84 | the text is "[" id "][" rendered predicate "]", with an empty bracket for no predicate |
| QueryPairs.Render | src/Microsoft.Azure.Mobile.Client/Table/Query/QueryPair.cs:83 | the text of a predicate: a user expression's own text, and a combination as "(left OrElse right)" or "(left AndAlso right)"; an abstract rendering, not the printed text of the combined lambda, which starts with its parameter and wraps only the bodies |
| QueryPairs.OrWithAllKeepsOther | src/Microsoft.Azure.Mobile.Client/Table/Query/QueryPair.cs:39-53 | combining with the default pair, on either side, gives the other pair back |
| QueryPairs.NullOperandIsNoPredicate | src/Microsoft.Azure.Mobile.Client/Table/Query/QueryPair.cs:35-77 | with no predicate on either side (missing or null operands) both combinators give the default pair |
| QueryPairs.SelfCombinationIsNewIdentity | src/Microsoft.Azure.Mobile.Client/Table/Query/QueryPair.cs:39-43 | combining a pair with itself yields a new identity, and Or and And yield different ones |
| QueryPairs.OrIdentityNotAssociative | src/Microsoft.Azure.Mobile.Client/Table/Query/QueryPair.cs:42 | regrouping three operands of Or changes the identity |
| LiveSpec.NoticeSteps | src/Microsoft.Azure.Mobile.Client/Table/Sync/LiveCollectionTable.cs:49-57 | one assignment notifies exactly on 0 to 1 (true), on 1 to 0 (false) and on 2 to 1 (true) |
| LiveSpec.CountAfter | src/Microsoft.Azure.Mobile.Client/Table/Sync/LiveCollectionTable.cs:51-54 | assigning true adds one to the counter and false takes one away; the notices that follow are stated by `NoticeSteps` |
| LiveSpec.Notice | src/Microsoft.Azure.Mobile.Client/Table/Sync/LiveCollectionTable.cs:55-56 | a notice carrying whether the counter is positive, raised only when the counter is 1 or 0; `NoticeSteps` and `NoticeIsTrace` state what it gives per step |
| LiveSpec.PullingTrace | src/Microsoft.Azure.Mobile.Client/Table/Sync/LiveCollectionTable.cs:49-57 | the payloads of a run of setter assignments, one per step landing on 1 or 0; the trace lemmas state its values |
| LiveSpec.AsNotices | src/Microsoft.Azure.Mobile.Client/Table/Sync/LiveCollectionTable.cs:56 | each payload of a trace as one `ServerPullingChanged` notice, in order |
| LiveSpec.NoticeIsTrace | src/Microsoft.Azure.Mobile.Client/Table/Sync/LiveCollectionTable.cs:49-57 | the setter's notice for one step is the one-step counter trace, so a run of setter calls logs its trace |
| LiveSpec.RaisingIsSilent | src/Microsoft.Azure.Mobile.Client/Table/Sync/LiveCollectionTable.cs:49-57 | raising an already positive counter any number of times is silent |
| LiveSpec.LoweringTrace | src/Microsoft.Azure.Mobile.Client/Table/Sync/LiveCollectionTable.cs:49-57 | lowering a counter of n to zero notifies [false] when n is 1 and [true, false] otherwise |
| LiveSpec.RaisesThen | src/Microsoft.Azure.Mobile.Client/Table/Sync/LiveCollectionTable.cs:49-57 | the trace of n raises followed by more assignments splits at the counter plus n |
| LiveSpec.RaisingFromIdle | src/Microsoft.Azure.Mobile.Client/Table/Sync/LiveCollectionTable.cs:49-57 | n raises of an idle counter notify true once |
| LiveSpec.NestedPullsTrace | src/Microsoft.Azure.Mobile.Client/Table/Sync/LiveCollectionTable.cs:49-57 | n nested pulls that all finish notify [true, false] for one pull and [true, true, false] for more |
| LiveSpec.StartsAt | src/Microsoft.Azure.Mobile.Client/Table/Sync/LiveCollectionTable.cs:195-199 | the i-th pull started by a drain is the i-th pending request's, with its identity and predicate |
| LiveSpec.Starts | src/Microsoft.Azure.Mobile.Client/Table/Sync/LiveCollectionTable.cs:195-204 | one pull start per pending request, as long as the queue; `StartsAt` gives each element |
| LiveSpec.HasId | src/Microsoft.Azure.Mobile.Client/Table/Sync/LiveCollectionTable.cs:176 | a request with the identity is already queued; `PullAsync` ignores the new request exactly then |
| LiveSpec.RemoveFirst | src/Microsoft.Azure.Mobile.Client/Table/Sync/LiveCollectionTable.cs:202 | List.Remove: one fewer when present, unchanged when absent, no new members, the tail when it is the head |
| LiveSpec.RemoveFirstKeepsUnique | src/Microsoft.Azure.Mobile.Client/Table/Sync/LiveCollectionTable.cs:176-202 | removing keeps the pending identities distinct and leaves no request equal to the removed one |
| LiveSpec.RemoveAppended | src/Microsoft.Azure.Mobile.Client/Table/Sync/LiveCollectionTable.cs:176-202 | a request appended to a queue without its identity and then removed gives the queue back |
| LiveSpec.SelectMembers | src/Microsoft.Azure.Mobile.Client/Table/Sync/LiveCollectionTable.cs:219-235 | a record is collected for a disposition exactly when some item of the batch is that record with that disposition |
| LiveSpec.ScanItem | src/Microsoft.Azure.Mobile.Client/Table/Sync/LiveCollectionTable.cs:221-234 | one iteration: an unconvertible object throws, a present id is queued for deletion when deleted or updated in place, an absent id is queued for insertion when live; `ScanItemPartition` states its effect |
| LiveSpec.ScanBatch | src/Microsoft.Azure.Mobile.Client/Table/Sync/LiveCollectionTable.cs:219-235 | the loop over the batch, from the first object; `ScanPartition` ties it to `Select` |
| LiveSpec.Reconcile | src/Microsoft.Azure.Mobile.Client/Table/Sync/LiveCollectionTable.cs:213-249 | the scan, then one removal and one addition, each notified only when its list is non-empty; `ReconcileMembership` and `ReconcileNotifications` state the result |
| LiveSpec.Classify | src/Microsoft.Azure.Mobile.Client/Table/Sync/LiveCollectionTable.cs:223-231 | the source's present/absent by deleted/live table: removal, update, dropped, insertion |
| LiveSpec.Select | src/Microsoft.Azure.Mobile.Client/Table/Sync/LiveCollectionTable.cs:219-231 | the converted records of a given disposition in batch order, an independent definition of the delete and insert lists (`SelectMembers`) |
| LiveSpec.SelectNone | src/Microsoft.Azure.Mobile.Client/Table/Sync/LiveCollectionTable.cs:219-235 | nothing is collected for a disposition no item has |
| LiveSpec.UpdateKeepsIds | src/Microsoft.Azure.Mobile.Client/Table/Sync/LiveCollectionTable.cs:228 | an in-place update that keeps identities keeps the collection's ids |
| LiveSpec.ScanPartition | src/Microsoft.Azure.Mobile.Client/Table/Sync/LiveCollectionTable.cs:219-235 | without a failure the loop keeps the ids and collects as delete items the present deleted records and as insert items the absent live records, in batch order; it fails exactly when some item does not convert |
| LiveSpec.ScanItemPartition | src/Microsoft.Azure.Mobile.Client/Table/Sync/LiveCollectionTable.cs:221-234 | one iteration keeps the ids and extends the lists by that item's disposition |
| LiveSpec.RemovalIds | src/Microsoft.Azure.Mobile.Client/Table/Sync/LiveCollectionTable.cs:223-226 | the delete items' ids are exactly the present ids that arrive deleted |
| LiveSpec.InsertionIds | src/Microsoft.Azure.Mobile.Client/Table/Sync/LiveCollectionTable.cs:223-231 | the insert items' ids are exactly the absent ids that arrive live |
| LiveSpec.ReconcileMembership | src/Microsoft.Azure.Mobile.Client/Table/Sync/LiveCollectionTable.cs:213-249 | after a batch that converts an id is held exactly when it was held and no deleted copy came, or it was absent and a live copy came |
| LiveSpec.ReconcileNotifications | src/Microsoft.Azure.Mobile.Client/Table/Sync/LiveCollectionTable.cs:240-243 | nothing is raised when a conversion fails; otherwise a removal notice exactly when some present record arrives deleted, carrying exactly the held records with those ids, and last an addition notice exactly when some absent record arrives live, carrying the insert items at the index after the remaining records |
| LiveSpec.ReconcileIdempotent | src/Microsoft.Azure.Mobile.Client/Table/Sync/LiveCollectionTable.cs:213-249 | re-applying a consistent batch changes no ids and raises nothing |
| LiveSpec.FailureAfterUpdates | src/Microsoft.Azure.Mobile.Client/Table/Sync/LiveCollectionTable.cs:219-235 | an unconvertible item aborts the batch with nothing removed, inserted or raised, but the earlier in-place updates kept |
| LiveSpec.NotFailedWhileConverting | src/Microsoft.Azure.Mobile.Client/Table/Sync/LiveCollectionTable.cs:219-235 | the loop does not fail while every item converts |
| LiveSpec.FailureSticks | src/Microsoft.Azure.Mobile.Client/Table/Sync/LiveCollectionTable.cs:233-234 | after the throw the later items change nothing |
| LiveSpec.MatchesFor | src/Microsoft.Azure.Mobile.Client/Table/Sync/LiveCollectionTable.cs:253-256 | the collected records are held records, and there are none exactly when no id is held |
| LiveSpec.MatchesForIds | src/Microsoft.Azure.Mobile.Client/Table/Sync/LiveCollectionTable.cs:253-256 | the collected ids are exactly the named ids that are held |
| LiveSpec.RemoveAtIds | src/Microsoft.Azure.Mobile.Client/Table/Sync/LiveCollectionTable.cs:251-268 | the collected matches removed with one notice when any matched; `RemoveAtIdsMembership` and `RemoveAtIdsNotice` state the result |
| LiveSpec.RemoveAtIdsMembership | src/Microsoft.Azure.Mobile.Client/Table/Sync/LiveCollectionTable.cs:251-268 | a local delete removes exactly the named ids and ignores absent ones |
| LiveSpec.RemoveAtIdsNotice | src/Microsoft.Azure.Mobile.Client/Table/Sync/LiveCollectionTable.cs:258-262 | one removal notice carrying the matching records is raised exactly when some named id is held |
| LiveSpec.RemoveThenInsertCase | src/Microsoft.Azure.Mobile.Client/Table/Sync/LiveCollectionTable.cs:240-243 | collection 1,2 with batch "2 deleted, 3 live" becomes 1,3, raising the removal of 2 and then the addition of 3 at index 1 |
| LiveSpec.RemoveThenInsertScan | src/Microsoft.Azure.Mobile.Client/Table/Sync/LiveCollectionTable.cs:219-235 | the loop on that batch collects 2 to delete and 3 to insert |
| LiveSpec.RemoveThenInsertRemoval | src/Microsoft.Azure.Mobile.Client/Table/Sync/LiveCollectionTable.cs:241 | removing 2 from 1,2 leaves 1 and reports the held record 2 |
| LiveSpec.DuplicateInsertCase | src/Microsoft.Azure.Mobile.Client/Table/Sync/LiveCollectionTable.cs:230-231 | an absent id arriving live twice in one batch is inserted twice |
| LiveSpec.MixedBatchNotIdempotent | src/Microsoft.Azure.Mobile.Client/Table/Sync/LiveCollectionTable.cs:223-231 | a batch carrying one id both deleted and live raises again when re-applied |
| LiveSpec.RemoveAbsentCase | src/Microsoft.Azure.Mobile.Client/Table/Sync/LiveCollectionTable.cs:254-258 | deleting an id that is not held changes nothing and raises nothing |
| LiveTables.LiveTable.IsServerPulling | src/Microsoft.Azure.Mobile.Client/Table/Sync/LiveCollectionTable.cs:46-48 | pulling exactly when the counter is positive |
| LiveTables.LiveTable.constructor | src/Microsoft.Azure.Mobile.Client/Table/Sync/LiveCollectionTable.cs:108-146 | a new table is loading, not pulling, with an empty collection and queue and a zero counter |
| LiveTables.LiveTable.SetServerPulling | src/Microsoft.Azure.Mobile.Client/Table/Sync/LiveCollectionTable.cs:49-57 | the counter steps up or down and the step's notice is appended to the log |
| LiveTables.LiveTable.PullBracket | src/Microsoft.Azure.Mobile.Client/Table/Sync/LiveCollectionTable.cs:328-335 | the counter is raised and, when the pull succeeds, lowered again, with the matching notices; a failure leaves it raised |
| LiveTables.LiveTable.OnLoadingCompleted | src/Microsoft.Azure.Mobile.Client/Table/Sync/LiveCollectionTable.cs:153-157 | loading ends, LoadingCompleted is raised, then the whole queue drains unless a pull is running |
| LiveTables.LiveTable.CompleteInitialLoad | src/Microsoft.Azure.Mobile.Client/Table/Sync/LiveCollectionTable.cs:131-142 | a failed read changes nothing; otherwise the read records are appended, announced when there are any, and loading completes |
| LiveTables.LiveTable.ProcessNextPendingServerRefresh | src/Microsoft.Azure.Mobile.Client/Table/Sync/LiveCollectionTable.cs:167-171 | while idle and loaded the queue drains completely, starting each pending pull in order; otherwise nothing changes |
| LiveTables.LiveTable.InnerPullAsync | src/Microsoft.Azure.Mobile.Client/Table/Sync/LiveCollectionTable.cs:184-207 | while busy or loading nothing changes and no pull of its own is started; otherwise this pull starts, it leaves the queue, and the rest drains in order |
| LiveTables.LiveTable.PullAsync | src/Microsoft.Azure.Mobile.Client/Table/Sync/LiveCollectionTable.cs:174-182 | a request whose identity is queued is ignored; otherwise it is queued and, when idle and loaded, it and the queue are drained; its own pull is started exactly when it was new and the table idle and loaded |
| LiveTables.LiveTable.ProcessJObjects | src/Microsoft.Azure.Mobile.Client/Table/Sync/LiveCollectionTable.cs:213-249 | the new collection, the raised notices and the success flag are those of the batch's reconciliation |
| LiveTables.LiveTable.RemoveItemsAtIds | src/Microsoft.Azure.Mobile.Client/Table/Sync/LiveCollectionTable.cs:251-268 | the new collection and the raised notice are those of the local delete |
| LiveTables.Registry.constructor | src/Microsoft.Azure.Mobile.Client/Table/Sync/LiveCollectionTable.cs:20-31 | the registry starts empty |
| LiveTables.Registry.Reset | src/Microsoft.Azure.Mobile.Client/Table/Sync/LiveCollectionTable.cs:33-36 | resetting forgets every registered table |
| LiveTables.Registry.Add | src/Microsoft.Azure.Mobile.Client/Table/Sync/LiveCollectionTable.cs:129 | registering succeeds exactly when the name is new and then maps the name to the table; otherwise nothing changes |
| LiveTables.Registry.Lookup | src/Microsoft.Azure.Mobile.Client.SQLiteStore/LiveCollectionStore.cs:28 | a table is found exactly when its name is registered, and it is the registered one |
| LiveTables.NewLiveTable | src/Microsoft.Azure.Mobile.Client/Table/Sync/LiveCollectionTable.cs:127-130 | a taken name gives no table and changes nothing; a new name gives a fresh, empty, loading table registered under it |
| LiveTables.PullWhileLoadingScenario | src/Microsoft.Azure.Mobile.Client/Table/Sync/LiveCollectionTable.cs:174-207 | a pull requested while loading waits, neither caller gets a pull of its own, and the pull runs right after the initial load has been announced |
| LiveTables.NestedPullsScenario | src/Microsoft.Azure.Mobile.Client/Table/Sync/LiveCollectionTable.cs:49-57 | two nested pulls made of setter calls log the counter trace true, true, false and end idle |
| LiveTables.FailedPullScenario | src/Microsoft.Azure.Mobile.Client/Table/Sync/LiveCollectionTable.cs:328-335 | a pull that fails and then one that succeeds leave the table pulling after two true notices: the second pull's 2 to 1 step notifies true again |
| LiveStore.UpsertAsync | src/Microsoft.Azure.Mobile.Client.SQLiteStore/LiveCollectionStore.cs:24-30 | a failed base write relays nothing; otherwise the registered table, if any, reconciles the items, and a conversion failure surfaces as a relay failure; the table's queue, flags and counter are untouched |
| LiveStore.DeleteAsync | src/Microsoft.Azure.Mobile.Client.SQLiteStore/LiveCollectionStore.cs:32-38 | a failed base write relays nothing; otherwise the registered table, if any, removes the ids; the table's queue, flags and counter are untouched |
| LiveStore.DeleteByQueryAsync | src/Microsoft.Azure.Mobile.Client.SQLiteStore/LiveCollectionStore.cs:40-43 | a delete by query only reports the base write's outcome |
| QueryResults.Property | src/Microsoft.Azure.Mobile.Client/Table/Query/QueryResult.cs:129 | a property is found exactly when the key is present, and it is that value |
| QueryResults.InlineCount | src/Microsoft.Azure.Mobile.Client/Table/Query/QueryResult.cs:130 | a count that is absent or null is no count; an integer within the range of a long is that count; a boolean is 1 or 0; anything else, a larger integer included, fails |
| QueryResults.Parse | src/Microsoft.Azure.Mobile.Client/Table/Query/QueryResult.cs:117-148 | an array is the values with count -1; an object gives its "results" array and inline count, fails without one when validating, or wraps itself; anything else has no values; response and link are kept |
| QueryResults.ProxyNextLink | src/Microsoft.Azure.Mobile.Client/Table/Query/QueryResult.cs:88-101 | a text link is kept, a missing or null link is none, and any other value fails |
| QueryResults.HttpParse | src/Microsoft.Azure.Mobile.Client/Table/Query/QueryResult.cs:74-115 | only a one-element array envelope yields a response (its "value") and a link; any other content parses as no response |
| QueryResults.ToJObject | src/Microsoft.Azure.Mobile.Client/Table/Query/QueryResult.cs:150-164 | the object holds exactly "count", "results" and, when there is a link, "nextLink" |
| QueryResults.ToJObjectRoundTrip | src/Microsoft.Azure.Mobile.Client/Table/Query/QueryResult.cs:117-164 | parsing the object of a result with values gives back its count and values |
| QueryResults.ToJObjectWithoutValues | src/Microsoft.Azure.Mobile.Client/Table/Query/QueryResult.cs:117-164 | without values the object parses to itself as the value, or fails when validating |
| QueryResults.ProxyEnvelopeCase | src/Microsoft.Azure.Mobile.Client/Table/Query/QueryResult.cs:84-101 | a one-element envelope with "value" and "@odata.nextLink" parses to those values and that link |
| QueryResults.BareArrayAtHttpLevel | src/Microsoft.Azure.Mobile.Client/Table/Query/QueryResult.cs:84-114 | a bare array of any length other than one yields no values at the HTTP level, but values when parsed directly |
| QueryResults.CountBeyondLongFails | src/Microsoft.Azure.Mobile.Client/Table/Query/QueryResult.cs:130 | a count beyond the range of a long makes the parse throw |
| TableHelpers.Piece | src/Microsoft.Azure.Mobile.Client/Table/MobileServiceTable.cs:699-701 | each character is kept, or a quote becomes backslash-quote |
| TableHelpers.Escape | src/Microsoft.Azure.Mobile.Client/Table/MobileServiceTable.cs:697-703 | every quote not already after a backslash gets one; `EscapedQuotesAreEscaped` and `UnescapeEscapeUpTo` state what it gives |
| TableHelpers.Etag | src/Microsoft.Azure.Mobile.Client/Table/MobileServiceTable.cs:694-707 | the escaped value inside double quotes; `EtagShape` and `EtagRoundTrip` state its shape and inverse |
| TableHelpers.EscapeUpTo | src/Microsoft.Azure.Mobile.Client/Table/MobileServiceTable.cs:697-703 | the escaped prefix grows by one per bare quote and ends in the prefix's last character |
| TableHelpers.EscapeQuotes | src/Microsoft.Azure.Mobile.Client/Table/MobileServiceTable.cs:697-703 | the in-place insertion loop computes the escaped value |
| TableHelpers.GetEtagFromValue | src/Microsoft.Azure.Mobile.Client/Table/MobileServiceTable.cs:694-707 | the etag is the escaped value in quotes, one character longer per bare quote |
| TableHelpers.EtagShape | src/Microsoft.Azure.Mobile.Client/Table/MobileServiceTable.cs:694-707 | an etag starts and ends with a quote and holds the escaped value |
| TableHelpers.EscapedQuotesAreEscaped | src/Microsoft.Azure.Mobile.Client/Table/MobileServiceTable.cs:697-703 | every quote of the escaped value follows a backslash |
| TableHelpers.Unescape | src/Microsoft.Azure.Mobile.Client/Table/MobileServiceTable.cs:726 | unescaping never lengthens the text |
| TableHelpers.GetValueFromEtag | src/Microsoft.Azure.Mobile.Client/Table/MobileServiceTable.cs:718-727 | a quoted etag loses its quotes and is unescaped; anything else is only unescaped |
| TableHelpers.UnescapeConcat | src/Microsoft.Azure.Mobile.Client/Table/MobileServiceTable.cs:726 | unescaping distributes over concatenation at a cut that splits no backslash-quote |
| TableHelpers.UnescapeEscapeUpTo | src/Microsoft.Azure.Mobile.Client/Table/MobileServiceTable.cs:697-726 | for a value without backslash-quote, unescaping the escaped prefix gives the prefix |
| TableHelpers.EtagRoundTrip | src/Microsoft.Azure.Mobile.Client/Table/MobileServiceTable.cs:694-727 | a value without backslash-quote survives etag quoting and unquoting |
| TableHelpers.EtagLosesEscapedQuote | src/Microsoft.Azure.Mobile.Client/Table/MobileServiceTable.cs:699-726 | a value holding backslash-quote does not survive: its backslash is lost |
| TableHelpers.AddIfMatchHeader | src/Microsoft.Azure.Mobile.Client/Table/MobileServiceTable.cs:671-683 | no header for a null or empty version; otherwise exactly If-Match with the version's etag |
| TableHelpers.IfMatchRecoversVersion | src/Microsoft.Azure.Mobile.Client/Table/MobileServiceTable.cs:671-727 | the version is recovered from the If-Match header |
| TableHelpers.FoldChar | src/Microsoft.Azure.Mobile.Client/Table/MobileServiceTable.cs:510 | ordinal ignore-case folds ASCII upper-case letters and keeps everything else |
| TableHelpers.Fold | src/Microsoft.Azure.Mobile.Client/Table/MobileServiceTable.cs:510 | the text folded character by character, the key an ordinal case-insensitive dictionary compares |
| TableHelpers.CaseCollision | src/Microsoft.Azure.Mobile.Client/Table/MobileServiceTable.cs:510 | two distinct keys that fold alike, which makes the case-insensitive copy throw (`AddSystemParameter`) |
| TableHelpers.HasKeyIgnoringCase | src/Microsoft.Azure.Mobile.Client/Table/MobileServiceTable.cs:514 | `ContainsKey` on the case-insensitive copy: some key folds like the name |
| TableHelpers.AddSystemParameter | src/Microsoft.Azure.Mobile.Client/Table/MobileServiceTable.cs:505-524 | with no parameters, a new map holding just the value, or nothing for a null value; copying fails exactly on keys equal ignoring case; user entries are kept and a user parameter of the same name wins |
| TableHelpers.IncludeDeleted | src/Microsoft.Azure.Mobile.Client/Table/MobileServiceTable.cs:495-496 | the system parameter __includeDeleted=true is added unless present |
| TableHelpers.IncludeDeletedIdempotent | src/Microsoft.Azure.Mobile.Client/Table/MobileServiceTable.cs:495-524 | adding __includeDeleted leaves parameters without case collision that hold it |
| TableHelpers.IncludeDeletedTwice | src/Microsoft.Azure.Mobile.Client/Table/MobileServiceTable.cs:495-524 | once the first call succeeds, a second call on its result gives the same result |
| TableHelpers.ConcatQuery | src/Microsoft.Azure.Mobile.Client/Table/MobileServiceTable.cs:143-156 | empty parameters keep the query, an empty query is replaced by them, and otherwise they are joined with "&" |

## Left out

- LiveTables.LiveTable.SetServerPulling: `_serverPullCount` is a 32-bit
  `int` and the model's counter is unbounded. Wrap-around needs 2^31 nested
  pulls, so it is not modelled.
- QueryResults.InlineCount: Json.NET also converts a numeric string or float
  count to `long`. The model treats every string as not convertible and has no
  floats.
- TableHelpers.FoldChar: `OrdinalIgnoreCase` folds non-ASCII letters too. The
  model folds ASCII letters only.
- QueryResults.ProxyNextLink: `new Uri(nv)` rejects malformed links and
  `Uri.ToString` may canonicalise them. Links are kept as text.
- QueryResults.HttpParse: `ParseToJToken` and the HTTP response are not
  modelled. The parsed token is the input, and an empty body is `None`.
- Expression trees: predicates are compiled, combined with `Or` / `And` and
  rendered by external code. They are modelled as a syntax tree with an
  abstract rendering and an opaque compiled form.
- `Task`, `async`, `Task.Delay` and `WaitForLoading`: there is no
  concurrency or time. A remote pull is logged as `PullStarted` when it is
  started. Its counter bracket (`PullBracket`) and the initial read
  (`CompleteInitialLoad`) are separate steps the environment takes later, in
  any order the caller chooses. The task `PullAsync` returns is reduced to
  the flag `started`. A pull's failure reaches only a caller whose call
  started it, and the model does not propagate that failure to the caller.
- LiveTables.LiveTable.PullAsync: null requests and null identities are
  outside the model, because `QueryPair` is a value with a textual `id`. In
  the source, a null request queued by `PullAsync` wedges the table for
  good. `InnerPullAsync` throws on its `Id` with `_pulling` left set, or
  `ProcessNextPendingServerRefresh` skips it while loading. Afterwards every
  `PullAsync` throws in its duplicate check. A null `Id` concatenated by
  `Or` / `And` as "" is not modelled either.
- LiveTables.LiveTable.ProcessNextPendingServerRefresh and
  LiveTables.LiveTable.InnerPullAsync: the model runs the `Task.Run` of the
  next pending request at once, which is what makes "drains completely, in
  order" and `q in pending` hold. In the source the run is deferred. A
  `PullAsync` made before it runs can overtake the queued requests. A stale
  scheduled run can also start a request a second time, because
  `InnerPullAsync` checks only `_pulling || IsLoading` and `List.Remove`
  ignores a missing item. Neither the overtaking nor the double start is
  modelled.
- `ObservableConcurrentCollection` is not part of this model. Two things
  about it are assumptions. First, `RemoveRange` removes by `Id`. Second,
  `AddRange` appends every item, duplicates included.
  `IBaseModel<T>` defines no `Equals`. If `RemoveRange` compared references,
  the server copies that `ProcessJObjects` passes would match nothing, and a
  server delete would leave the collection unchanged. The model does not
  cover that reading.
- Xamarin-only code is not modelled. This covers the connectivity checks and
  the `MainThread` dispatch; the non-Xamarin branches are modelled.
- The delegating wrappers of `LiveCollectionTable<T>` (the query, insert,
  update and pull pass-throughs to the inner sync table) carry no bookkeeping
  of their own. The only exception is the pull bracket, `PullBracket`.
- The base SQLite writes of `LiveCollectionStore` are a boolean outcome
  parameter.
- `UpdateFrom` mutates the held object in place. The model replaces the
  record at that position with `updateFrom(old, incoming)` and does not model
  aliasing of record objects.
- JSON objects are maps: property order and duplicate properties are not
  modelled, and neither is the serializer's `NullValueHandling.Ignore`.
- `ToJObject` writes `Values` as given. A null `Values` becomes a JSON null
  in the model.
