# fastapi-viewsets: a verified model

Dafny models of the parts of fastapi-viewsets whose correctness spans several functions, processes or requests, with
proofs about them. `dafny verify dfyconfig.toml` checks everything.

## What is modelled

**Cursor pagination and its SQL form** (`Ordering`, `Cursor`, `ListQuery`, `CursorPaging`, `Sql`, `SqlPaging`). One
order over nullable values with mixed directions and a NULL placement; the "past this row" predicate in both directions;
pages, their anchors and the walk along `next` over a collection that changes between the requests; the translation of
the predicate into row-value or segment conditions, evaluated in SQL's three-valued logic.

**Event following** (`EventLog`, `EventStore`, `RedisEventStore`, `EventPoll`, `EventClient`, `EventDelivery`,
`EventProtocol`, `EventRepair`, `EventArrival`). One topic under one scope key: the chain of `(rev, prev)` events, the bounded and
expiring log in memory and in Redis, the poll answer with its filtered and re-chained events, and the client's rev rules.
`EventProtocol` puts them into one state machine: appends, log trims, publishes, pushes that arrive late, twice, out of
order or never, subscribe calls, disconnects, refreshes, polls whose two server reads and whose arrival are separate
steps, and failures. The delivery filters are one predicate on events.

**Idempotency** (`IdempotencyMemory`, `IdempotencyRuns`, `IdempotencyOnce`, `IdempotencyStored`, `IdempotencyRedis`,
`IdempotencyProcesses`, `IdempotencyCauses`, `IdempotencyStale`, `IdempotencyOnceEverywhere`,
`IdempotencyStoredEverywhere`, `IdempotencyWait`). The in-process store and its interleavings; the Redis
keys with the commands and the three scripts; many processes interleaving at every Redis command; the wait of a repeat on
the key's channel. Time is a number of ticks or milliseconds that a step advances.

**Smaller parts**: the two subscription indexes (`Delivery`), patching rows (`Changes`), the retry loop (`Call`), the
polling ladder (`PollLadder`), the `Idempotency-Key` header (`KeyHeader`) and the `sort` parameter (`SortParam`).
`Basics` holds optional values and a few sequence operations.

Where the source changes state step by step the model is a class or a loop, proved equal to a function of the old state;
the theorems are about those functions and the machines built of them.

## Where the code falls short of its documentation

- *Row values and NULL anchors.* `fastapi_viewsets/backends/django_orm.py:411-431` compiles a cursor over columns that
  allow no NULL into a row-value comparison. A cursor whose position carries a NULL for such a column (a client can send
  one) then drops rows that lie past it. `Sql.RowValueAgreesExactly` says exactly which cursors: the first NULL of the
  position stands in a column whose NULLs come first as the page is read. A position taken from a row never does.
- *A late answer to a poll without a cursor.* The client sends a first poll, a subscribe answer then gives the topic its
  rev, and the poll's answer raises the held rev over events no handler is told about
  (`vue/events/client.ts:687-699`). `EventProtocol.SkippedExactly` says that such an answer, with a visible event between
  the two revs, is the only first cause of a skipped event; `EventProtocol.LateNullAnswerLosesAnEvent` is a run.
- *A repeat attached to another request.* With Redis a process looks up its own run of a key
  (`fastapi_viewsets/middleware/idempotency.py:408-421`) without comparing it with the record the repeat read
  (`fastapi_viewsets/middleware/idempotency.py:490`), so a repeat can be answered with the outcome of a request with
  another fingerprint, against `docs/guide/idempotency.md:57-59`. `IdempotencyCauses.ReplaysOwnExactly` says, over every
  run, exactly which answers break the rule. `IdempotencyCauses.AttachesElsewhereBecause` proves that there are three
  ways to come to such an attachment: the record of the run found expired before that run ended; another request
  claimed the key between that run's finish script and the return of its call; or the record the repeat read is no
  longer the key's unexpired record. `IdempotencyStale` has a run of each with the other two absent, and
  `IdempotencyCauses.OrderlyReplaysAreOwn` proves the documented rule for every run with none of them. Comparing the
  owner before attaching is enough whatever expires or is stale: `IdempotencyCauses.ComparedReplaysAreOwn`.

## Model

| member | source | states |
|---|---|---|
| Ordering.RowsTransitive | fastapi_viewsets/cursor.py:222-239 | the multi-key comparison is transitive on rows whose columns hold one kind of value, NULLs, directions and placement included |
| Ordering.RowsZero | fastapi_viewsets/mixins.py:555-565 | two rows tie exactly when they have the same key tuple |
| Ordering.RowsFlip | fastapi_viewsets/mixins.py:403-425 | reversing every direction reverses the order, NULLs included |
| Ordering.MixedKindsAreNoOrder | fastapi_viewsets/cursor.py:222-239 | values that do not compare are equal, which is no order: why columns of one kind are assumed |
| Cursor.DecodeCursor | fastapi_viewsets/cursor.py:94-146 | each error exactly when its cause holds, in the order of the checks; otherwise the coerced position of exactly the keys |
| Cursor.CursorRoundTrip | fastapi_viewsets/cursor.py:83-151 | decoding the anchor of a row for the same query gives its key tuple, direction and inclusiveness back |
| Cursor.AnchorDecodes | fastapi_viewsets/cursor.py:83-151 | an anchor of a row whose values survive their coercion is never refused |
| Cursor.MatchesIsPast | fastapi_viewsets/cursor.py:188-199 | the predicate selects exactly the rows after the anchor in the sort order (before it backwards), and its own tuple when inclusive |
| ListStages.SortIsSorted | fastapi_viewsets/mixins.py:549-567 | the in-memory sort's result is sorted |
| ListStages.SortIsStable | fastapi_viewsets/mixins.py:549-567 | rows with one key tuple keep their order and none is lost or repeated |
| ListStages.StrictOrderIsUnique | fastapi_viewsets/backends/django_orm.py:181-202 | where no two rows tie, any answer in the order is the in-memory one |
| ListStages.TakePageOfList | fastapi_viewsets/list_query.py:98-105 | the slice is the page, and `has_more` says whether rows follow it |
| ListStages.TakePageLazily | fastapi_viewsets/list_query.py:107-120 | the same page and `has_more` from a lazy source, consuming at most offset + limit + 1 records |
| CursorPaging.ListQuery.PrepareCursor | fastapi_viewsets/mixins.py:403-429 | refused exactly when the cursor does not decode, with that error and nothing changed; otherwise the ordering becomes the cursor keys in the direction read and the predicate of the decoded anchor joins the filters |
| CursorPaging.GetList | fastapi_viewsets/mixins.py:455-479 | a cursor request answers the page of the rows its decoded anchor selects, in list order, or exactly the decoding error; the anchor of a row is never refused; CursorPaging.TokensReadOn and CursorPaging.PageTells say what the page's tokens and flags mean |
| CursorPaging.SortFlipped | fastapi_viewsets/mixins.py:419-425 | the reversed ordering sorts the collection into its exact reverse |
| CursorPaging.PageIsWindowEdge | fastapi_viewsets/mixins.py:455-479 | a forward page is the first `limit` rows of what its cursor selects and a backward page the last `limit`, both in list order |
| CursorPaging.NextAnchorIsToken | fastapi_viewsets/mixins.py:438-479 | the page's `next` token is the anchor the walk continues from |
| CursorPaging.NextTokenContinues | fastapi_viewsets/mixins.py:403-479 | the walk is closed over its tokens: a page's `next` is never refused, and the request that carries it reads on past the page's last row |
| CursorPaging.WalkIncreases | fastapi_viewsets/mixins.py:403-479 | a walk along `next` emits strictly increasing key tuples whatever is inserted or deleted between its requests |
| CursorPaging.WalkIsComplete | fastapi_viewsets/mixins.py:403-479 | a row there at every request has been emitted by the time `next` is null |
| CursorPaging.WalkEmitsOnce | fastapi_viewsets/mixins.py:403-479 | such a row is at exactly one place of the walk |
| CursorPaging.WalkOfFixedCollection | fastapi_viewsets/mixins.py:403-479 | on a fixed collection the pages concatenate to the sorted rows and the walk ends |
| CursorPaging.PreviousPage | fastapi_viewsets/mixins.py:438-479 | a request that carries a row's exclusive backward anchor reads exactly the `limit` rows immediately before that row, fewer only at the start |
| CursorPaging.PreviousOfFixedCollection | fastapi_viewsets/mixins.py:438-479 | on a fixed collection, the slice of the sorted rows that ends at that row |
| CursorPaging.TokensReadOn | fastapi_viewsets/mixins.py:438-479 | every token of every page, first or later, forward or backward: `previous` reads the last rows below the page's first row, `next` the first rows above its last, `first` and `last` the same with that row again, in whatever the collection is by then; none is ever refused |
| CursorPaging.PageTells | fastapi_viewsets/mixins.py:455-479 | a page's rows are its window's edge, `next` and `previous` are there exactly when it says more lie on that side, and in the direction read it says so exactly when the window holds more rows than the page |
| CursorPaging.NextThenPrevious | fastapi_viewsets/mixins.py:403-479 | on a fixed collection the `previous` of the page a `next` leads to reads the first page again |
| Sql.SegmentCondition | fastapi_viewsets/backends/django_orm.py:446-478 | under three-valued logic the union of segments accepts exactly the rows the cursor predicate matches, for every key list, NULL anchor, placement and direction |
| Sql.RowValueAgreesExactly | fastapi_viewsets/backends/django_orm.py:434-438 | the row-value form agrees with the predicate on rows without NULLs if and only if the anchor does not lead with a NULL |
| Sql.RowAnchorsDoNotLead | fastapi_viewsets/backends/django_orm.py:411-431 | an anchor taken from a row of such a table never does |
| Sql.CursorCondition | fastapi_viewsets/backends/django_orm.py:411-431 | the form chosen, and that it accepts exactly the matching rows if and only if a row-value form has no leading NULL anchor |
| Sql.ApplySort | fastapi_viewsets/backends/django_orm.py:181-202 | ORDER BY with its explicit NULL placement orders any two rows as the in-memory comparison does |
| SqlPaging.CursorQuery | fastapi_viewsets/backends/django_orm.py:181-212 | for a first page and for one past a cursor, whatever answer the ORDER BY allows, the page read in SQL and its `has_more` are those of reading in memory |
| EventStore.NextRev | fastapi_viewsets/events/store.py:62-67 | the clock or one more than the last rev, above the last one and not below the clock, or none when that would reach 2^53 |
| EventStore.MemoryEventStore.Append | fastapi_viewsets/events/store.py:95-113 | the event continues the history's chain and follows what the log held, unless that had expired, cut to the newest `log_size`; an overflow changes nothing |
| EventStore.MemoryEventStore.Revs | fastapi_viewsets/events/store.py:115-116 | each topic's rev is the last of its history |
| EventStore.MemoryEventStore.Since | fastapi_viewsets/events/store.py:118-131 | the whole history after the cursor exactly when the log has not expired and holds the event that follows it, nothing for the current rev, and None otherwise |
| EventStore.AppendsAreKept | fastapi_viewsets/events/store.py:95-113 | after k appends, each before the log's expiry, the log is the newest `log_size` of what it held and the k events |
| EventStore.NewestAreReached | fastapi_viewsets/events/store.py:118-131 | so a cursor at most `log_size` events behind is answered until the log expires |
| EventStore.FoundInLog | fastapi_viewsets/events/store.py:125-130 | the events read from the log's end down to the one after the cursor are all the history's events above it |
| EventStore.MemoryEventStore.Drop | fastapi_viewsets/events/store.py:138-139 | a dropped topic starts over and no other changes |
| RedisEventStore.RedisTopic.AppendScript | fastapi_viewsets/events/redis.py:26-44 | counter and list stay those of the history, and the list is extended exactly as the in-process log is, so EventStore.AppendsAreKept holds of it; nothing on overflow |
| RedisEventStore.Since | fastapi_viewsets/events/redis.py:225-239 | with appends between its two reads, the whole history after the cursor exactly when the list read holds the event that follows it, covering every event up to the counter read first; otherwise None |
| EventPoll.AnswerTopic | fastapi_viewsets/events/viewset.py:232-252 | the visible events since the cursor, each chained to the one before, and a rev that covers those left out; EventPoll.AnswerLeavesNothingOut says that this is all of them |
| EventPoll.AnswerLeavesNothingOut | fastapi_viewsets/events/viewset.py:232-252 | an answer from the log carries exactly the logged events the filters let through, and its rev is the least that covers them all and the rev read first |
| EventPoll.SinceIsLinked | fastapi_viewsets/events/store.py:118-131 | what a store answers is linked from the cursor, as the poll's loop relies on |
| EventProtocol.ServedOk | fastapi_viewsets/events/viewset.py:226-252 | an answer is right whatever was appended or trimmed between the poll's two reads |
| EventClient.TopicState.Apply | vue/events/client.ts:558-575 | applied when it follows the held rev, ignored at or below it, a gap otherwise; EventDelivery.PushKeeps and EventDelivery.AnswerEvents say what that keeps |
| EventClient.TopicState.GapPoll | vue/events/client.ts:883-907 | one poll from the held rev, or the gap remembered while one is in flight; EventRepair.GapIsRepaired says what comes of it |
| EventClient.TopicState.GapAgain | vue/events/client.ts:909-915 | a remembered gap still ahead is polled again; EventRepair.GapInFlightIsPolledAgain says that none is forgotten |
| EventClient.TopicState.FallBehind | vue/events/client.ts:918-922 | the gap is left to the ladder: EventArrival.FailuresFallBehind says when |
| EventClient.TopicState.Receive | vue/events/client.ts:582-594 | a push is held without a rev or while refreshing, else applied, ignored or polled for; EventArrival.PushReachesHandlers says what reaches the handlers and EventDelivery.PushKeeps what stays right |
| EventClient.TopicState.Follow | vue/events/client.ts:535-552 | the first rev, the held pushes replayed in order, a requested refresh started; EventArrival.FollowDelivers says that the handlers get them |
| EventClient.TopicState.Resync | vue/events/client.ts:627-633 | the held rev moves, held pushes go, the handlers are told; EventArrival.AnswerExactly says when that happens and EventDelivery.ResyncKeeps that delivery starts over there |
| EventClient.TopicState.EndRefresh | vue/events/client.ts:615-624 | the held pushes are received again; EventArrival.FinishDelivers says that the handlers get them |
| EventClient.TopicState.RefreshState | vue/events/client.ts:502-516 | a refresh over the peer, behind without one, or once the topic is answered; EventArrival.RefreshAsks says what that leads to |
| EventClient.TopicState.ApplyEvents | vue/events/client.ts:675-701 | an answer's events in turn with `prev` raised to the held rev, a resync at the first gap, the held rev raised to the answer's; EventArrival.AnswerExactly says what any answer does, EventDelivery.AnswerKeeps and EventDelivery.NullAnswerExactly when that is right |
| EventClient.TopicState.ApplyTopicAnswer | vue/events/client.ts:640-668 | the first answer follows, a later one applies its events and ends the refresh; EventProtocol.EntryKeeps says what that keeps |
| EventClient.TopicState.OnGapPoll | vue/events/client.ts:889-906 | what the answer or the failure of a gap poll does; EventProtocol.PollTakenKeeps says what that keeps |
| EventClient.TopicState.OnSubscribe | vue/events/client.ts:841-856 | what the answer of a subscribe call does: EventArrival.FirstAnswerDeliversHeld, EventArrival.SubscribeEndsRefresh and EventArrival.SubscribeChecks by the state it finds |
| EventDelivery.PushKeeps | vue/events/client.ts:558-594 | a push, whenever and however often it arrives, keeps the handlers at exactly the visible events and no repeat |
| EventDelivery.AnswerEvents | vue/events/client.ts:690-696 | the loop over a right answer's events never meets a gap, whatever pushes did to the held rev since the poll was sent |
| EventDelivery.AnswerKeeps | vue/events/client.ts:675-701 | such an answer leaves the held rev at or above its own and resyncs only when it carries no events |
| EventDelivery.NullAnswerExactly | vue/events/client.ts:687-699 | the answer of a cursorless poll to a topic that has a rev keeps the handlers right exactly when no visible event lies between the two revs |
| EventProtocol.StepKeeps | vue/events/client.ts:535-701 | every step of client, server and network keeps the invariant and the held rev never falls, except an answer that skips events |
| EventProtocol.NothingSkippedOrRepeated | vue/events/client.ts:535-701 | over every run without such an answer the handlers got exactly the visible events above the last resync up to the held rev, and none twice or out of order ever |
| EventProtocol.HeldNeverFalls | vue/events/client.ts:535-701 | over every such run the held rev never falls |
| EventProtocol.SkippedExactly | vue/events/client.ts:687-699 | the first state with a skipped event comes exactly from the first answer that skips one |
| EventProtocol.LateNullAnswerLosesAnEvent | vue/events/client.ts:687-699 | a run in which a late answer without a cursor raises the held rev over a visible event |
| EventProtocol.PollCatchesUp | vue/events/client.ts:640-701 | a poll whose answer arrives leaves the client at or above the answer's rev with every visible event delivered |
| EventProtocol.SubscribeMissesNothing | fastapi_viewsets/events/viewset.py:174-179 | because the rev is read after registering, every visible event above the answered rev is pushed once published |
| EventRepair.AnswerCoversWhatWasThere | vue/events/client.ts:883-907 | when a poll's answer arrives the client holds at least every rev the topic had when the poll was sent |
| EventRepair.GapIsRepaired | vue/events/client.ts:582-594 | a gap sends a poll, and once that is answered the client is past the gap |
| EventRepair.GapInFlightIsPolledAgain | vue/events/client.ts:883-915 | a gap met during a gap poll is passed by its answer or polled for again |
| EventArrival.PushReachesHandlers | vue/events/client.ts:558-594 | over every run, what each push does: one that follows the held rev is given to the handlers and moves it, one at or below it does nothing, one before the first rev or during a refresh is held, any other is polled for or remembered |
| EventArrival.FollowDelivers | vue/events/client.ts:535-552 | at the first rev every chain of held pushes from it on, whatever else is among them, is delivered in order, and a refresh asked for meanwhile starts |
| EventArrival.FirstAnswerDeliversHeld | vue/events/client.ts:535-552 | the same over every run, for the first answer of a subscribe call or of a poll |
| EventArrival.FinishDelivers | vue/events/client.ts:615-624 | at the end of a refresh every chain of held pushes from the held rev on is delivered in order |
| EventArrival.SubscribeEndsRefresh | vue/events/client.ts:841-856 | the same over every run, for the answer of a subscribe call; above the held rev it also has the client poll |
| EventArrival.PollEndsRefresh | vue/events/client.ts:640-701 | the same over every run, for a poll's answer that carries events: first those, then the held pushes that follow |
| EventArrival.AnswerExactly | vue/events/client.ts:675-701 | what any answer does, right or wrong: it has the client start over exactly when it has no events and the client is still at the poll's cursor or below the answer, when its rev is below the cursor, or when one of its events cannot be read or leaves a gap; otherwise the handlers are only given events; and which outcome it reports |
| EventArrival.SubscribeChecks | vue/events/client.ts:841-856 | over every run, a later subscribe answer at or below the held rev says that nothing was missed, and one above it has the client poll |
| EventArrival.AnsweredIsNotBehind | vue/events/client.ts:640-668 | over every run, a topic a poll answered is left to the ladder no more |
| EventArrival.FailuresFallBehind | vue/events/client.ts:883-922 | over every run, a gap poll or a refreshing subscribe call that fails leaves the topic to the ladder and changes nothing the handlers had |
| EventArrival.RefreshAsks | vue/events/client.ts:502-516 | over every run, a refresh of an answered topic holds its pushes and asks the server, over the socket or by the ladder; before the first answer it is remembered |
| IdempotencyMemory.Idempotency.Prune | fastapi_viewsets/middleware/idempotency.py:430-434 | expired records go, at most once per the shorter TTL: IdempotencyStored.PruneRemovesExpired |
| IdempotencyMemory.Idempotency.Claim | fastapi_viewsets/middleware/idempotency.py:436-448 | the unexpired record, or a new running one with its run; IdempotencyStored.TryExactly says what a request makes of it |
| IdempotencyMemory.Idempotency.Renew | fastapi_viewsets/middleware/idempotency.py:450-455 | the lock is extended only while the record is the run's; IdempotencyStored.RenewalLasts says for how long |
| IdempotencyMemory.Idempotency.FinishRecord | fastapi_viewsets/middleware/idempotency.py:457-465 | the run's record becomes its outcome or goes; another's is left alone: IdempotencyStored.EndKeepsExactly and IdempotencyRuns.LostRunChangesNothing |
| IdempotencyMemory.Idempotency.Finish | fastapi_viewsets/middleware/idempotency.py:387-406 | the record stored or removed, the run forgotten and its future resolved; IdempotencyStored.EndKeepsExactly and IdempotencyStored.WaiterGets say for which endings and methods, in the outcome's own terms |
| IdempotencyMemory.Idempotency.Attach | fastapi_viewsets/middleware/idempotency.py:408-425 | a repeat marks the process's run and waits on it; IdempotencyStored.AttachedExactly says that nothing else marks it |
| IdempotencyMemory.Idempotency.Look | fastapi_viewsets/middleware/idempotency.py:414-421 | a waiting repeat answers, waits on or claims again: IdempotencyStored.WaiterGets and IdempotencyStored.LookExactly |
| IdempotencyRuns.StepKeeps | fastapi_viewsets/middleware/idempotency.py:314-340 | every interleaving of claims, attaches, looks, renewals, ends and ticks keeps the store's invariant |
| IdempotencyRuns.OnlyPhasesGuard | fastapi_viewsets/middleware/idempotency.py:314-340 | in every reachable state each step is possible as soon as its request has come that far |
| IdempotencyRuns.RunningRecordHasItsRun | fastapi_viewsets/middleware/idempotency.py:408-425 | every running record belongs to the live run kept for its key, so the removal of an ownerless record is never reached |
| IdempotencyRuns.OneLockHolder | fastapi_viewsets/middleware/idempotency.py:436-455 | at most one run of a key has an unexpired lock |
| IdempotencyRuns.OverlapOnlyAfterExpiry | fastapi_viewsets/middleware/idempotency.py:436-448 | a second run of a key starts only once every unfinished one's lock has expired |
| IdempotencyRuns.ReplayIsOfTheSameRequest | fastapi_viewsets/middleware/idempotency.py:328-340 | every replay is the outcome of a run claimed under the same key with the same fingerprint |
| IdempotencyRuns.LostRunChangesNothing | fastapi_viewsets/middleware/idempotency.py:450-465 | a run's renewal or end changes no record it does not own, and no other run |
| IdempotencyRuns.AttachedOutcomeIsKept | fastapi_viewsets/middleware/idempotency.py:408-465 | a run that ends while a repeat waits on it has its storable outcome kept, whatever the method |
| IdempotencyOnce.RunsOnceAnswersAlike | fastapi_viewsets/middleware/idempotency.py:328-406 | repeats of one storable request while its record has not expired: one execution, and its outcome on every answer |
| IdempotencyStored.OnlyRepeatableIsKept | fastapi_viewsets/middleware/idempotency.py:387-406 | over every run, no record, no future and no replay carries an outcome that sets a cookie or was streamed |
| IdempotencyStored.AttachedExactly | fastapi_viewsets/middleware/idempotency.py:408-413 | over every run, a run is marked attached exactly when some repeat has come to wait on it |
| IdempotencyStored.EndKeepsExactly | fastapi_viewsets/middleware/idempotency.py:387-465 | over every run, the end of a call keeps its record, as the outcome for the TTL, exactly when it ended with one that sets no cookie and was not streamed and, for a safe method, some repeat has waited on it; otherwise the key is free |
| IdempotencyStored.WaiterGets | fastapi_viewsets/middleware/idempotency.py:387-421 | over every run, a repeat that waits on a call gets that outcome once it has ended, and tries again after a cancelled call or an outcome that is not to be repeated |
| IdempotencyStored.RenewalLasts | fastapi_viewsets/middleware/idempotency.py:450-455 | a renewal by the record's owner answers true and the record lasts a whole lock TTL from then on |
| IdempotencyStored.RenewedKeepsTheKey | fastapi_viewsets/middleware/idempotency.py:436-455 | over every run, a call whose renewals are in time holds its key's record, unexpired, until it ends |
| IdempotencyStored.RenewedIsNeverOverlapped | fastapi_viewsets/middleware/idempotency.py:436-455 | and no other request executes under the key meanwhile |
| IdempotencyStored.PruneRemovesExpired | fastapi_viewsets/middleware/idempotency.py:430-434 | pruning removes exactly the expired records, and not again before the shorter TTL has passed |
| IdempotencyStored.TryExactly | fastapi_viewsets/middleware/idempotency.py:328-340 | what a try does by the key's unexpired record: executes without one, is refused by another request's, replays an outcome, waits on a running call |
| IdempotencyStored.LookExactly | fastapi_viewsets/middleware/idempotency.py:408-421 | a repeat goes on waiting exactly as long as the key has an unexpired record, and then tries again |
| IdempotencyRedis.Redis.Claim | fastapi_viewsets/middleware/idempotency.py:478-490 | SET NX PX writes the record only where none is alive; IdempotencyRedis.ClaimIsRead says what is read then |
| IdempotencyRedis.Redis.FinishScript | fastapi_viewsets/middleware/idempotency.py:42-55 | the script on its two keys: stored, deleted or not its record; no other key changes; IdempotencyRedis.FinishIsRead says what is read then |
| IdempotencyRedis.Redis.AttachScript | fastapi_viewsets/middleware/idempotency.py:59-69 | the mark is set with the record's remaining lifetime only on the record read; IdempotencyRedis.AttachIsRead says what is read then |
| IdempotencyRedis.Redis.RenewScript | fastapi_viewsets/middleware/idempotency.py:73-82 | record and mark are extended together, only while the record is the process's; IdempotencyRedis.RenewIsRead says what is read then |
| IdempotencyRedis.ClaimIsRead | fastapi_viewsets/middleware/idempotency.py:478-490 | a claim of a free key is read for the lock TTL and gone then; of a taken one nothing changes |
| IdempotencyRedis.AttachIsRead | fastapi_viewsets/middleware/idempotency.py:59-69 | a mark is read exactly as long as the record it was set on |
| IdempotencyRedis.RenewIsRead | fastapi_viewsets/middleware/idempotency.py:73-82 | a renewal of the record that is there answers 1; it and a mark that was there are read for a whole lock TTL from then on; otherwise 0 and nothing changes |
| IdempotencyRedis.FinishIsRead | fastapi_viewsets/middleware/idempotency.py:42-55 | the outcome is read for the TTL always or when a repeat attached or marked the record, else nothing; the mark goes; another's record stays |
| IdempotencyRedis.ScriptsKeepMarkBeside | fastapi_viewsets/middleware/idempotency.py:42-82 | each script and the passing of time keep an unexpired mark beside an unexpired running record that expires with it |
| IdempotencyRedis.ClaimInheritsNoMark | fastapi_viewsets/middleware/idempotency.py:478-490 | so a new run starts without a mark |
| IdempotencyProcesses.StepKeeps | fastapi_viewsets/middleware/idempotency.py:314-545 | every interleaving of the commands of any processes keeps the invariant of keys, runs and requests |
| IdempotencyProcesses.MarkIsNeverInherited | fastapi_viewsets/middleware/idempotency.py:42-82 | over every run the mark exists only beside its running record and no later run inherits one |
| IdempotencyProcesses.MarkedOutcomeIsKept | fastapi_viewsets/middleware/idempotency.py:42-69 | once a repeat's attach script returned 1, the call's storable outcome is kept when its finish script finds its record |
| IdempotencyProcesses.LostRunChangesNothing | fastapi_viewsets/middleware/idempotency.py:42-82 | a run whose record is not the one in Redis changes neither key |
| IdempotencyProcesses.ReplaysAreOwn | fastapi_viewsets/middleware/idempotency.py:328-340 | over every run in which no request attaches to a run of another fingerprint, every replay is of the request's own; `IdempotencyCauses` says when one does |
| IdempotencyProcesses.OnlyPhasesGuard | fastapi_viewsets/middleware/idempotency.py:314-340 | in every reachable state each step is possible as soon as its request has come that far |
| IdempotencyCauses.OpenHasTheKey | fastapi_viewsets/middleware/idempotency.py:387-421 | over every run, a call that has not returned has the key's record to itself unless its record expired before it ended or the key was claimed while it was returning |
| IdempotencyCauses.AttachesElsewhereBecause | fastapi_viewsets/middleware/idempotency.py:408-421 | over every run, a request attaches to a run of another fingerprint only for one of those two reasons or on a record that is gone since it was read |
| IdempotencyCauses.OrderlyReplaysAreOwn | fastapi_viewsets/middleware/idempotency.py:314-545 | over every run in which renewals are in time, no claim falls into the end of another call and no request decides on a stale record, every replay is of the request's own fingerprint |
| IdempotencyCauses.ComparedReplaysAreOwn | fastapi_viewsets/middleware/idempotency.py:408-421 | over every run in which requests attach only to the owner in the record they read, every replay is of their own, whatever expires or is stale |
| IdempotencyCauses.ReplaysOwnExactly | fastapi_viewsets/middleware/idempotency.py:328-340 | over every run, all replays are of the request's own fingerprint if and only if no look answers a request waiting on a run of another fingerprint with an outcome its own has not given |
| IdempotencyCauses.ForeignReplayBecause | fastapi_viewsets/middleware/idempotency.py:408-421 | such an answer goes back to the step at which the request attached, and there to one of the three reasons |
| IdempotencyCauses.AttachedAnswerExactly | fastapi_viewsets/middleware/idempotency.py:387-421 | a request waiting on a run, executing or returning, is answered with that run's outcome or tries again; the answer is right if and only if the run is of its fingerprint or another of its own gave the same outcome |
| IdempotencyStale.ExpiredLockReplaysAnother | fastapi_viewsets/middleware/idempotency.py:408-421 | a run with an expired lock, and neither other reason, in which a repeat is answered with another request's outcome |
| IdempotencyStale.ClosingCallReplaysAnother | fastapi_viewsets/middleware/idempotency.py:387-421 | the same with a claim between the finish script and the return of the call, and neither other reason |
| IdempotencyStale.StaleReadReplaysAnother | fastapi_viewsets/middleware/idempotency.py:408-490 | the same in one process with a stale record, and neither other reason: no time passes and the first call has returned |
| IdempotencyOnceEverywhere.RunsOnceAnswersAlike | fastapi_viewsets/middleware/idempotency.py:328-545 | repeats of one storable request on any processes while its record has not expired: one execution, and its outcome on every answer |
| IdempotencyStoredEverywhere.OnlyRepeatableIsKept | fastapi_viewsets/middleware/idempotency.py:387-406 | over every run of any processes, neither the record nor a future nor a replay carries an outcome that sets a cookie or was streamed |
| IdempotencyStoredEverywhere.AttachedExactly | fastapi_viewsets/middleware/idempotency.py:408-413 | a call is marked attached in its process exactly when a repeat there has come to wait on it |
| IdempotencyStoredEverywhere.MarkedExactly | fastapi_viewsets/middleware/idempotency.py:42-82 | over every run, the mark stands beside a running record exactly when a repeat elsewhere has marked that very record |
| IdempotencyStoredEverywhere.FinishKeepsExactly | fastapi_viewsets/middleware/idempotency.py:42-55 | over every run, a finish script that finds its record leaves the outcome for the TTL exactly when it can be encoded, sets no cookie and was not streamed and, for a safe method, some repeat has waited on the call or marked its record; otherwise no record and no mark |
| IdempotencyStoredEverywhere.WaiterGets | fastapi_viewsets/middleware/idempotency.py:387-421 | over every run, a repeat in the call's process gets that outcome, or tries again after a cancelled call or an outcome that is not to be repeated |
| IdempotencyStoredEverywhere.RemoteWaiterGets | fastapi_viewsets/middleware/idempotency.py:526-545 | a repeat elsewhere gets the outcome in the record, tries again when it is gone and is refused by another request's |
| IdempotencyStoredEverywhere.RenewedKeepsTheKey | fastapi_viewsets/middleware/idempotency.py:363-385 | over every run, a call whose renewals are in time has the key, unexpired, until its finish script is sent |
| IdempotencyStoredEverywhere.RenewedIsNeverClaimed | fastapi_viewsets/middleware/idempotency.py:478-490 | and no other request, in whatever process, claims it meanwhile |
| IdempotencyStoredEverywhere.RenewedIsInTime | fastapi_viewsets/middleware/idempotency.py:363-385 | so renewals in time are what IdempotencyCauses.OrderlyReplaysAreOwn asks of expiry |
| IdempotencyStoredEverywhere.ClaimExactly | fastapi_viewsets/middleware/idempotency.py:478-490 | SET NX claims a free key for the request, whose call is then its process's run, and misses a taken one |
| IdempotencyStoredEverywhere.DecideExactly | fastapi_viewsets/middleware/idempotency.py:328-340 | what a request makes of the record it read: tries again, is refused, replays, or waits, here when its process runs a call of the key |
| IdempotencyStoredEverywhere.ReadExactly | fastapi_viewsets/middleware/idempotency.py:408-421 | the record read is the one there now; a repeat marks the running record it read; one in the process waits as long as the key has a record |
| IdempotencyStoredEverywhere.RemoteFetchExactly | fastapi_viewsets/middleware/idempotency.py:526-535 | what a repeat elsewhere makes of the record it reads first |
| IdempotencyWait.NoLostWakeUp | fastapi_viewsets/middleware/idempotency.py:526-545 | a blocked repeat of a finished key is due or has a wake coming, and never sleeps past the lock of a running one |
| IdempotencyWait.SettledKeyWakes | fastapi_viewsets/middleware/idempotency.py:503-545 | once the publish and the SUBSCRIBE have run, a blocked repeat of a finished key wakes and leaves with what the key holds |
| IdempotencyWait.SleepsUntilTheLock | fastapi_viewsets/middleware/idempotency.py:536-542 | a repeat that finds a call running sleeps until that call's lock expires, and not less |
| Delivery.Subscriptions.DropFromTopic | fastapi_viewsets/events/delivery.py:101-107 | the store topic's index loses that subscription and no empty bucket stays |
| Delivery.Subscriptions.Remove | fastapi_viewsets/events/delivery.py:88-98 | both indexes lose the subscription, and with `expected` only that very one |
| Delivery.Subscriptions.Subscribe | fastapi_viewsets/events/delivery.py:110-149 | stored, replaced, refused at the limit or not stored for a closed peer; the close handler is installed |
| Delivery.Subscriptions.Unsubscribe | fastapi_viewsets/events/delivery.py:152-154 | the socket's subscription to the topic goes and no other |
| Delivery.Subscriptions.DropSubscriptions | fastapi_viewsets/events/delivery.py:157-167 | exactly the picked subscriptions go, and their number is answered |
| Delivery.Subscriptions.DropPeer | fastapi_viewsets/events/delivery.py:170-175 | exactly the socket's subscriptions go |
| Delivery.Subscriptions.EndReauthorize | fastapi_viewsets/events/delivery.py:236-263 | a refusal or another store topic removes that very subscription, the same one renews it, and a replacement is never touched |
| Delivery.IndexesAgree | fastapi_viewsets/events/delivery.py:61-68 | the by-topic and by-peer indexes hold the same subscriptions |
| Changes.ApplyChanges | vue/events/changes.ts:106-131 | computes the patched rows the lemmas below are about |
| Changes.SaveUpdatesTheMap | vue/events/changes.ts:118-130 | by pk, a save is a map update: the last record of a pk wins and every other row stays |
| Changes.DeleteRemovesFromTheMap | vue/events/changes.ts:112-115 | by pk, a delete is a map removal |
| Changes.SaveKeepsPlaces | vue/events/changes.ts:122-130 | rows keep their places and new ones come after them |
| Changes.SaveAddsInOrder | vue/events/changes.ts:118-130 | the rows a save adds are one for each pk that no row had and some change carries a record of, in the order in which the changes first do |
| Changes.DeleteKeepsOrder | vue/events/changes.ts:112-115 | what is left keeps its order |
| Changes.SaveKeepsDistinct | vue/events/changes.ts:118-130 | distinct pks stay distinct |
| Changes.DeleteKeepsDistinct | vue/events/changes.ts:112-115 | and no row appears that was not there |
| Changes.SaveTwiceIsOnce | vue/events/changes.ts:118-130 | applying a save twice is applying it once |
| Changes.DeleteTwiceIsOnce | vue/events/changes.ts:112-115 | and so for a delete |
| Call.RunCall | vue/call.ts:330-360 | every repeat starts before the deadline, after the failed attempt was abandoned and exactly when its delay and the transport let it; a loss waits the first delay doubled per loss since the start or the last cut-short delay, capped once doubled; the call ends, with an answer, or with the last error when that is one or no repeat can start in time |
| Call.RepeatWaits | vue/call.ts:296-360 | a repeat waits its delay out unless `retryNow()` cut it short, and starts after the attempt ended and the transport was ready |
| PollLadder.Ladder.Next | vue/events/poll.ts:98-102 | on the k-th unchanged poll in a row the ladder stands at min(base * factor^k, ceiling), a changed rev sends it to the base, a dialog or idleness to the ceiling; the rung stays between base and ceiling and the delay between the advice and the jittered rung |
| PollLadder.Ladder.Reset | vue/events/poll.ts:105-107 | the climb starts over: the next poll of anything active answers the base rung |
| PollLadder.Ladder.Resume | vue/events/poll.ts:114-118 | the base rung whatever is open or idle, from which the climb goes on as after one unchanged poll; the delay is at least the base and at most the jittered base |
| PollLadder.RungAfter | vue/events/poll.ts:49-57 | the k-th unchanged rung is min(base * factor^k, ceiling) whatever was drawn or advised |
| PollLadder.CeilingIsReached | vue/events/poll.ts:49-57 | with a factor above 1 the ceiling is reached after a number of unchanged rungs given in advance, and kept |
| PollLadder.DelayBounds | vue/events/poll.ts:68-77 | every delay is at least the advice and the base and lies between the rounded bounds of the jittered rung |
| PollLadder.MultiplierBound | vue/events/poll.ts:60-62 | the multiplier stays within the jitter fraction of 1 and grows evenly with the draw |
| PollLadder.RoundIsNearest | vue/events/poll.ts:68-77 | a delay is rounded to the nearest whole number, halves up |
| PollLadder.IntervalBounds | vue/events/poll.ts:49-57 | every rung lies between the base and the ceiling |
| KeyHeader.ParseKey | fastapi_viewsets/middleware/idempotency.py:85-111 | accepts exactly the values that are, without blanks around them, the header of some key, and answers that key |
| KeyHeader.RoundTrip | vue/call.ts:91-96 | parsing what the client printed gives every non-empty printable ASCII key back |
| KeyHeader.StripTakesBlanks | fastapi_viewsets/middleware/idempotency.py:85-91 | exactly the spaces and tabs at both ends are taken off |
| KeyHeader.ParsePadded | fastapi_viewsets/middleware/idempotency.py:85-111 | a key is read back whatever blanks stand around its header |
| SortParam.FormatSort | vue/sort.ts:32-34 | what is printed is read back, for columns that are not empty, have no comma and do not start with a space |
| SortParam.ParseSort | vue/sort.ts:18-29 | the state a `sort` text means, by the index of each entry's last colon |
| SortParam.ParseSortParam | fastapi_viewsets/mixins.py:205-224 | the same state, by what stands before and after it |
| SortParam.EntryExactly | fastapi_viewsets/mixins.py:205-224 | an entry by its last colon: a name alone is ascending, what follows a colon must be a direction, and a colon that comes first belongs to the name |
| SortParam.TrimTakesSpaces | fastapi_viewsets/mixins.py:205-224 | exactly the spaces at both ends of an entry are taken off |
| SortParam.CheckDeclaredSort | fastapi_viewsets/mixins.py:227-246 | a declared default is accepted only with every entry read, as a request would read it, and every column known; each refusal names an entry that is empty, unreadable or unknown |
| SortParam.SameTrimSameState | vue/sort.ts:18-29 | client and server agree on every text whose characters both languages trim alike |

## Left out

- FastAPI and Starlette routing, models and OpenAPI, authentication, authorizers, gate runs and scope resolvers: opaque
  callbacks or reflection.
- Relation columns (`_column`) and the model's concrete fields: keys are column names, and the in-memory fallbacks of the
  Django backend are not followed.
- Base64, JSON, SHA-256 and the encoded running record are injective values; a cursor's fingerprint is the keys and
  filters it hashes; the coercion of cursor values is a parameter.
- Columns hold numbers or texts, one kind per column; other comparable types, NaN and values of mixed kinds are not
  modelled. Primary keys are distinct.
- `has_previous` of a page read forwards, and `has_more` of one read backwards, are modelled as the code sets them:
  `CursorPaging.PageTells` says that they only tell whether the request carried a cursor.
- In the event machine: `drop`, scope changes, header changes, peer sources, refused topics, per-subscription event names
  and handlers that unsubscribe or refresh while an event is applied. A topic has one client; the ladder's and the check
  poll's timing is any time at all.
- Publishing: an event reaches a subscription registered when it is published, any number of times and in any order; the
  Redis channel between processes and a push that times out are pushes that never arrive.
- `_Run` objects are values in a table by owner, not heap objects, so aliasing between `_runs` and a waiting repeat is by
  that owner. Fresh owners stand for UUIDs.
- Dispatch errors and cancellation are one ending; an error and a result are both an outcome; a Redis command that raises
  outside the finish script is not modelled, and neither is a process that dies.
- IdempotencyWait.NoLostWakeUp: a dropped pub/sub connection and a process that dies between its finish script and its
  publish are not modelled; the lock's expiry bounds such waits.
- The subscription limit is fixed; `settings` may change at run time. Push timeouts and the sharing of one
  reauthorization between pushes are not modelled.
- Call.RunCall: clocks and transports are a parameter that says how long each attempt, delay and reconnection took, and
  time is assumed to pass in a round without a full delay; the emitted call events other than the retry are left out.
- PollLadder: numbers are exact reals, so floating-point rounding is not modelled.
- SortParam: which characters a language's trim removes is a parameter, since JavaScript and Python differ in a few.
- Reading an `Idempotency-Key` sent more than once, the UUID generator and the axios and muxws plumbing.
