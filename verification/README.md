# Verification of the Fantom API services

This project models the parts of the Fantom API server that hold state, run concurrently or
compute with fixed widths, and proves what they guarantee. `dafny verify dfyconfig.toml`
checks everything.

## What is modelled

* **Block synchronisation** (`BlockSync*.dfy`, `Channels.dfy`). The block scanner, the
  orchestrator and the block dispatcher share two queues of blocks. `BlockSync` is their state
  machine, one event for every atomic action; `BlockSyncServices` holds the services as
  objects, each of whose methods is proved to be a step of it. Main results: under any
  schedule, with failed reads and heads in any order, no block between the start and the
  scanner's position was left out of the queue, and every block the `done` counter claims was
  received. Both are safe for every run exactly when the chain has a block above zero and
  reaches the start block when the scan begins. An active scan pushes each block once and in
  order up to the end of the chain, whatever the other workers do in between; it can still
  finish exactly when the workers have not jammed, each waiting for room in the other's queue.
  The idle state ends exactly at a failed height read, or when the counter is 100 blocks behind;
  every head taken is pushed, in order, at once or, for the last 50 of a scan, at its end.
* **Transaction fan-out** (`TrxFanout*.dfy`). One wait group for every transaction, two workers,
  a waiter, and a stop at any step. Main results: a wait group counts exactly what is
  outstanding; a transaction is stored at most once, and only after the workers have handled its
  sender, its recipient, the contract it created and all of its logs, once each and in order;
  never if its fan-out was cut; a waiting transaction can still be stored exactly when no event
  of it was left in the queue of a worker that a stop has ended, and one just begun can be while
  the workers run.
* **Burned fees** (`FeeSplit.dfy`, `Burn*.dfy`). The split of a fee, the grouping of the
  transaction stream into burn records, the stored running total and the cached one. Main
  results: each share of a fee is the largest amount of so many tenths, and what rounding loses
  is known by the last digit; records are the maximal
  runs of the stream and conserve its fees; the distance between cached and stored total is
  given exactly for updates and readers in any order and with any failures; from the transaction
  stream to the totals, with blocks in any order, the running total is the slow aggregation and
  within 10^9 wei a block of what was burned, and the cached total agrees with it all along
  exactly when no block worth anything comes for the first time after a newer one.
* **Paged lists** (`ListQuery.dfy`, `Paging.dfy`, `ListLoaders.dfy`, `PagingSafety.dfy`,
  `BlockLists.dfy`). The loaders of token transactions, delegations, epochs and blocks against
  one definition of a page. Main results: walks in both directions visit every row once, and
  announce the end exactly when they have; they do so, in either direction, exactly when no two
  rows share their sort key; the append-then-cut loaders are right exactly when they are not
  asked, without a cursor, for fewer rows from the bottom than there are. Walks over blocks list
  the chain in both directions, even if it grows meanwhile.
* **The network crawler** (`Crawler*.dfy`). Iterators, goroutines, their end signals and the
  shutdown. Main results: a goroutine can always signal its end; an update tick starts a batch
  exactly when none is registered, and from every state of the handler the next one can be
  started; the shutdown always ends, however goroutines are scheduled, and no goroutine is left
  when the feed is closed.
* **Known accounts** (`Account*.dfy`). A cache that may forget anything in front of rows that
  count account events. Main results: rows count exactly the events processed without an
  error; the cache makes a difference exactly for a cached account whose look-up would fail, and
  over any run it only ever gets more activities counted, at most all of them; all that can be
  written are counted from the first one on, until the account is evicted.
* **Liquidity quotes** (`Liquidity.dfy`) and **ordinal indexes** (`Bits.dfy`, `Bytes.dfy`,
  `Ordinals.dfy`): the best pair of amounts at the ratio of the reserves, and the order that
  packed indexes and keys keep, with the exact condition for two of them to collide.

Calls to the node, to the database and to contracts that may fail are parameters of the events
and methods: whether a height, a block, a row or a quote is obtained. An interleaving of
goroutines is a sequence of events; an event that is not enabled changes nothing, so every
theorem about all sequences of events is one about all schedules.

Where the code does not do what is documented, or what a caller would expect, the model follows
the code:

* The time stamp of a token transfer is documented to take 40 bits of its ordinal index; the
  mask keeps 39 (internal/types/erc20_trx.go:88-93): `Ordinals.TimeLostExample`,
  `Ordinals.TimeKeptExactlyWhen`.
* The sign bit of a mined transaction's index is not cleared, because the mask binds to the
  position only (internal/types/transaction.go:128): `Ordinals.NegativeUidExample`,
  `Ordinals.UidSign`.
* Delegations and epochs listed from the bottom without a cursor lose the lowest row
  (internal/repository/db/delegation.go:399-440, internal/repository/db/epoch.go:263-304):
  `PagingSafety.CutPageExample`, `PagingSafety.CutPageRightExactlyWhen`.
* The cursor of an unknown delegation is not an error: the inner `err` shadows the one that is
  checked (internal/repository/db/delegation.go:269-287): `PagingSafety.UnknownCursorExample`,
  `PagingSafety.UnknownCursor`.
* Rows that share an ordinal index are skipped when a page ends between them:
  `PagingSafety.WalksCompleteExactlyWhenKeysDiffer`; transfers of one transaction can share one:
  `Ordinals.TokenCollisionExample`, `Ordinals.TokenCollides`.
* After a stop a transaction may never be stored: the workers end with events still queued
  (internal/svc/dispatch_acc.go:58-59, internal/svc/dispatch_log.go:168-169), and its waiter waits
  for ever: `TrxFanoutSafety.StopStrandsExample`, `TrxFanoutSafety.StoredExactlyUnlessStranded`.
* A failing read of a block counts as the end of the chain (internal/repository/block.go:205-223):
  `BlockLists.FailedReadExample`, `BlockLists.FailedReadMattersExactlyWhen`.
* The list of recent blocks never claims to reach block zero, and is not checked for gaps
  (internal/repository/block.go:285-290): `BlockLists.ShortcutExamples`,
  `BlockLists.ShortcutRightExactlyWhen`.
* Epochs are filtered by number and sorted by end (internal/repository/db/epoch.go:138-141):
  `ListLoaders.EpochMissingExample`, `ListLoaders.AllEpochsListedExactlyWhen`.
* Cached heads are unloaded newest first (internal/svc/orchestrator.go:118-132), and the cached
  total skips a block below the newest it has added (internal/repository/cache/burn.go:45-48):
  `BurnTotalsSafety.OutOfOrderExample`, `BurnTotalsSafety.AlwaysInSyncExactlyWhen`.
* Scanner and block dispatcher can wait for each other until a stop, the one for room in the block
  queue, the other for room in the queue of dispatched numbers (internal/svc/scan_blk.go:229-233,
  internal/svc/dispatch_blk.go:103-107): `BlockSyncProgress.JamExample`,
  `BlockSyncProgress.CatchesUpExactlyUnlessJammed`.
* A failed read of the height ends the idle state of the scanner (internal/svc/scan_blk.go:152-156):
  `BlockSyncHeads.IdleEndsExactlyWhen`.
* A transaction that could not be written is not tried again (internal/svc/dispatch_trx.go:172-174):
  `TrxFanoutSafety.FailedNeverStored`.

## Specification functions

The transitions and definitions that the contracts below refer to, with the code they follow.
What makes them right is not said by themselves, but by the lemmas about them and by the
methods proved equal to them, both listed under "Model".

* `BlockSync.Observe` (internal/svc/scan_blk.go:150-175): the scanner after a height read, and the idle state it asks for; a failed read asks for an active scan.
* `BlockSync.Shift` (internal/svc/scan_blk.go:208-225): one tick of an active scan: observe at the end of the range, else pull the next block, which `BlockSync.Pushed` (internal/svc/scan_blk.go:229-233) ends.
* `BlockSync.Advance` (internal/svc/scan_blk.go:134-139): the counter takes the first number dispatched, then only direct successors.
* `BlockSync.Init` (internal/svc/scan_blk.go:124-125): the services after the scanner's first observation, whose result is not used to change its state.
* `BlockSync.Step` (internal/svc/scan_blk.go:117-234): every atomic action of scanner, orchestrator and block dispatcher on their shared queues.
* `TrxFanout.Step` (internal/svc/dispatch_trx.go:135-235): every atomic action of dispatcher, account worker, log worker and waiters.
* `TrxFanout.ItemAt` (internal/svc/dispatch_trx.go:182-201): what is sent for a transaction, one after the other.
* `FeeSplit.BurnedFee` (internal/svc/dispatch_burn.go:110-129): fee, treasury, burn and reward of a transaction; nothing for a pending one, no split outside the table.
* `BurnTotals.Value` (internal/types/burn.go:121-123): the amount of a burn in reduced precision.
* `BurnTotals.LoadTotal` (internal/repository/db/burn.go:168-188): the stored total; a missing aggregate reads as zero and is created.
* `BurnTotals.StoreBurn` (internal/repository/db/burn.go:109-148): a row is replaced or inserted; only an insert increments the aggregate, and only if that exists.
* `BurnTotals.Refresh` (internal/repository/cache/burn.go:57-74): reloads the container up to the block before the burn; fails for block zero or a failed load.
* `BurnTotals.UpdateCache` (internal/repository/cache/burn.go:35-54): reloads when due, then adds a burn above the container's block.
* `BurnTotals.Store` (internal/repository/burn.go:57-60): the cache is updated first, from the total before the burn.
* `BurnTotals.Serve` (internal/repository/cache/burn.go:24-32): a reader without a container loads the stored total, and so creates a missing aggregate.
* `Paging.Reach` (internal/repository/db/erc_trx.go:197-214): the rows a page may be taken from: all of them, those below the cursor, or those above it.
* `Paging.PageOf` (internal/repository/db/erc_trx.go:243-291): the page asked for: the rows in reach nearest to the cursor, newest on top, with its two boundary flags.
* `Paging.CutPageOf` (internal/repository/db/delegation.go:357-444): the page of the append-then-cut loaders, which loses the lowest row in one case.
* `Paging.ErcPage` (internal/repository/db/erc_trx.go:294-324): a request for token transactions: error for a zero count or an unknown cursor, else the page.
* `Paging.DelegationPage` (internal/repository/db/delegation.go:407-444): a request for delegations: a cursor that does not decode is an error, an unknown one counts as key zero.
* `Paging.EpochPage` (internal/repository/db/epoch.go:271-307): a request for epochs, any number being a cursor.
* `BurnTotals.DriftOf` (internal/repository/cache/burn.go:35-74) and `BurnTotalsSafety.GapOf` (internal/repository/db/burn.go:122-135): what one update or reader adds to the drift of the cache and to the gap of the running total.
* `ListLoaders.ListedEpochs` (internal/repository/db/epoch.go:271-307): a request for epochs, whatever the order of their ends.
* `BlockLists.Answer` (internal/repository/block.go:232-248): the ring's blocks for a request from the top for fewer than 75, else the page pulled.
* `BlockLists.PulledPage` (internal/repository/block.go:178-224): the page of a walk that a failing read may end.
* `BlockLists.PageOf` (internal/repository/block.go:232-277): the consecutive blocks next to a number, or from either end of the chain, newest first, with flags exactly at block zero and at the head.
* `Crawler.Step` (internal/svc/net_crawler.go:63-159): every atomic action of the handler, the goroutines and the shutdown.
* `Accounts.AccountIsKnown` (internal/repository/account.go:97-116): cached, else found in the database and cached; a failed look-up says unknown.
* `Accounts.Act` (internal/svc/dispatch_acc.go:81-121): one account event, with the outcomes of the calls it makes.
* `Liquidity.OptimalLiquidity` (internal/graphql/resolvers/uniswap.go:143-182): the pair of amounts for given reserves and quotes.
* `Liquidity.QuoteLiquidity` (internal/graphql/resolvers/uniswap.go:96-140): the whole request, in the order of the tokens given.
* `Ordinals.Uid` (internal/types/transaction.go:125-132): the index of a mined or a pending transaction, by its bit operations.
* `Ordinals.UniswapOrdinalIndex` (internal/svc/logs_uniswap.go:15-17): the index of a swap, by its bit operations.

## Model

| member | source | states |
|---|---|---|
| BlockSync.WatermarkCovers | internal/svc/scan_blk.go:134-139 | the counter over any history that opens with the start block claims only numbers that occur in it |
| BlockSync.InitInv | internal/svc/scan_blk.go:124-125 | the invariant holds when the scan begins on a chain that has reached the start block |
| BlockSync.ObserveInv | internal/svc/scan_blk.go:164-174 | rewinding to the counter, or taking a new target, leaves no unqueued block behind the scanner |
| BlockSync.ScanTickInv | internal/svc/scan_blk.go:208-225 | a tick keeps the invariant: a block it pulls is the next one |
| BlockSync.PushPulledInv | internal/svc/scan_blk.go:229-233 | the push of a pulled block extends the queued stretch by exactly the next block |
| BlockSync.TakeDispatchedInv | internal/svc/scan_blk.go:134-139 | so does counting a dispatched block, duplicates and gaps included |
| BlockSync.PushPendingInv | internal/svc/orchestrator.go:94-132 | so does a head or a cached block pushed by the other producer of the queue |
| BlockSync.DispatcherInv | internal/svc/dispatch_blk.go:73-107 | the dispatcher takes and reports blocks in order, without loss |
| BlockSync.StepInv | internal/svc/scan_blk.go:117-234 | every action of every worker keeps the invariant |
| BlockSyncSafety.RunInv | internal/svc/scan_blk.go:130-145 | the invariant holds after any schedule |
| BlockSyncSafety.NoBlockSkipped | internal/svc/scan_blk.go:130-234 | in every reachable state all blocks from the start to the scanner's position were queued, and all the counter claims were received |
| BlockSyncSafety.ResumesBeforeMissing | internal/svc/scan_blk.go:164-174 | the scanner always resumes at or before any block never queued |
| BlockSyncSafety.GoesIdleCaughtUp | internal/svc/scan_blk.go:172-193 | it goes idle only when every block up to the height it just read is queued |
| BlockSyncSafety.MissingBlockWakesScanner | internal/svc/scan_blk.go:158-174 | a missing block 100 below the head ends the idle state at the next height read, and is in the new range |
| BlockSyncSafety.DoneNeverDecreases | internal/svc/scan_blk.go:134-139 | the counter and both histories only grow over any run |
| BlockSyncSafety.StartAboveHeightSkips | internal/svc/scan_blk.go:71-81 | a chain below the start block has a run, in which it grows past that block, that skips the start block, for every such start and height |
| BlockSyncSafety.EmptyChainSkips | internal/svc/scan_blk.go:137 | starting from an empty chain at block zero has a run, in which it grows by two blocks, that skips block one, since zero also means nothing dispatched |
| BlockSyncSafety.SafeExactlyWhenChainReachesStart | internal/svc/scan_blk.go:71-139 | no run skips a block if and only if the height is at least one and has reached the start |
| BlockSyncProgress.RunFits | internal/svc/scan_blk.go:117-234 | over any run no number exceeds the height, the scanner is at most one past it, and no queue its capacity |
| BlockSyncProgress.ReachableFits | internal/svc/scan_blk.go:117-234 | so it is in every reachable state |
| BlockSyncProgress.ScanStep | internal/svc/scan_blk.go:208-234 | one action of any worker during a scan pushes the next block or none, and ends the scan if and only if it is a height read of a free scanner that has passed the chain |
| BlockSyncProgress.CatchUp | internal/svc/scan_blk.go:208-234 | over any run, the chain growing and all workers interleaved, an active scan pushes each block once and in order, and goes idle one past the end of the chain |
| BlockSyncProgress.CatchUpAtFixedHeight | internal/svc/scan_blk.go:208-234 | with the height fixed it has pushed a first part of the remaining blocks while active, and exactly all of them when it goes idle |
| BlockSyncProgress.SendsExactlyWhen | internal/svc/scan_blk.go:55-60 | only a full queue holds up who has a block, a number or a change of state to send |
| BlockSyncProgress.CounterCatchesUp | internal/svc/scan_blk.go:134-139 | once all that was queued has been counted, the counter is at most one block behind the scanner |
| BlockSyncProgress.JammedForEver | internal/svc/dispatch_blk.go:103-107 | once more blocks wait than the dispatcher can pass on, the scanner never moves again, whatever happens short of a stop |
| BlockSyncProgress.CanCatchUp | internal/svc/scan_blk.go:208-234 | else some schedule brings an active scan to its end, the chain being as it is |
| BlockSyncProgress.CatchesUpExactlyUnlessJammed | internal/svc/scan_blk.go:208-234 | an active scan can still end if and only if the workers are not jammed |
| BlockSyncProgress.JamExample | internal/svc/scan_blk.go:229-233 | on every chain with 2002 blocks from the start on, a run that jams the workers |
| BlockSyncHeads.IdleNearHead | internal/svc/scan_blk.go:164-168 | less than 100 blocks behind the chain a height read leaves an idle scanner idle, back at the counter, with no state to send |
| BlockSyncHeads.IdleBehindHead | internal/svc/scan_blk.go:172-174 | further behind the height is its target, and it turns active exactly if that is not passed |
| BlockSyncHeads.ActiveHeightRead | internal/svc/scan_blk.go:172-174 | an active scanner takes the height as its target, and goes idle exactly if that is passed |
| BlockSyncHeads.PullsWhenAvailable | internal/svc/scan_blk.go:219-225 | within its range an active scanner pulls exactly the next block, if the node returns it |
| BlockSyncHeads.IdleEndsExactlyWhen | internal/svc/scan_blk.go:150-175 | an idle scanner turns active if and only if a height read fails, or finds it 100 blocks behind with blocks left to scan |
| BlockSyncHeads.IdleThroughExactlyWhen | internal/svc/scan_blk.go:130-145 | over any run the scanner stays idle if and only if none of its events is such a read |
| BlockSyncHeads.IdleRun | internal/svc/scan_blk.go:164-168 | while it stays idle it pushes nothing, its next block is the old one or at most the one counted last, and heads go on being pushed at once |
| BlockSyncHeads.OrchestratorFollows | internal/svc/orchestrator.go:80-86 | when no change of state is on its way, heads are pushed at once exactly if the scanner is idle |
| BlockSyncHeads.CacheHoldsNewest | internal/svc/orchestrator.go:109-112 | over any run the cache holds the last 50 heads taken since the orchestrator last learned of an idle scanner, newest first |
| BlockSyncHeads.HeadsArePushedInOrder | internal/svc/orchestrator.go:94-132 | over any run what is due for the heads taken has been put on the queue in order, but for what is still pending |
| BlockSyncHeads.QueuedByEither | internal/svc/orchestrator.go:94-132 | all that was queued was scanned or forwarded by the orchestrator, nothing else |
| BlockSyncHeads.HeadsAreQueued | internal/svc/orchestrator.go:94-132 | in every reachable state with nothing pending all heads due are queued |
| BlockSyncHeads.KeptAreQueued | internal/svc/orchestrator.go:118-132 | the last 50 heads of a scan are queued once the orchestrator has learned of its end and is free again |
| BlockSyncServices.BlkScanner.Observe | internal/svc/scan_blk.go:150-175 | updates the fields as the state machine says |
| BlockSyncServices.BlkScanner.UpdateState | internal/svc/scan_blk.go:179-193 | toggles the state and has it advertised, only if it differs |
| BlockSyncServices.BlkScanner.Shift | internal/svc/scan_blk.go:208-225 | the new fields of a tick up to its push: idle, at the end of the range, block not available, or block pulled |
| BlockSyncServices.BlkScanner.PushPulled | internal/svc/scan_blk.go:229-233 | once the queue has room exactly the pulled block is added to it, and the scanner advances |
| BlockSyncServices.BlkScanner.SendSwitch | internal/svc/scan_blk.go:189-193 | sends the state change, once, while the switch channel has room |
| BlockSyncServices.BlkScanner.OnDispatched | internal/svc/scan_blk.go:134-139 | takes one number from the channel and advances the counter by it |
| BlockSyncServices.BlockDispatcher.TakeBlock | internal/svc/dispatch_blk.go:73-81 | takes the oldest block of the queue |
| BlockSyncServices.BlockDispatcher.Process | internal/svc/dispatch_blk.go:100-107 | reports the number of the block held |
| BlockSyncServices.Orchestrator.HandleNewHead | internal/svc/orchestrator.go:94-113 | a head is pushed on idle and kept in the ring otherwise; a block that is not available, such as one above the height, changes nothing |
| BlockSyncServices.Orchestrator.OnStateSwitch | internal/svc/orchestrator.go:80-86 | follows the scanner's state, and unloads the ring when it goes idle |
| BlockSyncServices.Orchestrator.UnloadCache | internal/svc/orchestrator.go:118-132 | all cached blocks, newest first, are to be pushed, and the ring is empty |
| BlockSyncServices.Orchestrator.Push | internal/svc/orchestrator.go:103-132 | sends the next block to the dispatcher's queue |
| BlockSyncServices.ServiceManager.constructor | internal/svc/orchestrator.go:30-46 | the services share the channels as wired, in the initial state of the machine |
| BlockSyncServices.ServiceManager.Execute | internal/svc/orchestrator.go:72-88 | one action of any worker is one step of the machine |
| BlockSyncServices.ServiceManager.ExecuteAll | internal/svc/scan_blk.go:130-145 | any schedule is a run of the machine |
| BlockSyncServices.Synchronise | internal/svc/scan_blk.go:63-146 | the services, started on a chain that has reached the start block, skip nothing under any schedule |
| Channels.Chan.Send | internal/svc/scan_blk.go:57-59 | a buffered channel appends what is sent |
| Channels.Chan.Receive | internal/svc/scan_blk.go:57-59 | a buffered channel delivers in the order of sending |
| Channels.Ring.Add | internal/repository/cache/ring/ring.go:35-54 | the array backend holds the newest values, newest first, the oldest making room |
| Channels.Ring.Reset | internal/repository/cache/ring/ring.go:57-61 | forgets all values |
| Channels.Ring.List | internal/repository/cache/ring/ring.go:64-94 | the newest values, newest first; the branch for an empty node is never taken |
| TrxFanout.SendInv | internal/svc/dispatch_trx.go:204-235 | sending an event moves one addition of the wait group from pending to outstanding |
| TrxFanout.FinishAccountInv | internal/svc/dispatch_acc.go:68-74 | a handled account event is taken off its own transaction's wait group |
| TrxFanout.FinishLogInv | internal/svc/dispatch_log.go:177-187 | a handled log event is taken off its own transaction's wait group, whatever its topic |
| TrxFanout.StoreInv | internal/svc/dispatch_trx.go:169-179 | the end of a waiter keeps the account of what was sent and handled, whether the write succeeds or not |
| TrxFanout.StepInv | internal/svc/dispatch_trx.go:135-235 | every action keeps the account of every transaction |
| TrxFanout.StepBurnInv | internal/svc/dispatch_trx.go:137-141 | every action keeps what the burn dispatcher is sent: all transactions but those refused, once and in order |
| TrxFanoutSafety.CounterIsOutstanding | internal/svc/dispatch_trx.go:204-235 | in every reachable state a wait group is the number of events sent and not handled, plus at most one addition in progress or abandoned |
| TrxFanoutSafety.SignalsAreOwed | internal/svc/dispatch_acc.go:74 | no worker ever signals an empty wait group |
| TrxFanoutSafety.SendsExactlyWhen | internal/svc/dispatch_trx.go:204-235 | only a full queue holds up a transaction that is begun, or an event to be sent |
| TrxFanoutSafety.ObserverFollows | internal/svc/dispatch_trx.go:169-179 | the block observed is that of the transaction whose waiter ended last, stored or not |
| TrxFanoutSafety.NothingCutBeforeStop | internal/svc/dispatch_trx.go:137-153 | before a stop no fan-out is cut and no worker has ended |
| TrxFanoutSafety.BegunCanBeStored | internal/svc/dispatch_trx.go:135-179 | while the workers run, every transaction being fanned out can be sent on, handled and stored |
| TrxFanoutOrder.EventsAreSentInOrder | internal/svc/dispatch_trx.go:143-154 | in every reachable state the workers were sent the first of a transaction's accounts and then of its logs, in order and once each |
| TrxFanoutOrder.HandledExactlyWhen | internal/svc/dispatch_trx.go:182-201 | the sender, the recipient if any, the new contract if any and all logs have been handled, once each and in order, if and only if all was sent and nothing is open |
| TrxFanoutOrder.StoredAfterAllHandled | internal/svc/dispatch_trx.go:169-179 | a stored transaction was stored once, with its sender, its recipient and its contract, if any, and every log handled |
| TrxFanoutOrder.WaiterReleasedWhenHandled | internal/svc/dispatch_trx.go:169-172 | a waiter is released if and only if all of these are handled, and stores the transaction if and only if the write then succeeds |
| TrxFanoutSafety.CutNeverStored | internal/svc/dispatch_trx.go:137-153 | a transaction whose fan-out the stop cut is never stored, however the run goes on |
| TrxFanoutSafety.FailedNeverStored | internal/svc/dispatch_trx.go:172-174 | a transaction whose write failed is never stored, however the run goes on |
| TrxFanoutSafety.BurnsInOrder | internal/svc/dispatch_trx.go:137-141 | over any run the burn dispatcher is sent every transaction that was not refused, once and in order |
| TrxFanoutSafety.WaitingCanBeStored | internal/svc/dispatch_trx.go:169-179 | from every reachable state the workers alone can get a waiting transaction stored that is not stranded |
| TrxFanoutSafety.StrandedNeverStored | internal/svc/dispatch_acc.go:56-60 | an event left in the queue of a worker that has ended stays there, and its transaction is never stored |
| TrxFanoutSafety.StoredExactlyUnlessStranded | internal/svc/dispatch_log.go:165-171 | a waiting transaction can still be stored if and only if no event of it is left behind by a worker that has ended |
| TrxFanoutSafety.NothingStrandedWhileRunning | internal/svc/manager.go:66-73 | before a stop no transaction is stranded |
| TrxFanoutSafety.StopStrandsExample | internal/svc/dispatch_acc.go:58-59 | a reachable state after a stop in which a waiting transaction is never stored |
| TrxFanoutServices.OthersLeaveTheJob | internal/svc/dispatch_trx.go:135-158 | the other workers never disturb the transaction being fanned out |
| TrxFanoutServices.TrxServices.HandleAccount | internal/svc/dispatch_acc.go:56-74 | taking and finishing an account event, or ending once stopped |
| TrxFanoutServices.TrxServices.HandleLog | internal/svc/dispatch_log.go:165-187 | taking and finishing a log event, or ending once stopped |
| TrxFanoutServices.TrxServices.WaitAndStore | internal/svc/dispatch_trx.go:169-179 | only once its wait group is empty, stores the transaction unless the write fails, and notes its block either way |
| TrxFanoutServices.TrxServices.Push | internal/svc/dispatch_trx.go:204-235 | raises the counter, then sends, gives up for the stop, or still waits, with the others acting between |
| TrxFanoutServices.TrxServices.PushAccounts | internal/svc/dispatch_trx.go:182-201 | exactly the sender, the recipient if any and the new contract if any are pushed, unless stopped, or held up by a full queue |
| TrxFanoutServices.TrxServices.PushLogs | internal/svc/dispatch_trx.go:150-154 | every log is pushed, unless stopped, or held up by a full queue |
| TrxFanoutServices.TrxServices.Process | internal/svc/dispatch_trx.go:135-158 | a whole transaction: sent to the burn dispatcher, fanned out and waiting, or cut by the stop, or still waiting for room in a queue, whatever the other workers do meanwhile |
| FeeSplit.ShareByBlock | internal/repository/burn.go:73-80 | the first row of the table that covers the block, or none if no row does |
| FeeSplit.ShareByTimeStamp | internal/repository/burn.go:83-90 | the same by time stamp |
| FeeSplit.TablePartitionsBlocks | internal/repository/burn.go:30-54 | every 64-bit block number is in exactly one row, and the shares of a row add up to its divisor |
| FeeSplit.TablePartitionsTime | internal/repository/burn.go:30-54 | every time stamp is in exactly one row if it is not negative, the first one before 1665060101, else in none |
| FeeSplit.SharesOfFee | internal/svc/dispatch_burn.go:110-129 | the fee is price times gas in 63 bits; burn, treasury and reward are each the largest amount of 3, 0 and 7 tenths before block 48552264, and of 2, 1 and 7 from it on; a pending transaction has none |
| FeeSplit.SplitShortfall | internal/svc/dispatch_burn.go:125-128 | exactly how much rounding loses of a fee, by its last digit and by the row |
| FeeSplit.ShortfallBound | internal/svc/dispatch_burn.go:110-129 | the three shares never exceed the fee, and lack at most two wei |
| BurnRuns.RunsAreUnique | internal/svc/dispatch_burn.go:62-107 | there is only one way to cut a stream into maximal runs of a block |
| BurnRuns.ExtendRuns | internal/svc/dispatch_burn.go:66-106 | opening a record for another block, or adding to the last, keeps the runs maximal |
| BurnRuns.RecordsConserveFees | internal/svc/dispatch_burn.go:98-102 | the records carry the fees, burns, treasury and reward amounts of the stream |
| BurnRuns.RecordsConserveHashes | internal/svc/dispatch_burn.go:104-105 | their transaction lists, put together, are the stream |
| BurnRuns.StreamShortfall | internal/svc/dispatch_burn.go:110-129 | over a stream of n transactions, with the fees they pay, rounding loses at most 2n wei |
| BurnTotals.SumsAfterUpsert | internal/repository/db/burn.go:122-126 | what an upsert changes in the sums over the rows |
| BurnTotals.RoundingOfSums | internal/types/burn.go:42-45 | rounding every row loses less than 10^9 wei a row |
| BurnTotals.ApplyKeepsWellformed | internal/repository/cache/burn.go:24-73 | whatever updates and readers do, the container's block stays below the block of its next reload |
| BurnTotals.DriftStep | internal/repository/cache/burn.go:35-74 | what one update or reader adds to the distance of the cached total from the stored one, whichever of its calls fail |
| BurnTotals.DriftIsSumSinceReload | internal/repository/cache/burn.go:35-74 | for updates and readers in any order, with any repeats and any failures, the exact distance of the two totals |
| BurnTotals.DriftOfClean | internal/repository/cache/burn.go:45-53 | without failures only blocks stored again above the container's block and new ones at or below it contribute |
| BurnTotals.ReloadResyncsExactlyWhen | internal/repository/cache/burn.go:37-42 | a reload removes any drift if and only if the database counts the block it happens at, or that is worth nothing |
| BurnTotals.SyncKeptExactlyWhen | internal/repository/cache/burn.go:35-54 | equal totals stay equal if and only if cache and database agree on counting the burn, or it is worth nothing, or there is no container |
| BurnTotalsSafety.AggregateExistsUnless | internal/repository/db/burn.go:171-176 | when the first increment finds its aggregate row: unless no reader made it and the burn is of block zero or the load fails |
| BurnTotalsSafety.GapStep | internal/repository/db/burn.go:122-135 | exactly what one update or reader changes between running total and sum over the rows, whichever of its calls fail |
| BurnTotalsSafety.GapIsSum | internal/repository/db/burn.go:109-148 | the exact distance of running total and sum over the rows after any updates and readers |
| BurnTotalsSafety.FirstBurnCounted | internal/repository/db/burn.go:132-146 | from an empty database, with a reader before it or not, exactly when the first burn stored is counted |
| BurnTotalsSafety.NoGap | internal/repository/db/burn.go:109-148 | no increment is lost while blocks are stored again with unchanged amounts |
| BurnTotalsSafety.StoredTotalIsSlowTotal | internal/repository/db/burn.go:168-219 | the running total is the slow aggregation; with no rows the latter fails |
| BurnTotalsSafety.StoredTotalBounds | internal/types/burn.go:121-123 | times 10^9 the running total is at most what was burned, and within 10^9 a block of it |
| BurnTotalsSafety.AmountsFit | internal/types/burn.go:121-123 | below 2^63 * 10^9 wei burned no amount or total leaves 64 bits |
| BurnTotalsSafety.ReloadsExactlyWhen | internal/repository/cache/burn.go:35-73 | the total is loaded for the first block above zero, and again exactly with the first update 1200 blocks after the last load that the database answers |
| BurnTotalsSafety.DriftEndsAfter1200 | internal/repository/cache/burn.go:68-72 | 1200 blocks after a load, whatever happened in between, the next new block stored without a failure removes any drift |
| BurnTotalsSafety.DriftIsLateBurns | internal/repository/cache/burn.go:35-54 | while calls succeed the cached total lacks exactly the blocks that came for the first time after a newer one, since the last reload |
| BurnTotalsSafety.InSyncExactlyWhen | internal/repository/cache/burn.go:45-53 | it never exceeds the stored total, and equals it if and only if none of those blocks is worth anything |
| BurnTotalsSafety.AlwaysInSyncExactlyWhen | internal/repository/burn.go:57-60 | the two agree after every operation if and only if no block worth anything comes for the first time after a newer one |
| BurnTotalsSafety.OutOfOrderExample | internal/svc/orchestrator.go:118-132 | blocks 5, 7 and 6 leave the cached total short of block 6 |
| BurnTotalsSafety.AscendingStaysInSync | internal/repository/burn.go:57-60 | for blocks in order the cached, the stored and the slow total always agree |
| BurnTotalsSafety.StreamToTotals | internal/svc/dispatch_burn.go:42-107 | from a stream of transactions to the totals, with blocks in any order and with any repeats that leave amounts unchanged: the running total is the slow one and within 10^9 wei a block of what the rows burned, and the cached total lacks exactly the late blocks |
| BurnTotalsSafety.DistinctStreamToTotals | internal/svc/dispatch_burn.go:62-107 | if every run of the stream is of another block, in any order, the rows burned what the stream did, less the pending record |
| BurnTotalsSafety.InOrderStreamToTotals | internal/svc/dispatch_burn.go:42-107 | with blocks in order all three totals agree, within 10^9 wei a block of what the stream burned, less the pending record |
| BurnServices.BurnRepository.BurnTotal | internal/repository/db/burn.go:168-188 | the stored total, creating a missing aggregate |
| BurnServices.BurnRepository.FtmBurnTotal | internal/repository/cache/burn.go:24-32 | the cached total once there is a container, else the stored one, creating a missing aggregate; one read of the totals |
| BurnServices.BurnRepository.RefreshBurnUpdate | internal/repository/cache/burn.go:57-74 | replaces the container by a fresh one, or fails and changes nothing |
| BurnServices.BurnRepository.FtmBurnUpdate | internal/repository/cache/burn.go:35-54 | updates the container in place as specified |
| BurnServices.BurnRepository.StoreBurnRow | internal/repository/db/burn.go:109-136 | upserts the row and increments the aggregate for a new one, or fails at either |
| BurnServices.BurnRepository.StoreFtmBurn | internal/repository/burn.go:57-60 | cache, then database, whichever of the calls fail |
| BurnServices.BurnRepository.BurnTotalSlow | internal/repository/db/burn.go:191-219 | the sum over all the rows, by a loop |
| BurnServices.BurnDispatcher.Process | internal/svc/dispatch_burn.go:62-107 | the stream grows by the transaction, with the fees it pays; records handed over and pending are the maximal runs of the stream, and the repository got them in order |
| BurnServices.BurnDispatcher.FtmBurnTotal | internal/repository/burn.go:66-68 | a reader between two transactions gets the stored total plus the drift, is one operation on the totals, and changes nothing of the records |
| BurnServices.BurnDispatcher.NothingLost | internal/svc/dispatch_burn.go:62-129 | at any time the records carry all the fees, and rounding lost at most two wei a transaction |
| BurnServices.BurnDispatcher.Collect | internal/svc/dispatch_burn.go:66-106 | adds to the pending record, or hands it over and opens another |
| BurnServices.RecordExtends | internal/svc/dispatch_burn.go:98-105 | adding fees and hash to a record is the record of the longer run |
| ListQuery.SortSorts | internal/repository/db/erc_trx.go:228-229 | the sort of a query orders the rows by their key and loses none |
| ListQuery.SortWhere | internal/repository/db/erc_trx.go:249 | filtering and sorting a collection can be exchanged |
| ListQuery.WhereIsSlice | internal/repository/db/erc_trx.go:197-214 | a range filter on sorted rows selects one stretch of them |
| Paging.RangeReaches | internal/repository/db/erc_trx.go:197-214 | the four range conditions select exactly the rows in reach |
| Paging.QueryFindsReach | internal/repository/db/erc_trx.go:197-249 | the query over the whole collection finds exactly the matching rows in reach |
| Paging.FetchedIsWindow | internal/repository/db/erc_trx.go:231-238 | one row of look-ahead tells exactly whether the page exhausts what is in reach |
| ListLoaders.PageList.Reverse | internal/types/erc20_trx_list.go:31-44 | the in-place swaps reverse the rows, and exchange First and Last of two rows or more |
| ListLoaders.PageList.Fill | internal/repository/db/erc_trx.go:263-290 | at most the count of rows is kept, and the flags tell whether more were found |
| ListLoaders.PageList.FillAndLookAhead | internal/repository/db/delegation.go:376-402 | the last row found is kept whenever a boundary flag is set |
| ListLoaders.MongoDbBridge.ErcTrxListFirst | internal/repository/db/erc_trx.go:145-170 | the key to start from: of the highest row, of the lowest, or of the cursor |
| ListLoaders.MongoDbBridge.ErcTrxListInit | internal/repository/db/erc_trx.go:106-138 | total, flags of an empty list and starting key, or the error of an unknown cursor |
| ListLoaders.MongoDbBridge.ErcTrxListLoad | internal/repository/db/erc_trx.go:243-291 | the list holds the rows found without the look-ahead, and the flags |
| ListLoaders.MongoDbBridge.Erc20Transactions | internal/repository/db/erc_trx.go:294-324 | returns exactly the page of the declarative definition, and the number of matching rows as total, for every cursor, count and filter |
| ListLoaders.MongoDbBridge.DlgListFirst | internal/repository/db/delegation.go:255-287 | the key to start from; only a cursor that does not decode fails |
| ListLoaders.MongoDbBridge.Delegations | internal/repository/db/delegation.go:407-444 | returns exactly the delegation page, and the number of matching rows as total, for every cursor, count and filter |
| ListLoaders.MongoDbBridge.EpochListFirst | internal/repository/db/epoch.go:138-157 | the number to start from: of the last epoch, of the first, or the cursor |
| ListLoaders.MongoDbBridge.Epochs | internal/repository/db/epoch.go:271-307 | returns what its query finds, appended, reversed and cut; that is the epoch page when epochs end in the order of their numbers; the total is that of all epochs |
| ListLoaders.ListedIsEpochPage | internal/repository/db/epoch.go:184-214 | filtering by number and sorting by end give the epoch page when epochs end in the order of their numbers |
| ListLoaders.AllEpochsListedExactlyWhen | internal/repository/db/epoch.go:138-141 | a list of all epochs from the top down is complete if and only if no epoch has a larger number than the one that ended last |
| ListLoaders.EpochMissingExample | internal/repository/db/epoch.go:138-141 | two epochs of which the list from the top misses one |
| ListLoaders.FillAndCut | internal/repository/db/delegation.go:399-440 | the rows found are appended on a boundary, reversed and cut at the end, in that order |
| ListLoaders.CutIsPage | internal/repository/db/delegation.go:399-440 | rows treated in that order are the page asked for, but for one row in one case |
| ListLoaders.LoadedIsPage | internal/repository/db/erc_trx.go:282-289 | the rows and flags of the loader are those of the page |
| PagingSafety.PageIsAdjacent | internal/repository/db/erc_trx.go:197-291 | a page holds the rows adjacent to its cursor or border, and its flags tell exactly whether rows lie above or below it |
| PagingSafety.WalkDownVisitsAll | internal/repository/db/erc_trx.go:141-324 | walking down with any page sizes visits each matching row once, newest first, and ends exactly when all were visited |
| PagingSafety.WalkUpVisitsAll | internal/repository/db/erc_trx.go:141-324 | the same upwards |
| PagingSafety.WalksCompleteExactlyWhenKeysDiffer | internal/repository/db/erc_trx.go:197-214 | every walk down is complete if and only if no two matching rows share their ordinal, and so is every walk up |
| PagingSafety.EqualKeysAreSkipped | internal/repository/db/erc_trx.go:205-210 | for any two rows with one ordinal, page sizes with which a walk down misses a row |
| PagingSafety.EqualKeysAreSkippedUp | internal/repository/db/erc_trx.go:205-210 | for any two rows with one ordinal, page sizes with which a walk up misses a row |
| PagingSafety.CutPageExample | internal/repository/db/delegation.go:432-440 | asked for the lowest of two rows, the loaders of delegations and of epochs return the other one |
| PagingSafety.CutPageRightExactlyWhen | internal/repository/db/delegation.go:399-440 | the append-then-cut page is right if and only if it is not asked without a cursor for fewer rows from the bottom than there are |
| PagingSafety.DelegationsAgreeExactlyWhen | internal/repository/db/delegation.go:407-444 | delegations are paged as token transactions in all but that case |
| PagingSafety.EpochsRightExactlyWhen | internal/repository/db/epoch.go:263-304 | so are epochs, with any number as a cursor |
| PagingSafety.DelegationWalkDownVisitsAll | internal/repository/db/delegation.go:407-444 | walking down visits every delegation once, and ends exactly when all were visited |
| PagingSafety.EpochWalkDownVisitsAll | internal/repository/db/epoch.go:271-307 | walking down visits every epoch once, and ends exactly when all were visited |
| PagingSafety.UnknownCursor | internal/repository/db/delegation.go:269-287 | what a cursor of no matching row does to either loader, in both directions, whether there is such a row or not and whatever the lowest key |
| PagingSafety.UnknownCursorExample | internal/repository/db/delegation.go:269-287 | a cursor that is an error for the one loader and an empty last page for the other |
| PagingSafety.RequestsFailExactlyWhen | internal/repository/db/erc_trx.go:294-309 | exactly when a request for token transactions, delegations or epochs fails |
| PagingSafety.EmptyLists | internal/repository/db/erc_trx.go:122-137 | an empty list is its own first and last page |
| PagingSafety.DelegationWalkUpCompleteExactlyWhen | internal/repository/db/delegation.go:432-440 | a walk up is complete if and only if its first page holds the whole list; else it visits all but the lowest row |
| PagingSafety.EpochWalkUpCompleteExactlyWhen | internal/repository/db/epoch.go:295-304 | the same for epochs |
| BlockLists.BlockList.Reverse | internal/types/block_list.go:17-27 | the in-place swaps reverse the blocks |
| BlockLists.Chain.BlockByNumber | internal/repository/block.go:55-62 | a block by its 64-bit number, including the wrap below zero, or none if the read fails |
| BlockLists.Chain.InitBlockList | internal/repository/block.go:137-175 | the first block and the flags known in advance, or an error for a number above the head or a failed read |
| BlockLists.Chain.Walk | internal/repository/block.go:185-210 | the walk passes as many blocks as asked for, available and readable, listing all but the cursor |
| BlockLists.Chain.PullBlocks | internal/repository/block.go:178-224 | appends the last block reached, and sets the flags |
| BlockLists.ListedIsPulled | internal/repository/block.go:178-224 | what the walk lists is the pulled page, in the order of the walk |
| BlockLists.PulledIsPage | internal/repository/block.go:178-224 | while no read fails the pulled page is the one asked for |
| BlockLists.FailedReadMattersExactlyWhen | internal/repository/block.go:205-223 | a failed read changes the page, as if the chain ended there, if and only if it hits a block that is there and asked for |
| BlockLists.FailedReadExample | internal/repository/block.go:205-223 | a read that fails in the middle of a chain, and makes its two newest blocks the whole list |
| BlockLists.Chain.MakeBlocksList | internal/repository/block.go:251-277 | returns exactly the pulled page, whichever read fails |
| BlockLists.Chain.Blocks | internal/repository/block.go:232-248 | the recent blocks where they serve, else the pulled page; a zero count is an error |
| BlockLists.Chain.RecentBlocks | internal/repository/block.go:280-294 | the newest blocks of the ring, flagged as the start and not the end, or an error if there are none |
| BlockLists.ShortcutRightExactlyWhen | internal/repository/block.go:239-244 | the shortcut gives the page asked for if and only if the ring has the newest blocks without a gap and the page ends above block zero |
| BlockLists.ShortcutExamples | internal/repository/block.go:239-244 | a ring with a gap whose list is not that of the chain, and a whole chain whose end is not announced |
| BlockLists.WalkDownEnumerates | internal/repository/block.go:232-277 | when the first page is pulled from the node, pages down from the top enumerate the chain as it was, once each, even if it grows meanwhile, and end exactly at block zero |
| BlockLists.WalkFromRing | internal/repository/block.go:232-294 | when the first page is the ring's, the walk lists that and then each block below its last one, and ends exactly at block zero, but never with the first page |
| BlockLists.WalkFromRingEnumeratesExactlyWhen | internal/repository/block.go:232-294 | such a walk enumerates the chain down from a number if and only if the ring's part does |
| BlockLists.AnswerFailsExactlyWhen | internal/repository/block.go:232-277 | a request fails if and only if it asks for nothing, or is not served from the ring and is above the height or its first read fails |
| BlockLists.AscendFurther | internal/repository/block.go:251-277 | each page upwards lists the next blocks, and says that it is the start exactly when it reaches the height as it finds it |
| BlockLists.WalkUpEnumerates | internal/repository/block.go:251-277 | pages upwards, from the bottom or from a number, list every block above it once and in order, even if the chain grows meanwhile, until they reach its head |
| BlockLists.ListedOfFixedChain | internal/repository/block.go:251-277 | on a chain that stays as it is they list all blocks, or as many as asked for, and end exactly with all |
| Crawler.StepInv | internal/svc/net_crawler.go:63-159 | every action keeps each registered iterator in exactly one place: running, signalled, or drained |
| Crawler.RegisteredAreAccounted | internal/svc/net_crawler.go:65-66 | registered iterators are the running goroutines plus the signals queued or drained, and at most two |
| Crawler.DoneNeverBlocks | internal/svc/net_crawler.go:150 | the signal queue has room whenever a goroutine ends |
| Crawler.SignalsAreKnown | internal/svc/net_crawler.go:101-106 | signals are of registered iterators, each at most once |
| Crawler.FeedClosedAfterAll | internal/svc/net_crawler.go:69-80 | when the feed is closed no goroutine runs, no signal is queued, and one was received for every iterator |
| Crawler.ShutdownNeverHangs | internal/svc/net_crawler.go:72-75 | until the shutdown is over, something can happen |
| Crawler.ShutdownProgresses | internal/svc/net_crawler.go:72-78 | whatever happens during the shutdown leaves less to do |
| Crawler.ShutdownEnds | internal/svc/net_crawler.go:69-80 | however it is scheduled the shutdown takes at most twelve actions, and stops only with the feed closed and all goroutines ended |
| CrawlerBatches.UpdateTickRegisters | internal/svc/net_crawler.go:114-118 | after an update tick the update batch is registered: the one there was, or a fresh one that is running, all others being as they were |
| CrawlerBatches.TakeDoneUnregisters | internal/svc/net_crawler.go:101-106 | a signal received ends the registration of its iterator, and of no other |
| CrawlerBatches.NodesAreOffered | internal/svc/net_crawler.go:149-159 | a goroutine offers each node of an open iterator until the handler takes it, or the service is stopped, and goes on until the last one |
| CrawlerBatches.NextBatchCanStart | internal/svc/net_crawler.go:96-120 | from every reachable state of the handler some schedule has a new update batch running |
| CrawlerServices.NetCrawler.constructor | internal/svc/net_crawler.go:64-94 | the default batch and the first update batch are registered and running |
| CrawlerServices.NetCrawler.ScheduleUpdateBatch | internal/svc/net_crawler.go:132-146 | registers and starts a new iterator, and remembers it |
| CrawlerServices.NetCrawler.Handle | internal/svc/net_crawler.go:96-120 | one case of the handler's select |
| CrawlerServices.NetCrawler.Traverse | internal/svc/net_crawler.go:149-159 | one action of a goroutine; its signal never waits |
| CrawlerServices.NetCrawler.DrainIterators | internal/svc/net_crawler.go:72-75 | closes every iterator and receives one signal for each, while goroutines run in any order; it terminates |
| CrawlerServices.NetCrawler.Shutdown | internal/svc/net_crawler.go:69-80 | ends with the feed closed, no goroutine left, and exactly the registered iterators drained |
| CrawlerServices.NetCrawler.Execute | internal/svc/net_crawler.go:63-121 | the same after any interleaving of handler, goroutines and stop |
| Accounts.RowsCountEvents | internal/svc/dispatch_acc.go:81-121 | over any run, with evictions and failing calls: cached accounts have rows, every row was inserted once, counts the events processed and has the time of the last |
| Accounts.ProcessedExactlyWhen | internal/svc/dispatch_acc.go:81-121 | an event is processed without an error if and only if its write succeeds and the account is found, or is new and its contract could be analysed |
| Accounts.ProcessedIsCached | internal/repository/account.go:97-126 | an account is cached once an event of it was processed, the first one included |
| Accounts.CountedWhileCached | internal/repository/account.go:97-126 | from then on, until it is evicted, exactly its events whose write succeeds are counted, whether their look-ups would fail or not |
| Accounts.NewAccountIsCounted | internal/repository/account.go:119-126 | so for a new account, from its first event on |
| Accounts.CacheMattersExactlyWhen | internal/repository/account.go:97-116 | an event leaves other rows, and another result, than without the cache if and only if it is processed without a failing write for a cached account whose look-up would fail |
| Accounts.ActivityLostExactlyWhen | internal/repository/account.go:97-116 | compared with look-ups that never fail, an activity is lost if and only if the look-up fails for a registered account that fell out of the cache |
| Accounts.CacheOnlyHelps | internal/repository/cache/account.go:63-82 | over any run the same accounts are registered as without the cache and as without failing look-ups, with counters between those of the two |
| Accounts.CacheIsTransparent | internal/repository/cache/account.go:63-82 | without failing look-ups the rows are those of a register without a cache, and those of one whose look-ups never fail |
| AccountServices.Repository.AccountIsKnown | internal/repository/account.go:97-116 | an account said to be known has a row and is cached; one said to be unknown has none, if the look-up succeeds |
| AccountServices.Repository.StoreAccount | internal/repository/account.go:119-126 | an account is stored only if it has no row, and cached only if it has one |
| AccountServices.Repository.Process | internal/svc/dispatch_acc.go:81-98 | one event keeps the rows counting what was processed, itself exactly if no error is returned |
| AccountServices.Repository.Execute | internal/svc/dispatch_acc.go:48-77 | any sequence of events leaves cached accounts with rows, and rows that count the events processed |
| Liquidity.FloorIsLargest | internal/repository/rpc/uniswap.go:126-146 | a quote is the largest amount whose worth does not exceed the input's |
| Liquidity.QuoteIsOptimal | internal/graphql/resolvers/uniswap.go:143-182 | an answer is within the inputs, uses one in full, matches the ratio up to one unit, and dominates every pair of that ratio |
| Liquidity.OneSideMatches | internal/graphql/resolvers/uniswap.go:165-179 | one of the two optimal values always fits |
| Liquidity.FailsOnlyWithTheRouter | internal/graphql/resolvers/uniswap.go:148-182 | with reserves on both sides a request fails if and only if a quote it needs does |
| Liquidity.RequestFailsExactlyWhen | internal/graphql/resolvers/uniswap.go:96-182 | exactly when a request as a whole fails |
| Liquidity.AnswerWithoutReserves | internal/graphql/resolvers/uniswap.go:154-157 | on an empty pair both amounts are confirmed; with a reserve of one token only, its amount and none of the other |
| Liquidity.SwapOrder | internal/graphql/resolvers/uniswap.go:122-139 | naming the tokens in the other order swaps the answer |
| Liquidity.AnswerIsOptimal | internal/graphql/resolvers/uniswap.go:96-182 | optimality in the caller's order of tokens |
| Bits.AndMask | internal/types/transaction.go:128 | a mask of k ones keeps the remainder by 2^k |
| Bits.OrDisjoint | internal/svc/logs_uniswap.go:16 | joining words without common bits adds them |
| Bits.ShiftLeftKeeps | internal/types/erc20_trx.go:93 | a 64-bit shift drops what leaves the word |
| Bits.XorCancels | internal/types/erc20_trx.go:106-108 | mixing in a fixed word keeps values apart |
| Bytes.Put | internal/types/erc20_trx.go:81-83 | writes a number into its place in a buffer, most significant byte first, and nothing else |
| Bytes.BigEndianKeepsOrder | internal/types/erc20_trx.go:81-83 | the bytes of numbers are ordered as the numbers |
| Bytes.HexKeepsOrder | internal/types/erc20_trx.go:84 | the text of bytes is ordered as the bytes |
| Ordinals.UidValue | internal/types/transaction.go:125-132 | which bits of block, position and hash an index keeps |
| Ordinals.UidCollides | internal/types/transaction.go:125-132 | two mined transactions share an index if and only if their low bits agree, and are in the order of these otherwise |
| Ordinals.UidKeepsOrder | internal/types/transaction.go:121-132 | up to block 2^50 and position 2^14 indexes are ordered as the chain |
| Ordinals.UidSign | internal/types/transaction.go:128 | exactly when the sign bit is set |
| Ordinals.NegativeUidExample | internal/types/transaction.go:128 | a mined transaction whose index is negative |
| Ordinals.SwapValue | internal/svc/logs_uniswap.go:15-17 | which bits of block, transaction and log it keeps |
| Ordinals.SwapCollides | internal/svc/logs_uniswap.go:15-17 | two swaps share an index if and only if those bits agree, and are in the order of these otherwise |
| Ordinals.SwapKeepsOrder | internal/svc/logs_uniswap.go:15-17 | up to block 2^49, 64 transactions and 256 logs, indexes are ordered as the chain |
| Ordinals.OrdinalIndex | internal/types/erc20_trx.go:91-110 | the buffer written byte by byte holds 39 bits of time above 24 bits of salt |
| Ordinals.TimeKeptExactlyWhen | internal/types/erc20_trx.go:91-109 | all transfers of one second sort below all those of another if and only if the low 39 bits of the seconds are in that order |
| Ordinals.TimeLostExample | internal/types/erc20_trx.go:88-93 | two seconds of the documented 40 bits of which the later sorts below the earlier |
| Ordinals.TokenKeepsTime | internal/types/erc20_trx.go:91-109 | below 2^39 seconds later transfers have larger indexes |
| Ordinals.TokenCollides | internal/types/erc20_trx.go:103-108 | exactly when two transfers of a transaction share an index |
| Ordinals.TokenValue | internal/types/erc20_trx.go:91-109 | which bytes of time stamp, hash, log index and sequence number an index consists of |
| Ordinals.TransfersCollide | internal/types/erc20_trx.go:103-108 | two transfers of one second share an index if and only if their hashes, varied by log index and sequence number, agree in three bytes |
| Ordinals.TransactionsCollide | internal/types/erc20_trx.go:106-108 | in the same place of two transactions of one second they do if and only if the hashes start with the same three bytes |
| Ordinals.TokenCollisionExample | internal/types/erc20_trx.go:103-108 | two transfers of a transaction that share one |
| Ordinals.TokenDistinct | internal/types/erc20_trx.go:103-108 | with at most 256 logs, or 65536 logs and batches of 256, or within one log, all transfers of a transaction are told apart |
| Ordinals.Pk | internal/types/erc20_trx.go:79-85 | the key is the text of block, log index and sequence number in fixed widths |
| Ordinals.KeyKeepsOrder | internal/types/erc20_trx.go:79-85 | keys are equal, and ordered as texts, exactly as block, log index and sequence number |

## Left out

- Widths: block numbers, heights and counts are unbounded, except where they are shown above; a chain of 2^63 blocks and counts outside 32 bits are not modelled (list counts are clamped at internal/graphql/resolvers/root.go:159-180), and amounts fit 64 bits under the condition of `BurnTotalsSafety.AmountsFit`.
- Stopping the scanner, the orchestrator and the block dispatcher: the stop signal is modelled for the transaction fan-out and the crawler only.
- Timers, tick rates, the broadcasts of blocks and transactions with their time-outs, and logging: a tick is an event that may happen at any time, and a broadcast changes nothing.
- The content of blocks: a block is its number, and the transactions it feeds to the next queue are the arbitrary transactions of `TrxFanout.Event.Begin`.
- TrxFanout.Step: the end of the transaction dispatcher itself, which closes its queues, is no event: it may begin another transaction after a stop, as its select may, any number of times. Transactions in work are values in a sequence, each with its wait group's counter; the sharing of a wait group by pointer is not modelled. `blkObserver` may go back, as waiters finish in any order.
- The handlers of log topics, the analysis of new contracts, the check for the special fee contract, and the account types that these set in the database: only whether they fail is modelled.
- AccountServices.Repository.StoreAccount: a failed write is one that changed nothing; a write that is carried out although it reports an error is not modelled.
- BurnServices.BurnRepository.StoreFtmBurn: a write that is carried out although it reports an error is not modelled. The record pending at a stop is lost, and counted as pending in `BurnTotalsSafety.StreamToTotals`.
- Concurrent readers of the cached total: the container is read and written by atomic instructions, and by one writer.
- ListLoaders.MongoDbBridge.Erc20Transactions: decoding and connection errors of a query, and rows inserted between the queries of one request, are not modelled; a collection is a sequence of rows, a query its filter, sort and limit. The order among rows with equal keys is that of the collection.
- ListLoaders.MongoDbBridge.Epochs: the epochs' total is counted exactly, where the source estimates it. Walks over epochs are followed only where they end in the order of their numbers.
- Paging of contracts, rewards, withdrawals, transactions and swaps, which repeats these loaders.
- BlockLists.Chain.Blocks: the chain does not change within one request; what the ring of recent blocks holds is arbitrary.
- Crawler.Step: an iterator is a number with a next node or none, and a closed one has no more; the updates of network nodes in the database change nothing here.
- Liquidity.OptimalLiquidity: the exchange contracts are functions that may fail for any input; amounts are not bounded by 256 bits.
- Gas prices, rewards, validators, governance, prices in floating point, the encodings of the cache and of the database, subscriptions and configuration: decoding and forwarding.
