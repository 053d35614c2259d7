# hdfdata: verified models of its chain-following state

hdfdata follows a blockchain node and keeps derived state in step with a chain that grows, rewinds and
forks. This project models the state machines that do so, in the form the Go code has (classes whose methods
update their fields), and proves each of them against a small specification.

- **Ticket pool and stake database** (`PoolDiffs`, `DiffStore`, `TicketPools`, `StakeNodes`, `StakeDB`,
  `ChainMonitors`, `PartialRuns`, `Recovery`, and `Witnesses` for concrete
  databases). The specification is that everything held is a function of the blocks now
  connected: the stake node, the pool diffs, the live ticket cache and the pool value. The main results are
  path independence over all runs of connects, disconnects and reorganisations, and recovery after a restart.
- **Chain walking and notification** (`Ancestry`, `Notifiers`, `HandlerGroups`). CommonAncestor is proved on
  every block tree; the notifier is proved end to end with the stake database behind it, and its handler
  groups under every interleaving.
- **Bittrex order book** (`Bittrex`). The reorder buffer refines application in nonce order.
- **Caches** (`BlockGates`, `Prefetcher`, `ChartCache`, `AggregateBook`). Each must agree with what it
  speeds up.
- **Mempool inventory** (`Mempool`). The incremental handler maintains what the batch computes.

`Common` holds hashes, options and a few facts about sequences. Methods are proved against specification
functions on values; the lemmas about those functions carry the main results.

## What the environment is assumed to do

- A stake node is the list of connected blocks with the tickets that matured at each. Which tickets win and
  expire, and whether a block is accepted, are functions of that list. `StakeNodes.LotterySound` states what is
  assumed of them: an accepted block brings new, distinct maturing tickets, and only distinct live tickets win
  or expire. Disconnecting takes the last block off.
- The node RPC is, during one call, a function from hash to block, from height to main chain hash and from
  ticket to amount; it may differ between calls. Amounts of tickets do not change, though a lookup may fail
  (`PartialRuns`).
- Hashes are values of which only equality matters. Prices, quantities and amounts are integers.
- Storage is a map whose completed writes succeed. Nothing crashes in the middle of a call.

## Where the code does less than its documentation or a reader may expect

- A diff need not be free of duplicates for retreat to undo advance: equal numbers of repeats on both sides
  cancel (`PoolDiffs.RetreatUndoesAdvanceExactly`, `PoolDiffs.RepeatsCanCancel`).
- When recovery rewinds past a diff that failed its size check, Trim takes the cursor one diff below it as well,
  and the pool in memory need not be that of the cursor: `Recovery.RewoundExactly` says exactly when it is, on the
  failing diff and the one below, and two concrete runs show that the failing diff alone does not decide.
- ConnectBlock leaves the parent to the stake node and asks of the height only that it is above the tip: a block that
  skips one connects unless the stake node refuses it, and the database is then none that a rebuild gives
  (`StakeDB.ConnectSettlesExactly`, `Witnesses.SkippingBlockConnects`).
- ConnectBlock puts the block in the block cache before either is asked. A refused side chain block at or below the tip stays there
  (`StakeDB.RefusedConnectPoisonsCacheExactly`) and is taken for the maturing block later
  (`StakeDB.RefusedBlockMatures`, `Witnesses.RefusedBlockSpoilsNextOne`).
- The notifier's previous block moves on even when a handler failed, after which the database is out of step
  (`Notifiers.BlockKeepsStep`, `Notifiers.ReorgKeepsStep`, `Witnesses.RefusedBlockFallsOutOfStep`).
- ReorgHandler compares the hash of a tip that a failed switch may not have returned, and crashes
  (`ChainMonitors.SwitchEndsExactly`, `Witnesses.UnknownTipCrashesHandler`).
- AppendAndAdvancePool advances one diff from wherever the cursor is, so the cursor is at the new tip only if it was
  at the old one.
- `advance` guards with a comparison that lets it index an empty list of diffs (`TicketPools.TicketPool.Advance`);
  its callers never do so.
- WaitForHeight returns no channel when the fetch fails, yet leaves one queued.
- GetBlockData's comment says that a missed block is stored; it is not.
- QuickSticks does not look at the bin, and with "depth" hands out the chart of the order book once that is cached
  (`ChartCache.HitIsFresh`, `ChartCache.SticksRequestGetsDepth`).
- The cached chart of the aggregated order book can have exchanges that were dropped or sent an update without a
  book since (`ChartCache.AggregateHitExactly`, `ChartCache.DroppedExchangeStaysInAggregate`). One that is encoded
  afresh can lack a book that came before it was stored and returned (`ChartCache.AggregateMissExactly`,
  `ChartCache.AggregateMissesNewBook`).
- Up to 50 Bittrex updates may arrive in any order before the one after them; 51 may not, since an update that can
  be applied at once does not drain the queue (`Bittrex.Confluence`, `Bittrex.FiftyOneOverflow`).
- ParseTxns counts repeats in NumAll and can crash in the sort of votes on one without VoteInfo; TxHandler
  crashes on such a vote at once and does not move the inventory's time.
- Which of several votes on one ticket counts as likely mineable depends on their order, so incremental and
  batch amounts can differ (`Mempool.OrderFreeExactly` says exactly when).

## Model

| member | source | states |
|---|---|---|
| `ChainMonitors.PathIndependence` | stakedb/chainmonitor.go:94-149 | two orderly runs from genesis that end on the same blocks end with the same stake node, diffs and live ticket cache, namely those rebuilt from genesis along that chain. In an orderly run a new block fits and a side chain is a real one; the RPC may fail to return blocks, blocks may be refused, and rewinds and switches may stop, fail or panic anywhere |
| `ChainMonitors.RunSettles` | stakedb/stakedb.go:509-586 | every orderly run keeps the database a function of its current chain, refused blocks, unknown blocks and half-made switches included |
| `ChainMonitors.StepSettles` | stakedb/chainmonitor.go:37-50 | so does each single connect, rewind or switch |
| `ChainMonitors.SwitchSettles` | stakedb/chainmonitor.go:94-149 | a switch to a real chain of blocks leaves a settled database settled however far it gets, even when a block cannot be fetched or it panics |
| `PartialRuns.PartialRunsTrack` | stakedb/stakedb.go:612-652 | over runs in which amounts of tickets cannot be looked up at times, node and diffs are still those rebuilt from the chain, and the live cache is the rebuilt one without some tickets: the whole of it if and only if no live ticket of known amount is missing |
| `PartialRuns.StaysCompleteExactly` | stakedb/stakedb.go:612-643 | a diff leaves a complete cache complete if and only if the amount of every ticket that comes in to stay is found |
| `ChainMonitors.ReplayFromGenesis` | stakedb/stakedb.go:495-503 | fetching the current chain block by block and connecting it to an empty database succeeds and gives the same node, diffs and live cache |
| `ChainMonitors.SwitchRebuilds` | stakedb/chainmonitor.go:94-149 | switchToSideChain succeeds exactly when the stake node accepts ancestor chain plus new chain, and then the database is the one rebuilt from that chain; otherwise it reports, and is settled on, the longest accepted prefix, the next block of which is refused |
| `ChainMonitors.ConnectManyFollows` | stakedb/chainmonitor.go:127-149 | connecting linked blocks stops at the first refused one, settled on the longest accepted prefix; all connect exactly when the rebuilt chain is accepted |
| `ChainMonitors.SettledIsRebuilt` | stakedb/stakedb.go:509-586 | node, diffs, live cache and pool value of a settled database are functions of its blocks |
| `ChainMonitors.ChainMonitor.ConnectBlock` | stakedb/chainmonitor.go:37-50 | a new header connects as the value specification says; an unknown block is an error that changes nothing |
| `ChainMonitors.ChainMonitor.SwitchToSideChain` | stakedb/chainmonitor.go:94-149 | ends in the same result and database as the value specification that SwitchRebuilds is about |
| `ChainMonitors.ChainMonitor.ReorgHandler` | stakedb/chainmonitor.go:155-180 | a switch that ends short is an error; one without a tip to report crashes the handler. On a settled database, for a side chain of real blocks and an RPC that answers truthfully or not at all, it crashes exactly when MustAbort or MustCrash holds, conditions on the chain, the block cache and what the RPC knows |
| `ChainMonitors.SwitchEndsExactly` | stakedb/chainmonitor.go:94-149 | switchToSideChain fails without a tip if and only if there is no side chain or a block from the ancestor to the tip is unknown; it panics if and only if the ancestor is above the tip, or the tickets maturing with a block it reaches are not served, or the tip is unknown and not even the first block connects |
| `ChainMonitors.DisconnectManyOutcome` | stakedb/stakedb.go:679-750 | a count of disconnects goes through if and only if the RPC knows every block on the way and the block below |
| `ChainMonitors.ConnectManyEnds` | stakedb/chainmonitor.go:127-142 | connecting blocks that may be unknown, refused or without their maturing tickets leaves the database settled, panics exactly where it gets stuck, and a failure has a known tip unless not even the first block connected |
| `Witnesses.UnknownTipCrashesHandler` | stakedb/chainmonitor.go:155-180 | a settled database whose tip the RPC no longer knows: the switch fails without a tip |
| `StakeDB.ConnectSettles` | stakedb/stakedb.go:509-609 | connecting a block that extends a settled database, with its maturing tickets served, succeeds exactly when the stake node accepts it, and the result is settled on the chain that is one longer |
| `StakeDB.ConnectSettlesExactly` | stakedb/stakedb.go:509-609 | connecting any block whatsoever leaves a settled database settled if and only if the block fits: the chain's own block at or below the tip; above it, unless refused, one that extends the tip and is given the tickets maturing on this chain |
| `StakeDB.GroundedExactly` | stakedb/stakedb.go:509-609 | a link on a chain is one that a rebuild gives if and only if its block extends the chain and its tickets are those of the chain's own block |
| `Witnesses.SkippingBlockConnects` | stakedb/stakedb.go:533-543 | a block two above the tip that connects to a settled database, which is then not settled |
| `StakeDB.RefusedConnectPoisonsCacheExactly` | stakedb/stakedb.go:511-543 | a refused connect leaves the block cache in agreement with the chain if and only if the refused block is above the tip or is the chain's own block at its height |
| `StakeDB.RefusedBlockMatures` | stakedb/stakedb.go:511-555 | a refused side chain block at the maturity depth hands its tickets to the next connect as the maturing ones; the longer chain is still one that a rebuild gives if and only if they are those of the chain's own block |
| `Witnesses.RefusedBlockSpoilsNextOne` | stakedb/stakedb.go:511-555 | a settled database and two blocks after which it is not settled any more |
| `StakeDB.MaturingIsOurs` | stakedb/stakedb.go:509-519 | the tickets handed to the stake node as maturing are those of the chain's own block at the maturity depth, from the cache or from the RPC |
| `StakeDB.DisconnectSettles` | stakedb/stakedb.go:679-736 | a disconnect of a settled database, whatever the RPC answers, leaves it settled: on the parent when it succeeds, unchanged when it fails; it succeeds when the RPC knows tip and parent |
| `StakeDB.DisconnectManySettles` | stakedb/stakedb.go:739-750 | the same for any number of disconnects, with how far they get |
| `StakeDB.DisconnectTrims` | stakedb/stakedb.go:679-736 | on any database a disconnect takes off one block and trims the diffs to its parent's height, or changes nothing |
| `StakeDB.LiveShrunk` | stakedb/stakedb.go:701-706 | undoing the last diff of an accepted chain gives exactly the tickets live at the parent |
| `StakeDB.StakeDatabase.ConnectBlock` | stakedb/stakedb.go:509-609 | result and new state are those of the specification function; a connect that is done puts the block on the node and appends the diff of the maturing tickets against the old node's winners and the new node's expired; the cached pool value stays the sum of the live cache |
| `StakeDB.ConnectMeans` | stakedb/stakedb.go:509-609 | every field after a connect: the node with the block and the maturing tickets, the diff with its winners and expired, the block cache without the maturing block and with the new one, the live cache ticket by ticket |
| `StakeDB.ConnectEnds` | stakedb/stakedb.go:509-609 | a connect panics exactly when the maturing block is neither cached nor served, and is done exactly when the block is above the tip, the stake node accepts it and the diffs are level with the node; the block cache changes either way, nothing else does on a refusal |
| `StakeDB.StakeDatabase.ConnectBlockHash` | stakedb/stakedb.go:495-503 | fetch, then connect; an unknown hash fails and changes nothing |
| `StakeDB.StakeDatabase.DisconnectBlock` | stakedb/stakedb.go:671-736 | result and new state are those of the specification function; the pool value stays the sum of the live cache, even when the cache is neglected |
| `StakeDB.DisconnectMeans` | stakedb/stakedb.go:679-736 | every field after a disconnect that is done: one link and one diff off, and in the live cache the outgoing tickets of that diff back, where their amount is found, and its incoming ones gone |
| `StakeDB.DisconnectEnds` | stakedb/stakedb.go:679-700 | a disconnect fails exactly when the tip or its parent is unknown, and is done exactly when the parent found is one below; otherwise nothing changes |
| `StakeDB.StakeDatabase.DisconnectBlocks` | stakedb/stakedb.go:739-750 | the same for a count of blocks, stopping at the first failure |
| `StakeDB.StakeDatabase.ApplyDiff` | stakedb/stakedb.go:612-643 | through every branch (cached already, lookup failed, missing from the cache) the pool value moves by exactly what the sum of the live cache moves |
| `StakeDB.StakeDatabase.UndoDiff` | stakedb/stakedb.go:647-652 | likewise with the lists swapped |
| `StakeDB.StakeDatabase.Rewind` | stakedb/stakedb.go:382-397 | on success the node is at the wanted height, on a prefix of its old chain, and the ticket pool is level with it; when it must succeed |
| `StakeDB.StakeDatabase.PopulateLiveTicketCache` | stakedb/stakedb.go:333-377 | the rebuilt cache is the one the incremental updates maintain; it reports failure exactly when some lookup failed |
| `StakeDB.StakeDatabase.PoolAtHeight` | stakedb/stakedb.go:959-961 | for every height of a settled chain, wherever the cursor was, the tickets live at the stake node of that height, each once |
| `StakeNodes.CacheFollowsPool` | stakedb/stakedb.go:612-652 | with fixed ticket amounts the cache of a pool follows the pool through every diff, even where amounts are unknown |
| `StakeNodes.CacheAddSnoc` | stakedb/stakedb.go:612-643 | the three ways one incoming ticket is dealt with |
| `StakeNodes.GroundedIsRebuilt` | stakedb/stakedb.go:588-609 | a node whose blocks are linked and were given the right maturing tickets is the one rebuilt from its blocks, whatever came before |
| `StakeNodes.AcceptedIsSound` | stakedb/stakedb.go:588-609 | under the stated assumption on the ticket lottery every diff recorded for an accepted chain is well formed at its height |
| `StakeNodes.LiveExtended` | stakedb/stakedb.go:538-554 | the live tickets of the next node are (those of this one and the maturing) less the winners of this node and the expired ones of the next |
| `StakeNodes.GroundedMeans` | stakedb/stakedb.go:588-609 | each block of a grounded chain is the child of the one below, one higher, and is given the tickets of the block that is the maturity below it, or none |
| `StakeNodes.SumWith` | stakedb/stakedb.go:612-643 | adding a ticket to the cache adds its amount to the sum |
| `PoolDiffs.RetreatUndoesAdvanceExactly` | stakedb/ticketpool.go:564-628 | advance then retreat passes both size checks and restores the pool if and only if In is disjoint from the pool, Out is within pool and In, and both lists hold equally many repeats |
| `PoolDiffs.RepeatsCanCancel` | stakedb/ticketpool.go:564-582 | a concrete diff with repeats on both sides that passes every check, so freedom from duplicates is not necessary |
| `PoolDiffs.UndoRestoresExactly` | stakedb/ticketpool.go:655-676 | regardless of the size checks, undoing restores the pool if and only if nothing incoming was there and everything outgoing was |
| `PoolDiffs.TwoUndosRestoreExactly` | stakedb/ticketpool.go:612-676 | undoing two diffs restores the pool below both if and only if the lower one is restorable and names whatever the upper one leaves wrong |
| `PoolDiffs.SizeCheckExact` | stakedb/ticketpool.go:564-582 | the size check passes if and only if as many insertions as removals had no effect |
| `PoolDiffs.AddSize` | stakedb/ticketpool.go:655-676 | how far the pool grows: one per insertion less the ineffective ones |
| `PoolDiffs.RemoveSize` | stakedb/ticketpool.go:655-676 | how far it shrinks |
| `PoolDiffs.BackwardFromFold` | stakedb/ticketpool.go:642-652 | retreating over sound diffs from the fold of hi of them gives the fold of lo of them |
| `TicketPools.SoundForward` | stakedb/ticketpool.go:587-597 | on sound diffs no forward step fails and the pool is the fold reached |
| `TicketPools.SoundBackward` | stakedb/ticketpool.go:642-652 | nor does any backward step |
| `TicketPools.TicketPool.constructor` | stakedb/ticketpool.go:136-209 | the pool starts at genesis with all diffs that the disk holds |
| `TicketPools.TicketPool.Pool` | stakedb/ticketpool.go:539-559 | for any cursor and height: where the cursor ends, which diffs the pool has been moved by and exactly when it succeeds; with sound diffs it lists the fold of the first h diffs for every h from 0 to the tip |
| `TicketPools.TicketPool.Trim` | stakedb/ticketpool.go:355-378 | the last diff goes and the cursor stays within the rest even when the retreat fails, which is only logged; where exactly the cursor and the pool end, one diff further down than the removal needs unless a check fails first |
| `TicketPools.TicketPool.Append` | stakedb/ticketpool.go:482-490 | only the next height is accepted; memory and disk grow together, a stale diff on disk is overwritten |
| `TicketPools.TicketPool.AppendAndAdvancePool` | stakedb/ticketpool.go:494-505 | after the append the cursor moves by one diff from wherever it is, so to the new tip only from the old one; the pool stays the fold if the diff it moves over is well formed |
| `TicketPools.TicketPool.Advance` | stakedb/ticketpool.go:564-582 | applies the diff at the cursor, moving on even when the size check fails; with no diffs at all it indexes out of range, and only then |
| `TicketPools.TicketPool.AdvanceTo` | stakedb/ticketpool.go:587-597 | moves to the height or stops after the first failed check, with no index out of range |
| `TicketPools.TicketPool.AdvanceToTip` | stakedb/ticketpool.go:602-607 | succeeds if and only if all checks up to the tip pass; always on sound diffs |
| `TicketPools.TicketPool.Retreat` | stakedb/ticketpool.go:612-628 | undoes the diff below the cursor |
| `TicketPools.TicketPool.RetreatTo` | stakedb/ticketpool.go:642-652 | moves down to the height or stops after the first failed check |
| `TicketPools.TicketPool.ApplyDiff` | stakedb/ticketpool.go:655-676 | one ticket at a time, adds all incoming and removes all outgoing |
| `TicketPools.TicketPool.CurrentPool` | stakedb/ticketpool.go:508-527 | every live ticket once |
| `DiffStore.ByteOrderIsHeightOrder` | stakedb/ticketpool.go:396-432 | the byte order of stored keys is the order of heights |
| `DiffStore.KeyRoundTrip` | stakedb/ticketpool.go:381-393 | a height survives being written as eight big-endian bytes |
| `DiffStore.KeyOfHeight` | stakedb/ticketpool.go:286-320 | and so does a key that is read |
| `DiffStore.LoadAllPoolDiffs` | stakedb/ticketpool.go:273-327 | loads the diffs in height order if and only if the stored heights are 1 to n without a gap, and panics otherwise |
| `DiffStore.FirstIsLowest` | stakedb/ticketpool.go:286-320 | the next key in byte order is the lowest height left |
| `DiffStore.StoreKeepsDisk` | stakedb/ticketpool.go:482-490 | storing the next diff keeps the disk contiguous and in agreement with memory, whether or not a stale diff was there |
| `DiffStore.ReloadStartsWithMemory` | stakedb/ticketpool.go:273-327 | what a restart reads back begins with exactly the diffs that were in memory |
| `Recovery.NewStakeDatabase` | stakedb/stakedb.go:244-323 | on success both heights are the smaller of the two found and the pool is the fold of the diffs left. If the RPC knows the blocks to be taken back it succeeds exactly when the diffs up to the smaller height pass their checks, and with diffs that agree with the chain up to there, whichever of the two is ahead, the database is settled at that height |
| `Recovery.LoadAndRecover` | stakedb/stakedb.go:129-237 | on success stake height and pool tip are both the minimum of max(wanted, 0) and the two heights found, or just below the first diff that fails its check; the diffs left are a prefix of those loaded; the cursor and the pool in memory are given, and exactly when the pool is the fold at the cursor; it succeeds whenever the store has no gap and the RPC knows the blocks that have to go |
| `Recovery.LevelHeights` | stakedb/stakedb.go:284-312 | whichever of the two is ahead is taken back to the other; it is done if the ticket pool is ahead or the RPC knows the blocks to be taken back |
| `Recovery.AdvanceOrRewind` | stakedb/stakedb.go:225-236 | applies all diffs, or rewinds both databases to just below the first that fails, with the cursor and the pool that this leaves; it succeeds if the RPC knows the blocks that have to go |
| `Recovery.RewoundExactly` | stakedb/stakedb.go:225-236 | where a rewind past a failing diff leaves the cursor, and that the pool is the fold of the diffs below it if and only if the failing diff, or it together with the one below, can be undone |
| `Recovery.UnrestorableSurvives` | stakedb/ticketpool.go:355-370 | a failing diff that cannot be undone by itself, after which the pool is right all the same |
| `Recovery.RestorableDoesNotSurvive` | stakedb/ticketpool.go:355-370 | a failing diff that can be undone by itself, after which the pool is wrong |
| `Recovery.LevelAndRewind` | stakedb/stakedb.go:164-222 | both databases go back to the wanted height, on prefixes of what they held |
| `Recovery.NewTicketPool` | stakedb/ticketpool.go:136-209 | there is a pool if and only if the store is contiguous |
| `Ancestry.CommonAncestor` | rpcutils/rpcclient.go:376-445 | finds the highest block that is a proper ancestor of both tips, with both branches, if and only if it is at most 8192 below the taller tip; reports genesis if and only if one tip is genesis and the other less than 8192 high; too long otherwise; always ends |
| `Ancestry.BranchIsLinked` | rpcutils/rpcclient.go:367-375 | the chains returned are parent-linked from just above the ancestor to each tip |
| `Ancestry.Meet` | rpcutils/rpcclient.go:367-445 | tips above genesis always have a highest proper common ancestor |
| `Ancestry.StepDown` | rpcutils/rpcclient.go:383-442 | each round of the walk keeps both walkers on their branches and not past the meeting point |
| `Ancestry.NotMetYet` | rpcutils/rpcclient.go:435-442 | walkers that have not met are above the meeting point |
| `Notifiers.Notifier.SuperQueue` | notification/notifier.go:148-175 | over any queue of genuine messages that is survived the previous block is the one they lead to, whatever handlers reported. From being in step, the queue is survived without a handler error if and only if after each message the stake node accepts the whole branch of the block then recorded, and the stake database is then settled on exactly that branch |
| `Notifiers.Notifier.ProcessBlock` | notification/notifier.go:307-353 | a block that does not connect to the previous one reaches no handler and changes nothing; one that does is connected with the outcome of the specification function and becomes the previous one even when its handler fails |
| `Notifiers.Notifier.SignalReorg` | notification/notifier.go:392-443 | serves the reorganisation with the data of CommonAncestor and records the new head, or, when the branches cannot be found, leaves notifier and database untouched; from being in step the database is in step afterwards unless a handler reports an error |
| `Notifiers.BlockKeepsStep` | notification/notifier.go:307-353 | after a connecting block the database is still in step with the notifier if and only if the stake node accepts the block with the tickets maturing on this chain, that is, accepts the block's whole branch rebuilt from genesis |
| `Notifiers.BlockChain` | notification/notifier.go:307-353 | the branch of a block that connects to a settled chain is that chain and the block, and it is accepted from genesis exactly if the block is accepted on the chain |
| `Notifiers.ReorgKeepsStep` | notification/notifier.go:392-443 | after a reorganisation it is in step if and only if the stake node accepts the ancestor's chain with the whole new chain on top |
| `Witnesses.RefusedBlockFallsOutOfStep` | notification/notifier.go:307-353 | a stake node that refuses a genuine block, and the database that is then behind the notifier |
| `Notifiers.GenuineReorgFits` | notification/notifier.go:392-413 | the data built from CommonAncestor's result is what switchToSideChain needs, and its target is the new head's whole branch |
| `Notifiers.GenuineBlockExtends` | notification/notifier.go:307-318 | a genuine block that connects to the tip extends the settled chain, with the tickets maturing with it served, though the RPC's main chain may have moved on elsewhere |
| `Notifiers.ChainIsBranch` | rpcutils/rpcclient.go:376-445 | the settled chain is the branch of its tip in the block tree |
| `HandlerGroups.RunsAreOrderly` | notification/notifier.go:148-175 | under any interleaving of handlers every event is justified by those before it: a group starts only after all earlier groups of this and earlier messages, a block only when its parent is the recorded one, and the record moves only when all groups are through |
| `HandlerGroups.ServedExactlyOnce` | notification/notifier.go:307-443 | whenever the notifier is between messages, under any interleaving: a block whose PrevBlock was the recorded one and a reorganisation whose branches were found started each of its groups once, each handler returned once and the record moved once; the others led to no event at all; and the recorded block is the one that this leads to |
| `HandlerGroups.RunKeepsStep` | notification/notifier.go:307-353 | under any interleaving consumers that start at the recorded block are there again whenever the notifier is between messages |
| `HandlerGroups.StepKeepsInv` | notification/notifier.go:307-353 | every single step keeps the order invariant |
| `HandlerGroups.StepKeepsStep` | notification/notifier.go:392-443 | every single step keeps consumers at the recorded block or at the message's target |
| `Bittrex.Confluence` | exchanges/exchanges.go:1448-1528 | after a snapshot with nonce s, updates s+1 to s+n (n at most 50) delivered in any order and then s+n+1 give the book of in-order application and sequence number s+n+1 |
| `Bittrex.FiftyOneOverflow` | exchanges/exchanges.go:1448-1490 | an order of s+1 to s+51 and then s+52 that overflows the queue and stops at s+1, so 50 is the most |
| `Bittrex.DeliveryOrderDoesNotMatter` | exchanges/exchanges.go:1470-1490 | two such deliveries in different orders give the same book and sequence number |
| `Bittrex.NextKeepsInv` | exchanges/exchanges.go:1517-1528 | the invariant of every reachable state: the book is the snapshot with exactly the updates s+1 to orderSeq, each once, and until an overflow every delivered update is covered or queued above a gap |
| `Bittrex.SnapshotInv` | exchanges/exchanges.go:1493-1514 | it holds right after a snapshot |
| `Bittrex.AppliedAreFeed` | exchanges/exchanges.go:1470-1490 | what was applied is the feed in nonce order |
| `Bittrex.UpdateChange` | exchanges/exchanges.go:1484-1489 | an update changes the buys by its buys and the asks by its sells in that way, and no other book results from it |
| `Bittrex.AppliedChange` | exchanges/exchanges.go:1412-1431 | applying orders one by one is the only change of a side in which at each rate the last order of kind 0, 1 or 2 decides (0 and 2 by its quantity, 1 by leaving the rate out) and all other rates stay |
| `Bittrex.SideOfIs` | exchanges/exchanges.go:1435-1444 | the side of a full order book has the rates of its orders, each with the quantity of the last of them |
| `Bittrex.InsertSorts` | exchanges/exchanges.go:1448-1459 | the queue is sorted after each arrival |
| `Bittrex.BittrexExchange.ProcessNextUpdate` | exchanges/exchanges.go:1517-1528 | queued before the snapshot, processed after it; what the queue then holds, how the next update in sequence changes both sides, and the invariant kept |
| `Bittrex.BittrexExchange.ProcessFullOrderbook` | exchanges/exchanges.go:1493-1514 | the snapshot, whatever its nonce, replaces the book, queued updates are applied as far as they connect and the rest dropped; the invariant holds |
| `Bittrex.BittrexExchange.ProcessOrderbookUpdate` | exchanges/exchanges.go:1470-1490 | old updates change nothing; the next one changes the buys by its buys and the asks by its sells, at each rate as the last order of known kind says; a premature one is queued and drains the queue; the mutual recursion ends |
| `Bittrex.BittrexExchange.ProcessQueue` | exchanges/exchanges.go:1461-1467 | loses nothing, leaves nothing behind that could be applied, and so never drains again from within |
| `Bittrex.BittrexExchange.QueueOrderbookUpdate` | exchanges/exchanges.go:1448-1459 | the queue stays sorted and at most 50 long; the 51st empties it and fails the feed |
| `Bittrex.BittrexExchange.ProcessOrderbookPoint` | exchanges/exchanges.go:1412-1431 | one order on one side, with the cases that only report an error |
| `Bittrex.BittrexExchange.TranslateOrderbook` | exchanges/exchanges.go:1435-1444 | the last order at a rate counts |
| `Bittrex.BittrexExchange.Reset` | exchanges/exchanges.go:1586-1607 | a new connection forgets queue and sequence, and asks for the order book anew only if it succeeded |
| `BlockGates.PopMirrors` | rpcutils/blockgate.go:250-269 | dropping the oldest entry keeps map and queue in agreement when a key is deleted only if no entry left has it |
| `BlockGates.PopKeepsCaches` | rpcutils/blockgate.go:250-269 | so it is for both maps, with heights and hashes repeating in the queue |
| `BlockGates.PushKeepsCaches` | rpcutils/blockgate.go:212-240 | an update makes its block the most recent of its height and hash |
| `BlockGates.WindowMoves` | rpcutils/blockgate.go:250-269 | the queue is the window of the last cap updates |
| `BlockGates.CachedLast` | rpcutils/blockgate.go:133-146 | the most recent update is in both maps |
| `BlockGates.LeaveWaits` | rpcutils/blockgate.go:271-320 | every caller waiting for a key is sent its answer, and nobody a second one |
| `BlockGates.BlockGate.BestBlock` | rpcutils/blockgate.go:133-146 | with capacity at least 1 the block of the last update, and none otherwise |
| `BlockGates.BlockGate.UpdateToBlock` | rpcutils/blockgate.go:212-240 | an update caches the block, sends its hash to everybody who waited for its height and its height to everybody who waited for its hash, and leaves nobody waiting for a cached block; a failed one changes nothing |
| `BlockGates.BlockGate.GateMeans` | rpcutils/blockgate.go:102-125 | in every reachable state the caches hold just the last updates, and whoever asked for a height or hash was sent what an update brought for it or still waits in its queue, with nothing cached for it |
| `BlockGates.CachesMean` | rpcutils/blockgate.go:236-269 | a height or hash is cached exactly if one of the last updates within the capacity had it, and with what the last of those brought |
| `BlockGates.BlockGate.RotateIn` | rpcutils/blockgate.go:250-269 | queue and maps stay in agreement |
| `BlockGates.BlockGate.SignalHeight` | rpcutils/blockgate.go:297-320 | sends the matching hash once to each waiter; the panic is unreachable |
| `BlockGates.BlockGate.SignalHash` | rpcutils/blockgate.go:271-295 | likewise with heights |
| `BlockGates.BlockGate.WaitForHeight` | rpcutils/blockgate.go:324-351 | cached: answered at once; missing below the fetch limit: fetched and answered; above: queued; no channel is returned exactly for a negative height or a failed fetch, after which one stays queued |
| `BlockGates.BlockGate.WaitForHash` | rpcutils/blockgate.go:355-370 | cached: answered at once; otherwise queued |
| `BlockGates.BlockGate.HashInQueue` | rpcutils/blockgate.go:59-66 | true exactly for the hashes of the queue |
| `BlockGates.BlockGate.HeightInQueue` | rpcutils/blockgate.go:68-75 | true exactly for the heights of the queue |
| `Prefetcher.Transparency` | rpcutils/prefetcher.go:107-239 | over every interleaving of requests, retargets and fetcher steps each request for a non-zero hash is answered with the fetcher's block and header, or an error if it lacks either, and hits and misses add up to the requests |
| `Prefetcher.RequestIsTransparent` | rpcutils/prefetcher.go:107-152 | one request: answer, and which of the two counters moves |
| `Prefetcher.RetargetMeans` | rpcutils/prefetcher.go:107-150 | a request that returns a block other than the current one goes on to retarget with the fetcher's next hash for it, which goes on the channel unless a kept block has it |
| `Prefetcher.ForwardScanMissesOnce` | rpcutils/prefetcher.go:192-301 | a scan forward by NextHash with the fetcher drained in between has exactly one miss |
| `Prefetcher.VisitAhead` | rpcutils/prefetcher.go:219-239 | asking for the prefetched block is a hit and prefetches the one after it |
| `Prefetcher.StoreStaysFaithful` | rpcutils/prefetcher.go:192-239 | a prefetched block is always what the wrapped fetcher returns for its hash |
| `Prefetcher.BlockPrefetchClient.GetBlockData` | rpcutils/prefetcher.go:107-152 | answer and new state are those of the step function; a missed block is handed out but not kept |
| `Prefetcher.BlockPrefetchClient.RetargetAndUnlock` | rpcutils/prefetcher.go:281-301 | asks for the next block unless it is kept already |
| `Prefetcher.BlockPrefetchClient.RetrieveAndStoreNext` | rpcutils/prefetcher.go:219-239 | a fetched block that is not kept becomes the next one and the next one the current one; else nothing changes |
| `ChartCache.EveryAnswerIsFresh` | exchanges/bot.go:877-939 | over any interleaving of updates with the steps of any number of readers, every chart of one exchange that is handed out encodes the data of the last update that carried it; a hit on the aggregate has all books of now; an aggregate handed out on a miss has them if and only if no exchange has since brought another; and a QuickSticks hit is candlesticks exactly when the bin is not the order book's name |
| `ChartCache.RunsFromStartAreFresh` | exchanges/bot.go:684-744 | in particular from the empty cache |
| `ChartCache.HitIsFresh` | exchanges/bot.go:877-887 | a hit encodes the data of the last update that carried that token and part; a QuickSticks hit is candlesticks if and only if the bin is not "depth" |
| `ChartCache.SticksRequestGetsDepth` | exchanges/bot.go:889-900 | a run after which QuickSticks with the bin "depth" hands out the order book's chart |
| `ChartCache.AggregateHitExactly` | exchanges/bot.go:1033-1077 | a hit on the aggregated book has every book of now; it is the aggregate of now if and only if every exchange in it still has a book |
| `ChartCache.AggregateMissExactly` | exchanges/bot.go:1041-1076 | an aggregate handed out after it was encoded has all books of now if and only if no exchange that has a book now has since brought one other than the chart's |
| `ChartCache.AggregateIsOfEncoding` | exchanges/bot.go:1041-1076 | whatever happens in between, it is the aggregate, with the price, of the state in which it was encoded |
| `ChartCache.AggregateMissesNewBook` | exchanges/bot.go:1041-1076 | a run in which it is handed out without a book that an update has brought |
| `ChartCache.DroppedExchangeStaysInAggregate` | exchanges/bot.go:704-744 | a run after which a hit on the aggregate has an exchange that was dropped |
| `ChartCache.EncodedAcrossUpdateIsStale` | exchanges/bot.go:927-939 | a chart encoded across an update is stored under a passed version and not handed out in any later state of a run while it is the one stored |
| `ChartCache.UpdateKeepsInv` | exchanges/bot.go:730-744 | an update keeps versions, stored charts and history in agreement |
| `ChartCache.EndKeepsInv` | exchanges/bot.go:899-939 | so does a reader that stores under an older version |
| `ChartCache.DropKeepsInv` | exchanges/bot.go:748-791 | so does dropping outdated exchanges, which moves no version on |
| `ChartCache.PutKeepsInv` | exchanges/bot.go:1041-1076 | so does storing an aggregate encoded earlier |
| `ChartCache.UpdateMoves` | exchanges/bot.go:684-691 | an update moves on exactly the versions of what it carries and of the aggregated book |
| `ChartCache.CacheIdInjective` | exchanges/bot.go:252-254 | identifiers of different charts differ when no token, or one token and one part, holds a dash |
| `ChartCache.ExchangeBot.UpdateExchange` | exchanges/bot.go:730-744 | new versions and data are those of the step function: just the charts of the bins carried and, with an order book, of the exchange's book and the aggregate move up by one or start at 0 |
| `ChartCache.ExchangeBot.FetchFromCache` | exchanges/bot.go:877-887 | the best version is that of the chart or -1, and a stored chart is handed out exactly if it has that version |
| `ChartCache.ExchangeBot.EncodeAndStore` | exchanges/bot.go:899-939 | hands out the current candlesticks of the bin or the current order book, if there are any and they are not empty, and stores just that under the version read before; else nothing |
| `ChartCache.ExchangeBot.EncodeAggregate` | exchanges/bot.go:984-1031 | the books of all exchanges that have one, from a copy of the state |
| `ChartCache.ExchangeBot.StoreAggregate` | exchanges/bot.go:1069-1076 | stores it under the version read first |
| `ChartCache.ExchangeBot.IncrementChart` | exchanges/bot.go:684-691 | from nothing to 0, else up by one |
| `AggregateBook.ProjectionIsOwnBook` | exchanges/bot.go:944-981 | projecting a side onto an exchange gives back its own book, the last quantity at each price, and zero volumes elsewhere |
| `AggregateBook.AggregateUnique` | exchanges/bot.go:969-981 | there is one aggregate of given books, whatever the order in which maps are gone through |
| `AggregateBook.AggOrderbook` | exchanges/bot.go:984-1031 | tokens with depth in order; bids aggregated from the exchanges' bids, strictly falling, and asks from their asks, strictly rising; update times by exchange, as recent as the latest book, expiring with the oldest |
| `AggregateBook.AggregatesMean` | exchanges/bot.go:944-981 | an aggregated side has exactly the prices of the exchanges' points, in order, and at each for each exchange the quantity of its last point there, or zero |
| `AggregateBook.MapifyDepthPoints` | exchanges/bot.go:944-956 | one exchange's points join the map in its own slot |
| `AggregateBook.UnmapAgOrders` | exchanges/bot.go:969-981 | the map's points in strict price order |
| `AggregateBook.AggregateSide` | exchanges/bot.go:1005-1018 | one side built through map and sort is an aggregate of the books |
| `AggregateBook.SortedUnique` | exchanges/bot.go:969-978 | the sorted list of a set of keys is unique |
| `Mempool.IncrementalIsBatch` | mempool/monitor.go:127-335 | after a batch and any run of TxHandler the inventory equals the batch over all those transactions, in whatever order and with whatever repeats, but for the amounts of rival votes; entirely when votes on a ticket are alike |
| `Mempool.OrderDoesNotMatter` | mempool/collector.go:362-427 | counts, inventory sets, totals and voters do not depend on the order of the list; nor do the likely mineable amounts when votes on a ticket are alike |
| `Mempool.OrderFreeExactly` | mempool/collector.go:373-424 | the likely mineable amounts are the same for every order if and only if all votes on one ticket for the last block have the same amount and size |
| `Mempool.PartsAddUp` | mempool/collector.go:415-423 | LikelyMineable.Total is the sum of its four parts |
| `Mempool.MineableIs` | mempool/collector.go:362-423 | likely mineable are all but the votes and, for each ticket that voted on the last block, its first vote |
| `Mempool.ArriveIsUnique` | mempool/monitor.go:148-160 | after any run what was taken in are the distinct transactions of the batch and the eligible arrivals |
| `Mempool.UniqueEntries` | mempool/collector.go:362-412 | the distinct transactions of a list are entries of it, each entry once |
| `Mempool.NumAllExactly` | mempool/collector.go:446 | NumAll is the number of transactions in the inventory if and only if the list has no repeats |
| `Mempool.TimeLagsExactly` | mempool/collector.go:424-426 | after a batch and any run of TxHandler, which leaves the inventory's time alone, it equals that of a batch over everything if and only if no eligible arrival was newer |
| `Mempool.FollowAndCompare` | mempool/monitor.go:127-335 | ParseTxns, a run of TxHandler, and ParseTxns over everything: same summary but for rival votes, and same time exactly if nothing newer arrived; each batch crashes exactly when its distinct votes are several and one lacks its VoteInfo |
| `Mempool.MempoolMonitor.HandleAll` | mempool/monitor.go:127-335 | a run of TxHandler takes in what the specification says and leaves the time alone |
| `Mempool.ParseTxns` | mempool/collector.go:314-471 | the summary of the distinct transactions, with NumAll and time; crashes in the sort of the votes exactly when there are several distinct votes and one lacks its VoteInfo |
| `Mempool.MempoolMonitor.TxHandler` | mempool/monitor.go:127-335 | the outcome by time, decoding, inventory set and VoteInfo, and for the rest Added if and only if it is no vote or its height is at most the last block's; what one added transaction does to every count, set and total, with the five newest first; all else leaves the inventory |
| `Mempool.MempoolMonitor.Refresh` | mempool/monitor.go:357-401 | a batch replaces the inventory, with the next identifier; nothing changes when collection fails |
| `Mempool.MempoolInfo.Classify` | mempool/monitor.go:260-312 | list, set, count and likely mineable part of each kind; a vote counts once per ticket and only for the last block |
| `Mempool.MempoolInfo.Take` | mempool/monitor.go:260-335 | keeps the inventory the summary of what was taken in, and the five newest first |
| `Mempool.Include` | mempool/collector.go:362-427 | one pass of the batch loop extends the summary |
| `Mempool.SummaryJoined` | mempool/monitor.go:260-335 | one more transaction changes the summary field by field: the set and count of its kind, the totals, and, unless it is a vote on another block or a second one on its ticket, the likely mineable part |

## Left out

- The ticket lottery, header hashing and transaction parsing of the node's libraries: abstract, with the assumption stated above.
- Badger, storm, gob and ffldb internals, migration, and crashes within a call; writes are taken to succeed.
- PoolInfoCache, makePoolInfo and calcPoolInfo: the last fills the live cache without the pool value and is not called in the modelled files.
- WaitForHeight and signalWaiters of the stake database: the block gate's waiters are the harder case and are modelled.
- A disconnect that neglects the live cache leaves it to PopulateLiveTicketCache; path independence is stated for cache-keeping disconnects.
- SideChainFull, OrphanedTipLength and reverseStringSlice: single walks that CommonAncestor subsumes.
- The deadline after which the notifier goes on without a handler group; the transaction handlers, which carry no state between messages.
- HandlerGroups: the branches found for a reorganisation are a flag there, since Notifiers has them in full.
- Bittrex transport, reconnecting and the request for the order book; updates still gapped when a snapshot arrives are dropped, as in the code, so no loss is stated from the snapshot on.
- Stats and candlesticks derived from the books, and the fetching of prices.
- Prefetcher.Transparency: hits are counted as part of the request's step although the code increments outside the mutex, and a retarget blocks while the channel is full; no absence of deadlock is claimed.
- Sends to waiting callers happen at once instead of in goroutines of their own.
- ChartCache.EveryAnswerIsFresh: expiration times and the JSON encoding are left out; the aggregate is stored outside of any lock in the code, which the model takes as one step.
- AggregateBook.AggOrderbook: tokens go by their alphabetical rank.
- Mempool.ParseTxns: the order of each list, SetTicketIndex and Tally are left out; sizes and counts do not wrap around at 32 and 16 bits.
- Mempool.MempoolMonitor.TxHandler: the address maps, fees, and the signals sent to subscribers are left out, and the last block is read once per call. A crash ends the program, while a run of the model goes on with the inventory unchanged.
- HTTP, websocket, JSON, templates, configuration, logging, the PostgreSQL data layer, floating-point estimates and subsidy totals.
