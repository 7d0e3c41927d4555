# Verified model of the stateful cores of an Ethereum node

This project models, in Dafny, the parts of the node whose correctness depends on invariants that
many functions have to keep together, and proves these invariants:

- **Transaction pool** (`Heaps`, `Transactions`, `TxSortedMaps`, `TxLists`, `TxPriced`, `TxNoncers`,
  `PoolContent`, `PoolTotals`, `QueueCuts`, `PoolSteps`, `PoolSifts`, `PoolRooms`, `PoolAdds`,
  `PoolPlans`, `PoolReorgs`, `TxPools`). The lookup of all transactions, the pending and queued lists of every account,
  the lazily cleaned price heap, the virtual nonces and the heartbeats stay in agreement over any sequence
  of additions, removals, promotions, demotions, truncations, reinjections after a reorganisation, price
  changes and evictions. A transaction is taken in exactly under the stated conditions, and every refusal
  has its reason. Truncation of the pending lists is max-min fair, truncation of the queues is exact,
  nothing remote is ever below the price threshold, and after a reset every pending list starts at the
  nonce of its account and each of its transactions by itself is affordable.
- **Chains** (`Blocks`, `ChainTree`, `HeaderChains`, `HeaderQueries`, `TxIndex`, `BlockChains`). The
  number-to-hash index is the parent path of the head over any sequence of header writes and rewinds,
  the head has the greatest total difficulty, ancestor lookups are parent walks, a header query is
  answered exactly as it describes, and a reorganisation leaves the transaction index of the new chain.
- **Section indexer** (`ChainIndexers`). A state machine in which head events, reorganisations, queries,
  checkpoints and arbitrary changes of the canonical hashes come between any two blocks of a section that
  is being processed. The section heads stay linked, and the last one is verified; that all are right
  then depends exactly on whether the canonical hashes are linked.
- **Event feed** (`Feeds`). Whoever is slow or fast, unsubscribes or subscribes meanwhile, everybody who
  was there and stays gets a value exactly once, and nobody else gets it.
- **Gas and ether** (`Gas`, `GasLimits`). Conservation of gas and ether over whole blocks, and the
  adjustment of the gas limit over whole sequences of blocks.
- **Derivation paths** (`HdPaths`). Reading undoes printing.

`dafny verify dfyconfig.toml` checks the whole project.

## How the model is built

- Objects that the source updates in place are classes with `modifies` clauses; loops are loops. Maps
  and slices are fields of type `map` and `seq`. A heap is a sequence in heap order, and the operations
  of container/heap are part of the model.
- Hashes are injective: a hash is the value it was computed from. So a chain of parent hashes is finite,
  and a header stands for its block.
- Integers are unbounded except where the source's width matters: nonces, gas and the arithmetic of
  header queries and gas limits wrap around or are checked as in the source. Block numbers and total
  difficulties do not wrap.
- A database batch takes effect when it is written; reads before that see the old content.
- Random tie-breaks, the order of map iteration, which channel is ready and when a backend fails are
  open. The virtual machine is any function that returns no more gas than it got and neither makes nor
  burns ether.
- Heartbeats are numbers on a clock that is passed in.

## What the proofs found

- `reorg` deletes the canonical numbers above the block that is the head at that moment. If the new
  branch has a single block, that still is the old head, and the numbers of a longer old branch stay.
  `FinalCanon` gives the exact condition for the index to be right, `StaleNumberLeft` an instance.
- Because of such stale numbers the section indexer may report a wrong section: it looks at the last
  section only. `AllCorrect` and `VerifyLastHead` give the exact condition, `CoherentIndex` the case in
  which it holds, `StaleSectionLeft` an instance.
- After `SetHead` a side branch may be heavier than the new head. None is exactly if no header off the
  canonical chain, up to the number, weighs more than the canonical header there (`SetHead`);
  `HeavierLeftBehind` is an instance.
- A full pool need not free the slots that a new transaction takes. With local accounts `Discard` asks for
  no more slots than there are remote entries, and an entry that is in the heap twice counts twice
  (`CountsTransactions`, `CountsTwice`). `EnoughExactly` says when enough is dropped, `RoomMade` gives a
  simple case. The capacity that `Discard` allocates for what it saves is negative if there are no local
  accounts and fewer entries than slots to free (`SaveFits`); Go does not allow that, the model goes on.
- Demotion looks for a gap at the front of a pending list only. What it leaves has no gap exactly if there
  was none between the account's nonce and the first transaction that is too costly (`DemotedGapFree`);
  `GapStays` is an instance.
- A section that is finished after a checkpoint beyond it was set takes the number of stored sections back
  (`UpdateFinish`).
- The bound on the change of the gas limit holds from 5 * 1024 on and fails for every smaller limit from
  the minimum of 5000 on (`BoundedExactly`). From a limit of at least 2048 the target range is reached for
  certain exactly if its ceiling is at least 2047 (`ConvergesExactly`). The comment on `CalcGasLimit` says
  that the limit stays when use is right at two thirds; it rises by one then (`TwoThirds`), and stays exactly
  if the two 1024ths it compares differ by one (`StaysExactly`).
- The empty derivation path prints as "m", which is not accepted back (`RoundTrip`).
- The comment on `truncateQueue` says that the oldest transactions go. The code takes the accounts with
  the latest heartbeats first, and from the last one its highest nonces; the model follows the code.

## Model

| member | source | states |
|---|---|---|
| `Heaps.RootIsLeast` | core/tx_list.go:416-426 | in a heap no element ranks below the root |
| `Heaps.Push` | core/tx_list.go:428-430 | adds one element and keeps the heap order |
| `Heaps.Pop` | core/tx_list.go:432-438 | takes out the root, keeps the heap order and everything else |
| `Heaps.Remove` | core/tx_list.go:168-185 | takes out the element at a position, keeps the heap order and everything else |
| `Heaps.Init` | core/tx_list.go:114-121 | turns any sequence into a heap of the same elements |
| `TxSortedMaps.Sort` | core/tx_list.go:216-226 | a sorted permutation of the input |
| `TxSortedMaps.TxSortedMap.Put` | core/tx_list.go:73-79 | map update; the index stays a heap of exactly the keys, the cache is dropped |
| `TxSortedMaps.TxSortedMap.Forward` | core/tx_list.go:84-98 | keeps the nonces from the threshold on, returns the others in nonce order, keeps a cached listing right |
| `TxSortedMaps.TxSortedMap.FilterOut` | core/tx_list.go:125-139 | keeps what the filter does not match and returns exactly the rest |
| `TxSortedMaps.TxSortedMap.Reheap` | core/tx_list.go:114-121 | rebuilds the index as a heap of exactly the keys |
| `TxSortedMaps.TxSortedMap.Filter` | core/tx_list.go:105-112 | refines filtering of the plain map; index and cache stay right |
| `TxSortedMaps.TxSortedMap.Cap` | core/tx_list.go:143-164 | keeps the lowest nonces up to the limit, returns the others from the highest down |
| `TxSortedMaps.TxSortedMap.Remove` | core/tx_list.go:168-185 | removes one nonce from map, index and cache; tells whether it was there |
| `TxSortedMaps.TxSortedMap.Ready` | core/tx_list.go:194-209 | takes the maximal run of consecutive nonces from the lowest one if that is not above the start, else nothing |
| `TxSortedMaps.TxSortedMap.Flatten` | core/tx_list.go:216-237 | the nonce-sorted content, cached |
| `TxSortedMaps.TxSortedMap.LastElement` | core/tx_list.go:241-244 | the transaction with the highest nonce |
| `TxSortedMaps.TakeRun` | core/tx_list.go:194-209 | the loop of Ready collects exactly the run of consecutive nonces |
| `TxSortedMaps.RunTaken` | core/tx_list.go:194-209 | where the loop stops, the run is maximal |
| `Transactions.LowestCount` | core/tx_list.go:143-164 | a nonce is among the lowest k exactly if fewer than k are below it |
| `Transactions.SlotsExactly` | core/tx_pool.go:1602-1604 | as many slots of 32768 bytes as the size needs |
| `TxLists.CapsCover` | core/tx_list.go:322-327 | cached caps within the limits mean that a full scan would drop nothing |
| `TxLists.FullScanValid` | core/tx_list.go:322-351 | a scan leaves caps that bound everything that is held |
| `TxLists.StaysGapFree` | core/tx_list.go:309-373 | a gap-free strict list stays gap-free under Forward, Cap, Remove and Filter |
| `TxLists.OutbidsExactly` | core/tx_list.go:283-294 | a replacement costs more, and at least the bump in percent more, rounded down |
| `TxLists.TxList.Add` | core/tx_list.go:279-304 | accepts a transaction exactly if its nonce is free or it costs more than the holder and at least the bump in percent more; raises the caps |
| `TxLists.TxList.Forward` | core/tx_list.go:309-311 | drops nonces below the threshold and returns them in order |
| `TxLists.TxList.Filter` | core/tx_list.go:322-351 | with its short circuit returns what a full scan returns: all that is too costly and, in a strict list, exactly the survivors above the lowest of these |
| `TxLists.TxList.Cap` | core/tx_list.go:355-357 | keeps the lowest nonces up to the limit |
| `TxLists.TxList.Remove` | core/tx_list.go:362-373 | removes a nonce; a strict list also loses, and returns, exactly what is above it |
| `TxLists.TxList.Ready` | core/tx_list.go:382-384 | takes the ready run off the list |
| `TxLists.TxList.Flatten` | core/tx_list.go:399-401 | the nonce-sorted content |
| `TxLists.TxList.LastElement` | core/tx_list.go:405-407 | the transaction with the highest nonce |
| `TxPriced.TxLookup.Add` | core/tx_pool.go:1580-1588 | adds a transaction; the slot count stays the sum over all transactions exactly if it is new |
| `TxPriced.TxLookup.Remove` | core/tx_pool.go:1591-1599 | removes a hash; the slot count stays the sum over all transactions |
| `TxPriced.SlotsCount` | core/tx_pool.go:1602-1604 | a pool has at least as many slots as transactions |
| `TxPriced.PriceOrder` | core/tx_list.go:416-426 | the price order is a strict weak order |
| `TxPriced.RankExactly` | core/tx_list.go:416-426 | a cheaper transaction ranks first, and at equal price the one with the higher nonce |
| `TxPriced.TxPricedList.Put` | core/tx_list.go:457-459 | one more entry in the heap |
| `TxPriced.TxPricedList.Removed` | core/tx_list.go:464-479 | counts stale entries; past a quarter the heap is rebuilt from exactly the pooled transactions |
| `TxPriced.TxPricedList.Cap` | core/tx_list.go:483-510 | returns only pooled remote transactions below the threshold, leaves none of them, loses nothing but stale entries |
| `TxPriced.TxPricedList.Underpriced` | core/tx_list.go:514-536 | true exactly if the transaction is remote, the pool is not empty and nothing in it is cheaper |
| `TxPriced.TxPricedList.Discard` | core/tx_list.go:540-584 | never returns a local transaction; what is returned, and in which order, is cheaper than what is kept, or as cheap with no lower nonce; stops at the first that makes enough room |
| `TxPriced.CapHeap` | core/tx_list.go:483-510 | the loop of Cap splits the heap into kept, dropped and stale entries |
| `TxPriced.DiscardHeap` | core/tx_list.go:540-584 | the loop of Discard splits the heap into kept, dropped and stale entries |
| `TxPriced.SaveFits` | core/tx_list.go:562-563 | the capacity for saved entries is not negative exactly if there are local accounts or at least as many entries as slots |
| `TxPriced.SkimDead` | core/tx_list.go:519-528 | stale entries leave the top of the heap until a pooled one is there; the heap still covers the pool |
| `TxNoncers.TxNoncer.Get` | core/tx_noncer.go:45-55 | the nonce of an account; filling the cache changes nobody's nonce |
| `TxNoncers.TxNoncer.Set` | core/tx_noncer.go:59-64 | sets one nonce and no other |
| `TxNoncers.TxNoncer.SetIfLower` | core/tx_noncer.go:68-79 | the lower of the old and the given nonce for one account, all others unchanged |
| `PoolContent.JoinQueue` | core/tx_pool.go:649-679 | a transaction that enters a queue, in place of the one with its nonce, keeps lookup and lists in agreement |
| `PoolContent.JoinPending` | core/tx_pool.go:697-732 | likewise for a pending list |
| `PoolContent.RemovePending` | core/tx_pool.go:897-914 | taking a pending transaction out leaves exactly the ones above it in flight |
| `PoolContent.RemoveQueued` | core/tx_pool.go:915-925 | taking out a known transaction that is not pending hits the queued one it means |
| `PoolContent.ForgetEmpty` | core/tx_pool.go:900-903 | dropping an empty list loses nothing |
| `PoolTotals.Count` | core/tx_pool.go:1254-1257 | the total number of listed transactions |
| `PoolTotals.CutLevel` | core/tx_pool.go:1283-1305 | raising the cap by one keeps one more transaction for each account that is longer |
| `PoolTotals.FairOvershoot` | core/tx_pool.go:1253-1335 | a fair cut overshoots the limit by less than the number of accounts it shortens |
| `PoolTotals.FairHighest` | core/tx_pool.go:1253-1335 | no cap above that of a fair cut is within the limit |
| `QueueCuts.NextTrimming` | core/tx_pool.go:1357-1379 | one account of truncateQueue, dropped whole or in part, keeps the account of what is gone and in which order |
| `QueueCuts.EndTrimming` | core/tx_pool.go:1338-1380 | when the loop ends exactly the overflow is gone, or all that is not local |
| `PoolSteps.PromotionSplits` | core/tx_pool.go:1197-1240 | every queued transaction is dropped, promoted, kept or capped, never two of these, and dropped for the stated reason only |
| `PoolSteps.DemotionSplits` | core/tx_pool.go:1387-1431 | every pending transaction is dropped, kept or queued again; it is kept only above the account nonce, and below everything dropped |
| `PoolSteps.DroppedCheap` | core/tx_pool.go:424-426 | what Cap leaves of a covering heap covers the pool without the dropped ones, which are exactly the cheap remote ones |
| `PoolSteps.Reinjection` | core/tx_pool.go:1110-1158 | finds the fork point of two heads exactly if there is one, and the transactions of the old branch that the new one lacks |
| `PoolSteps.Following` | core/tx_pool.go:1072-1076 | every virtual nonce is the one after the highest pending nonce; accounts without one keep theirs |
| `PoolSteps.PopMax` | core/tx_pool.go:1263-1276 | an account with the longest list |
| `PoolSifts.SiftStep` | core/tx_pool.go:881-926 | one more transaction leaves the pool: an account without a set of transactions becomes the account without one more |
| `PoolSifts.SiftPending` | core/tx_pool.go:897-914 | taking a pending transaction out strands exactly what was above it |
| `PoolSifts.SiftQueued` | core/tx_pool.go:915-925 | taking a queued transaction out changes no pending list, even if it was pending before |
| `PoolRooms.DroppedWorst` | core/tx_list.go:540-584 | what Discard leaves of a covering heap covers the rest of the pool; what it drops is remote, the worst first, none worse stays, and it is no more than the wanted slots need, which are freed or nothing remote is left |
| `PoolRooms.NoneWorseStays` | core/tx_pool.go:592-598 | what is evicted is cheaper than any remote transaction that stays, or as cheap with no lower nonce |
| `PoolRooms.NoneStranded` | core/tx_pool.go:592-598 | nothing is evicted while a transaction of its sender with a higher nonce and no higher price stays |
| `PoolRooms.NoneTooMany` | core/tx_list.go:565-579 | the slots counted before the last eviction are fewer than those asked for |
| `PoolRooms.FreedOnce` | core/tx_list.go:565-579 | the slots really freed are at most those counted, and as many if nothing is dropped twice |
| `PoolRooms.RoomMade` | core/tx_pool.go:592-598 | the slots are freed or nothing remote is left, if no remote transaction is in the heap twice and there are no local accounts or at least as many remote entries as slots |
| `PoolRooms.SparedShort` | core/tx_list.go:540-584 | a remote transaction before which the entries suffice to stop, but not the slots, shows that too little is dropped |
| `PoolRooms.EnoughExactly` | core/tx_list.go:540-584 | where no two remote transactions rank the same, enough is dropped if and only if there is none such |
| `PoolRooms.CountsTransactions` | core/tx_list.go:542-558 | an instance: with a local account, of two remote transactions of four slots only one goes to free five |
| `PoolRooms.CountsTwice` | core/tx_list.go:565-579 | an instance: a transaction that is in the heap twice is counted twice |
| `PoolAdds.HolderLeft` | core/tx_pool.go:592-601 | making room leaves a nonce to its holder, in whichever list, unless the holder is dropped |
| `PoolAdds.AcceptableExactly` | core/tx_pool.go:519-561 | the checks in terms of the fields of the transaction |
| `PoolAdds.AdmittedExactly` | core/tx_pool.go:570-592 | a full pool has as many transactions as both limits together, and lets in only what is local or dearer than something in it |
| `PoolAdds.DroppedExactly` | core/tx_pool.go:583-598 | only a full pool drops something: nothing of a local sender, the cheapest first and at equal price the highest nonce, and not more than the missing slots need |
| `PoolAdds.TakenExactly` | core/tx_pool.go:570-644 | in terms of the fields of the transaction: taken in if and only if it is new, fits all limits, is paid for, is local or dearer than something in a full pool, and costs enough more than the holder of its nonce unless that was dropped; refused without eviction it leaves everything as it was |
| `PoolReorgs.DemotedAnchored` | core/tx_pool.go:1387-1431 | what demotion leaves pending starts at the account nonce, and each transaction by itself is affordable |
| `PoolPlans.DemotionLeaves` | core/tx_pool.go:1387-1427 | if the account nonce is there, demotion leaves exactly what is from it on up to the first transaction that is too costly; else nothing |
| `PoolPlans.DemotionExactly` | core/tx_pool.go:1387-1427 | which pending nonces stay and which are queued again, in terms of the list before |
| `PoolPlans.TakesReady` | core/tx_list.go:194-209 | what Ready takes is exactly the unbroken run of usable nonces from the lowest, if that is not above the virtual nonce |
| `PoolPlans.PromotionExactly` | core/tx_pool.go:1193-1240 | a queued nonce is promoted exactly if all nonces from the lowest usable one up to it are usable and that one is not above the virtual nonce; of the other usable ones exactly the lowest stay, as many as the cap allows |
| `PoolPlans.PlannedExactly` | core/tx_pool.go:1187-1248 | so both lists and the virtual nonce follow from the lists, nonces and funds before |
| `PoolReorgs.DemotedGapFree` | core/tx_pool.go:1387-1427 | what demotion leaves is gap-free if and only if there was no gap between the account nonce and the first transaction that is too costly |
| `PoolReorgs.GapStays` | core/tx_pool.go:1416-1427 | an instance: nonces 3 and 5 stay pending for an account at 3 |
| `PoolReorgs.CutAnchored` | core/tx_pool.go:1286-1303 | cutting off the highest nonces leaves a list that starts at the account nonce and is affordable one by one |
| `PoolReorgs.LimitedAnchored` | core/tx_pool.go:1253-1335 | so does truncation for all pending lists |
| `TxPools.TxPool.PromoteAndDemote` | core/tx_pool.go:1058-1067 | promotion of the given accounts, then demotion of all after a reset, after which every pending list starts at the account nonce and each transaction by itself is affordable |
| `TxPools.TxPool.constructor` | core/tx_pool.go:257-309 | a fresh pool is valid and empty |
| `TxPools.TxPool.EnqueueTx` | core/tx_pool.go:649-679 | queues a transaction, in place of one it outbids, or changes nothing; keeps all structures in agreement and the heap covering |
| `TxPools.TxPool.PromoteTx` | core/tx_pool.go:697-732 | moves a transaction into the pending list or drops it; virtual nonce and heartbeat follow |
| `TxPools.TxPool.Requeue` | core/tx_pool.go:904-907 | transactions taken off a pending list all arrive in the queue; none replaces another or gets lost |
| `TxPools.TxPool.PromoteAll` | core/tx_pool.go:1213-1220 | ready transactions all arrive in the pending list, in order; none is lost |
| `TxPools.TxPool.RemoveTx` | core/tx_pool.go:881-926 | removes the intended transaction and no other; everything pending above it is queued, the virtual nonce falls to it |
| `TxPools.TxPool.RemovePendingTx` | core/tx_pool.go:897-914 | the pending case |
| `TxPools.TxPool.RemoveQueuedTx` | core/tx_pool.go:915-925 | the queued case, with the list and heartbeat going when it was the last |
| `TxPools.TxPool.PromoteAccount` | core/tx_pool.go:1193-1245 | one account: exactly its ready transactions become pending, exactly the lowest others stay queued, the virtual nonce is the one after the last ready |
| `TxPools.TxPool.PromoteExecutables` | core/tx_pool.go:1187-1248 | the same for every account asked for; no other account changes, and all promoted transactions are reported in order |
| `TxPools.TxPool.DemoteAccount` | core/tx_pool.go:1387-1431 | one account ends up with what the new state leaves it |
| `TxPools.TxPool.DemoteUnexecutables` | core/tx_pool.go:1385-1433 | for every account: what is not used up and affordable stays pending up to the first that is not affordable, if the account nonce is there, and is queued otherwise |
| `TxPools.TxPool.DropLast` | core/tx_pool.go:1286-1303 | an offender loses its last transaction; its virtual nonce falls accordingly |
| `TxPools.TxPool.Round` | core/tx_pool.go:1285-1304 | each of several offenders loses exactly its last transaction |
| `TxPools.TxPool.Equalize` | core/tx_pool.go:1283-1305 | offenders are cut evenly down to a floor or until the total is within the limit |
| `TxPools.TxPool.NextOffender` | core/tx_pool.go:1273-1307 | the next longest list joins the offenders, which are cut down to it |
| `TxPools.TxPool.TruncatePending` | core/tx_pool.go:1253-1335 | max-min fair: some cap of at least the account slots cuts every remote account to its lowest nonces, local ones are untouched, and the total is within the limit or the cap is the account slots |
| `TxPools.TxPool.DropQueue` | core/tx_pool.go:1363-1371 | a whole queued list goes, and nothing else |
| `TxPools.TxPool.TrimQueue` | core/tx_pool.go:1372-1378 | a queued list loses exactly its highest nonces |
| `TxPools.TxPool.TruncateQueue` | core/tx_pool.go:1338-1380 | exactly the overflow goes, or all that is not local; latest heartbeats first, at most one list in part and there the highest nonces; pending lists and nonces are untouched |
| `TxPools.TxPool.Evict` | core/tx_pool.go:356-373 | exactly the remote queues without a heartbeat within the lifetime go |
| `TxPools.TxPool.RemoveDropped` | core/tx_pool.go:594-598 | whatever order they come in, what is pending above one of them is queued, all else stays where it is, and virtual nonces fall to the lowest that went; the price heap is untouched |
| `TxPools.TxPool.SetGasPrice` | core/tx_pool.go:419-428 | exactly the transactions of remote senders below the new threshold leave the pool; what was pending above them is queued |
| `TxPools.TxPool.Validate` | core/tx_pool.go:519-561 | no error if and only if all conditions hold; else the error of the first check that fails |
| `TxPools.TxPool.IsUnderpriced` | core/tx_pool.go:586-591 | true exactly for a remote transaction no dearer than anything in a non-empty pool |
| `TxPools.TxPool.MakeRoom` | core/tx_pool.go:592-598 | drops remote transactions for the slots that are missing, the worst first, no more than the wanted slots need; what was pending above is queued |
| `TxPools.TxPool.Admit` | core/tx_pool.go:583-598 | a full pool makes room for a checked transaction unless that is remote and no dearer than anything in it; else nothing changes |
| `TxPools.TxPool.ReplacePending` | core/tx_pool.go:603-628 | replaces a pending transaction exactly if it is outbid |
| `TxPools.TxPool.AddQueued` | core/tx_pool.go:630-643 | queues a new transaction; a local one makes its sender local |
| `TxPools.TxPool.Insert` | core/tx_pool.go:601-643 | the transaction enters the pending list if its nonce is pending, else the queue, in place of the holder of its nonce, exactly if it outbids that; else nothing changes and the error says so |
| `TxPools.TxPool.Add` | core/tx_pool.go:570-644 | taken in if and only if the fields of the transaction and the pool before allow it; else known, the first failed check, underpriced or underbid; what is evicted, in which order, how much, and where it goes |
| `TxPools.TxPool.AddTxsLocked` | core/tx_pool.go:831-843 | every transaction of the batch is taken in or refused in turn exactly as by add; dirty accounts are exactly the senders of accepted ones that replaced nothing; remote additions make nobody local |
| `TxPools.TxPool.Reset` | core/tx_pool.go:1098-1182 | moves to the new head exactly if its state is there and the branches can be followed to where they meet; if the heads are not parent and child and at most 64 apart, exactly the transactions of the old branch that the new one lacks go through add, under the new state and the old fork rules; otherwise none, or nothing changes |
| `TxPools.TxPool.SiblingReset` | core/tx_pool.go:1102-1158 | an instance: a transaction of the old one of two siblings that the new one lacks is reinjected |
| `PoolSteps.ReinjectExactly` | core/tx_pool.go:1102-1158 | a transaction is reinjected exactly if a block of the old branch above the fork point has it and no block of the new one |
| `TxPools.TxPool.Truncate` | core/tx_pool.go:1068-1070 | the fair cut and then the exact trim; both limits hold afterwards, as far as they may be enforced |
| `TxPools.TxPool.RunReorg` | core/tx_pool.go:1031-1077 | reset, promotion, demotion of all after a reset, fair cut and queue trim, each as specified nonce by nonce and in this order; in the end both limits hold, every virtual nonce is the one after the highest pending nonce, and after a reset every pending list starts at the account nonce and is affordable one by one |
| `TxPools.TxPool.Step` | core/tx_pool.go:314-386 | every step of the pool keeps it valid |
| `TxPools.TxPool.Run` | core/tx_pool.go:314-386 | any sequence of steps keeps the pool valid |
| `TxPools.TxPool.Promises` | core/tx_pool.go:1530-1604 | in a valid pool the lookup is the disjoint union of all lists, no nonce is taken twice, slots are the sum, no list is empty, the price heap covers the pool, nothing remote is below the threshold |
| `Blocks.WalkOne` | core/tx_pool.go:1132-1138 | one step down from the higher of two blocks keeps every meeting point in reach, or there is none |
| `Blocks.Disjoint` | core/blockchain.go:2120-2144 | above the fork point two branches have no block in common |
| `Blocks.TxDifference` | core/types/transaction.go:292-307 | the transactions of one list that are not in another, in order |
| `Blocks.InDifference` | core/types/transaction.go:292-307 | membership in the difference |
| `ChainTree.SamePath` | core/headerchain.go:193-205 | below a common block two paths are the same |
| `ChainTree.GenesisFirst` | core/headerchain.go:101-104 | no stored block is the parent of the genesis |
| `HeaderChains.HeaderChain.constructor` | core/headerchain.go:79-116 | a chain with only the genesis is valid |
| `HeaderChains.HeaderChain.GetTd` | core/headerchain.go:401-413 | the total difficulty of a stored header, exactly if the number is right or it is cached |
| `HeaderChains.HeaderChain.GetHeader` | core/headerchain.go:427-439 | a stored header, exactly if the number is right or it is cached |
| `HeaderChains.HeaderChain.HasHeader` | core/headerchain.go:454-459 | true exactly for stored headers asked for under their number or cached |
| `HeaderChains.HeaderChain.Overwrite` | core/headerchain.go:193-205 | the walk down from the new head ends, and makes the index its path |
| `HeaderChains.HeaderChain.Reroute` | core/headerchain.go:178-215 | the number index becomes exactly the path to the new head |
| `HeaderChains.HeaderChain.WriteHeader` | core/headerchain.go:141-225 | the tree grows by the header if its parent is known; it becomes the head exactly if it is heavier, or as heavy with a lower number, or as heavy with the same number and the coin; index, weights, caches and the greatest weight of the head are kept |
| `HeaderChains.HeaderChain.InsertHeaderChain` | core/headerchain.go:293-334 | all headers of a linked chain are stored; an unknown ancestor can only turn up at the first one, before anything is written |
| `HeaderChains.HeaderChain.SetHead` | core/headerchain.go:503-580 | nothing above the number is left on any fork, everything up to it is unchanged, the canonical header there is the head; and that is the heaviest if and only if no header off the canonical chain up to the number weighs more |
| `HeaderChains.HeaderChain.GetHeaderByNumber` | core/headerchain.go:463-469 | the ancestor of the head at that number |
| `HeaderChains.HeaderChain.GetAncestor` | core/headerchain.go:364-397 | the ancestor by walking parents, exactly if there is one and leaving the side branch is within the allowance; and what is left of the allowance |
| `HeaderChains.Leftovers` | core/headerchain.go:543-551 | all numbers in use above a number are found before the first gap |
| `HeaderChains.WipeLevel` | core/headerchain.go:543-570 | after a round exactly what is at or above the number is marked for deletion |
| `HeaderChains.Rewound` | core/headerchain.go:572-579 | what is left is a tree with right weights, and its index is the path to the new head |
| `HeaderChains.SideDecides` | core/headerchain.go:503-580 | up to a canonical header only the headers off the canonical chain can weigh more |
| `HeaderChains.RunHeaders` | core/headerchain.go:141-225 | any sequence of writes and rewinds keeps the chain valid, writes alone keep the heaviest head |
| `HeaderChains.HeavierLeftBehind` | core/headerchain.go:503-580 | an instance where a rewind leaves a heavier header than the head |
| `HeaderQueries.OffCanonUp` | core/headerchain.go:376-396 | going up, the way to the canonical chain gets shorter by one until it is reached |
| `HeaderQueries.UpByHash` | eth/handler.go:438-446 | the next header towards the genesis, or that there is none within the allowance |
| `HeaderQueries.DownByHash` | eth/handler.go:447-469 | the next header towards the leaf, exactly if the origin is canonical and the number does not overflow |
| `HeaderQueries.GetBlockHeaders` | eth/handler.go:404-482 | the answer is exactly the described headers, up to 192, the amount asked for or the first that is not there |
| `HeaderQueries.GenerationsApart` | eth/handler.go:438-469 | by hash, consecutive headers are exactly skip + 1 generations apart on one chain |
| `HeaderQueries.NumbersApart` | eth/handler.go:470-481 | by number, the first header is the canonical one at the origin and numbers are exactly skip + 1 apart |
| `HeaderQueries.BackwardExactly` | eth/handler.go:438-446 | by hash and in reverse, which ancestor header i is, and when the allowance of 100 side headers ends the answer |
| `TxIndex.IndexBranch` | core/blockchain.go:712-717 | the index of a chain agrees with that of an ancestor but for the transactions since |
| `TxIndex.IndexExactly` | core/blockchain.go:712-717 | the index has exactly the transactions of the chain, each with the number of the last block that has it |
| `TxIndex.NotBelow` | core/blockchain.go:2173-2178 | a transaction of a branch is not on the chain below it |
| `BlockChains.FindFork` | core/blockchain.go:2099-2144 | both branches down to the fork point, exactly if there is one |
| `BlockChains.TreeMeets` | core/blockchain.go:2099-2144 | any two stored blocks meet |
| `BlockChains.RelookNext` | core/blockchain.go:2161-2172 | writing one more block gives its transactions their entries and leaves all others |
| `BlockChains.DropLost` | core/blockchain.go:2173-2178 | deleting the difference removes exactly the entries of the old branch that were not written again |
| `BlockChains.FinalCanon` | core/blockchain.go:2161-2187 | the number index is exactly the new chain if and only if the new branch has at least two blocks or the old branch is not longer |
| `BlockChains.FinalLookup` | core/blockchain.go:2161-2178 | the transaction index is that of the new chain if and only if no transaction of the old branch is below it and not on the new one; always if no chain has a transaction twice |
| `BlockChains.HeadUnmarked` | core/blockchain.go:709-711 | after a reorganisation the number of the new head has another hash or none, so all heads move |
| `BlockChains.BlockChain.WriteHeadBlock` | core/blockchain.go:708-735 | index, lookup and heads after one block |
| `BlockChains.BlockChain.WriteBranch` | core/blockchain.go:2161-2172 | the new branch but for its head becomes canonical |
| `BlockChains.BlockChain.Reorg` | core/blockchain.go:2044-2190 | never fails on stored blocks; leaves an index that leads exactly to the head it leaves, and the right entries |
| `BlockChains.BlockChain.WriteKnownBlock` | core/blockchain.go:1409-1421 | index and transaction lookup are those of the new head; heads coincide if the new branch is not empty; stale numbers are left exactly in the stated case |
| `BlockChains.BlockChain.WriteBlockWithState` | core/blockchain.go:1433-1550 | the fork choice by weight, then number, then preference and coin; the chain stays valid and the head the heaviest block; a block that takes over by a reorganisation leaves exactly its path in the index if and only if its branch has two blocks or the old one is not longer |
| `BlockChains.RunBlocks` | core/blockchain.go:1433-1550 | any sequence of blocks keeps the chain valid and the head the heaviest block |
| `BlockChains.StaleNumberLeft` | core/blockchain.go:2179-2187 | an instance where a stale number stays in the index |
| `ChainIndexers.AllCorrect` | core/chain_indexer.go:422-429 | if the last section head is canonical, all from a section on are, if and only if the canonical hashes at their ends are linked to the one at the last |
| `ChainIndexers.HeadsLinked` | core/chain_indexer.go:397-412 | every section head is the ancestor of the last one by as many blocks as lie between |
| `ChainIndexers.PathLinked` | core/chain_indexer.go:422-429 | an index that is the path to some block is linked |
| `ChainIndexers.Finished` | core/chain_indexer.go:350-353 | a finished section joins the one before it, whatever happened meanwhile, and what a checkpoint put beyond it goes |
| `ChainIndexers.ChainIndexer.SetValidSections` | core/chain_indexer.go:479-491 | removes exactly the heads of the sections that are no longer valid |
| `ChainIndexers.ChainIndexer.VerifyLastHead` | core/chain_indexer.go:422-429 | checks the last section only; afterwards that ends in the canonical block, all from the checkpoint on do if and only if the canonical hashes at their ends are linked, and only wrong ones were dropped |
| `ChainIndexers.ChainIndexer.CoherentIndex` | core/chain_indexer.go:422-429 | while the canonical hashes are the path to some block, all sections from the checkpoint on are correct |
| `ChainIndexers.ChainIndexer.NewHead` | core/chain_indexer.go:243-300 | a rollback leaves exactly the sections below the checkpoint or not beyond the number; a new head makes exactly those sections known whose last block has enough confirmations, once that holds at the checkpoint and the chain matches it |
| `ChainIndexers.FirstConfirmed` | core/chain_indexer.go:276-300 | an instance: sections of 4096 blocks with 256 confirmations, the first one known from block 4351 on |
| `ChainIndexers.ChainIndexer.OnChainHead` | core/chain_indexer.go:216-237 | nothing is rolled back if the header before is the parent or still canonical, or no common ancestor is found; else exactly the sections beyond that ancestor and the checkpoint go |
| `ChainIndexers.ChainIndexer.UpdateStart` | core/chain_indexer.go:317-337 | takes up the section after verified ones |
| `ChainIndexers.ChainIndexer.ResetFailed` | core/chain_indexer.go:391-395 | drops everything and fails |
| `ChainIndexers.ChainIndexer.ProcessBlock` | core/chain_indexer.go:397-412 | takes a block exactly if it is canonical under its number at that moment and fits onto the last one |
| `ChainIndexers.ChainIndexer.UpdateFinish` | core/chain_indexer.go:348-368 | records the section exactly if it was completed and the one before it is still there, and drops what is beyond; otherwise only wrong sections are dropped and the last one left is verified |
| `ChainIndexers.ChainIndexer.Sections` | core/chain_indexer.go:434-440 | the reported head is canonical if it is beyond the checkpoint, and all sections from the checkpoint on are right if and only if the canonical hashes are linked |
| `ChainIndexers.ChainIndexer.AddCheckpoint` | core/chain_indexer.go:130-143 | sets a checkpoint exactly if it is beyond what is stored, also while a section is being processed |
| `ChainIndexers.ChainIndexer.Step` | core/chain_indexer.go:304-382 | every step keeps the section heads linked |
| `ChainIndexers.ChainIndexer.Run` | core/chain_indexer.go:243-440 | whatever happens in whatever order, to the canonical hashes too, a query finds the last section correct, and all from the checkpoint on if and only if the canonical hashes at their ends are linked |
| `ChainIndexers.StaleSectionLeft` | core/chain_indexer.go:222-429 | an instance: a stale canonical number keeps the event loop from rolling back and hides a wrong section |
| `Feeds.Find` | event/feed.go:305-312 | the first case with a channel, or none |
| `Feeds.Deactivated` | event/feed.go:320-324 | swapping a served case behind the active ones keeps the split into served and unserved |
| `Feeds.Removed` | event/feed.go:197-203 | deleting a case, active or not, keeps the split |
| `Feeds.Conserved` | event/feed.go:155-216 | nothing but the removed cases is gone, and slot 0 has not moved |
| `Feeds.Feed.Subscribe` | event/feed.go:73-93 | a new channel waits in the inbox |
| `Feeds.Feed.Remove` | event/feed.go:130-151 | removes one channel, from the inbox or the cases |
| `Feeds.Feed.TrySends` | event/feed.go:182-191 | serves channels that have room, each once |
| `Feeds.Feed.Meanwhile` | event/feed.go:73-140 | subscriptions and inbox removals during a send take effect on the inbox in order and touch nothing else |
| `Feeds.Feed.Send` | event/feed.go:155-216 | every channel that was subscribed and not removed gets the value exactly once, nobody twice, nobody else; the result counts deliveries; the cases are the old ones and the inbox without the removed; who subscribes meanwhile waits in the inbox |
| `Gas.IntrinsicGas` | core/state_transition.go:107-141 | the intrinsic cost, exactly if it fits 64 bits |
| `Gas.IntrinsicBytes` | core/state_transition.go:107-141 | 21000, or 53000 for a creation since Homestead, and 4 for every zero byte, 68 or since Istanbul 16 for every other |
| `Gas.GasPool.AddGas` | core/gaspool.go:29-35 | adds gas; callers never push the pool above 64 bits |
| `Gas.GasPool.SubGas` | core/gaspool.go:39-45 | takes gas exactly if there is enough |
| `Gas.UsedBounds` | core/state_transition.go:272-292 | the refund is at most half of the gas used without it |
| `Gas.UsedExactly` | core/state_transition.go:272-292 | the refund is as large as the refund counter and half of the gross use allow |
| `Gas.EnteredExactly` | core/state_transition.go:175-262 | the machine finds the sender without gas times price, everybody else as before, and the nonce of a caller counted |
| `Gas.SettledExactly` | core/state_transition.go:262-287 | who has what after a message, relative to what the machine left |
| `Gas.MessageFees` | core/state_transition.go:175-287 | over a message the sender is out by exactly the gas used times the price, which the coinbase gets |
| `Gas.SupplyKept` | core/state_transition.go:216-287 | no ether appears or vanishes over a message |
| `Gas.StateTransition.BuyGas` | core/state_transition.go:175-188 | gas times price leaves the balance of the sender and nobody else, and the gas the pool, exactly if both are enough; which error it is otherwise |
| `Gas.StateTransition.PreCheck` | core/state_transition.go:190-201 | likewise, with the nonce |
| `Gas.StateTransition.RefundGas` | core/state_transition.go:272-287 | what is left, with a refund of at most half of what was used, goes back to the sender at the price of the message and to the pool |
| `Gas.StateTransition.TransitionDb` | core/state_transition.go:216-270 | a message is executed exactly if its nonce is right, the pool has the gas, the gas covers the intrinsic cost and the balance gas times price and the value; on top of what the machine left, the sender gets the price of the gas not used and the coinbase that of the gas used |
| `Gas.Process` | core/state_processor.go:56-82 | every message is admissible in turn, or the first that is not ends it; used and left gas add up to the limit |
| `Gas.BlockConserves` | core/state_processor.go:69-116 | over a block no ether appears or vanishes, and cumulative gas is the prefix sum of gas used |
| `Gas.BlockFees` | core/state_processor.go:69-116 | apart from what the machine does, over a block every account pays exactly for the gas of its messages, and the coinbase gets the sum |
| `GasLimits.Plain` | core/block_validator.go:109-140 | the next limit without wrap-around |
| `GasLimits.BoundedChange` | core/block_validator.go:109-140 | the limit changes by less than a 1024th, section 4.3.4 of the Yellow Paper |
| `GasLimits.BoundedExactly` | core/block_validator.go:109-140 | that bound holds for all uses and ranges if and only if the limit is at least 5 * 1024 |
| `GasLimits.FollowsUse` | core/block_validator.go:109-140 | inside the range the change is a 1024th of one and a half times the use less a 1024th of the limit plus one; it is up from two thirds on |
| `GasLimits.StaysExactly` | core/block_validator.go:109-140 | the limit stays if and only if these two 1024ths differ by one |
| `GasLimits.TwoThirds` | core/block_validator.go:109-140 | an instance: right at two thirds it rises by one |
| `GasLimits.StopsAtMinimum` | core/block_validator.go:109-140 | it does not fall below 5000 |
| `GasLimits.Approach` | core/block_validator.go:109-140 | the range is absorbing; from outside a step enters it or comes closer by exactly parent/1024 - 1 |
| `GasLimits.Converges` | core/block_validator.go:109-140 | with a ceiling of at least 2047 every sequence of blocks reaches the range and stays there |
| `GasLimits.StopsShort` | core/block_validator.go:109-140 | with a ceiling below 2047 no sequence of blocks from any limit of at least 2047 gets down to it |
| `GasLimits.ConvergesExactly` | core/block_validator.go:109-140 | from any limit of at least 2048, every long enough sequence of blocks ends in the range if and only if the ceiling is at least 2047 |
| `HdPaths.JoinSplit` | accounts/hd.go:72 | splitting loses nothing and leaves no separator |
| `HdPaths.DecimalBack` | accounts/hd.go:100-103 | a printed number is read back |
| `HdPaths.PrefixBack` | accounts/hd.go:100-103 | 0x, 0b and 0o numbers are read in their base |
| `HdPaths.OctalBack` | accounts/hd.go:100-103 | a number with a leading zero is read as octal |
| `HdPaths.SignedBack` | accounts/hd.go:100-103 | signs are understood |
| `HdPaths.TrimExactly` | accounts/hd.go:91-98 | exactly the whitespace at both ends goes |
| `HdPaths.ParseDerivationPath` | accounts/hd.go:68-118 | reads a path component by component; the first bad one decides the error |
| `HdPaths.PathString` | accounts/hd.go:122-136 | prints a path |
| `HdPaths.RoundTrip` | accounts/hd.go:68-136 | reading a printed path gives it back, hardened indices included, for all paths but the empty one |
| `HdPaths.RelativeTrip` | accounts/hd.go:68-118 | without its prefix a printed path is read as relative to the default root |
| `HdPaths.ComponentExactly` | accounts/hd.go:91-112 | a component is accepted exactly up to its limit, hardened or not, whatever whitespace is around it |
| `HdPaths.PrintInjective` | accounts/hd.go:122-136 | different paths print differently |
| `HdPaths.ParsePrintParse` | accounts/hd.go:68-136 | printing an accepted path gives a text with the same meaning |

## Left out

- Pool lists inside the pool: `TxPools` holds the lists of each account and the virtual nonces as values and applies the functions that `TxLists.TxList` and `TxNoncers.TxNoncer` are proved to refine; sharing of list objects between steps is not modelled.
- Merging of error slots in `addTxs`: the cursor does not advance past a nil result, so results need not line up with their transactions.
- `TxPools.TxPool.RunReorg`: that the transactions of a pending list can be executed one after the other; gaps are told apart by `DemotedGapFree` for one list, and balances are compared with single transactions, as the code does.
- `TxPools.TxPool.AddTxsLocked`: how often a transaction is in the price heap between two additions is open; `Add` ties evictions to the heap.
- `TxPools.TxPool.PromoteExecutables`: the accounts are distinct, since callers pass the members of a set.
- Equality of the stale counter with the number of stale heap entries: a transaction that comes back while its old entry is still in the heap breaks it. Coverage of the pool by the heap is what is proved.
- Journals, metrics, logging, event notifications of the pool and the scheduling of reorganisation requests.
- `reset` computes the depth of a reorganisation in floating point; the model computes it exactly, which differs only for block numbers beyond 2^53.
- Locks and threads, except in the section indexer and the feed, where they are the point. The second read of the canonical hash in `GetAncestor` guards against a concurrent change and is not modelled.
- `HeaderChains.HeaderChain.WriteHeader`: headers are taken as verified, so a known parent has the number before; with a cached parent the source would not notice otherwise.
- `HeaderChains.HeaderChain.InsertHeaderChain`: the slice is linked, which ValidateHeaderChain has checked before.
- `ChainIndexers.ChainIndexer.AddCheckpoint`: the checkpoint is the hash of a block; the zero hash, which stands for no section head, is not one.
- `ChainIndexers.ChainIndexer.OnChainHead`: the number of the common ancestor is passed in. Child indexers, throttling and pruning.
- `Feeds.Feed.Send`: the list of cases is a sequence whose active prefix is given by its length, so sharing of storage between the two slices is modelled, reallocation is not. Channel types and type checks.
- `Feeds.Feed.Subscribe`: a channel subscribed twice would get values twice, so channels are distinct.
- `BlockChains.BlockChain.WriteBlockWithState`: only blocks, difficulties and indexes; not receipts, logs, state commits, trie garbage collection, ancient stores or snapshots.
- `insertChain`, `insertSideChain`, `InsertReceiptChain` and the callbacks of `SetHead`.
- `Gas.Process`: the DAO hard fork, logs, blooms and the finalisation by the consensus engine.
- The virtual machine, state tries, signatures, consensus engines, RLP, RPC, peers, consoles, light client balances and cost tracking.
