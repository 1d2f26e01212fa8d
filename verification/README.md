# Verified models of go-luck

This project models the parts of go-luck, a go-ethereum derivative, whose correctness rests on
invariants that span several data structures, and proves those invariants in Dafny. To check it:
`dafny verify dfyconfig.toml`.

| file | what it models |
|---|---|
| Basics.dfy | optional values and 64-bit arithmetic, used everywhere |
| Transactions.dfy | transactions, and the reference behaviour of one account's list as functions on sets |
| BinaryHeap.dfy | `container/heap` and `sort` as the pool uses them |
| SortedMap.dfy, TxList.dfy | `txSortedMap` and `txList`, proved against that reference behaviour |
| Priced.dfy | `txLookup`, and `txPricedList` with its lazily deleted heap entries |
| Noncer.dfy | `txNoncer` |
| Admission.dfy | what happens to transactions offered to the pool one after the other |
| PoolState.dfy, Truncation.dfy | the pool's maps as values: the invariants between them and the lemmas each operation rests on |
| ResetRun.dfy | what a reorg run with a reset does to an account's lists |
| Reinjection.dfy | the walk of a reset over two branches, for the transactions that left the chain |
| TxPool.dfy | `TxPool`: adding, promoting, demoting, removing, truncating, resetting |
| Scheduler.dfy | `scheduleReorgLoop` as a state machine over its turns |
| Headers.dfy, HeaderChain.dfy | the header tree, and `HeaderChain` with its caches |
| HeaderQuery.dfy | header queries by hash, and the BLOCKHASH cache |
| BlockChain.dfy | reorganisation, head switching, transaction lookup index and log events |
| ChainIndexer.dfy | section indexing against a chain that changes between any two reads |
| Feed.dfy | `event.Feed` under every interleaving of Send, Subscribe and Unsubscribe |
| IntrinsicGas.dfy, Gas.dfy | gas and balances of a transaction and of a block |
| Executability.dfy | that what the pool admits passes the checks of the state transition |
| GasLimit.dfy | `CalcGasLimit` in 64-bit arithmetic |
| DerivationPath.dfy | BIP-32 path notation |

How to read the main results:

- **Transaction pool.** `TxPool.Valid` says that pending and queue hold disjoint (account, nonce)
  slots, that the hash index is exactly their union, that its slot counter is the sum of the
  transactions' slots, that no list is empty, and that every pooled transaction is in the price
  heap. Every operation keeps it, so every run does. `Contiguous` says that each pending list
  runs gap free from the chain nonce to the virtual nonce; every operation between resets keeps
  it and `RunReorg` restores it after a head that lowers no nonce and reinjects nothing.
  `Solvent` says that every pending transaction is payable; every operation between resets keeps it,
  and every reset establishes it again and leaves nothing stale pending, whatever the new head is.
  `AddTxs` is a sequence of turns (`Turn` in Admission.dfy) that says what happens to each offered
  transaction, and so what a reset puts back.
  `ExactStales` says that the stale counter is the number of dead heap entries; it is kept as long
  as no transaction re-enters while a dead copy of it is in the heap. That condition is exact for
  one insertion into a pool with room, except that a replacement which rebuilds the heap clears
  such copies (`PutOne`, `Add`); `ReentryMiscounts` is an input where the counter goes wrong. A
  transaction stands for its hash, which is taken to be collision free.
- **Executable queued transactions.** A run without a reset leaves none for the requested accounts.
  A run with a reset ignores the requested accounts and looks at every queue, but from the fresh
  virtual nonces, which are the chain nonces: an account whose pending list survives up to its old
  end and that has a payable queued transaction right behind it keeps that transaction queued.
  `RunReorg` states exactly these accounts, and `StrandedHappens` is the smallest case. Truncation
  may take the transaction away from a remote account; a local account always stays so. A promotion
  request that the scheduler merged into such a run is therefore not carried out for them.
- **Folded definitions.** A few predicates have the form "for all keys, `OpenX(key)` implies ...",
  where `OpenX` is always true. They mean just what follows the implication. The form only keeps
  the verifier from unfolding them everywhere; a proof that needs the contents names the guard, directly or
  through `Unfold`.
- **Concurrency.** Where the original runs goroutines, each method is one atomic step and a run is
  any sequence of steps; what other goroutines or the chain do in between is an arbitrary
  argument or a nondeterministic choice.
- **What the environment supplies.** Heartbeat times and the current time, coin flips of the fork
  choice, moments of shutdown, the head state of a reset together with the blocks that are stored,
  and the virtual machine (any function that returns no more gas than it got and preserves the sum
  of balances) are parameters.

Where code and documentation of the original differ, the model follows the code:

- The comment on `truncateQueue` speaks of the oldest transactions; the code drops the queues of
  the accounts heard of most recently first, and that is what `TruncateQueue` states.
- `GetTd` and `GetHeader` are documented as lookups by hash and number; a cached entry is returned
  whatever the number. That a header has the number after its parent's is therefore a demand on
  the callers of `WriteHeader` and `WriteBlockWithState`, which pass verified headers.
- `reorg` speaks of deleting canonical numbers above the new head; it deletes those above the
  current block at that moment. `WriteKnownBlock` gives the exact condition under which nothing is
  left above the new head, and `LeftoversHappen` a tree where something is.
- Whitespace in a derivation path is ignored only around components and before the hardening mark.
- A header query's amount is an unsigned number, but the reply loop compares it as a signed one, so
  an amount of 2^63 or more gets an empty reply.
- The strategy comment of `CalcGasLimit` has the limit rise for a parent used above two thirds only;
  the code rounds, and raises it for one used slightly less as well (`LessThanTwoThirdsRaises`).

## Model

| member | source | states |
|---|---|---|
| `Transactions.ReadyIsMaximalRun` | core/tx_list.go:171-193 | what Ready returns is everything below the first hole above the smallest nonce, a gap-free run, provided that nonce is at most the start |
| `Transactions.SpanLength` | core/tx_list.go:178-193 | a gap-free list from low to high has exactly high - low transactions |
| `Transactions.KeptIsPrefix` | core/tx_list.go:281-314 | a strict filter of a gap-free list leaves a gap-free prefix, cut exactly at the first unpayable nonce |
| `Transactions.FilterPartition` | core/tx_list.go:281-314 | kept, removed and invalidated transactions partition the list; in a strict list everything kept is below everything lost |
| `Transactions.ReplacementPricesRise` | core/tx_list.go:246-272 | over any run of offers to a list, the transactions that held one nonce one after the other have strictly rising prices, and the later price is at least the earlier one raised by the bump as many times as there were replacements |
| `Transactions.HoldersOutbid` | core/tx_list.go:246-272 | each transaction that held a nonce outbid the one before it, and the last one is what the list holds there |
| `Transactions.AscendingIsUnique` | core/tx_list.go:200-216 | a list has only one nonce-ordered form, so a cached one cannot differ from a recomputed one |
| `Transactions.PrefixIsLowest` | core/tx_list.go:125-148 | the first k entries of the nonce-ordered form are exactly the k lowest nonces |
| `BinaryHeap.RootIsLeast` | core/tx_list.go:31-49 | position 0 of a heap is a minimum over every position |
| `BinaryHeap.Up` | core/tx_list.go:73-79 | sift-up restores the heap order from one misplaced leaf and permutes the elements |
| `BinaryHeap.Down` | core/tx_list.go:158-165 | sift-down restores the heap order below one misplaced position; reports a move only if it made one |
| `BinaryHeap.Push` | core/tx_list.go:36-48 | adds one element to the bag and keeps the heap order |
| `BinaryHeap.Pop` | core/tx_list.go:36-48 | removes a minimum from the bag and keeps the heap order |
| `BinaryHeap.RemoveAt` | core/tx_list.go:150-169 | removes the element at any position from the bag and keeps the heap order |
| `BinaryHeap.Init` | core/tx_list.go:115-119 | makes a heap out of any slice, permuting its elements |
| `BinaryHeap.Sort` | core/tx_list.go:133-136 | sorts, permuting the elements |
| `SortedMap.TxSortedMap.Get` | core/tx_list.go:66-69 | finds a transaction exactly when the nonce is occupied |
| `SortedMap.TxSortedMap.Put` | core/tx_list.go:71-79 | contents become the old ones with the slot taken over; heap, items and cache stay coherent |
| `SortedMap.TxSortedMap.Forward` | core/tx_list.go:81-98 | splits the contents at the threshold; returns the lower part in nonce order; a cache stays the sorted contents after slicing |
| `SortedMap.TxSortedMap.Filter` | core/tx_list.go:100-123 | removes exactly what the predicate selects and returns exactly that |
| `SortedMap.TxSortedMap.Cap` | core/tx_list.go:125-148 | keeps exactly the lowest nonces, returns the others highest first; a cache stays the sorted contents after slicing |
| `SortedMap.TxSortedMap.Remove` | core/tx_list.go:150-169 | removes exactly the transaction at the nonce, if there is one, and says whether |
| `SortedMap.TxSortedMap.TakeReady` | core/tx_list.go:171-193 | takes out exactly the maximal run from the smallest nonce, in order |
| `SortedMap.TxSortedMap.Len` | core/tx_list.go:195-198 | the number of transactions held |
| `SortedMap.TxSortedMap.Flatten` | core/tx_list.go:200-216 | the contents in nonce order, from the cache or by sorting, contents unchanged |
| `TxLists.TxList.Add` | core/tx_list.go:246-272 | inserts exactly when the slot is free or the new price is strictly higher and meets the bump; returns what it replaced; the caps go on bounding everything; its runs are those of ReplacementPricesRise |
| `TxLists.TxList.Forward` | core/tx_list.go:274-279 | splits at the nonce, keeping the caps valid |
| `TxLists.TxList.Filter` | core/tx_list.go:281-314 | equals the unconditional filter although the cap test may skip it; removed and invalidated are returned separately; the caps are lowered to the limits exactly when the test does not skip it |
| `TxLists.TxList.Cap` | core/tx_list.go:316-320 | keeps exactly the lowest nonces |
| `TxLists.TxList.Remove` | core/tx_list.go:322-336 | removes what sits at the nonce and, in a strict list, exactly what is above it |
| `TxLists.TxList.TakeReady` | core/tx_list.go:338-347 | takes out exactly the maximal run |
| `Priced.TxLookup.Add` | core/tx_pool.go:1566-1575 | adds a transaction; the slot counter stays the sum of numSlots exactly if it was not indexed before, or takes no slots |
| `Priced.TxLookup.Remove` | core/tx_pool.go:1577-1586 | removes an indexed transaction; the slot counter stays the sum of numSlots |
| `Transactions.SlotsHold` | core/tx_pool.go:1588-1591 | a transaction's slots of 32 kB are just enough for its size |
| `Priced.StalesAreDead` | core/tx_list.go:399-436 | when the counter balances heap and index it is at least the number of dead entries, and equal to it if and only if no pooled transaction has two entries |
| `Priced.CheapestFirst` | core/tx_list.go:370-383 | position 0 of the price heap is worst by price, then by higher nonce, among all entries |
| `Priced.TxPricedList.Put` | core/tx_list.go:413-416 | one more entry, heap order kept |
| `Priced.TxPricedList.Removed` | core/tx_list.go:418-436 | either only the counter rises, or past a quarter of the heap it is rebuilt as exactly the index with counter zero |
| `Priced.TxPricedList.Cap` | core/tx_list.go:438-467 | removes exactly the live remote entries below the threshold; dead entries met are dropped and counted; nothing else leaves |
| `Priced.TxPricedList.Underpriced` | core/tx_list.go:469-493 | for a remote transaction agrees with the minimum price over the whole pool despite stale entries; never true for a local one |
| `Priced.TxPricedList.Discard` | core/tx_list.go:495-520 | drops only live remote entries, never a better one while a worse one stays, until the slots counted for them are enough or none is left, and not one more than needed; a doubled entry counts twice (see DroppedSlots) |
| `Noncer.TxNoncer.Get` | core/tx_noncer.go:43-55 | returns the nonce in force; caching it changes no nonce in force |
| `Noncer.TxNoncer.SetIfLower` | core/tx_noncer.go:66-79 | one account's nonce becomes the lower of the two |
| `PoolState.SlotsDisjoint` | core/tx_pool.go:579-735 | pending and queue never hold the same account and nonce |
| `PoolState.Relist` | core/tx_pool.go:878-923 | any redistribution of one account's transactions over its two lists, with the rest unindexed, keeps the books coherent |
| `PoolState.EnterQueue` | core/tx_pool.go:652-681 | a transaction whose slot is not pending may take its queue slot: the books stay coherent |
| `PoolState.ReplacePending` | core/tx_pool.go:612-628 | a transaction may take over an occupied pending slot: the queue cannot have that slot |
| `PoolState.RemoveCoherent` | core/tx_pool.go:876-923 | removal by hash hits the list that holds the nonce; what falls out of pending finds its queue slots free |
| `PoolState.MoveNext` | core/tx_pool.go:652-681 | each transaction of a postponed or promoted slice finds its slot free |
| `PoolState.DropKeepsPriced` | core/tx_pool.go:878-890 | reporting dropped transactions keeps every pooled transaction in the heap and the stale counter exact |
| `PoolState.PutKeepsPriced` | core/tx_list.go:413-416 | adding a transaction to index and heap keeps an exact stale counter exact if and only if the heap had no copy of it |
| `PoolState.ReentryMiscounts` | core/tx_list.go:413-436 | any five transactions, four live in the heap beside one dead entry, as many as the heap tolerates before it is rebuilt: when the dead one re-enters, the counter says one dead entry and there is none |
| `PoolState.DroppedSlots` | core/tx_list.go:495-520 | dropping popped entries frees at most the slots counted, and exactly those if none was popped twice |
| `PoolState.DroppedExactly` | core/tx_list.go:495-520 | of entries that take slots, exactly the counted slots are freed if and only if none was popped twice |
| `PoolState.DoubledEntryFreesTooLittle` | core/tx_list.go:495-520 | a doubled entry is counted twice and frees its slots once |
| `PoolState.SlotHolder` | core/tx_pool.go:612-628 | what holds a slot is the pending or else the queued transaction at that nonce, so outbidding it is decided by one list |
| `PoolState.PopKeepsPriced` | core/tx_pool.go:594-608 | popping live and dead entries keeps every remaining pooled transaction in the heap and the stale counter exact |
| `PoolState.RunsRemove` | core/tx_pool.go:892-916 | removing a pending transaction with everything above it leaves gap-free lists when the virtual nonce falls to its nonce |
| `PoolState.RunsPromote` | core/tx_pool.go:1180-1240 | promotion extends a gap-free pending list at the virtual nonce and moves that past it |
| `PoolState.RunsReplace` | core/tx_pool.go:612-628 | a replacement changes no occupied nonce |
| `PoolState.ClimbStarts` | core/tx_pool.go:1145-1159 | a gap-free pool seen from a head that lowered no nonce has no gap from the new chain nonces on |
| `PoolState.PromoteRises` | core/tx_pool.go:1180-1240 | promotion for a new head keeps that, and what it adds is payable |
| `PoolState.DemoteSettles` | core/tx_pool.go:1377-1424 | demotion leaves a list gap free from the chain nonce, empty only if the virtual nonce is there |
| `PoolState.DemoteParts` | core/tx_pool.go:1377-1424 | stale, unpayable, postponed and surviving transactions partition a pending list |
| `PoolState.PromoteDrains` | core/tx_pool.go:1184-1240 | what promotion leaves queued has no stale, unpayable, executable or excess transaction |
| `PoolState.IdleStays` | core/tx_pool.go:1242-1372 | neither truncation can make a queued transaction executable: dropping queued ones and lowering virtual nonces opens no run |
| `PoolState.RunsFixNonces` | core/tx_pool.go:1069-1073 | a gap-free pending list determines its virtual nonce: two nonce tables in step with it agree on every account |
| `PoolState.UpdateStep` | core/tx_pool.go:1069-1073 | setting the nonce past the last pending transaction brings a settled account in step |
| `PoolState.VirtualNonceCounts` | core/tx_pool.go:699-735 | in a gap-free pool the virtual nonce is the chain nonce plus the length of the pending list |
| `Pool.TxPool.constructor` | core/tx_pool.go:268-320 | a new pool satisfies every invariant, payability of pending transactions included |
| `Pool.TxPool.StalesCountDead` | core/tx_list.go:399-436 | the exactness that the pool operations keep, with the stated condition where transactions enter, means that the stale counter is the number of dead heap entries |
| `Pool.TxPool.NonceIsChainPlusPending` | core/tx_pool.go:439-446 | while the pool is contiguous, the virtual nonce is the chain nonce plus the number of pending transactions |
| `Pool.TxPool.EnqueueTx` | core/tx_pool.go:652-681 | inserts exactly when the slot is free or outbid; the replaced transaction leaves index and heap, the new one is in both |
| `Pool.TxPool.PromoteTx` | core/tx_pool.go:695-735 | inserts into pending exactly when free or outbid and sets the virtual nonce past it; otherwise drops the transaction from the index; the heap stays complete, and its counter exact if and only if the transaction was indexed or has no copy there |
| `Pool.TxPool.Demote` | core/tx_pool.go:1403-1417 | a slice that left pending is inserted into the queue whole: never refused, never replacing |
| `Pool.TxPool.RemoveTx` | core/tx_pool.go:876-923 | removes one transaction from index and list, postpones what it invalidates, lowers the virtual nonce; keeps the books, contiguity and (when it is told to) the heap's exactness |
| `Pool.TxPool.PromoteAll` | core/tx_pool.go:1218-1226 | every ready transaction is inserted, replacing nothing, index and heap untouched |
| `Pool.TxPool.CapQueue` | core/tx_pool.go:1228-1238 | a remote account keeps exactly its lowest queued nonces, the rest leave the index |
| `Pool.TxPool.Weed` | core/tx_pool.go:1193-1210 | exactly the stale and the unpayable transactions leave the index |
| `Pool.TxPool.PromoteListed` | core/tx_pool.go:1184-1240 | one account: exactly the ready run moves to pending, exactly the capped rest stays queued, everything else leaves the pool |
| `Pool.TxPool.PromoteExecutables` | core/tx_pool.go:1177-1240 | every account visited has exactly the lists promotion gives it, which have no stale, unpayable, executable or (if remote) excess queued transaction; the returned transactions are exactly those that became pending; keeps the books, the heap's exactness, contiguity, and the state on the way to a new head |
| `Pool.TxPool.DemoteAccount` | core/tx_pool.go:1379-1424 | one account: exactly the payable run from the chain nonce stays pending, exactly what it invalidates goes back to the queue |
| `Pool.TxPool.DemoteUnexecutables` | core/tx_pool.go:1374-1424 | for all accounts at once: exactly the payable run from the chain nonce stays pending, exactly what it invalidates joins the queue, everything else leaves; from the state after promotion every list is gap free from the chain nonce |
| `Pool.TxPool.ValidateTx` | core/tx_pool.go:526-570 | accepts exactly the transactions that pass every test, and a reported error is a true fault |
| `Pool.TxPool.DiscardWorst` | core/tx_pool.go:604-611 | drops only remote transactions, cheapest first, and not one more than the slots counted ask for; the slots freed are those counted when no heap entry is doubled, never more; keeps every invariant |
| `Pool.TxPool.SetGasPrice` | core/tx_pool.go:426-437 | leaves exactly the local transactions and those at or above the price |
| `Pool.TxPool.IsUnderpriced` | core/tx_pool.go:596-601 | true exactly for a remote transaction no dearer than everything in a non-empty pool |
| `Pool.TxPool.MakeRoom` | core/tx_pool.go:594-611 | refuses a transaction exactly if the pool is full, it is remote and nothing pooled is cheaper; only remote transactions leave, the worst first, and nothing when it refuses; with an exact heap the transaction then fits or only locals are left |
| `Pool.TxPool.ReplaceTx` | core/tx_pool.go:612-628 | takes over a pending slot exactly when it outbids the holder, contiguity kept |
| `Pool.TxPool.Add` | core/tx_pool.go:572-650 | the outcome is known exactly: known, faulty, underpriced in a full pool, or refused because something it does not outbid holds its slot once room was made; in a pool with room also the new index, whether it replaced something, and both maps: it takes over a pending slot or goes to the queue, and every other list stays; only a replacement becomes pending; a remote transaction leaves only a full pool or its slot; every invariant is kept, the stale counter under its exact condition |
| `Pool.TxPool.AddTxs` | core/tx_pool.go:826-840 | the slice is taken turn by turn, each with the outcome, index and maps that single additions have, so that what is refused has a fault, is known, no dearer than a full pool or not dear enough for its slot; the exact index for distinct slots in a pool with room; exactly the senders of accepted non-replacements are dirty; a local transaction leaves only for one in its slot; the stale counter stays exact for distinct transactions of which the heap has no copy |
| `Admission.WithRoom` | core/tx_pool.go:572-650 | in a pool with room a transaction is accepted exactly if it is new, admissible and outbids what holds its slot; then it is in the index in that slot, otherwise nothing changed |
| `Admission.AcceptedStays` | core/tx_pool.go:826-840 | with room for the whole slice, an accepted transaction is in the index at the end unless a later one of the slice has its slot |
| `Admission.SubmittedExactly` | core/tx_pool.go:826-840 | for distinct slots and a pool with room for all, the index afterwards is exactly the one before with the slots of the winners freed and taken by them, and exactly the winners are accepted: the new, admissible ones that outbid what held their slots at the start |
| `Pool.TxPool.Evict` | core/tx_pool.go:371-387 | exactly the queued transactions of remote accounts silent for longer than the lifetime leave; pending and nonces untouched |
| `Pool.TxPool.DropHighest` | core/tx_pool.go:1289-1305 | an account loses exactly its highest pending nonce; contiguity kept |
| `Pool.TxPool.TrimRound` | core/tx_pool.go:1288-1305 | one round takes one transaction from every offender, and the common length falls by one |
| `Pool.TxPool.Equalize` | core/tx_pool.go:1286-1323 | rounds end when the pool fits or the offenders are down to the threshold, one round short of which it did not fit |
| `Pool.TxPool.TruncatePending` | core/tx_pool.go:1242-1327 | locals and lists within one common length lose nothing, every other list ends at exactly that length with its lowest nonces, the length is at least the guaranteed slots; the pool fits or nobody remote is above them; it undershoots by fewer than the accounts cut; nothing happens to a pool that fits |
| `Pool.TxPool.TruncateAccount` | core/tx_pool.go:1350-1371 | one account loses its whole queue, or exactly the excess from the top |
| `Pool.TxPool.TruncateQueue` | core/tx_pool.go:1329-1372 | the queue ends exactly at its limit unless only locals are left above it; accounts heard of last lose first, each from its highest nonces; pending and nonces untouched |
| `Pool.TxPool.Reset` | core/tx_pool.go:1089-1175 | the transactions that left the chain are offered one by one under the new head's state and gas limit but the old head's rules, none left out, with the outcomes AddTxs states; keeps the books; a gap-free pool whose chain nonces did not fall has no gap from the new nonces on; the stale counter stays exact if the reinjected transactions are distinct and new to the heap |
| `Reinjection.Reinject` | core/tx_pool.go:1089-1153 | the transactions put back are exactly those on the abandoned branch above the fork that the new branch does not have; none if the new head follows the old one, extends its chain or is more than 64 numbers away; no answer if and only if a block of either branch down to the fork is missing |
| `Reinjection.Meet` | core/tx_pool.go:1128-1152 | the walks over both branches stop at the fork with exactly the transactions above it, or, if and only if a block is missing on the way, without a result |
| `Reinjection.Lower` | core/tx_pool.go:1128-1139 | walking down one branch gathers exactly its transactions above a number, unless a block from there on is missing |
| `Reinjection.TxDifference` | core/types/transaction.go:277-292 | exactly the members of the first slice that are not in the second; distinct ones stay distinct |
| `Reinjection.RequestFor` | core/tx_pool.go:1089-1165 | a reset fails if and only if the walk meets a missing block or the new state is missing; otherwise it resets to that state and reinjects exactly what left the chain, which is nothing along one chain |
| `Pool.TxPool.UpdateNonces` | core/tx_pool.go:1069-1073 | never meets an empty list; every pending account's nonce ends past its last transaction; settled lists become contiguous |
| `Pool.TxPool.RunPromotion` | core/tx_pool.go:1027-1087 | a run without a reset: the maps are exactly the promotion of the requested accounts followed by the two truncations; contiguity and payability kept, the requested accounts left idle, everything that became pending announced |
| `Pool.TxPool.RunForHead` | core/tx_pool.go:1036-1087 | a run after its reset: the maps are exactly promotion of every queue, then demotion, then the two truncations; everything pending is payable and not stale, with no condition on what came before; the exact set of accounts left executable; where neither truncation nor a queue limit applies, exactly the stale and unpayable transactions are gone |
| `Pool.TxPool.RunReset` | core/tx_pool.go:1036-1087 | a run with a reset to a new head: the pool with the reinjected transactions put back, then promoted, demoted and truncated; for distinct slots and nothing to cut, the index is exactly the living ones of what was pooled and put back |
| `ResetRun.NothingFromBelow` | core/tx_pool.go:1047-1054 | with pending transactions from the chain nonce on, promotion from there finds nothing, while from the end of the list it finds something if and only if that nonce is queued |
| `ResetRun.StrandedHappens` | core/tx_pool.go:1047-1054 | the smallest such account: nonce 0 pending, nonce 1 queued |
| `ResetRun.RerunEnds` | core/tx_pool.go:1180-1240 | promotion and demotion of one account after a reset: a gap-free list from the chain nonce on, and a queued transaction at its end if and only if the account was stranded before |
| `ResetRun.PromotedOne` | core/tx_pool.go:1180-1240 | promoting account by account gives every account its promoted lists, a second visit changing nothing |
| `ResetRun.ParkedStays` | core/tx_pool.go:1242-1372 | truncation strands nothing new |
| `ResetRun.StrandedAtEnd` | core/tx_pool.go:1027-1087 | at the end of such a run a queued transaction is executable exactly in a stranded account whose list was not cut and whose transaction was not dropped; an account that truncation did not touch is executable exactly if it was stranded |
| `ResetRun.LocalsUntouched` | core/tx_pool.go:1250-1372 | truncation leaves both lists of every local account as they were |
| `ResetRun.FitsNeedsNoCut` | core/tx_pool.go:1250-1372 | when all transactions fit into a limit, or no remote account could be above its guarantee, that truncation changes nothing |
| `ResetRun.DemotedIsPart` | core/tx_pool.go:1374-1424 | what demotion leaves pending is payable and not stale, whatever was pending before |
| `ResetRun.DemotionKeeps` | core/tx_pool.go:1377-1424 | demotion loses of a list exactly what is stale or unpayable, the rest is pending or queued |
| `ResetRun.PromotionKeeps` | core/tx_pool.go:1180-1240 | promotion loses of a local queue, or one within its limit, exactly what is stale or unpayable |
| `ResetRun.RerunKeeps` | core/tx_pool.go:1046-1067 | with the remote queues within their limits, promotion and demotion after a reset leave exactly the transactions that are neither stale nor unpayable |
| `ResetRun.DemotedFronted` | core/tx_pool.go:1403-1417 | demotion leaves no pending list that lacks the chain nonce |
| `ResetRun.ShortenedFronted` | core/tx_pool.go:1245-1327 | truncation takes no pending list its lowest nonce |
| `ResetRun.FailedAtEnd` | core/tx_pool.go:1089-1160 | after a failed reset, demotion leaves a gap-free pool of payable transactions alone |
| `ResetRun.Announce` | core/tx_pool.go:1055-1062 | promoted transactions replace queued events in their slots |
| `ResetRun.MergedFacts` | core/tx_pool.go:1055-1086 | every promoted transaction is announced, one per slot |
| `Pool.TxPool.RunReorg` | core/tx_pool.go:1027-1087 | keeps the books and both limits; a reset puts the reinjected transactions back, and in a pool with room and nothing to cut leaves exactly the living ones among what was pooled and put back; the maps are exactly promotion, after a reset also demotion, then truncation; after every reset, failed, lowering nonces or reinjecting ones included, everything pending is payable and not stale and every pending list starts at the chain nonce; without a reset keeps contiguity and leaves nothing of the requested accounts executable; after a head that lowers no nonce and reinjects nothing restores contiguity, and a queued transaction is executable exactly in the stranded accounts that truncation left alone, which every stranded local account is; announces exactly the events the reset did not make stale and, in their slots, the promoted transactions, everything that became pending among them, once per slot; the stale counter stays exact under the condition of AddTxs |
| `Truncation.LevelledMeans` | core/tx_pool.go:1242-1327 | what the common length means for each account: locals and short lists lose nothing, nobody remote is above it, whoever lost something has exactly that many left, the lowest nonces |
| `Truncation.LevelledIsFair` | core/tx_pool.go:1242-1327 | the accounts that lost something are exactly the remote ones that were above the common length |
| `Truncation.LevelStep` | core/tx_pool.go:1289-1305 | one account giving up its highest nonce is that account's list cut one lower |
| `Truncation.NextOffender` | core/tx_pool.go:1270-1284 | the next account popped is the longest untouched one and sets the threshold for those before it |
| `Truncation.PopSpammer` | core/tx_pool.go:1273-1277 | pops an account with a longest list |
| `Truncation.SortByHeartbeat` | core/tx_pool.go:1339-1346 | lists the accounts once each by rising heartbeat |
| `Truncation.DropSome` | core/tx_pool.go:1348-1371 | dropping the most recently heard account's highest nonces keeps the order of loss |
| `Intrinsic.IntrinsicGas` | core/state_transition.go:78-113 | the exact cost, byte by byte (EIP-2028 prices included), if and only if it fits 64 bits; otherwise an error; no intermediate overflow |
| `Intrinsic.CostCounts` | core/state_transition.go:78-113 | that cost is 21000, or 53000 for a creation, plus 4 per zero byte and 16 (before EIP-2028: 68) per other byte |
| `Scheduler.ReorgLoop.Launch` | core/tx_pool.go:970-983 | hands everything pending to a new run, only when none is active; nothing is pending afterwards |
| `Scheduler.ReorgLoop.RequestReset` | core/tx_pool.go:986-994 | merges a head change into the pending one and hands out the channel of the run that will do it |
| `Scheduler.ReorgLoop.RequestPromote` | core/tx_pool.go:996-1004 | merges the accounts into the pending ones and hands out the channel of the run that will do it |
| `Scheduler.ReorgLoop.QueueTxEvent` | core/tx_pool.go:1006-1013 | queues an event for the next run without asking for one |
| `Scheduler.ReorgLoop.FinishRun` | core/tx_pool.go:1028-1029 | the active run closes its own channel and no other |
| `Scheduler.ReorgLoop.NoticeDone` | core/tx_pool.go:1015-1016 | the loop becomes free only after the run's channel was closed |
| `Scheduler.ReorgLoop.Shutdown` | core/tx_pool.go:1018-1024 | closes the next channel after the active run ended |
| `Scheduler.ReorgLoop.ReleasedOnlyWhenServed` | core/tx_pool.go:925-945 | in every reachable state a closed channel was closed by shutdown or by a finished run launched with all that was asked for on that channel; what a run that also resets then does for the requested accounts is stated by RunReorg |
| `Scheduler.ReorgLoop.OneRunAtATime` | core/tx_pool.go:958-1025 | in every reachable state at most one run is unfinished |
| `Scheduler.ReorgLoop.ResetsFollow` | core/tx_pool.go:958-1025 | if the head changes asked for follow one another, so do the resets passed to successive runs and the pending one |
| `Scheduler.ReorgLoop.EventsOnce` | core/tx_pool.go:958-1025 | no event is handed to two runs |
| `Scheduler.ReorgLoop.NobodyForgotten` | core/tx_pool.go:958-1025 | until shutdown every waiting requester waits for the active run or for a next run that is due and is launched with its request |
| `Scheduler.AllServed` | core/tx_pool.go:986-1004 | merging loses no request |
| `Scheduler.MergedEndsLast` | core/tx_pool.go:986-992 | a merged reset ends at the last head asked for |
| `Headers.AtAt` | core/headerchain.go:355-388 | an ancestor's ancestor is an ancestor: walks compose |
| `Headers.AgreesBelow` | core/headerchain.go:186-199 | where the index agrees with a path at one number it agrees at all lower ones |
| `HeaderChain.HeaviestStays` | core/headerchain.go:148-170 | after storing a header the heavier of head and header outweighs everything stored |
| `HeaderChain.HeaviestIs` | core/headerchain.go:490-543 | a head outweighs everything stored if and only if it outweighs what is off its own path, because weights grow along a path |
| `HeaderChain.Rerouted` | core/headerchain.go:176-204 | clearing above the new head and rewriting down to the meeting point makes the index exactly the new head's path |
| `HeaderChain.HeaderChain.constructor` | core/headerchain.go:79-116 | a chain with only genesis satisfies the invariants |
| `HeaderChain.HeaderChain.Open` | core/headerchain.go:79-116 | resumes at the stored head block or at genesis; the index is the head's path if and only if that marker is the top of the index |
| `HeaderChain.HeaderChain.GetTd` | core/headerchain.go:390-404 | whatever it returns is the recorded sum; found whenever asked under the right number; what is found is cached |
| `HeaderChain.HeaderChain.GetHeader` | core/headerchain.go:416-430 | whatever it returns is the stored header; found whenever asked under the right number; what is found is cached |
| `HeaderChain.HeaderChain.Evict` | core/headerchain.go:390-430 | the caches may lose anything at any time without changing an answer's truth |
| `HeaderChain.HeaderChain.ClearAbove` | core/headerchain.go:177-184 | stopping at the first missing number collects every index entry above the new head |
| `HeaderChain.HeaderChain.Reroute` | core/headerchain.go:186-199 | the walk back ends, never leaves the store, and collects exactly the path entries above the meeting point |
| `HeaderChain.HeaderChain.WriteHeader` | core/headerchain.go:133-216 | in every run: index is exactly the head's path with nothing above, every td the sum along its path, and if no stored header outweighed the head none does; an unknown parent is refused; a tie is decided by the coin |
| `HeaderChain.HeaderChain.InsertHeaderChain` | core/headerchain.go:276-325 | of verified headers in any order, repetitions included, exactly those before the first with an unknown parent or a noticed shutdown are stored, and the answer says which; a linked batch is stored whole or not at all unless a shutdown stops it; an empty batch crashes; invariants kept |
| `HeaderChain.HeaderChain.GetAncestor` | core/headerchain.go:350-388 | failure or exactly the k-th parent and number - k; succeeds if and only if the steps off the index fit the budget, which pays for exactly those |
| `HeaderChain.HeaderChain.SetHead` | core/headerchain.go:490-543 | the index is exactly the old one cut at the number, exactly the headers cut off are deleted; store and index are consistent again if and only if no stored side branch forks off above the cut, and the head is then heaviest if and only if no header off its chain outweighs it |
| `HeaderChain.CutLinks` | core/headerchain.go:492-543 | every entry of a cut index is stored and its parent is the entry below |
| `HeaderChain.CutRooted` | core/headerchain.go:492-543 | what a cut leaves is closed under parents if and only if no header that stays has a parent that goes |
| `HeaderChain.DanglingHappens` | core/headerchain.go:492-543 | a side block on a canonical parent, cut below it, keeps the block and loses the parent |
| `HeaderQuery.HeadersByHash` | fort/handler.go:396-480 | replies start at the origin and are exactly Skip+1 generations apart in both directions, for every 64-bit Skip, within amount and fetch limit; the reply is empty if and only if the origin is unknown, the amount is 0, or the amount is 2^63 or more and so negative as a signed number; a reply stops early only where there is no next origin, toward genesis also where the steps off the index used up the budget of 100, so along the canonical chain only where no further header exists |
| `HeaderQuery.Descend` | fort/handler.go:436-446 | toward genesis: the next origin is exactly Skip+1 generations below; there is none exactly when Skip+1 wraps, genesis is nearer than that, or the steps off the index exceed the budget; the budget left is less by exactly those steps |
| `HeaderQuery.Ascend` | fort/handler.go:447-469 | toward the leaves: the next origin descends from this one by exactly Skip+1 generations; there is none exactly when the number wraps or lies above the head, or this origin is not canonical |
| `HeaderQuery.CanonicalAncestor` | fort/handler.go:436-446 | from a canonical origin every ancestor within reach of genesis is found by the index |
| `HeaderQuery.NoOverflow` | fort/handler.go:449-457 | comparing the wrapped sum with its first part detects overflow exactly |
| `HeaderQuery.BlockHashes.GetHash` | core/evm.go:61-93 | for every sequence of queries the cached answer equals the plain walk over parents, and numbers at or above the block give nothing |
| `BlockChain.RemovedIsAscending` | core/blockchain.go:1954-1997 | logs gathered from the old head downward and merged backward are the branch's logs in ascending block order |
| `BlockChain.MarkedWithdraws` | core/blockchain.go:1954-1977 | removed logs are the same logs in the same order, each flagged as removed |
| `BlockChain.CoverIsPath` | core/blockchain.go:658-685 | a gap-free index that is the head's path up to the head is exactly that path if and only if it reaches no further |
| `BlockChain.MovedExact` | core/blockchain.go:2046-2065 | after a switch the transaction lookup index is exactly the new chain's, if it was the old chain's and no transaction of the old branch is also below the fork |
| `BlockChain.LeftoversHappen` | core/blockchain.go:2066-2077 | a heavier one-block branch beside a longer old one is a case where the index still reaches above the new head |
| `BlockChain.BlockChain.WriteHeadBlock` | core/blockchain.go:652-685 | enters the block at its number and its transactions in the lookup index; the other heads follow only if the number had another block |
| `BlockChain.BlockChain.FindFork` | core/blockchain.go:1999-2040 | the two walks meet at the highest common number, having gathered exactly the two branches above it, their transactions and removed logs |
| `BlockChain.BlockChain.Rewrite` | core/blockchain.go:2046-2057 | the new branch below its head becomes canonical lowest first; reborn logs are in ascending block order |
| `BlockChain.BlockChain.ClearAbove` | core/blockchain.go:2066-2077 | collects every index entry above the current block |
| `BlockChain.BlockChain.Reorg` | core/blockchain.go:1939-2104 | index and lookup index move to the new branch; removed logs are exactly the old branch's, in order and flagged as removed, and reborn logs the new branch's below its head, both ascending; side events are exactly the old branch, lowest block first |
| `BlockChain.BlockChain.MakeHead` | core/blockchain.go:1443-1458 | after the switch the index is the new head's path up to it, and how far it reaches above is known exactly |
| `BlockChain.BlockChain.WriteKnownBlock` | core/blockchain.go:1319-1333 | from an exact index the new index is exact if and only if the new branch has at least two blocks or the old head is not higher |
| `BlockChain.BlockChain.HeadsNeverReturn` | core/blockchain.go:1424-1442 | over the heads that writing blocks chose one after the other, as long as nothing else moved the head and the node's answer about its own blocks stayed the same: the weight never falls, and without a coin toss the heads climb strictly by weight, lower number and own block, so no head returns |
| `BlockChain.BlockChain.Choose` | core/blockchain.go:1424-1442 | the written block replaces the head exactly by weight, then lower number, then own block, then the coin; each choice continues the recorded run of heads, which stays one of strict replacements |
| `BlockChain.BlockChain.WriteBlockWithState` | core/blockchain.go:1343-1482 | unknown parents are refused; the block becomes head exactly when preferred; removed logs, in order and flagged as removed, and reborn logs followed by the head's are exactly the two branches' logs; lookup index exact; the head stays heaviest |
| `ChainIndexer.CanonicalBelow` | core/chain_indexer.go:417-427 | stored heads below a canonical stored head are canonical too |
| `ChainIndexer.ChainIndexer.constructor` | core/chain_indexer.go:100-119 | resumes with the sections a database without a checkpoint holds; the invariant holds |
| `ChainIndexer.ChainIndexer.SetValidSections` | core/chain_indexer.go:468-481 | drops exactly the heads of the sections from the new count on |
| `ChainIndexer.ChainIndexer.AddCheckpoint` | core/chain_indexer.go:121-140 | counts everything up to the checkpoint as stored, ignored if that is no progress, whether or not a section is in process |
| `ChainIndexer.ChainIndexer.NewHead` | core/chain_indexer.go:239-297 | only a reorg drops stored sections, to exactly those still complete but never below the checkpoint; otherwise known sections rise to exactly the confirmed ones, past the checkpoint only if the chain has its head, and stored ones stay |
| `ChainIndexer.ChainIndexer.VerifyLastHead` | core/chain_indexer.go:417-427 | afterwards the last stored section above the checkpoint is canonical and, with a gap-free index, so are all stored sections; every section dropped was not canonical |
| `ChainIndexer.ChainIndexer.Begin` | core/chain_indexer.go:314-332 | takes on the section after the last stored one, on top of its head; that head is still canonical, or no higher than the checkpoint, and what was dropped was not |
| `ChainIndexer.ChainIndexer.ProcessSection` | core/chain_indexer.go:381-415 | succeeds exactly if reset and commit do and every read gives a header of the right number on top of the one before, taken by the backend, whatever the chain was at each read; the result is then the last one, exactly one section length above the old head, and is kept with the section until it is finished |
| `ChainIndexer.ChainIndexer.Finish` | core/chain_indexer.go:343-366 | stores the section exactly if the head it built on is still stored, dropping any above it; otherwise gives it up and drops the stored sections above the checkpoint that are no longer canonical |
| `ChainIndexer.Restack` | core/chain_indexer.go:343-352 | a section overtaken by a checkpoint while in process is stored all the same and takes everything above it away |
| `ChainIndexer.ChainIndexer.Import` | core/chain_indexer.go:385-415 | new headers change no stored section |
| `Feed.Find` | event/feed.go:212-220 | the first position of a channel, or -1 exactly if it is absent |
| `Feed.AccountServe` | event/feed.go:227-232 | swapping a case out of the prefix takes exactly that case out and moves nothing else |
| `Feed.AccountRemove` | event/feed.go:222-225 | shifting a case out takes it from the prefix only if it was in it |
| `Feed.Feed.constructor` | event/feed.go:60-65 | a new feed has no subscribers |
| `Feed.Feed.Subscribe` | event/feed.go:67-92 | the new subscription is live and in the inbox |
| `Feed.Feed.RemoveFromInbox` | event/feed.go:103-114 | takes the channel out of the inbox if it is there, otherwise it waits for the case list |
| `Feed.Feed.RemoveCase` | event/feed.go:116-123 | a waiting channel is always found in the case list and leaves it |
| `Feed.Feed.RemoveIdle` | event/feed.go:103-124 | without a send in progress one subscription is gone afterwards |
| `Feed.Feed.Delete` | event/feed.go:222-225 | shifts the case out in place |
| `Feed.Feed.Deactivate` | event/feed.go:227-232 | swaps the case with the last of the prefix in place |
| `Feed.Feed.TakeInbox` | event/feed.go:134-137 | the inbox goes behind the cases in order, and every live subscription is then a case |
| `Feed.Feed.Send` | event/feed.go:126-190 | under every interleaving each subscription live at the start is served exactly once or was removed unserved; the count is the number of deliveries; live subscriptions stay in exactly one of inbox and cases; every round shrinks the two lengths |
| `Gas.UsedGas` | core/state_transition.go:235-255 | the refund is paid in full up to half of the gas spent, and otherwise that half, rounded down |
| `Gas.TotalUpdate` | core/state_transition.go:156-169 | changing one balance changes the total by the difference |
| `Gas.GasPool.AddGas` | core/gaspool.go:28-35 | adds; that the sum fits 64 bits is required and met by every caller |
| `Gas.GasPool.SubGas` | core/gaspool.go:37-45 | takes the gas exactly if there is enough |
| `Gas.StateTransition.UseGas` | core/state_transition.go:147-154 | takes the gas exactly if there is enough |
| `Gas.StateTransition.BuyGas` | core/state_transition.go:156-169 | succeeds exactly if sender and block can afford the limit, then both have paid for it; otherwise nothing changed |
| `Gas.StateTransition.PreCheck` | core/state_transition.go:171-182 | both nonce errors exactly, then as buying gas |
| `Gas.StateTransition.RefundGas` | core/state_transition.go:235-250 | sender and block get back exactly what was not used after the capped refund |
| `Gas.StateTransition.Pay` | core/state_transition.go:230-230 | with the refund, the fee makes up what the sender paid in advance |
| `Gas.StateTransition.Prepare` | core/state_transition.go:188-204 | passes exactly if every check passes, and hands the machine what is left after the intrinsic cost |
| `Gas.StateTransition.TransitionDb` | core/state_transition.go:184-233 | succeeds exactly when the checks pass and the first transfer is possible; then pool plus used gas and the sum of balances are as before, and the final balances are given exactly; account by account: the machine is handed the sender's balance less its whole gas limit at its price, and for a call its next nonce; of what it leaves, the sender gets the price of the unused gas, the coinbase that of the used gas, and nobody else anything |
| `Gas.ApplyTransaction` | core/state_processor.go:84-116 | succeeds exactly when the message passes every check with the gas that is left; then worlds, receipt and pool are exactly those of the transition, and pool plus cumulative gas stays the limit |
| `Gas.Process` | core/state_processor.go:49-82 | a result is a full run of the block's messages, with exactly its receipts, gas and final world, and an error names the message on which the run before it is stuck; receipts carry prefix sums, never above the limit; the sum of balances up to Finalize is the one before the block, provided the DAO refund account is not itself drained |
| `Gas.RunsAgree` | core/state_processor.go:49-82 | two runs of a block agree as far as both go |
| `Gas.StuckEnds` | core/state_processor.go:49-82 | a run that is stuck on a message goes no further |
| `Gas.OneOutcome` | core/state_processor.go:49-82 | a block either completes, with one list of receipts and one final world, or is stuck on one message, never both: what Process answers is determined |
| `Executability.PayableMeans` | core/types/transaction.go:248-253 | the pool's test of a transaction is exactly that its sender can buy its gas within the block's limit and then still pay what it sends |
| `Executability.AdmittedPasses` | core/tx_pool.go:524-570 | a transaction the pool admits passes, when its turn comes, every check of the state transition in a block with room for its gas |
| `Executability.OthersFail` | core/state_transition.go:171-182 | one with another nonce than the account's does not |
| `Gas.RunFits` | core/state_processor.go:49-82 | in a run every message fitted into what was left and the receipts carry prefix sums |
| `Gas.LegPays` | core/state_processor.go:49-82 | in every step of a block's run sender and coinbase are charged and paid exactly so |
| `Gas.ApplyDAOHardFork` | consensus/misc/dao.go:74-85 | drains the listed accounts into the refund account one after the other |
| `Gas.DrainMoves` | consensus/misc/dao.go:74-85 | if the refund account is not drained itself, the sum of balances stays, the drained accounts end empty and no other changes |
| `GasLimit.MoveIsBounded` | core/block_validator.go:104-139 | from 5*1024 on the limit moves by strictly less than parent/1024 for every usage and target |
| `GasLimit.FullBlockMovesTooFar` | core/block_validator.go:104-139 | below 5*1024 a full block moves the limit by the whole bound |
| `GasLimit.BoundedExactlyFrom` | core/block_validator.go:104-139 | for limits at or above the minimum the bound holds for every usage and target if and only if the parent's limit is at least 5*1024 |
| `GasLimit.ThreeCases` | core/block_validator.go:104-139 | the exact limit for every parent in range, usage, floor and ceiling: what usage asks for if that is between the targets, otherwise one step toward the target it missed, or the target if nearer |
| `GasLimit.BetweenTargets` | core/block_validator.go:104-139 | between the targets the limit moves by exactly (used + used/2)/1024 - (parent/1024 - 1), after an empty block down by parent/1024 - 1 |
| `GasLimit.FollowsUsage` | core/block_validator.go:104-139 | from a parent between the targets the limit rises exactly if the first of these terms is the greater, and falls exactly if it is the smaller |
| `GasLimit.TwoThirdsRaise` | core/block_validator.go:104-139 | a parent used to two thirds raises the limit |
| `GasLimit.LessThanTwoThirdsRaises` | core/block_validator.go:104-139 | so does one used a little less, which the strategy comment denies |
| `GasLimit.OutsideTargets` | core/block_validator.go:104-139 | more than a step below the floor or above the ceiling the limit makes exactly one step back, whatever was used |
| `GasLimit.MonotoneExactly` | core/block_validator.go:104-139 | more usage never gives a lower limit, for any parent in range, if and only if the floor is not above the ceiling or not above the minimum |
| `GasLimit.StepsTowardTarget` | core/block_validator.go:125-137 | with floor and ceiling equal the limit steps toward them by the smaller of distance and decay, whatever was used |
| `GasLimit.Approaches` | core/block_validator.go:125-137 | along any sequence of blocks the distance falls by a decay per block and the target is never overshot |
| `GasLimit.ReachesTarget` | core/block_validator.go:125-137 | so the target is reached as soon as the decays make up the distance, and kept |
| `GasLimit.StepsSuffice` | core/block_validator.go:125-137 | a quarter of the distance, rounded up, is always enough |
| `DerivationPath.ParseDerivationPath` | accounts/hd.go:61-118 | returns the meaning of the text, the first error counting; an accepted path is never empty |
| `DerivationPath.String` | accounts/hd.go:120-136 | prints the canonical text |
| `DerivationPath.ComponentRoundTrip` | accounts/hd.go:89-116 | every 32-bit component survives printing and parsing, hardened bit and decimal digits included |
| `DerivationPath.ScanDecimal` | accounts/hd.go:100-103 | reading the decimal digits of a number gives the number |
| `DerivationPath.PrintThenParse` | accounts/hd.go:61-136 | parsing the printed form of any non-empty path gives that path back |
| `DerivationPath.EmptyPathDoesNotRoundTrip` | accounts/hd.go:84-87 | the empty path is the one exception: its printed form is rejected |
| `DerivationPath.ParsePrintParse` | accounts/hd.go:61-136 | an accepted text, printed and parsed again, means the same |
| `DerivationPath.RelativeIsBelowDefaultRoot` | accounts/hd.go:68-83 | a relative path means what it means behind m/44'/60'/0'/0 |
| `DerivationPath.SpacesAround` | accounts/hd.go:91-92 | white space around a component is ignored |
| `DerivationPath.SpacesBeforeMark` | accounts/hd.go:95-99 | so is white space before the hardening mark |
| `DerivationPath.DecimalInRange` | accounts/hd.go:101-112 | a decimal number without a mark is accepted exactly if it fits 32 bits |
| `DerivationPath.HardenedInRange` | accounts/hd.go:95-112 | one with the hardening mark exactly if it fits beside the hardened bit |
| `DerivationPath.SignsRead` | accounts/hd.go:101-112 | signs are read, and a negative number is out of range |
| `DerivationPath.PrefixesRead` | accounts/hd.go:100-104 | binary, octal and hexadecimal numbers are read with either case of prefix and digits |
| `DerivationPath.SeparatorRead` | accounts/hd.go:100-104 | an underscore between digits changes nothing |

## Left out

- Pool nonces are natural numbers: the wrap-around of a 64-bit nonce is not modelled.
- The pool holds its lists by value, as the functions that class `TxList` is proved to implement: aliasing of list objects between pool and caller is not modelled.
- Pool.TxPool.Reset: takes the transactions to reinject as an argument; `RequestFor` computes it, and its early returns are the request `ResetFails`.
- Reinjection.Reinject: the distance of the two heads is exact, where the original rounds numbers above 2^53 to floating point; a new head that is not stored itself, on which the original crashes, is excluded.
- Pool.TxPool.RunReorg: for a reset that lowers nonces or reinjects transactions contiguity and which queued transactions stay executable are not stated; events are a set, not grouped by account.
- Pool.TxPool.Add: in a full pool the stale counter's condition is stated in one direction, because which dead copies making room pops depends on the heap's layout.
- Pool.TxPool.TruncateQueue: the order in which one account's transactions are removed is modelled, but only the resulting sets are stated.
- Pool metrics, the journal, locals loaded from disk, status queries and content dumps.
- Pending-list contiguity after a reset that lowers account nonces, which the original checks only at the front of a list.
- The merging of error slots in `addTxs` and the transaction lookup cache across reorgs.
- Scheduler: that a launched run does its work is the subject of `RunReorg`; here a run is what it was launched with.
- HeaderChain.HeaderChain.SetHead: where a side branch forks off above the cut the store is no longer closed under parents (exactly then), and later operations on such a store are not covered.
- HeaderChain.HeaderChain.GetAncestor: reads the index as it is at the call; the second read that guards against a concurrent reorganisation is not modelled.
- HeaderQuery.HeadersByHash: queries by number are not modelled, only those by hash.
- The ancient store, receipt chains, fast sync, state commits and trie garbage collection, future blocks.
- BlockChain.BlockChain.Reorg: missing ancestors cannot occur in a store closed under parents, so its error returns are present but never taken.
- ChainIndexer.ChainIndexer.NewHead: child indexers and the notifications cascaded to them are not modelled, nor is throttling.
- ChainIndexer.ChainIndexer.constructor: resuming from a database that holds a checkpoint is not modelled, because the checkpoint itself is not stored there.
- ChainIndexer.ChainIndexer.VerifyLastHead: assumes the canonical index does not change during the call.
- Feed: the element type test and its panic; channel buffering and blocking are the arbitrary readiness of receivers.
- Gas.StateTransition.TransitionDb: the virtual machine, its state and its refund counter are abstract; the zero gas price or fee cases are not treated specially, as in the original.
- Block rewards and everything else the consensus engine does in Finalize, receipts' logs and blooms.
- DerivationPath: integers are read as `math/big` reads them with base 0 in Go 1.13 and later; JSON encoding is not modelled.
- Everything else in the repository: networking, RPC, consoles, key files, consensus engines, tries, the virtual machine.
