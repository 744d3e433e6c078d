# Verified models of the node's data structures and protocols

Dafny models of the parts of the node that carry an invariant of their own, with proofs over every input,
every run or every reachable state. `dafny verify dfyconfig.toml` checks the whole project.

Where the code changes things in place the model does too: the address manager, the coin caches, the lock
manager, the limb arrays, the chain index, the filters and caches, the digit buffers, the node list and the
partially downloaded block are classes or arrays with methods, each proved against a function or a property of
its inputs. The check queue is a step system over the critical sections of its mutex.

| component | files |
|---|---|
| stochastic address manager | `AddrManModel`, `AddrManInvariant`, `AddrManEffects`, `AddrMan`, `AddrManCheck`, `AddrManDisk`, `AddrManSteps`, `AddrManLoad` |
| layered coin caches | `CoinsModel`, `Coins`, `CoinsDb` |
| parallel check queue | `CheckQueue`, `CheckQueueProofs` |
| InstantSend locks | `InstantSendModel`, `InstantSendProofs`, `InstantSendEffects`, `InstantSendQuorum`, `InstantSendSweep`, `InstantSendLookup`, `InstantSendForeignVote`, `InstantSend` |
| 256-bit arithmetic, compact targets, work | `Limbs`, `BaseUint`, `BaseUintShift`, `Compact` |
| block tree and active chain | `Skip`, `Chain` |
| rolling bloom filter, cuckoo cache | `FastRange`, `RollingBloom`, `Cuckoo`, `CuckooRuns` |
| Bech32, Base58 | `Bech32Checksum`, `Bech32Pairs`, `Bech32`, `Radix`, `Base58` |
| infinity-node rewards and scan | `InfinitynodeModel`, `InfinitynodeLife`, `Infinitynode` |
| compact blocks | `CompactBlock` |
| shared | `Order`, `Powers` |

Hash functions are arbitrary functions (fields of an environment). Randomness, clocks, the network, the mempool
and the answers of other subsystems are arguments. Bits of words are modelled as sequences of booleans where the
code works bit by bit, limbs as numbers below 2 to the 32 with every 64-bit intermediate typed.

Where the code and its own comments disagree the model follows the code: the first displacement of the cuckoo
cache goes to the second location, since `(1 + 8) & 7` is 1 (the comment says the first), and the rolling filter
remembers the current generation and two full ones, which is more than the documented number of keys.

## Model

| member | source | states |
|---|---|---|
| `AddrManInvariant.EveryRunIsConsistent` | src/addrman.cpp:93-614 | from a cleared manager, every run of Add_, Good_, Attempt_, Connected_, SetServices_, GetAddr_, ResolveCollisions_ and SelectTriedCollision_ with positive clock readings ends in a state that meets all conditions of Check_ |
| `AddrManInvariant.Step` | src/addrman.cpp:93-614 | each of these operations takes a state that meets all conditions of Check_ to one that does |
| `AddrManInvariant.Run` | src/addrman.cpp:93-614 | so does any sequence of them |
| `AddrManInvariant.ClearedIsConsistent` | src/addrman.h:471-493 | a cleared manager meets all conditions of Check_ |
| `AddrManInvariant.Swapped` | src/addrman.cpp:93-111 | swapping two positions keeps vRandom and nRandomPos inverse to each other and everything else as it was |
| `AddrManInvariant.Deleted` | src/addrman.cpp:113-125 | the three asserts of Delete hold for an unreferenced new entry, and deleting it keeps every condition with nNew one less |
| `AddrManInvariant.ClearedCell` | src/addrman.cpp:127-140 | the assert of ClearNew holds; the cell is emptied, the reference count stays the number of cells holding the id, and the entry is deleted exactly when that becomes zero |
| `AddrManInvariant.Rehoused` | src/addrman.cpp:156-180 | an entry evicted from a tried cell always gets its primary new cell, whoever held it, even when that clears out another entry |
| `AddrManInvariant.MadeTried` | src/addrman.cpp:142-188 | moving an entry to the tried table keeps every condition, and none of the asserts on the way can fire |
| `AddrManInvariant.GoodOnceMore` | src/addrman.cpp:190-252 | Good_ keeps every condition, whether it promotes the entry, finds a collision or does nothing |
| `AddrManInvariant.Filed` | src/addrman.cpp:303-322 | whichever way the contest for a new cell ends, no entry is left without a reference and no other entry without its own |
| `AddrManInvariant.Added` | src/addrman.cpp:254-325 | Add_ keeps every condition for new, known, tried and unroutable addresses alike |
| `AddrManInvariant.Gathered` | src/addrman.cpp:474-493 | the partial shuffle of GetAddr_ keeps every condition and yields entries that are known, distinct and not terrible: as many as the limit allows, or every one there is |
| `AddrManInvariant.Resolved` | src/addrman.cpp:537-587 | resolving a pending collision keeps every condition, evicting or not |
| `AddrManInvariant.CollisionNamesAnEntry` | src/addrman.cpp:589-614 | a pending collision always names an occupied tried cell: the branch for a cell that has become free is dead code |
| `AddrMan.AddrMan.constructor` | src/addrman.h:471-498 | Clear leaves the state the runs start from |
| `AddrMan.AddrMan.SwapRandom` | src/addrman.cpp:93-111 | the object performs the swap of the model in place |
| `AddrMan.AddrMan.Delete` | src/addrman.cpp:113-125 | the object performs the deletion of the model |
| `AddrMan.AddrMan.ClearNew` | src/addrman.cpp:127-140 | the object performs the clearing of the model |
| `AddrMan.AddrMan.MakeTried` | src/addrman.cpp:142-188 | the loop over all new buckets, the eviction and the entry in the tried table add up to the model's single move |
| `AddrMan.AddrMan.Good` | src/addrman.cpp:190-252 | an entry for exactly this address and port that is not tried yet is tried afterwards, holding its tried cell and no new one, unless the holder of that cell is to be tested first; that holder, if any, then holds its primary new cell only, and whoever held that one loses it; a candidate that must wait is on the list if it was or fewer than ten were; everybody else is untouched |
| `AddrMan.AddrMan.Add` | src/addrman.cpp:254-325 | an unknown routable address is stored if and only if its cell is free, or the holder is terrible or has another cell, and then holds exactly that cell with the given fields and the penalised time; a known one gains the cell if and only if the news is later than its time, it is not tried, has fewer than eight cells, the draw is 0 and the cell is free or its holder terrible; only the displaced holder changes besides |
| `AddrMan.AddrMan.Attempt` | src/addrman.cpp:327-347 | the attempt is counted once per success period, as in the model |
| `AddrMan.AddrMan.Connected` | src/addrman.cpp:495-513 | the time of an exactly matching entry moves on when it is more than 20 minutes old |
| `AddrMan.AddrMan.SetServices` | src/addrman.cpp:515-531 | the services of an exactly matching entry are replaced |
| `AddrMan.AddrMan.GetAddr` | src/addrman.cpp:474-493 | the addresses of exactly the entries the partial shuffle gathers: at most 23 percent and at most 2500, no address twice, each of an entry that is not terrible, and either the limit is reached or no such entry is missing |
| `AddrMan.AddrMan.ResolveCollisions` | src/addrman.cpp:537-587 | every pending collision is resolved, postponed or dropped, in id order |
| `AddrMan.AddrMan.ResolveCollision` | src/addrman.cpp:539-586 | dropped when the candidate is gone or not valid or the holder of its tried cell answered within four hours, swapped in when the holder was last tried over a minute but under four hours ago, left alone otherwise |
| `AddrManEffects.AddTakesEffect` | src/addrman.cpp:254-325 | what Add_ does to the tables and to each entry, as above, for every consistent state |
| `AddrManEffects.GoodTakesEffect` | src/addrman.cpp:190-252 | what Good_ does to the tables and to each entry, as above, the evicted and the displaced one included |
| `AddrManEffects.ResolveTakesEffect` | src/addrman.cpp:537-587 | when a pending collision is swapped in, kept or dropped, by the times of the holder |
| `AddrManEffects.CountedOncePerSuccess` | src/addrman.cpp:327-347 | between two successes of the node a failure is counted once per address, however often it is tried |
| `AddrManEffects.ConnectedKeepsUp` | src/addrman.cpp:495-513 | the time on record is never more than twenty minutes behind a connection and moves only when it has to |
| `AddrManEffects.TerribleInTime` | src/addrman.cpp:33-51 | when an entry is terrible by its time, its failures and its last success, never within a minute of an attempt, and that it stays so if left alone |
| `AddrMan.AddrMan.SelectTriedCollision` | src/addrman.cpp:589-614 | returns the holder of the tried cell a pending collision contends for |
| `AddrManCheck.Check` | src/addrman.cpp:397-471 | Check_ itself, loop by loop with its error codes, returns 0 if and only if the counters agree with the entries, every entry passes its tests, both tables hold exactly the cells the entries hash to and count, and there is a key |
| `AddrManCheck.ReportsNothingIff` | src/addrman.cpp:397-471 | with a key, the conditions kept by every run are those under which Check_ returns 0 together with the one on ids and mapAddr, of which it sees only a part; vRandom being a permutation follows by counting |
| `AddrManCheck.QuietWhenConsistent` | src/addrman.cpp:397-471 | Check_ has nothing to report on any consistent manager with a key |
| `AddrManDisk.Serialize` | src/addrman.h:316-363 | neither counter assert can fire, and what is written is the key, the counters, the new and the tried entries in id order and per new bucket the numbers of its entries |
| `AddrManLoad.Unserialize` | src/addrman.h:366-469 | fails exactly on a wrong key size, counts beyond the tables or a stream that ends early; after any other file vRandom is a permutation of the entries, both tables hold exactly the cells the entries hash to and count, and the counters are right, if and only if neither count in the file is negative; reading what Serialize wrote from a consistent state loses nothing (nLost and nLostUnk zero) and restores both tables cell by cell up to renumbering of ids |
| `AddrManSteps.LoadTriedTable` | src/addrman.h:414-432 | an entry of the tried table whose cell is free leaves the tried table right if and only if its id is not -1, the mark of an empty cell |
| `AddrManSteps.NegativeCountLosesCell` | src/addrman.h:382-432 | a file announcing -1 new entries and one tried: the entry gets the id -1 and its cell stays empty |
| `AddrManSteps.LoadNewTabled` | src/addrman.h:393-411 | reading an entry of the new table, with or without usable buckets, keeps both tables right |
| `AddrManSteps.LoadRefTabled` | src/addrman.h:434-451 | so does reading a reference, whatever index the file names |
| `AddrManCheck.LeftToReport` | src/addrman.h:366-469 | in the state read from any file without negative counts Check_ reports nothing if and only if there is a key, every address leads back to its entry and the times are in range |
| `AddrManCheck.EveryEntryHasCell` | src/addrman.h:366-469 | in that state every tried entry holds its tried cell and every other one a new cell |
| `AddrManLoad.Renumbered` | src/addrman.h:393-412 | the renumbering is a bijection from the old ids onto 0 up to their count |
| `AddrManLoad.NumberLeadsBack` | src/addrman.h:349-361 | the number written for a cell of a new bucket leads back to its entry, and the hash of that entry to the cell |
| `AddrManLoad.Prune` | src/addrman.h:455-463 | exactly the entries without a tried cell and without a reference are dropped and counted, the others keep all but their place in the random order, and Delete's asserts hold for any file |
| `AddrManLoad.RestoredIsConsistent` | src/addrman.h:366-469 | the restored manager meets all conditions of Check_ again |
| `CoinsModel.MergeIsExact` | src/coins.cpp:145-200 | with honest flags the write-back of one dirty entry is exact, keeps the parent's flags honest and cannot reach the logic_error |
| `CoinsModel.WrittenBack` | src/coins.cpp:145-200 | writing an entry back and forgetting it leaves the child's view as it was |
| `CoinsModel.AddIsExact` | src/coins.cpp:66-85 | AddCoin adds the coin to the view; FRESH stays truthful if and only if the caller allows an overwrite or the view shows no such coin |
| `CoinsModel.SpendIsExact` | src/coins.cpp:98-112 | SpendCoin removes the coin from the view, keeps the flags truthful and cachedCoinsUsage exact |
| `CoinsModel.UncacheIsUnseen` | src/coins.cpp:210-217 | dropping an entry without flags changes no view |
| `CoinsModel.StackExchanged` | src/coins.cpp:40-217 | a layer exchanged for one that shows the same changes nothing any layer above shows |
| `Coins.CoinsViews.FetchCoin` | src/coins.cpp:40-55 | fetching through any number of layers changes no view and touches this cache at that outpoint only; it finds what the view shows |
| `Coins.CoinsViews.GetCoin` | src/coins.cpp:57-64 | returns the coin the view shows |
| `Coins.CoinsViews.AddCoin` | src/coins.cpp:66-85 | throws exactly when overwriting is not allowed and the cache holds an unspent coin; otherwise the top view gains the coin, unspendable ones aside; the exception changes no view but leaves cachedCoinsUsage short of the memory of that coin |
| `Coins.CoinsViews.SpendCoin` | src/coins.cpp:98-112 | hands out the coin of the view and removes it |
| `Coins.CoinsViews.Uncache` | src/coins.cpp:210-217 | drops the entry exactly when it has no flag, and no view changes |
| `Coins.CoinsViews.BatchWrite` | src/coins.cpp:145-201 | the loop over the child's entries makes the parent's view the child's view; the logic_error is not reached |
| `Coins.CoinsViews.BatchWriteDb` | src/txdb.cpp:108-119 | what the database holds after the child's dirty entries are written, unspent coins written and spent ones erased |
| `CoinsDb.CoinsViewDB.BatchWrite` | src/txdb.cpp:83-142 | the dirty entries are on disk with the new best block; every disk in between, whenever a batch grows too large, has no best block, the two ends of the transition, and part of the entries written |
| `CoinsDb.CrashIsHarmless` | src/txdb.cpp:83-142 | a disk left by a crash at any point is wholly old or wholly new if it has a best block, and otherwise writing the entries again, from the same old block, gives the new one |
| `CoinsDb.WritingAgain` | src/txdb.cpp:92-100 | the block a transition came from is still known, the assert on its target holds, and all entries over a part of them is all of them |
| `CoinsDb.MidwayMixes` | src/txdb.cpp:108-131 | every coin of a disk in transition is the old one or the new one |
| `CoinsDb.DirtiedShows` | src/txdb.cpp:108-119 | with honest flags the dirty entries alone make the database show what the cache showed |
| `Coins.CoinsViews.Flush` | src/coins.cpp:203-208 | the parent shows what the top showed and the top cache is empty |
| `Coins.CoinsViews.Run` | src/coins.cpp:40-217 | for a stack of caches of any depth every legal run of operations is indistinguishable from the same run on one plain map per layer: same answers, same views, no exception, FRESH truthful and usage exact throughout |
| `CheckQueue.BatchIsShare` | src/checkqueue.h:102-107 | a batch is an equal share of the queue among all threads and as many again as are idle, at most the batch size and at least one |
| `CheckQueueProofs.EveryInterleaving` | src/checkqueue.h:66-158 | in every interleaving of one master and any number of workers: nTodo is the queued checks plus those in unfinished batches, nIdle and nTotal are exact, every Wait so far returned the conjunction of its round's checks, and a master asleep un-notified implies a worker holding an unfinished batch |
| `CheckQueueProofs.StepKeepsInv` | src/checkqueue.h:66-158 | each atomic step keeps all that and never takes a counter below zero |
| `CheckQueueProofs.RoundsPartition` | src/checkqueue.h:66-158 | every check added belongs to exactly one round, in order: none is skipped and none leaks into the next |
| `CheckQueueProofs.SomeoneHolds` | src/checkqueue.h:66-106 | no wake-up is lost: while the master sleeps un-notified some worker has a batch to finish |
| `CheckQueueProofs.WaitIsNeverStuck` | src/checkqueue.h:66-143 | until Wait has returned some thread can take a step that is not a spurious wake-up |
| `CheckQueueProofs.WaitReturns` | src/checkqueue.h:66-143 | once Wait is called, any schedule takes a bounded number of such steps, whatever spurious wake-ups come between, and when none is left Wait has returned |
| `CheckQueueProofs.Locked` | src/checkqueue.h:66-124 | booking a batch and taking the next one, or returning, keeps the invariant |
| `CheckQueueProofs.AddedChecks` | src/checkqueue.h:146-158 | adding checks and notifying one or all workers keeps the invariant |
| `InstantSendProofs.EveryRunKeepsInv` | src/instantx.cpp:97-848 | in every reachable state, sweeps included, candidates are filed under their own hash with locks for all inputs or none, hold only votes for themselves, and every completed lock rests on a quorum of stored votes; an own vote that would read past the map ends its step there |
| `InstantSendProofs.LockedHasQuorum` | src/instantx.cpp:499-524 | a locked outpoint has six masternodes whose stored votes name exactly that transaction and outpoint |
| `InstantSendProofs.CompletesEveryInput` | src/instantx.cpp:559-664 | when ResolveConflicts finds nothing the insert-only locking leaves every input of the transaction locked by it |
| `InstantSendProofs.NeverBothLocked` | src/instantx.cpp:825-848 | two transactions that share an input are never both reported locked |
| `InstantSendProofs.SweptKeeps` | src/instantx.cpp:683-709 | removing expired candidates with every entry for their outpoints leaves no completed lock without its quorum |
| `InstantSendQuorum.OnlyOneReady` | src/instantx.h:257-272 | six and six out of ten: a quorum for one transaction keeps every other from being ready on the same outpoint, as their common voter has had both locks marked |
| `InstantSendQuorum.SweepKeepsWatch` | src/instantx.cpp:683-709 | the record that every stored vote is known and every double voter marked outlives a sweep if and only if no outpoint of an expired candidate carries a vote of a candidate that stays |
| `InstantSendQuorum.NeverBothReady` | src/instantx.cpp:400-435 | in every run whose sweeps meet that condition, two candidates are never both ready on one outpoint |
| `InstantSendQuorum.FinalizedOnlyLocks` | src/instantx.cpp:587-631 | in such runs the branch that drops two completed locks is never taken, so finalizing only ever adds locks |
| `InstantSendQuorum.SweptLockedIff` | src/instantx.cpp:683-709 | a transaction is reported locked after a sweep if and only if it was before and no expired candidate holds one of its outpoints |
| `InstantSendQuorum.LockedForGood` | src/instantx.cpp:499-524 | in such runs a transaction reported locked stays so up to a point if and only if no sweep until then meets an expired candidate on one of its outpoints |
| `InstantSendQuorum.LockedShutsOutOthers` | src/instantx.cpp:499-524 | in such runs no other candidate is ready on an outpoint of a transaction reported locked |
| `InstantSendQuorum.MarkedBoth` | src/instantx.cpp:400-423 | a masternode voting for two transactions on one outpoint has both locks marked attacked |
| `InstantSendQuorum.CastWatched` | src/instantx.cpp:250-301 | the node's own vote never makes it a double voter |
| `InstantSendSweep.SweepLetsTwoComplete` | src/instantx.cpp:683-709 | a concrete run in which only the sweep breaks the condition: six masternodes complete the lock of one transaction, an expired third candidate takes the record with it, the same six complete a conflicting one, and both candidates end up ready |
| `InstantSendLookup.ReadsPastMapIff` | src/instantx.cpp:248-265 | looking through the hashes voted for an outpoint, a masternode without a vote there dereferences the end of the candidate map if and only if one of the hashes has lost its candidate |
| `InstantSendLookup.LooksUpLiveIff` | src/instantx.cpp:221-307 | a whole own vote looks up only live candidates if and only if, before the call, no ranked outpoint it gets to reads past the map |
| `InstantSendLookup.CountedAnchoredIff` | src/instantx.cpp:400-435 | counting a vote keeps every recorded hash with a candidate that holds the outpoint if and only if the vote names an outpoint of its candidate |
| `InstantSendLookup.NextAnchored` | src/instantx.cpp:97-848 | the same for every operation, sweeps and conflicts included |
| `InstantSendLookup.EveryOwnVoteDefined` | src/instantx.cpp:197-308 | in every run whose counted votes name outpoints of their candidates, no own vote reads past the map |
| `InstantSendForeignVote.OwnVoteReadsPastMap` | src/instantx.cpp:209-308 | a concrete run to an own vote that does: a vote on an outpoint its transaction does not spend is recorded, its candidate expires, and a request spending that outpoint is voted on |
| `InstantSend.InstantSend.CreateTxLockCandidate` | src/instantx.cpp:150-186 | creates the candidate, or completes the empty one an early vote left, or refuses as timed out |
| `InstantSend.InstantSend.ProcessTxLockRequest` | src/instantx.cpp:97-148 | creates the candidate and tries to complete its lock |
| `InstantSend.InstantSend.ProcessTxLockVote` | src/instantx.cpp:311-445 | early votes are kept and the request retried when there are enough; others are checked for double votes, recorded, counted and may complete the lock; the answer tells which |
| `InstantSend.InstantSend.Vote` | src/instantx.cpp:197-308 | votes on each ranked outpoint not voted on before, stopping where an outpoint cannot be judged, and reports whether every look-up found its candidate, stopping where the source would read past the map |
| `InstantSend.InstantSend.HasAlreadyVoted` | src/instantx.cpp:252-265 | the loop over the recorded hashes in their order: reads past the map, finds a vote or finds none, exactly as the record and the candidates say |
| `InstantSend.InstantSend.TryToFinalizeLockCandidate` | src/instantx.cpp:499-524 | completes a ready lock that meets no conflict |
| `InstantSend.InstantSend.ResolveConflicts` | src/instantx.cpp:587-664 | true if and only if no input is locked by another transaction, none has another spender in the mempool, and the transaction is in a block or all its inputs are unspent |
| `InstantSendEffects.ResolvedIff` | src/instantx.cpp:587-664 | that, and two candidates are dropped if and only if a completed lock on an input is the first thing in the way |
| `InstantSendEffects.DroppedBoth` | src/instantx.cpp:602-630 | both are rejected, and past height 24 of a synced node both candidates go with every lock and record of their outpoints |
| `InstantSendEffects.FinalizedIff` | src/instantx.cpp:499-524 | a candidate is locked afterwards if and only if it was, or every input has six unmarked votes and nothing hinders |
| `InstantSendEffects.VoteLocksIff` | src/instantx.cpp:311-445 | a counted vote completes the lock if and only if with it every input has its quorum and nothing hinders |
| `InstantSendEffects.LockedRightfullyInEveryRun` | src/instantx.cpp:49-960 | whenever an outpoint becomes locked in a run, its transaction has all inputs locked with six votes each, no other spender of any of them is in the mempool, and it is in a block or all its inputs are unspent |
| `InstantSendEffects.AcceptedIff` | src/instantx.cpp:311-445 | a vote on a known transaction counts if and only if it comes within 15 seconds of the candidate, names one of its inputs and is its masternode's first on it |
| `InstantSendEffects.OwnVotesIff` | src/instantx.cpp:209-308 | the node votes on an outpoint if and only if it gets that far, is ranked for it and can sign, the candidate spends it and the masternode has not voted on it for any transaction |
| `InstantSendEffects.RequestFiled` | src/instantx.cpp:150-186 | a valid request is filed with every input and no votes, unless early votes made its candidate more than 15 seconds ago; one that was there stays |
| `InstantSendEffects.SweptAfter24` | src/instantx.cpp:683-709 | a sweep removes exactly the candidates confirmed more than 24 blocks ago |
| `InstantSendEffects.SweptRequests` | src/instantx.cpp:683-709 | and forgets exactly their requests, accepted or rejected |
| `InstantSend.InstantSend.LockTransactionInputs` | src/instantx.cpp:559-576 | inserts every outpoint of a ready candidate, replacing none |
| `InstantSend.InstantSend.CheckAndRemove` | src/instantx.cpp:683-734 | expired candidates go with every entry for their outpoints and their requests; timed-out early votes go |
| `InstantSend.InstantSend.IsLockedInstantSendTransaction` | src/instantx.cpp:825-848 | true exactly when the candidate has outpoints and each is locked by it |
| `InstantSend.InstantSend.IsEnoughOrphanVotesForTx` | src/instantx.cpp:468-497 | true exactly when every input has six early votes |
| `InstantSend.IsAllOutPointsReady` | src/instantx.cpp:1203-1213 | true exactly when there are locks and each is ready |
| `BaseUint.AddAssign` | src/arith_uint256.h:133-143 | the sum modulo 2 to the width, also of a number with itself, without 64-bit overflow |
| `BaseUint.Complement` | src/arith_uint256.h:67-73 | the largest number minus this one |
| `BaseUint.Increment` | src/arith_uint256.h:171-178 | the successor modulo 2 to the width |
| `BaseUint.Decrement` | src/arith_uint256.h:188-195 | the predecessor modulo 2 to the width |
| `BaseUint.Negate` | src/arith_uint256.h:75-82 | the additive inverse modulo 2 to the width |
| `BaseUint.SubAssign` | src/arith_uint256.h:145-149 | the difference modulo 2 to the width |
| `BaseUint.MulAssignWord` | src/arith_uint256.cpp:58-67 | the product with a word modulo 2 to the width, without 64-bit overflow |
| `BaseUint.MulAssign` | src/arith_uint256.cpp:70-83 | the product modulo 2 to the width, also of a number with itself, without 64-bit overflow |
| `BaseUintShift.ShiftLeftAssign` | src/arith_uint256.cpp:24-38 | the product with a power of two modulo 2 to the width, for any shift |
| `BaseUintShift.ShiftRightAssign` | src/arith_uint256.cpp:41-55 | the floor quotient by a power of two, for any shift |
| `BaseUintShift.CompareTo` | src/arith_uint256.cpp:112-121 | the sign of the difference of the two numbers |
| `BaseUintShift.Bits` | src/arith_uint256.cpp:174-186 | the least b with the number below 2 to the b |
| `BaseUintShift.DivAssign` | src/arith_uint256.cpp:86-109 | the exact floor quotient for every non-zero divisor; division by zero exactly for zero |
| `Limbs.ValInjective` | src/arith_uint256.h:218-219 | equal numbers have equal limbs, so comparing memory compares numbers |
| `Compact.SetCompact` | src/arith_uint256.cpp:206-224 | the limbs hold the decoded number cut to 256 bits; overflow is reported exactly when it is at least 2 to the 256, the sign exactly when it is set on a non-zero number |
| `Compact.GetCompact` | src/arith_uint256.cpp:226-247 | the two asserts hold, and the word is the encoding of the number with the sign bit when asked for and not zero |
| `Compact.GetLow64` | src/arith_uint256.h:243-247 | the number modulo 2 to the 64 |
| `Compact.AssignWord` | src/arith_uint256.h:86-93 | the number becomes the 64-bit word |
| `Compact.OverflowIs` | src/arith_uint256.cpp:219-222 | the three comparisons on size and mantissa are exactly the test against 2 to the 256 |
| `Compact.RoundTrip` | src/arith_uint256.cpp:206-247 | encoding and decoding only clears low-order bytes and never makes a number larger |
| `Compact.Monotone` | src/arith_uint256.cpp:206-247 | encoding and decoding never changes the order of two numbers |
| `Compact.Stable` | src/arith_uint256.cpp:206-247 | re-encoding a rounded number gives the same word |
| `Compact.EncodeParts` | src/arith_uint256.cpp:226-247 | the encoding never carries the sign bit, so decoding it raises no flag |
| `Compact.GetBlockProof` | src/chain.cpp:125-138 | the floor of 2 to the 256 over the target plus one, zero for a negative, too large or zero target; the division never fails |
| `Skip.GetSkipHeight` | src/chain.cpp:73-85 | the skip height lies strictly below every height but zero |
| `Skip.StepsBound` | src/chain.cpp:73-112 | going back from any height below 2 to the b, b at least 12, to any other takes at most b squared over 4 plus 2 b minus 7 steps |
| `Skip.StepsUpTo18` | src/chain.cpp:73-112 | which is the 110 steps promised for up to 2 to the 18 blocks |
| `Skip.InBlock` | src/chain.cpp:87-112 | from the end of a block of 2 to the z heights into it: the recurrence behind the bound |
| `Chain.BlockIndex.GetAncestor` | src/chain.cpp:87-112 | whatever skip pointers it follows, the result is the ancestor by walking pprev, null outside the range; where every block has its skip pointer, at most 110 steps below 2 to the 18 blocks |
| `Chain.BlockIndex.BuildSkip` | src/chain.cpp:119-123 | the skip pointer is the ancestor at the skip height, the tree with the new block is one GetAncestor can use, and no block lacks its pointer if none did |
| `Chain.LocatorAt` | src/chain.cpp:27-53 | the i-th entry of a locator is i below the top up to the eleventh, then 9 plus 2 to the i - 10 |
| `Chain.LastCommonAncestor` | src/chain.cpp:159-174 | the highest block that is an ancestor of both, and the assert holds |
| `Chain.Chain.SetTip` | src/chain.cpp:15-25 | stopping at the first block already there still leaves each ancestor of the new tip at its height and nothing else |
| `Chain.Chain.FindFork` | src/chain.cpp:55-64 | the highest common ancestor of the block and the tip |
| `Chain.Chain.GetLocator` | src/chain.cpp:27-53 | the ancestors at the locator heights, by the array or by skip pointers |
| `Chain.LocatorDescends` | src/chain.cpp:27-53 | a locator starts at its block, goes strictly down and ends with the genesis block |
| `Chain.LocatorFitsReserve` | src/chain.cpp:27-53 | a locator for any height below 2 to the 21 has at most the 32 entries reserved |
| `RollingBloom.RollingBloomFilter.constructor` | src/bloom.cpp:216-244 | two generations hold at least the elements asked for, and no key is found in the new filter |
| `RollingBloom.RollingBloomFilter.Insert` | src/bloom.cpp:256-285 | after any sequence of inserts every key of the current generation and the two before has all its cells set in a generation no older than its own, and every set cell was set by one of those keys in the generation it names |
| `RollingBloom.RollingBloomFilter.Mark` | src/bloom.cpp:276-284 | sets exactly the cells of the key, each to the current generation |
| `RollingBloom.RollingBloomFilter.Contains` | src/bloom.cpp:293-305 | true exactly when each cell of the key was set by a key of the current generation or the two before it, hence for every one of those |
| `RollingBloom.CellSetIff` | src/bloom.cpp:256-285 | a cell is set if and only if a key of the current generation or the two before has it: everything older is forgotten |
| `RollingBloom.RecentIff` | src/bloom.cpp:258-275 | those keys are exactly the last two full generations and the current one |
| `RollingBloom.RollingBloomFilter.Reset` | src/bloom.cpp:313-322 | clears every cell, so that no key is found any more |
| `RollingBloom.RollingBloomFilter.Wipe` | src/bloom.cpp:264-273 | the masked wipe clears exactly the cells of the generation about to be reused |
| `RollingBloom.InsertedAfterTurn` | src/bloom.cpp:256-285 | a change of generation forgets only keys three generations back |
| `FastRange.FastModBelow` | src/bloom.cpp:252-254 | the position lies inside the range |
| `FastRange.FastModMonotone` | src/bloom.cpp:252-254 | a larger number never goes to a smaller position |
| `FastRange.FastModEven` | src/bloom.cpp:252-254 | the numbers of a position are consecutive, and no position has more than one more than another |
| `FastRange.LowBitsIndependent` | src/bloom.cpp:276-282 | for at most 2 to the 26 words every position occurs with every value of the lowest six bits |
| `RollingBloom.PlaceIff` | src/bloom.cpp:276-284 | the cell of a key is given by the share of the range its hash falls into and the lowest six bits |
| `RollingBloom.EveryCellIsAPlace` | src/bloom.cpp:276-284 | no cell of such a filter is out of reach |
| `Cuckoo.Cache.constructor` | src/cuckoocache.h:340-354 | an empty table with every slot marked for collection |
| `Cuckoo.Cache.EpochCheck` | src/cuckoocache.h:289-321 | the residents afterwards are those before, less those of the old epoch exactly when the counter has run out and the current epoch is full; flags and counter are exact |
| `Cuckoo.AgeingTakesOldEpoch` | src/cuckoocache.h:289-321 | a slot of the current epoch stays live, a live slot of the old one becomes collectable exactly when the table is aged, and the current epoch becomes the old |
| `Cuckoo.ScanPause` | src/cuckoocache.h:311-320 | the next scan comes no sooner than the current epoch can be full, nor before a sixteenth of an epoch |
| `Cuckoo.LocIff` | src/cuckoocache.h:243-253 | a location is the share of the range its hash falls into, and no slot has an empty share |
| `CuckooRuns.KeptUntilSecondAgeing` | src/cuckoocache.h:289-470 | in every run an element that was inserted, and not inserted again, erased or dropped by a displacement since, is a resident if and only if the table has been aged less than twice |
| `CuckooRuns.DisplacedKeepsEpochs` | src/cuckoocache.h:407-446 | through all displacements everybody keeps its epoch but the one dropped |
| `Cuckoo.Cache.Insert` | src/cuckoocache.h:392-446 | for an element in one of its locations that slot becomes live and current, every other slot and flag is as the check left it and nobody goes; for any other the table and flags are those of the displacement walk after ageing, all residents and the element are accounted for but the one dropped, and with a location marked for collection the element is in the table and nobody is dropped; slots stay homes, no element but the default occurs twice, counter and live count are exact |
| `Cuckoo.Cache.Displace` | src/cuckoocache.h:410-445 | the loop performs the displacement walk: the first location marked for collection is taken, otherwise the one after the last looked at |
| `Cuckoo.DroppedIff` | src/cuckoocache.h:410-445 | nothing is dropped if and only if one of the elements carried within depth_limit swaps has a location marked for collection; otherwise exactly the element carried last is dropped |
| `Cuckoo.NobodyElseLost` | src/cuckoocache.h:410-445 | residents and the dropped element together are the residents from before and the new element; every slot stays a home of its element |
| `Cuckoo.RoomMeansKept` | src/cuckoocache.h:411-419 | with a location marked for collection the element goes to the first such and every other slot stays |
| `Cuckoo.Cache.Contains` | src/cuckoocache.h:467-477 | an element other than the default is found exactly when it is anywhere in the table; erasing marks its one slot |
| `Cuckoo.CheckLeavesRoom` | src/cuckoocache.h:289-321 | the live elements of the current epoch and the inserts before the next scan never exceed epoch_size plus the larger of 1 and a sixteenth of it |
| `Cuckoo.FoundAtHome` | src/cuckoocache.h:467-477 | looking at the eight locations of an element is looking at the whole table |
| `Bech32Checksum.PolyLinear` | src/bech32.cpp:37-90 | the remainder of a sum is the sum of the remainders |
| `Bech32Checksum.ShiftLosesNothing` | src/bech32.cpp:66-88 | only zero turns into zero, since the low symbols of the five generator multiples are independent |
| `Bech32Checksum.ChecksumIsUnique` | src/bech32.cpp:128-139 | a remainder becomes one exactly when its checksum is fed to it |
| `Bech32Checksum.BurstChangesRemainder` | src/bech32.cpp:37-90 | any change within six consecutive symbols changes the remainder, whatever stands before and after |
| `Bech32.PolyMod` | src/bech32.cpp:37-90 | the loop with its conditional exclusive-ors computes the remainder |
| `Bech32.ExpandHRP` | src/bech32.cpp:103-115 | high bits, a zero, low bits |
| `Bech32.VerifyChecksum` | src/bech32.cpp:118-125 | accepts exactly the data parts with remainder one |
| `Bech32.CreateChecksum` | src/bech32.cpp:128-139 | six values that make the data part accepted |
| `Bech32.VerifiedIff` | src/bech32.cpp:118-139 | a data part is accepted exactly when its last six values are the checksum of the others |
| `Bech32.RejectsBurst` | src/bech32.cpp:118-125 | no accepted data part of any length stays accepted when one value, or up to six neighbouring values, change |
| `Bech32.RejectsPair` | src/bech32.cpp:118-125 | any one or two substitutions with at most 87 values between them are rejected, which in 90 characters is any two |
| `Bech32Pairs.PairChangesRemainder` | src/bech32.cpp:64-101 | they change the remainder, whatever stands around them |
| `Bech32Pairs.NeverConstant` | src/bech32.cpp:64-101 | no symbol but zero times a power of x from the first to the eighty-eighth is a symbol |
| `Bech32Pairs.ShiftTwice` | src/bech32.cpp:64-101 | a turn of the remainder commutes with multiplying all six symbols by two in the field with 32 elements |
| `Bech32Pairs.StepIsShift` | src/bech32.cpp:64-101 | bit by bit, a turn of the remainder is that of the six symbols, the source's constants being the generator times the powers of two |
| `Bech32.Encode` | src/bech32.cpp:147-156 | human-readable part, separator, values and checksum in the character set |
| `Bech32.Decode` | src/bech32.cpp:159-190 | succeeds if and only if the text is printable, not of mixed case, at most 90 long and, in lower case, the encoding of the result with a non-empty human-readable part |
| `Bech32.DecodesToOne` | src/bech32.cpp:159-190 | a text decodes to one result at most |
| `Bech32.RoundTrip` | src/bech32.cpp:147-190 | what is printed for a lower-case printable human-readable part and at most 90 characters decodes to what went in |
| `Bech32.ThereAndBack` | src/bech32.cpp:147-190 | encoding and then decoding gives the human-readable part and the values back |
| `Base58.EncodedFits` | src/base58.cpp:92-94 | 138 digits for every 100 bytes always suffice |
| `Base58.DecodedFits` | src/base58.cpp:46-48 | 733 bytes for every 1000 digits always suffice |
| `Base58.MultiplyAdd` | src/base58.cpp:54-63 | the buffer becomes its value times the base plus the digit; the carry assert cannot fail |
| `Base58.EncodeBase58` | src/base58.cpp:83-121 | a 1 for every leading zero byte, then the number without leading zeros in base 58 |
| `Base58.DecodeBase58` | src/base58.cpp:34-81 | spaces on both sides skipped, leading 1s as zero bytes, the rest as a number; anything else refused |
| `Base58.DecodeOfEncode` | src/base58.cpp:34-121 | every byte sequence is read back from its text, leading zeros included |
| `Base58.EncodeOfDecode` | src/base58.cpp:34-121 | every text in the alphabet is printed again from its bytes |
| `Radix.DigitsFit` | src/base58.cpp:46-94 | n digits of base a fit in k of base b once a to the p is at most b to the q and q n is below p k |
| `InfinitynodeModel.Tiling` | src/infinitynodeman.cpp:518-566 | statements tile the heights from the first to their end: every height is covered by exactly one, none outside |
| `InfinitynodeModel.StatementsDependBelow` | src/infinitynodeman.cpp:518-566 | statements up to a height depend only on the nodes burned below it |
| `InfinitynodeModel.StatementStaysIff` | src/infinitynodeman.cpp:132-170 | a statement laid out at one tip is laid out again with the same size at a later tip, from the list of that tip, if and only if no burn of the tier below it has matured in between |
| `InfinitynodeModel.StatementsSettle` | src/infinitynodeman.cpp:132-170 | at least 55 blocks below a tip all later layouts have the same statements |
| `InfinitynodeModel.StatementChanges` | src/infinitynodeman.cpp:132-170 | begin height 100, genesis statement 110, burns at 100 and 158: the statement at 159 has one node when laid out at tip 160 and two at 214 |
| `InfinitynodeModel.PaidAlikeIff` | src/infinitynodeman.cpp:635-659 | two nodes of the network whose statements were laid out at any tips from any scans pay the same infinity node at a height both cover if and only if the covering statements begin as many blocks apart as nodes of the first expire in between |
| `InfinitynodeModel.NobodyExpires` | src/infinitynodeman.cpp:593-622 | while nobody expires that means: if and only if they begin at the same height |
| `InfinitynodeLife.PaidWhileAlive` | src/infinitynodeman.cpp:518-659 | a node is paid by a statement if and only if it is of the tier, was burned below it and not more than 720 * 365 blocks before it, and then at one height only |
| `InfinitynodeLife.PayeeIsAlive` | src/infinitynodeman.cpp:593-659 | whoever is paid at a height is such a node of the list |
| `InfinitynodeLife.NextStatement` | src/infinitynodeman.cpp:518-566 | the next statement begins where this one has paid everybody, larger or smaller by those burned and those expired in between |
| `InfinitynodeLife.ExpiredMakesNoDifference` | src/infinitynodeman.cpp:518-566 | from its expiry on a node makes no difference to the statements |
| `InfinitynodeModel.PaidAlikeUnburned` | src/infinitynodeman.cpp:132-170 | a statement that covers a height still does, beginning where it did, in the layout of a later tip when no burn of the tier below it has matured in between |
| `InfinitynodeModel.PaidDifferently` | src/infinitynodeman.cpp:635-659 | burns at 100 and 158: at height 161 the layouts of tips 161 and 214 pay different nodes |
| `InfinitynodeModel.ScanMerged` | src/infinitynodeman.cpp:205-453 | a scan from anywhere not above where the list reaches, at a tip before or after, gives the list of a full scan at the higher tip |
| `InfinitynodeModel.PaidTheSame` | src/infinitynodeman.cpp:635-659 | a statement laid out at one tip pays the same node at every height it covers, whichever later list it is ranked with |
| `InfinitynodeModel.EarlierRankFirst` | src/infinitynodeman.cpp:593-622 | nodes burned later rank after all that were there before |
| `InfinitynodeModel.LastReaches` | src/infinitynodeman.cpp:518-566 | the last statement reaches at least to the tip it was laid out at, and to the end of the statements if it has nodes |
| `InfinitynodeModel.EachPaidOnce` | src/infinitynodeman.cpp:593-659 | over the heights a statement covers, every node eligible at it is paid exactly once, by burn height and outpoint |
| `InfinitynodeModel.RankingIsUnique` | src/infinitynodeman.cpp:593-622 | the ranking is determined by the set of nodes alone |
| `Infinitynode.InfinitynodeMan.DeterministicRewardStatement` | src/infinitynodeman.cpp:518-566 | the loop lays out exactly the statements, each with as many blocks as nodes of the tier were burned below it and at most 720 * 365 blocks before, the empty one at the tip included, and remembers the last |
| `Infinitynode.InfinitynodeMan.CalculInfinityNodeRank` | src/infinitynodeman.cpp:593-622 | lists exactly the nodes of the tier burned below the height and at most 720 * 365 blocks before it, by burn height and outpoint |
| `Infinitynode.InfinitynodeMan.FindStatement` | src/infinitynodeman.cpp:642-654 | for any statement map, the last statement that covers the height and is less than 100000 away, 0 when there is none |
| `Infinitynode.InfinitynodeMan.DeterministicRewardAtHeight` | src/infinitynodeman.cpp:635-659 | for any statement map, finds a node exactly when such a statement other than 0 exists, and then the node of the height's rank in it; with statements laid out at this tip or an earlier one it is the node they paid at that height when laid out |
| `Infinitynode.InfinitynodeMan.CheckAndRemove` | src/infinitynodeman.cpp:133-170 | the first check only scans; later ones bring the list to the tip and lay out the statements of exactly the tiers with fewer than 55 blocks left |
| `Infinitynode.InfinitynodeMan.BuildStatements` | src/rpc/masternode.cpp:857-862 | all three tiers laid out on request, from the list at hand at the present tip |
| `Infinitynode.InfinitynodeMan.RunEvents` | src/infinitynodeman.cpp:125-203 | from the start of a node, with tips that come and go, checks, updates of the list at any height ahead of the tip or behind, and layouts on request in any order, the list is that of a full scan at the highest height scanned and every tier's statements are layouts of the chain's own burns, at heights more than 55 blocks past the begin height |
| `Infinitynode.InfinitynodeMan.BuildInfinitynodeList` | src/infinitynodeman.cpp:205-453 | reads every block from the tip to the low height, matured burns added unless known, the last 55 and the tip kept apart; walks past the genesis block exactly when the scan starts at 0 or below |
| `Infinitynode.InfinitynodeMan.UpdateInfinitynodeList` | src/infinitynodeman.cpp:192-203 | refuses exactly a height below where the last scan stopped and then changes nothing; otherwise scanning from there gives the lists of a whole scan |
| `Infinitynode.InfinitynodeMan.ScanAll` | src/infinitynodeman.cpp:205-453 | any sequence of scans at tips that do not go back, the first at least 55 blocks past the begin height, ends with the lists of one full scan at the last tip |
| `InfinitynodeModel.ScanJoined` | src/infinitynodeman.cpp:297-304 | no height is skipped or read twice into the matured list at the border of two scans |
| `InfinitynodeModel.EarlyFirstScan` | src/infinitynodeman.cpp:215-223 | after a first scan less than 55 blocks past the begin height the next one agrees with a full scan exactly when nothing was burned between its start and the begin height |
| `CompactBlock.PartiallyDownloadedBlock.LayPrefilled` | src/blockencodings.cpp:58-74 | accepts exactly the messages whose prefilled transactions exist and fit, and never indexes outside the list |
| `CompactBlock.PartiallyDownloadedBlock.MapShortIds` | src/blockencodings.cpp:79-102 | the k-th short id gets the k-th slot that is not prefilled; a repeated id fails |
| `CompactBlock.PartiallyDownloadedBlock.ScanPool` | src/blockencodings.cpp:104-165 | scans up to the transaction that leaves no slot empty, or the whole pool, and every slot then holds what meeting those transactions in order leaves in it; the count of full slots is exact |
| `CompactBlock.TakenFromFirstPool` | src/blockencodings.cpp:107-133 | after the first pool a slot is full if and only if exactly one transaction of its short id was scanned, and holds that one |
| `CompactBlock.TakenFromSecondPool` | src/blockencodings.cpp:135-165 | the second pool fills a slot nothing was met for, and empties one when a transaction of its short id has another witness hash than the one it holds |
| `CompactBlock.PartiallyDownloadedBlock.InitData` | src/blockencodings.cpp:48-168 | invalid exactly for a null header, an empty message or prefilled transactions that do not fit; otherwise prefilled slots stand where the message put them and every other slot holds what the scans of the two pools leave in it |
| `CompactBlock.PartiallyDownloadedBlock.FillBlock` | src/blockencodings.cpp:176-217 | a wrong number of missing transactions is invalid; the right number gives the block and the verdict of the block check |
| `CompactBlock.FilledIsBlock` | src/blockencodings.cpp:176-197 | with the right transactions in the slots and the missing ones in order the block comes out exactly |
| `CompactBlock.MatchedIsRight` | src/blockencodings.cpp:104-165 | when no transaction at hand shares a short id with a different one of the block, every filled slot is right |
| `CompactBlock.Relay` | src/blockencodings.cpp:17-217 | a block sent, started from the pools, completed with the missing transactions: on success the receiver has the sender's block, it succeeds when no two short ids are equal and no hash bucket is over-full, and nothing is asked for when the pool has every short id exactly once |
| `CompactBlock.CompactDescribes` | src/blockencodings.cpp:17-28 | the message built for a block describes that block |
| `CompactBlock.WriteIndexes` | src/blockencodings.h:62-67 | each index as its 64-bit distance from the one before |
| `CompactBlock.ReadIndexes` | src/blockencodings.h:42-61 | accepts exactly the distances of 16-bit lists, and yields a strictly increasing one |
| `CompactBlock.IndexRoundTrip` | src/blockencodings.h:38-68 | a 16-bit list is read back from its distances if and only if it is strictly increasing |
| `CompactBlock.DistanceRoundTrip` | src/blockencodings.h:38-68 | every accepted list of distances is written again from what was read |
| `CompactBlock.IndexesThereAndBack` | src/blockencodings.h:38-68 | written and read again a 16-bit list comes back if it is strictly increasing and is refused if not |

## Left out

- Floating-point code: GetChance and Select_ of the address manager, the sizing formulas of the bloom filter, depth_limit of the cuckoo cache, getRoi and getdouble; sizes are parameters.
- Address manager: overflow of nIdCount and of the int counters; the byte layout of the file, which is a value here, written and read by methods on values rather than on the object; Clear and Unserialize while collisions are pending. Service flags are sets of bits. Check_ inserts a default into mapAddr when an address is missing; the model only reads that default.
- AddrManLoad.Unserialize: for files that Serialize did not write it does not state which of several entries gets a cell they share.
- Coin caches: sibling caches over one parent, SetBackend, AccessCoin, HaveCoin and GetValueIn; memory use of a coin is an arbitrary function that is zero for a spent coin; when a batch is full is an argument.
- Coins.CoinsViews.BatchWriteDb: states the outcome; the partial batches and what a crash leaves are in `CoinsDb`. Replaying blocks after a crash is not modelled, and best-block hashes are kept in `CoinsDb` only.
- Check queue: a check is an id and a verdict; exceptions in checks, the control object and thread interruption are not modelled.
- InstantSend: mapTxLockVotes, so a vote may be handled any number of times; the rate limit on early votes, whose verdict is an argument; ProcessOrphanTxLockVotes, which nothing calls; wallets, relaying, notifications; sporks are on. A masternode's rank is an argument, and the runs of `InstantSendQuorum` assume that at most ten masternodes may vote on an outpoint.
- InstantSend.InstantSend.Vote: what happens after the source dereferences the end of the candidate map is undefined; the model ends the step there.
- base_uint: hexadecimal and byte conversions, the bitwise operators `^=`, `&=`, `|=` and the comparison with a 64-bit word.
- Chain: FindEarliestAtLeast and GetBlockProofEquivalentTime; locators list blocks rather than their hashes; overflow of nStep, which needs a height above 2 to the 30.
- Cuckoo cache: the bit packing and the relaxed atomics of the collection flags, which are an array of booleans; setup_bytes.
- Bloom filters: CBloomFilter; the tweak is an argument of the hash.
- Bech32: detection of three and four errors anywhere in 90 symbols.
- Bech32.ExpandHRP: takes a character modulo 256.
- Base58: Base58Check; a text is the characters before its terminating zero.
- Infinity nodes: metadata, last-paid heights, votes and the rank stored in each node; loading the lists from disk; blocks are always readable and the chain's burns do not change; scans and checks within the first 55 blocks past the begin height, of which `InfinitynodeModel.EarlyFirstScan` treats the first; the build-list command, which scans like an update, but before any scan starts at 0, where `BuildInfinitynodeList` says it walks past the genesis block; the test network's scan from block 1. A statement map is kept per tier instead of in three fields.
- Infinitynode.InfinitynodeMan.UpdateInfinitynodeList: asks for a begin height of at least 1, as all networks have; a scan then starts at 0 or below, and the source walks past the genesis block, only after an earlier scan below height 55, which needs a begin height below 55 (the networks use 100 or more).
- Compact blocks: extra_count, which is only logged; the limit on a hash bucket is an argument; the 65535 transactions the message reader enforces are assumed; serialization other than the differential indexes.
- Network, RPC, wallet, mempool, script, consensus rules, startup, databases and cryptography.
