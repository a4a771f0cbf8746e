# Verification model of the node's in-memory components

This project models, in Dafny, the parts of a Bitcoin/PPCoin-derived node that keep their state in memory and
whose correctness rests on an invariant, a protocol or an encoding, and proves what each of them is for. Source
paths are relative to the repository root.

| files | component |
|---|---|
| `CheckQueue.dfy`, `CheckQueueSystem.dfy` | the script check queue: one master and any number of workers around one lock; the class changes the shared fields in place, the system interleaves its critical sections |
| `AddrTables.dfy`, `AddrOps.dfy`, `AddrRuns.dfy`, `AddrLaws.dfy`, `AddrMan.dfy` | the address manager: the invariant of its consistency check, what each operation does to the tables, runs of operations, what they mean for the entries, and the class that updates the tables in place |
| `AddrDisk.dfy`, `AddrRoundTrip.dfy`, `AddrRebuild.dfy`, `AddrOverflow.dfy` | its stored form; saving and loading keep everything up to a renaming of ids; loading a form with another number of buckets, and a manager that does not survive it |
| `KeccakSpec.dfy`, `KeccakConstants.dfy`, `KeccakMask.dfy`, `KeccakOrders.dfy`, `KeccakRound.dfy`, `KeccakPermutation.dfy`, `KeccakSponge.dfy`, `Keccak.dfy` | Keccak as FIPS 202 defines it (sections 3.2, 3.3, 4 and 5.1), and the in-place, lane-complemented, unrolled program that refines it |
| `Merkle.dfy` | the flat Merkle tree, branches and their check |
| `BlockTree.dfy`, `Locator.dfy`, `MedianTime.dfy` | the tree of block headers; the exponential locator; the median time past |
| `StakeModifier.dfy`, `StakeChain.dfy` | the stake modifier of one block, and what every chain built with it keeps |
| `SyncCheckpoint.dfy` | synchronized checkpoints over the block tree |
| `Bytes.dfy`, `Radix.dfy`, `BigNum.dfy`, `Base58.dfy` | number encodings: MPI, words, compact targets, Base58 |
| `Blake.dfy` | BLAKE streaming and closing, with the counter of section 2.1.3 of "SHA-3 proposal BLAKE" |
| `Bloom.dfy` | the transaction filter of BIP 37 |
| `LockedPages.dfy` | the manager of pages locked in memory |
| `Arithmetic.dfy`, `Options.dfy`, `Sequences.dfy` | products, quotients, powers of two; optional values; reversal and repetition |

Conventions. A component whose source changes fields in place is a class here; its methods are proved to change
the state as a function (or, where the source draws at random, a relation) on values says, and the theorems are
lemmas about that function or relation. Hash functions are arbitrary functions, injective only where a lemma
says so. Random choices are arbitrary values in range; clocks, disk, signature checks and chain switching are
parameters. `dafny verify dfyconfig.toml` checks the whole project.

The main results, component by component:

- Check queue: under every interleaving, `Wait` returns exactly the conjunction of the checks added since the
  `Wait` before it, each of them run or skipped and none queued or held (`WaitIsConjunction`); a waiting master is never stuck
  (`MasterNeverStuck`), no wake-up of a worker is lost (`NoLostWakeUp`), and every quiet run is bounded
  (`WaitReturnsInTime`).
- Address manager: every run of operations keeps the consistency check and the size bound (`RunKeepsInv`), and
  loading what was saved gives an isomorphic manager (`RoundTrip`, `SaveAndLoad`). When an entry may be thrown away is
  said exactly (`NeverReached`, `OnceReached`), and so is what each operation moves (`AddedDropsOne`, `GoodMoves`).
- Keccak: the three times eight in-place rounds are Keccak-f[1600] under the six-lane complement (`KeccakF1600`),
  and a context that is fed any pieces and closed returns the sponge's output (`Close`).
- Merkle tree: a value verifies at an index with a branch of the tree's depth if and only if both are the tree's
  own (`OnlyLeafVerifies`). A root does not fix its leaves: for lists of two lengths it does so if and only if the
  lengths are equal (`RootFixesLeavesWhen`, with `RepeatedLastLeaf` as the shortest witness), and any two lists share
  a root if and only if, with missing nodes filled in, the leaves of one are the nodes of the other as far below the
  root (`SameRootWhen`).
- Locator, median time, stake modifier, checkpoints: distances (`FindFork`, `FoundBlock`), monotone medians
  (`LaterThanEveryMedian`), selection that never fails and depends on ancestors only (`ComputeNextStakeModifier`,
  `DependsOnAncestors`), and checkpoints that only move to descendants (`BlocksDescendFromCheckpoints`) and do so when
  they can (`MessageAdopts`, `PendingTakesEffect`).
- Encodings: Base58 is a bijection between byte vectors and strings over its alphabet (`DecodeEncode`,
  `EncodeDecode`) with the reserved size never exceeded (`EncodedSize`); every integer survives its MPI form
  (`SetInt64`, `VchRoundTrip`), and a compact target loses at most a 2^15th (`CompactKeeps`, `CompactMonotone`).
- BLAKE: chunking does not matter (`FeedSplit`) and closing hashes the padded message with the right counters.
- Bloom filter: a watched transaction is always reported (`WatchedIsRelevant`, `RelevantExactly`) and no key gets lost
  (`NoFalseNegative`), under a condition that is exact over all runs (`RememberedExactly`): without hash functions, a
  key put in a filter with data but no bit set may be forgotten.
- Locked pages: every page is locked exactly while a live range touches it (`LockRange`, `UnlockRange`), for every
  range on which the source's loop ends (`LoopEndsWhen`).

Where the code and its comments differ, the code is followed. The address manager's check says every tried entry
has been tried with success; `Good` with a time of zero breaks that (`GoodAtZero`, on a new manager), and
`StepKeepsTimes` gives the exact condition, for every operation. `SelectTried` is to find the candidate of earliest
success, but the position it returns holds that if and only if it was drawn from its own place (`OldestGivesWayWhen`,
with `NewerGivesWay` as an input). `GetDistanceBack` tells a distance that is too large when only the genesis hash at
the end of the list is known: `DistanceExactWhen` is the exact condition, `DistanceOvershoots` an input. The stored
form of the address manager is said to survive a change of the number of buckets; `RebuildConsistentWhen` says exactly
when it does, and `RebuildOverflows` is a manager for which it does not.

## Model

| member | source | states |
|---|---|---|
| `CheckQueue.CheckQueue.constructor` | src/checkqueue.h:121-123 | a new queue is empty and ready for a session |
| `CheckQueue.CheckQueue.Add` | src/checkqueue.h:135-147 | the checks go to the back of the queue in order, nTodo grows by their number, and none, one or all workers are signalled as there are none, one or more checks |
| `CheckQueue.CheckQueue.CleanUp` | src/checkqueue.h:70-80 | a finished batch lowers nTodo by its size and joins its verdict to fAllOk, the master being signalled when the last check is done by another thread; the first round counts the thread instead |
| `CheckQueue.CheckQueue.TakeBatch` | src/checkqueue.h:101-109 | the last nNow checks leave the queue, last one first, and nothing else changes |
| `CheckQueue.CheckQueue.Proceed` | src/checkqueue.h:81-111 | one pass through the waiting loop leaves, waits or takes a batch exactly as the transition system below steps |
| `CheckQueue.CheckQueue.WakeUp` | src/checkqueue.h:92-95 | coming back from the condition variable only lowers nIdle |
| `CheckQueue.RunBatch` | src/checkqueue.h:112-116 | running a batch gives the conjunction of the starting verdict and of all its checks, although checks after a failure are skipped |
| `CheckQueue.AllPassMeans` | src/checkqueue.h:112-116 | the verdict of a list of checks is that every one of them passes |
| `CheckQueue.BatchSize` | src/checkqueue.h:96-101 | a batch has at least one check, no more than are queued, no more than nBatchSize unless that is zero, and otherwise the length of the queue by nTotal + nIdle + 1, rounded down, or one |
| `CheckQueueSystem.ExecuteRunsBatch` | src/checkqueue.h:112-116 | running a batch check by check, interleaved with anything, gives the verdict the whole batch gives |
| `CheckQueueSystem.SettleConserves` | src/checkqueue.h:81-111 | the waiting loop moves checks from the queue to the thread and loses or invents none, failing ones included |
| `CheckQueueSystem.StepAccounts` | src/checkqueue.h:61-147 | every step keeps each check added since the last Wait, as itself and not just in number, in the queue, in a batch or among those done |
| `CheckQueueSystem.Next` | src/checkqueue.h:61-147 | every step of every interleaving keeps nTodo equal to the queue length plus the batches in flight, nIdle to the waiting and nTotal to the inside threads |
| `CheckQueueSystem.InvReturn` | src/checkqueue.h:82-91 | when the master leaves nothing is queued or held, its verdict is the conjunction of the checks added since the last time, and the invariant starts anew |
| `CheckQueueSystem.InvSettle` | src/checkqueue.h:70-111 | a step of any thread that is not a return of Wait keeps the invariant that failing checks are queued, held or recorded in fAllOk |
| `CheckQueueSystem.InvAdd` | src/checkqueue.h:135-147 | adding checks in the middle of other threads' batches keeps that invariant |
| `CheckQueueSystem.RunKeepsInv` | src/checkqueue.h:61-147 | along every run from a state satisfying the invariant every Wait is right, and the invariant holds at the end |
| `CheckQueueSystem.WaitIsConjunction` | src/checkqueue.h:130-133 | for any number of workers and every interleaving, each Wait says whether all checks added since the Wait before it pass; exactly those checks have been run or skipped, and none is queued or in flight |
| `CheckQueueSystem.MasterNeverStuck` | src/checkqueue.h:71-95 | in every reachable state a master waiting un-notified has nTodo > 0 and another thread holds a batch, and while the master is inside Loop some step other than a spurious wake-up is possible |
| `CheckQueueSystem.StepUsesPotential` | src/checkqueue.h:61-118 | every step that is not an Add, a spurious wake-up or the return of Wait lowers a measure over queued checks, batches in flight and notified threads |
| `CheckQueueSystem.WaitReturnsInTime` | src/checkqueue.h:61-118 | a run on which Wait has not returned yet, without Adds and spurious wake-ups, is no longer than that measure |
| `CheckQueueSystem.AddWakes` | src/checkqueue.h:135-147 | adding two checks or more wakes every waiting worker, adding one wakes one if any waits, adding none wakes none, and no other thread changes |
| `CheckQueueSystem.NoLostWakeUp` | src/checkqueue.h:61-147 | in every reachable state with checks queued and a worker asleep that nobody notified, another worker has been notified or is running a batch |
| `CheckQueueSystem.ReadyExactly` | src/checkqueue.h:164-171 | with the master outside Loop the three assertions of the controller's constructor hold if and only if nothing is queued or held and every check added since the last Wait passes; so they hold for every session started before anything is added |
| `AddrRuns.StepKeepsInv` | src/addrman.cpp:261-387 | any outcome of Add, Good, Attempt, Connected or GetAddr keeps the whole consistency check |
| `AddrRuns.StepKeepsTimes` | src/addrman.cpp:446-459 | an operation keeps the check's conditions on times if and only if the entry it marks good gets a positive time, or the one it marks tried a time that is not negative |
| `AddrMan.GoodAtZero` | src/addrman.cpp:261-310 | adding one address to a new manager and marking it good at time 0 keeps the structure consistent and breaks the condition on times |
| `AddrLaws.FewNewBuckets` | src/addrman.cpp:23-35 | what sources of one group tell of goes to at most 32 new buckets |
| `AddrLaws.FewTriedBuckets` | src/addrman.cpp:9-21 | addresses of one group go to at most 4 tried buckets |
| `AddrLaws.SpreadReachesAll` | src/addrman.cpp:9-35 | no smaller bounds hold: under some hash functions one group reaches 32 new and 4 tried buckets |
| `AddrLaws.NewBucketOfGroups` | src/addrman.cpp:23-35 | the new bucket depends on the groups of the address and of the source alone |
| `AddrLaws.AddedEntry` | src/addrman.cpp:312-368 | a routable service whose IP had no entry has one after it is added, whatever entry its bucket evicts: never tried, its time less the penalty but not below zero, in the one bucket it hashes to |
| `AddrLaws.TriedIsSafe` | src/addrman.cpp:37-55 | after an attempt at a time other than zero no full bucket throws the entry away as useless within sixty seconds |
| `AddrLaws.TriesCount` | src/addrman.cpp:370-387 | a run of attempts leaves the time of the last and adds their number, and nothing else about the entry changes |
| `AddrLaws.AttemptIs` | src/addrman.cpp:370-387 | an attempt sets the last try of the entry of exactly this service and adds one to its attempts, and nothing else changes |
| `AddrLaws.NeverReached` | src/addrman.cpp:37-55 | an address added, tried some times, the last over a minute ago, and never marked good may be thrown away as useless if and only if it came without a time, with one over thirty days old or over ten minutes ahead, or has been tried three times |
| `AddrLaws.OnceReached` | src/addrman.cpp:37-55 | an address marked good and then tried in vain, the last time over a minute ago, may be thrown away as useless if and only if it was good over thirty days ago or over ten minutes ahead, or over seven days ago and has been tried ten times since |
| `AddrLaws.GoodEntry` | src/addrman.cpp:261-310 | marking an address good sets its last success, last try and time, clears its attempts and makes it tried; the rest of its entry stays |
| `AddrLaws.UnknownChangesNothing` | src/addrman.cpp:261-387 | marking good, attempting or connecting to a service that no entry has, such as another port of a known address, changes nothing |
| `AddrLaws.HeardAgain` | src/addrman.cpp:319-349 | hearing of an address again adds its services, and moves its time to the one told less the penalty exactly when it had none or that is later by over an hour, or by over a day for an address not seen for a day |
| `AddrLaws.OldNewsAddsNothing` | src/addrman.cpp:332-349 | an address gains a reference only from news with a time that is later than what is then known, only while it is new and has less than four, and in the bucket it hashes to |
| `AddrLaws.ConnectedIsRecent` | src/addrman.cpp:509-527 | after a connection the time of the entry is at most twenty minutes old; it moves to the time of the connection only if it was older, and nothing else changes |
| `AddrLaws.AddedDropsOne` | src/addrman.cpp:356-367 | an addition takes at most one reference from another entry, only in the bucket the address hashes to and only when that holds 64: that of the first terrible entry if there is one |
| `AddrLaws.GoodMoves` | src/addrman.cpp:203-310 | an address marked good leaves every new bucket for its tried bucket; with fewer than 64 entries there nothing else moves, otherwise one of them goes to its own new bucket, or if that is full to one the address was in |
| `AddrLaws.OldestGivesWayWhen` | src/addrman.cpp:125-147 | the position SelectTried returns holds the candidate with the earliest success if and only if that candidate was drawn from its own place |
| `AddrLaws.NewerGivesWay` | src/addrman.cpp:125-147 | of two entries the one that succeeded last is given up when both draws are the second place |
| `AddrRuns.RunKeepsInv` | src/addrman.cpp:434-491 | in every state of every run the consistency check holds and the manager has at most 256*64 + 64*64 entries; with fitting times the conditions on times hold too |
| `AddrRuns.EmptyConsistent` | src/addrman.h:382-390 | an empty manager satisfies the check |
| `AddrRuns.PlacedKeeps` | src/addrman.cpp:341-366 | putting an id in one more new bucket, evicting another when the bucket is full, keeps the check |
| `AddrRuns.MovedKeeps` | src/addrman.cpp:203-259 | moving an entry to its tried bucket, with or without an eviction, keeps the check |
| `AddrRuns.EvictedKeeps` | src/addrman.cpp:238-257 | the evicted tried entry always finds room, in its own new bucket or in the one the newcomer came from |
| `AddrOps.SwapRandomKeeps` | src/addrman.cpp:105-123 | swapping two positions of vRandom keeps the check and everything else about the entries |
| `AddrOps.CreateMakesLimbo` | src/addrman.cpp:93-103 | a created entry is known everywhere except in a bucket and the counters |
| `AddrOps.DropRefKeeps` | src/addrman.cpp:149-201 | taking an id out of a new bucket, deleting its entry when it was the last one, keeps the check and no other bucket changes |
| `AddrOps.DeleteLimbo` | src/addrman.cpp:161-168 | deleting an unreferenced entry keeps the check: vRandom is closed up and every position corrected |
| `AddrOps.TakeMakesLimbo` | src/addrman.cpp:207-215 | leaving all new buckets leaves an entry with no reference and nNew one lower |
| `AddrOps.PutInTriedKeeps` | src/addrman.cpp:217-228 | an entry in limbo put in its tried bucket with room restores the check |
| `AddrOps.ReplaceKeeps` | src/addrman.cpp:233-257 | overwriting a tried entry leaves the check intact except for the victim, which is in limbo |
| `AddrOps.ShuffleKeeps` | src/addrman.cpp:125-147 | any permutation of a tried bucket keeps the check |
| `AddrOps.SizeBound` | src/addrman.h:393-396 | a consistent manager has nNew + nTried entries, at most 256*64 new and 64*64 tried |
| `AddrTables.RefsUpdate` | src/addrman.cpp:475-484 | changing one bucket changes the number of buckets an id is in by exactly that bucket |
| `AddrMan.AddrMan.constructor` | src/addrman.h:382-390 | a new manager is empty and consistent |
| `AddrMan.AddrMan.Find` | src/addrman.cpp:80-91 | an address is found if and only if it is indexed, with its id |
| `AddrMan.AddrMan.Create` | src/addrman.cpp:93-103 | the new id is the old nIdCount, and the tables change as the specification says |
| `AddrMan.AddrMan.SwapRandom` | src/addrman.cpp:105-123 | exactly two positions of vRandom are exchanged and both entries corrected |
| `AddrMan.AddrMan.SelectTried` | src/addrman.cpp:125-147 | the bucket and the position are what up to four rounds of drawing, swapping and comparing last successes give, for the positions drawn |
| `AddrMan.ChooseCandidate` | src/addrman.cpp:125-147 | the loop itself: the list is a rearrangement of the bucket, and it and the position are those of the rounds for some draws |
| `AddrMan.AddrMan.ShrinkNew` | src/addrman.cpp:149-201 | exactly one reference leaves the bucket, with result 0 that of the first terrible entry in id order, with result 1, when there is none, that of the oldest of at most four entries drawn from it |
| `AddrMan.AddrMan.MakeTried` | src/addrman.cpp:203-259 | the entry leaves all new buckets and goes to its tried bucket, evicting an entry to a new bucket when the tried one is full |
| `AddrMan.AddrMan.Evict` | src/addrman.cpp:238-259 | the victim goes to the new bucket its address hashes to, or certainly to the newcomer's, with its counts exchanged |
| `AddrMan.AddrMan.Good` | src/addrman.cpp:261-310 | only the entry of exactly this service changes: it is marked and, when new, moved to tried; the check holds afterwards, and the time conditions if and only if the time is positive for a known entry |
| `AddrMan.AddrMan.Add` | src/addrman.cpp:312-368 | the result says whether the address was new; a known one is refreshed and perhaps gets one more reference (never more than four), a new one gets one; the check holds afterwards |
| `AddrMan.AddrMan.Attempt` | src/addrman.cpp:370-387 | only the last try and the attempts of the exact entry change |
| `AddrMan.AddrMan.Connected` | src/addrman.cpp:509-527 | only the time of the exact entry changes, and only when it is more than twenty minutes old |
| `AddrMan.AddrMan.GetAddr` | src/addrman.cpp:493-507 | 23% of the addresses, at most 2500, are returned, the first of vRandom after a partial shuffle that permutes only vRandom; all of them are entries |
| `AddrMan.AddrMan.Serialize` | src/addrman.h:272-317 | what is written holds the key, the counters, every new entry in id order, every tried entry, and for each new bucket the numbers of exactly its members |
| `AddrMan.AddrMan.Deserialize` | src/addrman.h:318-378 | reading replaces the tables by what the stored form says: an entry whose tried bucket is full is lost, a fifth reference is ignored, and with another number of buckets the new entries are put in their own |
| `AddrDisk.LoadedWithin` | src/addrman.h:318-378 | whatever is read, no entry gets more than four references and no tried bucket more than 64 entries |
| `AddrDisk.TriedsWithin` | src/addrman.h:341-360 | a tried entry is lost exactly when its bucket holds 64 already, and the counter goes down by those lost |
| `AddrMan.AddrMan.SaveAndLoad` | src/addrman.h:270-379 | a consistent manager saved and loaded again in place is consistent, times included, has the same key, and is what it was under a renaming of ids |
| `AddrRoundTrip.RoundTrip` | src/addrman.h:248-380 | for every consistent manager, loading what was saved with the same key gives a consistent manager, times included, with the same entries in the same buckets under a renaming of ids; nothing is lost |
| `AddrRoundTrip.IsomorphicConsistent` | src/addrman.cpp:434-491 | a manager that is another one with its ids renamed satisfies the check if the other does |
| `AddrRoundTrip.TriedsLoaded` | src/addrman.h:341-360 | no tried entry is lost on loading: its bucket always has room, since it came from there |
| `AddrRoundTrip.BucketsLoaded` | src/addrman.h:361-377 | the references of every bucket are restored, none dropped for exceeding four |
| `AddrRebuild.RebuildIsIsomorphic` | src/addrman.h:334-338 | a saved form given another number of buckets loads as the same entries with every new one in its own bucket alone, under a renaming of ids |
| `AddrRebuild.RebuildConsistentWhen` | src/addrman.h:318-378 | what is loaded then is consistent if and only if no more than 64 of the new entries hash to one bucket |
| `AddrOverflow.RebuildOverflows` | src/addrman.h:318-378 | 65 new entries that all hash to one bucket, 64 in it and one in another, are a consistent manager; its saved form given another number of buckets loads as an inconsistent one |
| `KeccakSpec.OffsetsFollowWalk` | src/keccak.c:1016-1056 | the rotation offsets are those section 3.2.2 of FIPS 202 derives from its walk, which meets every lane but the first |
| `KeccakConstants.ConstantsFollowRegister` | src/keccak.c:136-149 | the table of round constants is the one Algorithm 5 and section 3.2.5 of FIPS 202 derive from the shift register |
| `KeccakMask.ThetaFlip` | src/keccak.c:958-1014 | theta of a state with inverted lanes is theta of the state, inverted by the mask theta makes of the lanes' column parities |
| `KeccakMask.LinearFlip` | src/keccak.c:958-1056 | theta, rho and pi turn the six-lane complement at rest into the one chi expects |
| `KeccakMask.FlipTwice` | src/keccak.c:1636-1642 | inverting the masked lanes twice restores the state |
| `KeccakOrders.Next` | src/keccak.c:1139-1156 | each lane order is the one before followed by pi, so naming lanes differently is pi |
| `KeccakOrders.IsOrderP` | src/keccak.c:1139-1156 | every lane order names each of the 25 words once and keeps lane (0, 0) in place |
| `KeccakRound.RowIdentities0` | src/keccak.c:1080-1085 | with the lanes of row 0 inverted as they arrive, the or and and forms are chi of the row, inverted as lanes rest |
| `KeccakRound.RowIdentities1` | src/keccak.c:1091-1096 | with the lanes of row 1 inverted as they arrive, the or and and forms are chi of the row, inverted as lanes rest |
| `KeccakRound.RowIdentities2` | src/keccak.c:1102-1107 | with the lanes of row 2 inverted as they arrive, the or and and forms are chi of the row, inverted as lanes rest |
| `KeccakRound.RowIdentities3` | src/keccak.c:1113-1118 | with the lanes of row 3 inverted as they arrive, the or and and forms are chi of the row, inverted as lanes rest |
| `KeccakRound.RowIdentities4` | src/keccak.c:1124-1129 | with the lanes of row 4 inverted as they arrive, the or and and forms are chi of the row, inverted as lanes rest |
| `KeccakRound.ThElt` | src/keccak.c:958-973 | the reassociated xors are the column sum and the rotated neighbour's |
| `KeccakRound.ThetaMacro` | src/keccak.c:975-1014 | THETA in place, under any lane order, is theta of the state it names |
| `KeccakRound.RhoMacro` | src/keccak.c:1016-1056 | RHO in place is rho of the state it names |
| `KeccakRound.KhiMacro` | src/keccak.c:1070-1135 | KHI in place is chi of the state under the entering complement, left under the resting one |
| `KeccakRound.KfElt` | src/keccak.c:1392-1397 | one unrolled round from order r to order r + 1 is one plain round, complement and reordering removed |
| `KeccakPermutation.P8ToP0` | src/keccak.c:1313-1347 | the eight cycles put the lanes back from order P8 to order P0 |
| `KeccakPermutation.EightRounds` | src/keccak.c:1454-1467 | eight in-place rounds and the reordering are eight plain rounds with the same constants |
| `KeccakPermutation.KeccakF1600` | src/keccak.c:1454-1467 | the whole program is Keccak-f[1600] under the complement, which it keeps |
| `KeccakSponge.TailBits` | src/keccak.c:1618-1634 | the bytes fed at closing are the extra bits followed by pad10*1 of section 5.1 of FIPS 202, in every case of buffered bytes and extra bits |
| `KeccakSponge.PadFills` | src/keccak.c:1618-1634 | pad10*1 completes a whole number of blocks |
| `Keccak.Context.constructor` | src/keccak.c:1525-1566 | a new context holds the all-zero state and has been fed nothing |
| `Keccak.Context.Init` | src/keccak.c:1525-1566 | six inverted lanes and zeros elsewhere are the all-zero state; lim is the rate |
| `Keccak.Context.Core` | src/keccak.c:1568-1603 | feeding any bytes keeps the state equal to the absorption of all full blocks fed so far, the rest being buffered |
| `Keccak.Context.Close` | src/keccak.c:1607-1647 | for every way of feeding and up to seven extra bits the output is the sponge of the message and those bits, and the context starts afresh |
| `Keccak.InputBuf` | src/keccak.c:183-193 | xoring the buffer into the words in memory order absorbs the block |
| `Keccak.MixedPlain` | src/keccak.c:183-193 | absorbing commutes with the complement |
| `Keccak.FlipBack` | src/keccak.c:1636-1642 | undoing the complement at closing leaves the plain state |
| `Keccak.Output` | src/keccak.c:1643-1645 | the first d bytes are the first 8d bits of the state |
| `Merkle.Block.BuildMerkleTree` | src/main.h:946-963 | the root is that of the recursive tree whose last node is duplicated, zero for no transaction, and the flat array holds its levels |
| `Merkle.Block.GetMerkleBranch` | src/main.h:965-979 | the branch read off the flat array is the list of siblings on the way up, the tree being built first if it has not been |
| `Merkle.CheckMerkleBranch` | src/main.h:981-994 | the check folds the branch over the value by the bits of the index, and gives zero at index -1 |
| `Merkle.ProveInclusion` | src/main.h:946-994 | building, taking a branch and checking it gives the root, for every index |
| `Merkle.BranchVerifies` | src/main.h:965-994 | every leaf verifies with its branch |
| `Merkle.SmallRoots` | src/main.h:946-963 | the root of one leaf is the leaf, that of two the hash of the first with the second, and of three leaves the third is paired with itself |
| `Merkle.OnlyLeafVerifies` | src/main.h:981-994 | for an injective pair hash a value and a branch of the tree's depth verify at i if and only if they are leaf i and its branch |
| `Merkle.RootDeterminesLeaves` | src/main.h:946-963 | for an injective pair hash lists of equal length have the same root if and only if they are equal |
| `Merkle.RepeatedLastLeaf` | src/main.h:952-962 | the shortest witness that the number of leaves matters: an odd list of more than one and the same with its last leaf repeated share a root |
| `Merkle.RootFixesLeavesWhen` | src/main.h:946-963 | for an injective pair hash, a common root forces lists of lengths n and m to be equal if and only if n equals m |
| `Merkle.SameRootWhen` | src/main.h:952-962 | for an injective pair hash and any two lists, the one with the shallower tree first, the roots are equal if and only if at the end of every path as long as its depth the first has a leaf that is the node of the second there, the last node of each level standing in for a missing one |
| `Merkle.FlatNode` | src/main.h:954-960 | the flat array stays a prefix of the levels of the recursive tree |
| `BlockTree.Back` | src/main.h:1073-1090 | walking back n blocks stays in the index, n lower |
| `Locator.Locator.Set` | src/main.h:1470-1485 | entry i is i blocks back for i up to 10, entry 10 + k is 9 + 2^k back, none is missing, and genesis is last |
| `Locator.Locator.GetDistanceBack` | src/main.h:1487-1506 | the differently written doubling rule gives the place 9 + 2^k, or k up to the tenth, that the list has for its first entry in the main chain, or for the entry after the last if none is |
| `Locator.Locator.GetBlockIndex` | src/main.h:1508-1522 | the first entry in the main chain is returned, genesis if there is none |
| `Locator.LocatorLength` | src/main.h:1470-1485 | a locator has at most 12 + log2(height + 1) entries |
| `Locator.FirstKnownIs` | src/main.h:1508-1522 | the first entry known is the first that is at least as far back as the fork |
| `Locator.FoundBlock` | src/main.h:1508-1522 | with the fork d blocks back, the block found is common to both chains, exactly d back for d up to 11 and less than 2d otherwise |
| `Locator.DistanceExactWhen` | src/main.h:1487-1506 | the distance told is that of the block found if and only if the fork is no farther back than the last entry before the appended genesis; it is never too small |
| `Locator.DistanceOvershoots` | src/main.h:1484-1506 | an input that shows the other case: a locator for block 20 read by a node that has genesis alone, where genesis is 20 back and 25 is told |
| `Locator.SomeKnown` | src/main.h:1508-1522 | a node with the same genesis knows some entry of every locator |
| `Locator.FindFork` | src/main.cpp:3192-3197 | setting a locator, finding its block and telling the distance: the block is common to both chains, d back for d up to 11 and under 2d otherwise, and the distance is right if and only if some listed distance lies between the fork and genesis |
| `Locator.PosNext` | src/main.h:1501-1503 | the step that leads from one entry to the next is 1 ten times and then doubles |
| `MedianTime.GetMedianTimePast` | src/main.h:1239-1251 | the value returned is the median of the times of the last eleven blocks, or of all when there are fewer |
| `MedianTime.MedianUnique` | src/main.h:1239-1251 | the median is determined by how many times lie below and not above it |
| `MedianTime.WindowNext` | src/main.h:1239-1251 | a block's window is its parent's with its own time added and, from the twelfth block on, the oldest dropped |
| `MedianTime.LaterMedian` | src/main.h:1239-1251 | a window that gains a time above its median, and perhaps loses one, has no lower median |
| `MedianTime.MedianNeverDecreases` | src/main.cpp:2135-2137 | if each block is later than its parent's median time past, the median never decreases along a chain, short windows included |
| `MedianTime.LaterThanEveryMedian` | src/main.cpp:2135-2137 | then each block is later than the median time past of every strict ancestor |
| `StakeModifier.GetLastStakeModifier` | src/kernel.cpp:37-49 | the nearest block at or before the given one that generated a modifier, and failure if there is none or no block is given |
| `StakeModifier.Section` | src/kernel.cpp:51-56 | section k lasts the greatest number n of seconds with n * (63 + 2 * (63 - k)) <= 600 * 63, between 200 and 600 |
| `StakeModifier.SectionsGrow` | src/kernel.cpp:51-56 | sections never shrink from one round to the next; the first lasts 200 seconds and the last 600 |
| `StakeModifier.RoundInTime` | src/kernel.cpp:165-174 | each round takes a block of least selection hash among those left up to the end of its section; only when none is left there it takes the earliest left |
| `StakeModifier.FirstRound` | src/kernel.cpp:165-174 | round 0 takes a candidate at most 200 seconds after the selection start if there is one |
| `StakeModifier.Weight` | src/kernel.cpp:85-96 | the selection hash is the hash of proof and previous modifier, for a proof-of-stake block its quotient by 2^32 |
| `StakeModifier.Interval` | src/kernel.cpp:141-143 | times of one interval are those from a multiple of ten minutes up to the next |
| `StakeModifier.SelectBlockFromCandidates` | src/kernel.cpp:69-109 | a block is selected if and only if one is free, and it is the first of least selection hash among the free ones in time, or the earliest free one if none is in time |
| `StakeModifier.SelectionUnique` | src/kernel.cpp:69-109 | that description fits one candidate only |
| `StakeModifier.SomeFree` | src/kernel.cpp:168-174 | while fewer blocks are taken than there are candidates, one is free: a round never fails |
| `StakeModifier.SelectRounds` | src/kernel.cpp:160-177 | min(64, candidates) rounds pick as many different blocks, each the selection of its round, and the bits of the result are theirs |
| `StakeModifier.BitOfRound` | src/kernel.cpp:171-172 | bit r of the modifier is the entropy bit of round r's block, and zero past the last round |
| `StakeModifier.PicksUnique` | src/kernel.cpp:160-177 | the rounds are determined: two lists of picks of the same length are equal |
| `StakeModifier.ComputeNextStakeModifier` | src/kernel.cpp:124-208 | the call fails exactly when no ancestor generated a modifier; otherwise the last one is kept inside its interval and a new one selected after it; its first bit is that of a candidate at most 200 seconds after the selection start if there is one |
| `StakeModifier.SuffixFacts` | src/kernel.cpp:149-155 | the candidates are the different blocks of the chain back to the selection start, at least one when the block itself is late enough |
| `StakeModifier.SuffixIs` | src/kernel.cpp:149-155 | the candidates are exactly the blocks on the way back that are not before the selection start, up to the first that is |
| `StakeModifier.ByTimeMeans` | src/kernel.cpp:157-158 | the order is by time, and by hash among blocks of one time |
| `StakeModifier.SortSorts` | src/kernel.cpp:157-158 | sorting by time and hash keeps the candidates |
| `StakeChain.DependsOnAncestors` | src/kernel.cpp:124-208 | the modifier computed for a successor is the same in any two block indexes that agree on the block and its ancestors, whatever forks they hold |
| `StakeChain.StoresLast` | src/main.cpp:1976-1981 | in every index built by computing and storing, genesis generates, and every block stores the modifier of its nearest generating ancestor or itself |
| `StakeChain.EmptyBuilt` | src/main.cpp:1947-1990 | an empty index is built: the start of every chain |
| `StakeChain.AddToBlockIndex` | src/main.cpp:1947-2015 | a block is indexed exactly when its hash is new and the modifier checkpoints accept it, and stays indexed when writing or the change of the best chain then fails; nothing else changes and the index stays built |
| `StakeChain.IntervalsIncrease` | src/kernel.cpp:124-143 | if times never decrease, of two generating blocks in a chain the later lies in a strictly later modifier interval |
| `StakeChain.GetKernelStakeModifier` | src/kernel.cpp:213-243 | success means the returned modifier is that of the first generating main-chain block at least a selection interval later than the given one, and it succeeds if and only if there is one |
| `StakeChain.NoneBefore` | src/kernel.cpp:213-243 | no main-chain block below the one found both generated a modifier and lies a selection interval after the given block |
| `SyncCheckpoint.Checkpoints.constructor` | src/main.cpp:2587-2596 | a new node has accepted genesis, which is its checkpoint |
| `SyncCheckpoint.Checkpoints.ValidateSyncCheckpoint` | src/checkpoints.cpp:99-139 | true exactly for a known strict descendant of the checkpoint; a block is flagged invalid exactly when it is known and neither ancestor, descendant nor equal |
| `SyncCheckpoint.Checkpoints.TakeOver` | src/checkpoints.cpp:167-186 | the block becomes the checkpoint and nothing is pending when the chain is or becomes the best one and the write succeeds, and otherwise both stay; a block the chain cannot be switched to is flagged |
| `SyncCheckpoint.Checkpoints.AcceptPendingSyncCheckpoint` | src/checkpoints.cpp:157-198 | true exactly when the pending block is a known strict descendant of the checkpoint that can be taken, which is then the checkpoint; one that does not descend is dropped |
| `SyncCheckpoint.Checkpoints.ProcessSyncCheckpoint` | src/checkpoints.cpp:383-431 | true exactly for a signed message for a known strict descendant that can be taken, which is then the checkpoint; a signed message for an unknown block makes it pending; otherwise the checkpoint stays |
| `SyncCheckpoint.Checkpoints.CheckSync` | src/checkpoints.cpp:211-236 | above the checkpoint only its descendants pass, at its height only itself, below it only known blocks |
| `SyncCheckpoint.Checkpoints.AcceptBlock` | src/main.cpp:2109-2204 | a block is indexed only when it is new, its parent is known and CheckSync passes, and then a pending checkpoint is tried |
| `SyncCheckpoint.Checkpoints.AutoSelectSyncCheckpoint` | src/checkpoints.cpp:201-208 | the highest block of the best chain at least ten blocks and 1200 seconds before its end, or genesis |
| `SyncCheckpoint.StepAdvances` | src/checkpoints.cpp:99-236 | every message, pending acceptance and block keeps the index growing and the checkpoint indexed, moving at most to a descendant |
| `SyncCheckpoint.NewBlockDescends` | src/checkpoints.cpp:211-236 | a block that enters the index descends from the checkpoint |
| `SyncCheckpoint.RunAdvances` | src/checkpoints.cpp:157-198 | between any two states of a run the checkpoint only moves down its own branch |
| `SyncCheckpoint.BlocksDescendFromCheckpoints` | src/checkpoints.cpp:211-236 | a block accepted at any point of any run descends from every checkpoint adopted up to then |
| `SyncCheckpoint.MessageAdopts` | src/checkpoints.cpp:383-431 | a message makes its block the checkpoint, with nothing pending, if and only if that is a known strict descendant of the checkpoint that is or can be put on the best chain and the write succeeds; otherwise the checkpoint stays, and an unknown block becomes pending |
| `SyncCheckpoint.PendingAdopts` | src/checkpoints.cpp:157-198 | a pending checkpoint whose block is known is adopted under the same condition, dropped when it is no strict descendant, and kept when it cannot be taken now |
| `SyncCheckpoint.PendingTakesEffect` | src/main.cpp:2190-2204 | over every run, a message for a block not yet known makes that block the checkpoint when it is indexed, if no message comes in between and it can be taken then |
| `BigNum.CBigNum.SetInt64` | src/bignum.h:178-218 | the number becomes the input for every 64-bit signed integer, the minimum included |
| `BigNum.EmittedDenotes` | src/bignum.h:196-216 | the bytes built, with the extra byte when the first has its high bit set, denote the magnitude with the sign |
| `BigNum.CBigNum.GetUint64` | src/bignum.h:221-234 | the low 64 bits of the magnitude |
| `BigNum.CBigNum.SetUint64` | src/bignum.h:236-261 | the number becomes the input for every 64-bit unsigned integer |
| `BigNum.CBigNum.SetUint256` | src/bignum.h:263-289 | the number becomes the 256-bit value stored low byte first |
| `BigNum.CBigNum.GetUint256` | src/bignum.h:291-304 | the low 256 bits of the magnitude |
| `BigNum.Uint64RoundTrip` | src/bignum.h:221-261 | getuint64 after setuint64 is the identity |
| `BigNum.Uint256RoundTrip` | src/bignum.h:263-304 | getuint256 after setuint256 is the identity |
| `BigNum.CBigNum.SetVch` | src/bignum.h:307-319 | the number becomes what the little-endian bytes denote |
| `BigNum.CBigNum.GetVch` | src/bignum.h:322-332 | the little-endian bytes of the number |
| `BigNum.VchRoundTrip` | src/bignum.h:307-332 | setvch after getvch is the identity on every integer |
| `BigNum.MpiRoundTrip` | src/bignum.h:307-332 | reading what BN_bn2mpi writes gives the integer back |
| `BigNum.LengthExact` | src/bignum.h:346-357 | the MPI length is the least that leaves the highest bit free |
| `BigNum.CBigNum.SetCompact` | src/bignum.h:334-344 | the number becomes what the length and the three top bytes of the compact form denote |
| `BigNum.CBigNum.GetCompact` | src/bignum.h:346-357 | the compact form has the MPI length, shifted in 32 bits, and its first three bytes, for every number |
| `BigNum.ExpandCompact` | src/bignum.h:334-357 | decoding the compact form of n, of either sign, keeps the sign and the three top bytes of the magnitude and clears the rest |
| `BigNum.CompactKeeps` | src/bignum.h:334-357 | for an n of either sign whose MPI length fits in a byte, decoding its compact form gives r of the same sign, no larger, with |n - r| * 2^15 <= |r|, exact up to three bytes, and r has the same compact form |
| `BigNum.CompactNegates` | src/bignum.h:334-357 | for numbers of every size, the compact form of -n decodes to the negation of what that of n decodes to |
| `BigNum.CompactKeepsWhen` | src/bignum.h:334-357 | those bounds hold if and only if the MPI length fits in a byte |
| `BigNum.CompactMonotone` | src/bignum.h:334-357 | encoding and decoding in compact form is monotone over the numbers of both signs whose MPI length fits in a byte |
| `BigNum.KeptAgain` | src/bignum.h:334-357 | what is kept of a number has the same MPI length and is kept whole |
| `Base58.EncodeBase58` | src/base58.h:28-66 | the string is the base-58 numeral of the bytes after one '1' for each leading zero byte |
| `Base58.DecodeBase58` | src/base58.h:76-120 | acceptance and bytes are as specified; nothing is returned on rejection |
| `Base58.DecodeEncode` | src/base58.h:28-120 | decoding what was encoded gives every byte vector back |
| `Base58.EncodeDecode` | src/base58.h:28-120 | every string over the alphabet is accepted and encoded back to itself |
| `Base58.LeadingMatch` | src/base58.h:59-61 | leading zero bytes and leading '1's are equally many |
| `Base58.DecodeAccepts` | src/base58.h:83-102 | a C string is accepted if and only if it is characters of the alphabet between runs of spaces |
| `Base58.SpacesAre` | src/base58.h:83-84 | the characters skipped are space, tab, line feed, vertical tab, form feed and carriage return |
| `Base58.AlphabetIs` | src/base58.h:25-25 | the characters of the alphabet are the ASCII digits and letters without 0, I, O and l |
| `Base58.DigitsInOrder` | src/base58.h:25-25 | the digits of two characters are ordered as the characters |
| `Base58.SpacesAround` | src/base58.h:83-102 | spaces before and after do not change the result |
| `Base58.EncodedSize` | src/base58.h:45-47 | the encoded length never exceeds n*138/100 + 1, the size reserved |
| `Base58.EncodeBase58Check` | src/base58.h:133-140 | the string encodes the payload followed by four bytes of its hash |
| `Base58.DecodeBase58Check` | src/base58.h:144-161 | the payload is returned exactly when the last four bytes are its hash, nothing otherwise |
| `Base58.CheckRoundTrip` | src/base58.h:133-161 | a string checks as a payload if and only if it decodes to the payload and its four hash bytes; what was encoded checks |
| `Radix.ConvertBack` | src/base58.h:28-120 | converting digits between bases, leading zeros kept one for one, is undone by converting back |
| `Blake.Blake.constructor` | src/blake.c:790-798 | a new context has been fed nothing |
| `Blake.Blake.Core` | src/blake.c:800-836 | the buffered loop with its 32-bit counter words does what feeding byte by byte with a 64-bit counter does |
| `Blake.Blake.Update` | src/blake.c:800-836 | a context fed more bytes is the context of all bytes fed |
| `Blake.FeedSplit` | src/blake.c:800-836 | feeding in any two pieces is feeding at once: same H, T and buffer |
| `Blake.FeedChains` | src/blake.c:800-836 | after any message H is the fold of the compression over the full blocks, T their bits modulo 2^64, and the rest is buffered |
| `Blake.TailBits` | src/blake.c:852-885 | the bytes fed at closing are the extra bits and the padding of section 2.1.3: a one, zeros to 447 modulo 512, the flag bit, the length in 64 bits |
| `Blake.CountsOnce` | src/blake.c:852-878 | the counter set back before the last block comes out, after the addition and any wrap-around, as the number of message bits through the block, or zero if it holds none |
| `Blake.Blake.SetCounterBack` | src/blake.c:856-866 | the three cases on the counter words are that setting back |
| `Blake.Blake.Close` | src/blake.c:838-889 | for messages under 2^64 bits the result is the hash of the padded message, each compression seeing the counter of its block |
| `Blake.FullBlocks` | src/blake.c:800-836 | for whole blocks that hash is the plain fold |
| `Bloom.CBloomFilter.InsertKey` | src/bloom.cpp:40-51 | exactly the bits of the key are set, unless the filter is full |
| `Bloom.CBloomFilter.ContainsKey` | src/bloom.cpp:67-81 | true exactly when the filter is full, or is not empty and has all bits of the key |
| `Bloom.CBloomFilter.UpdateFlags` | src/bloom.cpp:171-182 | full if all bytes are 0xff, empty if all are zero, and the flags are true of the data |
| `Bloom.CBloomFilter.IsRelevantAndUpdate` | src/bloom.cpp:102-169 | the result and the outpoints inserted are those of the matching algorithm of BIP 37; false means that the filter was not full and, unless it was empty, contained neither the hash nor any data element of an output or input nor any spent outpoint |
| `Bloom.CBloomFilter.MatchOutputs` | src/bloom.cpp:114-144 | some output matched if and only if found is set, each being tried on the filter the ones before left |
| `Bloom.CBloomFilter.MatchInputs` | src/bloom.cpp:149-168 | true if and only if some input spends a contained outpoint or has a contained item in its script |
| `Bloom.ContainsIsCovers` | src/bloom.cpp:67-81 | the early exits change nothing: with at least one hash function a key is contained if and only if all its bits are set |
| `Bloom.InsertCovers` | src/bloom.cpp:40-51 | after inserting, all bits of the key are set, flags notwithstanding |
| `Bloom.BitsAfter` | src/bloom.cpp:43-49 | inserting sets exactly the bits the hash functions name |
| `Bloom.NoFalseNegative` | src/bloom.cpp:40-182 | a key once inserted is contained after any later inserts, matches and flag updates, provided there is a hash function, or no data, or some bit set |
| `Bloom.ForgottenWhen` | src/bloom.cpp:40-182 | an inserted key is contained after one flag update if and only if that condition holds |
| `Bloom.RememberedExactly` | src/bloom.cpp:40-182 | an inserted key is contained after every run of inserts, matches and flag updates if and only if there is a hash function, or no data, or some bit set before |
| `Bloom.SpendingIsRelevant` | src/bloom.cpp:114-153 | under BLOOM_UPDATE_ALL, and for outputs paying to a key or multisig under BLOOM_UPDATE_P2PUBKEY_ONLY, and under the same condition, every later transaction spending an output that matched is relevant, whatever happens in between |
| `Bloom.RelevantExactly` | src/bloom.cpp:102-169 | a transaction is relevant if and only if the filter is full, or is not empty and, as it is on entry, contains its hash, a non-empty data element of an output or an input, or an outpoint it spends |
| `Bloom.WatchedIsRelevant` | src/bloom.cpp:40-182 | a transaction whose hash, data element of an output or input, or spent outpoint was inserted is relevant after any operations, under the condition that an inserted key is remembered |
| `Bloom.OnlyOutpoints` | src/bloom.cpp:114-144 | matching sets no bit but those of the outpoints of matched outputs: all of them under BLOOM_UPDATE_ALL, those paying to a key or multisig under BLOOM_UPDATE_P2PUBKEY_ONLY |
| `Bloom.NoFlagNoUpdate` | src/bloom.cpp:114-144 | without one of those flags matching leaves the filter as it was |
| `Bloom.BitAtIs` | src/bloom.cpp:43-49 | bit n of a filter is bit n % 8, from the least significant on, of byte n / 8 |
| `LockedPages.LockedPageManager.constructor` | src/allocators.h:48-54 | with a page size that passes the assertion, zero included, no page is locked; ranges can be locked unless it is zero |
| `LockedPages.LockedPageManager.LockRange` | src/allocators.h:57-77 | every page the range touches counts one more, newly counted pages are locked in the system, and the histogram equals the cover count of the live ranges |
| `LockedPages.LockedPageManager.UnlockRange` | src/allocators.h:80-100 | every page of a live range is found in the histogram, counts one less, and is unlocked when the count reaches zero |
| `LockedPages.LockedPageManager.GetLockedPageCount` | src/allocators.h:103-107 | the number of pages locked |
| `LockedPages.PowerOfTwoTest` | src/allocators.h:51-53 | p & (p - 1) is zero if and only if p is a power of two |
| `LockedPages.AcceptsPageSize` | src/allocators.h:51-53 | the assertion accepts exactly zero and the powers of two |
| `LockedPages.MaskIsRounding` | src/allocators.h:52-63 | for a page size that passes that test, masking a 64-bit address rounds it down to its page |
| `LockedPages.TouchesBetween` | src/allocators.h:60-68 | the pages a range touches are those from that of its first byte to that of its last |
| `LockedPages.LoopEndsWhen` | src/allocators.h:60-64 | for every page size that passes the assertion and every range within the address space, the 64-bit loop over the pages of the range ends if and only if the size is not zero and the page after the last has a 64-bit address |
| `LockedPages.CountingEndsWhen` | src/allocators.h:64-64 | the loop from any page to any other ends if and only if it has no turn or the page after the last has a 64-bit address |

## Left out

- Check queue: condition variables are modelled by their effect (a notification, a spurious wake-up); fairness of the scheduler is assumed by no lemma, so `WaitReturnsInTime` bounds the steps taken, not the time. The controller is the conditions it asserts, not a class. 32-bit wrap of the counters is not modelled.
- Address manager: Select_ and GetChance (floating point and unbounded random retry), logging, and overflow of nIdCount and nAttempts; nServices is the set of its flags; the random key is a parameter.
- Check_: the check itself is the predicate AddrTables.Inv with TimesOk, not a method.
- AddrMan.AddrMan.Deserialize: the stored form is a list of fields rather than bytes, with as many entries as its counters say, since reading fails otherwise; with more than 256 buckets the source forms references past the end of vvNew that it does not use, and the model has none.
- Keccak: lanes are lists of 64 bits; the interleaved 32-bit build and the other unroll counts are not modelled.
- Merkle: transactions are their hashes, fixed when the block is made.
- Locator.Locator.Set: heights and steps are unbounded integers; the index only keeps blocks whose parent it keeps.
- MedianTime: times are unbounded integers.
- StakeModifier.ComputeNextStakeModifier: the selection hash is any function of the proof hash and the previous modifier; times and the modifier interval arithmetic are unbounded; printing is left out.
- StakeChain.AddToBlockIndex: whether the hard-coded modifier checkpoints accept the block, and whether writing it and changing the best chain succeed, are parameters; the checksum behind the former, its assertion that only genesis has no predecessor, failure to allocate, setStakeSeen and chain trust are not modelled.
- Kernel: GetWeight, CheckStakeKernelHash and CheckProofOfStake (targets, coin age, disk) are not modelled.
- SyncCheckpoint: testnet, the advisory and permissive modes, ResetSyncCheckpoint (which may move the checkpoint to a hardened one), relay and sending of checkpoints; signatures, disk, database and SetBestChain are outcomes given as parameters.
- SyncCheckpoint.Checkpoints.AcceptBlock: the block's other checks are one outcome.
- BigNum: a BIGNUM is an integer and OpenSSL's errors do not occur; the operators, hexadecimal and the word-sized accessors (setulong, getint) are not modelled.
- BigNum.CompactMonotone: stated for numbers whose MPI length fits in one byte, as the compact form has one byte for it.
- Base58: the alphabet is the source's; the C string ends at the first NUL; CBase58Data and addresses are not modelled.
- Blake: the compression function is any function of chaining value, block and counter words; the 64-bit variant and the writing out of H are left out.
- Blake.Blake.Close: for messages under 2^64 bits, the limit of the specification.
- Bloom: the sizing constructor (floating point); a script is the data items pushed by it and whether it pays to a key; an empty data vector that is not marked full divides by zero in the source and is excluded.
- LockedPages.LockedPageManager.LockRange: requires what makes the source's loop end (`LoopEndsWhen`): page size zero, which the assertion accepts, and a last page that is the last of the address space keep it running for ever; a range does not leave the address space; failure of the system's lock call is not modelled.
- LockedPages.LockedPageManager.UnlockRange: requires the same, as its loop is the same.
- limitedmap, mruset, alerts, the other hash functions, scripts, wallet, RPC, network and database: not modelled.
