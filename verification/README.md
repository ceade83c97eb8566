# Verified models of the node's data structures and arithmetic

This project models the stateful core of a Bitcoin-style node in Dafny and proves what that core is relied on for. Each
component has two layers. The first is a set of functions on values, with the theorems about them. The second is a class
or a set of methods that works in place, as the program does, and is proved to compute those functions.

| files | component |
|---|---|
| `AddrManState`, `AddrManSteps`, `AddrManOps`, `AddrManCheck`, `AddrManRuns`, `AddrManLaws`, `AddrMan`, `PeersFile`, `PeersRoundTrip`, `PeersLaws` | the address manager: tables, indexes, counters, pending collisions, its self-check and its file |
| `Coins`, `CoinsRuns`, `CoinsLaws`, `CoinsView` | the stack of write-back coin caches over the coin database |
| `CheckQueue`, `CheckQueueObject` | the parallel script-check queue as a transition system, and its critical sections |
| `MerkleTree`, `MerkleProof`, `MerkleSize`, `MerkleLaws`, `PartialMerkle` | partial Merkle trees (BIP 37) |
| `Mempool`, `BlockSelection`, `MinerPackages`, `Miner` | the block assembler |
| `Limbs`, `LimbShifts`, `LimbDivision`, `ArithUint`, `Arith256`, `Compact` | 256-bit arithmetic, compact targets, block proof |
| `Chain` | the block index: skip pointers, the active chain, forks, locators |
| `Cuckoo`, `CuckooLaws`, `CuckooCache`, `Bloom`, `RollingBloom`, `Bits8` | the two approximate sets |
| `Xors`, `Bech32Poly`, `Bech32`, `Bech32Texts`, `Bech32Codec` | Bech32 and Bech32m (BIP 173, BIP 350) |
| `Field1024`, `Bech32Distance` | the errors that their checksum detects |
| `Radix`, `Base58`, `Base58Codec` | Base58 and Base58Check |
| `CompactBlocks`, `CompactFill`, `CompactBlock` | compact blocks (BIP 152) |
| `Basics`, `Powers`, `Sets` | shared definitions |

## Main results

- **Address manager.** `AddrManRuns.RunInvariant`: every run of Add, Good, Attempt, Connected, SetServices, GetAddr,
  ResolveCollisions and SelectTriedCollision from an empty manager keeps an invariant that is stronger than what
  `Check_` tests, for every bucket hash, every random draw and every positive clock; `AddrManRuns.GoodIff` has the exact
  condition for other clocks. Hence `Check_` always passes, every internal assertion holds, the "no bucket found" exit
  of `Good_` is never taken, and a pending collision always contests an occupied tried cell.
  `AddrManLaws.AddUnknown`, `AddKnownLaw`, `GoodLaw` and `ResolveLaw`: field by field and with every threshold written
  out, when an address becomes known and where, when it enters the tried table or waits, and which side of a collision
  wins.
  `PeersRoundTrip.RoundTrip`: saving and loading loses no address. `PeersFile.LoadInvIff` and
  `PeersFile.LoadCheckedIff`: exactly which files load into a manager that is consistent, and into one that `Check_`
  lets pass. `PeersLaws.NewReloaded` and `PeersLaws.TriedReloaded`: which records survive a changed bucketing.
- **Coin caches.** `CoinsRuns.RunAgrees`: any run over any number of layers, including pushing and dropping layers,
  agrees layer by layer with plain maps. The misapplied-FRESH throw is unreachable.
- **Check queue.** `CheckQueue.RunInvariant` and `CheckQueue.SessionAnswer`: in every interleaving `Wait` returns true
  exactly when every check of the session ran and passed. `CheckQueue.WaitEnds`: under every schedule that keeps
  changing something the answer comes within a bounded number of steps, and until then there is always such a step.
- **Partial Merkle trees.** `MerkleTree.ExtractSound`: what is extracted from arbitrary data under the true root is
  genuine. `MerkleProof.RoundTrip`: what is built reads back, and is refused exactly in one case. `MerkleLaws.RootIs`:
  the recursive root is the consensus root, level by level.
- **Block assembler.** `Miner.BlockAssembler.AddPackageTxs`: the template is always closed under ancestors, ordered,
  free of repetition and within the limits, and after a completed run each transaction is in it or was refused for a
  stated reason. It stops early only for a stated reason, and a mempool that fits, passes and pays is taken completely.
  The loop terminates.
- **Arithmetic.** The limb loops compute integers modulo a power of 2^32 for any width; long division is exact;
  `Arith256.GetBlockProof` is the floor of 2^256 over target plus one.
- **Chain.** The skip list finds what the walk over parents finds; the early-stopping `SetTip` leaves exactly the path.
- **Approximate sets.** `Cuckoo.RunInvariant` with `Cuckoo.PlaceConserves`, `CuckooLaws.InsertFree` and
  `CuckooLaws.FoundOrDropped`: what is inserted is found, or is the one element that is dropped, and only when all its
  slots are taken. `Bloom.Retention` with `Bloom.RunReflects`.
- **Bech32.** `Bech32Distance.ThreeErrorsDetected`: up to three wrong symbols within a window of 1023 are always detected,
  as documented, because the generator vanishes at three consecutive powers of an element of order 1023 in the field
  with 1024 elements. `Bech32Poly.BurstDetected`: so is every burst of up to six.
  `Bech32Texts.AbcdefText` and `Bech32Texts.EmptyText` are two published texts.
- **Codecs.** Round trips in both directions with the exact condition, the sufficiency of both Base58 buffers, and the
  reconstruction of compact blocks.

## Where the program departs from its documentation

The models follow the program, also where it does something a reader would not expect.

- `src/merkleblock.h:51` bounds the flag bits by 2N-1. `MerkleProof.BitsExceedDocumented` gives a tree with more, and
  `MerkleProof.BitsAsDocumentedIff` says exactly when the bound holds: when no opened node lacks a second child. The
  bound on the serialized size at `src/merkleblock.h:38` follows from it and fails as well, first with 1025 transactions
  (`MerkleSize.SizeAsDocumentedIff`, `MerkleSize.SizeExceedsDocumented`).
- `src/cuckoocache.h:416-430` says that the first displaced element is the one at the first hash slot, and that the
  element just put in is not moved again. The program starts with the second slot, because a search that fails returns
  the end position, which is 8. `Cuckoo.FirstVictim` and `Cuckoo.JustPlacedSparedIff` say exactly when either claim
  holds, and `Cuckoo.FirstSlotSpared` and `Cuckoo.JustPlacedMoved` show cases where it does not.
- `CCoinsViewCache::SpendCoin` reports success for a coin that is already spent when the cache has an entry for it.
  `CoinsRuns.SpentTwice` shows a case and `CoinsRuns.SpendReportsIff` states the exact condition.
- `CCoinsViewCache::AddCoin` without `possible_overwrite` is documented to refuse overwriting. It does so only for coins in
  its own layer. `CoinsRuns.HiddenOverwriteResurfaces` shows what follows for a coin further down, and
  `Coins.AddKeepsIff` says exactly when a call is harmless.
- `DecodeBase58` checks the length limit only after it has read a character, so the empty result passes a negative limit
  (`Base58.EmptyAccepted`, `Base58.AcceptedWithin`).
- `CPartialMerkleTree::ExtractMatches` clears the list of matches but only appends to the list of positions
  (`PartialMerkle.ExtractTwice`).
- `CAddrMan::Unserialize` accepts files after which its own consistency check fails: those with a record in both tables
  are a case (`PeersFile.BothTables`), and `PeersFile.LoadCheckedIff` has the exact condition. That check in turn misses
  inconsistencies, because it looks addresses up with an operator that yields 0 for a missing one and does not look at
  the pending collisions. `PeersFile.LossUnnoticed` shows an entry that is no longer found by its address, and
  `PeersFile.PendingUnnoticed` shows collisions that name nothing; they survive the load because `Clear` does not empty
  them (`AddrMan.AddrManager.Clear`). `AddrManCheck.InvIff` says exactly what the check leaves out.
- `extra_count` of a compact block is unsigned and is decremented for slots that it was not incremented for
  (`CompactFill.CountBelowZero`); `CompactFill.ExtraCount` says exactly when it goes below zero.

## Model

| member | source | states |
|---|---|---|
| `AddrManRuns.RunInvariant` | `src/addrman.cpp:405-479` | In every state of every run from an empty manager, with positive clock readings: Check_ passes, vRandom and nRandomPos are inverse, mapAddr and mapInfo agree, each reference count (1 to 8) is the number of new cells held, tried entries hold exactly their own cell, both counters are exact, and every pending collision still in mapInfo contests an occupied tried cell (at most 10 pending) |
| `AddrManRuns.GoodIff` | `src/addrman.cpp:196-260` | For any reading of the clock: Good_ keeps the invariant, and Check_ passes after it, if and only if the address is not known, the time is positive, or the time is 0 and the entry stays in the new table |
| `AddrManCheck.AllListed` | `src/addrman.cpp:410-411` | The first test of Check_: vRandom has as many entries as the two tables together |
| `AddrManCheck.ListedOnce` | `src/addrman.cpp:410-437` | The first test and the tests on single entries together make vRandom and nRandomPos inverse |
| `AddrManCheck.InvChecked` | `src/addrman.cpp:405-479` | Check_, which reads a missing address as 0 and does not look at pending collisions, passes in every state that meets the invariant |
| `AddrManCheck.InvIff` | `src/addrman.cpp:405-479` | The invariant is what Check_ tests and four things that it does not: no address missing or left over, ids below the next one, real pending collisions, buckets in range |
| `AddrManCheck.SeeNext` | `src/addrman.cpp:453-467` | Striking off an entry that is still to be met keeps the record of what is left exact |
| `AddrManCheck.SeenTooOften` | `src/addrman.cpp:444-469` | Meeting an entry that is no longer to be met means that the table is wrong, whatever follows |
| `AddrManRuns.NextKeeps` | `src/addrman.cpp:196-355` | One operation of any kind keeps the whole invariant |
| `AddrManRuns.EmptyInv` | `src/addrman.h:558-580` | The cleared manager meets the invariant |
| `AddrManSteps.SwapRandomKeeps` | `src/addrman.cpp:99-117` | Swapping two places of vRandom keeps the invariant, also in the middle of an operation |
| `AddrManSteps.DeleteKeeps` | `src/addrman.cpp:119-131` | Removing an entry without references keeps the invariant |
| `AddrManSteps.ClearNewKeeps` | `src/addrman.cpp:133-146` | Emptying a new cell keeps the invariant, whether or not the entry goes with its last reference |
| `AddrManSteps.AcquireKeeps` | `src/addrman.cpp:322-325` | Giving a free new cell to an entry that hashes there, with fewer than 8 references, keeps the invariant |
| `AddrManSteps.LeaveNewKeeps` | `src/addrman.cpp:150-160` | Leaving all new cells takes an entry out of the new table with no reference left |
| `AddrManSteps.UntryKeeps` | `src/addrman.cpp:173-176` | Taking an entry out of its tried cell leaves it in transit with no reference |
| `AddrManSteps.EnterTriedKeeps` | `src/addrman.cpp:189-193` | Entering an entry in transit into its free tried cell keeps the invariant |
| `AddrManOps.EvictKeeps` | `src/addrman.cpp:166-188` | Moving a tried entry back to the new table, over whatever is in its new cell, keeps the invariant |
| `AddrManOps.EvictHeld` | `src/addrman.cpp:166-188` | The eviction leaves every other new entry with at least one reference |
| `AddrManOps.MakeTriedKeeps` | `src/addrman.cpp:148-194` | Moving an entry to the tried table keeps the invariant |
| `AddrManOps.MakeTriedGrows` | `src/addrman.cpp:148-194` | No tried cell is ever emptied by it, ids are not reused, and the entry stands in its own cell |
| `AddrManOps.GoodKeeps` | `src/addrman.cpp:196-260` | Good_ keeps the invariant, with and without testing before evicting |
| `AddrManOps.GoodGrows` | `src/addrman.cpp:196-260` | Good_ never leaves a tried cell empty and never reuses an id |
| `AddrManOps.AnnounceKeeps` | `src/addrman.cpp:304-309` | A new entry is consistent with everything else before it gets a cell |
| `AddrManOps.HeardForward` | `src/addrman.cpp:276-284` | An announcement of a known address never takes away a service and never moves its time back; the time moves only if there was none, or forward by more than an hour beyond the penalty |
| `AddrManOps.PlaceKeeps` | `src/addrman.cpp:311-331` | Placing an entry, over a terrible or redundant one or not at all, keeps the invariant |
| `AddrManOps.PlaceGrows` | `src/addrman.cpp:311-331` | Placing leaves tried cells, ids and the pending set as they are |
| `AddrManOps.AddKeeps` | `src/addrman.cpp:262-333` | Add_ keeps the invariant for known and unknown addresses and for every outcome of the stochastic test |
| `AddrManRuns.TouchKeeps` | `src/addrman.cpp:335-355` | Attempt_, Connected_ and SetServices_ keep the invariant |
| `AddrManRuns.SampleStep` | `src/addrman.cpp:493-504` | One step of GetAddr_ settles one more place and judges exactly the entry there |
| `AddrManRuns.SampleDone` | `src/addrman.cpp:482-505` | The sample holds no entry twice, none that was terrible when its turn came, at most as many as allowed, and all the others if it stays below the limit |
| `AddrManRuns.ResolveKeeps` | `src/addrman.cpp:547-601` | Resolving one pending collision keeps the invariant whichever branch is taken |
| `AddrManRuns.ResolveAll` | `src/addrman.cpp:545-602` | Resolving all pending collisions keeps the invariant |
| `AddrManRuns.StillContested` | `src/addrman.cpp:247-253` | A pending id that still exists has an occupied tried cell, whose entry is tried and belongs there |
| `AddrManRuns.SelectTriedCollision` | `src/addrman.cpp:604-629` | The answer is a tried entry that contests the cell of the chosen pending one; the state changes only by dropping an id that no longer exists |
| `AddrMan.AddrManager.constructor` | `src/addrman.h:582-585` | An empty manager |
| `AddrMan.AddrManager.SwapRandom` | `src/addrman.cpp:99-117` | The state is the specified one: two places of vRandom and both back pointers exchanged |
| `AddrMan.AddrManager.Delete` | `src/addrman.cpp:119-131` | Called only for untried entries without references, as asserted; the entry is gone from all three indexes |
| `AddrMan.AddrManager.Release` | `src/addrman.cpp:139-141` | The cell is empty and its entry has one reference less |
| `AddrMan.AddrManager.ClearNew` | `src/addrman.cpp:133-146` | The cell is empty; its entry lost a reference and is deleted if that was the last |
| `AddrMan.AddrManager.LeaveNew` | `src/addrman.cpp:150-158` | The loop over all buckets finds exactly the cells of the entry |
| `AddrMan.AddrManager.Untry` | `src/addrman.cpp:173-176` | The tried cell is empty and its entry is no longer tried |
| `AddrMan.AddrManager.EvictTried` | `src/addrman.cpp:166-188` | The entry of the tried cell moved to its new cell; both assertions on empty cells hold |
| `AddrMan.AddrManager.Enlist` | `src/addrman.cpp:184-187` | The evicted entry holds its new cell with one reference |
| `AddrMan.AddrManager.MakeTried` | `src/addrman.cpp:148-194` | The whole move; the reference count is zero and the tried cell empty where the program asserts it |
| `AddrMan.AddrManager.EnterTried` | `src/addrman.cpp:189-193` | The entry holds an empty tried cell and is marked |
| `AddrMan.AddrManager.Find` | `src/addrman.cpp:74-85` | The id of an address, if it is known |
| `AddrMan.AddrManager.Create` | `src/addrman.cpp:87-97` | A new entry under the next id, at the end of vRandom |
| `AddrMan.AddrManager.FindBucket` | `src/addrman.cpp:225-240` | The search from any start finds a bucket that holds the entry: the exit for none is never taken |
| `AddrMan.AddrManager.PromoteEntry` | `src/addrman.cpp:242-259` | Into the tried table, or into the pending set if the cell is taken and there is room |
| `AddrMan.AddrManager.Good` | `src/addrman.cpp:196-260` | The state described in AddrManLaws.GoodLaw; the invariant holds |
| `AddrMan.AddrManager.Lucky` | `src/addrman.cpp:298-303` | With n references the chance is one in two to the n |
| `AddrMan.AddrManager.MayMultiply` | `src/addrman.cpp:286-303` | Exactly the entries that may get one more reference |
| `AddrMan.AddrManager.UpdateKnown` | `src/addrman.cpp:276-331` | Add_ for a known address |
| `AddrMan.AddrManager.Announce` | `src/addrman.cpp:304-309` | Add_ for an unknown address, before placing |
| `AddrMan.AddrManager.Acquire` | `src/addrman.cpp:324-325` | The cell holds the entry, which has one reference more |
| `AddrMan.AddrManager.PlaceEntry` | `src/addrman.cpp:311-331` | The table of Place, whose law is AddrManLaws.PlaceOne: the cell of this source goes to the entry if it is free or its holder is worthless or held elsewhere too, and else an entry without references goes |
| `AddrMan.AddrManager.Add` | `src/addrman.cpp:262-333` | State and answer are those described cell by cell in AddrManLaws.AddUnknown and AddKnownLaw, unchanged for an address that is not routable; the invariant holds |
| `AddrMan.AddrManager.Attempt` | `src/addrman.cpp:335-355` | The state described in AddrManLaws.AttemptLaw; the invariant holds |
| `AddrMan.AddrManager.Connected` | `src/addrman.cpp:507-525` | The state described in AddrManLaws.ConnectedLaw; the invariant holds |
| `AddrMan.AddrManager.SetServices` | `src/addrman.cpp:527-543` | The state described in AddrManLaws.SetServicesLaw; the invariant holds |
| `AddrMan.AddrManager.GetAddr` | `src/addrman.cpp:482-505` | The manager differs only in the order of vRandom, and the result is such a sample, for every random draw |
| `AddrMan.AddrManager.ResolveOne` | `src/addrman.cpp:548-600` | One pending collision resolved: dropped, won by the challenger or left, as AddrManLaws.ResolveLaw decides from the times of both entries; the invariant holds |
| `AddrMan.AddrManager.ResolveCollisions` | `src/addrman.cpp:545-602` | Each pending id is handled once, in ascending order, each as in AddrManLaws.ResolveLaw; the invariant holds |
| `AddrMan.AddrManager.SelectTriedCollision` | `src/addrman.cpp:604-629` | State and answer of the specification, also when nothing is pending; the invariant holds |
| `AddrMan.AddrManager.ListNews` | `src/addrman.h:374-384` | The records of the new table in id order, and the number each id gets; the count assertion holds |
| `AddrMan.AddrManager.ListTrieds` | `src/addrman.h:385-393` | The records of the tried table in id order; the count assertion holds |
| `AddrMan.AddrManager.ListBucket` | `src/addrman.h:394-407` | The numbers of the entries of one new bucket, in cell order |
| `AddrMan.AddrManager.Serialize` | `src/addrman.h:353-415` | The file of the manager |
| `AddrMan.AddrManager.Clear` | `src/addrman.h:558-580` | Everything is empty but the set of pending collisions, which is kept |
| `AddrMan.AddrManager.ReadNews` | `src/addrman.h:463-471` | The new entries, numbered as in the file, not yet in a bucket |
| `AddrMan.AddrManager.ReadTried` | `src/addrman.h:475-491` | A tried entry takes its cell, or is lost if that is taken |
| `AddrMan.AddrManager.ReadTrieds` | `src/addrman.h:473-492` | All tried entries; the counter is corrected by the lost ones |
| `AddrMan.AddrManager.ReadBuckets` | `src/addrman.h:494-507` | For each entry the last bucket that lists it, or bucket 0 |
| `AddrMan.AddrManager.ReplaceEntry` | `src/addrman.h:518-538` | Back into its bucket if the bucketing is unchanged, else by its source, if that cell is free |
| `AddrMan.AddrManager.ReplaceEntries` | `src/addrman.h:518-538` | All new entries put back |
| `AddrMan.AddrManager.PruneEntries` | `src/addrman.h:540-550` | Entries that got no cell are deleted |
| `AddrMan.AddrManager.CheckEntry` | `src/addrman.cpp:413-437` | The tests on one entry; looking up a missing address enters it with 0 and changes no other lookup |
| `AddrMan.AddrManager.CheckEntries` | `src/addrman.cpp:413-437` | All entries pass; the sets of tried and of new entries that the table passes start from |
| `AddrMan.AddrManager.CheckTried` | `src/addrman.cpp:444-456` | Each tried entry is met exactly once, in its own cell, and nothing else is |
| `AddrMan.AddrManager.CheckNew` | `src/addrman.cpp:458-469` | Each new entry is met as often as its reference count says, in cells that it hashes to, and nothing else is |
| `AddrMan.AddrManager.Check` | `src/addrman.cpp:405-479` | The result is 0 if and only if all tests hold; a manager that meets the invariant passes and is not changed |
| `AddrMan.AddrManager.Unserialize` | `src/addrman.h:417-556` | For every file and state the loaded manager is the specified one. It passes the check at the end, and it meets the full invariant, each if and only if a stated condition on the file and the collisions pending before holds |
| `AddrManLaws.WorthlessIff` | `src/addrman.cpp:39-57` | An entry is terrible if and only if it was not tried within 60 seconds and is from more than 600 seconds ahead, has no time, is over 30 days old, failed 3 times without ever answering, or failed 10 times and last answered over a week ago |
| `AddrManLaws.AddUnknown` | `src/addrman.cpp:304-331` | An unknown address gets an entry if and only if the new cell of its key and source is free or held by a worthless entry or one with another cell: then it is found by its address, with the announced services and the time less the penalty, never tried, in exactly that cell; only the former holder can be affected. Otherwise nothing changes but the order of vRandom and the ids |
| `AddrManLaws.PlaceOne` | `src/addrman.cpp:311-331` | The same for the placement of an entry just created |
| `AddrManLaws.AddKnownLaw` | `src/addrman.cpp:262-331` | A known address: services are joined; the time moves on only if the news is more than an hour (or a day, if old) and the penalty ahead; one more cell if and only if it is untried, in fewer than 8 cells, the news is newer, the draw of one in two to the n hits, and the cell is free or its holder worthless |
| `AddrManLaws.MakeTriedFields` | `src/addrman.cpp:148-194` | Entering the tried table: the entry holds exactly its tried cell and no new one, everything else of it kept; the former holder is untried, in exactly the new cell of its own source, whose holder loses it; nobody else changes |
| `AddrManLaws.GoodLaw` | `src/addrman.cpp:196-260` | A known address that answered: the times of the last success and of the last try are set and attempts are 0. It enters the tried table if it is not there and its cell is free or need not be tested; otherwise it stays where it is, and is queued if and only if it is untried and fewer than 10 are pending. An unknown one changes only the time of the last success |
| `AddrManLaws.ResolveLaw` | `src/addrman.cpp:545-602` | A pending id is dropped if it is gone, not valid, or the holder answered within 14400 seconds. Otherwise the challenger replaces the holder if that was tried within 14400 seconds but over 60 ago, or was not and the challenger has waited over 2400; else nothing changes |
| `AddrManLaws.ChallengerWinsIff` | `src/addrman.cpp:545-602` | The challenger holds the contested cell afterwards if and only if the holder is not proven and has failed in this sense; the loser is then in one new cell |
| `AddrManLaws.AttemptLaw` | `src/addrman.cpp:335-355` | Only a known address changes: the time of the try, and one more attempt if and only if failures count and none was counted since the last success of any address |
| `AddrManLaws.FailuresCounted` | `src/addrman.cpp:335-355` | Two attempts without a success in between count once, and with one in between twice |
| `AddrManLaws.ConnectedLaw` | `src/addrman.cpp:507-525` | The time of a known address moves to now, in 32 bits, if and only if it is over 1200 seconds old; nothing else changes |
| `AddrManLaws.ConnectedAgain` | `src/addrman.cpp:507-525` | A second call within 1200 seconds changes nothing |
| `AddrManLaws.SetServicesLaw` | `src/addrman.cpp:527-543` | The services of a known address are replaced; nothing else changes |
| `AddrManLaws.SampleLimitIff` | `src/addrman.cpp:482-490` | A number is within the limit of a sample if and only if it is within the percentage, if one is given, within the size, and within the maximum, if one is given |
| `PeersLaws.TriedReloaded` | `src/addrman.h:473-492` | Under any bucketing each tried cell that a file names is held, after the load, by the first record that names it |
| `PeersLaws.NewReloaded` | `src/addrman.h:518-550` | Under a changed bucketing a new record is kept if and only if no earlier one has the same new cell by its source, and then it is unchanged and holds exactly that cell |
| `PeersFile.NewsLoaded` | `src/addrman.h:463-471` | Reading the new entries of any file: one entry for each record in order, no cell taken, consistent tables and counters, and mapAddr leads to the last entry with each address |
| `PeersFile.TriedsLoaded` | `src/addrman.h:473-492` | Reading tried entries: exactly the records that find their cell free become entries; tables and counters stay consistent |
| `PeersFile.ReplaceAllTables` | `src/addrman.h:518-538` | Putting entries back, under the same or another bucketing, keeps tables and counters consistent and changes nothing else |
| `PeersFile.PruneTables` | `src/addrman.h:540-550` | Pruning keeps them so, removes exactly the new entries without a cell, and forgets exactly their addresses |
| `PeersFile.IndexedIff` | `src/addrman.h:540-550` | Afterwards mapAddr and mapInfo agree if and only if every two entries that shared an address were both pruned |
| `PeersFile.LoadInvIff` | `src/addrman.h:417-556` | For every file, bucketing and set of pending collisions: the loaded manager meets the full invariant if and only if records that become entries and share an address all get no cell, kept records have plausible times, and the pending ids are at most 10 and number records that become entries, each of which gets no cell or hashes to the tried cell of a record that gets it |
| `PeersFile.PendingIff` | `src/addrman.h:417-556` | That condition on the pending ids and the file is what the invariant asks of pending collisions after the load |
| `PeersFile.LoadCheckedIff` | `src/addrman.h:417-556` | The loaded manager passes Check_ if and only if kept records have plausible times and, of two records that become entries and share an address, the later gets no cell, and so does the earlier unless it is the very first |
| `PeersFile.ReadsBackIff` | `src/addrman.cpp:429-430` | After pruning every entry finds itself through mapAddr, a missing address being read as 0, if and only if entries that shared an address were pruned, but for entry 0 |
| `PeersFile.BothTables` | `src/addrman.h:463-555` | A file with one record in both tables loads, under every bucketing, into a manager that fails Check_ |
| `PeersFile.LossUnnoticed` | `src/addrman.h:463-555` | A file with one record twice, loaded under a changed bucketing: the entry is there, its address is lost, and Check_ passes |
| `PeersFile.PendingUnnoticed` | `src/addrman.h:558-580` | After an empty file Check_ passes whatever collisions are pending, and the invariant holds if and only if none is |
| `PeersFile.RepeatedAddress` | `src/addrman.h:463-550` | A file that lists one record twice leaves mapAddr and mapInfo in disagreement, under every bucketing |
| `PeersRoundTrip.SavedDistinct` | `src/addrman.h:353-415` | A saved file has no repeated address |
| `PeersRoundTrip.SavedConsistent` | `src/addrman.h:353-415` | A saved file meets the condition for a consistent load |
| `PeersRoundTrip.SavedCounts` | `src/addrman.h:380-391` | The file has exactly nNew and nTried records, so neither assertion fails |
| `PeersRoundTrip.CellHeld` | `src/addrman.h:494-524` | The cell an entry is put back into is one it held before |
| `PeersRoundTrip.SavedApart` | `src/addrman.h:474-491` | No two records of a saved file contend for a cell |
| `PeersRoundTrip.NothingLost` | `src/addrman.h:540-553` | For such a file pruning removes nothing |
| `PeersRoundTrip.TriedBack` | `src/addrman.h:473-492` | Each tried cell holds the same record as before |
| `PeersRoundTrip.NewBack` | `src/addrman.h:518-538` | Each new entry is back, in exactly one cell, which it held before |
| `PeersRoundTrip.RoundTrip` | `src/addrman.h:353-556` | Save and load under the same bucketing: the same tried table up to ids, each new entry in exactly one of its former cells, and every address still known; the full invariant if no collision was pending, and else if and only if the pending ids fit the file as in LoadInvIff |
| `CoinsRuns.RunAgrees` | `src/coins.cpp:42-231` | Any run of reads, additions, spendings, uncachings, flushes, new layers and dropped layers agrees with plain maps on every layer; FRESH implies that the parent has no unspent coin, not DIRTY implies agreement with the parent, and usage is the exact sum |
| `CoinsRuns.StepAgrees` | `src/coins.cpp:42-231` | One operation keeps the agreement |
| `CoinsRuns.LookupAfterRun` | `src/coins.cpp:59-66` | After any legal run over any database, GetCoin answers as the plain map |
| `CoinsRuns.HiddenOverwriteResurfaces` | `src/coins.cpp:78-99` | A coin added without possible_overwrite above an unseen unspent one: after spending it the older coin is visible again |
| `CoinsRuns.SpendReportsIff` | `src/coins.cpp:114-128` | The answer says whether there was a coin to spend if and only if the cache has no spent entry for the outpoint |
| `CoinsRuns.SpentTwice` | `src/coins.cpp:114-128` | A coin fetched from below and spent is reported as spent again by a second call, although no coin is visible |
| `CoinsRuns.FlushStep` | `src/coins.cpp:217-222` | A flush copies the topmost plain map to the layer below |
| `Coins.GetCoinReads` | `src/coins.cpp:59-66` | Reading returns the visible coin and changes no view on any layer |
| `Coins.FetchReads` | `src/coins.cpp:42-57` | Fetching brings the visible coin into the cache and changes no view on any layer |
| `Coins.AddSets` | `src/coins.cpp:68-100` | Exactly when adding throws, and otherwise the view changes at that outpoint alone |
| `Coins.AddKeepsIff` | `src/coins.cpp:82-99` | Adding keeps the cache consistent if and only if overwriting is allowed, the layer knows the outpoint, or no unspent coin lies below |
| `Coins.AddThrowsIff` | `src/coins.cpp:75-81` | A throwing addition leaves the entries alone, and the usage total intact if and only if the coin in the way has no script memory |
| `Coins.SpendRemoves` | `src/coins.cpp:114-128` | The coin is gone and nothing else; true is returned if and only if the layer had an entry or a coin was visible; the coin moved out is the visible one |
| `Coins.UncacheReads` | `src/coins.cpp:224-231` | Uncaching changes no view |
| `Coins.MergeOk` | `src/coins.cpp:161-213` | Merging one entry keeps the flag rules and shows the child the same coin |
| `Coins.NeverMisapplied` | `src/coins.cpp:179-185` | No entry of a consistent cache triggers the throw |
| `Coins.FlushHandsOver` | `src/coins.cpp:217-222` | The parent then has exactly the child view, the child view is unchanged, and all layers stay consistent |
| `Coins.TotalUsageSet` | `src/coins.cpp:189-203` | The sum of usages after setting one entry |
| `CoinsView.CoinsView.WriteDatabase` | `src/txdb.cpp:105-129` | Dirty entries are written or, if spent, erased; nothing else changes |
| `CoinsView.CoinsView.CacheOver` | `src/coins.cpp:36` | An empty cache over another view |
| `CoinsView.CoinsView.FetchCoin` | `src/coins.cpp:42-57` | Cache, usage and all layers below are as specified |
| `CoinsView.CoinsView.GetCoin` | `src/coins.cpp:59-66` | State and answer are as specified, through any number of layers |
| `CoinsView.CoinsView.AddCoin` | `src/coins.cpp:68-100` | State and throw are as specified |
| `CoinsView.CoinsView.SpendCoin` | `src/coins.cpp:114-128` | State, answer and moved coin are as specified |
| `CoinsView.CoinsView.Uncache` | `src/coins.cpp:224-231` | State as specified: only entries without flags go |
| `CoinsView.CoinsView.WriteEntry` | `src/coins.cpp:163-213` | One step of the batch: the merged entry, the usage, and exactly when it throws |
| `CoinsView.CoinsView.WriteCache` | `src/coins.cpp:161-215` | The loop in any order merges the whole batch; it throws if and only if some entry is misapplied |
| `CoinsView.CoinsView.BatchWrite` | `src/coins.cpp:161-215` | The same for a cache or the database |
| `CoinsView.CoinsView.Flush` | `src/coins.cpp:217-222` | Throws if and only if some entry is FRESH above an unspent coin, which never happens to a consistent cache; else parent and child are as specified |
| `CoinsLaws.LeavesNoTrace` | `src/coins.cpp:68-128` | A coin unknown to a cache, added to it without overwriting and spent there, leaves the cache as it was and is handed out |
| `CoinsLaws.LeavesNoTraceBelow` | `src/coins.cpp:68-228` | The same if the cache was flushed into another one in between: spending it there leaves no entry behind |
| `CoinsLaws.UncacheLaw` | `src/coins.cpp:224-231` | An entry is dropped if and only if it does not differ from what is below |
| `CoinsLaws.ReadAgain` | `src/coins.cpp:41-66` | A coin that was read is in the cache, and reading it again changes nothing |
| `CoinsLaws.NeverStored` | `src/coins.cpp:68-100` | A coin whose script begins with 0x6a or has more than 10000 bytes is never stored; any other is, unless the call throws |
| `CoinsLaws.UsageIs` | `src/memusage.h:50-63` | A script of up to 28 bytes uses no memory of its own; a longer one the smallest multiple of 16 that holds it and 16 more |
| `CoinsLaws.ClearedIs` | `src/coins.h:48-52` | A cleared coin is spent and uses no memory; two of its flags survive |
| `CheckQueue.RunInvariant` | `src/checkqueue.h:66-157` | In every interleaving of a master and any number of workers: nTodo is the number of queued checks plus those in unaccounted batches, nIdle and nTotal are exact, each check of the session is queued, taken, passed, failed or skipped, and failures are remembered |
| `CheckQueue.NextKeeps` | `src/checkqueue.h:66-157` | One step of any thread keeps this |
| `CheckQueue.AddKeeps` | `src/checkqueue.h:145-157` | Adding checks keeps it |
| `CheckQueue.CleanUpKeeps` | `src/checkqueue.h:76-86` | Accounting for a finished batch keeps it, with the wake-up of the master |
| `CheckQueue.SleepKeeps` | `src/checkqueue.h:88-99` | Going to sleep keeps it: the master sleeps only with work outstanding |
| `CheckQueue.TakeKeeps` | `src/checkqueue.h:101-116` | Taking a batch keeps it |
| `CheckQueue.LockKeeps` | `src/checkqueue.h:74-116` | A whole critical section keeps it |
| `CheckQueue.ExecuteKeeps` | `src/checkqueue.h:117-121` | Executing or skipping one check keeps it |
| `CheckQueue.BatchSize` | `src/checkqueue.h:101-106` | A batch has at least one check, at most what is queued, and at most the limit |
| `CheckQueue.BatchShare` | `src/checkqueue.h:101-106` | A batch of more than one check is at most the share of one thread, counting those inside, those idle and one more; a batch below the limit is at least the whole part of that share |
| `CheckQueue.SessionAnswer` | `src/checkqueue.h:88-96` | When Wait returns: no check is queued or taken, the flag is reset for the next session, and the answer is true if and only if every check added was run and passed; if false, one of them fails |
| `CheckQueue.WaitReturns` | `src/checkqueue.h:88-96` | The master leaves exactly when nothing is outstanding but its own batch |
| `CheckQueue.NoDeadlock` | `src/checkqueue.h:77-99` | A master that sleeps without a wake-up has a worker with unaccounted checks |
| `CheckQueue.StepsWork` | `src/checkqueue.h:66-123` | Each step of a thread lowers a measure, ends the session, or is a spurious wake-up that changes nothing |
| `CheckQueue.WaitBounded` | `src/checkqueue.h:66-123` | While the master waits and nothing is added, under every schedule, the steps that change anything and the measure left together never exceed the measure at the start |
| `CheckQueue.SomeoneMoves` | `src/checkqueue.h:66-123` | Until the master has its answer, some thread can take a step that changes something |
| `CheckQueue.WaitEnds` | `src/checkqueue.h:66-123` | So if threads keep taking such steps, Wait returns after at most as many as the measure says |
| `CheckQueueObject.Queue.constructor` | `src/checkqueue.h:129-130` | An idle queue |
| `CheckQueueObject.Queue.Add` | `src/checkqueue.h:144-157` | The shared fields follow the step of the transition system; one worker is notified for one check, all for more, none for none |
| `CheckQueueObject.Queue.CleanUp` | `src/checkqueue.h:76-86` | The shared fields follow the step; the master is told exactly when a worker accounted for the last check |
| `CheckQueueObject.Queue.PopBack` | `src/checkqueue.h:107-113` | The batch is the end of the queue in reverse |
| `CheckQueueObject.Queue.TakeBatch` | `src/checkqueue.h:101-116` | The shared fields and the batch follow the step |
| `CheckQueueObject.Queue.RunBatch` | `src/checkqueue.h:117-121` | The result is the conjunction; no check runs after one that failed, and none if a failure is known |
| `MerkleTree.WidthHalves` | `src/merkleblock.h:69-72` | The width of a level is half that of the level below, rounded up |
| `MerkleTree.Children` | `src/merkleblock.cpp:64-70` | A node inside the tree has its left child inside, and a right child unless it is the last |
| `MerkleTree.ExtractAscends` | `src/merkleblock.cpp:94-130` | Whatever the data, extracted positions ascend within the subtree |
| `MerkleTree.ExtractGenuine` | `src/merkleblock.cpp:94-130` | A subtree read without failure under its true hash yields only true pairs of txid and position, unless the pair hash collides on pairs that were actually hashed |
| `MerkleTree.ExtractSound` | `src/merkleblock.cpp:148-179` | If extraction from arbitrary bits and hashes returns the true root, every extracted txid stands at its extracted position and positions strictly ascend in range |
| `MerkleProof.MatchedAt` | `src/merkleblock.cpp:109-112` | The reference list of matches holds exactly the selected txids with their positions |
| `MerkleProof.ReadsBack` | `src/merkleblock.cpp:76-130` | Reading what was built for a subtree consumes exactly that and yields its hash and its matches |
| `MerkleProof.RoundTrip` | `src/merkleblock.cpp:132-179` | Build, with any filler in the last byte, then extract: the true root and exactly the selected txids in order; refused if and only if two sibling subtrees that are opened have the same hash |
| `MerkleProof.HashesPerLeaf` | `src/merkleblock.h:40-43` | A subtree stores at most one hash per transaction in it |
| `MerkleProof.HashesPerMatch` | `src/merkleblock.h:40-44` | A subtree stores at most one hash plus its height for each match |
| `MerkleProof.BuildSizes` | `src/merkleblock.h:40-51` | The number of hashes is at most the number of transactions and at most 1 + matches * height; bits are at most 2N-1 plus the height |
| `MerkleProof.BitsPerHash` | `src/merkleblock.h:51` | The number of bits exactly: 2N-1 plus one for each opened node with a single child |
| `MerkleProof.BitsAsDocumentedIff` | `src/merkleblock.h:51` | The documented bound holds if and only if no opened node has a single child |
| `MerkleProof.BitsExceedDocumented` | `src/merkleblock.h:51` | Three transactions with the last selected exceed the documented bound |
| `MerkleSize.SizeAsDocumentedIff` | `src/merkleblock.h:35-52` | The documented SIZE <= 10 + ceil(32.25 N) holds if and only if the two length prefixes and the bytes for opened nodes with a single child take at most six bytes; it does for fewer than 253 hashes |
| `MerkleSize.SizeExceedsDocumented` | `src/merkleblock.h:35-52` | It fails for every tree of 2^k + 1 transactions that are all selected, from 1025 transactions on |
| `MerkleSize.FirstExcess` | `src/merkleblock.h:35-52` | With 1025 the message has 33068 bytes where 33067 are documented |
| `MerkleProof.NoTwins` | `src/merkleblock.cpp:117-123` | Distinct txids never give two equal siblings, unless the pair hash collides within the tree |
| `MerkleProof.DistinctAccepted` | `src/merkleblock.cpp:117-123` | So every proof of distinct txids is accepted |
| `PartialMerkle.BitsToBytes` | `src/merkleblock.cpp:11-18` | The bytes hold the bits, least significant first, with zeros after them |
| `PartialMerkle.BytesToBits` | `src/merkleblock.cpp:20-27` | The bits are those of the bytes, eight for each |
| `PartialMerkle.PackedBits` | `src/merkleblock.cpp:11-27` | Packing and unpacking returns the bits and at most seven zeros |
| `PartialMerkle.Delivered` | `src/merkleblock.h:88-96` | Build, pack, unpack and extract: the root and exactly the selected txids, for distinct txids |
| `PartialMerkle.PartialMerkleTree.TreeHeight` | `src/merkleblock.cpp:137-140` | The least height at which one node is left |
| `PartialMerkle.PartialMerkleTree.FindMatch` | `src/merkleblock.cpp:77-80` | Whether a selected transaction lies below the node |
| `PartialMerkle.PartialMerkleTree.TraverseAndBuild` | `src/merkleblock.cpp:76-92` | Exactly the specified bits and hashes are appended |
| `PartialMerkle.PartialMerkleTree.TraverseAndExtract` | `src/merkleblock.cpp:94-130` | Hash, counters, matches and the failure flag are the specified ones, for arbitrary data |
| `PartialMerkle.PartialMerkleTree.ExtractChildren` | `src/merkleblock.cpp:114-129` | The same for a node that is opened |
| `PartialMerkle.PartialMerkleTree.constructor` | `src/merkleblock.cpp:132-144` | The partial tree of the specification |
| `PartialMerkle.PartialMerkleTree.Empty` | `src/merkleblock.cpp:146` | The empty object is marked bad |
| `PartialMerkle.PartialMerkleTree.Serialize` | `src/merkleblock.h:88-96` | Count, hashes and packed bits |
| `PartialMerkle.PartialMerkleTree.Unserialize` | `src/merkleblock.h:88-96` | Count, hashes and unpacked bits; the failure flag is cleared |
| `PartialMerkle.PartialMerkleTree.ExtractMatches` | `src/merkleblock.cpp:148-179` | Root, matches and flag as specified; matches are replaced while positions are only appended, so the lists have the same length if and only if the caller passed no positions |
| `PartialMerkle.ExtractTwice` | `src/merkleblock.cpp:148-179` | Extracting twice into the same lists leaves one transaction and two positions |
| `MerkleLaws.RefusedSizes` | `src/merkleblock.cpp:148-162` | Refused: no transactions, more than 66666, more hashes than transactions, fewer bits than hashes |
| `MerkleLaws.LeftOver` | `src/merkleblock.cpp:173-178` | Appending hashes, or eight or more bits, to an accepted tree makes it refused |
| `MerkleLaws.CutShort` | `src/merkleblock.cpp:166-178` | An accepted tree without its last hash is refused |
| `MerkleLaws.RootIs` | `src/consensus/merkle.cpp:45-62` | The recursive hash of the whole tree is the root computed level by level, the last of an odd level being paired with itself |
| `Mempool.AncestorCount` | `src/miner.h:84-94` | A transaction has strictly more ancestors than each of its ancestors |
| `Mempool.WeightsBounded` | `src/miner.cpp:272-280` | The weight of a set is at most four times its size |
| `BlockSelection.NothingChosen` | `src/miner.cpp:403` | At the start the cached totals are those of the mempool |
| `BlockSelection.UpdateTracks` | `src/miner.cpp:324-354` | After an update the cached size and sigops of every unselected transaction cover its unselected ancestors, and are exact unless it failed before; so are the fees if nothing is prioritised |
| `BlockSelection.FailTracks` | `src/miner.cpp:481-490` | Dropping a failed entry keeps the cached totals safe |
| `BlockSelection.PackageOrder` | `src/miner.cpp:372-381` | In a sorted package every transaction comes after its ancestors that are not in the block, and none repeats |
| `BlockSelection.AddKeeps` | `src/miner.cpp:302-322` | Adding a transaction whose ancestors are in the block keeps the template closed, ordered, without repetition, with exact totals and lists |
| `BlockSelection.PackageKeeps` | `src/miner.cpp:559-567` | Adding a whole sorted package keeps this after every single transaction |
| `BlockSelection.PackageFits` | `src/miner.cpp:272-280` | A package that passed the cached test leaves true weight and sigops below the limits |
| `MinerPackages.SortForBlock` | `src/miner.cpp:372-381` | A permutation of the package, sorted by ancestor count and then by hash |
| `MinerPackages.TracksAmple` | `src/miner.cpp:341-349` | No cached total becomes negative in an update |
| `MinerPackages.SoundAfter` | `src/miner.cpp:503-572` | Adding an accepted package keeps the template sound: closure, order, totals, payloads, finality, consensus checks and limits |
| `MinerPackages.SizeRefused` | `src/miner.cpp:481-501` | A transaction turned down by the cached test and not failed before is truly too big for the block |
| `MinerPackages.ContentsRefused` | `src/miner.cpp:511-550` | One turned down for its contents has a package that is not final, carries a premature witness or fails the consensus checks |
| `MinerPackages.NeverPassedOver` | `src/miner.cpp:480-550` | If everything fits into one block, passes every test and pays for itself, no package is ever refused |
| `MinerPackages.NeverStops` | `src/miner.cpp:470-502` | Then there is no reason to stop either |
| `MinerPackages.OneTransaction` | `src/miner.cpp:393-574` | If the mempool is one transaction and the block has it, the block is exactly that transaction |
| `Miner.BlockAssembler.constructor` | `src/miner.cpp:60-65` | The weight limit, or 4000 or the maximum less 4000 where it lies outside |
| `Miner.BlockAssembler.ResetBlock` | `src/miner.cpp:87-99` | An empty template with the reserve for the coinbase |
| `Miner.BlockAssembler.TestPackageTransactions` | `src/miner.cpp:286-300` | Exactly when all are final and no witness is premature |
| `Miner.BlockAssembler.OnlyUnconfirmed` | `src/miner.cpp:219-233` | Exactly those not in the block |
| `Miner.BlockAssembler.TestTransaction` | `src/miner.cpp:235-270` | Accepted if and only if there is a payload and both checks pass on top of the earlier payloads; then both lists get the payload |
| `Miner.BlockAssembler.TestPocketnet` | `src/miner.cpp:526-550` | Accepted if and only if each transaction passes on top of the template and the earlier ones; the payloads are in order |
| `Miner.BlockAssembler.AddToBlock` | `src/miner.cpp:302-322` | The template is the specified one |
| `Miner.BlockAssembler.UpdateDescendants` | `src/miner.cpp:330-351` | One added transaction is taken off the totals of all its descendants |
| `Miner.BlockAssembler.UpdatePackagesForAdded` | `src/miner.cpp:324-354` | All added transactions are taken off, each once for each descendant |
| `Miner.BlockAssembler.AddPackage` | `src/miner.cpp:559-567` | The package is in the template and gone from the modified set |
| `Miner.BlockAssembler.TestPackageContents` | `src/miner.cpp:503-550` | The package is exactly the unselected ancestors with the transaction; accepted or not fit |
| `Miner.BlockAssembler.IncludePackage` | `src/miner.cpp:552-572` | The template stays sound, the package is appended in order, and the cached totals are right again |
| `Miner.BlockAssembler.StartTracking` | `src/miner.cpp:401-403` | Cached totals at the start |
| `Miner.BlockAssembler.Consider` | `src/miner.cpp:456-572` | One package: included and everything kept sound, or refused for a true reason and nothing changed |
| `Miner.BlockAssembler.Process` | `src/miner.cpp:424-572` | The same with the bookkeeping of what was passed over |
| `Miner.BlockAssembler.SelectPackages` | `src/miner.cpp:405-573` | The loop. It runs to its end unless a candidate, with exact totals unless it was refused before, pays less than the minimum, or over 1000 candidates in a row did not fit and fewer than 4000 units of weight are left; it terminates by unselected entries, then remaining candidates |
| `Miner.BlockAssembler.AddPackageTxs` | `src/miner.cpp:393-574` | The template is sound at every exit. If the loop ran to its end every transaction is in the block or its package was refused at some point; it stops early only for a stated reason; and if everything fits, passes and pays, all of the mempool order is in the block |
| `Miner.BlockAssembler.ChooseNext` | `src/miner.cpp:424-454` | The candidate is a modified entry or the next of the mempool order |
| `Miner.BlockAssembler.CreateNewBlock` | `src/miner.cpp:104-119` | The same three results for a whole template from scratch |
| `Limbs.CompareAt` | `src/arith_uint256.cpp:108-118` | The highest differing limb decides the order |
| `LimbShifts.LeftValue` | `src/arith_uint256.cpp:20-35` | Limbs shifted with the bits carried over are the product with a power of two, cut to the width |
| `LimbShifts.RightValue` | `src/arith_uint256.cpp:37-52` | Limbs shifted right are the quotient by a power of two |
| `LimbDivision.TopLimb` | `src/arith_uint256.cpp:170-183` | The highest bit of the highest limb gives the bit length |
| `LimbDivision.DividingStart` | `src/arith_uint256.cpp:88-95` | The invariant of long division holds at the start and the aligned divisor fits |
| `LimbDivision.DividingStep` | `src/arith_uint256.cpp:96-103` | One step of long division keeps it |
| `LimbDivision.DividingEnd` | `src/arith_uint256.cpp:104-105` | At the end the quotient is exact and the rest is the remainder |
| `ArithUint.BaseUint.constructor` | `src/arith_uint256.h:31-37` | Zero |
| `ArithUint.BaseUint.Copy` | `src/arith_uint256.h:39-45` | The same limbs in a new array |
| `ArithUint.BaseUint.Assign` | `src/arith_uint256.h:47-52` | The same limbs |
| `ArithUint.BaseUint.AssignU64` | `src/arith_uint256.h:85-92` | The value |
| `ArithUint.BaseUint.Complement` | `src/arith_uint256.h:66-72` | 2^n - 1 minus the value |
| `ArithUint.BaseUint.Negate` | `src/arith_uint256.h:74-81` | Minus the value modulo 2^n |
| `ArithUint.BaseUint.AddAssign` | `src/arith_uint256.h:132-142` | The sum modulo 2^n, also when both operands are the same object |
| `ArithUint.BaseUint.SubAssign` | `src/arith_uint256.h:144-148` | The difference modulo 2^n |
| `ArithUint.BaseUint.AddAssignU64` | `src/arith_uint256.h:150-156` | The sum modulo 2^n |
| `ArithUint.BaseUint.SubAssignU64` | `src/arith_uint256.h:158-164` | The difference modulo 2^n |
| `ArithUint.BaseUint.Increment` | `src/arith_uint256.h:170-177` | One more modulo 2^n |
| `ArithUint.BaseUint.Decrement` | `src/arith_uint256.h:187-194` | One less modulo 2^n |
| `ArithUint.BaseUint.MulAssignU32` | `src/arith_uint256.cpp:54-64` | The product modulo 2^n |
| `ArithUint.BaseUint.AddRow` | `src/arith_uint256.cpp:71-76` | One row of the product is added with its carry |
| `ArithUint.BaseUint.MulAssign` | `src/arith_uint256.cpp:66-80` | The product modulo 2^n, also when both operands are the same object |
| `ArithUint.BaseUint.ShiftLeft` | `src/arith_uint256.cpp:20-35` | The product with a power of two modulo 2^n, for any shift |
| `ArithUint.BaseUint.ShiftRight` | `src/arith_uint256.cpp:37-52` | The quotient by a power of two, for any shift |
| `ArithUint.BaseUint.CompareTo` | `src/arith_uint256.cpp:108-118` | The order of the values |
| `ArithUint.BaseUint.Bits` | `src/arith_uint256.cpp:170-183` | The bit length of the value |
| `ArithUint.BaseUint.DivAssign` | `src/arith_uint256.cpp:82-106` | Fails exactly for a zero divisor; else the floor of the quotient |
| `ArithUint.BaseUint.Reduce` | `src/arith_uint256.cpp:97-98` | The difference, without wrap-around |
| `ArithUint.BaseUint.SetQuotientBit` | `src/arith_uint256.cpp:99` | The bit adds its power of two |
| `Arith256.EqualTo` | `src/arith_uint256.cpp:120-132` | Whether the value is the 64-bit number |
| `Arith256.GetLow64` | `src/arith_uint256.h:242-246` | The value modulo 2^64 |
| `Arith256.SetCompact` | `src/arith_uint256.cpp:203-221` | The value is mantissa times 256^(exponent-3) modulo 2^256; sign and overflow flags as specified |
| `Arith256.GetCompact` | `src/arith_uint256.cpp:223-244` | The encoding of the specification with the sign bit set only for a nonzero mantissa; both assertions hold |
| `Arith256.CompactUnique` | `src/arith_uint256.cpp:223-244` | There is one such encoding of each number and sign |
| `Arith256.TopThree` | `src/arith_uint256.cpp:225-232` | The three most significant bytes |
| `Arith256.GetBlockProof` | `src/chain.cpp:122-135` | The floor of 2^256 / (target + 1) for every valid target, else zero; no division by zero |
| `Compact.OverflowIff` | `src/arith_uint256.cpp:216-219` | The overflow test holds if and only if mantissa times 256^(exponent-3) is at least 2^256 |
| `Compact.EncodedFields` | `src/arith_uint256.cpp:223-244` | Size and mantissa of an encoding; it has 32 bits and no sign |
| `Compact.DecodeEncoded` | `src/arith_uint256.cpp:203-244` | Decoding an encoded value neither overflows nor exceeds it, and loses only the bytes below the mantissa |
| `Compact.EncodedCanonical` | `src/arith_uint256.cpp:223-244` | Encodings are canonical |
| `Compact.CanonicalIff` | `src/arith_uint256.cpp:203-244` | A word without overflow is reproduced by decoding and encoding if and only if it is canonical |
| `Compact.EncodeIdempotent` | `src/arith_uint256.cpp:203-244` | Encoding, decoding and encoding again changes nothing |
| `Compact.Words` | `src/test/arith_uint256_tests.cpp:406-530` | What six words of the tests stand for |
| `Compact.Signs` | `src/test/arith_uint256_tests.cpp:406-530` | Three words of the tests with the sign bit set, of which one is zero and so not negative, and one that overflows |
| `Compact.ProofByComplement` | `src/chain.cpp:130-134` | The complement formula is the quotient that cannot be represented |
| `Compact.TargetBelowTop` | `src/chain.cpp:128-134` | A target without overflow leaves room for target + 1 |
| `Chain.InvertsLowestOne` | `src/chain.cpp:70-71` | The bit trick clears the lowest one |
| `Chain.SkipHeight` | `src/chain.cpp:71-82` | The skip height in terms of the lowest one bit: an even height loses it; an odd one is one more than an even height that loses its two lowest |
| `Chain.GetSkipHeight` | `src/chain.cpp:73-82` | A skip goes strictly down |
| `Chain.BlockIndex.GetAncestor` | `src/chain.cpp:84-109` | For every height the block that the walk over parents reaches, else null; the assertion on the parent holds and the search terminates |
| `Chain.BlockIndex.BuildSkip` | `src/chain.cpp:116-120` | The skip pointer is the ancestor at the skip height |
| `Chain.BlockTree.Insert` | `src/validation.cpp:3940-3953` | A block inserted anywhere in the tree keeps all skip pointers right |
| `Chain.Chain.ContainsIff` | `src/chain.h:485-488` | The look-up by height is membership |
| `Chain.Chain.SetTip` | `src/chain.cpp:11-21` | The vector is exactly the path to the tip, although the loop stops at the first common block |
| `Chain.Chain.Crop` | `src/chain.h:515-519` | The block and everything above it are gone, if it was in the chain |
| `Chain.Chain.FindFork` | `src/chain.cpp:51-60` | The highest block of the path that is in the chain, or null if there is none |
| `Chain.Chain.StepBack` | `src/chain.cpp:35-43` | The ancestor, by index or by skip list |
| `Chain.Chain.GetLocator` | `src/chain.cpp:23-49` | The ancestors at the prescribed distances, ending at genesis |
| `Chain.LocatorShape` | `src/chain.cpp:23-49` | A locator starts at the block, falls strictly, ends at genesis, and has at most 12 + log2(height) entries |
| `Chain.LastCommonAncestor` | `src/chain.cpp:154-171` | The highest common ancestor of two blocks, or null; the final assertion holds |
| `Cuckoo.Locs` | `src/cuckoocache.h:242-252` | Eight slots inside the table |
| `Cuckoo.FoundIff` | `src/cuckoocache.h:469-479` | Looking at eight slots finds an element if and only if it is in the table |
| `Cuckoo.FirstVictim` | `src/cuckoocache.h:416-430` | The first element displaced is the one in the second hash slot; it is in the first slot if and only if the two coincide |
| `Cuckoo.FirstSlotSpared` | `src/cuckoocache.h:416-430` | A hashing under which the first slot is not the one displaced |
| `Cuckoo.JustPlacedSparedIff` | `src/cuckoocache.h:416-430` | With k the first index of the slot used last, the element just put there is spared if and only if the next of the eight slots is another one |
| `Cuckoo.JustPlacedMoved` | `src/cuckoocache.h:416-430` | Under a hashing with one slot for everything it is displaced again at once |
| `Cuckoo.KickHomed` | `src/cuckoocache.h:406-439` | Displacing leaves every element at one of its eight slots, and none twice |
| `Cuckoo.KickConserves` | `src/cuckoocache.h:406-439` | The live elements afterwards and the dropped one are those before and the one brought in |
| `Cuckoo.PlaceConserves` | `src/cuckoocache.h:395-440` | The live elements after an insertion, with the dropped one if any, are exactly those before and the new one; nothing is dropped for a known element |
| `CuckooLaws.InsertFree` | `src/cuckoocache.h:395-415` | An element that is there, or has a free slot among its eight, is found after its insertion and nothing is dropped; in the second case it is in a slot that was free and every other slot is as before |
| `CuckooLaws.DroppedOnlyIf` | `src/cuckoocache.h:392-440` | An element is dropped only if the new one was not there and all of its eight slots were taken, or no step is allowed |
| `CuckooLaws.OneStep` | `src/cuckoocache.h:406-440` | With one step allowed and all eight taken, the new element replaces exactly the one in its second slot, which is dropped |
| `CuckooLaws.FoundOrDropped` | `src/cuckoocache.h:392-440` | After any insertion the new element is found or is itself the one dropped |
| `CuckooLaws.LookupLaw` | `src/cuckoocache.h:469-479` | A lookup changes nothing, unless it erases what it finds: then exactly the slot that holds it is freed |
| `CuckooLaws.StillFound` | `src/cuckoocache.h:469-479` | What was looked up and erased is still found |
| `CuckooLaws.EpochWait` | `src/cuckoocache.h:288-320` | How many insertions pass until the next scan: one less each time; a whole epoch after aging; else the largest of 1, a sixteenth of an epoch, and the room left in the epoch |
| `CuckooLaws.SlotIff` | `src/cuckoocache.h:242-252` | Slot k is used exactly by the hashes in the k-th of size equal shares of the 32-bit numbers |
| `Cuckoo.InsertKeeps` | `src/cuckoocache.h:392-440` | Insertion keeps the invariant |
| `Cuckoo.AgedKeeps` | `src/cuckoocache.h:305-309` | Aging keeps exactly the elements of the current epoch, as old ones |
| `Cuckoo.EpochCheckLive` | `src/cuckoocache.h:288-320` | Without aging no live element changes; aging happens exactly when the counter is zero and the epoch is full |
| `Cuckoo.EpochCheckRoom` | `src/cuckoocache.h:288-320` | After the check there is room for one more element of this epoch |
| `Cuckoo.ContainsKeeps` | `src/cuckoocache.h:469-479` | The answer is membership; at most one slot becomes free |
| `Cuckoo.NextKeeps` | `src/cuckoocache.h:392-479` | One operation keeps the invariant |
| `Cuckoo.EmptyInv` | `src/cuckoocache.h:339-352` | The invariant holds after setup |
| `Cuckoo.RunInvariant` | `src/cuckoocache.h:392-479` | In every run each element stands once, at one of its slots, and live elements of the current epoch plus the counter are at most the epoch size plus max(1, a sixteenth of it) |
| `Cuckoo.NoAgingBefore` | `src/cuckoocache.h:290-293` | No aging before as many insertions as the counter says |
| `CuckooCache.BitPackedFlags.constructor` | `src/cuckoocache.h:60-67` | All flags set |
| `CuckooCache.BitPackedFlags.Setup` | `src/cuckoocache.h:78-82` | All flags set |
| `CuckooCache.BitPackedFlags.Set` | `src/cuckoocache.h:90-93` | One flag set and no other changed |
| `CuckooCache.BitPackedFlags.Unset` | `src/cuckoocache.h:101-104` | One flag cleared and no other changed |
| `CuckooCache.BitPackedFlags.IsSet` | `src/cuckoocache.h:111-114` | The flag |
| `CuckooCache.CuckooCache.Setup` | `src/cuckoocache.h:339-352` | An empty table of the given size, at least 2, and an epoch of 45 percent computed in 32 bits |
| `CuckooCache.CuckooCache.AllowErase` | `src/cuckoocache.h:265-268` | One slot free |
| `CuckooCache.CuckooCache.PleaseKeep` | `src/cuckoocache.h:274-277` | One slot kept |
| `CuckooCache.CuckooCache.CountUnused` | `src/cuckoocache.h:294-299` | The number of live elements of this epoch |
| `CuckooCache.CuckooCache.AgeEntries` | `src/cuckoocache.h:305-309` | The aged cache |
| `CuckooCache.CuckooCache.EpochCheck` | `src/cuckoocache.h:288-320` | The checked cache of the specification |
| `CuckooCache.CuckooCache.KickOut` | `src/cuckoocache.h:406-439` | The specified displacements and the dropped element |
| `CuckooCache.CuckooCache.Insert` | `src/cuckoocache.h:392-440` | Cache and dropped element of Insert, for which InsertFree, DroppedOnlyIf, OneStep and FoundOrDropped in CuckooLaws say where the new element is |
| `CuckooCache.CuckooCache.Contains` | `src/cuckoocache.h:469-479` | Answer and cache as in CuckooLaws.LookupLaw |
| `Powers.FastModIff` | `src/bloom.cpp:209-211` | A result k stands for the k-th of n equal shares of the 32-bit numbers |
| `Powers.FastModBelow` | `src/bloom.cpp:209-211` | The reduced hash is inside the table |
| `Bloom.WipedAt` | `src/bloom.cpp:221-229` | The word-parallel wipe clears exactly the cells of the reused generation |
| `Bloom.ResetReflects` | `src/bloom.cpp:270-276` | After a reset the filter reflects the empty list |
| `Bloom.RolledReflects` | `src/bloom.cpp:215-230` | After rolling over each cell shows the generation that last touched it, if that is one of the last two |
| `Bloom.InsertReflects` | `src/bloom.cpp:213-242` | After an insertion the filter reflects the longer list, through shared cells |
| `Bloom.RunReflects` | `src/bloom.cpp:213-242` | After any run of insertions each cell shows the generation of the last insertion that touched it, if recent |
| `Bloom.ContainsIff` | `src/bloom.cpp:250-262` | A key is reported if and only if every cell it hashes to was touched recently |
| `Bloom.Retention` | `src/bloom.h:93-94` | Each of the last 2 * nEntriesPerGeneration + nEntriesThisGeneration keys, and so each of the last nElements, is reported |
| `RollingBloom.RollingBloomFilter.constructor` | `src/bloom.cpp:173-198` | An empty filter of the given geometry, computed in 32 bits; it can be used if and only if it is for at least one and fewer than 2^32-1 elements and its number of bits is not zero and does not wrap |
| `RollingBloom.RollingBloomFilter.Reset` | `src/bloom.cpp:270-276` | The empty filter under a new tweak, for every geometry |
| `RollingBloom.RollingBloomFilter.Wipe` | `src/bloom.cpp:221-229` | The wiped words |
| `RollingBloom.RollingBloomFilter.TagCell` | `src/bloom.cpp:235-240` | One cell shows the generation |
| `RollingBloom.RollingBloomFilter.Roll` | `src/bloom.cpp:215-230` | The rolled filter |
| `RollingBloom.RollingBloomFilter.TagKey` | `src/bloom.cpp:233-241` | All cells of a key show the generation |
| `RollingBloom.RollingBloomFilter.Insert` | `src/bloom.cpp:213-242` | The filter of the specification, which reflects all keys so far |
| `RollingBloom.RollingBloomFilter.IsMarked` | `src/bloom.cpp:254-259` | Whether the cell shows a generation |
| `RollingBloom.RollingBloomFilter.Contains` | `src/bloom.cpp:250-262` | The answer of the specification |
| `Bech32Poly.StepLinear` | `src/bech32.cpp:85-96` | One step is linear over exclusive or |
| `Bech32Poly.PolyAffine` | `src/bech32.cpp:42-99` | PolyMod is affine over exclusive or |
| `Bech32Poly.PolyInjective` | `src/bech32.cpp:42-99` | Different registers stay different over any input |
| `Bech32Poly.ChecksumIff` | `src/bech32.cpp:135-147` | Six symbols make the checksum right if and only if they are the created ones |
| `Bech32Poly.BurstDetected` | `src/bech32.cpp:69-98` | Two lists that differ only within six consecutive symbols never have the same checksum, at any length |
| `Bech32Poly.SingleErrorDetected` | `src/bech32.cpp:69-98` | So one wrong symbol is always noticed |
| `Field1024.NoReturn` | `src/bech32.cpp:48-54` | In the field with 1024 elements, multiplying by a^d moves every element but 0, for d from 1 to 1022: the length of the window |
| `Bech32Distance.Roots` | `src/bech32.cpp:48-54` | The generator g(x) and its four tabulated multiples vanish at three consecutive powers of a |
| `Bech32Distance.EvalStep` | `src/bech32.cpp:76-98` | A step of PolyMod multiplies the polynomial by x and adds the symbol, at each of these powers |
| `Bech32Distance.ThreeErrorsDetected` | `src/bech32.cpp:48-54` | Up to three wrong symbols within a window of 1023 never go unnoticed, at any length, as documented |
| `Bech32Distance.ThreeWrong` | `src/bech32.cpp:48-54` | Lists of up to 1023 symbols that differ in one, two or three places have different checksums |
| `Bech32Distance.ThreeWrongCharacters` | `src/bech32.cpp:167-199` | Two strings that decode with the same encoding and prefix, have the same length and differ in at most three characters are the same up to case |
| `Bech32.RevOfChar` | `src/bech32.cpp:18-31` | The decoding table inverts the character set |
| `Bech32.CharOfRev` | `src/bech32.cpp:18-31` | Every character the table accepts is one of the set, in either case, and not the separator |
| `Bech32Texts.Alphabet` | `src/bech32.cpp:18` | The character of each of the 32 symbols |
| `Bech32Texts.CaseFree` | `src/bech32.cpp:21-30` | Both cases of a letter stand for the same symbol |
| `Bech32Texts.StepIs` | `src/bech32.cpp:85-96` | A step on 30-bit words with the five tabulated masks is the step on polynomials |
| `Bech32Texts.AbcdefText` | `src/test/bech32_tests.cpp:14-22` | The text of BIP 173 with all symbols in order: its encoding and decoding |
| `Bech32Texts.EmptyText` | `src/test/bech32_tests.cpp:36-44` | The text of BIP 350 without data: its encoding and decoding |
| `Bech32.VerifyIff` | `src/bech32.cpp:122-147` | A checksum verifies for an encoding if and only if it is the one created for it |
| `Bech32.RoundTripIff` | `src/bech32.cpp:151-198` | Encoding then decoding returns encoding, prefix and values if and only if they are within the length and character limits |
| `Bech32.EncodeDecoded` | `src/bech32.cpp:151-198` | Whatever decodes is, in lower case, the encoding of the result |
| `Bech32Codec.ComputePolyMod` | `src/bech32.cpp:42-99` | The polynomial of the specification |
| `Bech32Codec.Expand` | `src/bech32.cpp:107-120` | High bits, zero, low bits of the prefix |
| `Bech32Codec.MakeChecksum` | `src/bech32.cpp:135-147` | The checksum of the specification |
| `Bech32Codec.EncodeString` | `src/bech32.cpp:151-165` | The text of Encode for every input: prefix, separator, then data and checksum in the alphabet of Bech32Texts.Alphabet; Bech32Texts.AbcdefText and EmptyText are two of its results |
| `Bech32Codec.CheckCharacters` | `src/bech32.cpp:169-176` | Exactly the texts of printable characters in one case |
| `Bech32Codec.FindLastOne` | `src/bech32.cpp:177` | The last separator |
| `Bech32Codec.ReadValues` | `src/bech32.cpp:181-190` | Fails exactly for a character outside the set; else the values |
| `Bech32Codec.LowerString` | `src/bech32.cpp:191-194` | Lower case |
| `Bech32Codec.DecodeString` | `src/bech32.cpp:167-198` | The result of Decode for every text, which inverts Encode where Bech32.RoundTripIff and EncodeDecoded say; Bech32Texts.AbcdefText and EmptyText are two of its results |
| `Radix.BytesFit` | `src/base58.cpp:96-98` | The buffer of n*138/100+1 digits suffices for every n bytes |
| `Radix.CharactersFit` | `src/base58.cpp:51-53` | The buffer of n*733/1000+1 bytes suffices for every n characters |
| `Base58.RoundTripIff` | `src/base58.cpp:38-125` | Decoding an encoding returns the bytes if and only if they are within the limit, or none |
| `Base58.EncodeDecoded` | `src/base58.cpp:38-125` | Whatever decodes is, without surrounding spaces, the encoding of the result |
| `Base58.AcceptedWithin` | `src/base58.cpp:38-85` | Whatever decodes, from any text, is within the limit or empty |
| `Base58.EmptyAccepted` | `src/base58.cpp:38-85` | The empty text decodes under every limit, also a negative one |
| `Base58.Alphabet` | `src/base58.cpp:18` | The character of each of the 58 digits |
| `Base58.Spaces` | `src/util/strencodings.h:95-97` | Spaces are the blank and the control characters 9 to 13 |
| `Base58.Texts` | `src/test/data/base58_encode_decode.json:3-4` | The texts of the bytes 61 and 626262 |
| `Base58.CheckRoundTripIff` | `src/base58.cpp:135-159` | The same with the check bytes, with the exact limit |
| `Base58.CheckedText` | `src/base58.cpp:135-159` | Whatever passes the check is, without surrounding spaces, the checked encoding of the result |
| `Base58Codec.MulAdd` | `src/base58.cpp:103-111` | One pass multiplies the number in the buffer and adds a digit; no carry is left, and length is exact |
| `Base58Codec.CountZeroes` | `src/base58.cpp:89-95` | The leading zeros |
| `Base58Codec.ToBuffer58` | `src/base58.cpp:96-113` | The buffer holds the number in base 58; the carry assertion holds |
| `Base58Codec.EncodeBase58` | `src/base58.cpp:87-125` | The text of the specification for every input |
| `Base58Codec.NoLeadingZero` | `src/base58.cpp:114-117` | The loop over leading zeros finds none |
| `Base58Codec.ToBuffer256` | `src/base58.cpp:51-71` | The buffer holds the number in base 256; the carry assertion holds; fails exactly for a bad character or too long a result |
| `Base58Codec.SkipSpaces` | `src/base58.cpp:40-42` | The first character that is no space |
| `Base58Codec.FindWordEnd` | `src/base58.cpp:56` | The end of the word |
| `Base58Codec.CountOnes` | `src/base58.cpp:43-50` | The leading ones, or failure beyond the limit |
| `Base58Codec.DecodeBase58` | `src/base58.cpp:38-85` | The result of the specification for every text and limit |
| `CompactBlocks.PositionsAscend` | `src/blockencodings.cpp:60-75` | Prefilled positions ascend strictly |
| `CompactBlocks.SlotUnique` | `src/blockencodings.cpp:83-87` | There is one i-th position that is not prefilled |
| `CompactBlocks.FilledAtEnd` | `src/blockencodings.cpp:106-164` | A filled slot holds a known transaction with its short id; a slot is empty only if no known transaction has its id, or more than one |
| `CompactBlocks.CompactSlots` | `src/blockencodings.cpp:19-29` | The compact form of a block has the short id of each transaction at its own position |
| `CompactBlocks.FilledAgrees` | `src/blockencodings.cpp:106-164` | Without a clash of short ids every filled slot holds the right transaction |
| `CompactBlocks.Rebuilds` | `src/blockencodings.cpp:184-192` | Filling the gaps with exactly the missing transactions in order gives the block |
| `CompactBlocks.BlockRebuilt` | `src/blockencodings.cpp:19-199` | Compact form, filling from the mempool and extra transactions, and the missing ones: the block |
| `CompactFill.ScanSound` | `src/blockencodings.cpp:106-164` | Either scan, with its early exit, keeps every slot accounted for: filled from a matching transaction, or open because nothing matched or more than one thing did |
| `CompactFill.ScanStops` | `src/blockencodings.cpp:129-133` | Stopping when every short id has its transaction is the same as scanning on |
| `CompactFill.BothFilled` | `src/blockencodings.cpp:106-164` | After both scans each slot is accounted for and the count is the number of filled ones |
| `CompactFill.ExtraCount` | `src/blockencodings.cpp:135-164` | extra_count is the number of slots that extra transactions fill less the number that they empty, so it is negative if and only if they empty more; each slot they empty held a pool transaction with another witness hash |
| `CompactFill.CountBelowZero` | `src/blockencodings.cpp:135-164` | With one pool and one extra transaction in conflict over a slot it goes to -1 |
| `CompactBlock.IdCount` | `src/blockencodings.cpp:101-104` | The count of distinct ids reveals a collision |
| `CompactBlock.PartiallyDownloadedBlock.constructor` | `src/blockencodings.h:127-135` | Nothing downloaded |
| `CompactBlock.PartiallyDownloadedBlock.PlacePrefilled` | `src/blockencodings.cpp:60-75` | Accepted if and only if every position is below what the message accounts for; no index is out of range; the transactions stand at their positions |
| `CompactBlock.PartiallyDownloadedBlock.AssignSlots` | `src/blockencodings.cpp:82-104` | The i-th short id gets the i-th free position; fails exactly on a repeated id or a crowded bucket; no index is out of range |
| `CompactBlock.PartiallyDownloadedBlock.ScanPool` | `src/blockencodings.cpp:106-133` | The slots, the marks and mempool_count after the mempool, exactly, with the early exit |
| `CompactBlock.PartiallyDownloadedBlock.ScanExtra` | `src/blockencodings.cpp:135-164` | The same after the extra transactions; extra_count changes by as much as mempool_count |
| `CompactBlock.PartiallyDownloadedBlock.InitData` | `src/blockencodings.cpp:49-169` | The status for every received message; the slots exactly, what they hold and why others are open; mempool_count is the number of short ids filled and never negative; extra_count is what the extra transactions added to it |
| `CompactBlock.PartiallyDownloadedBlock.FillBlock` | `src/blockencodings.cpp:177-220` | Too few or too many transactions are refused; else the block is rebuilt and the status follows the block check |

## Left out

- Hash functions, random draws, clocks, the network group and asmap of an address: parameters everywhere; the theorems hold for all of them. The one assumption on hashes is that the Merkle pair hash does not collide on the finitely many pairs that were actually hashed, stated where it is used.
- Integer widths: counters and sizes are unbounded where the program could not overflow them in practice; where truncation matters (entry times, epoch and filter sizes, limbs, compact words) it is modelled.
- `CAddrMan::Select_` and `GetChance`: floating point and probabilities.
- AddrMan.AddrManager.Unserialize: takes the records of a file rather than its bytes. Format versions are one flag that says whether the buckets may be used; the limits on the counts, which throw, are left out.
- AddrMan.AddrManager.Serialize: yields records and bucket lists, not bytes; the version bytes, the bucketing key and the checksum of the asmap are left out.
- AddrMan.AddrManager.Check: the test that the bucketing key is not null is left out, as the key is not modelled; which of the error codes is returned is not stated.
- AddrMan.AddrManager.Good: positive clock readings only; for others the function it computes is described by AddrManRuns.GoodIff.
- AddrMan.AddrManager.Clear: the new bucketing key that is drawn is not modelled; the bucketing of an object is fixed.
- AddrMan.AddrManager.SelectTriedCollision: the pending id that the random draw picks is a parameter; that each is picked equally often is not stated.
- AddrMan.AddrManager.GetAddr: returns ids instead of copies of addresses, and does not state that each sample is equally likely.
- The best-block hash of the coin views and the partial batches and crash recovery of the database.
- CoinsView.CoinsView.BatchWrite: does not describe the cache after the throw, when part of the batch is merged.
- CoinsView.CoinsView.WriteCache: does not describe the cache after the throw either.
- CoinsView.CoinsView.Flush: does not describe parent and child after the throw.
- CoinsView.CoinsView.WriteDatabase: one batch; best-block markers and partial batches are left out.
- Coins.TotalUsageSet: the memory behind a coin is computed for a 64-bit allocator and a script buffer without spare capacity.
- CheckQueue.RunInvariant: mutexes and condition variables are atomic steps; a waiting thread may wake at any time, so lost and spurious wake-ups need no further case. Only one session runs at a time, as the control mutex ensures.
- CheckQueue.WaitEnds: that a scheduler keeps running threads that can change something is an assumption; wake-ups that change nothing are not counted.
- The constructor of `CMerkleBlock`, which matches transactions against a filter.
- Miner.BlockAssembler.ChooseNext: which of the two candidates has the better ancestor fee rate is left open, so everything holds for any order; that the selection maximizes fees is not stated.
- BlockSelection.UpdateTracks: says nothing about the cached fees of a mempool with prioritised transactions, since `src/miner.h:122` takes off the base fee and `src/miner.cpp:343` the modified fee; nor that the totals of an entry that failed before are exact, since only an upper bound holds.
- Miner.BlockAssembler.CreateNewBlock: coinbase and coinstake, header, witness commitment and the final validity test are not modelled; the lists leave out the coinbase placeholder at the front.
- Pocketnet consensus checks: arbitrary predicates of a transaction and the payloads before it.
- `CTxMemPool`: a finite acyclic set of transactions whose statistics are the sums over their ancestors, with weight at most four times size.
- `base_uint` in hexadecimal and as a double, the bitwise operators, and `GetBlockProofEquivalentTime`.
- `FindEarliestAtLeast`, block status flags and chain work in the block index.
- Chain.BlockTree.Insert: the hash index and the duplicate check are left out.
- CuckooCache.CuckooCache.Setup: the depth limit, the integer part of a floating-point logarithm, is a parameter, and a second setup of a cache in use is not modelled.
- CuckooCache.BitPackedFlags.Set: sequential; concurrent erasures and their memory ordering are not modelled.
- CuckooCache.BitPackedFlags.Unset: sequential in the same way.
- RollingBloom.RollingBloomFilter.constructor: the number of hash functions and of bits comes from logarithms of the false-positive rate and is a parameter. Rates of false positives are not stated.
- `CBloomFilter`, the filter of BIP 37 clients.
- Bech32Distance.ThreeErrorsDetected: the documentation adds that four errors within a window of 89 characters are detected. That was established by a search over generators rather than by their structure, and is not stated.
- Bech32Distance.ThreeWrongCharacters: the wrong characters are those after the separator; one in the prefix counts as two wrong symbols of the expanded prefix.
- Base58.CheckRoundTripIff: the four check bytes are an arbitrary function of the data.
- CompactBlock.PartiallyDownloadedBlock.AssignSlots: whether a bucket of the standard library's hash table is crowded is a parameter.
- CompactBlock.PartiallyDownloadedBlock.ScanExtra: extra_count is an integer here; the program's is unsigned, so that -1 is the largest value of the type.
- CompactBlock.PartiallyDownloadedBlock.InitData: crowding of hash buckets is a parameter, and extra_count an integer.
- CompactBlock.PartiallyDownloadedBlock.FillBlock: does not describe which transactions are moved out when too few are supplied; the block check is a parameter.
- `DifferenceFormatter` and the request and response messages for missing transactions.
- Sockets, files, databases, wallets, scripts, signatures, RPC and the social-network transactions of the node.
