# First Islamic Coin: a verified model

A Dafny 4.11 model of the parts of the First Islamic Coin node, web wallet and
staking service that are easiest to get wrong, with proofs of what they promise.
`dafny verify dfyconfig.toml` checks everything. Code that changes state in place is
modelled by classes, arrays and loops, each proved against a specification; what the
specifications promise is proved as lemmas and over whole runs.

## What is modelled

* **Address manager** (`AddrMan*`). The tables of known peers. Every state of every run
  from the empty manager is consistent, and passes the manager's own check exactly if its
  times are right; what the check does not see is named and never wrong in a run; saving
  and loading gives back the same manager, and under other net groups a consistent one.
* **Check queue** (`CheckQueue`). Worker threads and a master share a queue. Over every
  interleaving the master's answer is right, `Wait` returns, and no session leaks into the
  next.
* **Coin cache** (`CoinsLayer`, `Coins`). Stacked caches with dirty and fresh flags
  answer as one plain map would, and write its coins back.
* **Signature cache** (`CuckooTable`, `CuckooSteps`, `CuckooCache`). Insertion by
  displacement loses at most one element; over any run the recent ones are bounded, and
  what is inserted is found until a second epoch begins.
* **256-bit arithmetic** (`Bits`, `Limbs`, `ArithUint256`, `Multiply`), **compact
  targets** (`CompactTarget`) and block work (`EquivalentTime`). Limbwise operations are
  arithmetic modulo 2^256; packing a target loses less than one part in 32768.
* **Block index and chain** (`Chain`). Skip pointers, forks and locators agree with
  walking back block by block.
* **Bech32** (`Bech32Code`, `Bech32`) and **Base58** (`Radix`, `Base58`). Encoding and
  decoding are inverse, and exactly the right strings decode.
* **Error detection** (`Rings`, `Bech32Field`, `Bech32Errors`). Bech32 detects errors in six
  neighbouring characters, and in any three: GF(1024) is built above the groups of five
  bits, its element e has order 1023, and the generator is zero at three consecutive
  powers of it.
* **Stored coins** (`Amount`, `VarInt`, `CoinCodec`). Amounts, numbers, scripts and coins
  are read back as they were stored, exactly if a stated condition holds.
* **Compact blocks** (`BlockEncodings`). A block is rebuilt from short ids, the pool and
  what is missing.
* **Multi-signature spending** (`Multisig`, `ScriptEval`). Signing and merging in any
  order, the finished input scripts to the byte, and what the node makes of them.
* **Staking ledger** (`LedgerTables`, `Ledger`). Deposits, rewards, referral credits and
  payouts over any run, with calls to the node that fail.

`Prelude` holds what several of these use.

## Where code and promises differ

* `CompressAmount` is documented for every amount, and the largest valid amount is
  2^63 - 1 (`consensus/amount.h`), but its 64-bit result wraps. `Amount.RecoveredIff`
  gives the exact condition: the amount ends in zero or is at most 2049638230412172402.
  `Amount.ValidAmountLost` is a valid amount that is not recovered.
* `finalizeMultisigTransaction` writes the redeem script after its length as a
  variable-length integer, not as a push. Up to 75 bytes the two agree. A script of three
  or more keys is longer, and its length is read as an opcode that does not push:
  `ScriptEval.AcceptsIff` shows that finished inputs are accepted exactly for one or two
  keys, although redeem scripts are made for up to sixteen.
* `CheckAddrman` does not see everything. `AddrManCheck.CheckExact`: a state is consistent,
  with right times, if and only if it passes and what the check does not look at is in
  order: a counter for every network, the index leading to the entry of each address, ids
  given out before, valid addresses, the waiting ids, and bucket numbers in range, which
  the arrays of the source see to. `AddrManCheck.CheckMisses` and
  `AddrManCheck.CheckMissesValidity` have a state for each of the other five faults that
  passes. No run reaches one (`AddrManRun.NothingUnseen`).
* The check wants times that are not negative and a success for every tried entry, but
  nothing keeps a caller from recording zero or less. `AddrManRun.ZeroFails` is a run that
  fails the check. The exact conditions, on the state and the arguments,
  are `AddrManClock.GoodChecks` and `AddrManClock.AttemptChecks`; resolving collisions does no
  harm at any time (`AddrManClock.ResolveChecks`), nor does any other operation
  (`AddrManRun.RunPasses`).
* `SpendCoin` is documented to have no effect if there is no unspent output. That is true
  of what is visible, but it returns true for an entry that is cached as spent. The
  contract states exactly when, and `Coins.SpendTwice` is such a case.
* The comment in `insert` of the signature cache says the first displacement is at the
  first location; the code takes the second (`CuckooCache.Cache.Displaced`).
* `_attribute_rewards` looks for coinstakes that spend the output a deposit was funded
  with, and never updates that output. `LedgerTables.StakedTwice` is a deposit whose second
  coinstake is never credited; `LedgerTables.ReportedIff` says exactly which ones are, and
  `Ledger.OneRewardEach` that it is at most one per deposit.
* `withdraw` of the staking service closes all active deposits of the user, also when
  less than their worth is asked for. The rest is forfeited: `Ledger.Pool.Withdraw` says
  how much, nothing exactly if all was asked for, and `Ledger.Run` that payouts and
  forfeits add up to the worth.

## Parameters

Hash functions, address validity, networks and net groups are fields of the environment
of the address manager; clocks and random choices are arguments. So are the depth limit
and the hash functions of the signature cache, the order in which an unordered map is
gone through, the crowding of hash buckets, the verdict of block validation, the answers
of the node to the staking service, signing and verifying, and the compression of public
keys, of which only the laws used are stated.

## Model

| member | source | states |
|---|---|---|
| `AddrMan.AddrManager.constructor` | firstislamiccoin-core/src/addrman.cpp:107-123 | A new manager is empty: no entries, every cell of both tables free |
| `AddrMan.AddrManager.CreateEntry` | firstislamiccoin-core/src/addrman.cpp:414-428 | A fresh id enters the map, the address index and the end of the random order, and is counted as new; nothing else changes |
| `AddrMan.AddrManager.SwapPositions` | firstislamiccoin-core/src/addrman.cpp:430-452 | The two ids trade places in the random order and in their recorded positions |
| `AddrMan.AddrManager.DeleteEntry` | firstislamiccoin-core/src/addrman.cpp:454-469 | The entry leaves the map, the index, the random order and the counts; the last id of the order takes its place |
| `AddrMan.AddrManager.ClearSlot` | firstislamiccoin-core/src/addrman.cpp:471-487 | The slot is free afterwards; its occupant loses a reference and is deleted if that was the last one |
| `AddrMan.AddrManager.LeaveNew` | firstislamiccoin-core/src/addrman.cpp:493-507 | Starting at the bucket of its own source and stopping at the last reference, the walk clears every new slot of the entry, and no other |
| `AddrMan.AddrManager.EvictSlot` | firstislamiccoin-core/src/addrman.cpp:514-539 | The occupant of a tried slot goes back to the new table, over whatever was in the slot of its own source, as `Evict` says |
| `AddrMan.AddrManager.MoveToTried` | firstislamiccoin-core/src/addrman.cpp:489-546 | The whole state afterwards is the one `MakeTried` says, of which `AddrManInvariant` and `AddrManOps` prove the properties |
| `AddrMan.AddrManager.InsertInto` | firstislamiccoin-core/src/addrman.cpp:598-621 | The entry gets the slot if it is free, or its occupant is terrible, or has other references while the entry has none; otherwise an entry without references is deleted |
| `AddrMan.AddrManager.AddSingle` | firstislamiccoin-core/src/addrman.cpp:548-622 | One address is added or refreshed exactly as the state function says, on every branch |
| `AddrMan.AddrManager.Add` | firstislamiccoin-core/src/addrman.cpp:678-688 | A list of addresses is added one after the other; the invariant holds afterwards |
| `AddrMan.AddrManager.Good` | firstislamiccoin-core/src/addrman.cpp:624-676 | At any time, known or not, new or tried, with or without testing before evicting, the whole state afterwards is that of the state function, and the manager stays consistent |
| `AddrMan.AddrManager.Attempt` | firstislamiccoin-core/src/addrman.cpp:690-708 | At any time, an attempt is recorded for a known address, and counted once per success of any peer |
| `AddrMan.AddrManager.Connected` | firstislamiccoin-core/src/addrman.cpp:865-882 | The time last seen of a known address is refreshed if it is old |
| `AddrMan.AddrManager.SetServices` | firstislamiccoin-core/src/addrman.cpp:884-898 | Only the services of a known address change |
| `AddrMan.AddrManager.ResolveCollisions` | firstislamiccoin-core/src/addrman.cpp:900-961 | Whatever the clock says, every waiting address is decided in ascending order of ids, each as `ResolveOne` says |
| `AddrMan.AddrManager.SelectTriedCollision` | firstislamiccoin-core/src/addrman.cpp:963-989 | The answer is the occupant of the slot a waiting address targets; no other id is ever looked up |
| `AddrMan.AddrManager.CheckAddrman` | firstislamiccoin-core/src/addrman.cpp:1051-1154 | The check returns zero exactly if the state passes every test of the source and the key is not null |
| `AddrMan.AddrManager.GetAddr` | firstislamiccoin-core/src/addrman.cpp:803-839 | The result holds distinct, eligible addresses, as many as the two limits allow, and only the random order changes |
| `AddrManInvariant.CreateInv` | firstislamiccoin-core/src/addrman.cpp:414-428 | Creating an entry for an unknown valid address keeps the invariant, the entry awaiting its first reference |
| `AddrManInvariant.DeleteInv` | firstislamiccoin-core/src/addrman.cpp:454-469 | Deleting an entry without references keeps the invariant |
| `AddrManInvariant.ClearNewInv` | firstislamiccoin-core/src/addrman.cpp:471-487 | Clearing any new slot keeps the invariant |
| `AddrManInvariant.PlaceNewInv` | firstislamiccoin-core/src/addrman.cpp:609-612 | Entering a free slot of the right bucket keeps the invariant: the reference count is the number of slots |
| `AddrManInvariant.StripNewInv` | firstislamiccoin-core/src/addrman.cpp:493-507 | Taking an entry out of all new slots keeps the invariant for the others |
| `AddrManInvariant.PlaceTriedInv` | firstislamiccoin-core/src/addrman.cpp:540-545 | Entering the hashed tried slot keeps the invariant |
| `AddrManOps.EvictPlace` | firstislamiccoin-core/src/addrman.cpp:526-536 | After an eviction the displaced entry is a new entry with one reference, and the slot is free |
| `AddrManOps.MadeTriedEvicting` | firstislamiccoin-core/src/addrman.cpp:489-546 | Exactly one tried slot changes its occupant, and the old one is still known |
| `AddrManOps.WaitingFacts` | firstislamiccoin-core/src/addrman.cpp:900-989 | A waiting address that is still known targets an occupied tried slot |
| `AddrManOps.ResolveCases` | firstislamiccoin-core/src/addrman.cpp:906-960 | What a decision does to the state: nothing, forget the waiting address, or let it replace the occupant |
| `AddrManRun.StepKeeps` | firstislamiccoin-core/src/addrman.cpp:548-989 | Every operation, at any time, keeps the manager consistent, and no tried slot is emptied |
| `AddrManRun.RunConsistent` | firstislamiccoin-core/src/addrman.cpp:414-989 | Every state of every run from the empty manager is consistent: reference counts are exact and between 1 and 8, entries sit at their hashed places, tried entries occur once, the three views of the ids are mutually inverse, all counters are exact; it passes the check exactly if its times are right |
| `AddrManRun.RunPasses` | firstislamiccoin-core/src/addrman.cpp:624-961 | The check has passed all along a run exactly if every success and attempt in it was recorded at a time that does no harm, a condition on the state and the arguments of each call |
| `AddrManRun.ZeroFails` | firstislamiccoin-core/src/addrman.cpp:624-676 | A run of two operations that fails: an address is added to the empty manager, and its success recorded at time zero |
| `AddrManRun.NothingUnseen` | firstislamiccoin-core/src/addrman.cpp:1051-1154 | No run reaches a state whose faults the check does not see |
| `AddrManRun.TriedSlotStays` | firstislamiccoin-core/src/addrman.cpp:489-546 | A tried slot that is occupied stays occupied for the rest of the run |
| `AddrManRun.Run` | firstislamiccoin-core/src/addrman.cpp:1036-1154 | On the class, over any run, the check after every operation returns zero exactly if the key is not null and all times are right |
| `AddrManCheck.ConsistentChecks` | firstislamiccoin-core/src/addrman.cpp:1051-1154 | A consistent manager passes exactly if no time is negative and every tried entry has a success |
| `AddrManCheck.CheckExact` | firstislamiccoin-core/src/addrman.cpp:1051-1154 | For every state: it passes and what the check does not look at is in order, if and only if it is consistent with right times |
| `AddrManCheck.CountersExact` | firstislamiccoin-core/src/addrman.cpp:1142-1151 | Of a state that passes, all counters are exact if and only if no network of an entry is missing among them |
| `AddrManCheck.CheckMisses` | firstislamiccoin-core/src/addrman.cpp:1051-1154 | Four states that pass and are not consistent: a network without counters, an address that leads to the entry of another, an id not given out yet, and an unknown id waiting |
| `AddrManCheck.CheckMissesValidity` | firstislamiccoin-core/src/addrman.cpp:1051-1154 | A fifth: the one entry of the manager has an address that is not valid |
| `AddrManClock.GoodChecks` | firstislamiccoin-core/src/addrman.cpp:624-676 | Recording a success keeps a manager passing if and only if the address is unknown, or the time is at least 1, or it is 0 and the entry is new and has to wait because its tried slot is taken |
| `AddrManClock.AttemptChecks` | firstislamiccoin-core/src/addrman.cpp:690-708 | Recording an attempt keeps a manager passing if and only if the address is unknown or the time is not negative |
| `AddrManClock.ResolveChecks` | firstislamiccoin-core/src/addrman.cpp:900-961 | Resolving collisions keeps a manager passing whatever the clock says |
| `AddrManStore.Serialize` | firstislamiccoin-core/src/addrman.cpp:131-226 | What is written describes the manager completely: its new entries and tried entries in order, and for every bucket the positions of its entries among the new ones |
| `AddrManStore.ReadTried` | firstislamiccoin-core/src/addrman.cpp:291-312 | Tried entries are loaded into their slots; those with a taken slot or an invalid address are counted as lost |
| `AddrManStore.PlacePair` | firstislamiccoin-core/src/addrman.cpp:346-374 | A bucket entry is restored to its slot or falls back to the slot of its source |
| `AddrManStore.PlacePairs` | firstislamiccoin-core/src/addrman.cpp:346-374 | All bucket entries are placed in order |
| `AddrManStore.Prune` | firstislamiccoin-core/src/addrman.cpp:376-386 | Exactly the new entries without references are deleted, from the entries, the index and the counters of their networks, and counted; nothing else changes but the random order, and the invariant is kept |
| `AddrManStore.PrunedChecks` | firstislamiccoin-core/src/addrman.cpp:376-397 | Of any loaded state, sound or not: in whatever order the entries are deleted, the check says the same afterwards |
| `AddrManStore.Unserialize` | firstislamiccoin-core/src/addrman.cpp:229-397 | Of any file: too many entries are refused; otherwise the state is what loading gives, without exactly the entries that got no slot, counters and index included, and reading succeeds exactly if it passes the check and the key is set; a file of sound entries gives a consistent manager in which what is missing has its slot taken |
| `AddrManStore.Reload` | firstislamiccoin-core/src/addrman.cpp:131-397 | What is written is all of a consistent manager, and what is loaded from it is the same manager up to ids; reading succeeds exactly if the key is set, no success is at a negative time, and every tried entry has one |
| `AddrManStore.Rebucket` | firstislamiccoin-core/src/addrman.cpp:316-397 | Written, and read in under other net groups, a consistent manager is a consistent one; no address is made up, and a missing one has its slot taken by another; it passes exactly if its times are right, as they are if those written were |
| `AddrManRebucket.LoadArranged` | firstislamiccoin-core/src/addrman.cpp:281-374 | Before pruning the invariant holds but for entries without references; every listed tried slot is occupied, and every listed new entry has a reference or finds the slot of its source taken |
| `AddrManRebucket.ArrangedKept` | firstislamiccoin-core/src/addrman.cpp:376-397 | After pruning the manager is consistent, and what is missing has its slot taken |
| `AddrManRebucket.SavedSound` | firstislamiccoin-core/src/addrman.cpp:131-226 | What a consistent manager writes is sound under any net groups: valid and distinct addresses |
| `AddrManSave.RoundTrip` | firstislamiccoin-core/src/addrman.cpp:131-397 | Loading what was saved rebuilds both tables, all reference counts, all counters and every saved field, up to a renaming of ids, with nothing lost |
| `AddrManSave.RefillAll` | firstislamiccoin-core/src/addrman.cpp:314-374 | Going through the saved buckets restores every new slot, no entry ever having too many references |
| `AddrManSave.LoadTriedOk` | firstislamiccoin-core/src/addrman.cpp:291-312 | No tried entry is lost, because different tried entries have different slots |
| `AddrManStore.FewNew` | firstislamiccoin-core/src/addrman.cpp:266-271 | The number of new entries is within the limit the reader imposes |
| `AddrManStore.FewTried` | firstislamiccoin-core/src/addrman.cpp:273-278 | The number of tried entries is within the limit the reader imposes |
| `AddrManFile.ParsedWritten` | firstislamiccoin-core/src/addrman.cpp:131-226 | What is written, with versions, key, counts and the flipped bucket count, is read back whole with whatever follows it, unless there are too many entries |
| `AddrManFile.Write` | firstislamiccoin-core/src/addrman.cpp:170-226 | The file is versions, key, counts, new entries, tried entries, buckets and checksum, in that order |
| `AddrManFile.Reader.Read` | firstislamiccoin-core/src/addrman.cpp:229-345 | A file is read exactly if its versions are compatible, its counts in range and nothing is missing; files before the second format have no checksum, before the first an unflipped count |
| `AddrManFile.Save` | firstislamiccoin-core/src/addrman.cpp:131-226 | The file of a consistent manager holds its key and all of its entries and buckets |
| `AddrManFile.Open` | firstislamiccoin-core/src/addrman.cpp:229-397 | A file is opened if and only if it can be read whole, its key is set, and what is loaded, without the entries that got no slot, passes the check; that is then the manager; sound files with right times and a key are opened |
| `AddrManFile.Keep` | firstislamiccoin-core/src/addrman.cpp:131-397 | Saved to a file and opened again a consistent manager is the same up to ids, key included; it is opened exactly if the key is set and the written times are right |
| `CheckQueue.NextInv` | firstislamiccoin-core/src/checkqueue.h:69-180 | Every step of every thread, in any order, keeps the counters and the results right |
| `CheckQueue.RunSafe` | firstislamiccoin-core/src/checkqueue.h:69-180 | The invariant holds in every state of every interleaving |
| `CheckQueue.WaitCorrect` | firstislamiccoin-core/src/checkqueue.h:69-160 | In every interleaving the number of open checks is those queued and in hand; waiting returns true exactly if every check of the session is true; nothing leaks into the next session |
| `CheckQueue.NoDeadlock` | firstislamiccoin-core/src/checkqueue.h:76-126 | While the master waits, some thread can step without a spurious wakeup |
| `CheckQueue.WaitEnds` | firstislamiccoin-core/src/checkqueue.h:76-126 | A schedule of thread steps keeps the invariant and is no longer than the work left at its start |
| `CheckQueue.WaitReturns` | firstislamiccoin-core/src/checkqueue.h:76-126 | With the master in `Wait`, every schedule of thread steps that goes on until no thread can step, or for as many steps as there is work, contains the return of the master |
| `CheckQueue.Queue.Append` | firstislamiccoin-core/src/checkqueue.h:163-180 | A batch joins the end of the queue and the count of open checks |
| `CheckQueue.Queue.Enter` | firstislamiccoin-core/src/checkqueue.h:77-119 | The critical section settles the previous batch and then returns, waits or takes the next batch |
| `CheckQueue.Queue.Resume` | firstislamiccoin-core/src/checkqueue.h:91-119 | A woken thread goes on with the same decision |
| `CheckQueue.Queue.Process` | firstislamiccoin-core/src/checkqueue.h:121-123 | The verdict on a batch is that all its checks hold and none failed before |
| `Coins.CoinsCache.FetchCoin` | firstislamiccoin-core/src/coins.cpp:44-59 | Fetching fills the cache and changes nothing that is visible at any level |
| `Coins.CoinsCache.GetCoin` | firstislamiccoin-core/src/coins.cpp:61-68 | The coin visible at this level, found through any number of levels |
| `Coins.CoinsCache.HaveCoin` | firstislamiccoin-core/src/coins.cpp:165-168 | Whether an unspent coin is visible |
| `Coins.CoinsCache.AddCoin` | firstislamiccoin-core/src/coins.cpp:70-109 | It refuses exactly an unspent coin that is not expected; otherwise the coin is visible, and the cache stays legal exactly if an overwrite was announced or there was nothing to overwrite; after a refusal the coins are unchanged and only the memory count is too low, by the usage of the coin there |
| `Coins.CoinsCache.SpendCoin` | firstislamiccoin-core/src/coins.cpp:131-152 | Exactly that coin disappears from view; the answer is whether an entry was found, which includes one already spent here |
| `Coins.SpendTwice` | firstislamiccoin-core/src/coins.cpp:131-152 | A coin of the level below is spent twice: the second time nothing visible changes and no coin is handed over, but the answer is yes again |
| `Coins.CoinsCache.Uncache` | firstislamiccoin-core/src/coins.cpp:287-301 | Only an unmodified entry is dropped, and nothing visible changes |
| `Coins.CoinsCache.BatchWrite` | firstislamiccoin-core/src/coins.cpp:185-255 | Taking over a child makes this level show what the child showed; a fresh flag is never misapplied |
| `Coins.CoinsCache.Flush` | firstislamiccoin-core/src/coins.cpp:257-268 | The level below shows what this one did, and this one is empty |
| `Coins.CoinsCache.Sync` | firstislamiccoin-core/src/coins.cpp:270-285 | The level below shows what this one did, and the unspent coins stay cached without flags |
| `Coins.CoinsCache.FlushAll` | firstislamiccoin-core/src/coins.cpp:257-268 | After writing every level back the database holds what the top showed |
| `Coins.CoinsCache.SanityCheck` | firstislamiccoin-core/src/coins.cpp:341-356 | The check passes exactly for the legal flag combinations and the exact memory count, hence for every valid cache |
| `Coins.Run` | firstislamiccoin-core/src/coins.cpp:44-301 | Any run of coin operations and write-backs at the top of a stack of any depth gives, one by one, the answers one plain map would give, and shows exactly its coins |
| `Coins.AddCoins` | firstislamiccoin-core/src/coins.cpp:119-129 | All spendable outputs of a transaction become visible, also when duplicates are only asked about or only possible for coinbases |
| `CoinsLayer.AddExact` | firstislamiccoin-core/src/coins.cpp:70-109 | Adding keeps the flags honest if and only if overwriting was announced or the outpoint was not visible |
| `CoinsLayer.MergeOk` | firstislamiccoin-core/src/coins.cpp:185-255 | Merging one entry keeps the flags honest and shows the written coin |
| `CoinsLayer.RetainedOk` | firstislamiccoin-core/src/coins.cpp:270-285 | After a write-back the kept entries are honest over the new parent |
| `CoinsLayer.BrokenRuleLosesSpend` | firstislamiccoin-core/src/coins.cpp:80-100 | A caller who breaks the overwrite rule loses a spend at the next flush |
| `CuckooCache.BitFlags.BitSet` | firstislamiccoin-core/src/cuckoocache.h:95-98 | One flag is set, none other changes |
| `CuckooCache.BitFlags.BitUnset` | firstislamiccoin-core/src/cuckoocache.h:106-109 | One flag is cleared, none other changes |
| `CuckooCache.Cache.EpochCheck` | firstislamiccoin-core/src/cuckoocache.h:288-320 | The table, the flags, the epochs and the countdown afterwards are those of `Prepared` |
| `CuckooCache.Cache.Insert` | firstislamiccoin-core/src/cuckoocache.h:400-448 | The whole state and the lost element are those of `Inserted`: what is live afterwards, with the lost element, is exactly the new element and what was live before, or in a new epoch what was recent |
| `CuckooCache.Cache.Displace` | firstislamiccoin-core/src/cuckoocache.h:414-447 | The chain of displacements, to its limit, leaves the state of `Chain` and what is in hand at its end |
| `CuckooCache.Cache.Displaced` | firstislamiccoin-core/src/cuckoocache.h:424-446 | One displacement: the element goes to the location after the last one among its own, the first time its second; the element there comes out with its age, and nothing else changes |
| `CuckooCache.Cache.Contains` | firstislamiccoin-core/src/cuckoocache.h:477-487 | The state and the answer are those of `Looked`: every live element is found, and erasing makes exactly that element discardable |
| `CuckooSteps.ChainKeeps` | firstislamiccoin-core/src/cuckoocache.h:414-447 | A chain of displacements of any length loses nothing but what is in hand at its end: every other element is as live and as recent as before, and the recent ones are at most one more |
| `CuckooSteps.PreparedKeeps` | firstislamiccoin-core/src/cuckoocache.h:288-320 | When an epoch begins, exactly what was recent is live and nothing is recent; otherwise nothing changes; afterwards there is room for one more recent element within the bound |
| `CuckooSteps.InsertedKeeps` | firstislamiccoin-core/src/cuckoocache.h:400-448 | After an insertion its element and exactly what was live, or in a new epoch recent, is live, but for at most one lost element; the ages of all others are kept, and so is the bound |
| `CuckooSteps.LookedKeeps` | firstislamiccoin-core/src/cuckoocache.h:477-487 | A lookup finds every live element, and erasing takes away that one and no other |
| `CuckooCache.Run` | firstislamiccoin-core/src/cuckoocache.h:288-487 | The cache goes through the states of the run that the operations determine, and in each of them the recent elements are at most the epoch size plus a sixteenth, and plus one at least |
| `CuckooSteps.RunGood` | firstislamiccoin-core/src/cuckoocache.h:288-487 | In every state of every run every live element is where it is looked for, and the recent ones with the countdown are within the bound |
| `CuckooSteps.Survives` | firstislamiccoin-core/src/cuckoocache.h:288-487 | Over any run, an inserted element that is neither erased nor lost is recent until a new epoch begins, and is found by every lookup until a second one does |
| `CuckooTable.Unique` | firstislamiccoin-core/src/cuckoocache.h:400-487 | No live element is stored twice |
| `CuckooTable.LiveFound` | firstislamiccoin-core/src/cuckoocache.h:477-487 | A live element sits in one of its own eight slots |
| `ArithUint256.BaseUint.AddAssign` | firstislamiccoin-core/src/arith_uint256.h:127-137 | Addition with carries is addition modulo 2^256 |
| `ArithUint256.BaseUint.Not` | firstislamiccoin-core/src/arith_uint256.h:61-67 | The complement of V is 2^256 - 1 - V |
| `ArithUint256.BaseUint.Increment` | firstislamiccoin-core/src/arith_uint256.h:165-172 | Adding one, modulo 2^256 |
| `ArithUint256.BaseUint.Negate` | firstislamiccoin-core/src/arith_uint256.h:69-76 | Two's complement negation modulo 2^256 |
| `ArithUint256.BaseUint.SubAssign` | firstislamiccoin-core/src/arith_uint256.h:139-143 | Subtraction modulo 2^256 |
| `ArithUint256.BaseUint.ShlAssign` | firstislamiccoin-core/src/arith_uint256.cpp:21-35 | A left shift multiplies by a power of two modulo 2^256, for every shift |
| `ArithUint256.BaseUint.ShrAssign` | firstislamiccoin-core/src/arith_uint256.cpp:38-52 | A right shift is floor division by a power of two, for every shift |
| `ArithUint256.BaseUint.CompareTo` | firstislamiccoin-core/src/arith_uint256.cpp:109-118 | Limbwise comparison is comparison of the values |
| `ArithUint256.BaseUint.BitLength` | firstislamiccoin-core/src/arith_uint256.cpp:179-191 | The number of bits: the value lies between two neighbouring powers of two |
| `ArithUint256.BaseUint.DivAssign` | firstislamiccoin-core/src/arith_uint256.cpp:83-106 | Shift-and-subtract division is the floor quotient for every nonzero divisor, and refuses zero |
| `Multiply.MulAssign` | firstislamiccoin-core/src/arith_uint256.cpp:67-80 | The schoolbook loops multiply modulo 2^256, also when both operands are the same object |
| `Multiply.MulLimbAssign` | firstislamiccoin-core/src/arith_uint256.cpp:55-64 | Multiplication by one limb modulo 2^256 |
| `CompactTarget.SetCompact` | firstislamiccoin-core/src/arith_uint256.cpp:198-216 | The value modulo 2^256, and the exact meaning of the two flags |
| `CompactTarget.GetCompact` | firstislamiccoin-core/src/arith_uint256.cpp:218-239 | The compact form of the value, with the sign bit if asked for |
| `CompactTarget.OverflowExact` | firstislamiccoin-core/src/arith_uint256.cpp:212-214 | The overflow test holds exactly if mantissa times 256^(exponent-3) is at least 2^256 |
| `CompactTarget.RoundTrip` | firstislamiccoin-core/src/arith_uint256.cpp:198-239 | For every x > 0, unpacking the packed form gives v with v <= x and 32768 * (x - v) < x |
| `CompactTarget.Stable` | firstislamiccoin-core/src/arith_uint256.cpp:198-239 | Packing what was unpacked gives the same form |
| `CompactTarget.TargetPlusOne` | firstislamiccoin-core/src/chain.cpp:146-150 | Target plus one never wraps |
| `CompactTarget.GetBlockProof` | firstislamiccoin-core/src/chain.cpp:138-151 | Floor(2^256 / (target + 1)) for every non-negative target in range, and zero otherwise |
| `EquivalentTime.GetBlockProofEquivalentTime` | firstislamiccoin-core/src/chain.cpp:153-168 | The work difference times the spacing over the work of the tip, clamped to 64 bits with the sign of the difference; fails exactly for a tip without work |
| `Chain.BlockIndex.GetAncestor` | firstislamiccoin-core/src/chain.cpp:93-118 | With skip pointers, the same block as following predecessors one by one, and null out of range |
| `Chain.BlockIndex.BuildSkip` | firstislamiccoin-core/src/chain.cpp:125-129 | The skip pointer is the ancestor at the skip height, and the tree stays well formed |
| `Chain.Grow` | firstislamiccoin-core/src/chain.cpp:125-129 | Adding a block over any block of the tree keeps the tree well formed |
| `Chain.ActiveChain.SetTip` | firstislamiccoin-core/src/chain.cpp:21-29 | Although the loop stops early, the chain is the full line of the new tip |
| `Chain.ActiveChain.FindFork` | firstislamiccoin-core/src/chain.cpp:60-69 | The highest block of the chain at or below a given block |
| `Chain.ActiveChain.ContainsIsAncestor` | firstislamiccoin-core/src/chain.h:514-517 | Being in the chain is being an ancestor of its tip |
| `Chain.LastCommonAncestor` | firstislamiccoin-core/src/chain.cpp:172-187 | An ancestor of both blocks above which they have nothing in common |
| `Chain.LocatorEntries` | firstislamiccoin-core/src/chain.cpp:31-48 | Ancestors at growing distances down to the genesis block, as many as the logarithm of the height |
| `Bech32Code.PolyMod` | firstislamiccoin-core/src/bech32.cpp:130-216 | The bit loop computes the remainder of the word, one step per group |
| `Bech32Code.StepLinear` | firstislamiccoin-core/src/bech32.cpp:177-214 | One step is linear over exclusive or |
| `Bech32Code.FoldLinear` | firstislamiccoin-core/src/bech32.cpp:130-216 | The checksum of a sum of words is the sum of the checksums |
| `Bech32Code.StepInjective` | firstislamiccoin-core/src/bech32.cpp:177-214 | A step without input maps only zero to zero |
| `Bech32Code.WindowDetected` | firstislamiccoin-core/src/bech32.cpp:130-216 | Words of any length that differ only within six neighbouring groups have different checksums |
| `Bech32Field.Powers` | firstislamiccoin-core/src/bech32.cpp:62-76 | The first thirty-one powers of x are all elements of GF(32) but zero, and the next is one |
| `Bech32Field.GF32IsField` | firstislamiccoin-core/src/bech32.cpp:47-76 | The groups of five bits, multiplied modulo x^5 + x^3 + 1, are a field |
| `Rings.PairsAreField` | firstislamiccoin-core/src/bech32.cpp:37-45 | Pairs over any field of this kind are a field, if the polynomial that defines them has no root in it |
| `Bech32Field.GF1024IsField` | firstislamiccoin-core/src/bech32.cpp:37-45 | Pairs of groups with e^2 = 9e + 23 are a field |
| `Rings.Order1023` | firstislamiccoin-core/src/bech32.cpp:37-45 | Over any field: an element has order 1023 if its 33rd power is in the field below and has order 31 there, and its third and eleventh are not |
| `Bech32Field.Primitive` | firstislamiccoin-core/src/bech32.cpp:37-45 | The element e is primitive: a power of it is one only if the exponent is a multiple of 1023 |
| `Bech32Errors.SplitStep` | firstislamiccoin-core/src/bech32.cpp:177-215 | The packed residue after a step is, group by group, the old one shifted plus the multiple of the reduced x^6 |
| `Bech32Errors.Roots` | firstislamiccoin-core/src/bech32.cpp:158-175 | The generator of the checksum is zero at the powers 997, 998 and 999 of e |
| `Bech32Errors.FoldAt` | firstislamiccoin-core/src/bech32.cpp:177-215 | At a root of the generator, in any ring, the residue has the value of the word as a polynomial |
| `Rings.Vandermonde` | firstislamiccoin-core/src/bech32.cpp:172-175 | In any field, three equations in the powers of three different elements have no solution but zero |
| `Bech32Errors.ThreeDetected` | firstislamiccoin-core/src/bech32.cpp:137-142 | Words of any length that differ in up to three groups, not more than 1022 apart, have different checksums |
| `Bech32.ExpandHrp` | firstislamiccoin-core/src/bech32.cpp:312-324 | High bits, a zero and low bits of the human-readable part |
| `Bech32.ChecksumCompletes` | firstislamiccoin-core/src/bech32.cpp:327-352 | The six groups computed complete the word to the constant of the encoding, and no other six do |
| `Bech32.CreateChecksum` | firstislamiccoin-core/src/bech32.cpp:341-352 | The checksum groups, cut from the remainder |
| `Bech32.CheckCharacters` | firstislamiccoin-core/src/bech32.cpp:287-309 | The errors are exactly the unprintable characters and the letters not of the case of the first; none means printable and not mixed |
| `Bech32.Encode` | firstislamiccoin-core/src/bech32.cpp:357-370 | The string of a part, a separator, the data and the checksum |
| `Bech32.Decode` | firstislamiccoin-core/src/bech32.cpp:373-397 | Decoding as one function of the text, for every failure of the source |
| `Bech32.DecodeEncoded` | firstislamiccoin-core/src/bech32.cpp:357-397 | Decoding gives back encoding, part and data exactly if the part is printable and not empty and the total is at most 90 |
| `Bech32.EncodeDecoded` | firstislamiccoin-core/src/bech32.cpp:357-397 | Encoding what was decoded gives the text in lower case |
| `Bech32.DecodesIff` | firstislamiccoin-core/src/bech32.cpp:373-397 | The texts that decode to a triple are its encoding in either case, and nothing else |
| `Bech32.ErrorsDetected` | firstislamiccoin-core/src/bech32.cpp:327-397 | Two texts that decode under the same encoding and differ only within six neighbouring data characters are the same up to case |
| `Bech32.ThreeErrorsDetected` | firstislamiccoin-core/src/bech32.cpp:137-142 | Two texts that decode under the same encoding and differ in up to three data characters, anywhere, are the same up to case |
| `Base58.EncodeRoom` | firstislamiccoin-core/src/base58.cpp:96-97 | 138/100 digits and one more always suffice for the bytes |
| `Base58.DecodeRoom` | firstislamiccoin-core/src/base58.cpp:51-52 | 733/1000 bytes and one more always suffice for the digits |
| `Radix.MultiplyAdd` | firstislamiccoin-core/src/base58.cpp:101-111 | Multiplying the buffer in place and adding: the carry ends at zero and the digits in use are as few as possible |
| `Base58.ToBase58` | firstislamiccoin-core/src/base58.cpp:96-117 | The in-place conversion gives the digits to base 58 without leading zeros, and never runs out of room |
| `Base58.EncodeBase58` | firstislamiccoin-core/src/base58.cpp:87-125 | A one for every leading zero byte, and then the number to base 58 |
| `Base58.ReadDigits` | firstislamiccoin-core/src/base58.cpp:51-71 | The digits up to a space are converted, or an invalid character or too long a number is found |
| `Base58.DecodeBase58` | firstislamiccoin-core/src/base58.cpp:38-133 | The result for any text and any limit, negative ones included, is that of the specification, whose inverses are proved |
| `Base58.BytesOfEncoded` | firstislamiccoin-core/src/base58.cpp:38-125 | Decoding an encoding gives back every byte, leading zeros included |
| `Base58.EncodedOfBytes` | firstislamiccoin-core/src/base58.cpp:38-125 | Encoding what a string of valid characters stands for gives back the string |
| `Base58.DecodesIff` | firstislamiccoin-core/src/base58.cpp:38-125 | What decodes to given bytes is their encoding with spaces around it, if they are not too many, and nothing else |
| `Base58.EncodeBase58Check` | firstislamiccoin-core/src/base58.cpp:135-142 | The bytes with the first four bytes of their hash, encoded |
| `Base58.DecodeBase58Check` | firstislamiccoin-core/src/base58.cpp:144-167 | Success means the string is the encoding of the result with its checksum; failure, that it is that of nothing short enough |
| `Base58.WalletEncode` | firstislamiccoin-web-wallet/crypto.js:70-80 | The big-integer encoder of the wallet gives the same string as the in-place one of the core |
| `Base58.WalletDecode` | firstislamiccoin-web-wallet/crypto.js:83-98 | The big-integer decoder of the wallet gives the same bytes for every string of valid characters, and fails for the others |
| `Base58.WalletEncodeCheck` | firstislamiccoin-web-wallet/crypto.js:65-81 | The same string as the core for every payload |
| `Base58.WalletDecodeCheck` | firstislamiccoin-web-wallet/crypto.js:83-104 | Success means the string is the encoding of the result with its checksum; failure, that it is that of nothing |
| `Amount.CompressAmount` | firstislamiccoin-core/src/compressor.cpp:149-166 | The loop computes the compressed form modulo 2^64 |
| `Amount.DecompressAmount` | firstislamiccoin-core/src/compressor.cpp:168-192 | The loop computes the decompressed amount modulo 2^64 |
| `Amount.DecompressCompressed` | firstislamiccoin-core/src/compressor.cpp:149-192 | On the naturals, decompressing undoes compressing |
| `Amount.CompressDecompressed` | firstislamiccoin-core/src/compressor.cpp:149-192 | On the naturals, compressing undoes decompressing: the forms are a bijection |
| `Amount.FitsIff` | firstislamiccoin-core/src/compressor.cpp:149-166 | The compressed form fits in 64 bits exactly if the amount ends in zero or is at most 2049638230412172402 |
| `Amount.RecoveredIff` | firstislamiccoin-core/src/compressor.cpp:149-192 | In 64 bits an amount is recovered exactly under that same condition |
| `Amount.ValidAmountLost` | firstislamiccoin-core/src/consensus/amount.h:27 | The range of valid amounts, up to 2^63 - 1, is larger than what is recovered |
| `CoinCodec.DecompressCompressed` | firstislamiccoin-core/src/compressor.cpp:19-138 | Every short form starts with its tag, has the size the tag stands for, and gives the script back |
| `CoinCodec.ReadScriptBytes` | firstislamiccoin-core/src/compressor.h:65-96 | Tags 0 to 5 never clash with the long form; every script is read back, those over 10000 bytes as an invalid one |
| `CoinCodec.CodeParts` | firstislamiccoin-core/src/coins.h:77-89 | Height and flags are recovered from their code, the height modulo 2^30 |
| `CoinCodec.ReadCoinBytes` | firstislamiccoin-core/src/coins.h:74-92 | Reading the bytes of a coin consumes exactly them and gives the stored coin |
| `CoinCodec.StoredIff` | firstislamiccoin-core/src/coins.h:74-92 | A coin survives storing exactly if its height is below 2^30, its script at most 10000 bytes, and its amount ends in zero or is at most the bound |
| `CoinCodec.Stream.SerScript` | firstislamiccoin-core/src/compressor.h:65-75 | The short or the long form is appended |
| `CoinCodec.Stream.UnserScript` | firstislamiccoin-core/src/compressor.h:77-96 | The script is taken from the front, or reading fails |
| `CoinCodec.Stream.Serialize` | firstislamiccoin-core/src/coins.h:74-81 | The bytes of the coin are appended |
| `CoinCodec.Stream.Unserialize` | firstislamiccoin-core/src/coins.h:83-92 | The coin is taken from the front, or reading fails |
| `CoinCodec.Store` | firstislamiccoin-core/src/coins.h:74-92 | Any number of coins is written one after the other, to exactly their bytes, and read back in order from them, and the stream is empty |
| `VarInt.WriteVarInt` | firstislamiccoin-core/src/serialize.h:450-466 | The groups fit in the buffer for the width and are written as the encoding of the number |
| `VarInt.ReadVarInt` | firstislamiccoin-core/src/serialize.h:468-488 | Reading with the two overflow checks, as a function of the bytes |
| `VarInt.ReadIff` | firstislamiccoin-core/src/serialize.h:388-410 | A number is read exactly from its one encoding: no other bytes give it |
| `BlockEncodings.PartiallyDownloadedBlock.Prefill` | firstislamiccoin-core/src/blockencodings.cpp:63-79 | The prefilled transactions are placed, or the message is refused, exactly by the position rules |
| `BlockEncodings.NextFree` | firstislamiccoin-core/src/blockencodings.cpp:88-89 | Skipping filled slots stays in bounds, and the i-th short id belongs to the i-th free slot |
| `BlockEncodings.MapShortIds` | firstislamiccoin-core/src/blockencodings.cpp:85-107 | The map gives every short id its slot exactly if the ids are distinct and no bucket is crowded |
| `BlockEncodings.PartiallyDownloadedBlock.InitData` | firstislamiccoin-core/src/blockencodings.cpp:51-172 | The result is invalid exactly for a message that is malformed or an object in use, and failed exactly for colliding or crowded short ids; otherwise what is filled in is a prefilled transaction or one at hand with the short id of the slot, on an object not filled before nothing unambiguous is missed, and the count of transactions found grows by the slots filled |
| `BlockEncodings.PartiallyDownloadedBlock.FillBlock` | firstislamiccoin-core/src/blockencodings.cpp:182-228 | The missing transactions go into the empty slots in order; the block is complete, and the verdict on it the outcome, exactly if they are as many as needed; if they are too few the slots before the first one left free are emptied and the rest stays, if they are too many everything is reset |
| `BlockEncodings.Reconstructs` | firstislamiccoin-core/src/blockencodings.cpp:51-228 | If no other transaction at hand has a short id of the block, filling in what is missing gives exactly its transactions |
| `BlockEncodings.NotAskedFor` | firstislamiccoin-core/src/blockencodings.cpp:109-167 | A transaction of the block that is in the pool or among the extra ones is not asked for |
| `BlockEncodings.FromBlockEncodes` | firstislamiccoin-core/src/blockencodings.cpp:20-31 | The message made from a block describes it and is placed correctly |
| `BlockEncodings.Relay` | firstislamiccoin-core/src/blockencodings.cpp:20-228 | A block sent and rebuilt: if short ids collide or crowd it fails; otherwise the very block is rebuilt and the result is that of validating it |
| `BlockEncodings.WriteAndRead` | firstislamiccoin-core/src/blockencodings.h:25-45 | Exactly the increasing lists of positions can be written, as the distances between them, and they are read back as they were |
| `BlockEncodings.DifferenceFormatter.Unser` | firstislamiccoin-core/src/blockencodings.h:37-44 | The next position, with a wrapped or too large sum refused |
| `Multisig.CreateRedeemScript` | firstislamiccoin-web-wallet/crypto.js:381-399 | The script of a legal policy, and refusal of every other |
| `Multisig.ParsePubkeysInOrder` | firstislamiccoin-web-wallet/crypto.js:474-491 | The pushes of a script, in order |
| `Multisig.ParseScript` | firstislamiccoin-web-wallet/crypto.js:389-491 | Parsing a redeem script gives back the keys in order and the number of signatures |
| `Multisig.KeyIsContained` | firstislamiccoin-web-wallet/crypto.js:455-459 | Every key of a script is found by the text search |
| `Multisig.Proposal.Sign` | firstislamiccoin-web-wallet/crypto.js:438-453 | The signature is added to every input whose script has the key, and nothing else changes |
| `Multisig.Proposal.Assign` | firstislamiccoin-web-wallet/crypto.js:464-472 | The signatures of another copy are taken over |
| `Multisig.Carry` | firstislamiccoin-web-wallet/crypto.js:409-472 | Whatever the order of signing and merging, the signatures collected are those of the signers |
| `Multisig.Finalize` | firstislamiccoin-web-wallet/crypto.js:497-519 | For any redeem scripts: fails exactly if some input has fewer signatures of keys found in its script than its first byte asks for; otherwise every input script is, to the byte, a dummy, the first signatures in the order of the keys, and the redeem script after its length as a variable-length integer |
| `Multisig.PolicyScript` | firstislamiccoin-web-wallet/crypto.js:497-519 | Of the redeem script of a policy, that number and those keys are its own, so that too few means fewer signers than it asks for |
| `Multisig.CheckMultisig` | firstislamiccoin-core/src/script/interpreter.cpp:1158-1187 | The loop accepts exactly if the signatures belong to some of the keys in the same order |
| `Multisig.InputSpends` | firstislamiccoin-web-wallet/crypto.js:438-519 | For every policy, the number of signatures in order is the number of signers among the keys, and if there are enough the first of them match the keys in order |
| `ScriptEval.IsPushOnly` | firstislamiccoin-core/src/script/script.cpp:239-336 | The loop decides whether every opcode from the start on is a push |
| `ScriptEval.EvalScript` | firstislamiccoin-core/src/script/interpreter.cpp:413-1211 | Pushes and multi-signature checks are executed as the function says; counts and arguments are taken from the stack, the dummy included; the limits on script size, item size, stack size and counted operations are kept |
| `ScriptEval.VerifyInput` | firstislamiccoin-core/src/script/interpreter.cpp:1971-2045 | An input is accepted exactly if its script only pushes, the last item has the right hash, and executing it on the others leaves true |
| `ScriptEval.Redeemed` | firstislamiccoin-core/src/script/interpreter.cpp:1111-1211 | A redeem script executed on a dummy and signatures leaves exactly whether they belong to the keys in order |
| `ScriptEval.ReadBack` | firstislamiccoin-web-wallet/crypto.js:512-517 | An input script with a redeem script of up to 75 bytes is read back as the items it was made of |
| `ScriptEval.NotRead` | firstislamiccoin-web-wallet/crypto.js:512-517 | With a redeem script of more than 96 bytes, its length is read as an opcode that does not push |
| `ScriptEval.AcceptsIff` | firstislamiccoin-web-wallet/crypto.js:497-519 | A finished input is accepted exactly if its signatures fit and its script has at most two keys |
| `ScriptEval.ThreeKeysRefused` | firstislamiccoin-web-wallet/crypto.js:512-517 | Two of three signers finish a transaction whose signatures fit and which is refused |
| `ScriptEval.Spend` | firstislamiccoin-web-wallet/crypto.js:409-519 | Over any plan of signing and merging, finishing succeeds exactly if every input has enough signers; every script then holds, to the byte, the first of the signers' signatures in the order of the keys, and the answer of the node for it is that of executing it: yes exactly if the policy has at most two keys |
| `Ledger.Pool.MarkFundedDeposits` | firstislamiccoin-staking-service/staking.py:111-135 | Up to the first call that fails, exactly the awaiting deposits with an output become active, funded by the first one, each with the credit it earns at that moment; no credit is lost, and nothing happens if there is nothing to fund |
| `Ledger.Pool.CreditReferralIfEligible` | firstislamiccoin-staking-service/referral.py:58-87 | A credit of the exact share is added if and only if the user was referred, caused none before, has no other funded deposit, and the share is positive |
| `LedgerTables.FundedExact` | firstislamiccoin-staking-service/referral.py:58-87 | Funding one more deposit gives exactly the credits that are due by the order of funding |
| `Ledger.Pool.Attribute` | firstislamiccoin-staking-service/staking.py:168-207 | A row with the exact gross reward, fee and net is added if and only if the coinstake spends the deposit's output and was not credited before; it ends the pass exactly if it would be credited and a transaction it spends cannot be read |
| `Ledger.Pool.AttributeRewards` | firstislamiccoin-staking-service/staking.py:148-207 | The rows afterwards are those of the events up to the first call that fails, and the pass is completed exactly if none does |
| `Ledger.WatcherPass` | firstislamiccoin-staking-service/staking.py:210-214 | The tables afterwards are determined by those before and the answers of the node; a completed pass leaves everything settled, and a pass over a settled state changes nothing; every new row is that of a coinstake that was met |
| `LedgerTables.AfterRows` | firstislamiccoin-staking-service/staking.py:148-207 | After any events a deposit has a row for a coinstake if and only if it had it, or the coinstake had none and this deposit is the first whose output it was met to spend |
| `LedgerTables.ReportedIff` | firstislamiccoin-staking-service/staking.py:148-207 | A coinstake reported for an active deposit, and not credited yet, gets a row with that deposit if and only if it spends the funding output and no earlier deposit it was reported for has that output |
| `LedgerTables.StakedTwice` | firstislamiccoin-staking-service/staking.py:148-207 | A deposit that stakes twice, the second time with the output of the first coinstake: only the first is ever credited |
| `LedgerTables.Resume` | firstislamiccoin-staking-service/staking.py:148-207 | A pass that ended early is made up for by the next one, with the same rows in the same order |
| `Ledger.Pool.StatusForUser` | firstislamiccoin-staking-service/staking.py:217-248 | Principal and accrued rewards together are the worth of the active deposits |
| `Ledger.Pool.Withdraw` | firstislamiccoin-staking-service/staking.py:251-280 | It succeeds exactly if the amount is at most the worth of the active deposits and the node sends it; all active deposits of the user are then withdrawn, exactly the worth less the amount is forfeited, so nothing if and only if all was asked for, and nothing else changes |
| `Ledger.Pool.WithdrawReferral` | firstislamiccoin-staking-service/referral.py:150-172 | Exactly the open credits are paid, and exactly they are marked |
| `LedgerTables.BalanceIsWorth` | firstislamiccoin-staking-service/staking.py:217-241 | Summing rewards by row and by deposit is the same |
| `LedgerTables.WorthClosed` | firstislamiccoin-staking-service/staking.py:275-279 | Withdrawing moves exactly the worth of the active deposits of one user to the withdrawn ones |
| `LedgerTables.CreditedCashed` | firstislamiccoin-staking-service/referral.py:166-171 | Marking the credits of a referrer moves exactly their open credits to the paid ones |
| `Ledger.OneRewardEach` | firstislamiccoin-staking-service/staking.py:148-207 | No deposit is credited with more than one coinstake, because only spending its funding output counts |
| `Ledger.Run` | firstislamiccoin-staking-service/staking.py:111-280 | The pool goes through the tables that the operations determine, failing calls included, and in every one of them: payouts and forfeits of everybody add up to the worth of their withdrawn deposits, no coinstake or deposit is credited twice, fee and net are exact, referral payouts equal the paid credits, and a user causes a credit, never two, if and only if they were referred and the share of their first funded deposit is positive |

## Left out

* The byte layout of numbers, entries, keys and network addresses in a saved address
  manager: a file is a list of such items.
* Selecting an address to connect to (`Select_`, `GetEntries_`, `FindAddressEntry_`), which
  draws at random and changes nothing.
* Stopping the worker threads of the check queue, and the mutex itself: sections are steps.
* The best-block hash of the coin cache, allocation statistics and database batches.
* Finding a block by time, block files, and validation of blocks and transactions.
* Locating errors in a Bech32 string, the wallet's own Bech32 functions, whose decoder
  checks nothing, and that among the codes of this kind one was chosen that detects four
  errors within 89 characters, which was found by search.
* Minimal pushes and the encoding rules for signatures, and signature removal from the
  script.
* Transactions other than multi-signature ones, key derivation, the web pages, the HTTP
  interfaces, notifications and the database of the staking service.
* Ids, counters, heights and sizes that are far from the limits of their types are
  unbounded; where a limit can be reached it is modelled.
* A block index is created together with its link to its predecessor and its height.
- SelectTriedCollision: which waiting address is picked is an argument.
- Serialize: entries and bucket lists are values here; their order in the file, the
  versions and the key are in `AddrManFile`.
- Write: the file is a list of items; how an item is laid out in bytes is left open.
- Read: an item is there or not; failures inside the bytes of one are left out.
- Save: like `Write`, in items.
- InitData: nothing is said about the count of extra transactions. The hash under which a
  transaction is at hand is that of the transaction, and there are at most 65535 entries,
  as reading the message enforces. An object that failed before keeps its pool count, so
  that it may stop looking early; it is then only stated that the slots are as if only the
  first transactions at hand had been there.
- Finalize: signatures and scripts are paired one to one, as the proposal is made.
- EvalScript: opcodes other than pushes and the multi-signature check are refused.
- VerifyInput: witnesses are left out, and the flags are those of a script-hash spend with
  a null dummy.
- Encode: characters and group values are 32-bit vectors where the source has bytes; a
  group value above 31 is outside the source's table and gets the last character.
- AttributeRewards: transactions the node cannot produce are left out of the history.
