# A verified model of the bucket map and its neighbours

This project models the hardest parts of the repository in Dafny and proves what they
promise.

* **The bucket map** (`bucket_map/`) is a sharded hash map from public keys to a slot list
  and a ref count. Each shard has an open-addressed index with a bounded probe window and a
  random seed, and a family of data storages in which storage `i` has cells of `2^i`
  elements. Storages grow under a read lock into a pending slot that the next writer
  installs, and index entries are not rewritten when their storage doubles. The main result
  is that every run of every shard count reads like one plain map.
* **The Bloom filters** (`bloom/`): a sequential one, and a concurrent one made of
  `fetch_or` steps. Every interleaving ends with the bits of sequential adds.
* **Funding and transfers** (`bench-tps/`): a 4-ary payment tree that must come out even to
  the lamport (`Payments.dfy`, `Funding.dfy`), and a generator of transfers that must return
  every account to balance (`TransferChunks.dfy`, `TransferRounds.dfy`).
* **The publishing order** of crates (`ci/`) and **decimal printing** of token amounts
  (`account-decoder/`).

## How it is built

Storages, buckets, shard handles and the map itself are classes with arrays and fields that
their methods change in place (`BucketStorage.dfy`, `Bucket.dfy`, `BucketApi.dfy`,
`BucketMap.dfy`). Each method is proved against a function on values (`Storage.dfy`,
`Shard.dfy`, `ShardOps.dfy`, `BucketSpec.dfy`, `Growth.dfy`, `BucketInsert.dfy`,
`BucketOps.dfy`). The functions are then proved to keep the invariant `Shard.Inv` and to do
to the represented map what the same operation does to a plain map. `Shard.Represents`
relates a bucket to the plain map it stands for; it is defined by reading entries, without
reference to any operation. `WriteOutcomes.dfy` says of the locks alone when a write fails and
where it puts what it writes, and `IndexGrowth.dfy` how large a grown index is and when an
attempt at one fails.

Concurrency is modelled as state machines. `GrowProtocol.dfy` splits a grow into its two
published actions, in the order of the source, and lets any number of growers interleave
with each other and, between them, with writers. Panics are part of it: one under the read
lock ends the thread and may poison the mutex of the pending slots, one under the write lock
makes the lock dead. Runs go on after either. `GrowFailures.dfy` says when the assertion on
the counter fails and what a bucket does from then on, `GrowLiveness.dfy` what can hold a call
up, and `IndexRuns.dfy` that the live index only grows. `ShardedRuns.dfy` runs all shards of a
map at once, and `ShardBits.dfy` says which keys share a shard. `AtomicBloom.dfy` splits an add
into single `fetch_or` steps.

`MmapLayout.dfy` shows that the cells of a storage are faithfully laid out in a byte array.
`DataLeaks.dfy` answers which data cells are locked.

Hash functions are parameters of a configuration and nothing is assumed about them; uids of
different keys may collide. Random numbers, fees, rent, balances at the start and the update
function are arguments.

## Properties that do not hold, and exactly when they do

* Two `grow` calls that both build a storage between two writers make the assertion in
  `add_reallocation` fail (`GrowFailures.FailureFromStart`). A run fails it exactly in that
  case (`GrowFailures.FailsIffOverlap`). The counter is then jammed: nothing pending is
  installed any more, every later grow panics (`GrowFailures.JammedForGood`), and the first
  write that has to grow kills the lock (`GrowFailures.JammedWrite`). Every read
  that returns is still a read of the plain map of the writes, and the length is right even
  behind a dead lock.
* A resize is defined exactly when its storage has doubled at most once since the size in the
  request was reported (`Growth.ResizeDefinedIff`). `GrowFailures.StaleAfterTwoGrows` is a run
  that gets past that.
* Locked data cells are not always owned. Writing an empty list over a list of one element
  takes the in-place branch and leaves the cell locked for good
  (`DataLeaks.EmptyingLeaks`). In every run, read-locked grows included, the locked cells are
  exactly the owned ones if and only if no such write happened
  (`DataLeaks.LeaksIffEmptied`).
* Doubling a full data storage makes room for the next attempt if and only if the search
  window is at least two cells long (`BucketInsert.FullStorageDoubles`).
* The popcount sum in the conversion back from the atomic filter is the number of set bits if
  and only if the padding bits are clear (`BloomConversions.CountExactIffPaddingClear`). Every
  reachable filter has clear padding (`AtomicBlooms.RunKeepsInv`).

## Model

| member | source | states |
|---|---|---|
| `ShardedRuns.MapRunRefinesPlainMap` | bucket_map/src/bucket_map.rs:364-518 | for every power-of-two shard count and every interleaving of writers and growers on all shards, failed assertions and panics included, every read that returns equals looking the key up in one plain map to which the writes were applied in order |
| `ShardedRuns.MapRunKeepsInv` | bucket_map/src/bucket_map.rs:364-518 | every run keeps: each shard stands for exactly its part of the plain map |
| `ShardedRuns.MapStepKeepsInv` | bucket_map/src/bucket_map.rs:117-175 | a step on one shard changes the plain map in that shard's part only |
| `ShardedRuns.PartOp` | bucket_map/src/bucket_map.rs:144-175 | an operation commutes with splitting the map by shard and leaves all other parts alone |
| `ShardedRuns.PartEffect` | bucket_map/src/bucket_map.rs:144-175 | the same for what is left of an operation that panicked |
| `ShardedRuns.OpIsLocal` | bucket_map/src/bucket_map.rs:117-175 | every operation changes the plain map at its own key only, by a function of the old value there |
| `GrowProtocol.RunRefinesPlainMap` | bucket_map/src/bucket_api.rs:66-141 | for every run of one shard, with or without failed assertions, every read that returns gives the value in a plain map under the same writes, and bucket_len is the number of its keys |
| `GrowProtocol.RunKeepsInv` | bucket_map/src/bucket_api.rs:85-124 | whole runs keep the lock-discipline invariant together with the represented map, past failed assertions |
| `GrowProtocol.StepKeepsInv` | bucket_map/src/bucket_api.rs:85-124 | each single action of a grower or writer, in any interleaving, keeps it, also the action that panics; what can still be installed always stands for the live map |
| `GrowProtocol.AtMostOnePending` | bucket_map/src/bucket.rs:46-62 | with no grower at work the atomic counter equals the number of filled slots: at most one reallocation is pending and a writer that sees the counter finds it |
| `GrowProtocol.InstalledOk` | bucket_map/src/bucket_api.rs:85-99 | a writer waits for nothing but the read locks, its unwraps succeed, and the bucket it starts from stands for the same map as before |
| `GrowProtocol.SlotsStep` | bucket_map/src/bucket.rs:349-496 | counter and slots stay consistent under every step until the assertion fails, the mutex is poisoned only after that, and growers and a dead lock exclude each other |
| `GrowProtocol.ReadApiIsLookup` | bucket_map/src/bucket_api.rs:66-76 | read_value on a live lock and bucket_len in any state are lookup and size of the represented map, pending grow or not |
| `GrowFailures.FailsIffOverlap` | bucket_map/src/bucket.rs:46-62 | a run that leaves no grower half way fails the assertion exactly when more than one grow call built a storage between two writers |
| `GrowFailures.TwoBuiltMustFail` | bucket_map/src/bucket.rs:46-62 | once two storages are built with no writer between, no continuation lets all growers finish |
| `GrowFailures.TwoGrowersFail` | bucket_map/src/bucket.rs:46-62 | two growers that overlap, in every interleaving of their actions and those of further growers: when all are through, the assertion has failed |
| `GrowFailures.FailureFromStart` | bucket_map/src/bucket.rs:437-452 | a concrete run of five steps from a new map that fails the assertion |
| `GrowFailures.JammedForGood` | bucket_map/src/bucket.rs:48-61 | once the assertion has failed and a grower that was filling its slot is through, no writer installs anything and no grow call succeeds, in every further run |
| `GrowFailures.JammedWrite` | bucket_map/src/bucket.rs:498-510 | after that a write that needs no growth works as before on the live bucket; one that must grow does its first attempt, panics under the write lock and kills it |
| `GrowFailures.DeadForGood` | bucket_map/src/bucket_api.rs:85-99 | behind a dead lock nothing changes any more |
| `GrowFailures.StaleAfterTwoGrows` | bucket_map/src/bucket_storage.rs:319-326 | a run after which the capacities in a resize subtract to minus one: two grows of the same storage were installed since the size was reported; one does no harm |
| `Growth.ResizeDefinedIff` | bucket_map/src/bucket_storage.rs:319-326 | the subtraction of capacities stays in range if and only if the storage has doubled at most once since its size was reported |
| `DataLeaks.LeaksIffEmptied` | bucket_map/src/bucket.rs:268-331 | for every run of writers and growers from the start, every locked data cell has an owner if and only if no write put an empty slot list over a list of one element |
| `DataLeaks.RunTight` | bucket_map/src/bucket.rs:268-331 | the same from any reachable state, with what growers have built and published carried along |
| `DataLeaks.EmptyingLeaks` | bucket_map/src/bucket.rs:289-300 | a concrete run of two inserts that leaves a locked cell without owner |
| `DataLeaks.PerformLeaks` | bucket_map/src/bucket.rs:268-347 | an operation leaks a cell exactly when it empties a list of one in place, and no operation undoes a leak |
| `DataLeaks.InsertLeaks` | bucket_map/src/bucket.rs:498-510 | the same for the whole retry loop, growing included, returned or still running |
| `DataLeaks.TryWriteLeaks` | bucket_map/src/bucket.rs:268-331 | the same for one write attempt, whatever its outcome |
| `DataLeaks.UpdateInPlaceLeaks` | bucket_map/src/bucket.rs:292-300 | the in-place write leaks the cell exactly when the new list is empty |
| `DataLeaks.DeleteLeaks` | bucket_map/src/bucket.rs:333-347 | exactly the same cells are leaked after a delete as before |
| `DataLeaks.GrowDataLeaks` | bucket_map/src/bucket_storage.rs:320-342 | a grown storage has a leaked cell exactly when the old one had |
| `DataLeaks.NewIndexLeaks` | bucket_map/src/bucket.rs:349-412 | a rehashed index leaves the same cells leaked |
| `DataLeaks.CountIsOwnersIffNoLeak` | bucket_map/src/bucket_storage.rs:183-204 | the count of a data storage is at least the number of non-empty slot lists of its size class, and equal exactly when no cell of it is leaked |
| `DataLeaks.HasStorageZero` | bucket_map/src/bucket.rs:289-291 | data storage 0 exists whenever a key is present, so indexing it cannot fail |
| `BucketOps.PerformRefinesPlain` | bucket_map/src/bucket.rs:238-347 | insert, try_write, update, delete, addref and unref each keep the bucket invariant and do to the represented map what the same operation does to a plain one |
| `BucketOps.EmptyShardOk` | bucket_map/src/bucket.rs:80-103 | a new bucket has 32 free index cells and no data storage, satisfies the invariant and stands for the empty map |
| `BucketInsert.InsertRefinesMap` | bucket_map/src/bucket.rs:498-510 | however often it grew on the way, an insert that returns has set exactly its key; one still running has at most created the key and set its ref count |
| `BucketInsert.InsertChangesContents` | bucket_map/src/bucket.rs:498-510 | the same stated on the contents of the bucket before and after |
| `BucketInsert.InsertProgress` | bucket_map/src/bucket.rs:498-510 | with a search window of two or more, one insert grows data at most once, and writing to a present key returns within two rounds, for all random choices |
| `BucketInsert.RoomyInsert` | bucket_map/src/bucket.rs:302-330 | once the size class has room, no later round of the loop fails for lack of a data cell |
| `BucketInsert.RoomyWrite` | bucket_map/src/bucket.rs:302-330 | with room in its size class a write can fail for lack of index space only |
| `BucketInsert.GrowMakesRoom` | bucket_map/src/bucket.rs:437-452 | growing for a failed data search, or for a missing storage, always makes room |
| `BucketInsert.FullStorageDoubles` | bucket_map/src/bucket_storage.rs:320-338 | a full storage has a free cell in every probe window after doubling if and only if the window is two or more cells long |
| `BucketInsert.GrownHasFree` | bucket_map/src/bucket_storage.rs:320-338 | of two neighbouring cells of a grown storage one is odd-numbered and free, wrap-around included |
| `BucketInsert.GrowKeepsContents` | bucket_map/src/bucket.rs:469-480 | whatever grow builds, index or data, stands for the same map as the live bucket when installed |
| `BucketInsert.RoundCanGrow` | bucket_map/src/bucket.rs:498-510 | an error that try_write has just reported is never stale for the grow that follows it |
| `Growth.InstallDataStep` | bucket_map/src/bucket.rs:418-452 | installing a grown data storage keeps the invariant and the map |
| `Growth.EntrySurvivesGrow` | bucket_map/src/bucket.rs:418-452 | an index entry that is not rewritten still owns its cell and reads the same value after the grow |
| `Growth.ApartSurvivesGrow` | bucket_map/src/bucket.rs:418-452 | entries that owned different cells own different cells after the grow |
| `Growth.GrowDataOk` | bucket_map/src/bucket_storage.rs:349-374 | a grown storage has the right shape and its count is still its number of locked cells |
| `Growth.RehashOk` | bucket_map/src/bucket.rs:349-407 | a copied index has unique keys, each in its own window under the new seed with its uid, exactly the old entries, and the same count |
| `Growth.RehashFindsSame` | bucket_map/src/bucket.rs:349-412 | lookup in the new index finds every key with its entry unchanged, and nothing else |
| `Growth.InstallIndexStep` | bucket_map/src/bucket.rs:349-412 | installing a rehashed index keeps the invariant and the map |
| `BucketSpec.TryWriteRefinesMap` | bucket_map/src/bucket.rs:268-331 | success sets the value; a missing data storage or a full index window changes nothing; a failed data search sets the ref count of this key only, creating it empty if absent; error payloads are the sizes at the time |
| `BucketSpec.OpenEntryStep` | bucket_map/src/bucket.rs:268-288 | find-or-create gives the one entry of the key inside its window with the new ref count; when it fails is `WriteOutcomes.SearchEndsIff` |
| `BucketSpec.WriteSlotsStep` | bucket_map/src/bucket.rs:289-331 | writing slots in place or into a free cell changes the value of one key; a failed search changes nothing |
| `BucketSpec.WriteSlotsMoves` | bucket_map/src/bucket.rs:302-331 | the order of actions in the source (redirect, free, lock, fill) ends in the same state as release-then-claim, and none of its uid checks can fail |
| `BucketSpec.OwnedCell` | bucket_map/src/bucket.rs:289-347 | a non-empty entry owns an in-range cell of its size class, locked with its uid and large enough, so free and unlock cannot fail |
| `BucketSpec.DeleteRefinesMap` | bucket_map/src/bucket.rs:333-347 | delete removes exactly its key from the map |
| `BucketSpec.DeleteUnlocks` | bucket_map/src/bucket.rs:333-347 | delete unlocks the index cell of the key and the data cell its entry owned, and both counts go down by one |
| `BucketSpec.ChangeRefRefinesMap` | bucket_map/src/bucket.rs:238-256 | addref and unref change the ref count of a present key only and return the new count |
| `ShardOps.FindEntryComplete` | bucket_map/src/bucket.rs:145-201 | the bounded probe finds exactly the cell that holds the key, whatever holes deletes left |
| `ShardOps.ProbeSound` | bucket_map/src/bucket.rs:184-201 | a probe that finds nothing has seen every cell of its range |
| `ShardOps.ReadIsLookup` | bucket_map/src/bucket.rs:258-262 | reading a key is looking it up in the represented map |
| `ShardOps.ChangeOne` | bucket_map/src/bucket.rs:268-331 | changing one entry and its cell, with all others framed, keeps the invariant and changes the map at one key |
| `ShardOps.OthersUnaffected` | bucket_map/src/bucket.rs:268-331 | a change of one data cell leaves every entry that owns another cell with its cell and its value |
| `ShardOps.OthersElsewhere` | bucket_map/src/bucket.rs:268-331 | no other entry owns the cell of an entry, though uids may collide |
| `ShardOps.CreateEntryStep` | bucket_map/src/bucket.rs:203-236 | a new key gets an empty slot list and ref count zero; keys stay unique |
| `ShardOps.SetRefCountStep` | bucket_map/src/bucket.rs:279-288 | setting a ref count changes nothing else |
| `ShardOps.UpdateInPlaceStep` | bucket_map/src/bucket.rs:293-300 | an in-place update keeps the cell, also when the new list is empty, and changes one value |
| `ShardOps.ReleaseStep` | bucket_map/src/bucket.rs:302-331 | releasing a cell empties one slot list and unlocks one cell locked with the right uid |
| `ShardOps.ClaimStep` | bucket_map/src/bucket.rs:302-331 | claiming a free cell gives one entry its new slots |
| `ShardOps.MoveIsReleaseThenClaim` | bucket_map/src/bucket.rs:302-331 | redirect-free-fill equals release-then-claim |
| `ShardOps.RemoveStep` | bucket_map/src/bucket.rs:333-347 | removing an entry removes one key and keeps the invariant with the hole it leaves |
| `Shard.CountIsKeyCount` | bucket_map/src/bucket_storage.rs:183-204 | the index count is the number of distinct keys and the size of the map |
| `Shard.RepresentsUnique` | bucket_map/src/bucket_map.rs:364-518 | a bucket stands for at most one map |
| `Shard.ContentsRepresented` | bucket_map/src/bucket_map.rs:364-518 | a good bucket stands for the map of its contents |
| `Shard.EntryReadable` | bucket_map/src/index_entry.rs:97-111 | the cell of an entry exists and is long enough for its slot list |
| `IndexEntry.SizeClassIsLeast` | bucket_map/src/index_entry.rs:61-77 | data_bucket_from_num_slots is the least k with 2^k at least n |
| `IndexEntry.DataLocInRange` | bucket_map/src/index_entry.rs:91-95 | a location is always inside the storage |
| `IndexEntry.DataLocAfterGrow` | bucket_map/src/index_entry.rs:91-95 | after growing from 2^p to 2^q cells the unchanged offset names exactly the cell to which the bytes were copied |
| `IndexEntry.DataLocStaysDistinct` | bucket_map/src/index_entry.rs:91-95 | different cells stay different under growth |
| `Storage.FirstFreeSound` | bucket_map/src/bucket.rs:302-330 | a search names a free cell inside the window and fails only on a full window; the converse is `Storage.FirstFreeIff` |
| `Storage.OffsetOfSlot` | bucket_map/src/bucket.rs:160-182 | a cell seen after j steps of a wrapped probe lies within j of the home cell |
| `Storage.SlotOfOffset` | bucket_map/src/bucket.rs:160-182 | every cell within the window is seen by the probe |
| `Storage.SpreadAt` | bucket_map/src/bucket_storage.rs:320-338 | cell i is copied to cell i * 2^increment |
| `Storage.SpreadCount` | bucket_map/src/bucket_storage.rs:320-338 | copying keeps the number of locked cells |
| `Storage.LockedSetUpdate` | bucket_map/src/bucket_storage.rs:185-204 | locking or unlocking one cell changes the number of locked cells by one |
| `BucketMaps.BucketMap.constructor` | bucket_map/src/bucket_map.rs:59-103 | a map with a power-of-two number of shards stands for the empty map |
| `BucketMaps.BucketMap.ReadValue` | bucket_map/src/bucket_map.rs:117-119 | the read goes to the right shard and is a lookup in the whole map |
| `BucketMaps.BucketMap.DeleteKey` | bucket_map/src/bucket_map.rs:122-124 | the whole map loses exactly this key; only objects of its shard are modified |
| `BucketMaps.BucketMap.Insert` | bucket_map/src/bucket_map.rs:127-129 | the whole map gains exactly this value; only objects of the key's shard are modified; a panic needs a jammed shard and kills that shard's lock only |
| `BucketMaps.BucketMap.TryInsert` | bucket_map/src/bucket_map.rs:132-134 | the effect on the whole map is told from the error alone |
| `BucketMaps.BucketMap.Update` | bucket_map/src/bucket_map.rs:137-142 | the whole map changes at this key by the given function; only objects of its shard are modified |
| `BucketMaps.BucketMap.AddRef` | bucket_map/src/bucket_map.rs:163-167 | one ref count of the whole map goes up by one, if the key is there |
| `BucketMaps.BucketMap.Unref` | bucket_map/src/bucket_map.rs:170-174 | one ref count of the whole map goes down by one, if the key is there |
| `BucketMaps.BucketMap.StandsForOne` | bucket_map/src/bucket_map.rs:144-160 | the shards together stand for one map only |
| `BucketMaps.BucketMap.Reassembled` | bucket_map/src/bucket_map.rs:144-160 | when one shard has changed at one key, all shards together stand for the map changed at that key |
| `BucketMaps.BucketMap.OthersStay` | bucket_map/src/bucket_map.rs:144-160 | a call that touched no object of the other shards leaves them standing for what they stood for |
| `BucketApis.BucketApi.constructor` | bucket_map/src/bucket_api.rs:29-42 | a handle starts with no bucket and stands for the empty map |
| `BucketApis.BucketApi.ReadValue` | bucket_map/src/bucket_api.rs:66-72 | lookup in the map of the handle; nothing is found before the first write |
| `BucketApis.BucketApi.BucketLen` | bucket_map/src/bucket_api.rs:74-76 | the shared counter is the number of keys |
| `BucketApis.BucketApi.GetWriteBucket` | bucket_map/src/bucket_api.rs:85-99 | creates the bucket or installs what is pending, or nothing when the counter is jammed; the map stays the same |
| `BucketApis.BucketApi.Insert` | bucket_map/src/bucket_api.rs:113-116 | the map changes at one key, or not yet when the random choices ran out; it panics only on a jammed bucket, and then the lock is dead |
| `BucketApis.BucketApi.TryWrite` | bucket_map/src/bucket_api.rs:134-141 | which of the three effects a write had is told from its result |
| `BucketApis.AttemptEffect` | bucket_map/src/bucket.rs:268-331 | a data error with capacity zero means nothing changed, any other data error means the ref count was set |
| `BucketApis.BucketApi.DeleteKey` | bucket_map/src/bucket_api.rs:78-83 | the map loses one key |
| `BucketApis.BucketApi.Update` | bucket_map/src/bucket_api.rs:126-132 | the map changes at one key by the given function; it panics only on a jammed bucket |
| `BucketApis.BucketApi.AddRef` | bucket_map/src/bucket_api.rs:101-105 | one ref count goes up |
| `BucketApis.BucketApi.Unref` | bucket_map/src/bucket_api.rs:107-111 | one ref count goes down |
| `BucketApis.BucketApi.Grow` | bucket_map/src/bucket_api.rs:118-124 | under the read lock only slots and counter change; the live bucket and the map stay, also when the call panics |
| `Buckets.Bucket.constructor` | bucket_map/src/bucket.rs:80-103 | an empty index of 32 cells and no data storage: the empty map |
| `Buckets.Bucket.FindEntryMut` | bucket_map/src/bucket.rs:145-182 | one pass ends at the cell of the key; if there is none, at the first free cell of the window, which starts at the hash of uid and seed modulo the capacity; or reports full, exactly when no cell of the window is free |
| `Buckets.Bucket.FindEntry` | bucket_map/src/bucket.rs:184-201 | the loop gives the probe of the specification |
| `Buckets.Bucket.EntryRead` | bucket_map/src/index_entry.rs:97-111 | the value of an entry is read from the cell it owns |
| `Buckets.Bucket.ReadValue` | bucket_map/src/bucket.rs:258-262 | reading is a lookup in the contents |
| `Buckets.Bucket.OpenEntry` | bucket_map/src/bucket.rs:268-288 | finds or creates the entry and sets its ref count |
| `Buckets.Bucket.Relocate` | bucket_map/src/bucket.rs:302-331 | redirects the entry, frees the old cell, fills the new one |
| `Buckets.Bucket.UpdateInPlace` | bucket_map/src/bucket.rs:293-300 | overwrites the cell in place |
| `Buckets.Bucket.FindFreeData` | bucket_map/src/bucket.rs:302-311 | first free cell of the wrapped window from a random start |
| `Buckets.Bucket.WriteSlots` | bucket_map/src/bucket.rs:289-331 | in place when the size class stays, otherwise a move |
| `Buckets.Bucket.TryWrite` | bucket_map/src/bucket.rs:268-331 | one write attempt; the index error comes exactly when the key is absent and its window is full, the data error exactly when the write got past that, is not in place, and every data cell it may look at is locked |
| `Buckets.Bucket.DeleteKey` | bucket_map/src/bucket.rs:333-347 | frees data cell and index cell of the key |
| `Buckets.Bucket.AddRef` | bucket_map/src/bucket.rs:238-246 | ref count up by one, new count returned |
| `Buckets.Bucket.Unref` | bucket_map/src/bucket.rs:248-256 | ref count down by one, new count returned |
| `Buckets.Bucket.AddReallocation` | bucket_map/src/bucket.rs:48-54 | the counter goes up, and the call panics exactly when it was not zero |
| `Buckets.CreateKey` | bucket_map/src/bucket.rs:203-236 | takes the first free cell of the key's window without counting it again |
| `Buckets.RehashInto` | bucket_map/src/bucket.rs:362-399 | one attempt at a larger index gives the rehash of the specification; a failed one leaves no trace |
| `Buckets.BuildIndex` | bucket_map/src/bucket.rs:349-407 | gives the index of the first seed that fits, with one doubling more per seed; none exactly when no seed fits |
| `Buckets.BuildResized` | bucket_map/src/bucket_storage.rs:349-374 | a larger copy that shares the counter of the storage it replaces |
| `Buckets.Bucket.GrowIndex` | bucket_map/src/bucket.rs:349-407 | a stale size does nothing and leaves nothing pending; otherwise the call returns with a pending index that is larger and has a free cell, runs on exactly when no seed fits, or, with a reallocation already there, jams the counter and panics; the live bucket is untouched |
| `Buckets.Bucket.GrowData` | bucket_map/src/bucket.rs:439-452 | the larger data storage is pending, or the counter jams and the call panics; a size stale by more than one doubling panics in the subtraction; the live bucket is untouched |
| `Buckets.Bucket.Grow` | bucket_map/src/bucket.rs:469-480 | how each grow request ends, and what it leaves pending, from any valid bucket |
| `Buckets.Bucket.ApplyGrowIndex` | bucket_map/src/bucket.rs:409-412 | index and seed are replaced together |
| `Buckets.Bucket.ApplyGrowData` | bucket_map/src/bucket.rs:418-435 | replaces a storage, or appends it after new empty ones for the size classes between |
| `Buckets.Bucket.HandleDelayedGrows` | bucket_map/src/bucket.rs:483-496 | installs the pending storage, if any, and nothing on a jammed bucket; the contents stay the same |
| `Buckets.Bucket.Insert` | bucket_map/src/bucket.rs:498-510 | the retry loop of the specification on the objects; on a jammed bucket one attempt and then a panic if it must grow |
| `Buckets.JammedInsertChangesContents` | bucket_map/src/bucket.rs:498-510 | an insert on a jammed bucket sets its key, or leaves the map as it was or with the new ref count only |
| `Buckets.Bucket.Update` | bucket_map/src/bucket.rs:512-524 | replaces or removes the value of a key by a function of the present one |
| `Buckets.Bucket.Keys` | bucket_map/src/bucket.rs:105-115 | every key of the map exactly once, as many as the count says |
| `Buckets.Bucket.ItemsInRange` | bucket_map/src/bucket.rs:117-139 | every item with its key in range exactly once, with its value; without a range as many as the count says |
| `BucketStorages.BucketStorage.constructor` | bucket_map/src/bucket_storage.rs:99-119 | a new storage has all cells unlocked |
| `BucketStorages.BucketStorage.IsFree` | bucket_map/src/bucket_storage.rs:172-177 | free means header zero |
| `BucketStorages.BucketStorage.Allocate` | bucket_map/src/bucket_storage.rs:185-197 | locks a free cell and counts it unless resizing; a taken cell is left alone |
| `BucketStorages.BucketStorage.Free` | bucket_map/src/bucket_storage.rs:199-204 | unlocks one cell and counts down |
| `BucketStorages.BucketStorage.CopyContents` | bucket_map/src/bucket_storage.rs:320-342 | the copy loop gives exactly the spread of the old cells |
| `KeyShards.BucketIxInRange` | bucket_map/src/bucket_map.rs:153-160 | every key has a valid shard |
| `KeyShards.BucketIxMonotone` | bucket_map/src/bucket_map.rs:153-160 | shards follow the lexicographic order of keys, so each holds an interval |
| `KeyShards.Log2OfPow2` | bucket_map/src/bucket_map.rs:93-100 | the log2 in the constructor recovers the exponent of every power of two |
| `KeyShards.BeValueMono` | bucket_map/src/bucket_map.rs:178-181 | the big-endian number of the first bytes is monotone in their lexicographic order |
| `MmapLayout.WordRoundTrip` | bucket_map/src/bucket_storage.rs:145-163 | a header word that fits is read back as written |
| `MmapLayout.OtherCellsKept` | bucket_map/src/bucket_storage.rs:145-163 | a change of bytes inside one cell leaves every other decoded cell as it was |
| `MmapLayout.SliceEffect` | bucket_map/src/bucket_storage.rs:252-263 | writing a slice changes the first bytes of one payload, not its header |
| `MmapLayout.ZeroFile` | bucket_map/src/bucket_storage.rs:265-317 | a file of zero bytes is a storage of unlocked cells |
| `MmapLayout.SliceFits` | bucket_map/src/bucket_storage.rs:99-119 | a slot list of n elements and the header fit into a cell of its size class |
| `MmapLayout.Mmap.constructor` | bucket_map/src/bucket_storage.rs:99-119 | the file has room for all cells, each the element size times elements plus eight bytes; all cells are unlocked |
| `MmapLayout.Mmap.ReadHeader` | bucket_map/src/bucket_storage.rs:145-154 | reads the lock of one cell |
| `MmapLayout.Mmap.WriteHeader` | bucket_map/src/bucket_storage.rs:156-163 | changes one lock and nothing else, and no byte outside the eight of that header |
| `MmapLayout.Mmap.ReadSlice` | bucket_map/src/bucket_storage.rs:226-238 | reads the first bytes of one payload, which starts eight bytes into its cell |
| `MmapLayout.Mmap.WriteSlice` | bucket_map/src/bucket_storage.rs:252-263 | overwrites the first bytes of one payload and no other byte of the file |
| `MmapLayout.Mmap.CopyContents` | bucket_map/src/bucket_storage.rs:320-342 | copying bytes gives the spread of the decoded cells, header and payload |
| `AtomicBlooms.ConcurrentIsSequential` | bloom/src/bloom.rs:177-187 | however fetch_or steps of concurrent adds interleave, when all have returned the words decode to the bits of sequential adds of the same keys in any order |
| `AtomicBlooms.FinishedStaysContained` | bloom/src/bloom.rs:177-195 | once an add has finished its key tests positive in every later state |
| `AtomicBlooms.EachBitClaimedOnce` | bloom/src/bloom.rs:177-187 | every bit turned on was seen as new by exactly one fetch_or, and an add returns true exactly when one of those was its own |
| `AtomicBlooms.RunKeepsInv` | bloom/src/bloom.rs:166-187 | every state of every run: set bits are the initial ones and those reached so far, padding clear, claims exact |
| `AtomicBlooms.StepKeepsInv` | bloom/src/bloom.rs:177-187 | each begin or fetch_or keeps it |
| `AtomicBlooms.FetchOrSetsBit` | bloom/src/bloom.rs:166-187 | one fetch_or sets one bit and the old word tells whether it was clear |
| `Blooms.Bloom.constructor` | bloom/src/bloom.rs:66-74 | all bits clear, count zero, for any number of bits, zero included |
| `Blooms.Bloom.Clear` | bloom/src/bloom.rs:106-109 | all bits clear, count zero, length kept |
| `Blooms.Bloom.Add` | bloom/src/bloom.rs:110-118 | bit i is set afterwards exactly when it was before or some hash of the key is i modulo the number of bits; the count stays the number of set bits and never saturates |
| `Blooms.Bloom.Contains` | bloom/src/bloom.rs:119-127 | true exactly when for every hash of the key the bit at its remainder is set |
| `Blooms.AddedInTurnBits` | bloom/src/bloom.rs:110-118 | the bits after sequential adds are those before and those of every key |
| `Blooms.OrderDoesNotMatter` | bloom/src/bloom.rs:110-118 | order and repetition of adds do not matter |
| `BloomConversions.PackDecodes` | bloom/src/bloom.rs:149-163 | packing into words keeps every bit and leaves the padding clear |
| `BloomConversions.CountExactIffPaddingClear` | bloom/src/bloom.rs:204-221 | the sum of popcounts is the number of set bits if and only if the padding is clear |
| `BloomConversions.SumIsCount` | bloom/src/bloom.rs:204-221 | the sum of popcounts is the number of set bits of all words |
| `BloomConversions.AtomicBloom.FromBloom` | bloom/src/bloom.rs:149-163 | same bits |
| `BloomConversions.AtomicBloom.SetBit` | bloom/src/bloom.rs:177-187 | one bit set, and whether it was new |
| `BloomConversions.AtomicBloom.Add` | bloom/src/bloom.rs:177-187 | run alone, bit i is set afterwards exactly when it was before or some hash of the key is i modulo the number of bits; returns true exactly when the key did not test positive before |
| `BloomConversions.AtomicBloom.Contains` | bloom/src/bloom.rs:189-195 | true exactly when for every hash of the key the bit at its remainder is set |
| `BloomConversions.AtomicBloom.ToBloom` | bloom/src/bloom.rs:204-221 | same bits and length, count equal to the set bits |
| `BloomConversions.RoundTrip` | bloom/src/bloom.rs:149-221 | there and back with any sequential adds between gives the filter that sequential adds give; with none, the same filter |
| `BloomConversions.ConcurrentRoundTrip` | bloom/src/bloom.rs:149-221 | the same with any concurrent run of adds between the conversions: the bits of sequential adds in any order, and a count equal to the set bits |
| `Funding.GenerateAndFund` | bench-tps/src/bench.rs:996-1013 | for every count asked for, the least full forest is generated and, when needed, every account of it gets exactly its share, rent included; the first count of them are returned |
| `Funding.FundKeypairs` | bench-tps/src/bench.rs:1015-1085 | funding happens exactly when the first or the last account has less than four fifths of its share; then every account gets its share, a source that was short of total and rent ends with rent and share, any other pays the total less its share, and nobody else is touched |
| `Funding.FundKeys` | bench-tps/src/send_batch.rs:58-97 | returns the payments made: applied in order they give the final balances, each payer has the money when it pays, was paid before and pays once, the payees are a permutation of the accounts; no underflow, exact divisions; source and accounts end with exactly their share |
| `Funding.FundRound` | bench-tps/src/send_batch.rs:72-96 | one round of the loop goes from n levels left to n - 1, and the last one leaves nobody unfunded |
| `Funding.GenerateKeypairs` | bench-tps/src/send_batch.rs:42-56 | the least full 4-ary forest with at least count accounts, and its number of payers |
| `Funding.NeedSplits` | bench-tps/src/send_batch.rs:72-76 | after its share and one fee a payer has exactly four times what each payee needs |
| `Funding.Plan` | bench-tps/src/send_batch.rs:77-84 | each funder pays the last four accounts not yet funded; together the payees are the drained tail |
| `Funding.Settle` | bench-tps/src/send_batch.rs:85-96 | carrying out a plan never asks a payer for more than it has, and gives the balances of the payments in order |
| `Payments.Transfer` | bench-tps/src/send_batch.rs:353-383 | one transaction takes the fee and the same amount per payee from the payer |
| `Funding.RoundKeepsLevel` | bench-tps/src/send_batch.rs:72-96 | after a round one level less is to go, with the payments of the round on the ledger |
| `Funding.FundingEnds` | bench-tps/src/send_batch.rs:72-97 | when nobody is left to fund, every account has exactly its share more |
| `Funding.PaidOnceMore` | bench-tps/src/send_batch.rs:77-84 | across rounds no account is paid twice and no payer pays twice |
| `Funding.BookedMore` | bench-tps/src/send_batch.rs:72-97 | across rounds the payments in order give the balances and each had cover |
| `TransferChunks.TwoPassesBalance` | bench-tps/src/bench.rs:207-222 | after every two full passes each account is back at its balance, for any chunk count, size and conflict groups |
| `TransferChunks.GenerateChunkedTransfers` | bench-tps/src/bench.rs:271-318 | the loop of generating, sending and advancing leaves every balance up by its net gain, and unchanged after an even number of passes |
| `TransferChunks.EvenPassesBalance` | bench-tps/src/bench.rs:207-222 | by rounds: a whole and even number of passes leaves every account even |
| `TransferChunks.SourceAccount` | bench-tps/src/bench.rs:207-222 | at every point of a run a source account is even or one lamport down |
| `TransferChunks.DestAccount` | bench-tps/src/bench.rs:207-222 | at every point a destination is even or up by its multiplicity in its chunk, despite all rotations |
| `TransferChunks.NetIsExpected` | bench-tps/src/bench.rs:207-222 | what has moved is exactly what the chunks that are out account for |
| `TransferChunks.Position` | bench-tps/src/bench.rs:207-222 | round t works on chunk t mod n, forward in even passes and backward in odd ones |
| `TransferChunks.GainOfPairs` | bench-tps/src/bench.rs:519-523 | a forward round moves one lamport per pair, a reclaim round is its exact opposite |
| `TransferChunks.NewWithConflictGroups` | bench-tps/src/bench.rs:87-107 | chunks are the accounts in order, half sources, half destinations repeated over g accounts; the remainder is dropped |
| `TransferChunks.ChunkCountIsQuotient` | bench-tps/src/bench.rs:94-95 | the number of whole chunks is the quotient |
| `TransferChunks.TransactionChunkGenerator.constructor` | bench-tps/src/bench.rs:124-152 | starts at the first chunk, forward; it has chunks to work on exactly when there are accounts for one |
| `TransferChunks.TransactionChunkGenerator.Generate` | bench-tps/src/bench.rs:154-205 | pairs up the current chunk in the current direction |
| `TransferChunks.TransactionChunkGenerator.Advance` | bench-tps/src/bench.rs:207-222 | rotates, moves on, and turns round at the end of a pass |
| `PublishOrder.GetPackages` | ci/order-crates-for-publishing.py:35-72 | fails exactly when the packages have a dependency cycle; otherwise prints every package once after all its dependencies, layer by layer and in the given order within a layer |
| `PublishOrder.OrderLayers` | ci/order-crates-for-publishing.py:48-72 | the loop alone fails exactly on cycles, so the n * n bound is never reached without one; the order is the layered one |
| `PublishOrder.Layer` | ci/order-crates-for-publishing.py:59-69 | one pass splits what is left into ready and waiting packages, each in the given order |
| `PublishOrder.FindDirectCycle` | ci/order-crates-for-publishing.py:35-46 | finds exactly pairs that depend on each other and packages that depend on themselves |
| `PublishOrder.StuckHasCycle` | ci/order-crates-for-publishing.py:59-69 | a pass that can remove nothing has met a cycle |
| `PublishOrder.CycleSurvives` | ci/order-crates-for-publishing.py:59-69 | removing packages that wait for nobody keeps every cycle |
| `PublishOrder.OutOfPasses` | ci/order-crates-for-publishing.py:50-57 | using up all passes with packages left means there is a cycle |
| `DecimalStrings.PrintsExactly` | account-decoder/src/parse_token.rs:200-211 | the printed string, read back, is exactly amount over ten to the decimals, with no needless zero in front |
| `DecimalStrings.TrimmedIsExact` | account-decoder/src/parse_token.rs:213-220 | trimming keeps the value and leaves no needless zero in front, no trailing zero and no dangling point |
| `DecimalStrings.TrimmedIsShortest` | account-decoder/src/parse_token.rs:213-220 | no decimal of equal value has fewer fraction digits |
| `DecimalStrings.PrintingInjective` | account-decoder/src/parse_token.rs:200-211 | different amounts print differently |
| `DecimalStrings.TrimmedInjective` | account-decoder/src/parse_token.rs:213-220 | different amounts print differently after trimming |
| `DecimalStrings.ReadUnique` | account-decoder/src/parse_token.rs:200-220 | a printed string can be read in one way only |
| `Storage.FirstFreeIff` | bucket_map/src/bucket.rs:302-330 | a search fails exactly when every cell of its window is locked, and else ends at the first free one |
| `WriteOutcomes.SearchEndsIff` | bucket_map/src/bucket.rs:145-182 | the search for a key to write ends at its cell, at the first free cell of its window if it is absent, or as full exactly when it is absent and the whole window is locked; the window starts at the hash of uid and seed modulo the capacity, the uid being the hash of the key or one |
| `WriteOutcomes.OpenEntryIs` | bucket_map/src/bucket.rs:279-288 | the entry opened is that cell; a new entry is empty, has the ref count given, and is counted once |
| `WriteOutcomes.WriteSlotsIs` | bucket_map/src/bucket.rs:289-330 | in place the write cannot fail and the entry keeps its cell; otherwise it fails exactly on a full data window, and the entry names the first free cell, which is locked with the uid and starts with the slots |
| `WriteOutcomes.TryWriteErrorIff` | bucket_map/src/bucket.rs:268-331 | of a map and the locks alone: when a write attempt reports a full index, when it reports full data, and when it succeeds, each if and only if |
| `WriteOutcomes.TryWritePlaces` | bucket_map/src/bucket.rs:268-331 | a write changes one index cell only, the one its search ended at, and where it puts entry and slots |
| `IndexGrowth.RehashOneMore` | bucket_map/src/bucket.rs:203-236 | each key copied goes unchanged into the first free cell of its window in the new index; the copy fails exactly when that window is full |
| `IndexGrowth.RehashFailsIff` | bucket_map/src/bucket.rs:369-393 | an attempt fails exactly when some key finds its whole window taken by the keys copied before it |
| `IndexGrowth.GrowIndexIsFirstFit` | bucket_map/src/bucket.rs:349-407 | a grown index is that of the first seed that fits, with capacity exponent one more than the old plus the number of seeds tried before; none only when no seed fits |
| `IndexGrowth.GrownIndexHasFree` | bucket_map/src/bucket.rs:349-407 | a grown index has at least twice the cells, and one of them is free |
| `IndexGrowth.StaleIff` | bucket_map/src/bucket.rs:349-350 | a grow request is stale exactly when it names another index size than the present one |
| `IndexGrowth.InsertIndexErrorsRise` | bucket_map/src/bucket.rs:498-510 | in one insert every index error names a larger capacity than all index errors before it |
| `IndexGrowth.InsertStops` | bucket_map/src/bucket.rs:498-510 | an insert stops only when it has written, its random choices are used up, or no seed of a round fits |
| `IndexRuns.StepCapacity` | bucket_map/src/bucket.rs:483-496 | no step shrinks the live index, what is pending is larger than it, and installing an index enlarges it |
| `IndexRuns.IndexNeverShrinks` | bucket_map/src/bucket.rs:409-416 | in every run of writers and growers the live index never shrinks, and it is larger after an index was installed |
| `IndexRuns.LaterIndexErrors` | bucket_map/src/bucket.rs:349-350 | over whole runs a later index error names no smaller capacity, and a larger one once an index was installed in between |
| `ShardBits.ReadsFirstWord` | bucket_map/src/bucket_map.rs:177-181 | the word read is the first eight bytes, the first one most significant |
| `ShardBits.BucketIxIsQuotient` | bucket_map/src/bucket_map.rs:153-160 | the shard of a key is the quotient of its first word by 2^(64-p) |
| `ShardBits.EveryShardHasKey` | bucket_map/src/bucket_map.rs:153-160 | every shard below 2^p has a key |
| `ShardBits.BucketIxNextBit` | bucket_map/src/bucket_map.rs:153-160 | doubling the number of shards appends the next bit of the key to its shard number |
| `ShardBits.SameShardIff` | bucket_map/src/bucket_map.rs:153-160 | two keys share a shard exactly when their first p bits agree |
| `AtomicBlooms.FetchOrStep` | bloom/src/bloom.rs:166-187 | one step of a concurrent add: the remainder of the hash gives word and mask, that bit is set and no other, and the call has added something if the bit was clear |
| `AtomicBlooms.CapacityCovers` | bloom/src/bloom.rs:142-163 | the words have room for all bits, and one word fewer would not |
| `Words.BitIsDigit` | bloom/src/bloom.rs:166-175 | bit i of a word is the parity of its quotient by 2^i |
| `DecimalStrings.ToDecimalLeads` | account-decoder/src/parse_token.rs:200-211 | decimal notation has no leading zero |
| `DecimalStrings.PrintedUnique` | account-decoder/src/parse_token.rs:200-211 | the printed string is the only one with its value, its number of decimals and no needless zero in front |
| `DecimalStrings.TrimmedUnique` | account-decoder/src/parse_token.rs:213-220 | the trimmed string is the only one with its value and no needless zero in front or at the end |
| `TransferRounds.DestAfter` | bench-tps/src/bench.rs:207-222 | after t rounds place i of a chunk holds the starting destination at i plus the uses of the chunk, modulo its size |
| `TransferRounds.RoundTransfers` | bench-tps/src/bench.rs:151-222 | who pays whom in transfer i of round t, in terms of the chunks at the start |
| `TransferRounds.RoundAccounts` | bench-tps/src/bench.rs:87-107 | the same in account numbers |
| `Growth.InstallDataIs` | bucket_map/src/bucket.rs:418-435 | installing a data storage changes no other; missing ones below it are added with 32 free cells each |
| `Growth.GrowDataIs` | bucket_map/src/bucket.rs:437-452 | a grown data storage has twice the capacity reported, or 32 cells when none was there |
| `GrowLiveness.SomeGrowerCanAct` | bucket_map/src/bucket.rs:349-407 | while growers are at work one of them can go on: the one that holds the mutex, or any if it is free |
| `GrowLiveness.GrowersCanFinish` | bucket_map/src/bucket.rs:437-452 | from every state growers can all finish by themselves, within two actions each |
| `GrowLiveness.WriterWaitsForGrowers` | bucket_map/src/bucket_api.rs:85-111 | a single write attempt, a delete and a change of references wait for growers and for nothing else |
| `GrowLiveness.InsertWaits` | bucket_map/src/bucket_api.rs:113-116 | an insert waits for growers and for its own loop |
| `GrowLiveness.UpdateGetsIn` | bucket_map/src/bucket_api.rs:113-116 | with a search window of two or more, an insert to a present key gets in and returns, for all random choices |
| `GrowLiveness.JammedStore` | bucket_map/src/bucket.rs:498-524 | on a jammed bucket an insert or update has one attempt: it returns if that succeeds, and kills the lock if the grow after it has built something |
| `GrowLiveness.UnrefPanics` | bucket_map/src/bucket.rs:248-256 | only an unref of a key with no references kills the lock, and it changes nothing |
| `GrowLiveness.DeadCalls` | bucket_map/src/bucket_api.rs:85-124 | behind a dead lock every call panics at once and changes nothing |
| `GrowLiveness.FailedIndexPoisons` | bucket_map/src/bucket.rs:394-399 | an index grow that fails at the counter ends its thread and poisons the mutex of the slots |
| `GrowLiveness.PoisonedForGood` | bucket_map/src/bucket.rs:394-399 | once that mutex is poisoned no run fills or empties a slot again |

## Left out

- BucketInsert.InsertRefinesMap: the loop of `insert` is run on a finite list of random choices, and an index grow on a finite list of seeds, because nothing bounds how often a random index fails to fit; what is still running when the list ends is stated too
- Buckets.Bucket.Insert: reports whether the loop returned within the given choices, for the same reason
- Buckets.Bucket.GrowData: a size that is too stale panics in the subtraction of capacities, as in a build with overflow checks; a build without them wraps around there, which is not modelled
- Buckets.Bucket.AddRef: requires that the 64-bit count does not overflow
- Buckets.Bucket.Unref: requires a positive count of a present key; the panic of the subtraction and the dead lock after it are modelled in `GrowProtocol`, the wrap-around of a build without overflow checks is not
- BucketApis.BucketApi.ReadValue: requires a lock that is not dead, like every call of the handle but `bucket_len`, because the source unwraps it; that nothing changes behind a dead lock is `GrowFailures.DeadForGood`
- GrowLiveness.UnrefPanics: the subtraction of a reference from zero panics, as in a build with overflow checks
- Blooms.Bloom.Add: requires at least one bit if there are hash keys, because the source takes a remainder by the number of bits
- IndexEntry.DataLocAfterGrow: offsets and capacities are unbounded; the packing of a 56-bit offset and an 8-bit capacity exponent into one word is not modelled
- Funding.FundKeys: lamports are unbounded; 64-bit overflow of the total is not modelled
- Funding.GenerateAndFund: requires at least one account, because the source indexes the first one; a failed airdrop and failed or retried transactions are not modelled
- PublishOrder.GetPackages: starts from the dependency lists; loading the metadata and the filter on package names are not modelled
- Files, memory maps, drives, temporary directories, statistics and timing of the bucket map
- Quality of hashing, and the probability that a random index seed fits
- `Bloom::random` with its floating-point sizing, `clear_for_tests`, serialization, the FNV hash itself
- Nonce accounts, signing, sending, retrying and reporting in `bench-tps`; funding of keypairs read from a file, which does not follow the 4-ary tree
- Floating-point amounts and the other parsers of `account-decoder`
- All other crates and scripts: thin wrappers, configuration and I/O drivers
