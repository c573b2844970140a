# Sophis: a model of the bridge, the store layer and the wallet's coin selection

This project models the stateful core of three parts of Sophis and proves what holds of every run of it.

- **The store layer** (`Cache`, `Database`, `DbKey`, `ByteOrder`, `Access`, `Interleaving`, `Clashes`, `SetAccess`,
  `SetInterleaving`, `SetClashes`, `Item`, `ItemInterleaving`, `Isolation`):
  typed stores that live under prefixes of one ordered key-value database, read and written through caches that evict
  random victims. The reference is a plain map, and the theorems compare whole runs with it, for every policy and every
  choice of victims: sequential runs, direct or batched, and runs in which the lock-protected sections of concurrent
  calls interleave.
- **The stratum bridge**: the ring of recent jobs and the walk back through it (`JobRing`), the guards against repeated
  shares and blocks (`Guards`, `DuplicateGuard`, `BlockSubmit`), the life of submitted shares as interleaved atomic steps
  (`SharePipeline`, `Residency`), difficulty retargeting (`VarDiff`), the CPU miner (`CpuMiner`, `NonceStriding`), line
  framing (`LineFraming`, `Utf8`), job encodings (`Hex`, `JobEncoding`) and extranonces (`Extranonce`).
- **The wallet's coin selection** (`CoinSelection`, `FeeRounds`, `FeeConvexity`, `FeeCover`): the fee loop and its rounds, the greedy
  selection and the transaction's change.

Objects that the code updates in place are classes, and each method is proved against a function or a step relation on
values. The theorems are about those: invariants of steps, and induction over runs of any length. Code that holds a lock
is one atomic step; the clock is a `nat` that need not advance between steps; eviction victims are arbitrary.

## Where the code does not do what one might expect

Each of these has an exact condition, and an instance where the condition alone does not show one.

- In a batch, a read that misses the cache while its row is staged fills the cache with the old row. The cache agrees
  with the pending database afterwards if and only if the two rows decode to the same answer (`Access.MissWhileStaged`,
  `Access.StaleAfterCommit`, and `SetAccess.MissWhileStaged` for sets).
- A call of `CachedDbAccess` locks the cache and the database in separate sections, and sections of another call in
  between can leave a cached pair that is not stored: a whole change between a reader's fetch and its fill
  (`Clashes.FetchChangeFill`), a whole write between the two sections of another write or a delete
  (`Clashes.WriteInside`), a whole read between those of a delete (`Clashes.ReadInside`). Two calls can end so if and only
  if their kinds clash, a read with any change or a write with another write or a delete, and the cache has room for some
  value (`Clashes.StaleIffKindsClash`). Any number of calls that do not clash leave every cached pair stored, however
  their sections interleave (`Clashes.ClashFreeAgrees`). If no section of a conflicting call comes in between, every
  interleaving answers as a plain map (`Interleaving.InterleavedRunRefines`).
- For `CachedDbSetAccess` the clashes are a read with any change of its set, and adding with removing the same member:
  two calls can leave a cached set that is not stored if and only if they clash and the cache has room for what that
  takes (`SetClashes.StaleIffClash`). All other changes interleave freely (`SetInterleaving.InterleavedRunRefines`).
- Clones of a `CachedDbItem` share its cached cell, and only an update holds its lock until the row is written: two calls
  can leave a cached item that is not stored if and only if they are of different kinds or both writes
  (`ItemInterleaving.StaleIffKindsClash`).
- `DbKey` counts the key into its prefix length, so that for a full key the length is that of the whole path
  (`DbKeys.DbKey.NewWithBucket`, `DbKeys.DbKey.AddKey`).
- Buckets of different lengths can share rows exactly when one is a prefix of the other (`DbKeys.BucketPathCollision`).
- The walk back from job id 0 overflows exactly when slot 0 holds a job that misses both targets, which takes 300 issued
  jobs (`JobRing.MiningState.WalkBack`, `JobRing.SlotOfZero`, `JobRing.OverflowInstance`); the build keeps overflow checks
  on in release.
- A verdict that arrives after its residency ended is written to the residency that replaced it, unless the key is gone
  or already carries that verdict (`Residency.LateVerdict`, `Residency.LateVerdictExample`).
- An expired entry can outlive the time to live behind a refreshed one; `DuplicateGuard.NoneExpiredIff` says when
  and `DuplicateGuard.ExpiredBehindFresh` gives the calls that lead there.
- Unmarking a block leaves its hash in the queue, and that stale position can take a later mark of the same hash with it
  before older marks (`BlockSubmit.StalePositionDropsLaterMark`); `Guards.PrunedExactly` says what goes.
- Retargeting can stay outside its band at the floor of 1, exactly when the step to the floor is below the 10 % threshold
  (`VarDiff.StuckAtFloorIff`, `VarDiff.StuckAtFloorInstance`); with an ideal below 1 every run ends in the band or there
  (`VarDiff.LowRunsEnd`, `VarDiff.RestIsFinal`).
- The VarDiff thread reads the shares of a window and resets them in separate sections: a new window holds exactly the
  shares found since it starts if and only if none was found in between, and a difficulty set in between is overwritten
  (`VarDiff.WindowSinceLookIff`).
- Threads of the CPU miner never share a nonce if and only if their number is a power of two
  (`NonceStriding.NeverShareIff`); before wrap-around, if and only if it is coprime to the seed stride
  (`NonceStriding.RawNoncesDisjointIff`).
- Each read is decoded by itself: of a UTF-8 stream the reads give the text if and only if none ends inside a character
  (`LineFraming.TextArrivesIff`, `LineFraming.CutCharacterInstance`). With reads that end between characters the lines
  depend on how the stream is cut exactly when its first line starts with `SM` and goes on, and a first read of at most
  1024 bytes can end with that `SM` (`LineFraming.ByteChunkingIff`).
- Two clients never reach the same final nonce if and only if nonces have at most 12 digits, their extranonces differ,
  and they are not a Bitmain client's, which is empty, and `0000` (`Extranonce.SeparationIff`). So two Bitmain clients
  are never separated.
- The wallet chooses coins for an estimated fee and then recomputes the fee; it pays less than the recomputed fee exactly
  when the chosen coins cannot cover it (`CoinSelection.ImplicitFeeBounds`).
- A payment may not cover the mass of its own transaction, in three ways: the coins leave less than the fee
  (`FeeRounds.ShortInstance`); the rounds of the fee loop go back and forth, because a fee without change is low and one
  with little change is high, and the eighth round ends on a low one that leaves little change
  (`FeeRounds.DustChangeInstance`); or the fee climbs slowly and is cut off after eight rounds
  (`FeeRounds.SlowClimbInstance`). `FeeCover.CoversMassIff` says exactly when, from what the coins leave over, their number
  and the storage masses of inputs and payment. The condition looks at the loop's last fee in two places only: a climb
  that is cut off has to have reached the least fee that is enough; and in a strip of leftovers, where some fee is enough
  for the mass of its transaction and none for the charge on it, that fee is tried itself. The rounds can also end on a
  high fee, for which the payment is refused (`FeeRounds.HighEndInstance`).

## Model

| member | source | states |
|---|---|---|
| `ByteOrder.NotBelowAllMax` | database/src/access.rs:204-213 | a key is not below an all-0xff string if and only if it starts with it: the case without successor |
| `ByteOrder.RangeIsPrefix` | database/src/access.rs:204-213 | the range from a prefix to its successor holds exactly the keys that start with the prefix, carry included |
| `ByteOrder.PrefixesOfOneKey` | database/src/registry.rs:3-5 | two prefixes of one key are comparable, so prefixes that are not cannot share a row |
| `DbKeys.DbKey.NewWithBucket` | database/src/key.rs:19-28 | the path is prefix, bucket, key in this order, and the prefix length is that of the whole path |
| `DbKeys.DbKey.AddBucket` | database/src/key.rs:35-41 | appends to the path and grows the prefix length by the bucket |
| `DbKeys.DbKey.AddKey` | database/src/key.rs:43-49 | appends to the path and grows the prefix length by the key |
| `DbKeys.BucketPathInjective` | database/src/key.rs:19-28 | for buckets of one length the path determines bucket and key |
| `DbKeys.BucketPathCollision` | database/src/key.rs:19-28 | two different buckets have some row in common if and only if one is a prefix of the other |
| `Database.ApplyAllAppend` | database/src/writer.rs:71-93 | committing a concatenation is committing its parts in order |
| `Database.DbWriter.Emit` | database/src/writer.rs:36-93 | a direct writer changes the rows, a batch writer only stages; either way the pending rows advance by the operation |
| `Database.DbWriter.Commit` | database/src/writer.rs:59-93 | committing makes the rows what was pending and empties the batch |
| `Database.DeletePrefixRange` | database/src/access.rs:204-213 | deleting the range of a prefix removes the rows under it and no others |
| `Cache.EvictedToExact` | database/src/cache.rs:61-68 | a map is within budget with nothing evicted beyond need if and only if some choice of victims leads to it |
| `Cache.InsertedKeepsPolicy` | database/src/cache.rs:70-84 | after an insert: tracked size within the budget or at most `min_items` left, untracked at most `max_size` items with the new one among them, and nothing but old pairs and the new one |
| `Cache.UpdatedKeepsPolicy` | database/src/cache.rs:86-100 | the same after an in-place update, and nothing happens to an absent key |
| `Cache.RemovedKeepsPolicy` | database/src/cache.rs:102-113 | any removal keeps the policy |
| `Cache.PolicyBounds` | database/src/cache.rs:32-42 | what the bounds are under each policy asked for: nothing, at most n items, or a tracked size of at most n unless no more than the minimum of items is left |
| `Cache.InsertWithRoom` | database/src/cache.rs:70-84 | with room for one more an insert adds the pair and evicts nothing; a full counted cache gives up one item; an empty policy caches nothing |
| `Cache.UpdateWithRoom` | database/src/cache.rs:86-100 | an update in place changes the value of its key, and evicts only over the budget |
| `Cache.Cache.constructor` | database/src/cache.rs:142-146 | a new cache is empty and meets its policy |
| `Cache.Cache.TrackedEvict` | database/src/cache.rs:61-68 | ends for every choice of victims, with exact accounting and without underflow |
| `Cache.Cache.Insert` | database/src/cache.rs:70-84 | what an insert may leave under each policy, with the tracked size equal to the sum of item sizes |
| `Cache.Cache.InsertMany` | database/src/cache.rs:164-172 | is the inserts one after the other |
| `Cache.Cache.UpdateIfEntryExists` | database/src/cache.rs:86-100 | edits a present entry, adjusts the tracked size exactly, then evicts |
| `Cache.Cache.Remove` | database/src/cache.rs:102-113 | removes the key, returns what was there, subtracts its size |
| `Cache.Cache.RemoveMany` | database/src/cache.rs:191-199 | removes exactly the keys listed |
| `Cache.Cache.RemoveAll` | database/src/cache.rs:201-210 | leaves an empty cache of tracked size zero |
| `Access.ReadAfter` | database/src/access.rs:44-215 | what a read of the reference map answers after each operation: the last value written, not found after a deletion, otherwise as before; and not found exactly for a key that is not stored |
| `Access.WritesAreThePlainStep` | database/src/access.rs:134-213 | the writes of each operation change the rows under the prefix as the plain map changes |
| `Access.CacheStepAgrees` | database/src/access.rs:44-68 | every cache step keeps each cached pair equal to the pair of the pending database, and the policy |
| `Access.StepRefines` | database/src/access.rs:134-213 | one call keeps the invariant and answers as the plain map |
| `Access.RunRefines` | database/src/access.rs:44-68 | every sequential run, direct or batched, whose misses find current rows answers at every point exactly as a plain map, for every policy and every choice of victims |
| `Access.DirectRunRefines` | database/src/access.rs:134-213 | with direct writers every sequential run does, without that hypothesis |
| `Access.RunEmits` | database/src/writer.rs:36-93 | a run stages, or applies, exactly the writes of its operations in order |
| `Access.CommitBatch` | database/src/writer.rs:59-93 | a batch shows nothing until committed, and commits to the rows that direct writers produce |
| `Access.MissWhileStaged` | database/src/access.rs:51-68 | a read miss that fills the cache during a batch keeps the invariant if and only if the staged row reads the same |
| `Access.StaleAfterCommit` | database/src/access.rs:51-68 | a run of three calls after which the cache disagrees with the database to come |
| `Access.CachedDbAccess.constructor` | database/src/access.rs:33-35 | a new store starts with an empty valid cache |
| `Access.CachedDbAccess.HasKey` | database/src/access.rs:44-49 | carries out the step for `has` |
| `Access.CachedDbAccess.ReadKey` | database/src/access.rs:51-68 | carries out the step for `read`, with its cache fill and its two errors |
| `Access.CachedDbAccess.WriteKey` | database/src/access.rs:134-143 | carries out the step for `write` |
| `Access.CachedDbAccess.WriteKeys` | database/src/access.rs:145-162 | carries out the step for `write_many` |
| `Access.CachedDbAccess.WriteKeysWithoutCache` | database/src/access.rs:164-180 | carries out the step for `write_many_without_cache`, which clears the cache |
| `Access.CachedDbAccess.DeleteKey` | database/src/access.rs:182-189 | carries out the step for `delete` |
| `Access.CachedDbAccess.DeleteKeys` | database/src/access.rs:191-202 | carries out the step for `delete_many` |
| `Access.CachedDbAccess.DeleteEverything` | database/src/access.rs:204-213 | carries out the step for `delete_all`; the precondition is the one whose failure panics |
| `Interleaving.RowSectionIsTheWrite` | database/src/access.rs:134-213 | each row section of a call is the write it sends, seen through the prefix |
| `Interleaving.RowsAreThePlainStep` | database/src/access.rs:134-213 | all row sections of a call together change the rows as the plain map changes |
| `Interleaving.CacheSectionEffect` | database/src/cache.rs:156-210 | the cache section of a mutating call leaves at its keys what the call will store, and elsewhere only drops entries |
| `Interleaving.SectionStep` | database/src/access.rs:51-68 | every section taken while no conflicting call is under way keeps the invariant of all calls under way, and the last one answers as the plain map |
| `Interleaving.InterleavedRunRefines` | database/src/access.rs:9-213 | for any number of concurrent calls and every interleaving of their sections in which no section of a call falls between the first and last of a conflicting one: all answers are the plain map's in the order of last sections, and at rest the rows are that map and every cached pair is stored |
| `Interleaving.AgreesIffSameOrder` | database/src/access.rs:51-68 | for every interleaving at all: a pair is as stored if and only if it was evicted or the last cache section and the last row section on its key leave the same value |
| `Clashes.ClashFreeAgrees` | database/src/access.rs:9-213 | for any number of calls and every interleaving: if no two calls on a key clash by kind, then whenever none on it is under way its cached pair is the stored one |
| `Clashes.StaleIffKindsClash` | database/src/access.rs:51-213 | for every cache policy: two calls of given kinds can end with a cached pair that is not stored, for some keys, values, rows and interleaving, if and only if the kinds clash and the cache has room for some value |
| `Clashes.FetchChangeFill` | database/src/access.rs:56-62 | a run for every kind of change, key and two values: fetch, change, fill; the cache keeps the old value |
| `Clashes.WriteInside` | database/src/access.rs:134-202 | a run: a whole write between the cache section and the row section of another write or a delete |
| `Clashes.ReadInside` | database/src/access.rs:182-213 | a run: remove from the cache, read by another, delete the row; the cache keeps a deleted value |
| `SetAccess.IteratedIsPrefix` | database/src/set_access.rs:154-178 | the iterator's bounds select exactly the rows under the bucket |
| `SetAccess.ItemPathInjective` | database/src/set_access.rs:137-140 | for keys of one length, one row per key and item |
| `SetAccess.BucketIteratorExact` | database/src/set_access.rs:184-194 | iterating a bucket yields exactly the set the rows represent |
| `SetAccess.WriteRepresents` | database/src/set_access.rs:132-135 | writing an item adds it to one set and leaves the others |
| `SetAccess.DeleteRepresents` | database/src/set_access.rs:149-152 | deleting an item takes it from one set and leaves the others |
| `SetAccess.DeleteBucketRepresents` | database/src/set_access.rs:142-147 | deleting a bucket empties one set and leaves the others |
| `SetAccess.ReadRefines` | database/src/set_access.rs:66-79 | a read, cached or not, returns the represented set |
| `SetAccess.UpdateTracks` | database/src/set_access.rs:81-101 | an in-place edit of the cached set keeps it equal to the represented set |
| `SetAccess.MembersAfter` | database/src/set_access.rs:66-100 | which members a read of the reference answers with after each operation |
| `SetAccess.StepRefines` | database/src/set_access.rs:66-101 | one call keeps cache and rows both equal to the map of sets |
| `SetAccess.RunRefines` | database/src/set_access.rs:66-101 | every sequential run, direct or batched, whose misses find current rows answers as a map of sets does, with cache and pending rows equal to it |
| `SetAccess.DirectRunRefines` | database/src/set_access.rs:66-101 | with direct writers every sequential run does, without that hypothesis |
| `SetAccess.MissWhileStaged` | database/src/set_access.rs:66-75 | a miss on a bucket with staged rows keeps the cache equal to the map if and only if the rows seen hold the same set |
| `SetAccess.DbSetAccess.Write` | database/src/set_access.rs:132-140 | one row, with empty value, is put |
| `SetAccess.DbSetAccess.Delete` | database/src/set_access.rs:149-152 | one row is deleted |
| `SetAccess.DbSetAccess.DeleteBucket` | database/src/set_access.rs:142-147 | the range of the bucket is deleted |
| `SetAccess.DbSetAccess.CollectBucket` | database/src/set_access.rs:154-194 | decodes every row of the bucket, or fails if one does not decode |
| `SetAccess.CachedDbSetAccess.Read` | database/src/set_access.rs:66-79 | carries out the step for `read` |
| `SetAccess.CachedDbSetAccess.Write` | database/src/set_access.rs:81-87 | carries out the step for `write` |
| `SetAccess.CachedDbSetAccess.Delete` | database/src/set_access.rs:94-101 | carries out the step for `delete` |
| `SetAccess.CachedDbSetAccess.DropBucket` | database/src/set_access.rs:89-92 | carries out the step for `delete_bucket` |
| `SetInterleaving.RowSectionRepresents` | database/src/set_access.rs:132-152 | the row section of a change does to the rows what the plain store does to its sets |
| `SetInterleaving.RowsFollowOrder` | database/src/set_access.rs:66-101 | in every interleaving the rows are those of the plain store after the calls that are over, in the order of last sections |
| `SetInterleaving.SectionStep` | database/src/set_access.rs:66-101 | every section taken while no clashing call is under way keeps the invariant of all calls under way, and the last one answers as the plain store |
| `SetInterleaving.InterleavedRunRefines` | database/src/set_access.rs:66-101 | for any number of concurrent calls and every interleaving in which no section of a call falls between the first and last of a clashing one: all answers are the plain store's in the order of last sections, and at rest every cached set is the stored one |
| `SetClashes.StaleIffClash` | database/src/set_access.rs:66-101 | for every cache policy: two calls can end with a cached set that is not stored, for some rows and interleaving, if and only if one reads the set the other changes, or they add and remove the same member, and the cache has room for a set the change changes, or for the set with and without the member |
| `SetClashes.FetchChangeFill` | database/src/set_access.rs:66-76 | a run for every change that makes a difference: fetch, change, fill; the cache keeps the old set |
| `SetClashes.DeleteInside` | database/src/set_access.rs:82-101 | a run: a whole deletion of a member between the two sections of its addition |
| `Item.CachedDbItem.Read` | database/src/item.rs:29-43 | answers with the cached item or the row, caches what it found, and keeps the cached item that of the pending rows if and only if the answer is theirs |
| `Item.CachedDbItem.Write` | database/src/item.rs:45-53 | the pending row and the cached item are the written one; a direct writer changes the database, a batch does not |
| `Item.CachedDbItem.Remove` | database/src/item.rs:55-60 | the pending row is gone and the cached item with it |
| `Item.CachedDbItem.Update` | database/src/item.rs:62-83 | applies the edit to what a read would answer, in the pending row and the cached item, or reports the read's error and writes nothing |
| `Item.CachedDbSetItem.Read` | database/src/item.rs:111-129 | returns and caches the cached set or the one collected from the rows; a row that does not decode is an error and caches nothing |
| `Item.CachedDbSetItem.Update` | database/src/item.rs:131-153 | starts from what a read answers: deletes the removed items row by row, then adds the added ones, in the pending rows and in the cached set; on an error it writes nothing |
| `Item.ReadsSet` | database/src/item.rs:111-123 | collecting rows that hold a set answers with that set |
| `Item.UpdateExact` | database/src/item.rs:131-153 | the pending rows come to hold the set less the removed plus the added, and the cached set equals it if and only if the set read at the start differs from it in removed or added items at most |
| `ItemInterleaving.SameKindIsFresh` | database/src/item.rs:29-83 | any number of concurrent reads, removals or updates leave a cached item stored whenever the lock is free |
| `ItemInterleaving.StaleIffKindsClash` | database/src/item.rs:29-83 | two calls of given kinds can end with a cached item that is not stored, for some items, rows and interleaving, if and only if the kinds differ or both are writes |
| `ItemInterleaving.FetchChangeFill` | database/src/item.rs:33-39 | a run for every kind of change: fetch, change, fill; the cell keeps the old item |
| `ItemInterleaving.ChangeInside` | database/src/item.rs:45-83 | a run: a whole write or update between the two sections of a write or removal |
| `Isolation.StoresAreIsolated` | database/src/registry.rs:3-5 | however the writes of any stores under pairwise incomparable prefixes interleave, each store's rows are what its own writes alone produce |
| `Isolation.CallSends` | database/src/access.rs:134-213 | every write of a call of a key-value store goes under its prefix, and stays apart from every prefix not comparable to it |
| `Isolation.SetCallSends` | database/src/set_access.rs:132-152 | so does every write of a call of a set store |
| `Isolation.AnswersAmongOthers` | database/src/access.rs:44-68 | a key-value store answers as a plain map whatever writes stores under incomparable prefixes send between its calls |
| `Isolation.SetAnswersAmongOthers` | database/src/set_access.rs:66-101 | so does a set store |
| `Isolation.DeleteAllIsolation` | database/src/access.rs:204-213 | `delete_all` leaves the rows of another prefix alone in every database if and only if the prefixes are incomparable |
| `JobRing.NewestIdIsNewest` | bridge/src/mining_state.rs:54-77 | the id a slot answers for is the newest issued id of its residue class |
| `JobRing.LookupFinds` | bridge/src/mining_state.rs:79-85 | each of the last 300 ids finds its own job; an older one finds the recent job a multiple of 300 later |
| `JobRing.MiningState.AddJob` | bridge/src/mining_state.rs:54-77 | ids count from 1 and each slot keeps the newest job of its class, with its id |
| `JobRing.MiningState.GetJob` | bridge/src/mining_state.rs:79-85 | returns the newest job of the id's slot, whatever the id |
| `JobRing.MiningState.WalkBack` | bridge/src/share_handler.rs:994-1052 | examines consecutive ids downward, at most 300 of them; stops where the search specification does; the missing job and the overflow each exactly characterised |
| `JobRing.WithinReach` | bridge/src/share_handler.rs:1017-1052 | every id within reach has a stored job |
| `JobRing.WalkEnds` | bridge/src/share_handler.rs:1012-1024 | the two exit tests hold only at the last id within reach |
| `JobRing.WalkGoesOn` | bridge/src/share_handler.rs:1012-1052 | otherwise the next slot is filled if and only if the reach goes on |
| `JobRing.SearchIsFirstHit` | bridge/src/share_handler.rs:994-1052 | the answer is the first job, walking down, that meets a target, the network's before the pool's; a low-difficulty answer means that none within reach does |
| `JobRing.SlotsAreDistinct` | bridge/src/share_handler.rs:1012-1052 | the walk visits no slot twice |
| `JobRing.FullSweep` | bridge/src/share_handler.rs:1012-1052 | once the ring is full a walk covers it: each of the last 300 jobs is a candidate of exactly one step |
| `JobRing.WalkBackLive` | bridge/src/share_handler.rs:510-1052 | the walk while the ring and the pool target change at every step: at most 300 steps, the first job that meets a target as it then stands, or misses only up to the last id or an empty slot |
| `JobRing.SlotOfZero` | bridge/src/mining_state.rs:79-85 | id 0 finds a job if and only if 300 were issued |
| `JobRing.OverflowInstance` | bridge/src/share_handler.rs:1014-1022 | 300 jobs issued and a share for job 0 that misses: the subtraction overflows |
| `Guards.Prune` | bridge/src/share_handler.rs:186-208 | the two pruning loops compute `Pruned` |
| `Guards.PrunedWithinCapacity` | bridge/src/sophisapi.rs:70-92 | the queue goes on covering the entries, and pruning ends within the capacity |
| `Guards.PrunedShrinks` | bridge/src/share_handler.rs:186-208 | pruning only removes entries |
| `Guards.PrunedKeepsFresh` | bridge/src/sophisapi.rs:70-92 | within the capacity no unexpired entry is removed |
| `Guards.LoneEntry` | bridge/src/sophisapi.rs:70-92 | a single entry stays if and only if it is no older than the time to live and the capacity is not zero |
| `Guards.PrunedSuffix` | bridge/src/share_handler.rs:186-208 | what is dropped is a run at the front, each key expired or with at least `max_entries` keys behind it: nothing is dropped early |
| `Guards.PrunedExactly` | bridge/src/sophisapi.rs:70-92 | for any queue, with stale and repeated keys: which positions pruning drops, both loops exactly, and that an entry goes if and only if its key is at one of them |
| `DuplicateGuard.DuplicateSubmitGuard.Get` | bridge/src/share_handler.rs:210-213 | prunes, then looks up |
| `DuplicateGuard.DuplicateSubmitGuard.InsertInflight` | bridge/src/share_handler.rs:215-222 | prunes, then adds a new key at the back |
| `DuplicateGuard.DuplicateSubmitGuard.Resolve` | bridge/src/share_handler.rs:224-230 | prunes, then overwrites outcome and timestamp of a present key, in place |
| `DuplicateGuard.DuplicateSubmitGuard.Enter` | bridge/src/share_handler.rs:463-472 | the critical section at admission |
| `DuplicateGuard.AdmitReplies` | bridge/src/share_handler.rs:463-472 | a key without entry is admitted and put in flight; one held within its time is answered with its outcome |
| `DuplicateGuard.ResolveStores` | bridge/src/share_handler.rs:224-230 | resolving a key held within its time stores the outcome and restarts its time to live |
| `DuplicateGuard.NoneExpiredIff` | bridge/src/share_handler.rs:186-230 | pruning leaves no expired entry if and only if, among the last `max_entries` keys, expired ones have only expired ones before them |
| `DuplicateGuard.ExpiredBehindFresh` | bridge/src/share_handler.rs:186-230 | an instance in calls: two keys inserted, the first refreshed at its last moment; the next pruning leaves the second, twice its time old |
| `SharePipeline.NextConserves` | bridge/src/share_handler.rs:1054-1100 | for one worker or for all: every step keeps that worker's records equal to that worker's scored submissions, per counter, and the bridge total equal to all scored ones |
| `SharePipeline.NextConservesBlocks` | bridge/src/share_handler.rs:837-838 | the same for confirmed blocks |
| `SharePipeline.WorkerBumped` | bridge/src/share_handler.rs:905-907 | one increment adds one to that worker's sum of that counter and nothing to any other worker's or counter's |
| `SharePipeline.RunInvariant` | bridge/src/share_handler.rs:1054-1100 | all of this in every reachable state, with records fetched and used in separate steps and pruned at any time |
| `SharePipeline.CountersAreConserved` | bridge/src/share_handler.rs:1187-1192 | in every run the records ever created for a worker, pruned ones included, hold exactly that worker's counted submissions and confirmed blocks; the bridge totals plus what is between its two increments are the sums over all records |
| `SharePipeline.OutcomesAreCounted` | bridge/src/share_handler.rs:1054-1101 | in every run and for every worker: found shares are the accepted submissions counted for it, stale shares the stale ones, invalid shares the low-difficulty and the bad ones; likewise in the overall counters |
| `SharePipeline.StepsInOrder` | bridge/src/share_handler.rs:1054-1101 | an outcome is set only after both counters, except that a stale one is counted only after it is set |
| `SharePipeline.ArriveAdmits` | bridge/src/share_handler.rs:463-472 | a share whose key has no entry is admitted; one whose key is held within its time is not |
| `SharePipeline.SubmissionsMove` | bridge/src/share_handler.rs:1054-1101 | no submission gets stuck: until it is counted and its outcome written it has a next step, in this order |
| `SharePipeline.ConfirmationsMove` | bridge/src/share_handler.rs:837-838 | nor does a confirmed block that is not yet counted |
| `SharePipeline.PrunedStartAnew` | bridge/src/share_handler.rs:1054-1058 | a worker whose record was pruned gets a new one of zeros, any other the one it had |
| `Residency.ResidencyEnds` | bridge/src/share_handler.rs:186-208 | a step ends a residency only by expiry past the time to live or by at least `max_entries` later insertions |
| `Residency.ReinsertedOnlyAfterEnd` | bridge/src/share_handler.rs:463-472 | in every run a key is inserted again only after such an end of its earlier residency, at a step before the insertion |
| `Residency.WriteReachesOwnResidency` | bridge/src/share_handler.rs:1075-1119 | a verdict written in time reaches the residency it is for and no other |
| `Residency.RunIsFaithful` | bridge/src/share_handler.rs:463-496 | if no submission stays in flight too long or is displaced, every residency answers in flight until its verdict is written and with that verdict from then on |
| `Residency.DuplicateReply` | bridge/src/share_handler.rs:463-496 | the reply to a duplicate in such a run |
| `Residency.LateVerdict` | bridge/src/share_handler.rs:224-230 | without the hypothesis: the other residencies keep their answers if and only if the key is gone, is the submission's own or already carries the verdict |
| `Residency.LateVerdictExample` | bridge/src/share_handler.rs:224-230 | an instance in which the first verdict answers for the second submission |
| `Residency.ScoredAtMostInserted` | bridge/src/share_handler.rs:1054-1119 | at every point of every run the steps that scored a submission of a key are no more than the steps that inserted the key into the guard, and the three totals count each scored submission once |
| `BlockSubmit.BlockSubmitGuard.Mark` | bridge/src/sophisapi.rs:94-102 | prunes and marks a hash that is not marked |
| `BlockSubmit.BlockSubmitGuard.Remove` | bridge/src/sophisapi.rs:104-107 | prunes and unmarks, leaving the hash in the queue |
| `BlockSubmit.RunBounded` | bridge/src/sophisapi.rs:65-108 | in every run, marks never exceed the capacity by more than one and pruning brings them within it, stale queue entries notwithstanding |
| `BlockSubmit.AtMostOneOutstanding` | bridge/src/sophisapi.rs:395-440 | if calls end within the time to live and marks within the capacity, at most one call per hash is outstanding |
| `BlockSubmit.ResentOnlyAfterEnd` | bridge/src/sophisapi.rs:395-440 | and a block is sent again only after its earlier call failed or its mark expired |
| `BlockSubmit.SubmitSends` | bridge/src/sophisapi.rs:94-102 | a block without mark is sent and marked; one marked within its time is not sent |
| `BlockSubmit.FailureUnmarks` | bridge/src/sophisapi.rs:423-440 | right after a rejection or an error that names no duplicate, the hash is not marked |
| `BlockSubmit.SuccessKeepsMarks` | bridge/src/sophisapi.rs:423-440 | an accepted block or a duplicate error leaves all marks alone |
| `BlockSubmit.TakenBlockEndsByAge` | bridge/src/sophisapi.rs:395-440 | in a timely run the mark of an accepted or duplicate block ends only by age: a resend comes later than the time to live |
| `BlockSubmit.StalePositionDropsLaterMark` | bridge/src/sophisapi.rs:70-108 | for any four hashes, a run of marks in which the stale position of an unmarked hash takes its later mark while an older mark stays |
| `VarDiff.VarDiffStats.SetDiff` | bridge/src/share_handler.rs:1141-1149 | sets the difficulty and opens a new window |
| `VarDiff.VarDiffStats.Start` | bridge/src/share_handler.rs:1156-1162 | opens a window unless one is open |
| `VarDiff.VarDiffStats.CountShare` | bridge/src/share_handler.rs:1090-1092 | an accepted share counts in the open window |
| `VarDiff.VarDiffStats.Decide` | bridge/src/share_handler.rs:1621-1627 | the first half of a turn: what it decides on, from the fields it reads |
| `VarDiff.VarDiffStats.Apply` | bridge/src/share_handler.rs:1629-1632 | the second half: writes the change and opens its window |
| `VarDiff.VarDiffStats.Tick` | bridge/src/share_handler.rs:1617-1633 | both halves with nothing in between: a change resets the window and the share count; no change leaves all three alone |
| `VarDiff.TurnsFormRun` | bridge/src/share_handler.rs:1617-1633 | until the difficulty is set from outside, however shares and turns alternate, the decisions form a run of the controller on the windows they see |
| `VarDiff.WindowSinceOpened` | bridge/src/share_handler.rs:1090-1149 | a window holds exactly the shares found since it was opened, by a change or by setting the difficulty |
| `VarDiff.WindowSinceLookIff` | bridge/src/share_handler.rs:1617-1633 | a window opened by a change starts at the look that decided on it, holds exactly the shares found since then if and only if none was found before the write, and has the difficulty decided on whatever was set in between |
| `VarDiff.StartIsPow2` | bridge/src/stratum_server.rs:81-88 | the clamped start value is a power of two |
| `VarDiff.ClampTowardsNeighbour` | bridge/src/share_handler.rs:46-54 | clamping towards a value within a factor of two gives the same power of two or a neighbouring one |
| `VarDiff.ClampedChange` | bridge/src/share_handler.rs:56-102 | with the clamp, every change of a power of two is exactly a doubling or a halving, for any shares, time and rate |
| `VarDiff.NoDecision` | bridge/src/share_handler.rs:56-102 | no change without shares before 90 seconds, with shares before 30 seconds or with fewer than three, or at a rate between 0.75 and 1.25 of the target |
| `VarDiff.SilentDecision` | bridge/src/share_handler.rs:64-73 | 90 seconds without a share lead to the larger of 1 and half the difficulty, with the clamp to half of a power of two above 1, and to nothing at 1 |
| `VarDiff.ClampedDecision` | bridge/src/share_handler.rs:56-102 | with the clamp and enough shares, exactly: a doubling from 1.25 times the target rate on, a halving up to 0.75 times if the difficulty is above 1, and nothing else |
| `VarDiff.PlainDecision` | bridge/src/share_handler.rs:56-102 | without the clamp, exactly: the difficulty times the root of the ratio, within a half and a double, at least 1, and only if it differs by a tenth |
| `VarDiff.ClampedTurn` | bridge/src/share_handler.rs:1617-1633 | a whole turn with the clamp, from the time since the window was opened and the shares in it: doubled, halved or left, and a change opens a window at the turn |
| `VarDiff.ClosedTurn` | bridge/src/share_handler.rs:1617-1622 | a turn without an open window does nothing |
| `VarDiff.ClampedRun` | bridge/src/share_handler.rs:1617-1633 | so the difficulty is a power of two of at least 1 in every reachable state |
| `VarDiff.TickTowardsIdeal` | bridge/src/share_handler.rs:56-102 | for a miner of constant speed and without the clamp: no change inside the band; outside it every change moves strictly towards the ideal without passing it and at least halves the excess; a full window outside always changes |
| `VarDiff.ChangesAreBounded` | bridge/src/share_handler.rs:56-102 | in every such run k changes divide the excess by 2^k, and 2^(k-1) is at most four times the initial excess |
| `VarDiff.BandIsFinal` | bridge/src/share_handler.rs:56-102 | once inside the band the difficulty never changes again |
| `VarDiff.ReachesBand` | bridge/src/share_handler.rs:56-102 | full windows, logarithmically many in the initial excess, lead into the band |
| `VarDiff.StuckAtFloorIff` | bridge/src/share_handler.rs:85-101 | outside the band a full window leaves the difficulty alone if and only if the floor shortens its step below a tenth |
| `VarDiff.StuckAtFloorInstance` | bridge/src/share_handler.rs:85-101 | an instance: 5 shares a minute at difficulty 1 where 20 are wanted |
| `VarDiff.LowTick` | bridge/src/share_handler.rs:56-102 | with an ideal below 1: nothing moves in the band or within a ninth of the floor; elsewhere a full window goes down by at least a tenth, never below 1 |
| `VarDiff.LowRunsEnd` | bridge/src/share_handler.rs:56-102 | so enough full windows come to rest there |
| `VarDiff.RestIsFinal` | bridge/src/share_handler.rs:56-102 | and no window moves the difficulty again |
| `NonceStriding.PowerOfTwoNeverCollides` | bridge/src/rkstratum_cpu_miner.rs:213-214 | two threads out of 2^s never produce the same nonce modulo 2^bits, at any steps |
| `NonceStriding.OtherwiseCollides` | bridge/src/rkstratum_cpu_miner.rs:213-245 | for any other number of threads two of them do |
| `NonceStriding.NeverShareIff` | bridge/src/rkstratum_cpu_miner.rs:213-245 | 64-bit nonces of different threads never coincide if and only if the number of threads is a power of two |
| `NonceStriding.RawNoncesDisjointIff` | bridge/src/rkstratum_cpu_miner.rs:213-245 | before wrap-around: if and only if it is coprime to 1000000007 |
| `NonceStriding.DistinctBeforeWrap` | bridge/src/rkstratum_cpu_miner.rs:213-245 | so threads of a coprime count share no nonce while neither has passed 2^64 |
| `CpuMiner.SharedWork.Publish` | bridge/src/rkstratum_cpu_miner.rs:58-63 | version and work both become those of the newest publication |
| `CpuMiner.SharedWork.TakeUpdate` | bridge/src/rkstratum_cpu_miner.rs:65-74 | returns exactly when the version differs or on shutdown: the newest version with its work, or on a shutdown without news the version seen and no work |
| `CpuMiner.RunKeepsInv` | bridge/src/rkstratum_cpu_miner.rs:205-260 | the invariant of all threads holds in every reachable state |
| `CpuMiner.ThreadsFollowPublications` | bridge/src/rkstratum_cpu_miner.rs:205-260 | in every run a thread's work is the one published under its version, it makes at most one test on superseded work unless 2^64 publications pass it by, and no thread submits twice for one publication |
| `CpuMiner.ThreadsNeverShareNonces` | bridge/src/rkstratum_cpu_miner.rs:205-260 | in every run of a power-of-two number of threads no two stand at the same nonce, at whatever times |
| `CpuMiner.ThreadStandsAt` | bridge/src/rkstratum_cpu_miner.rs:205-260 | in every run thread i stands at i times 1000000007 plus its failed tests times the number of threads, in 64 bits |
| `CpuMiner.MinedBlocksPass` | bridge/src/rkstratum_cpu_miner.rs:234-243 | in every run the nonce of each submitted block passes on the template it was mined from |
| `CpuMiner.PassedTestsAreMined` | bridge/src/rkstratum_cpu_miner.rs:234-243 | and every test that passed is submitted and stays so |
| `CpuMiner.TestSubmits` | bridge/src/rkstratum_cpu_miner.rs:234-243 | a test submits its block if and only if the nonce passes |
| `CpuMiner.PicksNewest` | bridge/src/rkstratum_cpu_miner.rs:205-260 | a waiting thread takes up the newest publication |
| `CpuMiner.FailedTestGoesOn` | bridge/src/rkstratum_cpu_miner.rs:205-260 | after a failed test under an unchanged version the thread tests the same work at the next nonce |
| `CpuMiner.SupersededGoesBack` | bridge/src/rkstratum_cpu_miner.rs:205-260 | under a changed version it goes back for new work |
| `CpuMiner.ThreadsMove` | bridge/src/rkstratum_cpu_miner.rs:205-260 | every thread can take its next step, a waiting one if and only if the version differs from its own; publishing is always possible |
| `LineFraming.Listener.FilterNuls` | bridge/src/stratum_listener.rs:314-318 | drops NUL bytes and nothing else |
| `LineFraming.Listener.Receive` | bridge/src/stratum_listener.rs:314-336 | the whole effect of one read of bytes, decoding and first-message rejection included |
| `LineFraming.CompleteLines` | bridge/src/stratum_listener.rs:467-494 | the loop over the buffer computes `Parse` |
| `LineFraming.TrimIs` | bridge/src/stratum_listener.rs:474 | trimming cuts the white space at both ends and nothing else |
| `LineFraming.RejectedIff` | bridge/src/stratum_listener.rs:484-494 | the lines that close a connection, literally |
| `LineFraming.RejectedLineCloses` | bridge/src/stratum_listener.rs:467-494 | complete JSON lines and then a rejected line: those lines are handed on and the connection is closed, whatever follows |
| `LineFraming.SpacesAre` | bridge/src/stratum_listener.rs:474 | the white space is that of Unicode |
| `LineFraming.ParseInTwo` | bridge/src/stratum_listener.rs:467-494 | parsing a concatenation is parsing the first part and going on from its rest |
| `LineFraming.ReadsParseStream` | bridge/src/stratum_listener.rs:314-336 | if the first read is not rejected, any reads hand on the lines of the whole stream and keep exactly its unterminated tail |
| `LineFraming.SameLines` | bridge/src/stratum_listener.rs:258-336 | unless the first line starts with `SM` and goes on and a first read can end right after it, every cutting into reads of at most 1024 bytes and whole characters hands on the same lines |
| `LineFraming.SmIsLost` | bridge/src/stratum_listener.rs:322-336 | for every other stream some cutting into such reads hands on nothing |
| `LineFraming.ChunkingInvariantIff` | bridge/src/stratum_listener.rs:258-336 | both directions, for reads of whole characters: when the lines do not depend on the cutting |
| `LineFraming.SmAfterBlanks` | bridge/src/stratum_listener.rs:258-336 | after n blanks a first read can end with `SM` if and only if n + 2 is at most 1024 |
| `Utf8.DecodeEncoded` | bridge/src/stratum_listener.rs:470 | encoded text decodes to itself |
| `Utf8.EncodingLayout` | bridge/src/stratum_listener.rs:470 | the bytes of a character as section 3 of RFC 3629 lays them out, in the shortest form |
| `Utf8.BrokenAfterOne` | bridge/src/stratum_listener.rs:470 | a byte that begins no character, or whose character breaks off at once, becomes one replacement character |
| `Utf8.BrokenAfterTwo` | bridge/src/stratum_listener.rs:470 | so do two bytes of a longer character |
| `Utf8.BrokenAfterThree` | bridge/src/stratum_listener.rs:470 | and three bytes of a character of four |
| `Utf8.NoCharacter` | bridge/src/stratum_listener.rs:470 | overlong forms, surrogates and values above 0x10FFFF are replaced byte by byte |
| `Utf8.ReadsDecodeIff` | bridge/src/stratum_listener.rs:470 | reads of an encoded text, each decoded by itself, give the text if and only if none ends inside a character |
| `LineFraming.TextArrivesIff` | bridge/src/stratum_listener.rs:314-470 | the same with NUL bytes dropped before decoding |
| `LineFraming.ByteChunkingIff` | bridge/src/stratum_listener.rs:258-336 | for a stream of UTF-8 bytes and reads that end between characters: when the lines do not depend on the cutting |
| `LineFraming.CutCharacterInstance` | bridge/src/stratum_listener.rs:470 | an instance: a character cut in two arrives as two replacement characters in the line handed on |
| `LineFraming.ParseOfJson` | bridge/src/stratum_listener.rs:467-494 | if every non-blank line starts with a brace, parsing is splitting at newlines, trimming and skipping blanks |
| `LineFraming.JsonStreamFraming` | bridge/src/stratum_listener.rs:314-336 | so any cutting of such a stream hands on those lines, keeps the tail and stays open |
| `Hex.HexFixedRoundTrip` | bridge/src/hasher.rs:277-337 | fixed-width hexadecimal parses back to its number |
| `Hex.HexBytesRoundTrip` | bridge/src/hasher.rs:277-337 | byte strings decode back from their hexadecimal text |
| `Hex.DigitsAreHex` | bridge/src/hasher.rs:277-337 | lower-case digits are written, either case is read, and nothing else is a digit |
| `Hex.HexFixedAt` | bridge/src/hasher.rs:367-390 | digit i from the right is the coefficient of 16^i |
| `Hex.HexBytesAt` | bridge/src/hasher.rs:277-337 | each byte is written as its high digit and then its low one |
| `Hex.BytesAt` | bridge/src/hasher.rs:277-337 | byte i from the left of a little-endian number, from the right of a big-endian one, is the coefficient of 256^i |
| `Hex.ParseHexConcat` | bridge/src/share_handler.rs:412-452 | concatenated digits shift the first number by the length of the second, and fail when either part does |
| `JobEncoding.LargeJobParams` | bridge/src/hasher.rs:367-390 | the word-by-word form gives the same 80 characters as the direct form |
| `JobEncoding.JobHeader` | bridge/src/hasher.rs:253-267 | the legacy array holds the little-endian words of the hash, four at most |
| `JobEncoding.JobParamsRoundTrip` | bridge/src/hasher.rs:277-337 | 80 characters that decode to the hash and the timestamp |
| `JobEncoding.JobParamsCharacters` | bridge/src/hasher.rs:277-337 | each of the 80 characters: the digits of the hash in order, then of the timestamp from its lowest byte |
| `JobEncoding.LegacyWordsDetermineHash` | bridge/src/hasher.rs:253-267 | the legacy array determines the hash |
| `JobEncoding.LegacyWordBytes` | bridge/src/hasher.rs:253-267 | byte i of word k is the coefficient of 256^i |
| `Extranonce.ClientHandler.Assign` | bridge/src/client_handler.rs:96-108 | other miners take the next counter value in four digits, Bitmain miners none |
| `Extranonce.ConsecutiveDistinct` | bridge/src/client_handler.rs:96-108 | any 65536 consecutive assignments are pairwise distinct, from every counter value |
| `Extranonce.ShortNonce` | bridge/src/share_handler.rs:412-452 | up to 12 digits the final nonce is extranonce times 2^48 plus nonce, and is refused exactly when the digits are |
| `Extranonce.HexTextIff` | bridge/src/share_handler.rs:447 | a text parses if and only if all its characters are hex digits |
| `Extranonce.PrefixIgnored` | bridge/src/share_handler.rs:419 | a leading 0x changes nothing, for any hex digits and any extranonce |
| `Extranonce.ShortHexNonce` | bridge/src/share_handler.rs:412-452 | for submitted hex digits, up to 12 of them, the final nonce is extranonce times 2^48 plus their value |
| `Extranonce.LongHexNonce` | bridge/src/share_handler.rs:412-452 | more digits, or no extranonce: the final nonce is the value submitted, refused if empty or above 64 bits |
| `Extranonce.SeparationIff` | bridge/src/share_handler.rs:412-452 | for any two extranonces that are given out: nonces of up to that many digits never lead to the same final nonce if and only if there are at most 12 digits, the extranonces differ, and they are not the empty one and `0000` |
| `Extranonce.HexSeparationIff` | bridge/src/share_handler.rs:412-452 | two extranonces keep all hex nonces of up to so many digits apart if and only if they differ and there are at most 12 digits |
| `CoinSelection.OutputMassExact` | dilithium-wallet/src/main.rs:53-62 | the storage mass of an output is the rounded-up quotient, both directions |
| `CoinSelection.OutputMassAntitone` | dilithium-wallet/src/main.rs:53-62 | smaller outputs never weigh less, and every output weighs something |
| `CoinSelection.SplittingWeighs` | dilithium-wallet/src/main.rs:53-62 | splitting one coin into payment and change always has a storage mass |
| `CoinSelection.CloseIff` | dilithium-wallet/src/main.rs:89-92 | the loop stops at a fee when the one before is between 99.9 % and 100.1 % of it |
| `CoinSelection.CalcFee` | dilithium-wallet/src/main.rs:76-95 | the fee of the first round that moves it by less than a thousandth, or of the eighth; at least the minimum; the charge for the masses returned with it |
| `CoinSelection.Select` | dilithium-wallet/src/main.rs:439-447 | takes a prefix of the coins, enough if they are enough in all, and no shorter non-empty prefix was |
| `CoinSelection.FirstAreWorthMost` | dilithium-wallet/src/main.rs:223 | of a descending list no choice of m coins is worth more than the first m |
| `CoinSelection.FewestInputs` | dilithium-wallet/src/main.rs:431-447 | the selection uses the fewest inputs of any choice that reaches the needed amount |
| `CoinSelection.PickOneMore` | dilithium-wallet/src/main.rs:431-447 | what a choice of coins is worth: one more coin adds one to the number and its amount to the total |
| `CoinSelection.ImplicitFeeBounds` | dilithium-wallet/src/main.rs:239-244 | inputs cover outputs, and the difference lies between the smaller fee and the final one; it is the final one if and only if the inputs can pay it |
| `FeeRounds.RoundsOfShape` | dilithium-wallet/src/main.rs:53-95 | the rounds of the fee loop depend on the leftover, the number of inputs and the storage mass besides change only |
| `FeeRounds.ChangeCosts` | dilithium-wallet/src/main.rs:64-75 | a fee that leaves change always leads to a heavier transaction than one that leaves none |
| `FeeRounds.RoundMonotone` | dilithium-wallet/src/main.rs:53-75 | among fees that leave change a higher one leads to a fee at least as high |
| `FeeRounds.EjectsIff` | dilithium-wallet/src/main.rs:76-95 | the rounds come to leave no change, and so start to cycle, if and only if no fee with change pays for itself |
| `FeeRounds.SelfPayingIff` | dilithium-wallet/src/main.rs:76-95 | such a fee exists if and only if some change and its fee fit into the leftover |
| `FeeRounds.SelfPayingMore` | dilithium-wallet/src/main.rs:76-95 | and then for every larger leftover, with the same change |
| `FeeRounds.LowEjects` | dilithium-wallet/src/main.rs:76-95 | once they left no change the rounds do so again, no later than at first |
| `FeeRounds.CycleLaw` | dilithium-wallet/src/main.rs:76-95 | the fee of every round of a cycling loop, and which rounds leave no change |
| `FeeRounds.ShortLeftover` | dilithium-wallet/src/main.rs:76-95 | a leftover within the fee without change: that fee is the result |
| `FeeRounds.BackAndForth` | dilithium-wallet/src/main.rs:76-95 | a leftover up to the fee of the first round: the loop ends after two, three or eight rounds, on the lower fee but for three |
| `FeeRounds.SettlingLoop` | dilithium-wallet/src/main.rs:76-95 | with a fee that pays for itself the rounds only climb and stay below it |
| `FeeConvexity.MassChord` | dilithium-wallet/src/main.rs:53-62 | the storage mass of an output lies below the chord of two others, but for rounding |
| `FeeRounds.SettledPays` | dilithium-wallet/src/main.rs:85-91 | such a loop that stops on a fee moved by less than a thousandth pays for the mass it leads to |
| `FeeCover.EnoughIff` | dilithium-wallet/src/main.rs:53-75 | a fee with change is at least the mass it leads to if and only if it is at least the compute mass and the product of change and what it leaves for storage is at least 10^12 |
| `FeeCover.EnoughBetween` | dilithium-wallet/src/main.rs:53-75 | such fees form an interval |
| `FeeCover.SomeEnoughIff` | dilithium-wallet/src/main.rs:53-75 | there is one if and only if one particular fee, given by leftover, inputs and storage mass, is one |
| `FeeCover.NeverClose` | dilithium-wallet/src/main.rs:85-91 | without one no round of a longer leftover moves the fee by less than a thousandth, so the loop runs to the eighth |
| `FeeCover.CyclingCovers` | dilithium-wallet/src/main.rs:76-95 | and the payment covers its mass if and only if the eighth round of the cycle leaves no change, by the rounds before the cycle and its length |
| `FeeCover.SettlingCovers` | dilithium-wallet/src/main.rs:76-95 | where a fee pays for itself: if and only if the loop settles before the eighth round or has reached the interval by then |
| `FeeCover.CoversMassIff` | dilithium-wallet/src/main.rs:229-244 | for every selection and amount, when a payment covers the mass of its own transaction, by leftover: the two cases above, the two of shorter leftovers, and the strip between, where the fee of the round the loop stops at leaves no change or is enough |
| `CoinSelection.Send` | dilithium-wallet/src/main.rs:431-449 | when each of the three outcomes happens, and all of the above of a payment that goes out |
| `FeeRounds.ShortInstance` | dilithium-wallet/src/main.rs:431-449 | two coins of 10 and an amount that leaves 6000: a fee of 10453, 6000 paid, a mass of 9956 |
| `FeeRounds.DustChangeInstance` | dilithium-wallet/src/main.rs:76-95 | one coin of 10 and 100,000 left over: a fee of 5449, change of 94,551, a storage mass of 10,576,304 |
| `FeeRounds.SlowClimbInstance` | dilithium-wallet/src/main.rs:76-95 | two coins and 1,124,700 left over: a fee of 42,518 after eight rounds, a mass of 43,002, although 100,650 pays for itself |
| `FeeRounds.HighEndInstance` | dilithium-wallet/src/main.rs:431-438 | one coin of 10 and 1,200,000 left over: the eighth round asks for 3,270,958 and the payment is refused |

## Left out

- I/O: sockets, gRPC, timers, logging and metrics; the clock and every answer from outside are parameters.
- RocksDB and bincode: the database is an ordered map without errors, and codecs are any pair of functions of which decoding undoes encoding.
- `has_with_fallback`, `read_with_fallback` and the iterators of `CachedDbAccess`, which would add members of the same kind.
- `Access.RunRefines`: each call is one step; `Interleaving.InterleavedRunRefines` is about the sections of concurrent calls, with direct writers.
- `Interleaving.AgreesIffSameOrder`: compares the rows with the cache sections in their order; conditions on the calls are those of `Clashes.ClashFreeAgrees` and `Interleaving.InterleavedRunRefines`.
- `SetAccess.RunRefines`: keys of one fixed length, and each call is one step; `SetInterleaving.InterleavedRunRefines` is about the sections of concurrent calls, with direct writers; cached sets are values, so a reader that holds a shared set while it is edited is not captured.
- `SetAccess.CachedDbSetAccess.DropBucket`: a bucket with a successor, without which the code panics.
- `Cache.Cache.Insert`: the memory mode is folded into the size function, and sizes do not overflow.
- `JobRing.MiningState.WalkBack`: ring and pool target do not change during a walk, as they do in `JobRing.WalkBackLive`; proof of work is an uninterpreted function of the job.
- `SharePipeline.RunInvariant`: the retention rule of the stats map is over-approximated by removing any set of workers at any time, and a client keeps its worker name while a share is in flight.
- `VarDiff.WindowSinceOpened`: the fields are read in one section and written in one; a setting between two of the reads, or two of the writes, is not captured.
- `VarDiff.TickTowardsIdeal`: reals instead of `f64`, and the square root is any non-negative root.
- `VarDiff.ClampedChange`: reals instead of `f64`.
- `CpuMiner.ThreadsFollowPublications`: sleeping on the condition variable is not modelled, a shutdown only ends runs, and throttling does not change what a thread does next.
- `LineFraming.Listener.Receive`: JSON parsing and disconnects by handlers are not part of it.
- `JobEncoding.LargeJobParams`: headers of at least 32 bytes; on shorter ones the code panics.
- `CoinSelection.Send`: coins are their amounts, sorted by the caller as `spendable_utxos` does; sums are unbounded, where the code panics on overflow of 64 bits; addresses, scripts and signatures are not modelled.
- `FeeCover.CoversMassIff`: in the strip of leftovers where some fee is enough for the mass of its transaction and none for the charge on it, the condition is about the fee of the round the loop stops at.
- The PSKT roles, typed-data signing and data-carrier transactions of the wallet.
- Target formulas chosen by environment variables and the setters of `SophisDiff`, which are straight-line arithmetic.
- Consensus, networking and the node itself.
