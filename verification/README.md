# Verified model of MiniOB's concurrency, storage and recovery core

This project models the hard parts of MiniOB, a teaching database with an LSM-style storage layer, in Dafny 4.11 and
proves what they promise. `dafny verify dfyconfig.toml` checks all of it.

* **Locks.** `RecursiveSharedMutex.dfy` has the reader/writer lock with re-entrant writers, as a state machine whose
  steps are its critical sections, and as an object. `LockTrace.dfy` has the deadlock check of the lock tracer.
* **Caches.** `KvCache.dfy` is the bounded LRU cache, with the inclusion of a smaller cache in a larger one.
  `LruCache.dfy` is the linked-list LRU map, with its nodes on the heap.
* **Network buffers.** `RingBuffer.dfy` and `BufferedWriter.dfy`.
* **Checksums and dates.** `Md5Block.dfy`, `Md5Stream.dfy`, `Md5Vector.dfy` (a digest of RFC 1321), `Crc32.dfy`
  and `DateTime.dfy`.
* **Tables on disk.** `BlockFormat.dfy` has the bytes of rows, micro blocks and macro blocks and their decoder,
  `BlockWriter.dfy` the double-buffered writer, `BlockLoss.dfy` which rows it loses, `SSTableFile.dfy` the two files of
  a table, and `SSTableBuilder.dfy` ties them together: a mini merge whose table is reopened, read and decoded.
* **Logs and recovery.** `StorageLog.dfy` is the storage log, `Palf.dfy` the commit log in its block files,
  `DdlRecovery.dfy` the protocol of CREATE DATABASE with crashes at every step, `DdlService.dfy` the service object on
  both logs, and `DdlDisk.dfy` its recovery from the files.
* `Common.dfy`, `Bytes.dfy` (little-endian integers) and `Framing.dfy` (frames laid end to end) are shared.

Code that changes state is a class or a method with loops, proved against functions on values; the laws are lemmas
about those functions and about whole runs. Where a block function or an encoder is a ghost constant or parameter,
this only keeps proofs from looking into it; the public contracts name the real one.

Some properties that one would expect turn out to be false of the code. For these the project proves the exact
condition under which the code does meet them, with a concrete failing input where the condition does not show one:

* the key-value cache stays within its capacity if and only if the capacity is at least one;
* the deadlock check finds a cycle if and only if fewer than `mMaxBlockTids` other threads are on it, and the cycle is a
  real deadlock if and only if nobody on it gave up after a failed `trylock`;
* `get_ymd` gives a valid date if and only if the day number is at least -32044, and `operator+=` leaves a time of
  exactly one day when the sum hits midnight;
* adding a duration reaches its aim if and only if the day aimed at is not before the year of the month-shifted date;
  one day back from any 1 January is missed;
* the block loop of `MD5Update` ends if and only if the last whole block lies below 2^32 - 63;
* the block writer loses rows if and only if the pending rows must be written and do not fit; over all macro block sizes
  it loses none if and only if every micro block keeps to the configured size. A refused append takes with it
  all rows accepted since the last micro block, and at the sizes that the repository uses this happens to ordinary
  rows, after which no more of them are ever stored; with macro blocks smaller than a micro block it happens without an
  error;
* a restart delivers the commit log if and only if every entry lies in one block and fits the read buffer, and nothing
  appended behind an entry whose header crosses the end of a block survives a restart. Unless an earlier entry
  is torn, the databases lost with it keep their ids if the storage log notes every database in order;
* replay of the storage log changes nothing if and only if no database name is longer than 127 bytes;
* with any interleaving of calls with such names, all ids survive a restart at any time if and only if every insertion
  is that of the first logged name that the schema lacks. Calls made one at a time meet this; two overlapping calls can
  swap ids, and two overlapping calls with the same name can leave a database that a restart drops.

Where the header comment of the lock says that a reader cannot upgrade, the code lets it wait; the model follows the
code and proves that the wait never ends. The commit log's header declares its checksum last, but the code
writes it over the lower half of the log id; the model writes it there.

## Model

| member | source | states |
|---|---|---|
| `RecursiveSharedMutexProtocol.StepKeepsInv` | src/common/lang/mutex.cpp:376-433 | every critical section of `lock_shared`, `try_lock_shared`, `unlock_shared`, `lock` and `unlock`, every spurious wakeup and every re-check keeps the counters exact and leaves no sleeper without a wakeup to come |
| `RecursiveSharedMutexProtocol.RunKeepsInv` | src/common/lang/mutex.cpp:376-433 | the invariant holds after every interleaving of any number of threads |
| `RecursiveSharedMutexProtocol.MutualExclusion` | src/common/lang/mutex.cpp:376-433 | in every reachable state there is at most one writer, no reader beside it, the shared count is the number of read holds and the recursion count is the owner's nesting depth |
| `RecursiveSharedMutexProtocol.NoLostWakeup` | src/common/lang/mutex.cpp:376-433 | in every reachable state a reader sleeps only while a writer holds the lock, and a writer sleeps on a free lock only if a woken writer has yet to re-check |
| `RecursiveSharedMutexProtocol.FreeLockIsTaken` | src/common/lang/mutex.cpp:376-433 | progress: a free lock with threads in a blocking call has a woken one, and every woken thread that re-checks a free lock gets it |
| `RecursiveSharedMutexProtocol.CountsKeptIffOwnHoldReleased` | src/common/lang/mutex.cpp:395-433 | the counters stay true if and only if a client releases only what it holds |
| `RecursiveSharedMutexProtocol.LockReturnsAtOnceIff` | src/common/lang/mutex.cpp:404-417 | `lock` returns without waiting if and only if the lock is free or the caller has it already, and then adds exactly one hold |
| `RecursiveSharedMutexProtocol.SelfBlockedForEver` | src/common/lang/mutex.cpp:376-433 | a thread that waits for a lock which its own hold excludes waits in every continuation of the run |
| `RecursiveSharedMutexProtocol.MixedRequestNeverReturns` | src/common/lang/mutex.h:303-332 | a reader that asks for the write lock, or a writer that asks for the read lock, never gets it, whatever the others do |
| `RecursiveSharedMutexObject.RecursiveSharedMutex.LockShared` | src/common/lang/mutex.cpp:376-383 | keeps the invariant; the caller gets in at once if and only if no writer holds the lock, and otherwise sleeps |
| `RecursiveSharedMutexObject.RecursiveSharedMutex.TryLockShared` | src/common/lang/mutex.cpp:385-393 | keeps the invariant; succeeds, with one more read hold, if and only if no writer holds the lock, and never sleeps |
| `RecursiveSharedMutexObject.RecursiveSharedMutex.UnlockShared` | src/common/lang/mutex.cpp:395-402 | keeps the invariant; one read hold less; whoever waits goes on waiting, for the same kind of lock, and only when the last read hold goes does the one notified writer wake, of which there is one if any writer sleeps |
| `RecursiveSharedMutexObject.RecursiveSharedMutex.Lock` | src/common/lang/mutex.cpp:404-417 | keeps the invariant; the caller gets in at once if and only if nobody holds the lock or it has it already, the recursion count is then its number of holds, and otherwise it sleeps |
| `RecursiveSharedMutexObject.RecursiveSharedMutex.Unlock` | src/common/lang/mutex.cpp:419-433 | keeps the invariant; one write hold less; whoever waits goes on waiting, for the same kind of lock; when the last write hold goes every sleeping reader wakes as a reader, and the one notified writer as a writer, of which there is one if any writer sleeps |
| `RecursiveSharedMutexProtocol.OthersKeepWaiting` | src/common/lang/mutex.cpp:376-433 | a step of one thread leaves the holds of every other thread, and what it waits for, as they are |
| `RecursiveSharedMutexProtocol.LeavesWithItsHold` | src/common/lang/mutex.cpp:376-417 | a thread leaves a blocking call only by its own re-check, and then has exactly one more hold of the kind that it asked for: out of `lock_shared` with a read hold, out of `lock` with a write hold |
| `RecursiveSharedMutexProtocol.RunBalances` | src/common/lang/mutex.cpp:376-433 | conservation over every run: the read locks that a thread asked for and has not given back are those that it holds and the one that it waits for, and the same for write locks |
| `RecursiveSharedMutexObject.RecursiveSharedMutex.ResumeShared` | src/common/lang/mutex.cpp:379-382 | a woken reader gets in if and only if no writer holds the lock, and otherwise sleeps again |
| `RecursiveSharedMutexObject.RecursiveSharedMutex.ResumeExclusive` | src/common/lang/mutex.cpp:407-416 | a woken writer gets in if and only if nobody holds the lock, or it has it already, and otherwise sleeps again |
| `LockTraceSpec.CheckExact` | src/common/lang/mutex.cpp:93-125 | for a request on a mutex of another thread the check answers true if and only if a wait-for cycle runs through the requester and fewer than `mMaxBlockTids` other threads |
| `LockTraceSpec.CheckCompleteWhenFewWait` | src/common/lang/mutex.cpp:65-125 | while fewer than `mMaxBlockTids` other threads wait, the check answers true if and only if there is any wait-for cycle through the requester |
| `LockTraceSpec.FollowSound` | src/common/lang/mutex.cpp:65-91 | a positive answer of the recursive overload comes with a chain of waiting threads that ends at the requester, no longer than the depth allows |
| `LockTraceSpec.FollowComplete` | src/common/lang/mutex.cpp:65-91 | every such chain within the depth is found |
| `LockTraceSpec.SimpleCycle` | src/common/lang/mutex.cpp:65-91 | every cycle through the requester contains one that visits each waiting thread at most once |
| `LockTraceSpec.NineThreadsMissed` | src/common/lang/mutex.cpp:65-125 | a cycle of the requester and eight others, which the check with its depth of 8 does not find |
| `LockTraceSpec.InsertKeepsConsistentIff` | src/common/lang/mutex.cpp:170-189 | recording a lock keeps the owner map and the own-lock sets in step if and only if the mutex was unrecorded or recorded for the same thread |
| `LockTraceSpec.EraseKeepsConsistentIff` | src/common/lang/mutex.cpp:211-221 | recording an unlock keeps them in step if and only if the mutex was unrecorded or owned by the caller |
| `LockTraceSpec.CheckTellsTheTruth` | src/common/lang/mutex.h:166-195 | after every run of requests, grants, releases and failed `trylock`s that is recorded as it happens: the check of a further request answers true if and only if a recorded cycle of fewer than `mMaxBlockTids` other threads runs through it, every real deadlock of threads and mutexes is such a cycle, and such a cycle is a real deadlock if and only if nobody on it gave up |
| `LockTraceSpec.CheckExactInWorld` | src/common/lang/mutex.cpp:93-221 | in particular, while no failed `trylock` is the last request of another thread, the check answers true if and only if the request really closes a deadlock with fewer than `mMaxBlockTids` other threads |
| `LockTraceSpec.FailedTryMisleads` | src/common/lang/mutex.h:177-185 | after one failed `trylock` the check reports a deadlock of two threads where there is none |
| `LockTraceSpec.ExactRun` | src/common/lang/mutex.cpp:93-221 | over every run recorded as it happens the owner table is that of the real holders, and the wait table that of the blocked threads and of those who gave up |
| `LockTraceSpec.InsertEndsWait` | src/common/lang/mutex.cpp:170-189 | a recorded grant ends the wait of that thread, so that no cycle runs through it, and touches no other wait |
| `LockTraceObject.LockTrace.DeadlockCheck` | src/common/lang/mutex.cpp:93-125 | records the request as the wait of that thread, and answers by the exact cycle criterion, or for a mutex of the requester by the recursive attribute |
| `LockTraceObject.LockTrace.InsertLock` | src/common/lang/mutex.cpp:170-189 | the wait of the thread is gone and no other, the mutex is recorded for it if it was not for another, all other mutexes are as they were, one more mutex is among its own, and the wait-time counter is one less; when the tables stay in step |
| `LockTraceObject.LockTrace.Unlock` | src/common/lang/mutex.cpp:211-221 | the mutex is out of the owner table and of the own locks of this thread alone, the waits are untouched, and when the tables stay in step |
| `KvCacheSpec.RunsIncluded` | src/storage/cache/ob_kv_cache.h:34-97 | two caches of capacity k <= l fed the same get/put/erase/clear sequence: the smaller one's entries are always among the larger one's, with the same values, in the same relative order of use |
| `KvCacheSpec.HitsGrowWithCapacity` | src/storage/cache/ob_kv_cache.h:34-47 | a hit in the smaller cache is a hit with the same value in the larger one |
| `KvCacheSpec.RunKeepsValid` | src/storage/cache/ob_kv_cache.h:34-97 | after every sequence of operations the list holds each key of the map once, and no more keys than the capacity (or one) |
| `KvCacheSpec.WithinCapacityIff` | src/storage/cache/ob_kv_cache.h:63-68 | the cache is within its capacity after a put if and only if the capacity is at least one |
| `KvCacheSpec.HitReturnsLatestPut` | src/storage/cache/ob_kv_cache.h:34-75 | whatever is in the cache is the value of the latest put not erased or cleared since |
| `KvCacheSpec.OrderedByLastUse` | src/storage/cache/ob_kv_cache.h:41-60 | the list is ordered by last put or hit, the most recent first |
| `KvCacheSpec.EvictedIsOldest` | src/storage/cache/ob_kv_cache.h:62-68 | a key that a put evicts was last used before every key that stays |
| `KvCacheSpec.HoldsMostRecent` | src/storage/cache/ob_kv_cache.h:34-75 | the closed form: without erases and clears the cache holds exactly the `capacity` most recently used keys, in that order |
| `KvCacheSpec.NothingDroppedWithRoom` | src/storage/cache/ob_kv_cache.h:50-75 | over every run a put into a cache with room drops nothing |
| `KvCacheSpec.SizeAfterPut` | src/storage/cache/ob_kv_cache.h:50-75 | over every run a put of a new key leaves one entry more, up to the capacity, with the key first |
| `KvCacheSpec.LargeCacheHoldsAll` | src/storage/cache/ob_kv_cache.h:34-97 | a cache that no run can fill holds exactly the keys that were put and not erased or cleared since |
| `KvCacheSpec.PutGives` | src/storage/cache/ob_kv_cache.h:50-75 | on every cache a put leaves the key first with its value, and behind it the others in their order: all of them if there is room, and otherwise the most recent `capacity` - 1 |
| `KvCacheObject.KvCache.Get` | src/storage/cache/ob_kv_cache.h:34-47 | hit or miss, value, and the new order |
| `KvCacheObject.KvCache.Put` | src/storage/cache/ob_kv_cache.h:50-75 | the new contents and order, after the evictions, as `KvCacheSpec.PutGives` spells them out |
| `KvCacheObject.KvCache.Erase` | src/storage/cache/ob_kv_cache.h:78-88 | the key and its place in the list are gone |
| `LruCacheObject.LruCache.Get` | src/common/lang/lru_cache.h:97-107 | found or not; a found entry moves to the front of the doubly linked list, which stays well linked in both directions and agrees with the hash set |
| `LruCacheObject.LruCache.Put` | src/common/lang/lru_cache.h:109-121 | the entry is at the front with its new value, the others keep their order |
| `LruCacheObject.LruCache.Remove` | src/common/lang/lru_cache.h:123-129 | the entry is gone from list and hash set, the others keep their order |
| `LruCacheObject.LruCache.ForEach` | src/common/lang/lru_cache.h:137-145 | visits the entries front to back up to and including the first for which the function says stop |
| `LruCacheObject.LruCache.ForEachReverse` | src/common/lang/lru_cache.h:147-155 | visits the entries back to front up to and including the first for which the function says stop |
| `LruCacheObject.LruCache.LruTouch` | src/common/lang/lru_cache.h:158-179 | moves one node to the front by relinking its neighbours |
| `LruCacheObject.LruCache.LruRemove` | src/common/lang/lru_cache.h:198-217 | takes one node out, wherever it is |
| `RingBufferObject.RingBuffer.Write` | src/observer/net/ring_buffer.cpp:85-106 | appends the longest prefix that fits, across the end of the array, and says how much |
| `RingBufferObject.RingBuffer.Read` | src/observer/net/ring_buffer.cpp:27-49 | removes the longest prefix available, in order; nothing is lost or repeated |
| `RingBufferObject.RingBuffer.Buffer` | src/observer/net/ring_buffer.cpp:51-68 | shows a stretch of the array that is a prefix of the contents, empty only if there is no data |
| `RingBufferObject.RingBuffer.Forward` | src/observer/net/ring_buffer.cpp:70-83 | drops exactly the first bytes, or refuses and changes nothing |
| `BufferedWriterObject.BufferedWriter.Write` | src/observer/net/buffered_writer.cpp:46-60 | bytes sent followed by bytes buffered are the bytes accepted, whatever the system answered; without a full ring nothing is sent and the longest fitting prefix is accepted; on a full ring the ring is drained first, and then as much as the ring holds is accepted; an I/O error means that the system failed, and then nothing is accepted |
| `BufferedWriterObject.BufferedWriter.WriteN` | src/observer/net/buffered_writer.cpp:62-81 | success means that all of the input was accepted; a failure leaves an accepted prefix |
| `BufferedWriterObject.BufferedWriter.Flush` | src/observer/net/buffered_writer.cpp:83-94 | success means that everything accepted was sent and nothing is buffered |
| `BufferedWriterObject.BufferedWriter.FlushInternal` | src/observer/net/buffered_writer.cpp:96-131 | keeps the byte stream; success sends what was asked for or empties the buffer, and stops as soon as it does; it fails exactly when the system fails |
| `BufferedWriterObject.BufferedWriter.Close` | src/observer/net/buffered_writer.cpp:30-44 | closes only after everything accepted was sent; a failed flush leaves it open |
| `Calendar.DateRoundTrip` | src/common/time/datetime.h:232-252 | `get_ymd` gives back every Gregorian date from 1 March -4800 on from its day number |
| `Calendar.DayNumberRoundTrip` | src/common/time/datetime.h:232-252 | `julian_date` gives back every day number from -32044 on, and the date between is valid |
| `Calendar.GetYmdValidIff` | src/common/time/datetime.h:241-252 | `get_ymd` gives a valid date if and only if the day number is at least -32044 |
| `Calendar.NextDayIsNextNumber` | src/common/time/datetime.h:232-238 | consecutive calendar days, under the 4/100/400 rule, have consecutive numbers |
| `Calendar.MaxDayIsMonthLength` | src/common/time/datetime.cpp:233-251 | `max_day_in_month_for` is the Gregorian month length for every year |
| `DateTimeObject.HmsRoundTrip` | src/common/time/datetime.h:109-116 | the components of a time make up that time again |
| `DateTimeObject.HmsComponents` | src/common/time/datetime.h:204-207 | components of any sign come back from a time if and only if they are in their ranges and have one sign |
| `DateTimeObject.CarryOneMonth` | src/common/time/datetime.cpp:212-227 | one pass of the day-carry loop keeps the day number |
| `DateTimeObject.DateTime.AddDuration` | src/common/time/datetime.cpp:159-231 | the whole-second instant moves by exactly the days and the time of the duration from the month-shifted date if and only if the day aimed at is not before the year of that date, and comes out too early otherwise; durations without negative fields always get there; milliseconds are dropped |
| `DateTimeObject.DateTime.CarryDays` | src/common/time/datetime.cpp:210-227 | for every day, also below one: the day-carry loop ends with a valid date of the same day number if and only if the day is not before 1 January of its year; otherwise the result is too early |
| `DateTimeObject.ShiftCounts` | src/common/time/datetime.cpp:177-209 | the shifted date is in the month that lies as many years and months on, with its day kept unless the month is too short for it |
| `DateTimeObject.NewYearsEveMissed` | src/common/time/datetime.cpp:212-227 | one day back from 1 January of any year does not give 31 December |
| `DateTimeObject.BackBeforeJanuary` | src/common/time/datetime.cpp:213-215 | once January is passed no step back makes up for the days missed |
| `DateTimeObject.DateTime.AddSeconds` | src/common/time/datetime.h:170-185 | for every number of seconds, and again after itself: the instant moves by exactly that much; the time stays below a day if and only if the sum does not hit midnight exactly |
| `DateTimeObject.DateTime.Minus` | src/common/time/datetime.h:319-324 | the difference of two instants in whole seconds |
| `Crc32.Compute` | src/common/math/crc.cpp:272-279 | the table-driven loop computes the bit-at-a-time reflected CRC with polynomial 0xEDB88320 of section 8 of RFC 1952, without the final complement, for every buffer of signed chars |
| `Crc32.CheckValue` | src/common/math/crc.cpp:272-279 | the check of the letter a is the complement of its CRC-32 |
| `Crc32.TableEntry` | src/common/math/crc.cpp:15-270 | all 256 table entries are right |
| `Crc32.TableStepIsShift` | src/common/math/crc.cpp:276 | one table step is eight bit steps, for every register and byte |
| `Md5Block.Transform` | src/common/math/md5.cpp:235-323 | the 64 unrolled steps are the four rounds of section 3.4 of RFC 1321, with its word order, shifts and sine table |
| `Md5Vector.AlphabetDigest` | src/common/math/md5.cpp:154-323 | the digest of the 26 letters is the one in appendix A.5 of RFC 1321, which fixes the auxiliary functions, the shifts, the sine table, the initial registers, the padding and both byte orders at once |
| `Md5Block.FSelects` | src/common/math/md5.cpp:112 | bit by bit: `F` takes y where x has ones and z elsewhere |
| `Md5Block.GSelects` | src/common/math/md5.cpp:113 | bit by bit: `G` takes x where z has ones and y elsewhere |
| `Md5Block.HIsParity` | src/common/math/md5.cpp:114 | bit by bit: `H` takes z where x and y agree and turns it over elsewhere |
| `Md5Block.ITurnsOver` | src/common/math/md5.cpp:115 | bit by bit: `I` turns y over where x has ones or z has zeros, and takes y elsewhere |
| `Md5Block.RotateMovesBit` | src/common/math/md5.cpp:120 | rotation by n places moves bit i to bit (i + n) mod 32 |
| `Md5Block.AddsEach` | src/common/math/md5.cpp:313-316 | each register is added to its own result of the steps |
| `Md5Block.EncodeWordPlaces` | src/common/math/md5.cpp:329-339 | the bytes of a word by place value, the least significant first |
| `Md5Block.DecodeInvertsEncode` | src/common/math/md5.cpp:329-352 | `Decode` inverts `Encode` |
| `Md5Object.DigestChunks` | src/common/math/md5.cpp:154-323 | with `MD5Transform` for every block: however a message is cut into update calls whose block loops end, the digest is that of the whole message padded and folded as in sections 3.1 to 3.5 of RFC 1321 |
| `Md5Object.Md5Context.Update` | src/common/math/md5.cpp:170-200 | on inputs for which the block loop ends: the state is that of all complete blocks so far, the buffer holds the rest, the count is right modulo 2^64 |
| `Md5Object.Md5Context.Final` | src/common/math/md5.cpp:206-230 | the digest of everything fed; the context is wiped |
| `Md5Object.DigestBuffer` | src/common/math/md5.cpp:391-399 | the digest of one buffer of any length below 2^32 |
| `Md5Object.DigestFile` | src/common/math/md5.cpp:401-420 | the digest of a file read in pieces |
| `Md5Spec.CountAdds` | src/common/math/md5.cpp:178-181 | the carry test is right for every length below 2^32 |
| `Md5Spec.LoopEndsIff` | src/common/math/md5.cpp:187-192 | for every message so far and every input length: the block loop in 32 bits ends if and only if the last whole block lies below 2^32 - 63 |
| `Md5Spec.LoopNeverEnds` | src/common/math/md5.cpp:187-192 | behind one byte, the block loop on 2^32 - 1 bytes goes on for ever |
| `Md5Spec.GuardExactIff` | src/common/math/md5.cpp:191 | the loop test in 32 bits agrees with the one on numbers if and only if the position is below 2^32 - 63 |
| `Md5Spec.ShortInputsNeverWrap` | src/common/math/md5.cpp:191 | inputs shorter than 2^32 - 63 bytes never reach such a position |
| `Md5Spec.PaddedIsWhole` | src/common/math/md5.cpp:217-222 | padded messages are whole blocks |
| `StorageLogSpec.TruncatedReplay` | src/storage/slog/ob_storage_logger.cpp:61-97 | for every sequence of entries and every byte prefix of the file, replay delivers exactly the entries wholly inside it, in order and unchanged |
| `StorageLogSpec.ReplayRoundTrip` | src/storage/slog/ob_storage_logger.cpp:36-97 | the whole file gives back all entries |
| `StorageLogSpec.HeaderFields` | src/storage/slog/ob_storage_logger.cpp:43-48 | magic at byte 0, total size at 4, tenant at 8, type at 16, data length at 20 |
| `StorageLogSpec.NextOfPrefix` | src/storage/slog/ob_storage_logger.cpp:69-78 | one entry is read if and only if all its bytes are there |
| `StorageLogObject.StorageLogger.ReplayFile` | src/storage/slog/ob_storage_logger.cpp:61-97 | the read loop delivers what the bytes mean |
| `StorageLogObject.StorageLogger.ReplayAfterCrash` | src/storage/slog/ob_storage_logger.cpp:61-97 | after a crash that keeps any prefix of the file, the entries wholly inside it |
| `RowFormat.DecodeEncodeRow` | src/storage/blocksstable/ob_micro_block_writer.cpp:54-65 | an encoded row, whatever follows it, decodes to itself |
| `MicroFormat.MicroRoundTrip` | src/storage/blocksstable/ob_micro_block_writer.cpp:78-106 | a micro block in front of anything gives back its rows through its index, and its header tells its row count and length |
| `MacroFormat.MacroRead` | src/storage/blocksstable/ob_macro_block.cpp:63-81 | an emitted block gives back all its rows through its headers; one whose header counts a micro block that is not there gives nothing |
| `RowFormat.RowLayout` | src/storage/blocksstable/ob_micro_block_writer.cpp:54-65 | flag, key length, key, value length and value at their bytes |
| `MicroFormat.MicroHeaderLayout` | src/storage/blocksstable/ob_micro_block_writer.cpp:91-102 | row count at byte 16, row index at 24, length at 28, 40 and 44 of the micro block header |
| `MacroFormat.CommonHeaderLayout` | src/storage/blocksstable/ob_macro_block.cpp:71-77 | header size, version, magic and type, and the payload size at byte 16 |
| `MacroFormat.FixedStartLayout` | src/storage/blocksstable/ob_macro_block.cpp:38-44 | header size, version, magic, tablet, column count at byte 32 and rowkey column count at 36 |
| `MacroFormat.FixedHeaderLayout` | src/storage/blocksstable/ob_macro_block.cpp:65-69 | row count at byte 44, occupied size at 48, micro block count at 52, offset and size of the data at 56 and 60 |
| `BlockWriterSpec.RunReadsBack` | src/storage/blocksstable/ob_macro_block_writer.cpp:42-143 | for every run of appends and the close: the rows decoded from the emitted blocks are the appended rows, in order, if and only if each append kept its row and the rows left over found room |
| `BlockWriterSpec.NothingLostIff` | src/storage/blocksstable/ob_macro_block_writer.cpp:42-143 | for every run: nothing is lost at any macro block size that has room for a micro block if and only if every micro block that is cut keeps to the configured size |
| `BlockWriterSpec.FittingRunReadsBack` | src/storage/blocksstable/ob_macro_block_writer.cpp:42-143 | if a macro block has room for a micro block and every micro block keeps to the configured size, all rows come back in order |
| `BlockWriterSpec.PendingIsWaiting` | src/storage/blocksstable/ob_macro_block_writer.cpp:48-67 | which rows wait for their micro block depends on the rows and the micro block size alone |
| `BlockWriterSpec.SlackIsEnough` | src/storage/blocksstable/ob_macro_block_writer.cpp:55-67 | it is enough that each row with the index of its own micro block so far fits the 4096-byte slack, however rows of different lengths are mixed |
| `BlockWriterSpec.SuitedRunReadsBack` | src/storage/blocksstable/ob_macro_block_writer.cpp:42-143 | in particular rows of about the same length, of which a whole index fits the slack, are never lost |
| `BlockWriterSpec.AppendSound` | src/storage/blocksstable/ob_macro_block_writer.cpp:42-89 | an append loses nothing if and only if the pending rows need not be written now or find room |
| `BlockWriterSpec.ClosedReadsBack` | src/storage/blocksstable/ob_macro_block_writer.cpp:118-143 | after the close the blocks decode to the appended rows if and only if nothing was dropped, and then all headers count their rows and micro blocks |
| `BlockWriterSpec.RunSound` | src/storage/blocksstable/ob_macro_block_writer.cpp:42-89 | every run keeps the accounting of rows in blocks, in the current macro block and pending |
| `BlockWriterSpec.AppendSettled` | src/storage/blocksstable/ob_macro_block_writer.cpp:69-85 | between calls the pending rows do not fill a micro block and the macro block has room for one, unless no macro block has |
| `BlockWriterSpec.SmallRowsAreKept` | src/storage/blocksstable/ob_macro_block_writer.cpp:55-67 | what a caller can check so that an append keeps its row |
| `BlockWriterSpec.LossIsReported` | src/storage/blocksstable/ob_macro_block_writer.cpp:61-64 | if a macro block has room for a micro block, an append fails to keep the pending rows if and only if it is refused |
| `BlockLoss.RefusalCosts` | src/storage/blocksstable/ob_macro_block_writer.cpp:56-64 | a refused append drops its row and all rows since the last micro block, every one of which had been accepted |
| `BlockLoss.EqualRowsKeptIff` | src/storage/blocksstable/ob_macro_block_writer.cpp:55-85 | for all sizes: runs of equal rows, however long, are kept if and only if the macro block is as large as a size computed from those of row and micro block; without room for a micro block, as large as one row needs |
| `BlockLoss.TightRunKeptIff` | src/storage/blocksstable/ob_macro_block_writer.cpp:69-84 | if no macro block has room for a micro block, any run is kept if and only if each row alone fits in a macro block |
| `BlockLoss.RefusedForEver` | src/storage/blocksstable/ob_macro_block_writer.cpp:55-85 | after every run: once a micro block of equal rows is refused while the writer sees no need to flush, no such row is stored or emitted any more |
| `BlockLoss.StuckForEver` | src/storage/blocksstable/ob_macro_block_writer.cpp:55-85 | a run of equal rows that the macro block does not suit never emits a block and never stores a row beyond those of its first micro blocks |
| `BlockLoss.DefaultSizesLoseRows` | src/storage/ob_define.h:49-50 | at the sizes of the repository, of rows with 8-byte keys and values the 72240th is refused, the 10319 before it, all of them accepted, go with it, and whatever number is appended no more than 61920 are in micro blocks |
| `BlockLoss.DefaultMergeLosesRows` | src/storage/compaction/ob_compaction.cpp:26-31 | a merge of 72240 or more such rows never reads back what was appended |
| `BlockWriterSpec.BigRowIsRefused` | src/storage/blocksstable/ob_macro_block_writer.cpp:61-64 | with macro blocks of 12288 bytes and micro blocks of 8192 a row of 8201 bytes is refused |
| `BlockWriterSpec.RowIsDropped` | src/storage/blocksstable/ob_macro_block_writer.cpp:78-84 | with macro blocks smaller than a micro block (4196 and 8192 bytes) an append can report success and drop the row |
| `BlockWriterSpec.SeqsDistinct` | src/storage/blocksstable/ob_macro_block_writer.cpp:20-28 | writers side by side never give two blocks the same number while each emits fewer than a million |
| `BlockWriterSpec.SeqsCollide` | src/storage/blocksstable/ob_macro_block_writer.cpp:20-28 | the millionth block of a writer has the number of the next writer's first |
| `BlockWriterObject.MicroBlockWriter.AppendRow` | src/storage/blocksstable/ob_micro_block_writer.cpp:47-76 | the buffer, the offsets and the counts after one more row |
| `BlockWriterObject.MicroBlockWriter.BuildBlock` | src/storage/blocksstable/ob_micro_block_writer.cpp:78-107 | index appended, header patched into the reserved bytes, and the writer starts over |
| `BlockWriterObject.MacroBlock.WriteMicroBlock` | src/storage/blocksstable/ob_macro_block.cpp:51-61 | the bytes go behind what is there if and only if there is room; otherwise nothing changes |
| `BlockWriterObject.MacroBlockWriter.AppendRow` | src/storage/blocksstable/ob_macro_block_writer.cpp:42-89 | the next state of the writer, success or refusal, and the block and number that go out, if any |
| `BlockWriterObject.MacroBlockWriter.Close` | src/storage/blocksstable/ob_macro_block_writer.cpp:118-143 | the last block goes out and the writer takes no more rows |
| `SSTableMetaSpec.MetaRoundTrip` | src/storage/blocksstable/ob_sstable_meta.cpp:55-110 | `deserialize` inverts `serialize`, with the macro block count set to the number of records |
| `SSTableObject.TileReads` | src/storage/blocksstable/ob_sstable.cpp:64-82 | the recorded range of block i holds block i |
| `SSTableObject.TileCovers` | src/storage/blocksstable/ob_sstable.cpp:47-53 | the recorded ranges follow each other without gap or overlap and cover the file |
| `SSTableObject.ReloadedMetaIff` | src/storage/blocksstable/ob_sstable_meta.cpp:108 | the loaded meta is the one in memory if and only if the macro block count started at zero |
| `SSTableObject.SSTable.CreateFromBlocks` | src/storage/blocksstable/ob_sstable.cpp:28-62 | for any list of blocks: the data file is the blocks end to end, the records tile it, the occupied size (field 1) grows by its length and the macro block count (field 6) by the number of blocks, the other ten fields and the rest of the basic meta are as given, and the meta file is the meta in memory |
| `SSTableMetaSpec.MetaLayout` | src/storage/blocksstable/ob_sstable_meta.cpp:55-72 | basic meta, length and bytes of the root block, number of records and records at their bytes |
| `SSTableMetaSpec.BasicLayout` | src/storage/blocksstable/ob_sstable_meta.cpp:58 | field i of the basic meta at byte 8 i, tree height, store type and flag behind them |
| `SSTableObject.SSTable.Init` | src/storage/blocksstable/ob_sstable.cpp:15-26 | loads on top of what the object holds; it then has the records of the file if and only if it had none before |
| `SSTableMetaSpec.LoadIs` | src/storage/blocksstable/ob_sstable_meta.cpp:74-110 | `deserialize` succeeds on the same files for every object, replaces basic meta and root block, and appends the records |
| `SSTableObject.SSTable.ReadMacroBlock` | src/storage/blocksstable/ob_sstable.cpp:64-82 | the recorded range, or an error for an index out of range or a table that is not open |
| `SSTableObject.WriteThenReopen` | src/storage/blocksstable/ob_sstable.cpp:15-82 | a table written from any blocks and opened again gives back block i, byte for byte, for every i |
| `SSTableBuilderObject.BuildBlocks` | src/storage/compaction/ob_compaction.cpp:17-31 | all rows appended, whatever the appends return, give the blocks and numbers of the whole run |
| `SSTableBuilderObject.MiniMergeThenRead` | src/storage/compaction/ob_compaction.cpp:11-34 | rows through writer, builder and files, and back through reopening, reading and decoding: the same rows in order if and only if each was kept, which they are if every micro block keeps to the configured size |
| `DdlProtocol.AlwaysSafeIff` | src/rootserver/ob_ddl_service.cpp:56-257 | for every interleaving of any number of calls (with names of at most 127 bytes), crashes and restarts: a restart at any time would keep all ids if and only if every insertion was that of the first logged name that the schema lacked |
| `DdlProtocol.StepKeepsInv` | src/rootserver/ob_ddl_service.cpp:56-257 | every orderly step of calls (log, look, insert, note), crashes and recovery keeps the schema in step with the logs |
| `DdlProtocol.InsertKeepsInvIff` | src/rootserver/ob_ddl_operator.cpp:9-16 | an insertion keeps it in step if and only if the name is the first logged one that the schema lacks |
| `DdlProtocol.InsertInOrderIff` | src/rootserver/ob_ddl_operator.cpp:12-15 | the same for the ids alone, also when another call has inserted the name between look and insertion |
| `DdlProtocol.IdsNeverChange` | src/rootserver/ob_ddl_service.cpp:204-257 | over every orderly run, whenever the server serves again, every database has the id it had |
| `DdlProtocol.RecoveryAddsOnlyLost` | src/rootserver/ob_ddl_service.cpp:204-228 | recovery extends the schema served before the crash, and adds only names of calls that were logged but not inserted |
| `DdlProtocol.AloneRunsOrderly` | src/rootserver/ob_ddl_service.cpp:56-79 | calls made one at a time give an orderly run, with any crashes and restarts |
| `DdlProtocol.AloneRecovery` | src/rootserver/ob_ddl_service.cpp:56-79 | with calls made one at a time recovery adds at most the one call under way |
| `DdlProtocol.TwoCallsSwapIds` | src/rootserver/ob_ddl_service.cpp:72-79 | two calls under way together can have their ids swapped by a restart |
| `DdlProtocol.SameNameTwice` | src/rootserver/ob_ddl_operator.cpp:12-15 | two calls with one name that both look before either inserts give two databases, of which a restart leaves one |
| `DdlProtocol.LogsAreTheCalls` | src/rootserver/ob_ddl_service.cpp:56-173 | for every interleaving, with crashes: the commit log is the calls that were started, in order, and the storage log those that ran to their end |
| `DdlProtocol.StepWrites` | src/rootserver/ob_ddl_service.cpp:56-257 | what each step changes: the logs grow at their ends only and outlive a crash, which loses calls and schema; a step of one call leaves all others as they are |
| `DdlProtocol.CallGoesOn` | src/rootserver/ob_ddl_service.cpp:72-173 | a call is logged, looks, inserts and notes, in this order; it ends early if and only if it finds its name |
| `DdlProtocol.WholeCall` | src/rootserver/ob_ddl_service.cpp:56-173 | the four steps of an undisturbed call have the effect of `create_database` |
| `DdlProtocol.Recovery` | src/rootserver/ob_ddl_service.cpp:204-228 | the replay steps end in a serving state with the recovered schema |
| `DdlSpec.SlogAddsNothingIff` | src/rootserver/ob_ddl_service.cpp:215-224 | replay of the storage log after the commit log changes nothing if and only if no name in it is longer than 127 bytes |
| `DdlSpec.LongNameIsDoubled` | src/share/schema/ob_schema_service.cpp:106-108 | one long name, created once, gives two databases after a restart |
| `DdlServiceObject.DdlService.CreateDatabase` | src/rootserver/ob_ddl_service.cpp:56-173 | log record, schema and storage log afterwards, for new and for existing names |
| `DdlServiceObject.DdlService.RecoverSchema` | src/rootserver/ob_ddl_service.cpp:204-228 | the schema of both logs; that of the commit log alone if and only if no noted name is too long |
| `DdlServiceObject.DdlService.CreateInSchema` | src/rootserver/ob_ddl_operator.cpp:9-16 | conflict or new database |
| `DdlServiceObject.SchemaService.GetDatabaseSchema` | src/share/schema/ob_schema_service.cpp:156-163 | the scan finds the name if and only if it is there |
| `DdlServiceObject.SchemaService.CreateDatabase` | src/share/schema/ob_schema_service.cpp:135-143 | the next id, and the name as far as its field holds it |
| `DdlDiskObject.RecoverFromDisk` | src/rootserver/ob_ddl_service.cpp:204-228 | a new process rebuilds the schema from the block files of the commit log, up to its first crossing entry, and then from the storage log; for a torn entry, from whatever the read buffer holds |
| `DdlDiskSpec.AnyDiskRebuilds` | src/storage/logservice/ob_log_handler.cpp:80-105 | without torn entries the commit log on disk, whatever records it holds, gives the schema of the names in the entries before the first crossing one, and of all if every entry is inside |
| `DdlDiskSpec.DiskRebuilds` | src/rootserver/ob_ddl_service.cpp:208-213 | for a log of CREATE DATABASE records: the schema of that many of the logged names |
| `DdlDiskSpec.DiskKeepsAllIff` | src/rootserver/ob_ddl_service.cpp:208-213 | the commit log alone then keeps every database if and only if no entry from the first crossing one on names a new one |
| `DdlDiskSpec.SlogRepairs` | src/rootserver/ob_ddl_service.cpp:215-224 | a storage log that notes every database in the order of the ids gives all of them their ids again, however few records of the commit log are left |
| `DdlDiskSpec.DiskRecovers` | src/rootserver/ob_ddl_service.cpp:204-228 | both logs together, without torn entries |
| `DdlDiskSpec.ThreeLetterDatabases` | src/rootserver/ob_ddl_service.cpp:61-72 | of databases with three-letter names the commit log on disk gives back the first 808491 records |
| `DdlDiskSpec.NameInRecord` | src/storage/logservice/ob_log_handler.cpp:55-105 | a record comes back through the base header and the type dispatch |
| `DdlServiceObject.RecordLayout` | src/rootserver/ob_ddl_service.cpp:61-68 | type, length of the name and name at their bytes |
| `DdlDiskSpec.LogRecordLayout` | src/storage/logservice/ob_log_handler.cpp:62-69 | version and type of the base header in front of the record |
| `DdlDiskObject.AppendCreate` | src/storage/logservice/ob_log_handler.cpp:55-78 | one more record at the end of the log on disk |
| `PalfObject.PalfLog.RestartAndReplay` | src/storage/logservice/ob_log_service.cpp:90-140 | after any appends and restarts a new process is given the entries before the first one whose header crosses the end of its block, in order, each with its payload unless one read does not take all of it, and nothing appended later; everything, unharmed, if and only if every entry ends in the block in which it starts and fits the 4096-byte read buffer |
| `PalfSpec.RestartGives` | src/storage/logservice/ob_log_service.cpp:90-140 | the same about the files: where the scan ends, exactly what is delivered, and when that is everything |
| `PalfSpec.AppendKeeps` | src/storage/logservice/palf/log_storage.cpp:109-134 | an append keeps the entries that survive, also when it overwrites what a restart no longer saw |
| `PalfSpec.ScanStops` | src/storage/logservice/palf/palf_handle_impl.cpp:31-52 | the scan ends at the first entry whose header crosses the end of its block, or at the end of the log |
| `PalfSpec.EntryRead` | src/storage/logservice/palf/log_storage.cpp:136-161 | what one read, clipped at the end of the block, shows of an entry |
| `PalfSpec.LargeEntryIsTorn` | src/storage/logservice/ob_log_service.cpp:109-131 | a lone payload of more than 4048 bytes is found, but what is delivered is torn |
| `PalfSpec.ThreeLetterNamesCross` | src/storage/logservice/palf/palf_handle_impl.cpp:31-52 | of 83-byte entries the first 808491 are delivered unharmed, and everything behind them is lost at the next restart |
| `PalfSpec.ReadEncodedHead` | src/storage/logservice/palf/log_entry.cpp:60-93 | size and end come back from a header, although the checksum is written over the log id |
| `PalfSpec.HeadLayout` | src/storage/logservice/palf/log_entry.cpp:60-76 | every header field at its bytes, the log id without its lower half |
| `PalfSpec.WriteAtGives` | src/storage/logservice/palf/log_storage.cpp:125-127 | the bytes are where they were written, a gap is zeros, and the rest of the file is as it was |
| `PalfObject.PalfLog.Append` | src/storage/logservice/palf/palf_handle_impl.cpp:99-142 | one more entry at the known end of the log, which keeps what survives |
| `PalfObject.PalfLog.FindEnd` | src/storage/logservice/palf/palf_handle_impl.cpp:34-54 | the loop of `init` computes the scan |
| `PalfObject.PalfLog.ReplayAllEntries` | src/storage/logservice/ob_log_service.cpp:107-137 | the loop of `replay_ls` computes the replay |

## Left out

- Machine integers other than those named above: counters of rows, locks and cache entries, day numbers and LSNs are
  unbounded in the model, as are 64-bit file offsets except in the table meta.
- BufferedWriterObject.Descriptor.Write: the answers of the operating system are a finite list, so a descriptor that
  answers EAGAIN or 0 for ever, on which the source spins, is not modelled.
- BufferedWriterObject.BufferedWriter.WriteN: asks for a ring of at least one byte; with none the source loops for ever.
- Md5Object.Md5Context.Update: asks that the block loop ends, for which `Md5Spec.LoopEndsIff` gives the exact condition;
  on other inputs the source runs for ever, which is not modelled.
- DateTimeObject.DateTime.AddDuration: asks that the months do not go back past January, where the source counts 28 days
  in every month, and that dates stay after the year -4800; the parsing of duration strings is not modelled.
- DateTimeObject.DateTime.CarryDays: asks that a walk back stays after the year -4800.
- StorageLogSpec.NextOfPrefix: a negative length in a damaged header ends the replay in the model; the source would ask
  for that much memory.
- DdlServiceObject.DdlService.Replay: asks that names fit the 256-byte buffer of the source, which does not look.
- DdlServiceObject.DdlService.RecoverSchema: asks the same of all logged names.
- DdlServiceObject.DdlService.CreateDatabase: is one call alone; overlapping calls are steps in `DdlRecovery.dfy`. It
  takes the commit log as an ordered list of records; `DdlDisk.dfy` has the log on disk. The block that the source
  writes for each new database is not modelled.
- DdlDiskObject.RecoverFromDisk: asks that the names handed to the replay fit its 256-byte buffer.
- PalfObject.PalfLog.ReplayAllEntries: stops at an entry that does not end behind its start; the source only stops when
  it is back at the first block. No log that `append` writes has such an entry.
- BlockWriterObject.MacroBlockWriter.Open: asks that a macro block holds at least the 4096 reserved bytes and is smaller
  than 2 GB; otherwise the source reads past its buffer or truncates sizes.
- SSTableObject.SSTable.ReadMacroBlock: asks that sizes in the records are not negative; no written table has such a
  record, and the source would throw.
- LockTrace with records made in another order than the events they stand for, which the source allows since it records
  a grant after the lock is taken; recursive locking depth, and `checkLockTimes`. File and line of a lock record are
  dropped.
- `ObKVCache::init` on a cache that is not empty, and the empty `pop` of `LruCache`; the hash set of `LruCache` is a set
  of nodes.
- DROP DATABASE and CREATE TABLE: drops are never logged, and replay of a table loses its columns.
- Storage log appends after a torn tail.
- Row counts in the table meta, which `create_from_blocks` sets to 0; index blocks, which are not written.
- Memtable, MVCC, freeze, tablet reads and the merge of several tables: stubs, or code with other gaps.
- PALF meta entries, log cache, I/O worker, truncation and roles.
- Thread pool, communicators, SQL layer, logging and configuration: I/O or dispatch.
- Bitmap, memory pool, serializer and string helpers: these would only add easy members.
