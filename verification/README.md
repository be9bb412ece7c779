# Verified models of concurrent and exact algorithms

This project models the hard algorithms of the emulator's `Utilities` directory and of its AES implementation in
Dafny, and proves what they promise.

* **Locks.** `SharedMutex`, `Semaphore` and `CondVariable` are step systems: one step per atomic access, any number of
  threads up to the limit the packed words allow, any interleaving. Waiting is as with a futex: a thread sleeps only
  if the word still has the value it saw, `notify_one` wakes one sleeper if there is one, and sleepers may wake up for
  no reason. A run is a sequence of actions, and the promises hold after every run. `SharedMutexProgress` and
  `SemaphoreProgress` add what a call achieves when no other thread interferes.
* **Lock-free structures.** `RingBuffer` interleaves single byte copies and compare-and-swaps of one writer and one
  reader and refines a bounded queue. `LockFreeBunch` and `LockFreeQueue` are linked lists on an explicit heap with any
  number of threads. `JitMemory` is the concurrent bump allocator for generated code. `RingBufferProgress` and
  `LockFreeProgress` show that their calls come to an end, and with what; `LockFreeWait` adds waiting for the queue.
* **AES.** `AesWords`, `Aes`, `AesRounds` and `AesKeys` follow FIPS 197 over an abstract field, so that the reasoning
  about rounds never descends to bits; `AesStandard` shows that the program's S-boxes and GF(2^8) products (`AesSbox`,
  `Gf256`) are such a field. `AesExpansion`, `AesContext` and `AesModeCode` hold the loops over round keys and buffers,
  `AesModes` the modes of NIST SP 800-38A, `AesStandardModes` the modes with the program's tables. The look-up tables
  appear through their defining equations.
* **CRC.** `Bits` models unsigned integers of any width as bit sequences. `Crc` is the reflected algorithm, `CrcMirror`
  the other one, `CrcChecks` whole checks, `CrcBursts` the errors they notice, `CrcCode` the loops.
* **Base57.** `Numerals` is positional notation, `Base57` the coding, `Base57Laws` its properties, `Base57Code` the loops.
* **Address ranges.** `AddressRange` states what merging and excluding leave, `AddressRangeVector` is the class.
* **Gathered files.** `GatherStream` is the index of end offsets and what reads find through it, `GatherRead`
  what the seeking reads find, `GatherFile` the class.

`Threads`, `Arithmetic` and `Basics` hold shared notions and facts about counting and division.
`dafny verify dfyconfig.toml` checks everything.

## Where the code falls short

Each of these has the exact condition under which the property holds.

* `CrcChecks.PartsJoin`, `CrcChecks.UndoExactly`: the source says that undoing the final step always restores the
  remainder. It does for the bits of the width; the bits above matter for reflected checks.
* `AddressRange.MergeIsUnion`: `touches` compares wrapped addresses, so that a range at the end of the address space
  touches one at the start, and merging them covers everything between.
* `AddressRangeVector.ExcludeKeepsCheck`, `AddressRangeVector.WholeSplit`: for the same reason the consistency check
  rejects the correct result of `exclude` exactly when a range of all addresses is cut in the middle.
* `JitMemory.CallEnds`, `JitMemory.RefusalIsFinal`: a call for an empty block that lands at the end of the subrange is
  granted, also after a refusal, and then fails its last check. `JitMemory.OneByteThenEmpty` and
  `JitMemory.RefusedThenEmpty` are such runs.
* `GatherFile.SlicesIffOrdered`, `GatherFile.ReadsOnIffOrdered`: an end offset that occurs twice is not entered twice,
  so that after an empty file the following ones get the numbers of earlier ones.
* `Semaphore.WaitOverflowLimit`: the overflow check of a waiting thread can fire with 65535 threads already, because a
  thread that is registered passes the check again when it wakes up.

## Model

| member | source | states |
|---|---|---|
| `SharedMutex.ExecEffect` | Utilities/mutex.cpp:5-160 | Every step of lock, unlock, the shared calls, signal stealing, upgrade and downgrade is one of twelve changes of the word and of the role of the stepping thread, and no `ensure` of the lock fails in it. |
| `SharedMutex.EffectKeeps` | Utilities/mutex.h:10-17 | Each of these changes keeps the word equal to readers + 2^14 (writers + waiters) + 2^30 signal, with one ownership token. |
| `SharedMutex.AfterInv` | Utilities/mutex.cpp:5-160 | The invariant holds after every interleaving of up to 65535 threads, with spurious wake-ups. |
| `SharedMutex.MutualExclusion` | Utilities/mutex.h:31-152 | In no reachable state does a writer coexist with another writer or with a reader. |
| `SharedMutex.NoFailure` | Utilities/mutex.cpp:5-160 | No reachable state has a thread whose underflow or overflow check failed. |
| `SharedMutex.OneToken` | Utilities/mutex.cpp:46-135 | In every reachable state the word is exactly what the threads hold plus at most one signal, and exactly one of readers, writer, thread about to signal and posted signal exists, unless the word is zero. |
| `SharedMutex.SignalIsAttended` | Utilities/mutex.cpp:57-85 | While the signal is posted, some waiter is awake or some thread is about to notify. |
| `SharedMutex.SleeperIsServed` | Utilities/mutex.cpp:57-85 | While a thread sleeps, some other thread owns the lock, is about to signal, is awake as a waiter, or is about to notify. |
| `SharedMutex.AllOutMeansFree` | Utilities/mutex.h:65-120 | When every thread is outside all calls and holds nothing, the word is zero. |
| `SharedMutex.WriterPosts` | Utilities/mutex.cpp:125-135 | Unlocking by a writer while others wait takes its share out of the word and puts the signal in. |
| `SharedMutex.LastReaderPosts` | Utilities/mutex.cpp:46-55 | The last reader to leave while others wait takes its share out of the word and puts the signal in. |
| `SharedMutex.SleeperReceives` | Utilities/mutex.cpp:57-85 | A sleeper notified while the signal is posted owns the lock after its next step. |
| `SharedMutex.HandOver` | Utilities/mutex.cpp:57-135 | Unlock, signal, notification and the next step of a sleeper make the sleeper the owner; nobody else moves. |
| `SharedMutexProgress.LockGoesThrough` | Utilities/mutex.cpp:87-123 | When the lock is free or its signal is posted, lock succeeds in five steps of a thread that runs alone, from its start and from every point before it registers as a waiter. |
| `SharedMutexProgress.SharedGoesThrough` | Utilities/mutex.cpp:5-44 | The same for lock_shared, in seven steps. |
| `SharedMutexProgress.SharedJoins` | Utilities/mutex.h:39-47 | While only readers hold the lock and nobody waits, lock_shared joins them in two steps. |
| `SharedMutexProgress.UpgradeGoesThrough` | Utilities/mutex.cpp:137-160 | The only reader upgrades in three steps of its own, whoever waits. |
| `SharedMutexProgress.TryCalls` | Utilities/mutex.h:31-138 | Running alone, the three try calls succeed exactly when the lock is free, when only readers hold it and fit, and when the caller is the only reader; a failed attempt changes nothing. |
| `SharedMutexProgress.DowngradeUndoesUpgrade` | Utilities/mutex.h:140-152 | In every run, lock_downgrade after lock_upgrade of the only reader restores the lock word and all threads. |
| `SharedMutexProgress.DowngradeAdmitsReaders` | Utilities/mutex.h:148-152 | After lock_downgrade of a writer nobody waits for, another thread joins as a reader by lock_shared or try_lock_shared, and try_lock fails. |
| `SharedMutexProgress.WaiterSleeps` | Utilities/mutex.cpp:57-79 | A waiter that finds no signal is asleep after two steps of its own, with the word unchanged. |
| `Semaphore.ExecEffect` | Utilities/sema.cpp:5-97 | Every step of wait, try_wait, post and try_post is one of six changes of the permit and waiter counts, or a post to a semaphore with all 65535 permits free. |
| `Semaphore.AfterInv` | Utilities/sema.cpp:5-97 | The invariant holds after every interleaving, up to the point where a caller overfills the semaphore. |
| `Semaphore.Conservation` | Utilities/sema.h:30-67 | Free permits plus permits taken equal the initial ones plus those returned, and the waiter field is the number of registered threads. |
| `Semaphore.NoLostWakeup` | Utilities/sema.cpp:5-70 | Awake registered threads and notifications in flight are at least the smaller of free permits and registered threads, although a post notifies only when waiters outnumber permits. |
| `Semaphore.SleeperIsServed` | Utilities/sema.cpp:5-70 | While a permit is free, no thread sleeps without somebody awake or about to notify. |
| `Semaphore.WaitOverflowLimit` | Utilities/sema.cpp:20-50 | The overflow check of the waiting loop can fail in some run in which no caller has overfilled the semaphore if and only if there are more than 65534 threads. |
| `SemaphoreProgress.WaitGoesThrough` | Utilities/sema.cpp:5-60 | With a permit free, wait obtains exactly one in at most four steps of a thread that runs alone, from every point at which the thread is awake. |
| `SemaphoreProgress.TryWaitAlone` | Utilities/sema.h:42-54 | In every run, try_wait obtains a permit exactly when more permits were given than taken so far, and otherwise changes nothing. |
| `SemaphoreProgress.PostAlone` | Utilities/sema.cpp:72-97 | In every run, post gives a permit, and try_post exactly when those given exceed those taken by no more than the maximum; unless all 65535 were free, the next try_wait of an idle thread takes it back and restores the word. |
| `CondVariable.WaiterField` | Utilities/cond.h:20-34 | The waiter field counts the waiting threads, and the word is zero exactly when there are none. |
| `CondVariable.SignalsGrow` | Utilities/cond.cpp:5-55 | No step lowers the signal count unless the last waiter leaves. |
| `CondVariable.WakeTells` | Utilities/cond.cpp:27-55 | A sent signal reaches every registered thread that is not asleep, and the sleepers too for notify_all or when the signals run out; if none can be sent, a notification of all sleepers is under way. |
| `CondVariable.ToldNeverSleeps` | Utilities/cond.cpp:5-25 | A registered thread that a signal reached cannot fall asleep any more. |
| `CondVariable.NotifyAllDelivers` | Utilities/cond.cpp:27-55 | A sleeper told by notify_all is asleep only until that call has finished notifying. |
| `CondVariable.WaitAlone` | Utilities/cond.cpp:5-25 | A wait that nobody disturbs sleeps after two steps; when it wakes up and leaves, the word is as before, or zero if it was the only waiter. |
| `CondVariable.NotifyOneDelivers` | Utilities/cond.cpp:27-55 | Whichever thread the scheduler picks, notify_one ends with exactly one sleeper fewer, or with none woken when nobody sleeps, and the same word and waiter count; some pick ends it. |
| `RingBuffer.Free` | Utilities/simple_ringbuf.cpp:91-98 | Used and free bytes add up to one less than the buffer size, for all positions. |
| `RingBuffer.StepRefines` | Utilities/simple_ringbuf.cpp:117-202 | Every step of the writer and of the reader, copying one byte or committing, is a step of a bounded byte queue or leaves it alone: pushes append the accepted prefix, pops return the oldest bytes, the flushes drop from the front and from the back. |
| `RingBuffer.RunRefines` | Utilities/simple_ringbuf.cpp:91-202 | Every interleaving of one writer and one reader refines the bounded queue. |
| `RingBuffer.FirstInFirstOut` | Utilities/simple_ringbuf.cpp:136-202 | Without flushes, the popped bytes followed by those still in the ring are the pushed bytes. |
| `RingBufferProgress.PushFinishes` | Utilities/simple_ringbuf.cpp:136-168 | A push of a writer that runs alone is finished after one step per byte and one more, and reports the size granted at the positions it meets. |
| `RingBufferProgress.PopFinishes` | Utilities/simple_ringbuf.cpp:170-202 | A pop of a reader that runs alone is likewise finished and answers the request it was called with; the buffer and the positions stay put until its last step. |
| `JitMemory.AfterInv` | Utilities/JITASM.cpp:142-215 | The invariant on the packed counter, the reserved blocks and the commitments holds after every interleaving. |
| `JitMemory.BlocksApart` | Utilities/JITASM.cpp:142-215 | Reserved blocks are pairwise disjoint, aligned and inside the subrange of 1 GiB. |
| `JitMemory.ReturnedIsCommitted` | Utilities/JITASM.cpp:142-215 | Every byte of a block is committed by the time the block is returned, whichever thread committed it. |
| `JitMemory.CommitsArePages` | Utilities/JITASM.cpp:142-215 | Memory is committed in whole pages of 2 MiB, at least one at a time, and the acknowledged size is a whole number of pages. |
| `JitMemory.CallEnds` | Utilities/JITASM.cpp:142-215 | In every run, an undisturbed call is refused exactly if its block does not fit; otherwise it gets the first aligned offset behind all earlier blocks and returns it, and its last ensure fails if and only if the block is empty and lies at the end of the subrange. |
| `JitMemory.GrantEnds` | Utilities/JITASM.cpp:195-215 | From every point after the reservation, three steps at most return the block, or fail in exactly that case. |
| `JitMemory.RefusalIsFinal` | Utilities/JITASM.cpp:163-173 | After one refusal a request is refused again if and only if it is not for an empty block that lands at the end of the subrange. |
| `JitMemory.FinalChecks` | Utilities/JITASM.cpp:211-212 | Under every interleaving the last ensure fails if and only if the block is empty and lies at the end of the subrange. |
| `JitMemory.OneByteThenEmpty` | Utilities/JITASM.cpp:142-215 | A run in which it fails: one byte is allocated, then an empty block with the alignment of the subrange. |
| `JitMemory.RefusedThenEmpty` | Utilities/JITASM.cpp:163-173 | A run in which a call after a refused one is granted, and fails: the first call is too large, the second asks for an empty block. |
| `LockFreeBunch.PushIfChecksAll` | Utilities/lockless.h:562-592 | For each two stored items of which the later was added by push_if, the predicate held between them, under any interleaving of pushers. |
| `LockFreeBunch.UniqueKeys` | Utilities/lockless.h:562-592 | Keys are unique when every item is added under a predicate that demands different keys. |
| `LockFreeBunch.RefusalIsJustified` | Utilities/lockless.h:562-592 | push_if gives up only when a stored item fails the predicate. |
| `LockFreeBunchProgress.PushIfDecides` | Utilities/lockless.h:563-592 | push_if on its own ends; it links its item exactly when the item passes the predicate against every stored item and otherwise leaves the list alone. |
| `LockFreeBunchProgress.RetryChecksNew` | Utilities/lockless.h:574-589 | After a failed compare-and-swap push_if has exactly the items added since its last look left to check, and there are some. |
| `LockFreeBunchProgress.PushGoesThrough` | Utilities/lockless.h:548-560 | push on its own links its item in front of the old head at the first or second attempt. |
| `LockFreeQueue.NothingLost` | Utilities/lockless.h:403-507 | The batches popped so far, followed by what is queued, are the pushed values in the order of their compare-and-swaps, each once. |
| `LockFreeQueue.PopAllInOrder` | Utilities/lockless.h:403-424 | What pop_all returns is a finite list that spells its batch, oldest value first. |
| `LockFreeQueue.PushReportsEmpty` | Utilities/lockless.h:473-507 | push appends its value, and it reports an empty queue exactly when it found it empty. |
| `LockFreeQueue.ReversalProgresses` | Utilities/lockless.h:403-424 | Every round of the in-place reversal leaves one link less to turn. |
| `LockFreeQueueProgress.PushGoesThrough` | Utilities/lockless.h:474-492 | push on its own appends its value and node at the first or second attempt. |
| `LockFreeQueueProgress.PopTakesAll` | Utilities/lockless.h:403-424 | pop_all that finds the queue not empty ends with a list that spells everything queued at its exchange, oldest first, and leaves the queue empty. |
| `LockFreeWait.NoLostWakeup` | Utilities/lockless.h:450-500 | In every run, while the queue holds something and a thread sleeps, a notification is under way or a thread that returned from wait has yet to pop, although push notifies only when it found the queue empty. |
| `LockFreeWait.ConsumerIsWoken` | Utilities/lockless.h:450-500 | If only one thread waits, it sleeps beside a queue that holds something only while a push is about to notify, and any such notification that ends wakes it. |
| `LockFreeWait.QueueRuns` | Utilities/lockless.h:403-507 | The queue of every run with waiting and notifying is the queue of some run without, so that all its promises hold. |
| `LockFreeWait.WaitAlone` | Utilities/lockless.h:450-456 | An undisturbed wait sleeps beside an empty queue and returns at once beside another. |
| `AesSbox.SboxInverse` | rpcs3/Crypto/aes.cpp:64-225 | The reverse S-box undoes the forward S-box on all bytes. |
| `AesStandard.RconDoubles` | rpcs3/Crypto/aes.cpp:315-323 | Each round constant is the double of the one before in GF(2^8). |
| `AesStandard.StandardProducts` | rpcs3/Crypto/aes.cpp:354-421 | The products in the two matrices are sums of x and of one, two and three applications of XTIME to it. |
| `AesStandard.StandardLaws` | rpcs3/Crypto/aes.cpp:64-323 | The S-boxes and the products in the tables satisfy every law the cipher proofs use. |
| `AesWords.LookupApplies` | rpcs3/Crypto/aes.cpp:611-632 | Four look-ups in the four rotated tables are SubBytes and a matrix product of the column. |
| `AesWords.InvMixMix` | rpcs3/Crypto/aes.cpp:634-655 | InvMixColumns undoes MixColumns. |
| `Aes.TableEncRoundIsRound` | rpcs3/Crypto/aes.cpp:611-632 | One table round is SubBytes, ShiftRows, MixColumns and AddRoundKey. |
| `Aes.TableDecRoundIsRound` | rpcs3/Crypto/aes.cpp:634-655 | One reverse table round is a round of the equivalent inverse cipher. |
| `Aes.TablesAgree` | rpcs3/Crypto/aes.cpp:660-755 | All four kinds of round, written with tables, agree with the standard. |
| `AesRounds.RunRounds` | rpcs3/Crypto/aes.cpp:672-755 | The loop of two rounds per pass computes all rounds in order. |
| `AesRounds.RoundsUndone` | rpcs3/Crypto/aes.cpp:660-755 | After r rounds, decryption has the scrambled state encryption had r rounds before its end. |
| `AesExpansion.ExpandKey` | rpcs3/Crypto/aes.cpp:440-542 | The three expansion loops store the words of any sequence that obeys their recurrences. |
| `AesExpansion.ExpansionIsSchedule` | rpcs3/Crypto/aes.cpp:440-542 | The key expansion of section 5.2 of FIPS 197 obeys these recurrences, for 128, 192 and 256 bits. |
| `AesExpansion.MirrorKeys` | rpcs3/Crypto/aes.cpp:547-609 | The loops of the decryption schedule store the round keys in reverse, the inner ones transformed. |
| `AesExpansion.InvMixLookupApplies` | rpcs3/Crypto/aes.cpp:583-595 | Looking up the S-box and then the reverse tables is InvMixColumns alone. |
| `AesContext.Context.SetKeyEnc` | rpcs3/Crypto/aes.cpp:440-542 | The context holds the expanded key of section 5.2 of FIPS 197; other key sizes are refused with -0x20 and change nothing. |
| `AesContext.Context.SetKeyDec` | rpcs3/Crypto/aes.cpp:547-609 | The context holds the keys of the equivalent inverse cipher; other key sizes are refused with -0x20 and change nothing. |
| `AesContext.Context.CryptEcb` | rpcs3/Crypto/aes.cpp:660-755 | One block is replaced by its encryption or decryption, from one buffer to another or in place. |
| `AesKeys.BlockRoundTrip` | rpcs3/Crypto/aes.cpp:440-755 | With the two schedules of one key, decrypting a block undoes encrypting it, for every key and block. |
| `AesStandard.StandardBlockRoundTrip` | rpcs3/Crypto/aes.cpp:440-755 | The same for the tables the program is built with. |
| `AesModeCode.CryptCbc` | rpcs3/Crypto/aes.cpp:760-807 | The output is the CBC form of section 6.2 of NIST SP 800-38A, also in place, and the vector is the last block; a length that is no multiple of 16 is refused with -0x22 and changes nothing. |
| `AesModes.CbcRoundTrip` | rpcs3/Crypto/aes.cpp:760-807 | CBC decryption undoes CBC encryption for any number of blocks. |
| `AesModeCode.CbcRestores` | rpcs3/Crypto/aes.cpp:440-807 | Setting both schedules of a key, encrypting a buffer in place and decrypting it in place restores it. |
| `AesModeCode.CryptCfb128` | rpcs3/Crypto/aes.cpp:812-853 | Output, register and offset are those of the byte-wise feedback machine. |
| `AesModes.CfbIsStandard` | rpcs3/Crypto/aes.cpp:812-853 | From a block boundary, that machine yields the CFB form of section 6.3 of NIST SP 800-38A. |
| `AesModes.CfbRoundTrip` | rpcs3/Crypto/aes.cpp:812-853 | Decryption from the same register and offset restores the data and leaves the same state. |
| `AesModes.RunSplits` | rpcs3/Crypto/aes.cpp:812-887 | Splitting the data across calls that carry the state changes neither output nor final state, for CFB and CTR. |
| `AesModeCode.IncrementCounter` | rpcs3/Crypto/aes.cpp:872-877 | The counter loop computes the carry over the whole counter block. |
| `AesModes.IncrementAddsOne` | rpcs3/Crypto/aes.cpp:874-876 | It is addition of one to the big-endian value, modulo 2^128. |
| `AesModeCode.CryptCtr` | rpcs3/Crypto/aes.cpp:858-887 | Output, counter, key stream and offset are those of the byte-wise counter machine. |
| `AesModes.CtrIsStandard` | rpcs3/Crypto/aes.cpp:858-887 | From a block boundary, byte i is added to byte i mod 16 of the encryption of the counter advanced i / 16 times, section 6.5 of NIST SP 800-38A. |
| `AesModes.IncrementTimesAdds` | rpcs3/Crypto/aes.cpp:872-877 | The counter advanced j times has value plus j, modulo 2^128. |
| `AesModes.CtrTwice` | rpcs3/Crypto/aes.cpp:858-887 | CTR applied twice from the same state restores the data. |
| `AesStandardModes.StandardCounter` | rpcs3/Crypto/aes.cpp:874-876 | On bytes, j increments of a counter block add j modulo 2^128. |
| `AesStandardModes.StandardKeyStream` | rpcs3/Crypto/aes.cpp:858-887 | Byte i is combined with byte i modulo 16 of the encryption of the only block whose value is i / 16 more than the initial one modulo 2^128. |
| `AesStandardModes.StandardCtrTwice` | rpcs3/Crypto/aes.cpp:858-887 | With the tables of the program, CTR applied twice restores the data, for all round keys. |
| `AesStandardModes.StandardCfbRoundTrip` | rpcs3/Crypto/aes.cpp:812-853 | With the tables of the program, CFB decryption undoes encryption. |
| `AesStandardModes.StandardCbcRoundTrip` | rpcs3/Crypto/aes.cpp:760-807 | With the tables of the program and the two schedules of one key, CBC decryption undoes encryption. |
| `CrcCode.Reflect` | Utilities/CRC.h:523-534 | The loop reverses the lowest bits and drops the others. |
| `CrcCode.CalculateRemainder` | Utilities/CRC.h:605-671 | The nested loops compute the remainder, reflected or not. |
| `CrcCode.InitTable` | Utilities/CRC.h:396-426 | The table holds the masked remainder of every byte. |
| `Crc.LookupIsFeed` | Utilities/CRC.h:724-740 | Reflected: one look-up does what eight bit steps do, on the whole register. |
| `CrcMirror.LookupLeftIsFeed` | Utilities/CRC.h:742-749 | Not reflected: one look-up does what eight bit steps do, modulo 2^width. |
| `CrcCode.CalculateRemainderByTable` | Utilities/CRC.h:720-749 | The table gives the remainder of the bit-by-bit algorithm for every message, start and polynomial: exactly if reflected, modulo 2^width otherwise. |
| `CrcMirror.ImageRun` | Utilities/CRC.h:605-671 | A check that is not reflected is the mirror image of a reflected one. |
| `CrcCode.Finalize` | Utilities/CRC.h:546-558 | The final step, which FinalizedInjective shows to tell exactly the lowest width bits. |
| `CrcCode.UndoFinalize` | Utilities/CRC.h:578-592 | The inverse of the final step, as UndoRestores describes it. |
| `CrcChecks.FinalizedInjective` | Utilities/CRC.h:546-558 | Two registers have the same check exactly if their lowest width bits agree. |
| `CrcChecks.UndoRestores` | Utilities/CRC.h:578-592 | Undoing the final step restores the lowest width bits; the bits above come from the parameters. |
| `CrcChecks.UndoExactly` | Utilities/CRC.h:560-592 | Undoing restores the whole register exactly if its upper bits are those; the comment in the source claims it always does. |
| `CrcChecks.FinalizedUndoes` | Utilities/CRC.h:578-592 | Finishing an undone check returns the check, masked. |
| `CrcCode.Calculate` | Utilities/CRC.h:438-469 | The check of a message, afresh or continued. |
| `CrcCode.CalculateByTable` | Utilities/CRC.h:479-513 | With a table, the same checks. |
| `CrcBursts.RunIsFeed` | Utilities/CRC.h:605-671 | The remainder of a message is what feeding its bits one by one leaves. |
| `CrcBursts.BurstDetected` | Utilities/CRC.h:605-671 | If the polynomial has its lowest bit, different messages of one length whose bits, in the order they are taken in, are the same outside one window of width bits have different checks, wherever the window lies. |
| `CrcBursts.BurstMissed` | Utilities/CRC.h:605-671 | If it has not, two messages that differ only in such a window have the same check. |
| `CrcBursts.BurstsDetected` | Utilities/CRC.h:605-671 | All such bursts are noticed if and only if the polynomial has its lowest bit. |
| `CrcChecks.PartsJoin` | Utilities/CRC.h:438-513 | Checking parts one after the other gives the check of the whole for every division if and only if the input is not reflected, or the initial value and, if the output is reflected too, the final value fit the width. |
| `CrcChecks.WideInitialValue` | Utilities/CRC.h:438-513 | A 16-bit type with width 8 and bit 8 of the initial value set: the parts do not join. |
| `Base57.AlphabetValues` | Utilities/StrFmt.cpp:127-173 | The decoder assigns to each character of the encoder's alphabet its place in it. |
| `Base57Code.Format` | Utilities/StrFmt.cpp:127-173 | The encoder appends the text of the data: for 8 bytes the 11 digits of their big-endian value, for a tail its first digits. |
| `Base57Code.FromString` | Utilities/StrFmt.cpp:175-299 | The decoder returns the decoded bytes, or none if a group is not acceptable. |
| `Base57Code.GetGroup` | Utilities/StrFmt.cpp:185-279 | A group is accepted exactly if its characters are known and its value is below 2^64; the overflow tests are exact and the multiplier does not wrap. |
| `Base57Laws.DecodeEncode` | Utilities/StrFmt.cpp:127-299 | Decoding an encoding returns the bytes, if their number is a multiple of 8. |
| `Base57Laws.EncodeInjective` | Utilities/StrFmt.cpp:127-173 | Different byte strings of any lengths have different texts: the tail sizes suffice. |
| `Base57Laws.DecodeAccepts` | Utilities/StrFmt.cpp:175-299 | The decoder accepts a text if and only if every group has known characters and a value below 2^64. |
| `Base57Laws.EncodeDecode` | Utilities/StrFmt.cpp:175-299 | Encoding what was decoded returns the text, completed by zeros to a multiple of 11 characters. |
| `Base57Laws.CompletedAlready` | Utilities/StrFmt.cpp:175-299 | A text of whole groups needs no completion, so it is returned as it is. |
| `AddressRange.TouchesMeans` | Utilities/address_range.h:138-143 | Touching is overlapping or lying side by side, or meeting at both ends of the address space because next_address and prev_address wrap. |
| `AddressRange.MergeIsUnion` | Utilities/address_range.h:307-363 | What merge leaves is the union if and only if no range touches the new one only by wrapping around; then no two ranges overlap or lie side by side. |
| `AddressRange.ExcludeIsDifference` | Utilities/address_range.h:374-454 | What exclude leaves is the difference. |
| `AddressRangeVector.Vector.Merge` | Utilities/address_range.h:307-363 | No address is ever lost; the vector becomes the union exactly under that condition, and a vector that passes the consistency check passes it afterwards exactly under that condition or if the new range touches all others. |
| `AddressRangeVector.Vector.Exclude` | Utilities/address_range.h:374-454 | The vector becomes the difference; separate ranges stay separate, and then the consistency check at the end succeeds exactly if the first and the last address do not both stay while something between them is excluded. |
| `AddressRangeVector.Vector.MergeVector` | Utilities/address_range.h:365-371 | For all ranges no address is lost, and the result is the union exactly if the added ranges do not bring the first and the last address together, or the union is everything. |
| `AddressRangeVector.Vector.ExcludeVector` | Utilities/address_range.h:456-462 | The difference with a whole vector. |
| `AddressRangeVector.Vector.CheckConsistency` | Utilities/address_range.h:466-493 | The check is true exactly if no two ranges touch, wrapping included. |
| `AddressRangeVector.ConsistentMeans` | Utilities/address_range.h:466-493 | That is: separate ranges, no two of which meet by wrapping around. |
| `AddressRangeVector.ConsistentCovers` | Utilities/address_range.h:466-493 | Separate ranges pass the check exactly if they do not hold the first and the last address with a gap between. |
| `AddressRangeVector.Vector.OverlapsRange` | Utilities/address_range.h:496-502 | For a valid range, true exactly if some address of it is in the set; for an invalid one, exactly if one range holds both its bounds. |
| `AddressRangeVector.FalseTouch` | Utilities/address_range.h:307-363 | Merging the first address into a vector that holds the last one is not the union. |
| `AddressRangeVector.ExcludeKeepsCheck` | Utilities/address_range.h:374-454 | From a vector that passes the check, exclude leaves one that passes it if and only if it does not cut a range of all addresses in the middle. |
| `AddressRangeVector.WholeSplit` | Utilities/address_range.h:374-454 | Whatever separate ranges are left when the second address is excluded from all of them, the check rejects them. |
| `AddressRangeVector.MergeConsistent` | Utilities/address_range.h:307-363 | A vector that passes the check passes it after merge if and only if no range touches the new one only by wrapping around, or every range touches it. |
| `GatherFile.Stream.constructor` | Utilities/File.cpp:2828-2837 | The index maps each new end offset to the number of entries before it. |
| `GatherStream.IndexIsIndex` | Utilities/File.cpp:2828-2837 | The first file, and every one that is not empty, is entered under its end, with the number of distinct ends before. |
| `GatherFile.Stream.ReadAt` | Utilities/File.cpp:2901-2933 | The loop over the index returns what the indexed files hold at the computed offsets. |
| `GatherFile.Stream.Read` | Utilities/File.cpp:2863-2899 | For all sizes, read returns the bytes, and leaves the files positioned, as seeking each from its end and reading on does; the position advances by the count. |
| `GatherFile.Stream.Seek` | Utilities/File.cpp:2940-2956 | The new position, or refusal of a negative one without a change. |
| `GatherFile.ResultIsSlice` | Utilities/File.cpp:2863-2933 | A read returns the clipped slice of the concatenation, if no empty file after the first comes before one that is not empty. |
| `GatherFile.SlicesIffOrdered` | Utilities/File.cpp:2828-2933 | Exactly for such sizes, every read is a slice whatever the contents. |
| `GatherFile.ReadsOnIffOrdered` | Utilities/File.cpp:2828-2899 | The same condition is exact for read, wherever the files are positioned. |
| `GatherRead.ReadingIsGather` | Utilities/File.cpp:2863-2933 | If no seek fails, read finds what read_at finds. |
| `GatherRead.DisorderShowsInRead` | Utilities/File.cpp:2828-2899 | For any other sizes, some contents and a one-byte read go wrong, wherever the files are positioned. |
| `GatherStream.DisorderShows` | Utilities/File.cpp:2828-2933 | For any other sizes, some contents and a one-byte read go wrong. |

## Left out

- Memory orderings and the atomic wait engine: atomic accesses are sequentially consistent, waiting is as described above.
- The hardware lock elision variants of the lock, `lock_unlock` and the `reader_lock` wrapper.
- Progress under fair scheduling: the lock models prove what every reachable state guarantees and what a thread running alone achieves, not that a thread ever runs.
- Timeouts of the condition variable: leaving by timeout is a spurious wake-up in the model.
- A semaphore made with a negative value, which the explicit constructor turns into a word with 65535 waiters.
- A cap on `try_post`: the code admits a post when the count equals the maximum.
- Resizing, copying and moving of the ring buffer, and positions beyond 2^64 bytes in total.
- `lf_queue::apply`, `pop_all_reversed`, and the destructors of the lists.
- `jit_runtime::initialize` and `finalize`, which reset the allocator, and the two queries by a size of zero; alignments are powers of two and requests do not overflow 64 bits.
- The AES-NI paths, the run-time generation of tables and CMAC.
- Overlapping but unequal input and output buffers of the AES calls; input and output are one array or two.
- CRC widths below 8 bits and the list of predefined parameters.
- Base57 decoding of texts whose length is no multiple of 11 back to the original bytes: the decoder pads to 8 bytes.
- `address_range_vector::contains`, `inside`, the overlap of two vectors, and page alignment.
- Files that change while gathered, and short reads of a file that is long enough.
- Signed overflow in `seek`: positions are unbounded.
