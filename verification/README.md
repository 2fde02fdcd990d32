# vlibc, verified models

This project models the parts of the vlibc C library that hold real algorithms
and protocols, and proves what they promise: the futex-based synchronisation
objects, the sbrk heap allocator, the DES engine behind `crypt`, the regex and
glob matchers, buffered output streams, integer printing and parsing, calendar
conversion, the search.h hash table and tree, and character set conversion.
`dafny verify dfyconfig.toml` checks everything.

| files | what they model |
|---|---|
| `tally.dfy` | weighted sums over a sequence, used by the state machines |
| `mutex.dfy`, `barrier.dfy`, `rwlock.dfy`, `rwlock_progress.dfy`, `semaphore.dfy` | threads with program counters, one atomic step at a time, any number of threads, any interleaving; theorems about every state of every run, and for the read-write lock about what can still follow |
| `mutex_calls.dfy`, `barrier_calls.dfy`, `rwlock_calls.dfy`, `semaphore_calls.dfy` | what a completed call has done whatever the others did meanwhile, and when a call can be completed |
| `bytes.dfy`, `bits.dfy`, `heap.dfy` | the allocator over byte-addressed memory: headers, links and tags are bytes that the code loads and stores |
| `words.dfy`, `masks.dfy`, `des_tables.dfy`, `des_reference.dfy`, `des.dfy` | 32-bit words, mask tables, DES as FIPS 46-3 defines it, and the table-driven engine |
| `des_digits.dfy`, `des_boxes.dfy`, `des_vectors.dfy` | DES on hexadecimal digits, the design of the S-boxes, and published values of the cipher |
| `regex_language.dfy`, `regex.dfy` | the language of a token list; the backtracking matcher and the search |
| `regex_syntax.dfy`, `regex_scan.dfy`, `regex_ranges.dfy`, `regex_ranges_proof.dfy`, `regex_alts.dfy`, `regex_alts_proof.dfy` | source patterns, the two text-rewriting passes of `regcomp`, and the proof that they keep the language |
| `regex_tokens.dfy`, `regex_lex_proof.dfy` | the tokenizer of one alternative, and the proof that its tokens mean the branch |
| `regex_whole.dfy`, `regex_limits.dfy` | `regcomp` and `regexec` together on the text of a pattern, and exactly where they stop doing what the pattern says |
| `regex_atoms.dfy`, `regex_classes.dfy`, `ctype.dfy` | single atoms from pattern text to verdict, character by character; bracket expressions and named classes; the character table |
| `fnmatch.dfy`, `fnmatch_patterns.dfy` | glob matching, and patterns spelled from pieces |
| `stdio.dfy` | output streams over a descriptor that accepts part of what it is offered, is interrupted or fails |
| `strto.dfy`, `strto_text.dfy`, `printf.dfy` | parsing, the texts it reads, printing, and the way back |
| `hash.dfy`, `tree.dfy` | the search.h structures |
| `calendar.dfy` | `gmtime_r`, `localtime_r`, `timegm`, `mktime` |
| `iconv.dfy` | conversion between ASCII, ISO-8859-1, UTF-8 and UTF-16 |

Where the code does not do what one would expect, the model follows the code
and a member says exactly when the expected property holds:

- A read-write lock can be lost for writers: a reader that unlocks while a writer is
  queued clears the writer flag instead of its own count (`RwLock.LeakHappens`).
  From a reachable state a writer can still get in exactly when no such release has
  happened and, while the flag is set, no read hold is still to be released
  (`RwLockProgress.WriterAdmittedIff`). A writer asleep on the reader count is woken
  in some continuation exactly when a wake-up is on its way, or nothing leaked, a
  reader is about to take back its count and none is before that point of its release
  (`RwLockProgress.SleeperWokenIff`); one can sleep for ever on a free lock
  (`RwLockProgress.SleepsForEver`). Exclusion always holds.
- A semaphore's count is the ledger of posts and acquisitions exactly in the runs
  that never pass `INT_MAX` (`Semaphore.ExactIffNoOverflow`).
- `free` takes a plain block for an aligned one exactly when the low half of its
  size is the tag (`Heap.PlainLooks`), and then wipes that half
  (`Heap.TaggedSizeLost`).
- A salt set before the DES tables exist is forgotten when they are built
  (`Des.Engine.SetKey`).
- A range `{m,n}` with m > n denotes nothing but is rewritten to one copy
  (`RegexRangesProof.BackwardRange`); an element keeps its language exactly when its
  range is not backward (`RegexRangesProof.RangeKeptIff`).
- The passes end a bracket expression at its first closing bracket, the tokenizer
  after a named class such as `[:alpha:]`: they agree exactly when no named class
  opens (`RegexLexProof.CutsAgreeIff`). Without a range that does no harm, unless a bar
  follows inside the brackets (`RegexLimits.BarSplits`); with one,
  `[[:alpha:]]{2}` becomes a letter and a bracket (`RegexLimits.AlphaTwice`), and the
  range is kept exactly when it comes to none, `?` or `*`
  (`RegexLimits.NamedRangeKeptIff`).
- The tenth group of a branch is matched as characters (`RegexLimits.TenthGroup`);
  the tokens mean the pattern exactly when no branch has more than nine groups
  (`RegexWhole.CompiledIff`).
- `regexec` sizes its captures by the last alternative: they fit exactly when the last
  branch has no groups or as many as any (`RegexLimits.PatternCaptures`), which
  `(a)(b)|(c)` does not meet (`RegexLimits.TwoThenOne`).
- In a bracket expression the character right behind a named class has no say, so
  `[[:digit:]a]` has no `a` (`RegexClasses.NamedSwallows`, `RegexClasses.NamedHidesNext`);
  a dash at the end is a member exactly when no range comes before it
  (`RegexClasses.RangeHidesDash`); an escaped dash with a character behind it is taken
  for a range (`RegexClasses.EscapedDashRange`). Elsewhere the contents stand for the
  union of their pieces (`RegexClasses.SpelledIn`).
- With base 0 a lone `0` is an octal prefix without digits: the value is right, but
  nothing counts as read (`StrtoText.LoneZero`).
- A hard error in the middle of a flush makes delivered bytes go out again. A flush
  stops exactly when the writes before the first hard error take less than the buffer
  holds, and exactly what they take goes out twice (`Stdio.FlushingStops`,
  `Stdio.Stream.Flush`). An unbuffered `fwrite` gives up when it is interrupted: it
  stops exactly when the writes before the first one without progress take too little
  (`Stdio.DirectStops`, `Stdio.Stream.WriteDirect`). `setvbuf` conserves exactly when
  nothing is pending (`Stdio.Stream.SetVBuf`).
- The hash table's probes reach every slot exactly when the 64-bit sum does not
  wrap on the way or the size divides 2^64 (`Hash.CoversIff`). In exactly those cases
  only a full table refuses a new key (`Hash.RefusalIff`); in all others a program
  can meet a refusal with a slot free (`Hash.RefusedRun`, `Hash.RefusedByThree`).
- `timegm` undoes `gmtime_r` exactly when the time is not negative and its day
  count fits an int (`Calendar.GmtimeThenTimegm`).

Definitions that a proof does not need are switched off in it with `hide`, to
keep the solver's work small.

## Model

| member | source | states |
|---|---|---|
| `Mutex.RunInv` | src/pthread.c:42-111 | every state of every run of any number of threads over lock, trylock and unlock satisfies the invariant: the lock word counts the owners and is at most 1, owner and recursion fields agree with the holder, sleepers are covered |
| `Mutex.WordIsOwnership` | src/pthread.c:64-108 | the lock word is 1 exactly when some thread holds the mutex or is in the middle of taking or releasing it, and there is never more than one such thread |
| `Mutex.ReleaseAtDepthZero` | src/pthread.c:97-108 | the recursion field of a recursive mutex is the nesting depth of its holder, and a thread reaches the release only at depth zero |
| `Mutex.FreeIsFresh` | src/pthread.c:42-109 | a free mutex is as pthread_mutex_init left it: no owner, depth zero, and no thread with an acquisition left |
| `Mutex.NoLostWakeup` | src/pthread.c:64-66 | while the word is 0, a sleeping thread is never alone: another thread is about to retry or about to wake |
| `Mutex.SleepersWaitForHolder` | src/pthread.c:64-109 | if every thread is asleep or outside the mutex and one sleeps, then a thread outside holds it |
| `MutexCalls.LockTakes` | src/pthread.c:56-71 | in every run a completed lock raises the caller's depth by exactly one and leaves it the holder; it turned the word from 0 to 1 itself, unless it held a recursive mutex already, and relocking a normal one never completes |
| `MutexCalls.TryLockTakes` | src/pthread.c:74-92 | a completed trylock raises the depth by one exactly when it held a recursive mutex or its compare found the word 0; otherwise the compare found the word set, the depth stays and no step of the call touched anything |
| `MutexCalls.UnlockGives` | src/pthread.c:95-111 | a completed unlock by the holder lowers the depth by exactly one; when that was the last it stored 0 and after that woke a sleeper if there was one; by another thread, which only a recursive mutex allows, no step of the call touched anything |
| `MutexCalls.FinishesIff` | src/pthread.c:56-111 | in every reachable state a thread can bring its call to its end by its own steps, five at the most, exactly when it is neither asleep nor in lock before a mutex that is taken |
| `MutexCalls.BlockedSleeps` | src/pthread.c:64-66 | a thread that stays blocked is asleep after three more steps of its own at the latest |
| `MutexCalls.MayStart` | src/pthread.c:56-111 | either lock may be entered at any time, unlock on a normal mutex only by its holder, and a sleeper may wake at any time |
| `Barrier.RunInv` | src/pthread_barrier.c:11-44 | every state of every run of `pthread_barrier_wait`, stepped through the mutex and the condition variable, satisfies the invariant of counters, tickets and sleepers |
| `Barrier.ArrivalsCounted` | src/pthread_barrier.c:24-44 | whenever the lock is free, arrivals are phase times count plus waiting, with waiting below count, and there was one broadcast for every finished generation |
| `Barrier.NoEarlyReturn` | src/pthread_barrier.c:34-43 | no call returns or is on its way out before all calls of its generation have arrived |
| `Barrier.ExactlyOneSerial` | src/pthread_barrier.c:30-38 | of every generation exactly one call returns PTHREAD_BARRIER_SERIAL_THREAD once all have returned, and never two |
| `Barrier.NoneAsleepAfterBroadcast` | src/pthread.c:166-222 | a waiter of a finished generation is asleep on the condition only while a broadcast is still under way |
| `Barrier.QuietMeansIncomplete` | src/pthread_barrier.c:24-44 | when only threads outside the barrier can move, the lock is free and every waiter belongs to the generation that is still filling |
| `BarrierCalls.ReturnsIff` | src/pthread_barrier.c:24-44 | in every reachable state a call can be brought to its end by its own steps, ten at the most, exactly when it holds the lock or finds it free and is the last to arrive or its generation is over and it has noticed |
| `BarrierCalls.OrSleeps` | src/pthread_barrier.c:24-44 | otherwise its own steps put it to sleep, on the lock or on the condition |
| `BarrierCalls.ReleasedWaiterReturns` | src/pthread_barrier.c:40-43 | a waiter whose generation is over is held up by nothing but the lock |
| `BarrierCalls.MayStart` | src/pthread_barrier.c:24-25 | a thread outside may call the barrier at any time |
| `BarrierCalls.MayWake` | src/pthread.c:166-174 | a sleeper may wake at any time, and then looks again at what it slept on |
| `RwLock.RunInv` | src/pthread_rwlock.c:17-59 | every state of every run satisfies the invariant on reader count, writer flag and leaked read holds |
| `RwLock.WriterExcludesAll` | src/pthread_rwlock.c:26-59 | a writer inside excludes all readers and all other writers, also in runs where readers release while a writer is queued |
| `RwLock.ReadersAreCounted` | src/pthread_rwlock.c:32-56 | the reader count is the number of agents whose increment is in it plus the leaked holds |
| `RwLock.LeakShutsWritersOut` | src/pthread_rwlock.c:40-59 | in every run, after one read release took the writer branch, no writer is inside again; the exact condition is that of RwLockProgress.WriterAdmittedIff |
| `RwLock.LeakHappens` | src/pthread_rwlock.c:50-54 | there is a run in which a read release takes the writer branch |
| `RwLock.WriterSleepsOnFreeLock` | src/pthread_rwlock.c:44-45 | there is a run in which a writer sleeps on the reader count of a lock nobody holds |
| `RwLockProgress.WriterAdmittedIff` | src/pthread_rwlock.c:26-59 | from a reachable state some continuation lets a writer in exactly when nothing leaked and, while the writer flag is set, no read hold is before or in the wrong branch of its release |
| `RwLockProgress.SleeperWokenIff` | src/pthread_rwlock.c:44-58 | a writer asleep on the reader count is woken by some continuation exactly when the wake-up is on its way, or nothing leaked, a reader is about to subtract its count and no read hold is before or in the wrong branch of its release; otherwise it sleeps whatever the others do |
| `RwLockProgress.SleepsForEver` | src/pthread_rwlock.c:44-45 | a reachable state in which nobody holds the lock and the sleeping writer is never woken |
| `RwLockCalls.RdLockTakes` | src/pthread_rwlock.c:26-38 | in every run a completed rdlock leaves the caller with a read hold; on balance it added exactly one to the reader count, never touched the writer flag, and found the flag clear after the addition |
| `RwLockCalls.WrLockTakes` | src/pthread_rwlock.c:40-47 | a completed wrlock leaves the caller with the write hold; exactly one of its steps touched the flag and turned it from 0 to 1, it left the reader count alone and found it 0 |
| `RwLockCalls.ReaderUnlocks` | src/pthread_rwlock.c:50-60 | a completed unlock by a reader found the flag clear and took exactly one off the count, waking every writer asleep on it when none was left; or found the flag set, cleared it in place of that, left its increment behind and woke everybody asleep on the flag |
| `RwLockCalls.WriterUnlocks` | src/pthread_rwlock.c:50-60 | a completed unlock by a writer turned the flag from 1 to 0, once, left the count alone and then woke everybody asleep on the flag |
| `RwLockCalls.NoLostFlagWakeup` | src/pthread_rwlock.c:29-54 | while the flag is clear and somebody sleeps on it, an unlock that cleared it still has its wake-up to run |
| `RwLockCalls.FinishesIff` | src/pthread_rwlock.c:26-60 | in every reachable state a call can be brought to its end by its own steps, four at the most, exactly when the agent is not asleep, not kept out by flag or readers, and not a writer that found readers and is about to wait for them |
| `RwLockCalls.FlagWaitersSleep` | src/pthread_rwlock.c:29-43 | while the flag stays set, whoever waits for it is asleep after its next five steps at the latest |
| `Semaphore.RunInv` | src/semaphore.c:18-86 | every state of every run satisfies the invariant on the count, the history and the waiters |
| `Semaphore.Conservation` | src/semaphore.c:49-84 | the count is initial plus posts minus acquisitions, less 2^32 for every wrap |
| `Semaphore.ExactIffNoOverflow` | src/semaphore.c:49-84 | the count is exact and never negative in exactly the runs whose ledger never passed INT_MAX |
| `Semaphore.NoStrandedUnit` | src/semaphore.c:43-86 | while some sem_wait sleeps, the available units are no more than the wake-ups owed plus the waiters awake in the loop |
| `SemaphoreCalls.WaitTakesOne` | src/semaphore.c:43-56 | in every run a completed sem_wait took exactly one unit, in its last step, when there was one, and left the semaphore alone before that |
| `SemaphoreCalls.TryWaitTakesOne` | src/semaphore.c:62-74 | so did a sem_trywait that answers 0; one that answers EAGAIN found no unit in its last step and left the semaphore alone |
| `SemaphoreCalls.PostAddsOne` | src/semaphore.c:79-86 | a completed sem_post added exactly one unit, modulo 2^32, and after that woke a sleeper if there was one |
| `SemaphoreCalls.FinishesIff` | src/semaphore.c:43-86 | in every reachable state a call can be brought to its end by its own steps, four at the most, exactly when it is neither asleep nor in sem_wait without a unit to take |
| `SemaphoreCalls.WaiterSleeps` | src/semaphore.c:47-55 | while the count stays 0 a waiter is asleep after two more steps of its own at the latest |
| `SemaphoreCalls.MayStart` | src/semaphore.c:43-86 | each of the three calls may be started at any time |
| `Heap.LiveDisjoint` | src/memory.c:72-148 | payloads of different live pointers do not overlap, and no live payload overlaps any header or free block |
| `Heap.ReuseKeepsGood` | src/memory.c:101-118 | taking the first fit off the list and overwriting its size keeps the heap well-formed: list in memory acyclic and equal to the free blocks, every block free or holding one allocation, recorded sizes within the true extents; all payloads unchanged |
| `Heap.GrowKeepsGood` | src/memory.c:120-127 | a new block from sbrk keeps the heap well-formed and all payloads unchanged |
| `Heap.ReleaseKeepsGood` | src/memory.c:56-148 | freeing a live pointer, aligned or not, returns exactly its original block to the list, keeps the heap well-formed and every other payload unchanged |
| `Heap.RetagKeepsGood` | src/memory.c:284-316 | writing the tag and the original pointer below an aligned address keeps the heap well-formed |
| `Heap.WriteKeepsGood` | src/memory.c:45-148 | writing inside a live payload keeps the heap well-formed and every other payload unchanged |
| `Heap.AllocatedMeans` | src/memory.c:72-128 | a successful malloc yields a pointer that was not live, behind its header, inside a block, with every other allocation untouched |
| `Heap.FreedMeans` | src/memory.c:134-148 | after free the pointer is dead and every other pointer keeps its allocation and contents |
| `Heap.PlainLooks` | src/memory.c:134-148 | free sees the alignment tag in front of a plain pointer exactly when the low half of the recorded size is the tag |
| `Heap.Allocator.constructor` | src/memory.c:45-54 | the empty allocator is well-formed |
| `Heap.Allocator.Sbrk` | src/memory.c:90-126 | the kernel's next reply: a refusal, or the old break after the gap others left and the break behind the increment; refused exactly when the kernel says no or memory ends |
| `Heap.Allocator.Search` | src/memory.c:101-118 | the walk over the list in memory finds the first block that is large enough and its predecessor, or proves there is none |
| `Heap.Allocator.Detach` | src/memory.c:106-114 | unlinking and overwriting the size realise the reuse step |
| `Heap.Allocator.Extend` | src/memory.c:120-127 | NULL exactly when sbrk refuses, and then nothing changes; otherwise the block at the break is recorded and the pointer is behind its header |
| `Heap.Allocator.Malloc` | src/memory.c:72-128 | NULL exactly when the injected failure is due, the size is 0, sbrk refuses the probe, the header does not fit, or no free block fits and sbrk refuses the block; otherwise the payload of the first free block that fits, or of a new block at the break; the heap stays well-formed, every other payload and the allocator's counters are accounted for |
| `Heap.TaggedSizeLost` | src/memory.c:134-146 | for a plain block whose size ends in the tag, free wipes the low half of the recorded size and takes the link word for the original pointer |
| `Heap.TaggedReached` | src/memory.c:120-127 | one malloc of a size that ends in the tag reaches such a block |
| `Heap.TaggedRun` | src/memory.c:72-148 | a program that mallocs such a size gets a pointer before which free reads the tag |
| `Heap.FreeThenMalloc` | src/memory.c:72-148 | freed memory is used again: after free, a request that the recorded size of the block covers gets that block |
| `Heap.ReleasedRecord` | src/memory.c:56-66 | the recorded size of a block survives its release, and the block is the first of the list |
| `Heap.Allocator.FreeImpl` | src/memory.c:56-66 | NULL does nothing; otherwise the list in memory, acyclic as before, gains the block in front, and no byte but the block's link changes |
| `Heap.Allocator.Free` | src/memory.c:134-148 | NULL does nothing; a live pointer's original block goes to the front of the list |
| `Heap.Allocator.Calloc` | src/memory.c:228-240 | NULL exactly when the product does not fit or malloc of it answers NULL, and then nothing changes; else a fresh allocation that is all zero |
| `Heap.Allocator.Realloc` | src/memory.c:245-268 | NULL exactly when malloc answers NULL or a live pointer is resized to 0; the common prefix of the payload is kept, the old allocation is gone when it moved, nothing else changes; NULL for want of memory leaves the old allocation alone |
| `Bits.AndBelow` | src/memory.c:289-291 | n & (n - 1) is zero exactly for the powers of two |
| `Bits.AndMask` | src/memory.c:309 | for a power of two, x & ~(m - 1) is the multiple of m at or below x |
| `Heap.Allocator.PosixMemalign` | src/memory.c:284-316 | EINVAL exactly for a bad alignment, ENOMEM exactly when the padded size does not fit or malloc of it answers NULL; success yields an aligned pointer inside a block of its own |
| `Heap.Allocator.Recallocarray` | src/memory.c:355-387 | NULL exactly when the product does not fit, is 0, or malloc of it answers NULL; as calloc for NULL; otherwise as realloc, and what was added is zero |
| `Masks.Compile` | src/crypt.c:340-404 | the loops that fill a mask table produce a table whose combined lookups equal the bit permutation, for every block |
| `Masks.RoutedBit` | src/crypt.c:554-569 | each bit of the combined lookups is the input bit the permutation names |
| `DesTables.IpInjection` | src/crypt.c:101-106 | the initial permutation names every position of 1..64 at most once |
| `DesTables.KeyPermInjection` | src/crypt.c:109-114 | the key permutation names no position twice |
| `DesTables.CompPermInjection` | src/crypt.c:121-126 | the compression permutation names no position twice |
| `DesTables.PboxInjection` | src/crypt.c:185-188 | the P-box names no position twice |
| `DesTables.KeyParity` | src/crypt.c:109-114 | the key permutation never reads a parity bit, so seven bits per byte suffice for its tables |
| `DesReference.FinalUndoesInitial` | src/crypt.c:315-318 | the final permutation undoes the initial one on every block |
| `DesReference.InitialUndoesFinal` | src/crypt.c:315-318 | the initial permutation undoes the final one on every block |
| `DesReference.RoundsUndone` | src/crypt.c:571-617 | running the rounds with the subkeys reversed on the exchanged halves restores them, for any round function |
| `DesReference.CipherUndone` | src/crypt.c:525-638 | n passes with reversed subkeys undo n passes, for every block, key schedule, round function and n |
| `DesReference.DecipherUndone` | src/crypt.c:525-638 | and the other way round |
| `Des.Invert` | src/crypt.c:315-334 | the loops that invert a permutation table produce its inverse |
| `Des.PermutationTables` | src/crypt.c:312-358 | the tables for the initial and final permutation carry these out on every block |
| `Des.KeyTables` | src/crypt.c:324-373 | the tables for the key permutation carry it out on every key |
| `Des.CompressionTables` | src/crypt.c:332-386 | the tables for the key compression carry it out |
| `Des.PboxTable` | src/crypt.c:394-404 | the P-box tables carry out the P-box permutation |
| `Des.MergedBoxes` | src/crypt.c:291-309 | each merged table answers twelve bits with the outputs of its two boxes |
| `Des.ReorderedIsSubstitute` | src/crypt.c:294-298 | reading a reordered box at the plain number is reading the S-box by row and column |
| `Des.ExpandIsExpansion` | src/crypt.c:579-592 | the masks and shifts are the expansion of FIPS 46-3 |
| `Des.MixIsMixed` | src/crypt.c:593-599 | under the salt mask the halves of the expansion are exchanged bit by bit, then the subkey is added |
| `Des.MergedIndices` | src/crypt.c:604-607 | the four merged lookups give the four bytes of the substitution |
| `Des.RoundFunction` | src/crypt.c:578-607 | expansion, salt, key, merged S-boxes and P-box tables compute the salted cipher function |
| `Des.ShiftsRotate` | src/crypt.c:493-494 | the pair of shifts rotates the 28 low bits |
| `Des.ComputeSchedule` | src/crypt.c:465-515 | the sixteen subkeys are those of the bit-level key schedule, and the deciphering subkeys are them reversed |
| `Des.ComputeSaltMask` | src/crypt.c:424-432 | the salt loop reverses the low 24 bits of the salt into the mask |
| `Des.BuildTables` | src/crypt.c:281-407 | des_init leaves all tables carrying out their permutations and substitutions |
| `Des.OnePass` | src/crypt.c:575-616 | one pass is the sixteen rounds of the reference and the exchange of the halves |
| `Des.AllPasses` | src/crypt.c:571-617 | count passes of the reference |
| `Des.Engine.constructor` | src/crypt.c:204-217 | the initial static state satisfies the cache invariant |
| `Des.Engine.Init` | src/crypt.c:281-407 | the tables are ready, the cached salt and key are forgotten, the subkeys stay |
| `Des.Engine.SetupSalt` | src/crypt.c:415-433 | the mask equals a fresh computation from the salt, cached or not |
| `Des.Engine.SetKey` | src/crypt.c:440-517 | the subkeys equal a fresh computation from the key, cached or not; the salt stays, but one set before the first initialisation is reset |
| `Des.Engine.DoDes` | src/crypt.c:525-638 | status 1 for count 0; otherwise the reference cipher with the current subkeys and the round function of the current salt, forward for a positive and reversed for a negative count |
| `Des.CountAndMinusCount` | src/crypt.c:525-638 | what DoDes computes with count n is undone by what it computes with -n, and conversely, in every valid engine state |
| `DesDigits.CipherFunctionIsDigits` | src/crypt.c:578-607 | without salt the cipher function is eight S-box lookups and the P permutation written out digit by digit |
| `DesDigits.RoundKeyIsCompress` | src/crypt.c:465-515 | the subkey of a round is the written-out compression of the two halves of the key turned by the shifts |
| `DesDigits.InitialIsDigits` | src/crypt.c:101-106 | the initial permutation is its written-out form |
| `DesBoxes.RowIsPermutation` | src/crypt.c:133-182 | each row of each S-box is a permutation of 0 to 15 |
| `DesBoxes.OuterBitSpreads` | src/crypt.c:133-182 | changing the first or the last bit of what enters an S-box changes at least two bits of what leaves it |
| `DesBoxes.InnerBitSpreads` | src/crypt.c:133-182 | so does changing any of the four bits between them, or the middle two together |
| `DesVectors.CipherFunctionAtZero` | src/crypt.c:133-188 | on a zero half, a zero subkey and no salt the cipher function gives D8D8DBBC |
| `DesVectors.PublishedAnswer` | src/crypt.c:101-188 | the cipher takes block 0123456789ABCDEF under key 133457799BBCDFF1 to 85E813540F0AB405, which fixes the permutations, the shifts and the order of the S-boxes |
| `DesVectors.EncipherPublished` | src/crypt.c:440-638 | the engine enciphers that block to that answer and deciphers it back |
| `RegexLanguage.FromFirst` | src/regex.c:616-682 | the language of a list of items is the concatenation of the first item's with the rest's |
| `Regex.MatchStar` | src/regex.c:570-584 | succeeds exactly when some run of the character, the empty one included, is followed by a match of the rest |
| `Regex.MatchPlus` | src/regex.c:587-598 | the same for non-empty runs |
| `Regex.MatchQuestion` | src/regex.c:601-613 | the same for runs of at most one |
| `Regex.MatchPattern` | src/regex.c:616-682 | the backtracking matcher succeeds at a position exactly when some stretch from there is in the language of the tokens |
| `Regex.Search` | src/regex.c:741-753 | the smallest start at which one alternative matches, or the proof that there is none |
| `Regex.Exec` | src/regex.c:725-768 | no match exactly when no alternative matches anywhere; otherwise the first alternative that matches, at its smallest start |
| `RegexScan.ItemEnd` | src/regex.c:219-248 | the item scanner finds the end of an escape, a bracket expression, a group or a character |
| `RegexRanges.ParseRange` | src/regex.c:251-283 | the range parser accepts exactly the three forms and yields their numbers |
| `RegexRanges.Grow` | src/regex.c:285-311 | after the capacity test the next item and its terminator fit |
| `RegexRanges.PutCopies` | src/regex.c:313-334 | the copies are written behind the text, inside the buffer |
| `RegexRanges.ExpandRanges` | src/regex.c:210-338 | every write stays inside the buffer and the result is the rewritten text; it fails only for a text too long for half the address space |
| `RegexRangesProof.RangesUnroll` | src/regex.c:210-338 | on the text of a well-formed pattern the pass yields the text of the pattern with its ranges unrolled |
| `RegexRangesProof.RangesKeepLanguage` | src/regex.c:210-338 | for every reading of the atoms and every text the unrolled pattern has the language of the original, and no range is left |
| `RegexRangesProof.BackwardRange` | src/regex.c:289-334 | a range with m > n becomes one copy, and every character its atom stands for is in one language and not in the other |
| `RegexRangesProof.RangeKeptIff` | src/regex.c:289-334 | an element and what the pass makes of it agree for every reading, text and stretch exactly when the range is not backward |
| `RegexAlts.SplitTop` | src/regex.c:346-371 | the scan splits the text at the bars outside groups and brackets |
| `RegexAlts.ExpandAlts` | src/regex.c:344-478 | the recursion terminates and lists the alternatives text for text and in order |
| `RegexAltsProof.BranchesListed` | src/regex.c:344-478 | on the text of a well-formed pattern the list is that of the texts of its branches |
| `RegexAltsProof.BranchesKeepLanguage` | src/regex.c:344-478 | the language of the pattern is the union of the languages of its branches |
| `RegexAltsProof.ExpansionKeepsLanguage` | src/regex.c:688-692 | both passes together turn a pattern into a list of texts whose union has its language |
| `RegexTokens.CompileSingle` | src/regex.c:56-154 | every write to the token, class and group buffers stays inside, no exit of the loop is early, the tokens are those of the text with groups numbered and closed by the stack, and the groups are counted |
| `RegexLexProof.CutsAgreeIff` | src/regex.c:119-145 | what the passes take for a bracket expression is one for the tokenizer, whatever follows, exactly when no named class opens in it |
| `RegexLexProof.LexBranch` | src/regex.c:56-154 | the text of a branch is tokenized to the tokens of the branch: one atom per element, named classes included, its quantifier, anchors, and numbered group marks |
| `RegexLexProof.TokensMean` | src/regex.c:616-682 | with at most nine groups the matcher reads these tokens as the items of the branch |
| `RegexLexProof.NineGroupsIff` | src/regex.c:101-118 | it does so exactly when there are at most nine |
| `RegexWhole.BranchesPeak` | src/regex.c:344-478 | the most groups a pattern nests along a branch is the largest number of groups in any of its alternatives |
| `RegexWhole.Regcomp` | src/regex.c:685-722 | the tokens of every alternative of the rewritten text and the group count of the last; success whenever the rewritten text is of manageable size |
| `RegexWhole.CompiledIff` | src/regex.c:685-722 | every alternative is compiled to tokens that mean its branch exactly when no branch has more than nine groups |
| `RegexWhole.CompileAndExec` | src/regex.c:685-768 | regcomp on the text of a pattern with at most nine groups per branch, then regexec: no match exactly when no stretch of the text is in the pattern's language; otherwise the first branch that matches anywhere, at its smallest start |
| `RegexAtoms.EscapeMatches` | src/regex.c:481-520 | what each escape stands for, in ranges of characters |
| `RegexAtoms.AtomMatches` | src/regex.c:553-567 | what the text of every atom stands for: a character, the dot, each escape, brackets by what their contents stand for |
| `RegexAtoms.SearchAtom` | src/regex.c:56-154 | regcomp on the text of one atom and regexec find the first character of the text it stands for, or report no match when there is none |
| `RegexClasses.PosixClass` | src/regex.c:190-205 | the ranges of the twelve named classes, from the flags of the character table |
| `RegexClasses.MatchClass` | src/regex.c:523-550 | the loop over the contents of a bracket expression, turn by turn |
| `RegexClasses.SpelledIn` | src/regex.c:486-550 | contents written in pieces, with escaped dashes and named classes at the end only, stand for exactly the union of the pieces; the dash itself counts exactly when the scan meets it outside a range |
| `RegexClasses.DashFirst` | src/regex.c:540-545 | the same with a dash in front, which counts when a zero stands before the contents |
| `RegexClasses.NamedSwallows` | src/regex.c:526-534 | the character right behind a named class has no say, whatever it is and whatever follows |
| `RegexClasses.NamedHidesNext` | src/regex.c:526-534 | [[:digit:]a] has no a |
| `RegexClasses.RangeHidesDash` | src/regex.c:540-545 | a dash at the end of characters and ranges is a member exactly when there is no range |
| `RegexClasses.EscapedDashRange` | src/regex.c:486-490 | an escaped dash with a character behind it stands for everything from the backslash to that character |
| `RegexClasses.SearchBracket` | src/regex.c:119-145 | regcomp on a bracket expression in pieces and regexec find the first character of the text that belongs to them, or does not if negated |
| `Ctype.TableMeans` | src/ctype.c:11-28 | the flags of every character are those of the C locale, range by range, and there are none beyond 127 |
| `RegexLimits.NestedItems` | src/regex.c:101-118 | a letter in n nested groups, n from nine on, is matched with the parentheses of n - 9 of them as characters |
| `RegexLimits.TenthGroup` | src/regex.c:101-118 | ten groups around a match "(a)" and nowhere "a" |
| `RegexLimits.NamedRangeCut` | src/regex.c:210-338 | a range behind a bracket expression with named classes goes to the last item the pass sees in it |
| `RegexLimits.NamedRangeKeptIff` | src/regex.c:210-338 | such an element is compiled to what it means exactly when its range comes to none, ? or * |
| `RegexLimits.NamedAlone` | src/regex.c:119-145 | every [[:name:]] is such an element |
| `RegexLimits.AlphaTwice` | src/regex.c:210-338 | [[:alpha:]]{2} becomes [[:alpha:]]] and is not kept |
| `RegexLimits.BarSplits` | src/regex.c:346-371 | a bar behind anything the pass reads through splits the text, also where the tokenizer would still be inside brackets |
| `RegexLimits.CapturesFitIff` | src/regex.c:616-637 | every group number in the tokens has a place in the captures exactly when the last alternative has no groups or none has more |
| `RegexLimits.PatternCaptures` | src/regex.c:704-735 | for a pattern: exactly when its last branch has no groups or as many as any branch |
| `RegexLimits.TwoThenOne` | src/regex.c:704-735 | the captures of a pattern with (a)(b) before a bar and (c) behind it do not fit |
| `Fnmatch.MatchRange` | src/fnmatch.c:17-53 | whether the character is in the set, with ranges, escapes and negation, and where the set ends |
| `Fnmatch.NoEmptySuffix` | src/fnmatch.c:69-79 | after a star the empty rest can never match a pattern that does not start with a star, so skipping it is sound |
| `Fnmatch.MatchStar` | src/fnmatch.c:69-79 | the star branch accepts exactly when the rest of the text is in the language |
| `Fnmatch.DoMatch` | src/fnmatch.c:60-99 | accepts exactly the language of the pattern's tokens |
| `Fnmatch.Fnmatch` | src/fnmatch.c:106-109 | 0 exactly when the whole string is in the language, FNM_NOMATCH otherwise |
| `FnmatchPatterns.SpelledMeans` | src/fnmatch.c:17-99 | a pattern spelled from characters, any-character, any-string and sets of ranges accepts exactly the texts that fit these pieces, with and without escapes |
| `FnmatchPatterns.MatchPieces` | src/fnmatch.c:106-109 | fnmatch of such a pattern is 0 exactly when the whole text fits, FNM_NOMATCH otherwise |
| `Stdio.FlushingStops` | src/stdio.c:79-93 | a flush of n bytes stops exactly when a hard error lies ahead and the writes before it take less than n, and exactly what they take is gone |
| `Stdio.DirectStops` | src/stdio.c:295-302 | the same for unbuffered output, where any write without progress counts as the error |
| `Stdio.FlushesConcat` | src/stdio.c:265-294 | writing a and then b calls for the same flushes as writing a + b |
| `Stdio.FlushesChunk` | src/stdio.c:281-293 | copying a chunk at once calls for the flushes its bytes would one by one |
| `Stdio.Stream.constructor` | src/stdio.c:127-147 | a new stream is unbuffered, with nothing pending and nothing delivered |
| `Stdio.Stream.Flush` | src/stdio.c:28-94 | it fails exactly when the script of writes foretells it; otherwise everything pending is delivered in order; on failure the buffer stays whole and exactly the foretold bytes of it have gone out |
| `Stdio.Stream.WriteFull` | src/stdio.c:280-294 | full buffering: conservation, the buffer bound, room left, and failure exactly when one of the flushes it calls for fails |
| `Stdio.Stream.WriteLine` | src/stdio.c:265-279 | line buffering: the same, and no newline is pending at return unless an error is reported |
| `Stdio.Stream.WriteDirect` | src/stdio.c:295-302 | no buffering: nothing is pending, delivered grows by exactly what was taken, and it gives up exactly when the script foretells it, an interrupted write included |
| `Stdio.Stream.FWrite` | src/stdio.c:221-306 | delivered and pending bytes grow by exactly the accepted ones, in order, unless a failed flush repeats some, and then by exactly that many more; a buffered stream fails exactly when a flush it calls for fails, so never without a hard error; an unbuffered one exactly when a write makes no progress before all is taken |
| `Stdio.Stream.FWriteAll` | src/stdio.c:221-306 | a sequence of buffered calls conserves the concatenation of its pieces, and goes through exactly when one call with the concatenation would, for every pattern of partial and interrupted writes |
| `Stdio.Stream.FWriteAllDirect` | src/stdio.c:221-306 | a sequence of unbuffered calls goes through exactly when every piece in its turn is carried, and then delivers the concatenation |
| `Stdio.Stream.SetVBuf` | src/stdio.c:532-571 | the new mode and buffer, of the given size or 1024; conservation exactly when nothing was pending |
| `Printf.DigitChar` | src/printf.c:36-51 | the character printed for a digit is one that digit_val reads as that digit |
| `Strto.CutoffTest` | src/strto.c:66-77 | the division test before a step is the overflow test after it |
| `Strto.Accumulate` | src/strto.c:63-79 | the digit loop yields the number the digits write, and reports overflow exactly when it exceeds the cutoff |
| `Strto.ReadLead` | src/strto.c:35-61 | blanks, sign and base prefix |
| `Strto.Strtoll` | src/strto.c:170-241 | the written number clamped to the range, ERANGE exactly when it is outside, the end pointer, and the error and no-digit cases |
| `Strto.Strtoull` | src/strto.c:243-313 | the written number modulo 2^64 when its magnitude fits, ULLONG_MAX and ERANGE exactly when it does not |
| `StrtoText.ReadSigned` | src/strto.c:170-241 | for white space, sign, prefix, digits and rest: the positional value of the digits with the sign, clamped, ERANGE exactly when it does not fit, and the place behind the last digit; without a digit nothing is read |
| `StrtoText.ReadUnsigned` | src/strto.c:243-313 | the same modulo 2^64 |
| `StrtoText.EveryText` | src/strto.c:181-216 | every string falls into such pieces, for every base |
| `StrtoText.LoneZero` | src/strto.c:191-199 | with base 0 a 0 without an octal digit behind it is not read |
| `Printf.DigitsFit` | src/printf.c:36-51 | a numeral is no longer than the number's binary width, so the scratch array never cuts it |
| `Printf.UllToBase` | src/printf.c:36-51 | the buffer receives the numeral, most significant digit first |
| `Printf.Sink.OutChar` | src/printf.c:54-59 | the character is counted, and stored only before the last place |
| `Printf.Sink.OutStr` | src/printf.c:61-66 | the same for a string |
| `Printf.Sink.Finish` | src/printf.c:295-302 | as much of the text as fits, terminated; the full length is returned |
| `Printf.LayoutOf` | src/printf.c:271-281 | the width is filled exactly unless the text is wider, the precision is reached, and blanks are on one side only |
| `Printf.Directive` | src/printf.c:173-292 | one integer directive appends its formatted text |
| `Printf.PrintedWrites` | src/printf.c:173-292 | whatever the flags, width and precision, the text of a directive writes its value in its base and ends in blanks only |
| `Printf.PrintedShape` | src/printf.c:173-292 | where sign, prefix, zeros, digits and blanks stand in the text of a directive, for every flag, width and precision: which sign character, which prefix, the shortest numeral in the right letter case, zeros to the precision or the width, blanks on the side the left flag says |
| `Printf.RoundTrip` | src/printf.c:173-302 | printing any 64-bit value into a buffer that holds it and parsing the buffer in the same base gives the value, no ERANGE, and an end with only blanks behind it; the length returned is that of the whole text |
| `Hash.HashOf` | src/search_hash.c:46-53 | the djb2 loop modulo 2^64 |
| `Hash.CoversIff` | src/search_hash.c:103-104 | the probes reach every slot exactly when the sum does not wrap on the way or the size divides 2^64 |
| `Hash.Locate` | src/search_hash.c:102-119 | the loop stops at the key's slot, at the first free slot of its probe sequence when the key is absent, or with every probed slot taken |
| `Hash.InsertKeepsGood` | src/search_hash.c:105-112 | filling that slot keeps probe order, one slot per key and agreement with the map |
| `Hash.Table.constructor` | src/search_hash.c:37-40 | no table, no entries |
| `Hash.Table.Create` | src/search_hash.c:60-76 | an empty table of the given size, or nothing when one exists, the size is 0 or memory is short |
| `Hash.Table.Destroy` | src/search_hash.c:83-91 | the table and its entries are gone |
| `Hash.Table.Find` | src/search_hash.c:98-120 | an entry is found exactly when its key was entered, and it is the entry that was entered |
| `Hash.Table.Enter` | src/search_hash.c:98-120 | a present key returns the original entry unchanged; a new key adds exactly itself; it is refused exactly when every probed slot is taken |
| `Hash.FailsOnlyWhenFull` | src/search_hash.c:103-108 | where the probes reach every slot, all probed slots are taken exactly when the table is full |
| `Hash.KeysHash` | src/search_hash.c:46-53 | every 64-bit word is the hash of a key of thirteen and of one of fourteen characters |
| `Hash.FailsWithRoom` | src/search_hash.c:103-104 | for every hash and size where they do not, a table in order, with a slot free, refuses an absent key of that hash |
| `Hash.RefusalIff` | src/search_hash.c:98-120 | over all tables in order of a size, an absent key of a given hash is refused only by full ones exactly when the sum does not wrap on the way or the size divides 2^64 |
| `Hash.RefusedByThree` | src/search_hash.c:98-120 | three slots holding two keys refuse the key 002MOOEEGC4?6 |
| `Hash.RefusedRun` | src/search_hash.c:60-120 | a program of hcreate and ENTER calls reaches such a refusal, for every hash and size of that kind |
| `Tree.GraftModels` | src/search_tree.c:69-98 | overwriting one link replaces one subtree and nothing else |
| `Tree.SearchTree.constructor` | src/search_tree.c:23-27 | the empty tree |
| `Tree.SearchTree.TSearch` | src/search_tree.c:23-41 | a key of equal rank is found and nothing changes; otherwise exactly the key is added and the order is kept; NULL and no change when malloc fails |
| `Tree.SearchTree.TFind` | src/search_tree.c:43-55 | a node is found exactly when the tree has a key of that rank |
| `Tree.SearchTree.Descend` | src/search_tree.c:63-72 | the search loop stops at the key's slot, or at the empty slot where it would be |
| `Tree.SearchTree.Smallest` | src/search_tree.c:87-92 | the inner loop finds the leftmost node of the right subtree and its slot |
| `Tree.SearchTree.TDelete` | src/search_tree.c:57-99 | NULL exactly when the key is absent; otherwise exactly its key is gone, one node is freed and the order is kept |
| `Tree.Walk` | src/search_tree.c:101-122 | the recursion over the nodes reports the visits of the tree |
| `Tree.WalkSorts` | src/search_tree.c:101-122 | the postorder and leaf visits list exactly the keys, strictly increasing |
| `Tree.VisitDepth` | src/search_tree.c:101-117 | every visit reports its node's depth, and leaf visits are the childless nodes |
| `Tree.VisitOrder` | src/search_tree.c:101-117 | every node is visited in its place: preorder before all of its left subtree, postorder between the two, endorder after all of its right subtree, and a leaf once |
| `Calendar.DaysBeforeClosed` | src/time_conv.c:58-61 | the year loop counts what the Gregorian leap rule says |
| `Calendar.MonthStartClosed` | src/time_r.c:57-60 | from March on the month table follows the rule of five months to 153 days |
| `Calendar.DayNumberIsCivil` | src/time_conv.c:58-66 | the day number of the loops is the Gregorian closed form, which reads no table |
| `Calendar.MonthDaysIsCivil` | src/time_r.c:57-60 | the length of every month of every year is the difference of two closed forms |
| `Calendar.DayNumberInjective` | src/time_conv.c:59-66 | different valid dates have different day numbers |
| `Calendar.Tm.SplitYear` | src/time_r.c:73-82 | the year loop finds the year and the day of the year |
| `Calendar.Tm.SplitMonth` | src/time_r.c:84-90 | the month loop finds the month and the day |
| `Calendar.Tm.Convert` | src/time_r.c:62-101 | a date and time of day whose Gregorian day number is the day count cut to an int, with weekday, day of the year counted from its first of January, and no daylight saving |
| `Calendar.Tm.Gmtime` | src/time_r.c:108-115 | for every time whose day count fits an int: the one valid date and time of day whose Gregorian day number, by the closed form, and clock give the time, with weekday and day of the year; otherwise what the cut day count gives, and the epoch for negative times |
| `Calendar.Tm.Localtime` | src/time_r.c:122-130 | the same after adding the offset |
| `Calendar.Tm.Timegm` | src/time_conv.c:78-99 | for a date from 1970 on: its Gregorian day number, by the closed form, in seconds plus the clock; a negative month counts as January; and the weekday of its day |
| `Calendar.Tm.Mktime` | src/time_conv.c:53-75 | the same less the offset |
| `Calendar.GmtimeThenTimegm` | src/time_r.c:62-115 | the time comes back exactly when it is not negative and its day count fits an int |
| `Calendar.LocaltimeThenMktime` | src/time_r.c:122-130 | the same under any offset, for the shifted time |
| `Calendar.TimegmThenGmtime` | src/time_conv.c:78-99 | every field of a valid date from 1970 on comes back exactly when its day count fits an int, with the matching weekday |
| `Iconv.DecodeEncoded` | src/iconv.c:84-171 | decoding an encoded code point yields it, whatever follows |
| `Iconv.EncodeDecoded` | src/iconv.c:84-171 | what decodes is the one encoding of its code point: no overlong or other spelling is accepted |
| `Iconv.Utf8Table` | src/iconv.c:119-145 | the bytes of UTF-8 as RFC 3629 lays out the bits of a code point |
| `Iconv.CutShort` | src/iconv.c:84-116 | a UTF-8 sequence counts as cut short exactly when its lead byte announces more bytes than there are, a UTF-16 unit when there are fewer than two |
| `Iconv.Utf16Table` | src/iconv.c:148-171 | the bytes of UTF-16, low byte first, and no surrogates |
| `Iconv.Latin1ToUtf16` | src/iconv.c:274-378 | ISO-8859-1 becomes UTF-16 by a zero byte behind every byte |
| `Iconv.AsciiUnchanged` | src/iconv.c:274-378 | an ASCII text is the same bytes in ASCII, ISO-8859-1 and UTF-8 |
| `Iconv.TranscodeBack` | src/iconv.c:274-378 | converting back gives the input back whenever the first conversion succeeds, for every pair of charsets |
| `Iconv.Utf16ToUtf8` | src/iconv.c:347-354 | UTF-16 to UTF-8 succeeds exactly on whole, surrogate-free input |
| `Iconv.Turn` | src/iconv.c:274-378 | one character is decoded, encoded and stored, or EINVAL for a sequence cut short, EILSEQ for a bad or unencodable one, E2BIG when only the room is missing |
| `Iconv.UnitsCopied` | src/iconv.c:368-373 | UTF-16 to UTF-16 copies every whole number of units, surrogates included |
| `Iconv.Convert` | src/iconv.c:253-390 | succeeds exactly when the input decodes, every code point can be encoded and the result fits, UTF-8 and UTF-16 to themselves being copied unchecked; then it delivers the result, which for a charset to itself is the input, and counts the characters; otherwise everything before one position converts and fits, and the errno is that of the character there; no E2BIG with twice the input's space |

## Left out

- Weak memory: every atomic step is sequentially consistent; the memory orders of the source are not modelled.
- Wrap-around of the barrier's phase and the condition's sequence counter: they are unbounded here.
- pthread_cond_signal, pthread_cond_timedwait and pthread_once: only the wait and broadcast that the barrier uses are modelled.
- Owner and recursion fields of the barrier's own mutex: it is a normal mutex and its word alone decides.
- Fairness of any lock: it is stated which calls can be completed and what can still happen, not that it does.
- Locking inside the allocator: each call is one step, and sbrk may move the break between calls.
- Addresses: the end of memory is itself an address below 2^64.
- Heap.Allocator.Malloc: sizes whose sum with the header is negative as an sbrk increment are excluded, because the source then moves the break down.
- Heap.Allocator.Free: a plain pointer whose recorded size ends in the alignment tag is excluded; Heap.PlainLooks says exactly which.
- Heap.Allocator.Realloc: pointers from posix_memalign are excluded, because the source reads their header from the wrong place.
- The mmap variant of the allocator, reallocf, reallocarray and aligned_alloc: thin wrappers or a simpler allocator.
- The static arrays des_init fills are values in one record, filled by the same loops permutation by permutation rather than in one nest; u_int32_t is a string of 32 bits.
- Des.Engine.DoDes: a count of INT_MIN, whose negation overflows, is excluded.
- crypt's base-64 text, MD5 and SHA password hashes: they are formatting or call OpenSSL.
- RegexWhole.CompileAndExec and RegexAtoms.SearchAtom take what the contents of a bracket expression stand for as a parameter; RegexClasses.SearchBracket supplies matchclass for it. The byte before the first bracket's contents is unset in the source and is a parameter too.
- RegexTokens.CompileSingle: patterns that end inside an escape or a bracket expression are excluded, because the source then leaves a token unset or reads past the terminator.
- Match lengths, the values of captures, and back-references of regexec: the length counter is not restored on backtracking, so only verdict and start are stated.
- Regex.MatchPattern: quantifiers after anything but a one-character token are excluded.
- RegexRangesProof.RangesKeepLanguage: ranges stand outside groups on single-character atoms other than bracket expressions with named classes, brackets contain no parentheses, a literal opening brace is escaped, and escaped digits 1 to 9, which are back-references, do not occur.
- RegexAltsProof.BranchesKeepLanguage: groups are balanced and carry no quantifier, and behind a named class a bracket expression has no bar or opening brace.
- RegexWhole.CompileAndExec: the same restrictions; branches with more than nine groups are excluded, RegexWhole.CompiledIff says why.
- Allocation failure while a pattern is compiled, and repeat counts that overflow an int.
- Fnmatch.Fnmatch: patterns that end in an escape with nothing after it are excluded, because the source then reads past the terminator; characters are compared by code point.
- Memory streams, cookie streams, reading, and setvbuf with a caller's buffer: the simple stream specification does not hold or adds nothing.
- Parsing of printf formats, the s, c and p directives, and floating point: the directive is modelled from its flags, width and precision on.
- atoi, strtod and the pow10 helper: wrappers or floating point.
- The two arrays of the hash table are one array of slots.
- Tree.SearchTree.TSearch: nodes live in a store indexed by address and malloc's result is a parameter.
- Calendar.Tm.Timegm: a month above 12 is excluded, because the source then reads past its table.
- Calendar.Tm.Mktime: the same.
- parse_offset and the TZ environment: the offset is a parameter; time_t is unbounded.
- Calendar.TimegmThenGmtime: the weekday is stated for day counts up to INT_MAX - 4, since the source adds 4 in an int.
- The input and output pointers of iconv are an index and an array.
- System call wrappers, sockets, processes, signals, locale, math, wide characters and string helpers: no algorithm of their own.
