# Version lock: model and proofs

The repository implements a 64-bit version lock (odd: held, even: free), a bucket list with a
sequential and a lock-free insert, and three hash tables over such lists: `vlht` (version lock per
bucket, optimistic lookups), `rwht` (reader-writer lock per bucket) and `lfht` (lock-free list). This
project models them twice and proves the two views against one specification.

* **Interleaved.** `LockMachine`, `CounterClient`, `VlMachine` and `LfMachine` are transition systems:
  any number of threads, one step per read, write or atomic instruction on shared memory, interleaved
  freely under sequential consistency. `VlMachine` frees nodes on remove, lets their addresses be reused
  at once, and lets a read of anything that is not a node of the bucket return any value.
* **As objects.** `VersionLock`, `BucketList.List`, `Buckets.BucketArray` and the classes of `Tables`
  are the source's classes, with in-place updates on heap nodes, each call running undisturbed (the
  spinning lock calls take the interference of other threads as a parameter).

Both are measured against `AtomicTable`, in which an insert or remove takes effect in one step and a
lookup answers for one instant of its own call, and `FlatTable`, a single newest-first association list;
`Sequential` shows that these two specifications are the same one. `VlProgress`, `VlRetries` and
`LfProgress` show that calls come to an end, `Hash` holds the mixer, `Loader` and `LoadRuns` the load phase of the benchmark.

Fields described as history (`chain`, `cont`, `view`, counters of events) never influence what a step does to
the rest of the state; lemmas `ListsIntact`, `SegUnique` and `ChainIsCommits` show that the contents they
record are what the memory spells.
A run that is "below the reset point" has had fewer than 2^63 - 1 unlocks on every lock;
`FewCallsStayBelow` gives this for every run with fewer than 2^63 - 1 calls in all.

## Where the code does not do what it says

* `write_unlock` (version_lock.hpp:101-108) means to reset the counter to 0. The branch is followed by
  the increment. Undisturbed, that leaves the lock at 1: held, by nobody, forever (`UnlockFreesExactly`).
  Whatever other threads do between the reset and the increment, the increment orphans the lock in the same way
  if no other thread owns it at that moment; if one does, it makes the counter even while the lock is owned,
  and the next thread may own it too (`ResetLocksEveryoneOut`, `SecondOwner`, `ResetCanBreakExclusion`).
  Making the reset the release keeps exclusion (`ResetAsReleaseKeepsExclusion`), but with or without that
  change a reader whose snapshot is older than the reset, and not 0, fails the assertion of `read_unlock`
  if it checks at once (`ResetFailsReaders`).
* `get_bucket` (base_ht.hpp:32) reduces with `>`: a mixed hash equal to the table size is used as an index
  one past the end. Exactly one key per table size does this (`BucketInRangeExactly`); table operations
  here require the index to be in range.
* `read_unlock` (version_lock.hpp:167-174) says equal versions mean no write happened. An odd snapshot
  validates while a writer is still at work. That is harmless beside inserts, and beside a remove that has already
  unlinked; lookups are right in every run in which none returns while a remove owns its bucket's lock
  (`RefinesAtomicTable`), and each lookup is right if that holds at its own return (`LookupLinearizes`). An attempt
  is at risk exactly when it takes its snapshot while a remove owns the lock with its match still to unlink
  (`RiskExactly`), and then it can return any value at all (`AnyAnswer`, `LookupCanReturnAnything`). The one
  thing that makes an answer wrong is a read of freed memory (`OnlyFreedReadsErr`).
* `lf_lookup_linearizable` (list.hpp:169-177) never reads `init_tag` again: it reports a miss exactly when the
  list is the one it was at that read, up to tag wrap (`MissExactly`), so after one insert during the call it can
  only end by a hit (`MovedTagNeverMatches`, `OneInsertBlocksTheMiss`); with its key absent it then never
  returns, even if every other thread stops (`DoomedForever`).

## Model

| member | source | states |
|---|---|---|
| LockMachine.BelowReset | version_lock.hpp:50-176 | in every interleaving with fewer than 2^63 - 1 unlocks the counter is acquisitions plus releases, never decreases, is odd exactly when some thread is between its winning compare-and-swap and its increment, at most one is, and the assertions of write_unlock and read_unlock hold |
| LockMachine.ResetAtUnlockNumber | version_lock.hpp:99-103 | before the first reset, an unlock reaches the overflow branch if and only if it is number 2^63 - 1 |
| LockMachine.UnlockFreesExactly | version_lock.hpp:97-114 | before the first reset, an uninterrupted unlock leaves the lock free if and only if it is not number 2^63 - 1, when it leaves the counter at 1; the repaired unlock always frees |
| LockMachine.ResetLocksEveryoneOut | version_lock.hpp:97-114 | in every interleaving, at the increment after the first reset: the lock ends odd with no owner, and no continuation ever acquires it, if and only if no other thread owns it at that moment; otherwise the counter becomes even while a thread owns it |
| LockMachine.SecondOwner | version_lock.hpp:62-72 | from an even counter with an owner, any thread outside the lock can own it as well two steps later |
| LockMachine.ResetCanBreakExclusion | version_lock.hpp:97-114 | a complete run from the initial state with exactly 2^63 - 1 unlocks in which thread 1 acquires between the reset and the increment of thread 0, and threads 1 and 2 end up owning the lock together |
| LockMachine.ResetAsReleaseKeepsExclusion | version_lock.hpp:97-114 | with the reset made the release, the counter is odd exactly when exactly one thread owns the lock, in runs of any length |
| LockMachine.ResetFailsReaders | version_lock.hpp:101-103 | at a reset, as written or made the release, a reader that checks now passes the assertion of read_unlock if and only if its snapshot is 0 |
| VersionLock.AcquiresWhenQuiet | version_lock.hpp:55-72 | write_lock, at whatever point of its spinning, acquires within two accesses of a moment from which an even counter is left alone for three |
| VersionLock.AcquiresFirst | version_lock.hpp:55-72 | write_lock taken access by access through the lock's own atomic steps, whatever it finds in the counter, owns the lock after exactly the accesses past the one that AcquiresAt names |
| VersionLock.VersionLock.WriteLock | version_lock.hpp:50-74 | under any interference acquires exactly when those steps do and at that very access, the first even value whose compare-and-swap finds it unchanged, and leaves that value plus one |
| VersionLock.VersionLock.TryWriteLock | version_lock.hpp:76-93 | undisturbed, acquires exactly when the counter is even, and otherwise changes nothing |
| VersionLock.VersionLock.WriteUnlock | version_lock.hpp:97-114 | undisturbed, the counter is even afterwards exactly when it had not reached the reset value |
| VersionLock.VersionLock.ReadLock | version_lock.hpp:116-136 | under any interference returns the first even value it finds, and returns if there is one |
| VersionLock.VersionLock.TryReadLock | version_lock.hpp:138-150 | an even result is the free lock's counter; the failure value is odd, so the two are never confused |
| VersionLock.VersionLock.ReadUnlock | version_lock.hpp:161-176 | true exactly when the counter is still the snapshot; the snapshot must not be ahead of it |
| CounterClient.NoLostUpdatesAtRest | test.cc:32-49 | whenever any number of writers have come to rest, in any interleaving, each has done all its iterations and the plainly incremented counter is threads times iterations |
| CounterClient.RestMeansDone | test.cc:32-49 | the writers can come to rest only by finishing: nobody able to move and everybody done are the same |
| CounterClient.WriterProgresses | test.cc:32-49 | in every reachable state a writer with iterations left that owns the lock or finds it free, left alone, completes its iteration within seven steps and adds one |
| Hash.MixIsBijective | base_ht.hpp:37-46 | the eight-step mixer and the explicit Unmix undo each other on all 64-bit words |
| Hash.MixSteps | base_ht.hpp:37-46 | the eight values that the local key takes, each in integer arithmetic and bitwise xor from the one before, with all eight shift amounts |
| Hash.XorBits | base_ht.hpp:40-46 | the xor used there has a bit exactly where one of its operands has it |
| Hash.MixInPlace | base_ht.hpp:37-46 | the eight assignments to the local key compute Mix |
| Hash.UnXorShiftXorShift | base_ht.hpp:40-46 | every xor-shift step is undone by xoring the repeated shifts back in |
| Hash.UndoAddNotShl | base_ht.hpp:39-45 | every step adding the complement of a shift is undone by the modular inverse of 1 - 2^s |
| Hash.BucketIsRemainder | base_ht.hpp:30-34 | the reduction is the remainder by the table size, except that a hash equal to the table size is left as it is |
| Hash.BucketInRangeExactly | base_ht.hpp:30-48 | for every positive table size the bucket index is the remainder of the mixed hash, and in range, if and only if the mixed hash is not the table size, which happens for exactly one key, Unmix(n) |
| Assoc.InsertThenRemoveRestores | list.hpp:63-106 | the pair inserted last is the one found, remove restores exactly the earlier sequence, other keys are never affected by either |
| BucketList.List.Insert | list.hpp:69-80 | the new node is first, all earlier nodes keep their identity and order |
| BucketList.List.Lookup | list.hpp:83-91 | on any heap list, the value of the newest pair with the key, or UINT64_MAX |
| BucketList.List.Remove | list.hpp:94-106 | true exactly when the key is present; unlinks only the first match and keeps every other node in order |
| BucketList.List.GetListSize | list.hpp:120-128 | the number of nodes, within a C int |
| BucketList.List.LfInsert | list.hpp:133-154 | undisturbed, puts the pair in front and advances the tag modulo 2^64 |
| BucketList.List.LfLookupLinearizable | list.hpp:167-180 | undisturbed, answers like lookup |
| BucketList.InsertThenRemove | list.hpp:69-106 | on any heap list, insert then remove of a key restores the same nodes and contents |
| AtomicTable.LookupInstant | vlht.hpp:65-79 | in every run of the atomic table a lookup's answer is its bucket's answer at one instant of its own call |
| AtomicTable.NodeCountConserved | vlht.hpp:108-116 | at every quiescent point of the atomic table the node count is all inserts minus all removes |
| AtomicTable.LoadedLooksUp | ycsb.cpp:272-276 | after only inserts of keys as their own values, at a quiescent point every inserted key looks up to itself |
| Sequential.EffectIsApply | vlht.hpp:49-95 | a call takes effect in the atomic table, with its answer, exactly as in the sequential table of the table objects |
| VlSafety.StepInv | vlht.hpp:49-95 | every atomic step of every thread keeps every bucket's list linked, its lock consistent, writers off freed memory, attempts on track until an unlink hits their bucket, and overtaken attempts invalid once the remove has unlocked |
| VlSafety.UnlinkList | list.hpp:97-99 | writing prev->next takes exactly the newest pair of the key out of a linked list and leaves it linked |
| VlSafety.SegUnique | list.hpp:84-89 | the contents of a bucket are determined by the memory reached from head |
| VlTheorems.RefinesAtomicTable | vlht.hpp:49-95 | below the reset point, every interleaving of inserts, removes and lookups in which no lookup returns while a remove owns its bucket's lock refines the atomic table, odd snapshots included |
| VlTheorems.CalmRuns | vlht.hpp:65-95 | below the reset point, that hypothesis holds of every run without removes, of every run in which no bucket has a lookup and a remove in progress together, and of every run whose lookups return on even snapshots |
| VlTheorems.WritersAreAtomic | vlht.hpp:49-95 | in every run below the reset point inserts and removes are atomic, whatever lookups read |
| VlTheorems.EffectPoints | list.hpp:77-78 | below the reset point, contents change only when an insert writes head->next and when a remove unlinks, and by exactly that pair |
| VlTheorems.LookupLinearizes | vlht.hpp:65-79 | below the reset point, if no remove owns its bucket's lock as a lookup returns, whatever the run does elsewhere, its answer is its bucket's answer at the moment its validated attempt read head->next |
| VlTheorems.UncutLookupLinearizes | vlht.hpp:65-79 | the same whenever no unlink has hit the bucket since that read, even with a remove at work |
| VlTheorems.EvenSnapshotReadsOneList | vlht.hpp:72-78 | in any run below the reset point, with removes and reuse of freed memory, an attempt that returns on an even snapshot has read no freed node and answers for the one list its bucket held at every instant since the snapshot |
| VlRetries.RetriesBounded | vlht.hpp:72-78 | below the reset point, the steps at which a lookup call has failed its check, counted on the trace, number at most the advance of its bucket's counter since the call began |
| VlRetries.LookupCanReturn | vlht.hpp:65-79 | from every state that satisfies the invariants with the bucket's counter even, a lookup at any point of its call, overtaken or not, has a run in which only its thread moves that validates and returns |
| VlRetries.NoLeak | list.hpp:94-106 | in every state below the reset point every allocated node of a bucket is in its list, or is the one some remove is about to free |
| VlProgress.AloneEnds | vlht.hpp:49-95 | in every run in which only one thread moves, its insert, remove or lookup, once on track, is over within a number of steps fixed by the length of its list |
| VlProgress.CallAlone | vlht.hpp:49-95 | a call made alone, on a free lock unless it is a lookup, is back within 2n + 7 steps in every run, with the answer and the table of the sequential specification |
| VlProgress.CallCanReturn | vlht.hpp:49-95 | and there is such a run for every idle thread and every operation with its bucket in range |
| VlTheorems.TraversalBounded | list.hpp:84-89 | below the reset point and until an unlink hits its bucket, what a traversal still has ahead in memory is the list of its read of head->next without the pairs passed, none of which had the key, and it has read no freed node |
| VlTheorems.InsertOnlyUncut | list.hpp:84-89 | below the reset point, without removes no unlink ever hits a bucket |
| VlTheorems.ListsIntact | list.hpp:69-106 | in every state below the reset point following next from a bucket's head ends and spells its contents, and its counter is acquisitions plus releases |
| VlTheorems.NodeCountConserved | vlht.hpp:108-116 | at every quiescent point of every run below the reset point the node count is inserts minus removes |
| VlTheorems.FewCallsStayBelow | version_lock.hpp:99-103 | a run with fewer than 2^63 - 1 calls never reaches the overflow branch |
| VlRace.RiskExactly | vlht.hpp:65-95 | in every state that satisfies the invariant, a lookup called next by an idle thread can validate the state's counter with an answer that the list gave at no instant of the call, if and only if some remove owns the bucket's lock with its match still to unlink |
| VlRace.AnyAnswer | vlht.hpp:65-95 | in every such state, any idle thread can return any value that neither the list before nor the list after the remove answers |
| VlRace.UnarmedIsSafe | vlht.hpp:65-95 | without such a remove, a lookup called from now on that validates the present counter returns what the list answered at its read of head->next in that call |
| VlCrossed.OnlyFreedReadsErr | vlht.hpp:65-95 | below the reset point, a lookup whose validated attempt read no freed node answers for its bucket's list at its read of head->next or at its return, even if removes unlinked nodes under it |
| VlWitness.LookupCanReturnAnything | vlht.hpp:65-95 | for every table size, key in range and value but UINT64_MAX, which the empty list answers, a run from the empty table in which a lookup of the key returns the value although no list ever answered it |
| LfSafety.StepInv | list.hpp:133-180 | every atomic step of the lock-free table keeps lists, tags, unpublished nodes and lookups consistent; lists only grow in front |
| LfTheorems.RefinesAtomicTable | lfht.hpp:44-66 | every interleaving of lock-free inserts and both kinds of lookup refines the atomic table, tag wrap-around included |
| LfTheorems.ChainIsCommits | list.hpp:133-154 | the chain from head is finite, spells the committed inserts newest first with none lost, and the tag is their number modulo 2^64 |
| LfTheorems.LookupLinearizes | list.hpp:157-165 | a lookup's answer is its list's answer at its last read of head->next |
| LfTheorems.TraversalBounded | list.hpp:157-180 | what a traversal of either lookup still has ahead in memory is the list of its last read of head->next without the pairs passed, however many inserts have committed since, so it advances at most as often as that list had nodes |
| LfTheorems.FailureMeansCommit | list.hpp:144-153 | a compare-and-swap step after which the list has not grown happens only if another thread has committed to the same list since this attempt read the tag |
| LfTheorems.FailuresBounded | list.hpp:144-153 | over any run of N threads, the compare-and-swap steps after which their list has not grown, counted on the trace, number on each list at most N - 1 times its nodes |
| LfProgress.AloneEndsLf | list.hpp:133-180 | in every run in which only one thread moves, whatever the others have stopped in the middle of, its insert or lookup, on track, is over within a number of steps fixed by the length of its list |
| LfProgress.CallAloneLf | lfht.hpp:44-66 | a call made alone, from any state, is back within 2n + 5 steps in every run, with the answer and the table of the sequential specification |
| LfProgress.CallCanReturnLf | lfht.hpp:44-66 | and there is such a run for every insert and every lookup of either kind with its bucket in range |
| LfProgress.DoomedForever | list.hpp:167-180 | a linearizable lookup whose list has grown since it read init_tag and does not hold its key never returns, even alone; with AloneEndsLf, it returns alone if and only if the tag is still the same or the key is there |
| LfTheorems.MissMeansAbsentThroughout | list.hpp:167-180 | below tag wrap, a miss means that no insert committed between the first tag read and the last check and that the key was absent throughout |
| LfTheorems.MissExactly | list.hpp:167-180 | the check lets the call report a miss if and only if a multiple of 2^64 inserts have reached the list since the call read init_tag, which below tag wrap means that the list is the same |
| LfTheorems.MovedTagNeverMatches | list.hpp:169-177 | below tag wrap, once the tag has moved no later check of the call succeeds, so it can end only by a hit |
| LfWitness.OneInsertBlocksTheMiss | list.hpp:167-180 | for any two different keys of one bucket, a run in which the insert of one sends the lookup of the other round again although no list ever had its key |
| Buckets.BucketArray.NodeCount | vlht.hpp:108-116 | the total of all list sizes, with no overflow of the int accumulator while it fits |
| FlatTable.BucketsAreInvisible | rwht.hpp:51-89 | for every sequence of operations with in-range buckets the bucketed table answers exactly as one flat newest-first list |
| Tables.VlHashTable.Insert | vlht.hpp:49-63 | on a free lock with any counter: one pair in front of one bucket, the bucket's lock free again if and only if this was not the unlock that reaches the reset, everything else unchanged |
| Tables.VlHashTable.Lookup | vlht.hpp:65-79 | undisturbed, whatever state the lock is in, the first validation succeeds and the answer is the bucket's |
| Tables.VlHashTable.Remove | vlht.hpp:81-95 | on a free lock with any counter: the newest pair of a present key goes, the bucket's lock free again if and only if this was not the unlock that reaches the reset, everything else unchanged |
| Tables.RwHashTable.Insert | rwht.hpp:51-64 | one pair in front of one bucket under the exclusive lock, which is free again afterwards |
| Tables.RwHashTable.Lookup | rwht.hpp:66-74 | the bucket's answer under the shared lock; the table is unchanged |
| Tables.RwHashTable.Remove | rwht.hpp:76-89 | the newest pair of a present key goes, everything else unchanged |
| Tables.LfHashTable.Insert | lfht.hpp:44-56 | one pair in front of one bucket |
| Tables.LfHashTable.Lookup | lfht.hpp:58-66 | the bucket's answer |
| Tables.RunBoth | rwht.hpp:51-89 | on every sequence of inserts, lookups and removes of keys present at the time the two tables with removes give the same answers, those of the flat list |
| Tables.RunAllThree | lfht.hpp:44-66 | on every sequence of inserts and lookups the three tables give the same answers, those of the flat list |
| Loader.RangesPartition | ycsb.cpp:269-272 | the threads' ranges are disjoint and cover exactly the first T * floor(LOAD_SIZE / T) positions |
| Loader.InsertedLooksUp | ycsb.cpp:272-276 | what a worker's inserts leave: every key of its range looks up to itself, no other answer changes, and the table grows by the size of the range |
| Loader.VlWorker | ycsb.cpp:265-277 | one worker on the version-locked table inserts exactly the keys of its range, in order |
| Loader.RwWorker | ycsb.cpp:265-277 | the same on the table with reader-writer locks |
| Loader.LfWorker | ycsb.cpp:265-277 | the same on the lock-free table |
| Loader.LoadComplete | ycsb.cpp:262-286 | after all workers have finished, in any interleaving of atomic operations, every covered key looks up to itself and the node count is T * floor(LOAD_SIZE / T) |
| Loader.VlLoadComplete | ycsb.cpp:262-286 | the same for the version-locked table, in any interleaving of its memory accesses |
| Loader.LfLoadComplete | ycsb.cpp:262-286 | the same for the lock-free table, in any interleaving of its memory accesses |
| LoadRuns.VlLoadCanComplete | ycsb.cpp:262-286 | for every table size, number of threads and keys in range, the version-locked table has a run in which every worker makes its calls and all return |
| LoadRuns.LfLoadCanComplete | ycsb.cpp:262-286 | so has the lock-free table |

## Left out

- Weak memory: sequential consistency is assumed, fences (`smp_wmb`) do nothing, and each atomic macro of arch.h is one step.
- Concurrent runs of rwht.hpp: `std::shared_mutex` is abstract, and what it promises makes each operation one atomic step; the table is modelled as an object only.
- VersionLock.VersionLock.WriteLock: the calls of `Tables` pass it two quiet accesses, so a table method is never kept spinning; spinning against other threads is in `LockMachine` and `VlMachine`.
- Tables.VlHashTable.Insert: requires the bucket's lock to be free, because alone on a held lock write_lock never returns.
- Tables.VlHashTable.Remove: requires the bucket's lock to be free, for the same reason, and the key to be present, because the source asserts it; the interleaved model has the failing assertion as a final state of the thread.
- Tables.RunBoth: at most 2^63 - 4 operations, so that no lock reaches its reset branch; what happens there is in `LockMachine`.
- Loader.VlWorker: requires that the locks can take the worker's range without reaching the reset branch, for the same reason.
- Table size 0, which the constructors accept and the reduction divides by.
- `lf_hash_table::remove` is a stub and `list::lf_remove` has no definition.
- Allocation failure and its error messages, printing, destructors, leaks.
- Reading workload files, timing, pinning threads, the run phase of ycsb.cpp, and the scripts.
- The order in which `next_thread_id` hands out numbers: threads are named by the number they drew.
- VlRetries.LookupCanReturn: some run, not every run, because an attempt that an unlink has overtaken may wander in freed memory for as long as the memory pleases; for attempts on track `AloneEnds` speaks of every run.
- VlProgress.CallCanReturn: requires that the lock can take one more writer without reaching the reset branch; what happens there is in `LockMachine`.
- LoadRuns.VlLoadCanComplete: fewer than 2^63 - 2 keys, for the same reason.
- Fairness: among threads that all keep moving, a particular writer or lookup may be overtaken forever; what is proved of progress is the bounds above and that a thread left alone finishes.
