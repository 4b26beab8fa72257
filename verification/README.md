# Entangle's messaging core, verified

entangle passes messages between processes through shared memory: a publisher borrows a chunk of a
shared pool, writes its payload there, and sends only the chunk's 64-bit offset. This project models
that core in Dafny and proves what its users rely on. `dafny verify dfyconfig.toml` checks all of it.

It works on two levels.

1. **Step machines.** The lock-free structures run with one atomic load, store or compare-and-swap a
   step, a program counter and local variables for each thread, and any interleaving. Each is proved
   to refine the simple structure it stands for: a stack of free indices, a set, a table, a bounded
   FIFO, a register. For callers this means that the structure is linearizable: the arguments they pass
   and the results they get, in the order of their calls and returns, are those of an atomic object
   (`AtomicObjects`). A call that runs alone ends. The protocols on top run with one pool operation,
   queue operation, counter update or payload access a step. Theorems are about every run.
2. **Classes.** The same structures and ports in the form in which the program runs them, with fields,
   arrays and loops, each method proved against what it does to the abstract value.

| files | what they model |
|---|---|
| `Words`, `Sums`, `Counts`, `Results` | machine words and bit operations on natural numbers; sums; occurrences in queues; results |
| `AtomicObjects` | atomic objects: calls that take effect at one instant between call and return |
| `FreeList`, `FreeListSafety`, `IndexSetCalls`, `IndexSetRuns`, `TagWrap` | the tagged free-list of `UniqueIndexSet` and `MpmcContainer`, step by step, and what its callers see |
| `IndexSet` | `UniqueIndexSet` as a class |
| `BitWords`, `BitSetSteps`, `BitSetCalls`, `BitSetNone`, `BitSets` | `AtomicBitSet`: words as sets, step by step, what its callers see, and as a class |
| `MpmcSteps`, `MpmcSafety`, `MpmcCalls`, `MpmcContainers` | `MpmcContainer`, step by step, what its callers see, and as a class |
| `SpscSteps`, `Channels` | `SpscQueue` step by step; `SpscQueue` and `ZeroCopyChannel` as classes |
| `Seqlock` | `Writer::write` and `Reader::read`, word by word |
| `Offsets`, `DataSegments` | `PointerOffset`, the chunk layout, `PoolAllocator` and `DataSegment` |
| `SegmentRuns`, `SegmentManager` | `SegmentManager`: over all runs, and as a class |
| `PubSubSteps`, `PubSubCalls`, `PublisherFanout`, `PublisherPayloads`, `Ports` | publish/subscribe with one channel step by step, with any number of channels, and the ports as classes |
| `ReqResSteps`, `ReqResCalls`, `ReqResOrder`, `ReqResMismatch`, `ReqResBounds`, `ReqResPorts` | request/response step by step, and the ports as classes |

## Assumptions

- Memory is sequentially consistent and `usize` has 64 bits.
- `compare_exchange_weak` may fail spuriously at any time in all safety results; the progress bound
  excludes it.
- Tags: a step machine also counts head updates without bound, as a ghost. A swap of `acquire` that
  succeeds is assumed to come fewer than 2^32 head updates after the load of its `old`. `release` needs
  no such assumption. `TagWrap` shows that the assumption cannot be dropped. The head's tag and the
  `borrowed` counter wrap as in the code.
- Seqlock, for the register theorems: fewer than 2^64 counter updates between the two loads of an
  accepted read, and a reader that loads 0 does so before the counter has wrapped.
- One producer and one consumer for each SPSC queue, one blackboard writer, one server. The server may
  answer different clients at the same time, but one request of a client at a time, since a response
  queue has one producer.
- Callers release only what they hold, as the `unsafe` and documented contracts ask.
- Publish/subscribe theorems about values and conservation: one channel, attached before the first send.
- Sizes: what `create` is asked for fits the 48-bit offsets; SPSC capacities are at most 2^63.
- Shared memory is an array. Creating a segment may be refused, which is a parameter; it is always
  refused while a segment of that name exists.
- The spurious failures of a class's compare-and-swap are a parameter too.

## Where the code does not keep a promise

- `acquire` can hand out an index twice when its 32-bit tag wraps between load and swap
  (`TagWrap.TagWrapBreaksUniqueness`); a run keeps the free-list consistent exactly when each swap
  installs a `next` value that is still current (`TagWrap.RunExact`).
- `reclaim` returns a chunk once for each subscriber (`PublisherFanout.ExactlyOnceIffOneChannel`).
  With two or more, `loan` may zero a chunk that a subscriber still holds: payloads are kept exactly
  for at most one channel (`PublisherPayloads.PayloadsKeptExactly`, `PublisherPayloads.HeldPayloadChanges`).
  A second release of a free chunk closes a cycle in the free-list (`IndexSet.ReleaseExact`).
- `SegmentManager` cannot expand beyond 65536 segments: the next one would need a name that is taken
  (`SegmentRuns.NeverLiveTwice`, `SegmentRuns.SegmentLimitReached`).
- `max_pending_requests` from 2^31 on is cut to 32 bits when the pool is sized: multiples of 2^31 are
  refused by a failed assertion, all others run dry within the limit (`ReqResBounds.CreatableExactly`,
  `ReqResBounds.GuaranteeExactly`).
- `Reader::read` documents `None` as nothing written; it is also returned after every 2^63 writes
  (`Seqlock.NoneExactly`, `Seqlock.NoneAfterWrites`).
- Responses carry no request id, so answering out of order mismatches them
  (`ReqResMismatch.RespondMatchIffOldest`, `ReqResMismatch.ReverseAnswersMismatch`).
- `Client::send` and `respond` lose the chunk for good when the push meets a full queue
  (`ReqResBounds.LeaksExactly`, `ReqResBounds.LeakPossibleExactly`).
- `find_and_clear_first_set` may return `None` while the set is never empty, exactly when the set has
  more than one word (`BitSetNone.NoneMeansEmptyExactly`, `BitSetNone.NoneThoughNeverEmpty`).

## Model

| member | source | states |
|---|---|---|
| FreeList.PackFields | crates/entangle-lockfree/src/index_set.rs:156-166 | the head word keeps a 32-bit index and a 32-bit tag apart: unpacking a packed word gives back both |
| FreeList.InitShape | crates/entangle-lockfree/src/index_set.rs:53-73 | after `new` every link is an index below the capacity or the sentinel, and the head names index 0 with tag 0 |
| FreeList.ShapeStep | crates/entangle-lockfree/src/index_set.rs:79-139 | in every run, whatever the tags do, every head, link and stale local copy stays in range, so no `next[...]` access is out of bounds |
| FreeListSafety.InitChain | crates/entangle-lockfree/src/index_set.rs:53-73 | `new` links all indices 0, 1, ... into one acyclic chain that ends at the sentinel |
| FreeListSafety.CasProvesNextCurrent | crates/entangle-lockfree/src/index_set.rs:81-107 | a head swap of `acquire` that succeeds within the tag window proves that nothing happened since `old` was loaded and that the `next` value read in between is still the current one |
| FreeListSafety.InvStep | crates/entangle-lockfree/src/index_set.rs:79-139 | every atomic access of every thread keeps each index in exactly one place: on the chain from the head, held by one thread, or handed over; all it asks is that a successful `acquire` swap installs a `next` value that is still current |
| FreeListSafety.StepRefines | crates/entangle-lockfree/src/index_set.rs:79-139 | under the same condition each atomic access is one operation of an atomic stack of free indices: a successful swap is the push or pop of exactly the index the caller returns, and `Err` takes effect at the load that saw the sentinel |
| FreeListSafety.RunRefines | crates/entangle-lockfree/src/index_set.rs:79-139 | every concurrent run whose `acquire` swaps install current `next` values is a run of the atomic stack; nothing is assumed of the tags |
| FreeListSafety.WindowsGiveCurrent | crates/entangle-lockfree/src/index_set.rs:91-107 | the tag window implies that condition over the whole run |
| FreeListSafety.IndexSetRefinesStack | crates/entangle-lockfree/src/index_set.rs:53-139 | every run from `new` inside the tag window is a run of the atomic stack, any number of threads and any interleaving |
| FreeListSafety.NeverHeldTwice | crates/entangle-lockfree/src/index_set.rs:79-139 | an index a thread holds is below the capacity, held by no other thread, not handed over and not at the head |
| IndexSetRuns.LedgerBalances | crates/entangle-lockfree/src/index_set.rs:98-136 | indices out + pending `fetch_add`s - pending `fetch_sub`s is capacity minus free; the counter's true value is positive whenever a `fetch_sub` is about to run |
| IndexSetRuns.LedgerStep | crates/entangle-lockfree/src/index_set.rs:98-136 | every step keeps the wrapping 32-bit `borrowed` equal to the ledger |
| IndexSetRuns.LedgerInit | crates/entangle-lockfree/src/index_set.rs:53-73 | `new` starts with a balanced ledger, so the next row holds of every run from there |
| IndexSetRuns.BorrowedLedger | crates/entangle-lockfree/src/index_set.rs:98-154 | over every run `borrowed` satisfies the ledger, and at rest it is exactly capacity minus free, if capacity plus threads is below 2^32 |
| IndexSetRuns.LockFreeProgress | crates/entangle-lockfree/src/index_set.rs:81-138 | with strong compare-and-swap, over every run, failed swaps + threads now holding a stale `old` <= those stale at the start + (T - 1) x successful swaps; no assumption on tags |
| IndexSetRuns.ProgressFromStart | crates/entangle-lockfree/src/index_set.rs:81-138 | the same bound from `new`, where nobody is stale |
| TagWrap.AcquireSwapExact | crates/entangle-lockfree/src/index_set.rs:81-107 | a successful swap of `acquire` leaves a consistent free-list if and only if the `next` value it read is still current |
| TagWrap.RunExact | crates/entangle-lockfree/src/index_set.rs:79-139 | a run keeps the free-list consistent at every step if and only if each successful `acquire` swap installs a `next` value that is still current |
| TagWrap.TagWrapBreaksUniqueness | crates/entangle-lockfree/src/index_set.rs:91-107 | without the tag window the promise fails: a concrete run of two threads over three indices in which 2^32 head updates pass between a load and its swap and both threads end up holding index 1 |
| IndexSetCalls.StepCall | crates/entangle-lockfree/src/index_set.rs:79-139 | each atomic access moves its thread's call as a call of an atomic stack: it begins it with the caller's argument, takes effect once with the answer the caller gets, ends it, or leaves call and stack alone |
| IndexSetCalls.IndexSetIsLinearizable | crates/entangle-lockfree/src/index_set.rs:53-139 | inside the tag window, the calls and returns of every run, with the indices that callers pass in and get back, are those of an atomic stack of free indices that starts full |
| IndexSetCalls.EndsAlone | crates/entangle-lockfree/src/index_set.rs:79-139 | from every state of a run, whatever the tags do, a thread in `acquire` or `release` that runs alone ends its call within four steps |
| IndexSet.UniqueIndexSet.constructor | crates/entangle-lockfree/src/index_set.rs:53-73 | all indices are free and will be handed out in ascending order |
| IndexSet.UniqueIndexSet.Acquire | crates/entangle-lockfree/src/index_set.rs:79-108 | takes the index on top of the free stack and advances the tag by one, or fails and changes nothing exactly when the stack is empty, however often the weak swap fails |
| IndexSet.UniqueIndexSet.Release | crates/entangle-lockfree/src/index_set.rs:114-139 | puts an index that is out on top of the free stack and advances the tag by one; the rest of the stack is unchanged |
| IndexSet.ReleaseExact | crates/entangle-lockfree/src/index_set.rs:114-139 | pushing an index leaves a free-list that ends if and only if the index was not free already; a second release closes a cycle |
| IndexSet.UniqueIndexSet.BorrowedCount | crates/entangle-lockfree/src/index_set.rs:142-144 | the number of indices that are out |
| IndexSet.UniqueIndexSet.Available | crates/entangle-lockfree/src/index_set.rs:152-154 | the number of free indices, so the saturation never takes effect |
| BitWords.TestBitIs | crates/entangle-lockfree/src/atomic_bitset.rs:78-83 | `word & (1 << k) != 0` reads binary digit k |
| BitWords.SetBitHas | crates/entangle-lockfree/src/atomic_bitset.rs:31-52 | storing the word with the bit set adds exactly that index to the set the words represent and keeps the padding bits zero |
| BitWords.ClearBitHas | crates/entangle-lockfree/src/atomic_bitset.rs:55-75 | storing the word with the bit cleared removes exactly that index and keeps the padding bits zero |
| BitWords.LowestHas | crates/entangle-lockfree/src/atomic_bitset.rs:99-127 | `trailing_zeros` of a nonzero word is the least index of that word, and it is below the capacity |
| BitSetSteps.StepRefines | crates/entangle-lockfree/src/atomic_bitset.rs:31-127 | each atomic access of `set`, `clear` and `find_and_clear_first_set` is one operation of an atomic set, with the boolean or the index that the call returns; `None` is the subject of the BitSetNone rows |
| BitSetSteps.RunRefines | crates/entangle-lockfree/src/atomic_bitset.rs:31-127 | every concurrent run is a run of that atomic set; the branch that gives a padding bit back is never reached |
| BitSetNone.NoneMeansEachWordWasZero | crates/entangle-lockfree/src/atomic_bitset.rs:99-127 | when a concurrent `find_and_clear_first_set` returns `None`, each word was zero at some instant of the call |
| BitSetNone.NoneThoughNeverEmpty | crates/entangle-lockfree/src/atomic_bitset.rs:99-127 | for every capacity of two words or more, a concrete run in which it returns `None` although the set has a member before and after each step of the call |
| BitSetNone.NoneMeansEmptyExactly | crates/entangle-lockfree/src/atomic_bitset.rs:99-127 | over every run of any number of threads, `None` means that the set was empty at some instant of the call if and only if the capacity is at most 64, that is, the set has at most one word |
| BitSetCalls.StepCall | crates/entangle-lockfree/src/atomic_bitset.rs:31-127 | each atomic access moves its thread's call as a call of an atomic set: with the index the caller passed in, and with the boolean or index it gets back |
| BitSetCalls.BitSetIsLinearizable | crates/entangle-lockfree/src/atomic_bitset.rs:31-127 | the calls and returns of every run are those of an atomic set that starts empty: `set` and `clear` answer whether they changed it, `find_and_clear_first_set` takes an index that is the least of its word; what its `None` means is the subject of the BitSetNone rows |
| BitSetCalls.EndsAlone | crates/entangle-lockfree/src/atomic_bitset.rs:31-127 | from every state of a run a thread that runs alone ends its call: `set` and `clear` within two steps, `find_and_clear_first_set` within one for each word and one more |
| BitSets.CountOnesIs | crates/entangle-lockfree/src/atomic_bitset.rs:86-91 | `count_ones` of a word is the size of its set of bits |
| BitSets.AtomicBitSet.constructor | crates/entangle-lockfree/src/atomic_bitset.rs:19-26 | the empty set |
| BitSets.AtomicBitSet.Set | crates/entangle-lockfree/src/atomic_bitset.rs:31-52 | adds the index; true exactly when it was absent |
| BitSets.AtomicBitSet.Clear | crates/entangle-lockfree/src/atomic_bitset.rs:55-75 | removes the index; true exactly when it was present |
| BitSets.AtomicBitSet.IsSet | crates/entangle-lockfree/src/atomic_bitset.rs:78-83 | membership |
| BitSets.AtomicBitSet.CountSet | crates/entangle-lockfree/src/atomic_bitset.rs:86-91 | the sum over the words is the size of the set |
| BitSets.AtomicBitSet.ReportOrGiveBack | crates/entangle-lockfree/src/atomic_bitset.rs:114-120 | the index of the cleared bit when it is below the capacity; otherwise the bit is set again and nothing else changes |
| BitSets.AtomicBitSet.FindAndClearFirstSet | crates/entangle-lockfree/src/atomic_bitset.rs:99-127 | removes and returns the least member, or `None` exactly when the set is empty |
| BitSets.DrainedAscending | crates/entangle-lockfree/src/atomic_bitset.rs:99-127 | removing the least member until none is left lists every member once, in strictly ascending order |
| BitSets.Drain | crates/entangle-lockfree/src/atomic_bitset.rs:99-127 | a loop over `find_and_clear_first_set` returns exactly that list and leaves the set empty |
| MpmcSafety.InvStep | crates/entangle-lockfree/src/mpmc_container.rs:57-158 | every atomic access of `add` and `remove` keeps the free-list, the occupancy bits, the values and each thread's place consistent with one another |
| MpmcSafety.SetAlwaysTrue | crates/entangle-lockfree/src/mpmc_container.rs:57-68 | a slot that `add` is about to mark as occupied is owned by that thread and its bit is unset |
| MpmcSafety.IgnoredResultIsTrue | crates/entangle-lockfree/src/mpmc_container.rs:65 | in every run the result of `occupied.set(slot)`, which `add` ignores, is true |
| MpmcSafety.SlotInOnePlace | crates/entangle-lockfree/src/mpmc_container.rs:57-158 | in every run each slot is exactly one of: free, occupied, being added by one thread, being removed by one thread |
| MpmcSafety.RemoveReturnsItsAdd | crates/entangle-lockfree/src/mpmc_container.rs:57-79 | in every run each completed add stored the value it was called with, read off the sequence of calls; it is removed at most once; a `remove` that returns a value returns that of the add whose bit it cleared, never that of a later use of the slot; and each `remove` that cleared a bit has returned one value or is still on its way |
| MpmcCalls.StepCall | crates/entangle-lockfree/src/mpmc_container.rs:57-158 | each atomic access moves its thread's call as a call of an atomic table: with the value or slot the caller passed in, and with the slot or value it gets back |
| MpmcCalls.ContainerIsLinearizable | crates/entangle-lockfree/src/mpmc_container.rs:57-158 | inside the tag window, the calls and returns of every run are those of an atomic table that starts empty: `add(v)` puts v into an empty slot and answers the slot, `remove(slot)` answers and removes exactly what is there |
| MpmcCalls.AddFailsExactly | crates/entangle-lockfree/src/mpmc_container.rs:57-68 | in every run a load of the free-list's head in `add` answers `None` if and only if every slot is occupied or in the hands of a call at that instant |
| MpmcCalls.EndsAlone | crates/entangle-lockfree/src/mpmc_container.rs:57-158 | from every state of a run a thread in `add` or `remove` that runs alone ends its call within seven steps, if the head it loaded is not older than the tag can tell |
| MpmcContainers.MpmcContainer.constructor | crates/entangle-lockfree/src/mpmc_container.rs:30-54 | an empty table with every slot free |
| MpmcContainers.MpmcContainer.AllocSlot | crates/entangle-lockfree/src/mpmc_container.rs:115-137 | pops the free-list, or `None` exactly when it is empty |
| MpmcContainers.MpmcContainer.FreeSlot | crates/entangle-lockfree/src/mpmc_container.rs:139-158 | pushes the slot on the free-list |
| MpmcContainers.MpmcContainer.Add | crates/entangle-lockfree/src/mpmc_container.rs:57-68 | maps an empty slot to the value, or fails and changes nothing exactly when all slots are taken |
| MpmcContainers.MpmcContainer.Remove | crates/entangle-lockfree/src/mpmc_container.rs:71-79 | returns and removes what the slot maps to; `None` exactly when the slot is empty |
| MpmcContainers.MpmcContainer.Get | crates/entangle-lockfree/src/mpmc_container.rs:82-88 | looks the slot up |
| MpmcContainers.MpmcContainer.ForEach | crates/entangle-lockfree/src/mpmc_container.rs:91-98 | visits every occupied slot once, in ascending order, with its value |
| MpmcContainers.MpmcContainer.Len | crates/entangle-lockfree/src/mpmc_container.rs:101-103 | the number of occupied slots |
| SpscSteps.RoundedIsPower | crates/entangle-lockfree/src/spsc_queue.rs:38-49 | the capacity is a power of two, at least 2 and at least what was asked for |
| SpscSteps.MaskedSlot | crates/entangle-lockfree/src/spsc_queue.rs:63-86 | masking a wrapped position gives the slot of the unwrapped count, so slots stay in order across the 64-bit wrap |
| SpscSteps.StepRefines | crates/entangle-lockfree/src/spsc_queue.rs:54-94 | each load and store of `push` and `pop` moves the call as a call of an atomic bounded FIFO: it begins it with the pushed value, ends it with the result, leaves all alone, or is the one instant at which it takes effect; a `push` that answers false does so at an instant when the queue is full, a `pop` that answers `None` when it is empty |
| SpscSteps.RunRefines | crates/entangle-lockfree/src/spsc_queue.rs:54-94 | from every reachable state, the calls and returns of every interleaving of one producer and one consumer are those of the atomic FIFO |
| SpscSteps.QueueRefinesFifo | crates/entangle-lockfree/src/spsc_queue.rs:38-94 | from `new`: calls, arguments and results of every run are those of an atomic FIFO of the rounded capacity; popped values are a prefix of pushed ones, at most `capacity` are pending, and no unread slot is overwritten |
| SpscSteps.WaitFree | crates/entangle-lockfree/src/spsc_queue.rs:54-94 | over every run, whatever the other side does, `push` and `pop` end after at most three of their own steps |
| SpscSteps.CallAdvances | crates/entangle-lockfree/src/spsc_queue.rs:54-94 | a call that is not over always has a next step, and each of its steps brings it nearer to its end |
| Channels.SpscQueue.constructor | crates/entangle-lockfree/src/spsc_queue.rs:38-49 | an empty queue of the rounded capacity |
| Channels.SpscQueue.Push | crates/entangle-lockfree/src/spsc_queue.rs:54-72 | appends the value, or fails and changes nothing exactly when full |
| Channels.SpscQueue.Pop | crates/entangle-lockfree/src/spsc_queue.rs:77-94 | takes the oldest value, or `None` exactly when empty |
| Channels.SpscQueue.Len | crates/entangle-lockfree/src/spsc_queue.rs:111-115 | the wrapping difference of the positions is the number of waiting values |
| Channels.SpscQueue.IsEmpty | crates/entangle-lockfree/src/spsc_queue.rs:97-101 | equal positions mean empty, not full |
| Channels.SpscQueue.IsFull | crates/entangle-lockfree/src/spsc_queue.rs:104-108 | true exactly when `capacity` values wait |
| Channels.ZeroCopyChannel.constructor | crates/entangle-transport/src/channel.rs:24-32 | two empty queues of the same rounded capacity |
| Channels.ZeroCopyChannel.Connect | crates/entangle-transport/src/channel.rs:35-38 | only the state changes |
| Channels.ZeroCopyChannel.Disconnect | crates/entangle-transport/src/channel.rs:41-44 | only the state changes; what is under way stays |
| Channels.ZeroCopyChannel.PendingCount | crates/entangle-transport/src/channel.rs:95-97 | the number of offsets under way |
| Channels.ZeroCopyChannel.ReturnCount | crates/entangle-transport/src/channel.rs:100-102 | the number of returned offsets |
| Channels.ZeroCopyChannel.Send | crates/entangle-transport/src/channel.rs:57-65 | appends to the send queue; `ConnectionBroken` exactly when disconnected, else `QueueFull` exactly when full; the return queue is untouched |
| Channels.ZeroCopyChannel.Receive | crates/entangle-transport/src/channel.rs:69-77 | takes the oldest offset, also after a disconnect; broken only when disconnected and drained |
| Channels.ZeroCopyChannel.ReturnOffset | crates/entangle-transport/src/channel.rs:81-87 | with room in the return queue the first push of the spin loop succeeds; on a full queue the loop spins and changes nothing, for any number of turns |
| Channels.ZeroCopyChannel.Reclaim | crates/entangle-transport/src/channel.rs:90-92 | takes the oldest returned offset, or `None` exactly when there is none |
| Seqlock.AcceptedIsLatest | crates/entangle/src/port/reader.rs:73-101 | a read whose two sequence loads agree holds, word for word, the latest completed write, and no write was under way in between; both copies may visit the words in any order |
| Seqlock.NoneExactly | crates/entangle/src/port/reader.rs:77-80 | in every run, with no assumption on the counter, a read comes to answer `None` at a step if and only if that step is its first load, no write is under way, and the number of completed writes is a multiple of 2^63 |
| Seqlock.NoneAfterWrites | crates/entangle/src/port/writer.rs:108-129 | a concrete run of 2^63 writes after which a read returns `None` |
| Seqlock.StepRefines | crates/entangle/src/port/reader.rs:73-101 | each load and store of the writer and of any number of readers moves its call as a call of an atomic register, with the value `write` was called with and the value `read` returns |
| Seqlock.RunRefines | crates/entangle/src/port/reader.rs:73-101 | from every reachable state, the calls and returns of every interleaving inside the counter window are those of the atomic register |
| Seqlock.SeqlockIsRegister | crates/entangle/src/port/reader.rs:73-101 | calls, arguments and results of every such run are those of an atomic register; a read that returns `Some` returns the last value it accepted, which is the whole value of one completed write, and successive reads by one reader never go back |
| Seqlock.RetryExactly | crates/entangle/src/port/reader.rs:73-101 | a read tries again if and only if its first load finds a write under way or the counter moved between its two loads |
| Seqlock.CallAdvances | crates/entangle/src/port/writer.rs:108-129 | `write` never waits: a next step is always possible and it ends after one for each word and two more; so does `read` unless it has to try again |
| Offsets.EncodeRoundTrip | crates/entangle-transport/src/contracts.rs:11-22 | `segment_id` and `offset` recover what `PointerOffset::new` packed, for all 16-bit ids and 48-bit offsets |
| Offsets.DecodeRoundTrip | crates/entangle-transport/src/contracts.rs:16-30 | every 64-bit word is the packing of its own parts |
| Offsets.EncodeInjective | crates/entangle-transport/src/contracts.rs:11-14 | two packed words agree exactly when both parts agree |
| Offsets.AlignUpIs | crates/entangle-transport/src/data_segment.rs:45 | `(chunk_size + 7) & !7` is the least multiple of 8 that is not smaller |
| Offsets.ChunkInside | crates/entangle-transport/src/data_segment.rs:45-46 | every chunk lies after the header, 8-aligned, inside the segment |
| Offsets.ChunksDisjoint | crates/entangle-transport/src/pool_alloc.rs:34-41 | chunks of different indices do not overlap |
| Offsets.IndexRoundTrip | crates/entangle-transport/src/pool_alloc.rs:34-48 | `deallocate` recovers exactly the index that `allocate` took, through the packing and the division, and both asserts of `resolve_ptr` hold |
| Offsets.OffsetsDistinct | crates/entangle-transport/src/pool_alloc.rs:34-41 | different chunks have different offsets, within a segment and across segments with different ids |
| DataSegments.LiveIndex | crates/entangle-transport/src/pool_alloc.rs:44-48 | the division in `deallocate` finds the one chunk that a live offset names |
| DataSegments.WriteIsolated | crates/entangle-transport/src/data_segment.rs:103-130 | a write through a chunk's offset stays in the segment, is read back there, and changes no other chunk |
| DataSegments.PoolAllocator.constructor | crates/entangle-transport/src/pool_alloc.rs:23-31 | all chunks are free |
| DataSegments.PoolAllocator.Allocate | crates/entangle-transport/src/pool_alloc.rs:34-41 | the offset of the first free index, or `OutOfMemory` exactly when none is free |
| DataSegments.PoolAllocator.Deallocate | crates/entangle-transport/src/pool_alloc.rs:44-48 | frees exactly the index the offset was issued for |
| DataSegments.PoolAllocator.AllocatedCount | crates/entangle-transport/src/pool_alloc.rs:51-53 | the number of chunks that are out |
| DataSegments.PoolAllocator.Available | crates/entangle-transport/src/pool_alloc.rs:56-58 | the number of free chunks |
| DataSegments.DataSegment.constructor | crates/entangle-transport/src/data_segment.rs:38-67 | the rounded chunk size, all chunks free, memory for the header and every chunk |
| DataSegments.DataSegment.Allocate | crates/entangle-transport/src/data_segment.rs:90-92 | takes the first free chunk |
| DataSegments.DataSegment.Deallocate | crates/entangle-transport/src/data_segment.rs:95-97 | gives back exactly the chunk the offset names |
| DataSegments.DataSegment.ResolvePtr | crates/entangle-transport/src/data_segment.rs:103-108 | for every live offset the pointer is behind the header, 8-aligned, and the whole chunk is inside the mapping |
| DataSegments.DataSegment.Write | crates/entangle-transport/src/data_segment.rs:127-130 | changes exactly the payload's bytes at the offset |
| DataSegments.DataSegment.Read | crates/entangle-transport/src/data_segment.rs:117-120 | returns exactly the bytes at the offset |
| SegmentRuns.NameTakenExactly | crates/entangle-platform/src/shm.rs:31-38 | the name that the next segment would get belongs to a live segment if and only if 65536 segments exist; exclusive creation then refuses it |
| SegmentRuns.AllocTakes | crates/entangle-transport/src/segment_mgr.rs:35-53 | an allocation takes a chunk that was not out; it adds a segment exactly when every chunk is out, fewer than 65536 segments exist and the platform grants one, and otherwise fails exactly when every chunk is out |
| SegmentRuns.AllocStep | crates/entangle-transport/src/segment_mgr.rs:35-53 | the offset handed out is not live, and the state stays consistent |
| SegmentRuns.DeallocRoutes | crates/entangle-transport/src/segment_mgr.rs:56-61 | `deallocate` reaches the segment that issued the offset and frees the index it was issued for, and nothing else |
| SegmentRuns.SegmentsFollowPeak | crates/entangle-transport/src/segment_mgr.rs:35-61 | over every run there are at most 65536 segments, one live offset for each chunk that is out, and the number of segments is max(1, ceil(peak / chunks_per_segment)), also when some creations were refused |
| SegmentRuns.NeverLiveTwice | crates/entangle-transport/src/segment_mgr.rs:35-61 | after every run an allocation never hands out a live offset, and it fails if and only if every chunk is out and the platform refuses a segment or 65536 exist |
| SegmentRuns.SegmentLimitReached | crates/entangle-transport/src/segment_mgr.rs:43-49 | for every geometry a concrete run fills 65536 segments, after which every allocation fails |
| SegmentRuns.TotalsAddUp | crates/entangle-transport/src/segment_mgr.rs:97-104 | available and allocated chunks add up to all chunks |
| SegmentManagers.SegmentManager.constructor | crates/entangle-transport/src/segment_mgr.rs:18-32 | one segment with id 0, all free |
| SegmentManagers.SegmentManager.TryAllocate | crates/entangle-transport/src/segment_mgr.rs:37-41 | one turn of the first-fit loop |
| SegmentManagers.SegmentManager.Expand | crates/entangle-transport/src/segment_mgr.rs:43-52 | the new segment gets the id `len as u16` and its first chunk is handed out; a refused creation or a name that is taken changes nothing |
| SegmentManagers.SegmentManager.Allocate | crates/entangle-transport/src/segment_mgr.rs:35-53 | result and new state are those of the specification `Allocated`, about which the run theorems are proved; existing segments stay in place |
| SegmentManagers.SegmentManager.Deallocate | crates/entangle-transport/src/segment_mgr.rs:56-61 | the new state is that of the specification `Freed`; an unknown segment id is ignored |
| SegmentManagers.SegmentManager.TotalAvailable | crates/entangle-transport/src/segment_mgr.rs:97-99 | the sum of the free chunks, modulo 2^32 |
| SegmentManagers.SegmentManager.TotalAllocated | crates/entangle-transport/src/segment_mgr.rs:102-104 | the sum of the chunks that are out, modulo 2^32 |
| PubSubSteps.InvStep | crates/entangle/src/port/publisher.rs:113-177 | every step of loan, write, send, drop, receive, read and reclaim keeps chunk conservation, the loan count and the payloads under way |
| PubSubSteps.ZeroCopyIsFifo | crates/entangle/src/port/subscriber.rs:109-131 | with one channel, over every run: received payloads are in order a prefix of the payloads at each send, every read through a `Sample` sees its message's payload, and the chunks under way and held carry, unchanged, the payloads of their sends; PubSubCalls.SentIsWritten says what those are |
| PubSubSteps.ChunksConserved | crates/entangle/src/port/publisher.rs:113-177 | over every run each chunk is in exactly one place, none leaks, and no chunk is deallocated while it is free |
| PubSubSteps.QueuesNeverFull | crates/entangle-transport/src/channel.rs:57-87 | over every run `QueueFull` is unreachable and `return_offset` succeeds on its first push |
| PubSubSteps.ActiveLoansExact | crates/entangle/src/port/publisher.rs:113-177 | over every run `active_loans` is exact, at most `max_loaned`, and positive whenever it is about to be decremented; at rest it is the number of chunks that are out |
| PubSubCalls.SentIsWritten | crates/entangle/src/sample.rs:108-132 | over every run, `send` of a loaned chunk succeeds and appends exactly one message; each word of its payload is the last value written to that word through the loan, or 0 if none was, read off the sequence of calls |
| PubSubCalls.ReceivedInOrder | crates/entangle/src/port/subscriber.rs:109-131 | over every run, `receive` takes exactly the oldest message that was sent and not received, and nothing only when there is none; a read through a `Sample` sees the payload of that message |
| PubSubCalls.LoanFailsExactly | crates/entangle/src/port/publisher.rs:113-163 | over every run, `loan` is refused at the limit if and only if `max_loaned` chunks are out, and finds no chunk if and only if every chunk is loaned, under way, held or on its way back |
| PubSubCalls.Drain | crates/entangle/src/port/publisher.rs:113-177 | from every state of a run some run gives everything back: all messages are received, all chunks are free and no loan is counted, so nothing is ever stuck |
| PublisherFanout.FreedOncePerPush | crates/entangle/src/port/publisher.rs:146-177 | with any number of channels, once everything is received, dropped and reclaimed, a message's chunk was deallocated once for each channel that took it |
| PublisherFanout.ExactlyOnceIffOneChannel | crates/entangle/src/port/publisher.rs:169-177 | a chunk that all subscribers took comes back exactly once if and only if there is exactly one subscriber; with none it never comes back |
| PublisherFanout.RoundTrip | crates/entangle/src/port/publisher.rs:146-177 | such a run exists for every number of subscribers |
| PublisherFanout.SendReaches | crates/entangle/src/port/publisher.rs:146-153 | `send` appends the message to each channel before the first full one and changes no other |
| PublisherFanout.OldestFirst | crates/entangle/src/port/subscriber.rs:109-131 | over every run each subscriber takes its messages in the order in which they were sent |
| PublisherPayloads.PayloadsKeptExactly | crates/entangle/src/port/publisher.rs:113-177 | with any number of channels, over every run, queued and held messages keep the payload of their send if and only if there is at most one channel, or nothing can be loaned, or payloads are empty |
| PublisherPayloads.HeldPayloadChanges | crates/entangle/src/port/publisher.rs:169-177 | for every larger number of channels, a concrete run in which `loan` zeroes a chunk that the second subscriber still holds, and no chunk was released twice |
| Ports.Publisher.constructor | crates/entangle/src/port/publisher.rs:43-88 | the pool has `buffer_size as u32` chunks of the payload's size, at least 8 bytes, rounded up |
| Ports.Publisher.Loan | crates/entangle/src/port/publisher.rs:113-163 | `ExceedsMaxLoans` exactly at the limit, else `OutOfMemory` exactly when no chunk is free; otherwise the first free chunk, its payload zeroed and nothing else written, and one more active loan |
| Ports.Publisher.Send | crates/entangle/src/sample.rs:108-112 | the channels before the first that refuses take the offset, the others do not, and the result says which case it was |
| Ports.Publisher.DropLoan | crates/entangle/src/sample.rs:135-140 | the unsent chunk goes back and the loan is counted off |
| Ports.Publisher.ReclaimFrom | crates/entangle/src/port/publisher.rs:171-176 | the inner loop frees every returned offset of one channel, in order |
| Ports.Publisher.Reclaim | crates/entangle/src/port/publisher.rs:169-177 | for pairwise different live offsets: all return queues are emptied, the chunks go back in order, and each is counted off once |
| Ports.Publisher.AddChannel | crates/entangle/src/port/subscriber.rs:56-70 | a connected channel that holds `buffer_size` joins the list |
| Ports.Subscriber.Receive | crates/entangle/src/port/subscriber.rs:109-131 | the oldest message of the first connection that has one; `None` exactly when all are empty; an error only when a disconnected empty connection comes first |
| Ports.Subscriber.DropSample | crates/entangle/src/sample.rs:62-66 | the offset goes back on the channel it came from and no other queue changes; on a full return queue the drop spins |
| ReqResSteps.ConservedStep | crates/entangle/src/port/server.rs:96-156 | every step of clients and server, which may answer different clients at the same time, keeps each chunk in exactly one place |
| ReqResSteps.RunConserved | crates/entangle/src/port/client.rs:98-144 | the same over every run with any number of clients |
| ReqResCalls.StepSeen | crates/entangle/src/port/server.rs:96-156 | each step of clients and server moves its call as a call of an atomic service with one request queue and one response queue for each client |
| ReqResCalls.ServiceIsLinearizable | crates/entangle/src/port/client.rs:98-144 | the calls and returns of every run, with any number of clients, are those of the atomic service: `send` and `respond` append the payload they were called with or answer that the queue is full, `receive` and `try_receive` take and answer the oldest |
| ReqResCalls.ReceiveSeesAll | crates/entangle/src/port/server.rs:96-119 | in every run, a `receive` that ends without a request saw each client's queue empty at some instant of the call; one that ends with a request takes the oldest of a client and saw the queues of all clients before it empty |
| ReqResCalls.NoChunkExactly | crates/entangle/src/port/client.rs:98-100 | over every run, `send` and `respond` find no chunk if and only if every chunk of the pool is in a call, in a queue, or lost |
| ReqResCalls.CallsAdvance | crates/entangle/src/port/server.rs:96-156 | every call of clients and server is wait-free: it always has a next step, each of its steps brings it nearer to its end, and no step of another sets it back |
| ReqResOrder.ResponsesMatchRequests | crates/entangle/src/port/server.rs:96-156 | if the server answers with f, each client in the order of its requests, and no respond fails, each client's responses are a prefix of f mapped over its own requests, over every run with any number of clients |
| ReqResMismatch.RespondMatchExactly | crates/entangle/src/port/server.rs:141-156 | answering an active request keeps its client's match if and only if its answer followed by the answers still to come are the answers that were to come |
| ReqResMismatch.RespondMatchIffOldest | crates/entangle/src/port/server.rs:141-156 | when the answers due to that client are pairwise different, the match survives if and only if the client's oldest request is answered |
| ReqResMismatch.ReverseAnswersMismatch | crates/entangle/src/port/client.rs:133-144 | for every limit and every f that answers two requests differently, a concrete run in which each is answered with f, the later first, and the client receives the wrong answer |
| ReqResBounds.PoolCoversLimit | crates/entangle/src/port/server.rs:45 | the 32-bit chunk count is at least `max_pending_requests` if and only if that number is below 2^31 |
| ReqResBounds.CreatableExactly | crates/entangle/src/port/server.rs:45 | a server can be created unless the limit is a nonzero multiple of 2^31, for which the chunk count is 0 and the index set's assertion refuses it |
| ReqResBounds.NothingFails | crates/entangle/src/port/client.rs:98-116 | if unanswered requests never exceed such a limit, no allocate and no push fails in `send` or `respond`, nothing leaks, and every chunk is free again once all responses are consumed |
| ReqResBounds.LargeLimitsRunDry | crates/entangle/src/port/server.rs:45 | for every creatable limit from 2^31 on, a run within the limit finds the pool empty, because the chunk count is cut to 32 bits |
| ReqResBounds.GuaranteeExactly | crates/entangle/src/port/server.rs:44-45 | where a server can be created, no run within the limit finds the pool empty if and only if the limit is below 2^31 |
| ReqResBounds.LeaksExactly | crates/entangle/src/port/client.rs:98-109 | in every run exactly the pushes that meet a full queue lose a chunk, one each; a lost chunk is never free again |
| ReqResBounds.LeakPossibleExactly | crates/entangle/src/port/client.rs:98-109 | some run loses a chunk if and only if the queue capacity is below the number of chunks |
| ReqResBounds.OutrunServer | crates/entangle/src/port/client.rs:98-109 | the run: one client sends one request more than its queue holds while the server is idle |
| ReqResPorts.Transmit | crates/entangle/src/port/client.rs:98-116 | stores the payload in the first free chunk and pushes its offset; which error in which case; a chunk whose push fails is not given back |
| ReqResPorts.Consume | crates/entangle/src/port/client.rs:133-144 | returns the bytes of the oldest offset and frees exactly its chunk; `None` when nothing waits |
| ReqResPorts.Client.constructor | crates/entangle/src/port/client.rs:35-80 | two connected, empty channels that hold `max_pending_requests` |
| ReqResPorts.Client.Send | crates/entangle/src/port/client.rs:98-112 | transmits on the request channel only |
| ReqResPorts.Client.TryReceive | crates/entangle/src/port/client.rs:133-144 | consumes from the response channel only |
| ReqResPorts.Server.Receive | crates/entangle/src/port/server.rs:96-119 | consumes the oldest request of the first client that has one and touches no other client's and no response queue; `None` exactly when there is none |
| ReqResPorts.Server.Respond | crates/entangle/src/port/server.rs:141-156 | transmits on that client's response channel only; all other queues are unchanged |

## Left out

- MpmcContainer `get`, `for_each`, `len` under concurrency: they read the bit and the value in two steps and promise no snapshot; modelled sequentially.
- `is_empty`, `is_full` and `len` of the queues, seen by a third party while both sides run: no promise to state.
- Writer and Reader as classes: the seqlock is modelled as a step machine only, with every load and store of both loops; run by one caller the retry loop never retries.
- The blocking `PendingResponse::receive`: it waits for another process; the step machine contains the single attempts.
- Ports.Publisher.Reclaim: requires that the returned offsets are live and pairwise different, which PubSubSteps proves for one channel; for the same offset on two channels IndexSet.ReleaseExact shows that no free-list remains to be described.
- Concurrent `respond` calls for one client: they would break the single-producer rule of its response queue.
- Ports.Publisher.Send: one caller at a time; the channel list's mutex is not modelled, and the interleaving of sends with reclaims is covered by PubSubSteps for one channel.
- `SubscriberBuilder::create` over several publishers and `ServerBuilder::create` registration: plumbing around the channel and pool sizing, which are modelled.
- SegmentManagers.SegmentManager.TotalAvailable: sums wrap at 2^32, as with overflow checks off; with checks on the program panics there.
- Typed payloads: words or bytes stand for `T`; a payload smaller than its chunk is the general case.
- The 64-byte header's contents, and `DataSegment::open`, which builds a fresh private allocator.
- Weak memory orderings, cache alignment, `RelocatablePtr`.
- Operating-system calls, the registry, lifecycle files, node and service builders, events, wait sets and the derive macro.
- `disconnect` in the step machines: no port calls it; the class `ZeroCopyChannel` has it.
- Unused settings such as `history_size` and `subscriber_overflow`: stored, never enforced.
