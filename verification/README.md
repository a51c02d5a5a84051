# Verified models of the hard cores of managarm

This project models the parts of managarm whose correctness is hardest to see from the code, and proves what
they are for: that no CPU keeps a stale translation when a TLB shootdown completes, that the buddy table is
determined by the blocks that are handed out, that no completion of the IPC queue is lost or overwritten, and
so on. `dafny verify dfyconfig.toml` checks everything.

Concurrent protocols are state machines over their atomic steps; the theorems hold after every run, whatever
the interleaving. Sequential code that updates state is modelled by classes and methods over arrays and
sequences, each proved against a specification that is stated without reference to the loop that computes it.
Safety alone would be met by a step that does nothing, so the progress of the protocols is proved as well: every
operation ends after a bounded number of steps of its own CPU or thread, and does what it is called for.

| files | component |
|---|---|
| `Shootdown.dfy`, `ShootdownInvariant.dfy`, `ShootdownSafety.dfy`, `ShootdownLockSteps.dfy`, `ShootdownEntrySteps.dfy`, `ShootdownSubmit.dfy`, `ShootdownTheorems.dfy`, `ShootdownProgress.dfy` | TLB shootdown and ASID binding in thor |
| `BuddyTree.dfy`, `BuddyAllocator.dfy` | the physical buddy allocator |
| `Dispatcher.dfy`, `DispatcherLayout.dfy`, `DispatcherProofs.dfy`, `DispatcherTheorems.dfy`, `DispatcherRuns.dfy`, `DispatcherProgress.dfy` | the helix dispatcher and the kernel's side of its completion queue |
| `LogRing.dfy`, `LogRingBuffer.dfy` | the boot log ring of eir |
| `VirtioSpec.dfy`, `VirtioQueue.dfy`, `VirtioRuns.dfy`, `VirtioSplit.dfy` | the virtio split queue driver and its scatter-gather splitting |
| `InitGraph.dfy`, `InitGraphEngine.dfy` | the initgraph engine |
| `Mbus.dfy`, `MbusServer.dfy` | mbus enumeration |
| `AlsaIntervals.dfy`, `AlsaRules.dfy`, `AlsaTightness.dfy` | refinement of ALSA hardware parameters |
| `Cancel.dfy`, `CancelTree.dfy` | the cancellation registry of thor |
| `Netlink.dfy`, `NetlinkBuilder.dfy` | netlink messages |
| `LibcMemory.dfy` | memcpy, memmove and memset of the kernel |
| `Checksums.dfy`, `ChecksumPolynomials.dfy` | table-driven CRC32C and CRC16 |
| `Common.dfy`, `Remainders.dfy`, `Sequences.dfy` | what several components share: options, remainders and sequences |

## How the components are modelled

**Shootdown.** A step is one lock section, one atomic load, one `fetch_sub`, one TLB flush or one completion,
on any CPU, or the hardware filling a TLB. Page table entries have versions and TLBs cache versions, so that
"stale" has a meaning. The shootdown queue is the linked list of the source: readers take no lock, and an
erased node keeps the pointers it had. The proof is a rely-guarantee argument: `Assemble` frames the invariant
over the other CPUs, and each kind of step shows what concerns its own CPU. The kernel TLB of a CPU is taken to
be clean when its global binding is made.

**Buddy allocator.** The table is a real array of 8-bit orders with the index arithmetic of the source; `Entry`
defines, for a set of live blocks, what each byte of it has to be.

**Dispatcher.** The owner thread, one submitting kernel thread at a time (the kernel holds a mutex), and any
number of threads that enqueue to the run queue and alert. Progress counts bytes, elements have their 16-byte
header, and chunks lie in memory at the distance that both sides compute: what a submission writes past the end
of its chunk lands in the header and the first element of the chunk behind it.

**Virtio.** A device takes posted heads in order and returns each of them once, in any order. The drivers
and the interrupt handler interleave at the lock sections and semaphore operations. While `processInterrupt()`
runs, the device goes on: before each iteration it takes and returns what it likes. Queue sizes are powers of two
up to 2^15, as section 2.7 of the VIRTIO 1.2 specification requires.

**ALSA.** Bounds are explicit 32-bit numbers, and quotients wrap around as they do in the source. `ApplyRules`
stops with the outcome `Wrapped` where a bound of an integer interval would wrap around, because the interval
would then grow, or where `std::bit_ceil()` is undefined.

Some promises turn out to hold only under a condition, which is proved to be exact:

- A submission stays in its chunk exactly if the chunk size is not between 48 and 56 modulo 64
  (`StaysInsideIff`): the size test leaves out the header of the element. The 4096 bytes of helix::Dispatcher are
  fine (`HelixSizes`); with 56 bytes a submission overwrites an element that a handle refers to
  (`OverrunHitsHandle`). The 24 bits of a progress word are enough exactly for the sizes of `CountsExactlyIff`.
- The owner thread asserts that a full chunk is never the tail. That holds exactly if some other chunk is not
  pinned by an element handle (`FullAssertion`); with the eight chunks of helix::Dispatcher it fails when the
  owner keeps one element of each of the other seven (`FullAssertionCanFail`).
- `memcpy()` copies a range to a destination inside it exactly for the sizes of a single block (`MemcpyIff`);
  three bytes are not copied correctly (`ThreeBytesUp`). So `memmove()` needs its byte loop.
- `splitContiguous()` is documented to return a minimal sequence. It does so with an IOMMU, and otherwise
  exactly if the first contiguous run does not lose a chunk to its unaligned start (`ShortestIff`); a view of
  8 GiB less 8 KiB that starts at the last byte of a page does (`SplitCanBeLonger`).
- A refinement rule keeps the configurations that satisfy it exactly if the upper bound of its quotient is not
  rounded up to 2^32 (`RuleKeepsIff`). A whole call of `applyRules()` keeps an admissible configuration exactly if
  no such rule is applied during it (`ApplyRules`, over the trace of its applications). That cannot happen if no
  bounds within the initial ones allow it (`CannotOverflow`, `TraceIsSafe`); otherwise the call can report an empty
  interval for an admissible stream (`RefinementCanReject`).
- `intersect_interval()` reports every change exactly if the interval is in normal form or its empty flag is
  wrong (`SilentIff`): other intervals with an open integer bound, or a single value that is not marked as an
  integer, change without a report.
- The product of two intervals is as tight as 32-bit bounds can be exactly if rounding open integer bounds first
  would not make it tighter (`MulIsTightIff`); it is for intervals that `intersect_interval()` leaves (`MulIsTight`),
  but not for the integers above 2 times 3 (`OpenIntegersAreLoose`). The maximum that `intervalStep()` computes lies
  in the interval exactly if the old one was not an open multiple of the step (`StepMaxInsideIff`).
- An update of an mbus property takes effect exactly if the property is new or has the value already
  (`UpdateTakesEffectIff`, `UpdateCanBeLost`).
- Adding an edge to the initgraph between two runs keeps the engine's promises exactly if neither end has run and
  the source is wanted if the target is (`RealizeEdge`).
- The netlink builder makes room for an attribute by its length modulo 2^16. What it then copies stays inside the
  buffer exactly if header and payload are shorter than 2^16 bytes (`RoomIff`, `Build`); a string of 65531 bytes
  gets no room at all (`NoRoom`). The length of a nested attribute is filled in afterwards, so only that may be cut
  off, and then it cannot be read back (`NestedReadIffFits`).
- Iterating netlink attributes ends inside the buffer exactly if the range is tiled by attributes of positive
  length (`EndsIff`).

## Model

| member | source | states |
|---|---|---|
| `ShootdownTheorems.KeepStep` | kernel/thor/generic/asid.cpp:29-343 | every step of every CPU and of the hardware preserves the invariant of the protocol |
| `ShootdownTheorems.RunKeepsInv` | kernel/thor/generic/asid.cpp:29-343 | the invariant holds after every run |
| `ShootdownTheorems.CompletionIsSafe` | kernel/thor/generic/asid.cpp:29-109 | in every run, once a shootdown is done no binding on any CPU holds a translation of the node's pages from before the submission |
| `ShootdownTheorems.CountIsExact` | kernel/thor/generic/asid.cpp:304-343 | `bindingsToShoot_` is the number of counted bindings that have neither processed nor drained the node; the node is queued exactly while it is positive; `complete()` runs at most once |
| `ShootdownTheorems.FetchSubIsOwed` | kernel/thor/generic/asid.cpp:53-71 | a CPU decrements only the count of a queued node that still waits for its binding, although it walks over erased nodes |
| `ShootdownTheorems.QuiescentNodes` | kernel/thor/generic/asid.cpp:29-109 | when all CPUs are idle, a submitted node is incomplete exactly if a binding of another CPU is bound to its space and has not caught up |
| `ShootdownTheorems.OnePassServesAll` | kernel/thor/generic/asid.cpp:29-72 | when a pass of `doShootdown_()` returns, it has served every node submitted before it read the back of the queue, despite concurrent erasing and appending |
| `ShootdownTheorems.RetireCompletesOnce` | kernel/thor/generic/asid.cpp:284-301 | `numBindings_` counts the attached bindings; a retire node completes at most once and only when nothing is bound; until then it is in the space or a CPU holds it |
| `ShootdownProgress.OperationEnds` | kernel/thor/generic/asid.cpp:29-251 | every operation of a CPU ends, after a number of its own steps that is bounded when it starts |
| `ShootdownProgress.IpiServes` | kernel/thor/generic/asid.cpp:238-251 | from every reachable state, one run of the IPI handler ends within 6n + 10 steps of its CPU, n being the last sequence of the space; then no node submitted before waits for the binding, which holds nothing stale; the binding stays attached, or is detached if the space wants to retire |
| `ShootdownProgress.ShootdownCompletes` | kernel/thor/generic/asid.cpp:29-71 | once the handlers of all bindings that a node waits for have run, in any order, the node has been completed exactly once and nobody holds a stale translation |
| `ShootdownProgress.HandlersRun` | kernel/thor/generic/asid.cpp:238-251 | these handlers are a run of the protocol that consists of their own steps |
| `ShootdownProgress.RetireCompletes` | kernel/thor/generic/asid.cpp:284-301 | after `retire()`, one IPI per attached binding, in any order, detaches them all; the retire node completes exactly once and not before the last of them; without bindings it completes at once |
| `ShootdownProgress.RebindBinds` | kernel/thor/generic/asid.cpp:131-179 | afterwards the binding is attached to the new space alone, its table is loaded, and other bindings are as before |
| `ShootdownProgress.UnbindUnbinds` | kernel/thor/generic/asid.cpp:200-236 | afterwards the binding is attached to no space, no node waits for it, and other bindings are as before |
| `ShootdownProgress.InitialBindBinds` | kernel/thor/generic/asid.cpp:181-198 | the global binding of the CPU is attached to the kernel space |
| `ShootdownProgress.SubmitQueues` | kernel/thor/generic/asid.cpp:304-343 | the node is for the pages and the space asked for, and waits for exactly the attached bindings of other CPUs; it is finished at once exactly if there is none |
| `ShootdownProgress.InvalidatesExactly` | kernel/thor/generic/asid.cpp:14-25 | the pages of the node are dropped and no others, unless the whole ASID is flushed |
| `ShootdownProgress.StaleUntilServed` | kernel/thor/generic/asid.cpp:304-343 | a run in which a binding of another CPU caches a page, the page changes and a shootdown is submitted: the binding holds a stale translation and the node is not done |
| `ShootdownSafety.VisitedIsOwed` | kernel/thor/generic/asid.cpp:53-71 | in a state that satisfies the invariant, a foreign node met by the forward walk counted this binding and is still in the queue |
| `ShootdownSafety.ScanEnds` | kernel/thor/generic/asid.cpp:77-108 | a walk that stops with only its own nodes left below its bound preserves the invariant: no debt is forgotten |
| `ShootdownSafety.KeepInvalidate` | kernel/thor/generic/asid.cpp:57-60 | invalidating the pages of a foreign node preserves the invariant and makes the binding fresh for it |
| `ShootdownSafety.KeepDecrement` | kernel/thor/generic/asid.cpp:60-66 | the `fetch_sub` preserves the invariant: one binding less is waited for |
| `ShootdownLockSteps.KeepErase` | kernel/thor/generic/asid.cpp:61-64 | unlinking a node preserves the invariant for all CPUs that stand on it or on its neighbours |
| `ShootdownLockSteps.KeepDetach` | kernel/thor/generic/asid.cpp:160-174 | the lock section of unbinding preserves the invariant: debts up to the sequence read there are left to the drain |
| `ShootdownEntrySteps.KeepRebind` | kernel/thor/generic/asid.cpp:131-158 | binding a new space preserves the invariant: nodes submitted before do not wait for the binding |
| `ShootdownEntrySteps.KeepUnbind` | kernel/thor/generic/asid.cpp:200-236 | the flush of an unbind preserves the invariant |
| `ShootdownEntrySteps.KeepFillTlb` | kernel/thor/generic/asid.cpp:118-158 | a TLB fill at any time preserves the invariant: what is loaded now is newer than any past submission |
| `ShootdownEntrySteps.KeepRetire` | kernel/thor/generic/asid.cpp:284-301 | the lock section of `retire()` preserves the invariant |
| `ShootdownSubmit.SyncShotIsOwn` | kernel/thor/generic/asid.cpp:312-330 | the synchronous loop of a submission covers exactly the bindings of its own CPU that are attached to the space |
| `ShootdownSubmit.UnshotCount` | kernel/thor/generic/asid.cpp:312-337 | `unshotBindings` ends up as the number of attached bindings of the other CPUs |
| `ShootdownSubmit.KeepSubmit` | kernel/thor/generic/asid.cpp:304-343 | a submission preserves the invariant, whether the node is queued or done at once |
| `BuddyTree.TableIsUnique` | kernel/common/physical-buddy.hpp:60-156 | the live blocks determine every byte of the table |
| `BuddyTree.PositionIsInjective` | kernel/common/physical-buddy.hpp:148-156 | different chunks have different table entries |
| `BuddyTree.PositionIsOnto` | kernel/common/physical-buddy.hpp:148-156 | every table entry belongs to a chunk |
| `BuddyTree.EntryOffers` | kernel/common/physical-buddy.hpp:19-75 | the entry of a chunk is at least an order exactly if the chunk contains a free block of that order |
| `BuddyTree.EntryFull` | kernel/common/physical-buddy.hpp:60-75 | an entry equals the order of its chunk exactly if no live block lies within it |
| `BuddyTree.LeftmostIsLowest` | kernel/common/physical-buddy.hpp:175-200 | following only the first fitting child from the first fitting root reaches the lowest free block of the order |
| `BuddyTree.NothingFree` | kernel/common/physical-buddy.hpp:188-191 | if no root offers the order, no block of that order is free |
| `BuddyAllocator.LowestFails` | kernel/common/physical-buddy.hpp:36-56 | if the lowest free block violates the address restriction, so does every free block of the order |
| `BuddyAllocator.LiveBlocksAreApart` | kernel/common/physical-buddy.hpp:175-226 | live blocks are inside the region, start at multiples of their size, and share no byte |
| `BuddyAllocator.AllocationIsDisjoint` | kernel/common/physical-buddy.hpp:175-226 | a free block shares no byte with any live block, and the live blocks stay disjoint when it joins them |
| `BuddyAllocator.IndexFromAddress` | kernel/common/physical-buddy.hpp:228-248 | the shifts of `free()` undo the shift of `allocate()`, and its alignment check holds |
| `BuddyAllocator.StepUp` | kernel/common/physical-buddy.hpp:207-216 | the entry above two correct siblings is what `scanFreeChunks()` computes from them |
| `BuddyAllocator.BuddyAccessor.constructor` | kernel/common/physical-buddy.hpp:160-171 | attaches to a table on which the given blocks are live |
| `BuddyAllocator.BuddyAccessor.DetermineSize` | kernel/common/physical-buddy.hpp:140-145 | the number of chunks of all orders |
| `BuddyAllocator.BuddyAccessor.Initialize` | kernel/common/physical-buddy.hpp:148-156 | the table of the empty set of live blocks |
| `BuddyAllocator.BuddyAccessor.FindAllocatableChunk` | kernel/common/physical-buddy.hpp:19-57 | the first chunk of the range that offers the target, or `illegalAddress` if there is none or it fails the restriction |
| `BuddyAllocator.BuddyAccessor.ScanFreeChunks` | kernel/common/physical-buddy.hpp:60-75 | the next order if both chunks are entirely free, the larger entry otherwise |
| `BuddyAllocator.BuddyAccessor.DescendOne` | kernel/common/physical-buddy.hpp:192-199 | the first fitting child is still on the way to the lowest free block; without one, no block of the order satisfies the restriction |
| `BuddyAllocator.BuddyAccessor.Descend` | kernel/common/physical-buddy.hpp:183-200 | the lowest free block of the order that satisfies the restriction, `illegalAddress` exactly if there is none |
| `BuddyAllocator.BuddyAccessor.AscendOne` | kernel/common/physical-buddy.hpp:210-216 | the entry above becomes that of the new live blocks |
| `BuddyAllocator.BuddyAccessor.Ascend` | kernel/common/physical-buddy.hpp:207-216 | from a table that is wrong only above one block, the table of the new live blocks |
| `BuddyAllocator.BuddyAccessor.Allocate` | kernel/common/physical-buddy.hpp:175-226 | the lowest-addressed free block of the order below 2^addressBits becomes live; `illegalAddress` and no change exactly if no such block exists |
| `BuddyAllocator.BuddyAccessor.Free` | kernel/common/physical-buddy.hpp:228-263 | exactly the freed block is no longer live, and the table is that of the remaining ones |
| `BuddyAllocator.BuddyAccessor.FreeAll` | kernel/common/physical-buddy.hpp:228-263 | freeing all live blocks in any order leaves the table of `initialize()` |
| `BuddyAllocator.BuddyAccessor.TraverseForSanityCheck` | kernel/common/physical-buddy.hpp:77-128 | every assertion of the sanity check holds on every table of live blocks; the result is the entry |
| `DispatcherProofs.KeepStep` | hel/include/helix/ipc.hpp:256-461 | every step of the owner, the kernel and the wakers preserves the invariant of the queue, byte for byte, if the chunk size is roomy and countable |
| `DispatcherLayout.NoOverrun` | kernel/thor/generic/ipc-queue.cpp:121-122 | an element that passes the size test ends within its chunk's part of the memory, for roomy chunk sizes |
| `DispatcherLayout.KeepSizes` | kernel/thor/generic/ipc-queue.cpp:80-194 | every step keeps the progress a multiple of 8 that exceeds the chunk size by at most one element header, for every chunk size |
| `DispatcherLayout.HelixSizes` | hel/include/helix/ipc.hpp:190-190 | the chunk size of helix::Dispatcher is roomy and countable |
| `DispatcherRuns.StaysInsideIff` | kernel/thor/generic/ipc-queue.cpp:121-179 | in all runs with valid sizes every submission writes to its own chunk, exactly if the chunk size is not between 48 and 56 modulo 64 |
| `DispatcherRuns.CountsExactlyIff` | kernel/thor/generic/ipc-queue.cpp:182-186 | in all runs with valid sizes the progress can be read back from its word, exactly for the countable chunk sizes |
| `DispatcherRuns.OverrunHitsHandle` | kernel/thor/generic/ipc-queue.cpp:167-179 | a run with two chunks of 56 bytes after which the element of a live handle has been overwritten |
| `DispatcherTheorems.NoLostWakeup` | hel/include/helix/ipc.hpp:405-461 | while the owner is blocked with no bit set, everything submitted has been received unless the kernel is between its store and its notification, and the run queue is empty unless a waker is about to alert |
| `DispatcherTheorems.NoLostSupply` | kernel/thor/generic/ipc-queue.cpp:131-146 | while a submission is blocked for lack of a chunk, none has been supplied, or the signal is on its way |
| `DispatcherProgress.WaitEnds` | hel/include/helix/ipc.hpp:257-289 | while kernel and wakers are silent, every series of owner steps inside `wait()` is bounded and can be continued until the owner leaves or sleeps; it leaves, after one piece of work, exactly if there is an item to run or an element that it was notified of |
| `DispatcherProgress.OwnerIsNeverStuck` | hel/include/helix/ipc.hpp:405-461 | inside `wait()` the owner has a step to take exactly until it returns or sleeps with no bit set |
| `DispatcherProgress.WaitReturnsIff` | hel/include/helix/ipc.hpp:257-289 | with no submission under way, `wait()` returns exactly if the run queue is not empty or something submitted was not received |
| `DispatcherProgress.FirstWaitSleeps` | hel/include/helix/ipc.hpp:405-461 | from the constructor on, with nothing to do, the owner goes to sleep in `wait()` |
| `DispatcherProgress.PostIsRun` | hel/include/helix/ipc.hpp:442-448 | an item that is posted with an alert gets the owner out of `wait()`, wherever it was in there |
| `DispatcherProgress.SubmissionEnds` | kernel/thor/generic/ipc-queue.cpp:80-200 | within 13 steps of the kernel a submission is over, with its element behind all others and the owner notified, exactly if the element fits or there is another chunk; otherwise it blocks |
| `DispatcherProgress.CopyCopies` | hel/include/helix/ipc.hpp:325-328 | copying a handle gives one more handle to the same element |
| `DispatcherProgress.DropDrops` | hel/include/helix/ipc.hpp:301-307 | dropping a handle of a chunk that is still in use removes this handle and changes nothing else |
| `DispatcherProgress.DropSupplies` | hel/include/helix/ipc.hpp:301-323 | dropping the last handle of a retired chunk resets it, links it behind the tail and signals the kernel |
| `DispatcherTheorems.SuppliedListIsSimple` | hel/include/helix/ipc.hpp:301-323 | the list from `_retrieveChunk` ends at `_tailChunk`, contains the kernel's chunk and has no repeats |
| `DispatcherTheorems.RefCountsAreExact` | hel/include/helix/ipc.hpp:301-328 | `_refCounts` of a chunk is the number of its live handles plus one while it is not retired; a chunk without handles is supplied or being recycled |
| `DispatcherTheorems.SuppliedOnlyWhenFree` | hel/include/helix/ipc.hpp:301-308 | a chunk is supplied again only after it was retired and its last handle was dropped, and then once |
| `DispatcherTheorems.HandlesStayIntact` | hel/include/helix/ipc.hpp:505-516 | for roomy and countable chunk sizes, the bytes that a live handle points to are what was submitted: no submission overwrites them |
| `DispatcherTheorems.DeliveredInOrder` | kernel/thor/generic/ipc-queue.cpp:80-194 | what the contexts received is a prefix of what was submitted: exactly once and in order, across chunks |
| `DispatcherTheorems.FullAssertion` | hel/include/helix/ipc.hpp:425-426 | the assertion on a full chunk holds exactly if another chunk has no live handle |
| `DispatcherRuns.TailCanBeFull` | hel/include/helix/ipc.hpp:425-426 | for every number of chunks and every size from 24 bytes on, a run after which the owner sees the full flag on the tail: it holds a handle on each chunk |
| `DispatcherRuns.FullAssertionCanFail` | hel/include/helix/ipc.hpp:190-190 | such a run from the constructor of helix::Dispatcher |
| `LogRing.WordRoundTrip` | kernel/eir/generic/log-ring.cpp:51-51 | reading a size word gives back what was written |
| `LogRing.KeptIsLongestSuffix` | kernel/eir/generic/log-ring.cpp:27-44 | what the ring keeps is the longest suffix of the history whose effective sizes fit |
| `LogRing.KeptAppend` | kernel/eir/generic/log-ring.cpp:27-40 | dropping from the front until a new record fits keeps what a fresh count over the whole history would keep |
| `LogRing.UnroundedTest` | kernel/eir/generic/log-ring.cpp:29-29 | the eviction test on the unrounded size decides like one on the effective size |
| `LogRing.StoreWrites` | kernel/eir/generic/log-ring.cpp:46-54 | after the three copies the record lies at its pointer, whether or not it wraps |
| `LogRing.StoreKeeps` | kernel/eir/generic/log-ring.cpp:46-54 | the copies leave the records that were kept alone |
| `LogRing.ReadHeader` | kernel/eir/generic/log-ring.cpp:71-78 | the header at the pointer of a record is contiguous and holds its size |
| `LogRing.ReadPayload` | kernel/eir/generic/log-ring.cpp:80-83 | the two copies give the first bytes of the payload across the wrap |
| `LogRing.Locate` | kernel/eir/generic/log-ring.cpp:64-69 | moving a pointer up to the tail moves it to the oldest record that is still in the ring |
| `LogRingBuffer.EirLogRing.constructor` | kernel/eir/generic/eir-internal/log-ring.hpp:21-21 | an empty ring of a power-of-two size |
| `LogRingBuffer.EirLogRing.Invalidate` | kernel/eir/generic/log-ring.cpp:27-44 | the oldest records are dropped until the new one fits, and no more |
| `LogRingBuffer.EirLogRing.StorePayload` | kernel/eir/generic/log-ring.cpp:46-54 | the new record lies behind the kept ones |
| `LogRingBuffer.EirLogRing.Enqueue` | kernel/eir/generic/log-ring.cpp:21-58 | the history grows by the record, and the ring holds its longest suffix that fits |
| `LogRingBuffer.EirLogRing.DequeueAt` | kernel/eir/generic/log-ring.cpp:60-86 | the oldest record from the given one on that is still in the ring, cut to `maxSize`, and the pointer of its successor; nothing at the head |
| `LogRingBuffer.EirLogRing.Replay` | kernel/eir/generic/debug.cpp:88-95 | iterating from pointer 0 yields all records in the ring, oldest first and byte for byte |
| `VirtioSpec.ExactlyOnePlace` | core/virtio/src/core.cpp:979-1068 | every descriptor is on the free stack, held by a driver, or in exactly one posted chain; semaphore and acquired units never exceed the stack |
| `VirtioSpec.CompletedExactlyOnce` | core/virtio/src/core.cpp:1044-1048 | every posted request was completed exactly once or is outstanding under exactly one head |
| `VirtioSpec.RingEmpty` | core/virtio/src/core.cpp:1035-1038 | 16-bit ring indices are equal exactly if nothing is waiting, across wrap-around |
| `VirtioSpec.RingOkPush` | core/virtio/src/core.cpp:1016-1019 | pushing overwrites no entry that is still waiting |
| `VirtioSpec.RingOkPop` | core/virtio/src/core.cpp:1040-1061 | popping leaves the waiting entries in order |
| `VirtioSpec.PostKeepsChains` | core/virtio/src/core.cpp:1006-1021 | the slot of the head is unused, and chains and places stay consistent |
| `VirtioSpec.ProcessKeepsChains` | core/virtio/src/core.cpp:1050-1059 | freeing a chain leaves the others disjoint and acyclic |
| `VirtioQueue.Queue.constructor` | core/virtio/src/core.cpp:885-925 | all descriptors are free and nothing is posted |
| `VirtioQueue.Queue.Pop` | core/virtio/src/core.cpp:985-995 | a caller that has acquired units gets as many different free descriptors |
| `VirtioQueue.Queue.ObtainDescriptors` | core/virtio/src/core.cpp:979-1004 | different free descriptors pass to the caller, cleared but for their stale link; nothing else changes |
| `VirtioQueue.Queue.SetupLink` | core/virtio/src/core.cpp:857-861 | only the next link of a held descriptor changes |
| `VirtioQueue.Queue.LinkAll` | core/virtio/include/core/virtio/core.hpp:284-292 | appending held descriptors one by one forms a chain in that order and touches nothing but their links |
| `VirtioQueue.Queue.Post` | core/virtio/src/core.cpp:1006-1021 | the request is recorded at its head and as the newest one, the head with its chain is the last pending one, and all other heads are unchanged; no waiting slot is overwritten |
| `VirtioQueue.Queue.DeviceTake` | core/virtio/src/core.cpp:1016-1019 | the device finds the posted heads in the order of their posting |
| `VirtioQueue.Queue.DeviceHasWork` | core/virtio/src/core.cpp:1016-1019 | comparing 16-bit indices tells exactly whether a posted chain is pending |
| `VirtioQueue.Queue.DeviceReturn` | core/virtio/src/core.cpp:1035-1042 | a head that was taken is returned in the next used slot, with the length that the device wrote; all other heads are unchanged |
| `VirtioQueue.Queue.FreeChain` | core/virtio/src/core.cpp:1050-1059 | following the links pushes exactly the descriptors of the posted chain |
| `VirtioQueue.Queue.Process` | core/virtio/src/core.cpp:1028-1062 | the oldest returned head completes the request posted there with the written length, and its chain is free; nothing happens if nothing was returned |
| `VirtioSpec.ProcessRuns` | core/virtio/src/core.cpp:1035-1061 | processing a returned head leaves the device free to do what it could do before |
| `VirtioQueue.Queue.ProcessNext` | core/virtio/src/core.cpp:1029-1067 | an iteration completes the next of all returned heads, or finds that there is none |
| `VirtioQueue.Queue.ProcessInterrupt` | core/virtio/src/core.cpp:1028-1068 | while the device goes on taking and returning heads between the iterations, everything that it returned before the last comparison of the indices completes, in the order of the returns |
| `VirtioRuns.CompletionsAreRight` | core/virtio/src/core.cpp:1006-1068 | in every run of drivers and device from the constructor on, the completions handed out are, in order, what the device ended: each is the request posted last at the head, with the length that the device returned |
| `VirtioRuns.RecordedCompletes` | core/virtio/src/core.cpp:1044-1048 | a completion of such a run is what the lock section of the interrupt handler returns |
| `VirtioSplit.NoneShorter` | core/virtio/src/core.cpp:927-971 | a lower bound for every split of a view into usable chunks |
| `VirtioSplit.FewestIsReached` | core/virtio/src/core.cpp:927-971 | some split reaches the bound |
| `VirtioSplit.ChunksSplit` | core/virtio/src/core.cpp:947-970 | the chunks are contiguous in DMA space, fit a descriptor and cover the view in order |
| `VirtioSplit.FewestFromPage` | core/virtio/src/core.cpp:947-970 | from a page boundary, and with an IOMMU, the chunks are as few as possible |
| `VirtioSplit.NoneShorterAtPages` | core/virtio/src/core.cpp:947-970 | no split that cuts only at page boundaries is shorter |
| `VirtioSplit.ShortestIff` | core/virtio/include/core/virtio/core.hpp:352-355 | the split is minimal exactly with an IOMMU or if the first contiguous run loses no chunk to its unaligned start |
| `VirtioSplit.SplitCanBeLonger` | core/virtio/include/core/virtio/core.hpp:352-355 | a contiguous view for which it is not minimal |
| `VirtioSplit.SplitMapped` | core/virtio/src/core.cpp:936-945 | the first loop computes the specified chunks |
| `VirtioSplit.SplitPages` | core/virtio/src/core.cpp:949-970 | the second loop computes the specified chunks |
| `VirtioSplit.CollectPages` | core/virtio/src/core.cpp:953-967 | the loop has cut the view into the specified chunks up to the one that is still open |
| `VirtioSplit.SplitContiguous` | core/virtio/src/core.cpp:927-971 | the chunks cover the view, and each is contiguous in DMA space |
| `InitGraph.AddEdge` | kernel/common/initgraph.hpp:202-208 | in-lists and out-lists stay mirror images |
| `InitGraph.UndoneAfter` | kernel/common/initgraph.hpp:160-167 | finishing a node lowers the count of undone sources by the number of its edges |
| `InitGraph.StuckMeansCycle` | kernel/common/initgraph.hpp:170-181 | a wanted node that is blocked lies behind a cycle of wanted nodes |
| `InitGraph.CycleIsNotDone` | kernel/common/initgraph.hpp:148-168 | no node of a cycle is ever activated |
| `InitGraph.UnreachedIffCycle` | kernel/common/initgraph.hpp:170-181 | some wanted node is left over exactly if the wanted nodes contain a cycle |
| `InitGraph.ClosedChain` | kernel/common/initgraph.hpp:119-129 | what a wanted node needs is wanted |
| `InitGraphEngine.Engine.constructor` | kernel/common/initgraph.hpp:184-194 | an empty graph |
| `InitGraphEngine.Engine.RealizeNode` | kernel/common/initgraph.hpp:196-200 | one more node without edges, before or between runs |
| `InitGraphEngine.Engine.RealizeEdge` | kernel/common/initgraph.hpp:202-208 | one more edge on both sides, before or between runs; everything stays right exactly if neither end is done and the source is wanted if the target is |
| `InitGraphEngine.Engine.MarkGoal` | kernel/common/initgraph.hpp:113-129 | exactly the ancestors of the goal become wanted |
| `InitGraphEngine.Engine.CollectPending` | kernel/common/initgraph.hpp:136-145 | pending is exactly the wanted, undone nodes without undone sources, each once |
| `InitGraphEngine.Engine.Satisfy` | kernel/common/initgraph.hpp:160-167 | after the loop over the out-edges the counts are exact again and the newly ready nodes are pending |
| `InitGraphEngine.Engine.RunPending` | kernel/common/initgraph.hpp:148-168 | activations go on, each node at most once and after its dependencies, until every wanted node that is left is blocked |
| `InitGraphEngine.Engine.Run` | kernel/common/initgraph.hpp:106-182 | over any series of runs: exactly the needs of the goals are wanted, earlier activations stand, and `onUnreached()` fires exactly if the wanted nodes contain a cycle; otherwise all are done |
| `Mbus.UpdatesKeepMatches` | mbus/src/main.cpp:62-64 | an entity that matches a filter still matches after any update |
| `Mbus.UpdateTakesEffectIff` | mbus/src/main.cpp:62-64 | a property has the updated value exactly if it is new or had it already |
| `Mbus.UpdateCanBeLost` | mbus/src/main.cpp:374-376 | an entity that matches the old value and not the new one after its update |
| `Mbus.MatchesFromIn` | mbus/src/main.cpp:263-295 | the enumeration yields an entity exactly if it is in the tree at or above the cursor and matches |
| `Mbus.MatchesIffHasClause` | mbus/src/main.cpp:161-188 | an entity matches a filter exactly if it has all properties of some clause of the disjunctive normal form of the filter |
| `Mbus.OperandLaws` | mbus/src/main.cpp:175-184 | empty conjunctions match everything, empty disjunctions nothing, and concatenated operand lists are conjunctions and disjunctions of the parts |
| `Mbus.PageIsComplete` | mbus/src/main.cpp:258-298 | a page holds every match between the cursor and the returned `out_seq` |
| `Mbus.PageIsFull` | mbus/src/main.cpp:275-295 | a page has at most 16 entities, and fewer only if there is nothing more to wait for |
| `Mbus.PageAscends` | mbus/src/main.cpp:258-298 | a page holds only matches, in ascending order below `out_seq`, and `out_seq` is beyond the cursor |
| `Mbus.EnumerateKeeps` | mbus/src/main.cpp:300-319 | resuming at `out_seq` keeps the client up to date and makes progress |
| `Mbus.RunKeeps` | mbus/src/main.cpp:258-319 | for any interleaving of creations, updates and enumerations the client has the current version of every match below its cursor, and saw each version at most once |
| `Mbus.CaughtUpClientSawAll` | mbus/src/main.cpp:300-319 | a client that has caught up has the current version of every match |
| `Mbus.CreatedIsSeen` | mbus/src/main.cpp:479-487 | an object that is created is seen by every client whose filter it matches, once it has caught up, with the ID, name and properties it was created with |
| `Mbus.UpdateChangesOne` | mbus/src/main.cpp:369-382 | an update changes one entity, which moves to the newest sequence with its old properties and the new ones |
| `Mbus.UpdateIsSeen` | mbus/src/main.cpp:369-382 | an update is seen by every client whose filter the entity matched |
| `MbusServer.FirstFromIsSmallest` | mbus/src/main.cpp:240-256 | the specified lower bound is an entity at or above the cursor, and no other such entity has a smaller sequence |
| `MbusServer.SeqLowerBound` | mbus/src/main.cpp:240-256 | the descent finds the smallest sequence at or above the cursor, nothing exactly if there is none |
| `MbusServer.Successor` | mbus/src/main.cpp:269-269 | the leftmost entity to the right below or the nearest one above where the path turns left is the next entity in the order of the tree |
| `MbusServer.TryEnumerate` | mbus/src/main.cpp:258-298 | the walk over the tree returns the specified page |
| `MbusServer.RemoveAt` | mbus/src/main.cpp:378-378 | removing an entity from the search tree removes exactly it from the order |
| `MbusServer.InsertLast` | mbus/src/main.cpp:381-381 | inserting the greatest sequence appends to the order |
| `MbusServer.Server.CreateObject` | mbus/src/main.cpp:479-487 | the new entity has a fresh id and the newest sequence |
| `MbusServer.Server.UpdateProperties` | mbus/src/main.cpp:369-382 | the entity gets its new properties and moves to the newest sequence; all others stay |
| `MbusServer.Server.Enumerate` | mbus/src/main.cpp:258-298 | the page of the abstract bus |
| `AlsaIntervals.IntersectKeeps` | drivers/libsound/src/rules.hpp:23-74 | a value in both intervals is in the intersection, and then no bound wraps |
| `AlsaIntervals.IntersectIsTight` | drivers/libsound/src/rules.hpp:23-74 | a value of the intersection was in both intervals |
| `AlsaIntervals.IntersectIsStable` | drivers/libsound/src/rules.hpp:23-74 | intersecting again with the same constraint changes nothing |
| `AlsaIntervals.SilentIff` | drivers/libsound/src/rules.hpp:50-74 | an interval never changes without being reported in `cmask`, exactly if it is in normal form or its empty flag is wrong |
| `AlsaIntervals.IntersectDescends` | drivers/libsound/src/rules.hpp:23-74 | a rank never rises, and falls when a change is reported |
| `AlsaIntervals.SafeMul` | drivers/libsound/src/rules.hpp:105-113 | the product, saturated at UINT32_MAX |
| `AlsaIntervals.MulKeeps` | drivers/libsound/src/rules.hpp:134-149 | the product of contained values is in the product interval |
| `AlsaIntervals.DivKeeps` | drivers/libsound/src/rules.hpp:151-176 | the quotient of contained values is in the quotient interval |
| `AlsaIntervals.DivNeverWraps` | drivers/libsound/src/rules.hpp:95-103 | rounding up a plain quotient never leaves the 32 bits |
| `AlsaIntervals.QuotientKeeps` | drivers/libsound/src/rules.hpp:178-225 | the scaled quotient of contained values is in the interval, unless its upper bound wraps |
| `AlsaIntervals.WrappedQuotientRejects` | drivers/libsound/src/rules.hpp:178-225 | if the upper bound wraps, the interval rejects every positive value |
| `AlsaIntervals.QuotientCanReject` | drivers/libsound/src/rules.hpp:178-203 | concrete frames and microseconds for which it does |
| `AlsaIntervals.StepKeeps` | drivers/libsound/src/rules.hpp:227-244 | contained multiples of the step survive the alignment |
| `AlsaIntervals.BitCeilIsLeast` | drivers/libsound/src/rules.hpp:246-250 | no power of two at or above the number is smaller |
| `AlsaIntervals.BitFloorIsGreatest` | drivers/libsound/src/rules.hpp:252-255 | no power of two at or below the number is greater |
| `AlsaIntervals.Pow2Keeps` | drivers/libsound/src/rules.hpp:246-261 | contained powers of two survive |
| `AlsaTightness.MulIsTight` | drivers/libsound/src/rules.hpp:134-149 | without saturation, no interval that holds all products of contained values has tighter bounds |
| `AlsaTightness.MulIsTightIff` | drivers/libsound/src/rules.hpp:134-149 | for positive intervals, that holds exactly if rounding open integer bounds first would not make the product tighter |
| `AlsaTightness.QuotientIsTight` | drivers/libsound/src/rules.hpp:178-225 | no interval that holds all quotients of contained values has tighter bounds, unless a bound leaves the 32 bits |
| `AlsaTightness.DivIsTight` | drivers/libsound/src/rules.hpp:151-176 | the same for `intervalDiv()`, which never leaves the 32 bits |
| `AlsaTightness.ScaleIsTight` | drivers/libsound/src/rules.hpp:178-203 | the same for `intervalMulDiv()` with a constant factor |
| `AlsaTightness.MulDivIsTight` | drivers/libsound/src/rules.hpp:205-225 | the same for `intervalMulDiv()` with a constant divisor |
| `AlsaTightness.OpenIntegersAreLoose` | drivers/libsound/src/rules.hpp:134-149 | integers with an open bound, for which a tighter interval holds all products |
| `AlsaTightness.StepIsTight` | drivers/libsound/src/rules.hpp:227-244 | the new bounds are multiples of the step, and no multiple is nearer to the old ones |
| `AlsaTightness.StepMaxInsideIff` | drivers/libsound/src/rules.hpp:234-238 | the new maximum lies in the old interval exactly if the old one was not an open multiple of the step |
| `AlsaTightness.Pow2IsTight` | drivers/libsound/src/rules.hpp:246-261 | the new bounds are powers of two, and none is nearer to the old ones |
| `AlsaRules.EquationsSatisfyRules` | drivers/libsound/src/rules.cpp:9-305 | whatever satisfies the equations between the parameters satisfies each of the 19 common rules |
| `AlsaTightness.RulesAreEquations` | drivers/libsound/src/rules.cpp:9-305 | the 19 common rules together are equivalent to the equations and the sample sizes of the formats |
| `AlsaTightness.EveryParameterIsDerived` | drivers/libsound/src/rules.cpp:52-305 | every parameter of every equation is derived from the other two by exactly one of the common rules |
| `AlsaTightness.DependenciesAreNeeded` | drivers/libsound/src/rules.hpp:79-93 | a rule declares no dependency in vain |
| `AlsaTightness.FormatBitsIsTight` | drivers/libsound/src/rules.cpp:9-49 | the bounds of the sample bits are the smallest and the largest size of a format |
| `AlsaRules.ConstraintKeeps` | drivers/libsound/src/rules.cpp:9-283 | a rule's constraint contains every value that satisfies the rule |
| `AlsaRules.RuleKeeps` | drivers/libsound/src/device.cpp:253-277 | applying a rule whose quotient does not overflow loses no configuration that satisfies it, and then no bound wraps around |
| `AlsaRules.OverflowLoses` | drivers/libsound/src/rules.hpp:178-225 | if the quotient overflows, a real-valued parameter loses all its values and an integer parameter's maximum becomes UINT32_MAX |
| `AlsaRules.RuleKeepsIff` | drivers/libsound/src/device.cpp:253-277 | a rule keeps a configuration that satisfies it exactly if its quotient does not overflow |
| `AlsaRules.StillNoOverflow` | drivers/libsound/src/device.cpp:247-287 | if no bounds within the first ones make the quotient overflow, it does not overflow later either |
| `AlsaRules.SmallQuotients` | drivers/libsound/src/rules.hpp:115-132 | it cannot overflow if the greatest product is below UINT32_MAX times the least divisor |
| `AlsaRules.RefinementCanReject` | drivers/libsound/src/rules.cpp:116-127 | intervals and an admissible stream of one megahertz for which the first rule that is applied leaves an empty interval |
| `AlsaRules.RuleDescends` | drivers/libsound/src/device.cpp:247-287 | a rule that reports a change lowers the total rank |
| `AlsaRules.ConstraintDepends` | drivers/libsound/src/rules.cpp:9-283 | a constraint is a function of the declared dependencies of its rule |
| `AlsaRules.CoveredAfter` | drivers/libsound/src/device.cpp:250-284 | applying another rule leaves a stable rule stable, unless it marks one of its dependencies |
| `AlsaRules.ConfigurationIsAdmissible` | drivers/libsound/src/device.cpp:98-185 | a configuration that meets equations, format, device limits and input intervals is one that refinement must keep |
| `AlsaRules.TraceNarrows` | drivers/libsound/src/device.cpp:247-287 | no series of rule applications adds a value to an interval |
| `AlsaRules.TraceKeeps` | drivers/libsound/src/device.cpp:247-287 | a series of applications without an overflow keeps every admissible configuration and never wraps a bound |
| `AlsaRules.TraceLoses` | drivers/libsound/src/device.cpp:247-287 | a series with an overflow stops at a bound that wraps, or loses every admissible configuration |
| `AlsaRules.TraceIsSafe` | drivers/libsound/src/device.cpp:247-287 | if no quotient can overflow within the initial bounds, none does in any series of applications |
| `AlsaRules.Params.IntersectInterval` | drivers/libsound/src/rules.hpp:23-74 | the interval becomes the intersection, and `cmask` gets exactly the reported change |
| `AlsaRules.Params.Pass` | drivers/libsound/src/device.cpp:251-277 | one pass applies rules of the trace in turn, covers the requested rules by the new mask, lowers the rank if it marks anything, and stops early only at an empty interval or a bound that wraps |
| `AlsaRules.Params.ApplyRules` | drivers/libsound/src/device.cpp:247-287 | terminates; refines and keeps an admissible configuration exactly if no rule overflows in it, so never loses one if no quotient can overflow within the initial bounds; it gains no value, and applies only rules that depend on a requested or changed parameter; from normal form, it ends where no requested rule changes anything and reports exactly the parameters that changed |
| `Cancel.KeepStep` | kernel/thor/generic/cancel.cpp:8-100 | every step of register, unregister and cancel preserves the invariant of the registry |
| `Cancel.DestroyedOnce` | kernel/thor/generic/cancel.cpp:31-100 | a node is destroyed at most once, exactly when neither guard nor canceller refers to it; its event fires at most once |
| `Cancel.NoUseAfterDestruction` | kernel/thor/generic/cancel.cpp:8-100 | no step touches a destroyed node |
| `Cancel.CollectsExactly` | kernel/thor/generic/cancel.cpp:60-87 | cancel collects exactly the registered, uncancelled nodes with the tag, duplicates included, each once |
| `Cancel.CancelsAllItCollected` | kernel/thor/generic/cancel.cpp:89-99 | on return the event of everything collected was cancelled, and the result is their number |
| `Cancel.RegisterRegisters` | kernel/thor/generic/cancel.cpp:8-29 | the new node carries the tag that was asked for, is in the tree and not cancelled, and nothing else changes; tag 0 registers nothing |
| `Cancel.GuardGoes` | kernel/thor/generic/cancel.cpp:31-46 | a guard that unregisters and drops its reference is gone, the node is out of the tree, and destroyed exactly if no canceller holds it |
| `Cancel.CancelReturns` | kernel/thor/generic/cancel.cpp:89-100 | a call of `cancel()` that is under way returns after two steps per node, and touches only nodes that it holds |
| `Cancel.CancelIsExact` | kernel/thor/generic/cancel.cpp:48-100 | after a call of `cancel()` the events of exactly the nodes registered with the tag and not cancelled before have been cancelled; all others are as they were |
| `CancelTree.FindLeftmost` | kernel/thor/generic/cancel.cpp:64-77 | the descent finds the first node with the tag in the order of the tree, nothing exactly if there is none |
| `CancelTree.Walk` | kernel/thor/generic/cancel.cpp:79-86 | the walk over successors meets exactly the uncancelled nodes with the tag |
| `Netlink.ReadsEncoded` | core/include/core/netlink.hpp:222-341 | an encoded attribute reads back with its type, payload and nesting |
| `Netlink.EncodedBytes` | core/include/core/netlink.hpp:95-111 | on the wire, the length comes first with its low byte in front, then the type, then the payload and zeros |
| `Netlink.ReadsAll` | core/include/core/netlink.hpp:290-341 | iterating encoded attributes meets each of them in order and stops at their end |
| `Netlink.PacketRoundTrip` | core/include/core/netlink.hpp:315-324 | iterating a finished packet gives back the attribute tree and stops exactly at `nlmsg_len` |
| `Netlink.StrlenOf` | core/include/core/netlink.hpp:267-275 | the terminator that the builder wrote ends the string |
| `Netlink.TextReadIffNoNul` | core/include/core/netlink.hpp:113-131 | a string attribute is written inside the buffer and reads back exactly if the string has no NUL and the attribute is shorter than 2^16 bytes |
| `Netlink.DataReadIffFits` | core/include/core/netlink.hpp:95-111 | a data attribute is written inside the buffer and reads back exactly if it is shorter than 2^16 bytes |
| `Netlink.NestedReadIffFits` | core/include/core/netlink.hpp:136-156 | a nested attribute with readable children is always written, and reads back exactly if it is shorter than 2^16 bytes |
| `Netlink.RoomIff` | core/include/core/netlink.hpp:119-130 | header and payload stay inside the room that the truncated length gives exactly if the attribute is shorter than 2^16 bytes |
| `Netlink.NoRoom` | core/include/core/netlink.hpp:113-131 | a string of 65531 bytes gets no room at all |
| `Netlink.AllFitIsWritable` | core/include/core/netlink.hpp:61-214 | attributes that can be read back are written inside the buffer |
| `Netlink.EndsIff` | core/include/core/netlink.hpp:299-310 | for any bytes, the iteration ends, and reads only inside the buffer, exactly if the range is tiled by attributes of positive length |
| `NetlinkBuilders.NetlinkBuilder.constructor` | core/include/core/netlink.hpp:61-65 | an empty buffer |
| `NetlinkBuilders.NetlinkBuilder.BufferAlign` | core/include/core/netlink.hpp:203-210 | zeros up to the next multiple of four |
| `NetlinkBuilders.NetlinkBuilder.Raw` | core/include/core/netlink.hpp:71-93 | the bytes and their padding are appended |
| `NetlinkBuilders.NetlinkBuilder.NlAttr` | core/include/core/netlink.hpp:95-111 | stays inside the buffer exactly if the attribute is shorter than 2^16 bytes; then the encoding of one data attribute is appended |
| `NetlinkBuilders.NetlinkBuilder.NlAttrString` | core/include/core/netlink.hpp:113-131 | stays inside the buffer exactly if the attribute is shorter than 2^16 bytes; then the encoding of one string attribute is appended |
| `NetlinkBuilders.NetlinkBuilder.NestedNlAttr` | core/include/core/netlink.hpp:136-156 | stays inside the buffer exactly if all its children do; then the encoding of the attribute with its children is appended, its length filled in afterwards and perhaps cut off |
| `NetlinkBuilders.NetlinkBuilder.Finish` | core/include/core/netlink.hpp:191-198 | the length of the whole buffer is in its first word, nothing else changes |
| `NetlinkBuilders.Build` | core/include/core/netlink.hpp:61-214 | building a message gives the specified packet exactly if every attribute that is not nested is shorter than 2^16 bytes |
| `NetlinkBuilders.Iterate` | core/include/core/netlink.hpp:290-324 | the iterator visits the positions of any range that it gets through, in order |
| `NetlinkBuilders.WalkReads` | core/include/core/netlink.hpp:290-324 | the attributes that were written lie at these positions, one each, and read back |
| `LibcMemory.CopyMore` | kernel/common/libc.cpp:81-133 | a block that is loaded before it is stored continues a copy, even if the destination overlaps the source from below |
| `LibcMemory.Memcpy` | kernel/common/libc.cpp:77-136 | for every overlap, the blocks of the schedule are moved one after the other; for disjoint ranges and destinations below the source that is a copy, and nothing else changes |
| `LibcMemory.BlocksCopy` | kernel/common/libc.cpp:77-136 | for disjoint ranges and destinations below the source, blocks of any sizes make up a copy |
| `LibcMemory.FirstBlockHits` | kernel/common/libc.cpp:81-134 | with more than one block and a destination inside the source, a byte of the result is not the one of the source |
| `LibcMemory.MemcpyIff` | kernel/common/libc.cpp:77-136 | all memories are copied correctly exactly for disjoint ranges, destinations below the source, and sizes of a single block |
| `LibcMemory.ThreeBytesUp` | kernel/common/libc.cpp:124-134 | three bytes, one byte up: what is left and what a copy would leave |
| `LibcMemory.Memmove` | kernel/common/libc.cpp:230-247 | the same for every overlap |
| `LibcMemory.CopiedBytes` | kernel/common/libc.cpp:230-247 | what that means address by address |
| `LibcMemory.Pattern64IsFill` | kernel/common/libc.cpp:154-218 | every byte of the replicated word is the fill byte |
| `LibcMemory.SmallPatternsAreFills` | kernel/common/libc.cpp:154-218 | the same for its narrower parts |
| `LibcMemory.Memset` | kernel/common/libc.cpp:154-218 | a byte fill for every address and length |
| `Checksums.StepIsLinear` | drivers/libblockfs/src/checksums.hpp:32-32 | a step of the division distributes over exclusive or |
| `Checksums.SymbolAtOnce` | drivers/libblockfs/src/checksums.hpp:17-18 | eight steps are a shift by eight and the steps of the low byte alone |
| `Checksums.AddPower` | drivers/libblockfs/src/checksums.hpp:34-35 | adding a power of two to a multiple of its double is exclusive or of the bits |
| `Checksums.PowerEntry` | drivers/libblockfs/src/checksums.hpp:30-32 | the entry of a power of two needs only single steps from the lowest bit |
| `Checksums.SumEntry` | drivers/libblockfs/src/checksums.hpp:34-35 | the entry of a sum is the exclusive or of the entries |
| `Checksums.FillRow` | drivers/libblockfs/src/checksums.hpp:34-35 | the inner loop halves the spacing of the correct entries |
| `Checksums.MakeTable` | drivers/libblockfs/src/checksums.hpp:27-39 | every entry of the table is the remainder of its index |
| `Checksums.Lookup` | drivers/libblockfs/src/checksums.hpp:17-18 | one table lookup does eight steps of the division |
| `Checksums.Crc.constructor` | drivers/libblockfs/src/checksums.hpp:12-12 | the register holds the seed and the table is correct |
| `Checksums.Crc.AddData` | drivers/libblockfs/src/checksums.hpp:14-20 | for every seed and byte string the register is the one that bit-at-a-time division leaves |
| `Checksums.Crc32c` | drivers/libblockfs/src/checksums.hpp:11-42 | the 32-bit register is the remainder for the polynomial of Crc32c, eight bits at a time |
| `Checksums.Crc16` | drivers/libblockfs/src/checksums.hpp:44-75 | the same for the 16-bit register and polynomial of Crc16 |
| `ChecksumPolynomials.StepIsRemainder` | drivers/libblockfs/src/checksums.hpp:32-32 | a step multiplies by x and takes off the generator if the result has its degree |
| `ChecksumPolynomials.ReferenceIsRemainder` | drivers/libblockfs/src/checksums.hpp:14-20 | the checksum is congruent to the message, shifted by the width of the register, with the seed in front, modulo the generator, and of lower degree |
| `ChecksumPolynomials.RemainderIsUnique` | drivers/libblockfs/src/checksums.hpp:14-20 | only one polynomial of lower degree is |
| `ChecksumPolynomials.Crc32cGenerator` | drivers/libblockfs/src/checksums.hpp:32-32 | the constant of Crc32c stands for the Castagnoli polynomial, given by its exponents |
| `ChecksumPolynomials.Crc16Generator` | drivers/libblockfs/src/checksums.hpp:65-65 | the constant of Crc16 stands for x^16 + x^15 + x^2 + 1 |
| `ChecksumPolynomials.ChecksumsAreRemainders` | drivers/libblockfs/src/checksums.hpp:11-75 | both checksums are remainders by these generators |

## Left out

- ShootdownProgress.ShootdownCompletes: the handlers run one after the other; that they may interleave with everything else is the subject of OnePassServesAll and CompletionIsSafe. That an IPI is delivered is left to the hardware.
- Weak memory: atomic steps are sequentially consistent, and shootdown nodes stay readable while a traversal may reach them.
- Choice of bindings: `activate()` with its LRU stamps is not modelled; rebinding any binding at any time covers every choice it could make.
- Spaces after retirement: nobody binds a space after retiring it, and a space is retired once; the source leaves that to its callers.
- Submission queue of the dispatcher: `pushSq()` and the kernel's `processSq()` are not modelled; they mirror the completion queue with the roles exchanged.
- Error path of the completion queue: `notifyError()` and queues without any chunk are not modelled; what a submission writes past the last chunk is not followed further.
- BuddyAllocator.BuddyAccessor.Free: releases blocks that are live; freeing anything else violates an assertion of the source.
- Buddy address arithmetic: regions end at or below `illegalAddress`, so that no 64-bit address wraps around.
- Log ring pointers: they are unbounded numbers; the wrap-around of a 64-bit byte count is not modelled. Masking with the size less one is the remainder, since sizes are powers of two.
- VirtioQueue.Queue.ProcessInterrupt: no driver obtains or posts descriptors during the call; that they do so between the lock sections is covered by Process and Release.
- Virtio transports and buffer setup: feature negotiation, interrupts and the contents of `setupBuffer()` are not modelled.
- Initgraph callbacks: activation hooks and reports are recorded as the order of activations.
- Mbus transport: filters and properties are values; decoding messages, lanes and the global sequence's 64-bit wrap-around are not modelled, and waiting for the sequence is an enabling condition.
- Mbus tree balancing: the red-black tree is a search tree; rotations do not change its order.
- NetlinkBuilders.Build: ends where a copy would leave the buffer; what the source overwrites there is not modelled.
- AlsaRules.Params.ApplyRules: stops where a bound of an integer interval would wrap around, or `std::bit_ceil()` is undefined; the source goes on there with an interval that has grown, and the argument for its termination no longer holds.
- AlsaRules.Params.ApplyRules: the fixpoint and the exact report are stated for intervals in normal form; SilentIff shows why.
- AlsaTightness.QuotientIsTight: is about intervals as `intersect_interval()` leaves them, with closed bounds for integers, and positive divisors; without a bound below the divisor there is none above the quotients.
- ALSA masks: only the format mask takes part, as the set of its sample sizes.
- Cancellation of coroutines: `event.cancel()` is a counter; what the cancelled operation does is not modelled.
- Netlink rtattr functions of the builder: their bytes are those of the nlattr functions.
- LibcMemory.Memcpy: the byte-wise versions for 32-bit targets are left out, as is wrap-around of addresses at the end of the address space.
- BPF, GPT, device tree, id allocation, terminal and framebuffer code: their properties are short or depend on data that is not in the repository.
